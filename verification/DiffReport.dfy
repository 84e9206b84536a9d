// What a report of diffScanVersions says, in rows and columns: which rows are one service or connection, and which
// columns a change is noticed in.
module DiffReport {
  import opened Common
  import opened ScanDiff
  import Text

  // ---------------------------------------------------------------- which rows are one

  // Two rows are one service when their repository and name agree.
  ghost predicate SameService(a: Row, b: Row) {
    Field(a, "repo_id") == Field(b, "repo_id") && Field(a, "name") == Field(b, "name")
  }

  // A NULL and an empty text are one.
  ghost predicate SameOrEmpty(a: Value, b: Value) {
    a == b || ((a.Null? || a == Str("")) && (b.Null? || b == Str("")))
  }

  // The agent's own token, or the canonical one of a row without it, or nothing.
  ghost predicate IsToken(row: Row, token: string) {
    if !Field(row, "protocol_raw").Null? then token == AsText(Field(row, "protocol_raw"))
    else if !Field(row, "protocol").Null? then token == AsText(Field(row, "protocol"))
    else token == ""
  }

  // The tokens agree but for case and surrounding space.
  ghost predicate SameProtocol(a: Row, b: Row) {
    exists s, t, u, v :: IsToken(a, s) && IsToken(b, t) && Text.IsTrimmed(s, u) && Text.IsTrimmed(t, v)
                         && Text.Lower(u) == Text.Lower(v)
  }

  // Two rows are one connection when the names of their ends, their protocol tokens, methods and paths agree.
  ghost predicate SameConnection(a: Row, b: Row) {
    && Field(a, "source_name") == Field(b, "source_name") && Field(a, "target_name") == Field(b, "target_name")
    && SameProtocol(a, b)
    && SameOrEmpty(Field(a, "method"), Field(b, "method")) && SameOrEmpty(Field(a, "path"), Field(b, "path"))
  }

  lemma ServiceKeysAgree(a: Row, b: Row)
    ensures ServiceKey(a) == ServiceKey(b) <==> SameService(a, b)
  {
    var k, l := ServiceKey(a), ServiceKey(b);
    assert k == l <==> k[0] == l[0] && k[1] == l[1];
  }

  lemma TokenOf(row: Row) returns (token: string)
    ensures forall other :: IsToken(row, other) <==> other == token
    ensures ConnectionKey(row)[2] == Str(Text.Lower(Text.Trim(token)))
  {
    token := AsText(OrElse(OrElse(Field(row, "protocol_raw"), Field(row, "protocol")), Str("")));
  }

  lemma SameProtocolIff(a: Row, b: Row)
    ensures SameProtocol(a, b) <==> ConnectionKey(a)[2] == ConnectionKey(b)[2]
  {
    var s := TokenOf(a);
    var t := TokenOf(b);
    Text.TrimIs(s);
    Text.TrimIs(t);
    hide IsToken, ConnectionKey, Text.IsTrimmed, Text.Trim;
    if SameProtocol(a, b) {
      var s', t', u, v :| IsToken(a, s') && IsToken(b, t') && Text.IsTrimmed(s', u) && Text.IsTrimmed(t', v)
                          && Text.Lower(u) == Text.Lower(v);
      Text.TrimmedIsOne(s, u, Text.Trim(s));
      Text.TrimmedIsOne(t, v, Text.Trim(t));
    }
  }

  lemma ConnectionKeysAgree(a: Row, b: Row)
    ensures ConnectionKey(a) == ConnectionKey(b) <==> SameConnection(a, b)
  {
    SameProtocolIff(a, b);
    hide SameProtocol, AsText, Text.Lower, Text.Trim;
    var k, l := ConnectionKey(a), ConnectionKey(b);
    assert k == l <==> k[0] == l[0] && k[1] == l[1] && k[2] == l[2] && k[3] == l[3] && k[4] == l[4];
  }

  // ---------------------------------------------------------------- the report

  // Row i, which no later row of the scan is the same as.
  ghost predicate IsNewest(rows: seq<Row>, same: (Row, Row) -> bool, i: int) {
    0 <= i < |rows| && forall j :: i < j < |rows| ==> !same(rows[j], rows[i])
  }

  ghost predicate HasSame(rows: seq<Row>, same: (Row, Row) -> bool, row: Row) {
    exists i :: 0 <= i < |rows| && same(rows[i], row)
  }

  // A newest row of the first scan that the second has none the same as.
  ghost predicate IsOnlyIn(rows: seq<Row>, others: seq<Row>, same: (Row, Row) -> bool, row: Row) {
    (exists i :: IsNewest(rows, same, i) && rows[i] == row) && !HasSame(others, same, row)
  }

  ghost predicate IsDifference(d: FieldChange, before: Row, after: Row, tracked: seq<string>) {
    && d.field in tracked && d.before == Field(before, d.field) && d.after == Field(after, d.field)
    && d.before != d.after
  }

  // A modified entry: the two rows, the key columns of the new one, and exactly the tracked columns that differ.
  ghost predicate ReportsChange(c: Change, before: Row, after: Row, shown: seq<string>, tracked: seq<string>) {
    && c.before == before && c.after == after
    && (forall f :: f in c.shown <==> f in shown) && (forall f :: f in c.shown ==> c.shown[f] == Field(after, f))
    && (forall d :: d in c.changed <==> IsDifference(d, before, after, tracked))
  }

  // The newest rows of both scans that are one, with a tracked column that differs.
  ghost predicate HasChanged(before: Row, after: Row, olds: seq<Row>, news: seq<Row>, same: (Row, Row) -> bool,
                             tracked: seq<string>)
  {
    && (exists i :: IsNewest(olds, same, i) && olds[i] == before)
    && (exists j :: IsNewest(news, same, j) && news[j] == after)
    && same(before, after) && exists f :: f in tracked && Field(before, f) != Field(after, f)
  }

  ghost predicate IsReported(modified: seq<Change>, before: Row, after: Row) {
    exists c :: c in modified && c.before == before && c.after == after
  }

  // The diff of two scans, the second one's rows being `news`.
  ghost predicate Reports(d: Diff, olds: seq<Row>, news: seq<Row>, same: (Row, Row) -> bool, shown: seq<string>,
                          tracked: seq<string>)
  {
    && (forall row :: row in d.added <==> IsOnlyIn(news, olds, same, row))
    && (forall row :: row in d.removed <==> IsOnlyIn(olds, news, same, row))
    && (forall c :: c in d.modified ==>
          HasChanged(c.before, c.after, olds, news, same, tracked)
          && ReportsChange(c, c.before, c.after, shown, tracked))
    && (forall before, after :: HasChanged(before, after, olds, news, same, tracked) ==>
          IsReported(d.modified, before, after))
    && EachOnce(d.added, same) && EachOnce(d.removed, same)
    && (forall i, j :: 0 <= i < j < |d.modified| ==> !same(d.modified[i].after, d.modified[j].after))
  }

  // No two of the rows are one.
  ghost predicate EachOnce(rows: seq<Row>, same: (Row, Row) -> bool) {
    forall i, j :: 0 <= i < j < |rows| ==> !same(rows[i], rows[j])
  }

  // `same` says what equal keys say.
  ghost predicate Agrees(keyFn: Row -> Key, same: (Row, Row) -> bool) {
    forall a, b :: same(a, b) <==> keyFn(a) == keyFn(b)
  }

  lemma {:induction false} KeyIsThere(rows: seq<Row>, keyFn: Row -> Key, i: nat)
    requires i < |rows|
    ensures keyFn(rows[i]) in Indexed(rows, keyFn).vals
  {
    if i < |rows| - 1 {
      KeyIsThere(rows[..|rows| - 1], keyFn, i);
    }
  }

  // What the map of a scan holds, by row.
  lemma NewestRows(rows: seq<Row>, keyFn: Row -> Key, same: (Row, Row) -> bool)
    requires Agrees(keyFn, same)
    ensures var m := Indexed(rows, keyFn);
            && (forall row :: HasSame(rows, same, row) <==> keyFn(row) in m.vals)
            && (forall row :: (exists i :: IsNewest(rows, same, i) && rows[i] == row)
                              <==> keyFn(row) in m.vals && m.vals[keyFn(row)] == row)
            && (forall k :: k in m.vals ==> keyFn(m.vals[k]) == k)
  {
    LastRowWins(rows, keyFn);
    forall i ensures IsNewest(rows, same, i) <==> IsLast(rows, keyFn, i) {
    }
    var m := Indexed(rows, keyFn);
    forall row ensures HasSame(rows, same, row) <==> keyFn(row) in m.vals {
      if i :| 0 <= i < |rows| && same(rows[i], row) {
        KeyIsThere(rows, keyFn, i);
      }
      hide Indexed;
    }
    hide Indexed, IsNewest, IsLast, Agrees;
  }

  lemma OnlyInReports(rows: seq<Row>, others: seq<Row>, keyFn: Row -> Key, same: (Row, Row) -> bool)
    requires Agrees(keyFn, same)
    ensures var m, o := Indexed(rows, keyFn), Indexed(others, keyFn);
            forall row :: row in OnlyIn(m, o, m.order) <==> IsOnlyIn(rows, others, same, row)
  {
    var m, o := Indexed(rows, keyFn), Indexed(others, keyFn);
    OnlyInRows(m, o, m.order);
    NewestRows(rows, keyFn, same);
    NewestRows(others, keyFn, same);
    hide IsNewest, HasSame, OnlyIn, Indexed, Agrees;
  }

  lemma ChangeReports(olds: seq<Row>, news: seq<Row>, keyFn: Row -> Key, same: (Row, Row) -> bool, cols: Columns,
                      k: Key)
    requires Agrees(keyFn, same)
    requires var a, b := Indexed(olds, keyFn), Indexed(news, keyFn); k in a.vals && k in b.vals
    ensures var a, b := Indexed(olds, keyFn), Indexed(news, keyFn);
            && (Differs(a, b, cols, k) <==> HasChanged(a.vals[k], b.vals[k], olds, news, same, cols.tracked))
            && ReportsChange(ChangeAt(a, b, cols, k), a.vals[k], b.vals[k], cols.shown, cols.tracked)
  {
    hide IsNewest, HasSame, Indexed, ChangedFields, Shown, ReportsChange;
    var a, b := Indexed(olds, keyFn), Indexed(news, keyFn);
    NewestRows(olds, keyFn, same);
    NewestRows(news, keyFn, same);
    ChangeOfRows(a.vals[k], b.vals[k], cols);
    assert same(a.vals[k], b.vals[k]);
    hide Agrees;
  }

  // The entry of two rows, and when there is one.
  lemma ChangeOfRows(before: Row, after: Row, cols: Columns)
    ensures ReportsChange(Change(Shown(after, cols.shown), before, after, ChangedFields(before, after, cols.tracked)),
                          before, after, cols.shown, cols.tracked)
    ensures ChangedFields(before, after, cols.tracked) != []
            <==> exists f :: f in cols.tracked && Field(before, f) != Field(after, f)
  {
    ChangesLeadToTheNewRow(before, after, cols.tracked);
    ChangesAreExact(before, after, cols.tracked);
    hide ChangedFields, Overwritten, Field;
  }

  lemma ChangedRowsHaveKeys(olds: seq<Row>, news: seq<Row>, keyFn: Row -> Key, same: (Row, Row) -> bool,
                            tracked: seq<string>, before: Row, after: Row)
    requires Agrees(keyFn, same) && HasChanged(before, after, olds, news, same, tracked)
    ensures var a, b, k := Indexed(olds, keyFn), Indexed(news, keyFn), keyFn(after);
            k in a.vals && k in b.vals && a.vals[k] == before && b.vals[k] == after
  {
    NewestRows(olds, keyFn, same);
    NewestRows(news, keyFn, same);
    hide IsNewest, HasSame, Indexed;
  }

  lemma ModifiedReports(olds: seq<Row>, news: seq<Row>, keyFn: Row -> Key, same: (Row, Row) -> bool, cols: Columns)
    requires Agrees(keyFn, same)
    ensures var a, b := Indexed(olds, keyFn), Indexed(news, keyFn);
            var modified := Changes(a, b, cols, b.order);
            && (forall c :: c in modified ==>
                  HasChanged(c.before, c.after, olds, news, same, cols.tracked)
                  && ReportsChange(c, c.before, c.after, cols.shown, cols.tracked))
            && (forall before, after :: HasChanged(before, after, olds, news, same, cols.tracked) ==>
                  IsReported(modified, before, after))
  {
    hide Changes, Indexed, HasChanged, ReportsChange, Differs, Agrees, ChangedFields, Shown;
    var a, b := Indexed(olds, keyFn), Indexed(news, keyFn);
    var modified := Changes(a, b, cols, b.order);
    ChangesOf(a, b, cols, b.order);
    DifferingAreInBoth(a, b, cols);
    forall c | c in modified
      ensures HasChanged(c.before, c.after, olds, news, same, cols.tracked)
              && ReportsChange(c, c.before, c.after, cols.shown, cols.tracked)
    {
      var k :| k in b.order && Differs(a, b, cols, k) && ChangeAt(a, b, cols, k) == c;
      ChangeReports(olds, news, keyFn, same, cols, k);
    }
    forall before, after | HasChanged(before, after, olds, news, same, cols.tracked)
      ensures IsReported(modified, before, after)
    {
      ChangedRowsHaveKeys(olds, news, keyFn, same, cols.tracked, before, after);
      ChangeReports(olds, news, keyFn, same, cols, keyFn(after));
      assert ChangeAt(a, b, cols, keyFn(after)) in modified;
    }
  }

  lemma KeysAreOwn(rows: seq<Row>, keyFn: Row -> Key)
    ensures KeyedBy(Indexed(rows, keyFn), keyFn)
  {
    LastRowWins(rows, keyFn);
  }

  ghost predicate OneRowPerKey(rows: seq<Row>, keyFn: Row -> Key) {
    forall i, j :: 0 <= i < j < |rows| ==> keyFn(rows[i]) != keyFn(rows[j])
  }

  ghost predicate OneChangePerKey(rows: seq<Change>, keyFn: Row -> Key) {
    forall i, j :: 0 <= i < j < |rows| ==> keyFn(rows[i].after) != keyFn(rows[j].after)
  }

  lemma NewLast(rows: seq<Row>, last: Row, keyFn: Row -> Key)
    requires OneRowPerKey(rows, keyFn) && forall row :: row in rows ==> keyFn(row) != keyFn(last)
    ensures OneRowPerKey(rows + [last], keyFn)
  {
    forall i | 0 <= i < |rows| ensures keyFn(rows[i]) != keyFn(last) {
      assert rows[i] in rows;
    }
  }

  lemma NewLastChange(rows: seq<Change>, last: Change, keyFn: Row -> Key)
    requires OneChangePerKey(rows, keyFn) && forall c :: c in rows ==> keyFn(c.after) != keyFn(last.after)
    ensures OneChangePerKey(rows + [last], keyFn)
  {
    forall i | 0 <= i < |rows| ensures keyFn(rows[i].after) != keyFn(last.after) {
      assert rows[i] in rows;
    }
  }

  lemma {:induction false} KeysOnce(m: Keyed, other: Keyed, order: seq<Key>, keyFn: Row -> Key)
    requires KeyedBy(m, keyFn) && Distinct(order) && forall k :: k in order ==> k in m.vals
    ensures OneRowPerKey(OnlyIn(m, other, order), keyFn)
  {
    if order != [] {
      var front, k := order[..|order| - 1], order[|order| - 1];
      KeysOnce(m, other, front, keyFn);
      OnlyInRows(m, other, front);
      var r := OnlyIn(m, other, front);
      assert OnlyIn(m, other, order) == r + (if k in other.vals then [] else [m.vals[k]]);
      hide OnlyIn, OneRowPerKey;
      assert forall p :: 0 <= p < |front| ==> front[p] == order[p] != k;
      forall row | row in r ensures keyFn(row) != k {
        var l :| l in front && l !in other.vals && m.vals[l] == row;
        assert keyFn(m.vals[l]) == l;
      }
      if k !in other.vals {
        assert keyFn(m.vals[k]) == k && OnlyIn(m, other, order) == r + [m.vals[k]];
        NewLast(r, m.vals[k], keyFn);
      } else {
        assert OnlyIn(m, other, order) == r;
      }
    }
  }

  lemma RowsOnce(m: Keyed, other: Keyed, keyFn: Row -> Key, same: (Row, Row) -> bool)
    requires KeyedBy(m, keyFn) && Agrees(keyFn, same)
    ensures EachOnce(OnlyIn(m, other, m.order), same)
  {
    KeysOnce(m, other, m.order, keyFn);
    hide OnlyIn;
  }

  lemma {:induction false} ChangeKeysOnce(a: Keyed, b: Keyed, cols: Columns, order: seq<Key>, keyFn: Row -> Key)
    requires KeyedBy(b, keyFn) && Distinct(order) && forall k :: k in order ==> k in b.vals
    ensures OneChangePerKey(Changes(a, b, cols, order), keyFn)
  {
    if order != [] {
      var front, k := order[..|order| - 1], order[|order| - 1];
      ChangeKeysOnce(a, b, cols, front, keyFn);
      ChangesOf(a, b, cols, front);
      DifferingAreInBoth(a, b, cols);
      var r := Changes(a, b, cols, front);
      assert Changes(a, b, cols, order) == r + (if Differs(a, b, cols, k) then [ChangeAt(a, b, cols, k)] else []);
      hide Changes, Differs, ChangedFields, Shown, OneChangePerKey;
      assert forall p :: 0 <= p < |front| ==> front[p] == order[p] != k;
      forall c | c in r ensures keyFn(c.after) != k {
        var l :| l in front && l in a.vals && l in b.vals && Differs(a, b, cols, l) && ChangeAt(a, b, cols, l) == c;
        assert keyFn(b.vals[l]) == l;
      }
      if Differs(a, b, cols, k) {
        assert keyFn(b.vals[k]) == k && Changes(a, b, cols, order) == r + [ChangeAt(a, b, cols, k)];
        NewLastChange(r, ChangeAt(a, b, cols, k), keyFn);
      } else {
        assert Changes(a, b, cols, order) == r;
      }
    }
  }

  lemma ChangesOnce(a: Keyed, b: Keyed, cols: Columns, keyFn: Row -> Key, same: (Row, Row) -> bool)
    requires KeyedBy(b, keyFn) && Agrees(keyFn, same)
    ensures var r := Changes(a, b, cols, b.order);
            forall i, j :: 0 <= i < j < |r| ==> !same(r[i].after, r[j].after)
  {
    ChangeKeysOnce(a, b, cols, b.order, keyFn);
    hide Changes;
  }

  lemma DiffReports(olds: seq<Row>, news: seq<Row>, keyFn: Row -> Key, same: (Row, Row) -> bool, cols: Columns)
    requires Agrees(keyFn, same)
    ensures Reports(DiffOf(Indexed(olds, keyFn), Indexed(news, keyFn), cols), olds, news, same, cols.shown,
                    cols.tracked)
  {
    hide OnlyIn, IsOnlyIn, Changes, Indexed, HasChanged, ReportsChange, IsReported, Agrees, KeyedBy, EachOnce;
    KeysAreOwn(olds, keyFn);
    KeysAreOwn(news, keyFn);
    RowsOnce(Indexed(news, keyFn), Indexed(olds, keyFn), keyFn, same);
    RowsOnce(Indexed(olds, keyFn), Indexed(news, keyFn), keyFn, same);
    ChangesOnce(Indexed(olds, keyFn), Indexed(news, keyFn), cols, keyFn, same);
    OnlyInReports(news, olds, keyFn, same);
    OnlyInReports(olds, news, keyFn, same);
    ModifiedReports(olds, news, keyFn, same, cols);
  }

  lemma DifferingAreInBoth(a: Keyed, b: Keyed, cols: Columns)
    ensures forall k :: Differs(a, b, cols, k) ==> k in a.vals && k in b.vals
  {
  }

  // The services of a report, in the columns that make two rows one service and those that a change is noticed in.
  lemma ServicesReport(a: Loaded, b: Loaded)
    ensures Reports(ServicesDiff(a, b), a.services, b.services, (x, y) => SameService(x, y), ["repo_id", "name"],
                    ["root_path", "language", "type", "owner", "auth_mechanism", "db_backend", "boundary_entry",
                     "base_path"])
  {
    forall x, y ensures ServiceKey(x) == ServiceKey(y) <==> SameService(x, y) {
      ServiceKeysAgree(x, y);
    }
    hide ServiceKey, SameService, Reports;
    var same := (x, y) => SameService(x, y);
    assert Agrees(ServiceKey, same);
    DiffReports(a.services, b.services, ServiceKey, same, SERVICE_COLUMNS);
  }

  // The connections of a report. The canonical protocol is compared, and shown; the agent's own token is in the key.
  lemma ConnectionsReport(a: Loaded, b: Loaded)
    ensures Reports(ConnectionsDiff(a, b), a.connections, b.connections, (x, y) => SameConnection(x, y),
                    ["source_name", "target_name", "protocol", "method", "path"],
                    ["protocol", "source_file", "target_file", "crossing", "confidence", "evidence", "path_template"])
  {
    forall x, y ensures ConnectionKey(x) == ConnectionKey(y) <==> SameConnection(x, y) {
      ConnectionKeysAgree(x, y);
    }
    hide ConnectionKey, SameConnection, Reports;
    var same := (x, y) => SameConnection(x, y);
    assert Agrees(ConnectionKey, same);
    DiffReports(a.connections, b.connections, ConnectionKey, same, CONNECTION_COLUMNS);
  }
}
