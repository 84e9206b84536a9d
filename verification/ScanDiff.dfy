// The diff of two scan versions (worker/diff/scan-version-diff.js). Rows are what the loaders select.
module ScanDiff {
  import opened Common
  import opened JsMap
  import Text

  datatype Value = Null | Str(text: string) | Num(n: int)

  type Row = map<string, Value>

  const SERVICE_FIELDS: seq<string> :=
    ["root_path", "language", "type", "owner", "auth_mechanism", "db_backend", "boundary_entry", "base_path"]

  const CONNECTION_FIELDS: seq<string> :=
    ["protocol", "source_file", "target_file", "crossing", "confidence", "evidence", "path_template"]

  // A column a row does not have reads as NULL.
  function Field(row: Row, f: string): Value {
    if f in row then row[f] else Null
  }

  // A key is what goes into JSON.stringify.
  type Key = seq<Value>

  function ServiceKey(row: Row): Key {
    [Field(row, "repo_id"), Field(row, "name")]
  }

  function OrElse(v: Value, default: Value): Value {
    if v.Null? then default else v
  }

  function AsText(v: Value): string {
    match v
    case Null => "null"
    case Str(s) => s
    case Num(n) => if n < 0 then "-" + Text.Decimal(-n) else Text.Decimal(n)
  }

  // The raw protocol is compared without case or surrounding space; a NULL method or path as "".
  function ConnectionKey(row: Row): Key {
    var raw := AsText(OrElse(OrElse(Field(row, "protocol_raw"), Field(row, "protocol")), Str("")));
    [Field(row, "source_name"), Field(row, "target_name"), Str(Text.Lower(Text.Trim(raw))),
     OrElse(Field(row, "method"), Str("")), OrElse(Field(row, "path"), Str(""))]
  }

  // ---------------------------------------------------------------- buildMap

  type Keyed = Map<Key, Row>

  function Indexed(rows: seq<Row>, keyFn: Row -> Key): (m: Keyed)
    ensures m.Valid()
  {
    if rows == [] then Empty()
    else Indexed(rows[..|rows| - 1], keyFn).Set(keyFn(rows[|rows| - 1]), rows[|rows| - 1])
  }

  // The row with this key that no later row replaces.
  ghost predicate IsLast(rows: seq<Row>, keyFn: Row -> Key, i: int) {
    0 <= i < |rows| && forall j :: i < j < |rows| ==> keyFn(rows[j]) != keyFn(rows[i])
  }

  ghost predicate KeyedBy(m: Keyed, keyFn: Row -> Key) {
    m.Valid() && forall k :: k in m.vals ==> keyFn(m.vals[k]) == k
  }

  // The map holds, for every key that occurs, the last row that has it, and nothing else.
  lemma {:induction false} LastRowWins(rows: seq<Row>, keyFn: Row -> Key)
    ensures KeyedBy(Indexed(rows, keyFn), keyFn)
    ensures forall i :: IsLast(rows, keyFn, i) ==>
              keyFn(rows[i]) in Indexed(rows, keyFn).vals && Indexed(rows, keyFn).vals[keyFn(rows[i])] == rows[i]
    ensures forall k :: k in Indexed(rows, keyFn).vals ==> exists i :: IsLast(rows, keyFn, i) && keyFn(rows[i]) == k
  {
    hide IsLast, Indexed;
    if rows == [] {
      NothingIndexed(keyFn);
    } else {
      var front, n := rows[..|rows| - 1], |rows| - 1;
      LastRowWins(front, keyFn);
      LastsOf(rows, keyFn);
      IndexedStep(rows, keyFn);
      forall k | k in Indexed(rows, keyFn).vals ensures exists i :: IsLast(rows, keyFn, i) && keyFn(rows[i]) == k {
        if k == keyFn(rows[n]) {
          assert IsLast(rows, keyFn, n);
        } else {
          var i :| IsLast(front, keyFn, i) && keyFn(front[i]) == k;
          assert IsLast(rows, keyFn, i);
        }
      }
    }
  }

  lemma NothingIndexed(keyFn: Row -> Key)
    ensures Indexed([], keyFn) == Empty() && forall i :: !IsLast([], keyFn, i)
  {
  }

  lemma {:induction false} IndexedStep(rows: seq<Row>, keyFn: Row -> Key)
    requires rows != []
    ensures var (last, n) := (rows[|rows| - 1], |rows| - 1);
            Indexed(rows, keyFn).vals == Indexed(rows[..n], keyFn).vals[keyFn(last) := last]
  {
  }

  lemma LastsOf(rows: seq<Row>, keyFn: Row -> Key)
    requires rows != []
    ensures var front, n := rows[..|rows| - 1], |rows| - 1;
            && IsLast(rows, keyFn, n)
            && (forall i :: IsLast(rows, keyFn, i) ==> 0 <= i <= n)
            && (forall i :: IsLast(front, keyFn, i) ==> 0 <= i < n && front[i] == rows[i])
            && (forall i :: i != n ==>
                (IsLast(rows, keyFn, i) <==> IsLast(front, keyFn, i) && keyFn(rows[i]) != keyFn(rows[n])))
  {
  }

  // Every row of a scan takes part in the diff iff no two have one key.
  lemma NoRowHiddenIffKeysDiffer(rows: seq<Row>, keyFn: Row -> Key)
    ensures (forall i :: 0 <= i < |rows| ==> IsLast(rows, keyFn, i))
            <==> (forall i, j :: 0 <= i < j < |rows| ==> keyFn(rows[i]) != keyFn(rows[j]))
  {
    if forall i :: 0 <= i < |rows| ==> IsLast(rows, keyFn, i) {
      forall i, j | 0 <= i < j < |rows| ensures keyFn(rows[i]) != keyFn(rows[j]) {
        assert IsLast(rows, keyFn, i);
      }
    }
  }

  method BuildMap(rows: seq<Row>, keyFn: Row -> Key) returns (m: Keyed)
    ensures m == Indexed(rows, keyFn)
  {
    m := Empty();
    for i := 0 to |rows|
      invariant m == Indexed(rows[..i], keyFn)
    {
      assert rows[..i + 1][..i] == rows[..i];
      m := m.Set(keyFn(rows[i]), rows[i]);
    }
    assert rows[..|rows|] == rows;
  }

  // ---------------------------------------------------------------- fieldDiff

  datatype FieldChange = FieldChange(field: string, before: Value, after: Value)

  function ChangedFields(before: Row, after: Row, fields: seq<string>): seq<FieldChange> {
    if fields == [] then []
    else
      var f := fields[|fields| - 1];
      ChangedFields(before, after, fields[..|fields| - 1])
      + (if Field(before, f) != Field(after, f) then [FieldChange(f, Field(before, f), Field(after, f))] else [])
  }

  method FieldDiff(before: Row, after: Row, fields: seq<string>) returns (changed: seq<FieldChange>)
    ensures changed == ChangedFields(before, after, fields)
  {
    changed := [];
    for i := 0 to |fields|
      invariant changed == ChangedFields(before, after, fields[..i])
    {
      assert fields[..i + 1][..i] == fields[..i];
      var b, a := Field(before, fields[i]), Field(after, fields[i]);
      if b != a {
        changed := changed + [FieldChange(fields[i], b, a)];
      }
    }
    assert fields[..|fields|] == fields;
  }

  // The changes, written over a row.
  function Overwritten(row: Row, changes: seq<FieldChange>): Row {
    if changes == [] then row
    else Overwritten(row, changes[..|changes| - 1])[changes[|changes| - 1].field := changes[|changes| - 1].after]
  }

  ghost predicate SameTracked(a: Row, b: Row, fields: seq<string>) {
    forall f :: f in fields ==> Field(a, f) == Field(b, f)
  }

  lemma {:induction false} ChangesAreExact(before: Row, after: Row, fields: seq<string>)
    ensures forall c :: c in ChangedFields(before, after, fields) <==>
                          c.field in fields && c.before == Field(before, c.field) && c.after == Field(after, c.field)
                              && c.before != c.after
  {
    if fields != [] {
      var f, front := fields[|fields| - 1], fields[..|fields| - 1];
      ChangesAreExact(before, after, front);
      assert forall g :: g in fields <==> g in front || g == f;
    }
  }

  lemma {:induction false} OverwrittenField(row: Row, after: Row, changes: seq<FieldChange>, f: string)
    requires forall c :: c in changes ==> c.after == Field(after, c.field)
    ensures Field(Overwritten(row, changes), f)
            == if exists c :: c in changes && c.field == f then Field(after, f) else Field(row, f)
  {
    if changes != [] {
      var last, front := changes[|changes| - 1], changes[..|changes| - 1];
      assert forall c :: c in changes <==> c in front || c == last;
      OverwrittenField(row, after, front, f);
    }
  }

  // Writing the changes over the old row gives the new one, in the tracked fields.
  lemma ChangesLeadToTheNewRow(before: Row, after: Row, fields: seq<string>)
    ensures SameTracked(Overwritten(before, ChangedFields(before, after, fields)), after, fields)
    ensures ChangedFields(before, after, fields) == [] <==> SameTracked(before, after, fields)
  {
    var changes := ChangedFields(before, after, fields);
    ChangesAreExact(before, after, fields);
    forall f | f in fields ensures Field(Overwritten(before, changes), f) == Field(after, f) {
      OverwrittenField(before, after, changes, f);
      if Field(before, f) != Field(after, f) {
        assert FieldChange(f, Field(before, f), Field(after, f)) in changes;
      }
    }
    if changes == [] {
      forall f | f in fields ensures Field(before, f) == Field(after, f) {
        assert FieldChange(f, Field(before, f), Field(after, f)) !in changes;
      }
    } else {
      assert changes[0] in changes;
    }
  }

  // ---------------------------------------------------------------- diffSet

  // The key columns a change shows, and the columns compared.
  datatype Columns = Columns(shown: seq<string>, tracked: seq<string>)

  // projectKey
  function Shown(row: Row, columns: seq<string>): Row {
    map f | f in columns :: Field(row, f)
  }

  datatype Change = Change(shown: Row, before: Row, after: Row, changed: seq<FieldChange>)

  datatype Diff = Diff(added: seq<Row>, removed: seq<Row>, modified: seq<Change>)

  // The rows of m, along `order`, whose key is not in other.
  function OnlyIn(m: Keyed, other: Keyed, order: seq<Key>): seq<Row>
    requires forall k :: k in order ==> k in m.vals
  {
    if order == [] then []
    else
      var k := order[|order| - 1];
      OnlyIn(m, other, order[..|order| - 1]) + (if k in other.vals then [] else [m.vals[k]])
  }

  predicate Differs(a: Keyed, b: Keyed, cols: Columns, k: Key) {
    k in a.vals && k in b.vals && ChangedFields(a.vals[k], b.vals[k], cols.tracked) != []
  }

  function ChangeAt(a: Keyed, b: Keyed, cols: Columns, k: Key): Change
    requires k in a.vals && k in b.vals
  {
    Change(Shown(b.vals[k], cols.shown), a.vals[k], b.vals[k], ChangedFields(a.vals[k], b.vals[k], cols.tracked))
  }

  function Changes(a: Keyed, b: Keyed, cols: Columns, order: seq<Key>): seq<Change>
    requires forall k :: k in order ==> k in b.vals
  {
    if order == [] then []
    else
      var k := order[|order| - 1];
      Changes(a, b, cols, order[..|order| - 1]) + (if Differs(a, b, cols, k) then [ChangeAt(a, b, cols, k)] else [])
  }

  function DiffOf(a: Keyed, b: Keyed, cols: Columns): Diff
    requires (forall k :: k in a.order ==> k in a.vals) && (forall k :: k in b.order ==> k in b.vals)
  {
    Diff(OnlyIn(b, a, b.order), OnlyIn(a, b, a.order), Changes(a, b, cols, b.order))
  }

  method DiffSet(a: Keyed, b: Keyed, cols: Columns) returns (diff: Diff)
    requires a.Valid() && b.Valid()
    ensures diff == DiffOf(a, b, cols)
  {
    var added, removed, modified := [], [], [];
    for i := 0 to |b.order|
      invariant added == OnlyIn(b, a, b.order[..i]) && modified == Changes(a, b, cols, b.order[..i])
    {
      var key := b.order[i];
      assert b.order[..i + 1][..i] == b.order[..i] && key in b.vals;
      if key !in a.vals {
        added := added + [b.vals[key]];
      } else {
        var changed := FieldDiff(a.vals[key], b.vals[key], cols.tracked);
        if |changed| > 0 {
          modified := modified + [Change(Shown(b.vals[key], cols.shown), a.vals[key], b.vals[key], changed)];
        }
      }
    }
    for i := 0 to |a.order|
      invariant removed == OnlyIn(a, b, a.order[..i])
    {
      var key := a.order[i];
      assert a.order[..i + 1][..i] == a.order[..i] && key in a.vals;
      if key !in b.vals {
        removed := removed + [a.vals[key]];
      }
    }
    assert b.order[..|b.order|] == b.order && a.order[..|a.order|] == a.order;
    diff := Diff(added, removed, modified);
  }

  lemma {:induction false} OnlyInRows(m: Keyed, other: Keyed, order: seq<Key>)
    requires forall k :: k in order ==> k in m.vals
    ensures forall row :: row in OnlyIn(m, other, order)
                          <==> exists k :: k in order && k !in other.vals && m.vals[k] == row
  {
    if order != [] {
      var last, front := order[|order| - 1], order[..|order| - 1];
      assert forall k :: k in order <==> k in front || k == last;
      OnlyInRows(m, other, front);
    }
  }

  lemma {:induction false} ChangesOf(a: Keyed, b: Keyed, cols: Columns, order: seq<Key>)
    requires forall k :: k in order ==> k in b.vals
    ensures forall c :: c in Changes(a, b, cols, order) <==>
                          exists k :: k in order && Differs(a, b, cols, k) && ChangeAt(a, b, cols, k) == c
  {
    if order != [] {
      var last, front := order[|order| - 1], order[..|order| - 1];
      assert forall k :: k in order <==> k in front || k == last;
      ChangesOf(a, b, cols, front);
    }
  }

  // ---------------------------------------------------------------- the diff as a patch

  ghost predicate IsKeyIn(keyFn: Row -> Key, k: Key, rows: seq<Row>) {
    exists row :: row in rows && keyFn(row) == k
  }

  ghost predicate IsChanged(keyFn: Row -> Key, k: Key, changes: seq<Change>) {
    exists c :: c in changes && keyFn(c.after) == k
  }

  // Added rows are those of keys only B has, removed rows those of keys only A has, and modified rows those
  // of common keys whose tracked cols differ: with the unchanged ones the keys fall into four parts.
  lemma KeysFallIntoFour(a: Keyed, b: Keyed, cols: Columns, keyFn: Row -> Key, k: Key)
    requires KeyedBy(a, keyFn) && KeyedBy(b, keyFn)
    ensures var d := DiffOf(a, b, cols);
            && (IsKeyIn(keyFn, k, d.added) <==> k in b.vals && k !in a.vals)
            && (IsKeyIn(keyFn, k, d.removed) <==> k in a.vals && k !in b.vals)
            && (IsChanged(keyFn, k, d.modified)
                <==> k in a.vals && k in b.vals && !SameTracked(a.vals[k], b.vals[k], cols.tracked))
  {
    OnlyInRows(b, a, b.order);
    OnlyInRows(a, b, a.order);
    ChangesOf(a, b, cols, b.order);
    hide OnlyIn, Changes, ChangedFields, SameTracked;
    if k in b.vals && k !in a.vals {
      assert b.vals[k] in DiffOf(a, b, cols).added;
    }
    if k in a.vals && k !in b.vals {
      assert a.vals[k] in DiffOf(a, b, cols).removed;
    }
    if k in a.vals && k in b.vals {
      ChangesLeadToTheNewRow(a.vals[k], b.vals[k], cols.tracked);
      if Differs(a, b, cols, k) {
        assert ChangeAt(a, b, cols, k) in DiffOf(a, b, cols).modified;
      }
    }
  }

  ghost function RowFor(keyFn: Row -> Key, k: Key, rows: seq<Row>): Row
    requires IsKeyIn(keyFn, k, rows)
  {
    var row :| row in rows && keyFn(row) == k; row
  }

  ghost function ChangeFor(keyFn: Row -> Key, k: Key, changes: seq<Change>): Change
    requires IsChanged(keyFn, k, changes)
  {
    var c :| c in changes && keyFn(c.after) == k; c
  }

  // The rows of A without the removed, each change written over the row it names, and the added rows.
  ghost function Patched(a: Keyed, d: Diff, keyFn: Row -> Key): map<Key, Row> {
    var gone := set row | row in d.removed :: keyFn(row);
    var come := set row | row in d.added :: keyFn(row);
    map k | k in (a.vals.Keys - gone) + come ::
      if IsKeyIn(keyFn, k, d.added) then RowFor(keyFn, k, d.added)
      else if k in a.vals && IsChanged(keyFn, k, d.modified)
          then Overwritten(a.vals[k], ChangeFor(keyFn, k, d.modified).changed)
      else if k in a.vals then a.vals[k] else map[]
  }

  // Patching A with the diff gives B, up to cols that are not tracked.
  lemma DiffIsAPatch(a: Keyed, b: Keyed, cols: Columns, keyFn: Row -> Key)
    requires KeyedBy(a, keyFn) && KeyedBy(b, keyFn)
    ensures var patched := Patched(a, DiffOf(a, b, cols), keyFn);
            patched.Keys == b.vals.Keys && forall k :: k in patched ==> SameTracked(patched[k], b.vals[k], cols.tracked)
  {
    var patched := Patched(a, DiffOf(a, b, cols), keyFn);
    forall k ensures k in patched <==> k in b.vals
             ensures k in patched && k in b.vals ==> SameTracked(patched[k], b.vals[k], cols.tracked)
    {
      PatchedAt(a, b, cols, keyFn, k);
    }
  }

  lemma PatchedAt(a: Keyed, b: Keyed, cols: Columns, keyFn: Row -> Key, k: Key)
    requires KeyedBy(a, keyFn) && KeyedBy(b, keyFn)
    ensures var patched := Patched(a, DiffOf(a, b, cols), keyFn);
            (k in patched <==> k in b.vals)
            && (k in patched && k in b.vals ==> SameTracked(patched[k], b.vals[k], cols.tracked))
  {
    var d := DiffOf(a, b, cols);
    KeysFallIntoFour(a, b, cols, keyFn, k);
    OnlyInRows(b, a, b.order);
    ChangesOf(a, b, cols, b.order);
    hide OnlyIn, Changes, ChangedFields, SameTracked, Overwritten;
    if k in b.vals && k !in a.vals {
      assert RowFor(keyFn, k, d.added) == b.vals[k];
      SameTrackedRefl(b.vals[k], cols.tracked);
    } else if k in b.vals && k in a.vals {
      ChangesLeadToTheNewRow(a.vals[k], b.vals[k], cols.tracked);
    }
  }

  lemma SameTrackedRefl(row: Row, fields: seq<string>)
    ensures SameTracked(row, row, fields)
  {
  }

  // ---------------------------------------------------------------- the diff the other way

  function Flipped(c: FieldChange): FieldChange {
    FieldChange(c.field, c.after, c.before)
  }

  function FlippedAll(cs: seq<FieldChange>): seq<FieldChange> {
    seq(|cs|, i requires 0 <= i < |cs| => Flipped(cs[i]))
  }

  function FlippedChange(c: Change, cols: Columns): Change {
    Change(Shown(c.before, cols.shown), c.after, c.before, FlippedAll(c.changed))
  }

  lemma {:induction false} ChangedFieldsFlip(a: Row, b: Row, fields: seq<string>)
    ensures ChangedFields(b, a, fields) == FlippedAll(ChangedFields(a, b, fields))
  {
    if fields != [] {
      ChangedFieldsFlip(a, b, fields[..|fields| - 1]);
    }
  }

  lemma ChangeFlips(a: Keyed, b: Keyed, cols: Columns, k: Key)
    requires k in a.vals && k in b.vals
    ensures Differs(b, a, cols, k) == Differs(a, b, cols, k)
    ensures ChangeAt(b, a, cols, k) == FlippedChange(ChangeAt(a, b, cols, k), cols)
  {
    ChangedFieldsFlip(a.vals[k], b.vals[k], cols.tracked);
  }

  function DifferingKeys(a: Keyed, b: Keyed, cols: Columns, order: seq<Key>): set<Key> {
    set k | k in order && Differs(a, b, cols, k)
  }

  lemma {:induction false} CountChanges(a: Keyed, b: Keyed, cols: Columns, order: seq<Key>)
    requires Distinct(order) && forall k :: k in order ==> k in b.vals
    ensures |Changes(a, b, cols, order)| == |DifferingKeys(a, b, cols, order)|
  {
    hide Differs, ChangeAt;
    if order == [] {
      assert DifferingKeys(a, b, cols, order) == {};
    } else {
      DifferingOneMore(a, b, cols, order);
      CountChanges(a, b, cols, order[..|order| - 1]);
      hide DifferingKeys, Distinct;
    }
  }

  lemma DifferingOneMore(a: Keyed, b: Keyed, cols: Columns, order: seq<Key>)
    requires Distinct(order) && order != []
    ensures var front, last := order[..|order| - 1], order[|order| - 1];
            && Distinct(front) && last !in DifferingKeys(a, b, cols, front)
            && DifferingKeys(a, b, cols, order)
               == DifferingKeys(a, b, cols, front) + (if Differs(a, b, cols, last) then {last} else {})
  {
    hide Differs;
    var front, last := order[..|order| - 1], order[|order| - 1];
    assert last !in front;
    assert order == front + [last];
  }

  // diff(B, A): added and removed change places, in order; modified has the same rows with before and after
  // exchanged.
  lemma DiffFlips(a: Keyed, b: Keyed, cols: Columns)
    requires a.Valid() && b.Valid()
    ensures var d, e := DiffOf(a, b, cols), DiffOf(b, a, cols);
            && e.added == d.removed && e.removed == d.added
            && |e.modified| == |d.modified|
            && (forall c :: c in e.modified ==> FlippedChange(c, cols) in d.modified)
            && (forall c :: c in d.modified ==> FlippedChange(c, cols) in e.modified)
  {
    var d, e := DiffOf(a, b, cols), DiffOf(b, a, cols);
    ChangesOf(a, b, cols, b.order);
    ChangesOf(b, a, cols, a.order);
    CountChanges(a, b, cols, b.order);
    CountChanges(b, a, cols, a.order);
    hide OnlyIn, Changes, ChangedFields, FlippedChange, ChangeAt;
    forall k | k in a.vals && k in b.vals
      ensures Differs(b, a, cols, k) == Differs(a, b, cols, k)
      ensures ChangeAt(b, a, cols, k) == FlippedChange(ChangeAt(a, b, cols, k), cols)
    {
      ChangeFlips(a, b, cols, k);
    }
    assert DifferingKeys(a, b, cols, b.order) == DifferingKeys(b, a, cols, a.order);
    forall c | c in e.modified ensures FlippedChange(c, cols) in d.modified {
      var k :| k in a.order && Differs(b, a, cols, k) && ChangeAt(b, a, cols, k) == c;
      ChangeFlips(b, a, cols, k);
      assert ChangeAt(a, b, cols, k) == FlippedChange(c, cols);
    }
    forall c | c in d.modified ensures FlippedChange(c, cols) in e.modified {
      var k :| k in b.order && Differs(a, b, cols, k) && ChangeAt(a, b, cols, k) == c;
      assert ChangeAt(b, a, cols, k) == FlippedChange(c, cols);
    }
  }

  // ---------------------------------------------------------------- diffScanVersions

  datatype Loaded = Loaded(services: seq<Row>, connections: seq<Row>)

  datatype Counts = Counts(added: nat, removed: nat, modified: nat)

  datatype Report = Report(sameScan: bool, services: Diff, connections: Diff, serviceCounts: Counts,
                           connectionCounts: Counts)

  const SERVICE_COLUMNS: Columns := Columns(["repo_id", "name"], SERVICE_FIELDS)
  const CONNECTION_COLUMNS: Columns :=
    Columns(["source_name", "target_name", "protocol", "method", "path"], CONNECTION_FIELDS)

  function CountsOf(d: Diff): Counts {
    Counts(|d.added|, |d.removed|, |d.modified|)
  }

  function ServicesDiff(a: Loaded, b: Loaded): Diff {
    DiffOf(Indexed(a.services, ServiceKey), Indexed(b.services, ServiceKey), SERVICE_COLUMNS)
  }

  function ConnectionsDiff(a: Loaded, b: Loaded): Diff {
    DiffOf(Indexed(a.connections, ConnectionKey), Indexed(b.connections, ConnectionKey), CONNECTION_COLUMNS)
  }

  lemma NothingBetween(m: Keyed, cols: Columns)
    requires m.Valid()
    ensures DiffOf(m, m, cols) == Diff([], [], [])
  {
    OnlyInRows(m, m, m.order);
    ChangesOf(m, m, cols, m.order);
    forall k | k in m.vals ensures !Differs(m, m, cols, k) {
      ChangesLeadToTheNewRow(m.vals[k], m.vals[k], cols.tracked);
    }
    hide OnlyIn, Changes;
    var d := DiffOf(m, m, cols);
    HasFirst(d.added);
    HasFirst(d.removed);
    HasFirst(d.modified);
  }

  lemma HasFirst<T>(s: seq<T>)
    ensures s == [] || s[0] in s
  {
  }

  // `load(db, scan)` is what the loaders read. The short cut for one scan of one database says nothing else
  // than the diff would; two databases are compared even under the same id.
  method DiffScanVersions(load: (nat, nat) -> Loaded, dbA: nat, dbB: nat, scanA: nat, scanB: nat)
      returns (report: Report)
    ensures report.sameScan <==> dbA == dbB && scanA == scanB
    ensures report.services == ServicesDiff(load(dbA, scanA), load(dbB, scanB))
    ensures report.connections == ConnectionsDiff(load(dbA, scanA), load(dbB, scanB))
    ensures report.serviceCounts == CountsOf(report.services) && report.connectionCounts == CountsOf(report.connections)
  {
    if dbA == dbB && scanA == scanB {
      NothingBetween(Indexed(load(dbA, scanA).services, ServiceKey), SERVICE_COLUMNS);
      NothingBetween(Indexed(load(dbA, scanA).connections, ConnectionKey), CONNECTION_COLUMNS);
      var empty := Diff([], [], []);
      return Report(true, empty, empty, Counts(0, 0, 0), Counts(0, 0, 0));
    }
    var a, b := load(dbA, scanA), load(dbB, scanB);
    var servicesA := BuildMap(a.services, ServiceKey);
    var servicesB := BuildMap(b.services, ServiceKey);
    var connectionsA := BuildMap(a.connections, ConnectionKey);
    var connectionsB := BuildMap(b.connections, ConnectionKey);
    var services := DiffSet(servicesA, servicesB, SERVICE_COLUMNS);
    var connections := DiffSet(connectionsA, connectionsB, CONNECTION_COLUMNS);
    report := Report(false, services, connections,
                     Counts(|services.added|, |services.removed|, |services.modified|),
                     Counts(|connections.added|, |connections.removed|, |connections.modified|));
  }
}
