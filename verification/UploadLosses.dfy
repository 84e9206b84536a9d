// Which accepted uploads a drain deletes unsent: entries that overtake the row a drain has listed.
module UploadLosses {
  import opened Common
  import opened UploadQueue

  // What every run keeps of the table alone.
  ghost predicate TableOk(t: Table) {
    OnePendingPerCommit(t.uploads) && forall id :: id in t.uploads ==> id < t.nextId
  }

  predicate Accepted(e: Entry) {
    e.hubUrl != "" && e.orgId != ""
  }

  // The last accepted entry for a commit.
  function LastFor(arrivals: seq<(Entry, int)>, repo: string, commit: string): Option<Entry> {
    if arrivals == [] then None
    else
      var e := arrivals[|arrivals| - 1].0;
      if Accepted(e) && e.repo == repo && e.commit == commit then Some(e)
      else LastFor(arrivals[..|arrivals| - 1], repo, commit)
  }

  function UploadOfEntry(id: nat, e: Entry): Post {
    Post(id, e.body, e.hubUrl, e.orgId)
  }

  // A pending row of this commit, which stands for this upload.
  ghost predicate StandsFor(t: Table, id: nat, repo: string, commit: string, upload: Post) {
    IsPending(t.uploads, id, repo, commit) && UploadOf(id, t.uploads[id]) == upload
  }

  function Overtaken(arrivals: seq<(Entry, int)>, id: nat, repo: string, commit: string, upload: Post): Post {
    match LastFor(arrivals, repo, commit)
    case None => upload
    case Some(e) => UploadOfEntry(id, e)
  }

  // ---------------------------------------------------------------- arrivals

  lemma SlotIsThePendingRow(t: Table, e: Entry)
    requires TableOk(t)
    ensures var slot := Slot(t.uploads, t.nextId, e);
            && (slot in t.uploads <==> slot != t.nextId)
            && (slot in t.uploads ==> IsPending(t.uploads, slot, e.repo, e.commit))
            && forall a: nat | a in t.uploads && t.uploads[a].status.Pending? && t.uploads[a].repo == e.repo
                               && t.uploads[a].commit == e.commit
                 :: a == slot
  {
    var found := FindPending(t.uploads, t.nextId, e.repo, e.commit);
    hide FindPending;
    forall a: nat | a in t.uploads && t.uploads[a].status.Pending? && t.uploads[a].repo == e.repo
        && t.uploads[a].commit == e.commit
      ensures a == Slot(t.uploads, t.nextId, e)
    {
      assert IsPending(t.uploads, a, e.repo, e.commit);
    }
  }

  lemma ArrivalKeepsTable(t: Table, e: Entry, now: int)
    requires TableOk(t)
    ensures TableOk(Enqueued(t, e, now)) && t.nextId <= Enqueued(t, e, now).nextId
    ensures forall id: nat :: id < t.nextId ==> (id in Enqueued(t, e, now).uploads <==> id in t.uploads)
  {
    SlotIsThePendingRow(t, e);
    ExistingIsTheSlot(t, e);
    hide FindPending, Slot, Existing;
  }

  lemma ExistingIsTheSlot(t: Table, e: Entry)
    requires TableOk(t)
    ensures var slot := Slot(t.uploads, t.nextId, e);
            Existing(t.uploads, t.nextId, e) == if slot in t.uploads then Some(t.uploads[slot]) else None
  {
    SlotIsThePendingRow(t, e);
  }

  lemma OneArrival(t: Table, e: Entry, now: int, id: nat, repo: string, commit: string, upload: Post)
    requires TableOk(t) && StandsFor(t, id, repo, commit, upload)
    ensures StandsFor(Enqueued(t, e, now), id, repo, commit,
                      if Accepted(e) && e.repo == repo && e.commit == commit then UploadOfEntry(id, e) else upload)
  {
    SlotIsThePendingRow(t, e);
    ExistingIsTheSlot(t, e);
    hide FindPending, Slot, Existing;
  }

  lemma {:induction false} ArrivalsKeepTable(t: Table, arrivals: seq<(Entry, int)>)
    requires TableOk(t)
    ensures TableOk(Arrived(t, arrivals)) && t.nextId <= Arrived(t, arrivals).nextId
    ensures forall id: nat :: id < t.nextId ==> (id in Arrived(t, arrivals).uploads <==> id in t.uploads)
  {
    if arrivals != [] {
      var front := arrivals[..|arrivals| - 1];
      ArrivalsKeepTable(t, front);
      hide Enqueued, TableOk;
      ArrivalKeepsTable(Arrived(t, front), arrivals[|arrivals| - 1].0, arrivals[|arrivals| - 1].1);
    }
  }

  // The row of a commit stands for the last entry that arrived for it.
  lemma {:induction false} ArrivalsOvertake(t: Table, arrivals: seq<(Entry, int)>, id: nat, repo: string,
                                            commit: string, upload: Post)
    requires TableOk(t) && StandsFor(t, id, repo, commit, upload)
    ensures StandsFor(Arrived(t, arrivals), id, repo, commit, Overtaken(arrivals, id, repo, commit, upload))
  {
    if arrivals != [] {
      var front, last := arrivals[..|arrivals| - 1], arrivals[|arrivals| - 1];
      ArrivalsOvertake(t, front, id, repo, commit, upload);
      ArrivalsKeepTable(t, front);
      OneArrival(Arrived(t, front), last.0, last.1, id, repo, commit, Overtaken(front, id, repo, commit, upload));
    }
  }

  lemma {:induction false} OvertakenTwice(a: seq<(Entry, int)>, b: seq<(Entry, int)>, id: nat, repo: string,
                                          commit: string, upload: Post)
    ensures Overtaken(a + b, id, repo, commit, upload)
            == Overtaken(b, id, repo, commit, Overtaken(a, id, repo, commit, upload))
  {
    if b == [] {
      assert a + b == a;
    } else {
      assert (a + b)[..|a + b| - 1] == a + b[..|b| - 1];
      OvertakenTwice(a, b[..|b| - 1], id, repo, commit, upload);
    }
  }

  // ---------------------------------------------------------------- turns

  // Everything that arrived in the first k turns.
  function Arrivals(rows: map<nat, Row>, ids: seq<nat>, unparsable: set<string>, turns: seq<Turn>, k: nat)
      : seq<(Entry, int)>
    requires k <= |ids| <= |turns| && Listed(rows, ids)
  {
    if k == 0 then []
    else Arrivals(rows, ids, unparsable, turns, k - 1) + Met(rows[ids[k - 1]], unparsable, turns[k - 1])
  }

  // Is the row of turn k deleted, rather than marked or left alone?
  predicate Deletes(row: Row, unparsable: set<string>, turn: Turn) {
    !Skips(row) && (row.body in unparsable || turn.verdict.Delivered?)
  }

  // A turn touches the one row it is about, besides what arrives.
  lemma TurnTouchesItsRow(t: Table, id: nat, row: Row, unparsable: set<string>, turn: Turn)
    requires TableOk(t)
    ensures var mid, after := Standing(t, row, unparsable, turn), AfterTurn(t, id, row, unparsable, turn);
            && TableOk(mid) && TableOk(after) && t.nextId <= mid.nextId == after.nextId
            && (forall other: nat :: other < t.nextId ==> (other in mid.uploads <==> other in t.uploads))
            && (forall other :: other != id ==> (other in after.uploads <==> other in mid.uploads))
            && (forall other :: other != id && other in mid.uploads ==> after.uploads[other] == mid.uploads[other])
            && (id in mid.uploads ==> (id !in after.uploads <==> Deletes(row, unparsable, turn)))
  {
    ArrivalsKeepTable(t, Met(row, unparsable, turn));
    hide Arrived, Failed, Killed;
  }

  lemma {:induction false} TurnsKeepTable(t: Table, ids: seq<nat>, unparsable: set<string>, turns: seq<Turn>, k: nat)
    requires TableOk(t) && k <= |ids| <= |turns| && Listed(t.uploads, ids)
    ensures TableOk(AfterTurns(t, t.uploads, ids, unparsable, turns, k))
    ensures t.nextId <= AfterTurns(t, t.uploads, ids, unparsable, turns, k).nextId
  {
    if k > 0 {
      TurnsKeepTable(t, ids, unparsable, turns, k - 1);
      TurnTouchesItsRow(AfterTurns(t, t.uploads, ids, unparsable, turns, k - 1), ids[k - 1], t.uploads[ids[k - 1]],
                        unparsable, turns[k - 1]);
      hide AfterTurn, Standing, TableOk;
    }
  }

  lemma NothingOvertakes(id: nat, row: Row)
    ensures Overtaken([], id, row.repo, row.commit, UploadOf(id, row)) == UploadOf(id, row)
  {
  }

  // Until its own turn a listed row is pending, and stands for the last entry that arrived for its commit.
  lemma {:induction false} ListedRowStands(t: Table, ids: seq<nat>, unparsable: set<string>, turns: seq<Turn>, k: nat,
                                           m: nat)
    requires TableOk(t) && k <= m < |ids| <= |turns| && Listed(t.uploads, ids) && Distinct(ids)
             && PendingFrom(t.uploads, ids, 0)
    ensures var row := t.uploads[ids[m]];
            StandsFor(AfterTurns(t, t.uploads, ids, unparsable, turns, k), ids[m], row.repo, row.commit,
                      Overtaken(Arrivals(t.uploads, ids, unparsable, turns, k), ids[m], row.repo, row.commit,
                                UploadOf(ids[m], row)))
  {
    hide AfterTurn, Standing, Overtaken, Met, UploadOf, OnePendingPerCommit;
    var row := t.uploads[ids[m]];
    if k == 0 {
      NothingOvertakes(ids[m], row);
    } else {
      ListedRowStands(t, ids, unparsable, turns, k - 1, m);
      TurnsKeepTable(t, ids, unparsable, turns, k - 1);
      var before := AfterTurns(t, t.uploads, ids, unparsable, turns, k - 1);
      var turned, arrivals := t.uploads[ids[k - 1]], Arrivals(t.uploads, ids, unparsable, turns, k - 1);
      var met := Met(turned, unparsable, turns[k - 1]);
      var upload := Overtaken(arrivals, ids[m], row.repo, row.commit, UploadOf(ids[m], row));
      ArrivalsOvertake(before, met, ids[m], row.repo, row.commit, upload);
      OvertakenTwice(arrivals, met, ids[m], row.repo, row.commit, UploadOf(ids[m], row));
      TurnTouchesItsRow(before, ids[k - 1], turned, unparsable, turns[k - 1]);
      assert ids[k - 1] != ids[m];
      StandingIs(before, turned, unparsable, turns[k - 1]);
    }
  }

  // A row's own turn decides whether it is there at the end of the drain: ids do not come back.
  lemma {:induction false} FateIsFinal(t: Table, ids: seq<nat>, unparsable: set<string>, turns: seq<Turn>, k: nat,
                                       m: nat)
    requires TableOk(t) && m < k <= |ids| <= |turns| && Listed(t.uploads, ids) && Distinct(ids)
             && PendingFrom(t.uploads, ids, 0)
    ensures ids[m] !in AfterTurns(t, t.uploads, ids, unparsable, turns, k).uploads
            <==> Deletes(t.uploads[ids[m]], unparsable, turns[m])
  {
    hide AfterTurn, Standing, Deletes, Overtaken, Arrivals, UploadOf, OnePendingPerCommit;
    var before := AfterTurns(t, t.uploads, ids, unparsable, turns, k - 1);
    TurnsKeepTable(t, ids, unparsable, turns, k - 1);
    TurnTouchesItsRow(before, ids[k - 1], t.uploads[ids[k - 1]], unparsable, turns[k - 1]);
    assert AfterTurns(t, t.uploads, ids, unparsable, turns, k)
           == AfterTurn(before, ids[k - 1], t.uploads[ids[k - 1]], unparsable, turns[k - 1]);
    assert ids[m] < t.nextId;
    hide AfterTurns;
    if m == k - 1 {
      ListedRowStands(t, ids, unparsable, turns, m, m);
    } else {
      FateIsFinal(t, ids, unparsable, turns, k - 1, m);
      assert ids[k - 1] != ids[m];
    }
  }

  lemma {:induction false} SentOncePerTurn(rows: map<nat, Row>, ids: seq<nat>, unparsable: set<string>, k: nat, m: nat,
                                           upload: Post)
    requires m < |ids| && k <= |ids| && Listed(rows, ids) && Distinct(ids) && upload.id == ids[m]
    ensures upload in SentInTurns(rows, ids, unparsable, k)
            <==> m < k && upload in SentInTurn(ids[m], rows[ids[m]], unparsable)
  {
    if k > 0 {
      SentOncePerTurn(rows, ids, unparsable, k - 1, m, upload);
      assert k - 1 != m ==> ids[k - 1] != ids[m];
    }
  }

  // ---------------------------------------------------------------- what is lost

  // The upload that the row of turn m stands for when the turn ends is neither sent by the drain nor there after it.
  ghost predicate Lost(t: Table, ids: seq<nat>, unparsable: set<string>, turns: seq<Turn>, m: nat)
    requires m < |ids| <= |turns| && Listed(t.uploads, ids)
  {
    var standing := Standing(AfterTurns(t, t.uploads, ids, unparsable, turns, m), t.uploads[ids[m]], unparsable,
                             turns[m]).uploads;
    && ids[m] in standing
    && ids[m] !in AfterTurns(t, t.uploads, ids, unparsable, turns, |ids|).uploads
    && UploadOf(ids[m], standing[ids[m]]) !in SentInTurns(t.uploads, ids, unparsable, |ids|)
  }

  // What the row of turn m stands for when the turn ends: the last entry for its commit in any turn so far.
  function StandingUpload(t: Table, ids: seq<nat>, unparsable: set<string>, turns: seq<Turn>, m: nat): Post
    requires m < |ids| <= |turns| && Listed(t.uploads, ids)
  {
    var row := t.uploads[ids[m]];
    Overtaken(Arrivals(t.uploads, ids, unparsable, turns, m + 1), ids[m], row.repo, row.commit, UploadOf(ids[m], row))
  }

  lemma StandingAtTheEnd(t: Table, ids: seq<nat>, unparsable: set<string>, turns: seq<Turn>, m: nat)
    requires TableOk(t) && m < |ids| <= |turns| && Listed(t.uploads, ids) && Distinct(ids)
             && PendingFrom(t.uploads, ids, 0)
    ensures var row := t.uploads[ids[m]];
            StandsFor(Standing(AfterTurns(t, t.uploads, ids, unparsable, turns, m), row, unparsable, turns[m]), ids[m],
                      row.repo, row.commit, StandingUpload(t, ids, unparsable, turns, m))
  {
    var row := t.uploads[ids[m]];
    ListedRowStands(t, ids, unparsable, turns, m, m);
    TurnsKeepTable(t, ids, unparsable, turns, m);
    var arrivals, met := Arrivals(t.uploads, ids, unparsable, turns, m), Met(row, unparsable, turns[m]);
    ArrivalsOvertake(AfterTurns(t, t.uploads, ids, unparsable, turns, m), met, ids[m], row.repo, row.commit,
                     Overtaken(arrivals, ids[m], row.repo, row.commit, UploadOf(ids[m], row)));
    OvertakenTwice(arrivals, met, ids[m], row.repo, row.commit, UploadOf(ids[m], row));
  }

  // For every drain, row and arrivals: the upload standing in a listed row when its turn ends is deleted unsent
  // exactly when the listed body does not parse, or the upload that was listed is delivered and is another one.
  lemma LostIff(t: Table, ids: seq<nat>, unparsable: set<string>, turns: seq<Turn>, m: nat)
    requires TableOk(t) && m < |ids| <= |turns| && Listed(t.uploads, ids) && Distinct(ids)
             && PendingFrom(t.uploads, ids, 0)
    ensures var row := t.uploads[ids[m]];
            Lost(t, ids, unparsable, turns, m)
            <==> !Skips(row) && (row.body in unparsable
                                 || (turns[m].verdict.Delivered?
                                     && StandingUpload(t, ids, unparsable, turns, m) != UploadOf(ids[m], row)))
  {
    StandingAtTheEnd(t, ids, unparsable, turns, m);
    FateIsFinal(t, ids, unparsable, turns, |ids|, m);
    hide AfterTurns, Standing, StandingUpload, SentInTurns;
    var row := t.uploads[ids[m]];
    var standing := Standing(AfterTurns(t, t.uploads, ids, unparsable, turns, m), row, unparsable, turns[m]).uploads;
    SentOncePerTurn(t.uploads, ids, unparsable, |ids|, m, UploadOf(ids[m], standing[ids[m]]));
  }

  // A body that parses is lost exactly when it is not the listed one's and the listed row goes, unparsed or
  // delivered; and when no accepted entry for the listed commit arrives up to the end of the turn, none is lost.
  lemma ParsableLostIff(t: Table, ids: seq<nat>, unparsable: set<string>, turns: seq<Turn>, m: nat)
    requires TableOk(t) && m < |ids| <= |turns| && Listed(t.uploads, ids) && Distinct(ids)
             && PendingFrom(t.uploads, ids, 0)
    requires StandingUpload(t, ids, unparsable, turns, m).body !in unparsable
    ensures var row := t.uploads[ids[m]];
            && (Lost(t, ids, unparsable, turns, m)
                <==> Deletes(row, unparsable, turns[m])
                     && StandingUpload(t, ids, unparsable, turns, m) != UploadOf(ids[m], row))
            && (LastFor(Arrivals(t.uploads, ids, unparsable, turns, m + 1), row.repo, row.commit).None? ==>
                  !Lost(t, ids, unparsable, turns, m))
  {
    LostIff(t, ids, unparsable, turns, m);
    hide Lost, Arrivals;
  }

  // ---------------------------------------------------------------- the queue's drain

  // A queue between calls meets what is asked of a table, and a drain lists rows that are.
  lemma QueuesAreOk(uploads: map<nat, Row>, nextId: nat, enqueued: seq<Entry>, posts: seq<Post>, now: int, limit: nat,
                    ids: seq<nat>)
    requires Invariant(uploads, nextId, enqueued, posts, None) && ListsDue(uploads, now, limit, ids)
    ensures TableOk(Table(uploads, nextId)) && Listed(uploads, ids) && Distinct(ids) && PendingFrom(uploads, ids, 0)
  {
    hide PostsCounted, AttemptsBounded, Bound, RowIsBound;
  }

  // What Queue.Drain loses: its contract gives ids as listed from the queue and the turns' table. A row of the queue
  // has its destination, so only the body and the verdict decide.
  lemma DrainLosesIff(uploads: map<nat, Row>, nextId: nat, enqueued: seq<Entry>, posts: seq<Post>, now: int, limit: nat,
                      ids: seq<nat>, unparsable: set<string>, turns: seq<Turn>, m: nat)
    requires Invariant(uploads, nextId, enqueued, posts, None) && ListsDue(uploads, now, limit, ids)
             && Listed(uploads, ids)
    requires m < |ids| <= |turns|
    ensures var t, row := Table(uploads, nextId), uploads[ids[m]];
            Lost(t, ids, unparsable, turns, m)
            <==> row.body in unparsable
                 || (turns[m].verdict.Delivered?
                     && StandingUpload(t, ids, unparsable, turns, m) != UploadOf(ids[m], row))
  {
    QueuesAreOk(uploads, nextId, enqueued, posts, now, limit, ids);
    PendingRowsAreBound(uploads, nextId, enqueued, posts, ids, m);
    hide Invariant, ListsDue, Lost, StandingUpload;
    LostIff(Table(uploads, nextId), ids, unparsable, turns, m);
  }

  lemma PendingRowsAreBound(uploads: map<nat, Row>, nextId: nat, enqueued: seq<Entry>, posts: seq<Post>, ids: seq<nat>,
                            m: nat)
    requires Invariant(uploads, nextId, enqueued, posts, None) && PendingFrom(uploads, ids, 0) && m < |ids|
             && Listed(uploads, ids)
    ensures !Skips(uploads[ids[m]])
  {
    hide PostsCounted, AttemptsBounded, OnePendingPerCommit, Bound;
  }

  // ---------------------------------------------------------------- what dies unsent

  // Does the verdict of the turn kill the row, whoever's upload stands in it by then?
  predicate Kills(row: Row, unparsable: set<string>, turn: Turn) {
    !Skips(row) && Dies(row, unparsable, turn)
  }

  // The upload that the row of turn m stands for when the turn ends is not sent by the drain, and after it the row is
  // dead with that upload in it.
  ghost predicate DiesUnsent(t: Table, ids: seq<nat>, unparsable: set<string>, turns: seq<Turn>, m: nat)
    requires m < |ids| <= |turns| && Listed(t.uploads, ids)
  {
    var upload, after := StandingUpload(t, ids, unparsable, turns, m),
                         AfterTurns(t, t.uploads, ids, unparsable, turns, |ids|).uploads;
    && ids[m] in after && after[ids[m]].status.Dead? && UploadOf(ids[m], after[ids[m]]) == upload
    && upload !in SentInTurns(t.uploads, ids, unparsable, |ids|)
  }

  // Entries leave the status and the attempts of a row alone, and all of a row that is not pending.
  ghost predicate SameLife(before: map<nat, Row>, after: map<nat, Row>, id: nat) {
    id in before ==>
      && id in after && after[id].status == before[id].status && after[id].attempts == before[id].attempts
      && (!before[id].status.Pending? ==> after[id] == before[id])
  }

  lemma EntryKeepsLife(t: Table, e: Entry, now: int, id: nat)
    requires TableOk(t)
    ensures SameLife(t.uploads, Enqueued(t, e, now).uploads, id)
  {
    SlotIsThePendingRow(t, e);
    ExistingIsTheSlot(t, e);
    hide FindPending, Slot, Existing;
  }

  lemma {:induction false} ArrivalsKeepLife(t: Table, arrivals: seq<(Entry, int)>, id: nat)
    requires TableOk(t)
    ensures SameLife(t.uploads, Arrived(t, arrivals).uploads, id)
  {
    if arrivals != [] {
      var front, last := arrivals[..|arrivals| - 1], arrivals[|arrivals| - 1];
      ArrivalsKeepLife(t, front, id);
      ArrivalsKeepTable(t, front);
      EntryKeepsLife(Arrived(t, front), last.0, last.1, id);
      hide Enqueued, TableOk;
    }
  }

  lemma OtherTurnsKeepLife(t: Table, id: nat, row: Row, unparsable: set<string>, turn: Turn, other: nat)
    requires TableOk(t) && other != id
    ensures SameLife(t.uploads, AfterTurn(t, id, row, unparsable, turn).uploads, other)
  {
    hide Standing, AfterTurn, TableOk;
    ArrivalsKeepLife(t, Met(row, unparsable, turn), other);
    TurnTouchesItsRow(t, id, row, unparsable, turn);
    StandingIs(t, row, unparsable, turn);
  }

  lemma StandingIs(t: Table, row: Row, unparsable: set<string>, turn: Turn)
    ensures Standing(t, row, unparsable, turn) == Arrived(t, Met(row, unparsable, turn))
  {
  }

  // Turns that are not its own, from turn j to turn k, leave a row's life alone.
  lemma {:induction false} TurnsKeepLife(t: Table, ids: seq<nat>, unparsable: set<string>, turns: seq<Turn>, j: nat,
                                         k: nat, id: nat)
    requires TableOk(t) && j <= k <= |ids| <= |turns| && Listed(t.uploads, ids) && id !in ids[j..k]
    ensures SameLife(AfterTurns(t, t.uploads, ids, unparsable, turns, j).uploads,
                     AfterTurns(t, t.uploads, ids, unparsable, turns, k).uploads, id)
  {
    if j < k {
      assert ids[j..k] == ids[j..k - 1] + [ids[k - 1]];
      TurnsKeepLife(t, ids, unparsable, turns, j, k - 1, id);
      TurnsKeepTable(t, ids, unparsable, turns, k - 1);
      OtherTurnsKeepLife(AfterTurns(t, t.uploads, ids, unparsable, turns, k - 1), ids[k - 1], t.uploads[ids[k - 1]],
                         unparsable, turns[k - 1], id);
      hide AfterTurn, TableOk;
    }
  }

  // The row after its own turn: the standing upload, dead exactly if the verdict kills.
  lemma OwnTurn(t: Table, ids: seq<nat>, unparsable: set<string>, turns: seq<Turn>, m: nat)
    requires TableOk(t) && m < |ids| <= |turns| && Listed(t.uploads, ids) && Distinct(ids)
             && PendingFrom(t.uploads, ids, 0)
    ensures var row, after := t.uploads[ids[m]], AfterTurns(t, t.uploads, ids, unparsable, turns, m + 1).uploads;
            && (ids[m] in after && after[ids[m]].status.Dead? <==> Kills(row, unparsable, turns[m]))
            && (ids[m] in after ==>
                  UploadOf(ids[m], after[ids[m]]) == StandingUpload(t, ids, unparsable, turns, m))
  {
    var row, before := t.uploads[ids[m]], AfterTurns(t, t.uploads, ids, unparsable, turns, m);
    StandingAtTheEnd(t, ids, unparsable, turns, m);
    assert ids[m] !in ids[0..m];
    TurnsKeepLife(t, ids, unparsable, turns, 0, m, ids[m]);
    TurnsKeepTable(t, ids, unparsable, turns, m);
    ArrivalsKeepLife(before, Met(row, unparsable, turns[m]), ids[m]);
    StandingIs(before, row, unparsable, turns[m]);
    hide TableOk, Standing, StandingUpload, Arrived, Met, NextAttemptAt;
  }

  lemma StandsInItsRow(t: Table, ids: seq<nat>, unparsable: set<string>, turns: seq<Turn>, m: nat)
    requires m < |ids| <= |turns| && Listed(t.uploads, ids)
    ensures StandingUpload(t, ids, unparsable, turns, m).id == ids[m]
  {
    hide Arrivals;
  }

  // The upload standing in a listed row at the end of its turn dies unsent exactly when another one was listed and
  // sent, and that one meets a final failure or its fifth retriable one.
  lemma DiesUnsentIff(t: Table, ids: seq<nat>, unparsable: set<string>, turns: seq<Turn>, m: nat)
    requires TableOk(t) && m < |ids| <= |turns| && Listed(t.uploads, ids) && Distinct(ids)
             && PendingFrom(t.uploads, ids, 0)
    ensures var row := t.uploads[ids[m]];
            DiesUnsent(t, ids, unparsable, turns, m)
            <==> Kills(row, unparsable, turns[m])
                 && StandingUpload(t, ids, unparsable, turns, m) != UploadOf(ids[m], row)
  {
    hide AfterTurns, StandingUpload, SentInTurns, TableOk, NextAttemptAt;
    StandsInItsRow(t, ids, unparsable, turns, m);
    var row, upload := t.uploads[ids[m]], StandingUpload(t, ids, unparsable, turns, m);
    OwnTurn(t, ids, unparsable, turns, m);
    assert ids[m] !in ids[m + 1..|ids|];
    TurnsKeepLife(t, ids, unparsable, turns, m + 1, |ids|, ids[m]);
    FateIsFinal(t, ids, unparsable, turns, |ids|, m);
    FateIsFinal(t, ids, unparsable, turns, m + 1, m);
    SentOncePerTurn(t.uploads, ids, unparsable, |ids|, m, upload);
  }

  // What Queue.Drain kills unsent: see DrainLosesIff. Without an accepted entry for the commit it is nothing.
  lemma DrainKillsIff(uploads: map<nat, Row>, nextId: nat, enqueued: seq<Entry>, posts: seq<Post>, now: int, limit: nat,
                      ids: seq<nat>, unparsable: set<string>, turns: seq<Turn>, m: nat)
    requires Invariant(uploads, nextId, enqueued, posts, None) && ListsDue(uploads, now, limit, ids)
             && Listed(uploads, ids)
    requires m < |ids| <= |turns|
    ensures var t, row, turn := Table(uploads, nextId), uploads[ids[m]], turns[m];
            && (DiesUnsent(t, ids, unparsable, turns, m)
                <==> row.body !in unparsable
                     && (turn.verdict.Final? || (turn.verdict.Retriable? && row.attempts + 1 >= MAX_ATTEMPTS))
                     && StandingUpload(t, ids, unparsable, turns, m) != UploadOf(ids[m], row))
            && (LastFor(Arrivals(uploads, ids, unparsable, turns, m + 1), row.repo, row.commit).None? ==>
                  !DiesUnsent(t, ids, unparsable, turns, m))
  {
    QueuesAreOk(uploads, nextId, enqueued, posts, now, limit, ids);
    PendingRowsAreBound(uploads, nextId, enqueued, posts, ids, m);
    DiesUnsentIff(Table(uploads, nextId), ids, unparsable, turns, m);
    hide Invariant, ListsDue, DiesUnsent, TableOk, Arrivals, Skips;
  }

  // ---------------------------------------------------------------- drains that lose an entry

  function Example(body: string, commit: string): Row {
    Row(Pending, "r", commit, None, body, None, 0, -30000, 0, Some("hub"), Some("org"))
  }

  function NewFor(commit: string): (Entry, int) {
    (Entry("r", commit, "", "new", "", "hub", "org"), 1)
  }

  const TWO_ROWS: Table := Table(map[1 := Example("one", "1"), 2 := Example("two", "2")], 3)

  // Two enqueues on a fresh queue make it.
  lemma TwoRowsAreEnqueued()
    ensures Enqueued(Enqueued(Table(map[], 1), Entry("r", "1", "", "one", "", "hub", "org"), -30000),
                     Entry("r", "2", "", "two", "", "hub", "org"), -30000) == TWO_ROWS
  {
    var one: map<nat, Row> := map[1 := Example("one", "1")];
    assert FindPending(map[], 1, "r", "1") == None;
    assert FindPending(one, 2, "r", "2") == None;
  }

  lemma TwoRowsAreDue()
    ensures TableOk(TWO_ROWS) && ListsDue(TWO_ROWS.uploads, 0, 50, [1, 2])
    ensures Distinct([1, 2]) && Listed(TWO_ROWS.uploads, [1, 2]) && PendingFrom(TWO_ROWS.uploads, [1, 2], 0)
  {
  }

  lemma ArrivalsOfTwo(rows: map<nat, Row>, ids: seq<nat>, unparsable: set<string>, turns: seq<Turn>)
    requires |ids| == |turns| == 2 && Listed(rows, ids)
    ensures Arrivals(rows, ids, unparsable, turns, 1) == Met(rows[ids[0]], unparsable, turns[0])
    ensures Arrivals(rows, ids, unparsable, turns, 2)
            == Met(rows[ids[0]], unparsable, turns[0]) + Met(rows[ids[1]], unparsable, turns[1])
  {
    assert Arrivals(rows, ids, unparsable, turns, 0) == [];
  }

  // One entry comes in the first of two turns, for the row of turn m.
  lemma OvertakenInExample(e: (Entry, int), first: Turn, second: Turn, unparsable: set<string>, m: nat)
    requires m < 2 && first.meanwhile == [e] && second.meanwhile == [] && "one" !in unparsable
    requires e == NewFor(if m == 0 then "1" else "2")
    ensures Listed(TWO_ROWS.uploads, [1, 2])
    ensures StandingUpload(TWO_ROWS, [1, 2], unparsable, [first, second], m)
            != UploadOf([1, 2][m], TWO_ROWS.uploads[[1, 2][m]])
  {
    hide Arrivals;
    var rows, ids, turns := TWO_ROWS.uploads, [1, 2], [first, second];
    ArrivalsOfTwo(rows, ids, unparsable, turns);
    assert Met(rows[1], unparsable, first) == [e] && Met(rows[2], unparsable, second) == [];
    assert [e] + [] == [e];
    assert LastFor([e], "r", if m == 0 then "1" else "2") == Some(e.0);
  }

  // The listed uploads are delivered, if their bodies parse.
  lemma LostInExample(e: (Entry, int), first: Turn, second: Turn, unparsable: set<string>, m: nat)
    requires m < 2 && first.meanwhile == [e] && second.meanwhile == [] && first.verdict.Delivered?
             && second.verdict.Delivered?
    requires "one" !in unparsable && e == NewFor(if m == 0 then "1" else "2")
    ensures Listed(TWO_ROWS.uploads, [1, 2]) && Lost(TWO_ROWS, [1, 2], unparsable, [first, second], m)
  {
    hide Lost, StandingUpload, ListsDue, TableOk;
    TwoRowsAreDue();
    LostIff(TWO_ROWS, [1, 2], unparsable, [first, second], m);
    OvertakenInExample(e, first, second, unparsable, m);
  }

  // The entry comes for the row in flight; or for a row listed after the one in flight; or for such a row whose
  // listed body does not parse, and then nothing of the row is ever sent.
  lemma EntriesAreLost(turn: Turn)
    requires turn.verdict.Delivered?
    ensures TableOk(TWO_ROWS) && ListsDue(TWO_ROWS.uploads, 0, 50, [1, 2]) && Listed(TWO_ROWS.uploads, [1, 2])
    ensures Lost(TWO_ROWS, [1, 2], {}, [turn.(meanwhile := [NewFor("1")]), turn.(meanwhile := [])], 0)
    ensures Lost(TWO_ROWS, [1, 2], {}, [turn.(meanwhile := [NewFor("2")]), turn.(meanwhile := [])], 1)
    ensures Lost(TWO_ROWS, [1, 2], {"two"}, [turn.(meanwhile := [NewFor("2")]), turn.(meanwhile := [])], 1)
  {
    TwoRowsAreDue();
    hide Lost, TableOk, ListsDue;
    LostInExample(NewFor("1"), turn.(meanwhile := [NewFor("1")]), turn.(meanwhile := []), {}, 0);
    LostInExample(NewFor("2"), turn.(meanwhile := [NewFor("2")]), turn.(meanwhile := []), {}, 1);
    LostInExample(NewFor("2"), turn.(meanwhile := [NewFor("2")]), turn.(meanwhile := []), {"two"}, 1);
  }

  // The entry comes for the row in flight, or for a row listed later, and the listed upload fails for good.
  lemma EntriesDie(turn: Turn)
    requires turn.verdict.Final?
    ensures TableOk(TWO_ROWS) && ListsDue(TWO_ROWS.uploads, 0, 50, [1, 2]) && Listed(TWO_ROWS.uploads, [1, 2])
    ensures DiesUnsent(TWO_ROWS, [1, 2], {}, [turn.(meanwhile := [NewFor("1")]), turn.(meanwhile := [])], 0)
    ensures DiesUnsent(TWO_ROWS, [1, 2], {}, [turn.(meanwhile := [NewFor("2")]), turn.(meanwhile := [])], 1)
  {
    TwoRowsAreDue();
    hide DiesUnsent, TableOk, ListsDue;
    DiesInExample(NewFor("1"), turn, 0);
    DiesInExample(NewFor("2"), turn, 1);
  }

  lemma DiesInExample(e: (Entry, int), turn: Turn, m: nat)
    requires m < 2 && turn.verdict.Final? && e == NewFor(if m == 0 then "1" else "2")
    ensures Listed(TWO_ROWS.uploads, [1, 2])
    ensures DiesUnsent(TWO_ROWS, [1, 2], {}, [turn.(meanwhile := [e]), turn.(meanwhile := [])], m)
  {
    hide DiesUnsent, StandingUpload, ListsDue, TableOk;
    TwoRowsAreDue();
    var turns := [turn.(meanwhile := [e]), turn.(meanwhile := [])];
    DiesUnsentIff(TWO_ROWS, [1, 2], {}, turns, m);
    OvertakenInExample(e, turns[0], turns[1], {}, m);
  }
}
