// The offline upload queue (worker/hub-sync/queue.js) and the drain loop over it
// (worker/hub-sync/index.js). Times are milliseconds.
module UploadQueue {
  import opened Common

  const MAX_ATTEMPTS: nat := 5
  const RETRY_SCHEDULE_SECONDS: seq<nat> := [30, 120, 600, 3600, 21600]

  datatype Status = Pending | Dead | Held

  datatype Row = Row(status: Status, repo: string, commit: string, slug: Option<string>, body: string,
                     lastError: Option<string>, attempts: nat, enqueuedAt: int, nextAttemptAt: int,
                     hubUrl: Option<string>, orgId: Option<string>)

  // "" stands for a missing property.
  datatype Entry = Entry(repo: string, commit: string, slug: string, body: string, lastError: string,
                         hubUrl: string, orgId: string)

  // One upload that was sent, and the row it came from.
  datatype Post = Post(id: nat, body: string, hubUrl: string, orgId: string)

  function NextAttemptAt(attempt: nat, now: int): int
    requires attempt >= 1
  {
    now + RETRY_SCHEDULE_SECONDS[if attempt - 1 < 4 then attempt - 1 else 4] * 1000
  }

  predicate IsPending(uploads: map<nat, Row>, id: nat, repo: string, commit: string) {
    id in uploads && uploads[id].status.Pending? && uploads[id].repo == repo && uploads[id].commit == commit
  }

  // The row the partial UNIQUE index finds, if any.
  function FindPending(uploads: map<nat, Row>, bound: nat, repo: string, commit: string): (r: Option<nat>)
    ensures r.Some? ==> r.value < bound && IsPending(uploads, r.value, repo, commit)
    ensures r.None? ==> forall id: nat :: id < bound ==> !IsPending(uploads, id, repo, commit)
  {
    if bound == 0 then None
    else if IsPending(uploads, bound - 1, repo, commit) then Some(bound - 1)
    else FindPending(uploads, bound - 1, repo, commit)
  }

  // The row an entry inserts, or makes of the pending row for the same commit: attempts and the
  // enqueue time stay.
  function RowFor(e: Entry, existing: Option<Row>, now: int): Row {
    match existing
    case None =>
      Row(Pending, e.repo, e.commit, OrNull(e.slug), e.body, OrNull(e.lastError), 0, now, NextAttemptAt(1, now),
          Some(e.hubUrl), Some(e.orgId))
    case Some(row) =>
      row.(slug := OrNull(e.slug), body := e.body, lastError := OrNull(e.lastError),
           nextAttemptAt := NextAttemptAt(1, now), hubUrl := Some(e.hubUrl), orgId := Some(e.orgId))
  }

  // markUploadFailure on a row: the status is written only when the row dies.
  function Failed(row: Row, error: string, now: int): Row {
    if row.attempts + 1 >= MAX_ATTEMPTS
    then row.(status := Dead, attempts := row.attempts + 1, lastError := Some(error), nextAttemptAt := now)
    else row.(attempts := row.attempts + 1, lastError := Some(error),
              nextAttemptAt := NextAttemptAt(row.attempts + 2, now))
  }

  // markUploadDead
  function Killed(row: Row, error: string, now: int): Row {
    row.(status := Dead, attempts := row.attempts + 1, lastError := Some(error), nextAttemptAt := now)
  }

  // The migration's quarantine.
  function Quarantined(uploads: map<nat, Row>): map<nat, Row> {
    map id | id in uploads ::
      if uploads[id].status.Pending? && uploads[id].orgId.None? then uploads[id].(status := Held) else uploads[id]
  }

  // ---------------------------------------------------------------- a row, column by column

  // The columns that no call rewrites.
  ghost predicate SameUpload(before: Row, after: Row) {
    && after.repo == before.repo && after.commit == before.commit && after.enqueuedAt == before.enqueuedAt
    && after.body == before.body && after.slug == before.slug
    && after.hubUrl == before.hubUrl && after.orgId == before.orgId
  }

  // What an entry sets in its row, new or pending: an empty slug or error is NULL, and the row is due in 30 seconds.
  ghost predicate CarriesEntry(row: Row, e: Entry, now: int) {
    && row.status == Pending && row.repo == e.repo && row.commit == e.commit && row.body == e.body
    && row.slug == (if e.slug == "" then None else Some(e.slug))
    && row.lastError == (if e.lastError == "" then None else Some(e.lastError))
    && row.hubUrl == Some(e.hubUrl) && row.orgId == Some(e.orgId) && row.nextAttemptAt == now + 30000
  }

  // The entry is in one row: the pending one of its commit, whose attempts and enqueue time stay, or a new one.
  ghost predicate StoresEntry(before: map<nat, Row>, after: map<nat, Row>, id: nat, e: Entry, now: int) {
    && id in after && after == before[id := after[id]] && CarriesEntry(after[id], e, now)
    && (if id in before then
          && IsPending(before, id, e.repo, e.commit)
          && after[id].attempts == before[id].attempts && after[id].enqueuedAt == before[id].enqueuedAt
        else
          && after[id].attempts == 0 && after[id].enqueuedAt == now
          && forall other :: !IsPending(before, other, e.repo, e.commit))
  }

  lemma EntryIsStored(uploads: map<nat, Row>, nextId: nat, e: Entry, now: int)
    requires nextId !in uploads && forall id :: id in uploads ==> id < nextId
    ensures var id := Slot(uploads, nextId, e);
            StoresEntry(uploads, uploads[id := RowFor(e, Existing(uploads, nextId, e), now)], id, e, now)
  {
  }

  // A row after its upload met this verdict: gone; one attempt more, due after the next wait or dead after the fifth;
  // or dead at once. The error is the verdict's.
  ghost predicate MeetsVerdict(before: Row, after: Option<Row>, verdict: Verdict, error: string, now: int) {
    match verdict
    case Delivered => after.None?
    case Retriable =>
      && after.Some? && SameUpload(before, after.value) && after.value.lastError == Some(error)
      && after.value.attempts == before.attempts + 1
      && (if before.attempts + 1 >= 5 then after.value.status == Dead && after.value.nextAttemptAt == now
          else
            && after.value.status == before.status
            && after.value.nextAttemptAt == now + [120000, 600000, 3600000, 21600000][before.attempts])
    case Final =>
      && after.Some? && SameUpload(before, after.value) && after.value.lastError == Some(error)
      && after.value.attempts == before.attempts + 1 && after.value.status == Dead && after.value.nextAttemptAt == now
  }

  lemma VerdictIsMet(uploads: map<nat, Row>, id: nat, verdict: Verdict, error: string, now: int)
    requires id in uploads
    ensures var after := Settled(uploads, id, verdict, error, now);
            && (forall other :: other != id ==>
                  (other in after <==> other in uploads) && (other in uploads ==> after[other] == uploads[other]))
            && MeetsVerdict(uploads[id], if id in after then Some(after[id]) else None, verdict, error, now)
  {
  }

  // ---------------------------------------------------------------- the retry schedule

  function FailedAt(row: Row, times: seq<int>): Row {
    if times == [] then row else Failed(FailedAt(row, times[..|times| - 1]), "", times[|times| - 1])
  }

  // A row that meets only retriable failures waits 30, 120, 600, 3600 and 21600 seconds, in that order,
  // and dies at the fifth failure.
  lemma {:induction false} RetrySchedule(e: Entry, enqueuedAt: int, times: seq<int>)
    requires |times| <= 5
    ensures var row := FailedAt(RowFor(e, None, enqueuedAt), times);
            row.attempts == |times|
            && (|times| < 5 ==>
                  row.status == Pending
                  && row.nextAttemptAt == (if times == [] then enqueuedAt else times[|times| - 1])
                                          + [30, 120, 600, 3600, 21600][|times|] * 1000)
            && (|times| == 5 ==> row.status == Dead)
  {
    if times != [] {
      RetrySchedule(e, enqueuedAt, times[..|times| - 1]);
    }
  }

  // ---------------------------------------------------------------- what every run keeps

  function PostsOf(posts: seq<Post>, id: nat): nat {
    if posts == [] then 0 else PostsOf(posts[..|posts| - 1], id) + (if posts[|posts| - 1].id == id then 1 else 0)
  }

  // Body, hub and organisation came together from one enqueueUpload call.
  ghost predicate Bound(enqueued: seq<Entry>, body: string, hubUrl: string, orgId: string) {
    exists i :: 0 <= i < |enqueued| && enqueued[i].body == body && enqueued[i].hubUrl == hubUrl
        && enqueued[i].orgId == orgId
  }

  ghost predicate RowIsBound(enqueued: seq<Entry>, row: Row) {
    row.hubUrl.Some? && row.orgId.Some? && row.hubUrl.value != "" && row.orgId.value != ""
    && Bound(enqueued, row.body, row.hubUrl.value, row.orgId.value)
  }

  ghost predicate OnePendingPerCommit(uploads: map<nat, Row>) {
    forall a, b | a in uploads && b in uploads && uploads[a].status.Pending? && uploads[b].status.Pending?
      :: uploads[a].repo == uploads[b].repo && uploads[a].commit == uploads[b].commit ==> a == b
  }

  ghost predicate AttemptsBounded(uploads: map<nat, Row>) {
    forall id :: id in uploads ==> uploads[id].attempts <= MAX_ATTEMPTS
                                   && (uploads[id].status.Pending? ==> uploads[id].attempts < MAX_ATTEMPTS)
  }

  // Each row has been sent at most as often as its attempts say, one more if it is in flight; and at
  // most MAX_ATTEMPTS times in its life.
  ghost predicate PostsCounted(uploads: map<nat, Row>, posts: seq<Post>, flight: Option<nat>) {
    && (forall id: nat :: PostsOf(posts, id) <= MAX_ATTEMPTS)
    && (forall id: nat :: id in uploads ==>
          PostsOf(posts, id) <= uploads[id].attempts + (if flight == Some(id) then 1 else 0))
  }

  ghost predicate Invariant(uploads: map<nat, Row>, nextId: nat, enqueued: seq<Entry>, posts: seq<Post>,
                            flight: Option<nat>) {
    && (forall id :: id in uploads ==> 0 < id < nextId)
    && OnePendingPerCommit(uploads)
    && AttemptsBounded(uploads)
    && (forall id :: id in uploads && uploads[id].status.Pending? ==> RowIsBound(enqueued, uploads[id]))
    && (forall i :: 0 <= i < |posts| ==>
        0 < posts[i].id < nextId && Bound(enqueued, posts[i].body, posts[i].hubUrl, posts[i].orgId))
    && PostsCounted(uploads, posts, flight)
  }

  lemma {:induction false} NoPosts(posts: seq<Post>, id: nat)
    requires forall i :: 0 <= i < |posts| ==> posts[i].id != id
    ensures PostsOf(posts, id) == 0
  {
    if posts != [] {
      NoPosts(posts[..|posts| - 1], id);
    }
  }

  lemma StillBound(enqueued: seq<Entry>, e: Entry)
    ensures forall body, hub, org :: Bound(enqueued, body, hub, org) ==> Bound(enqueued + [e], body, hub, org)
    ensures Bound(enqueued + [e], e.body, e.hubUrl, e.orgId)
  {
    var longer := enqueued + [e];
    assert longer[|enqueued|] == e;
    forall body, hub, org | Bound(enqueued, body, hub, org) ensures Bound(longer, body, hub, org) {
      var i :| 0 <= i < |enqueued| && enqueued[i].body == body && enqueued[i].hubUrl == hub && enqueued[i].orgId == org;
      assert longer[i] == enqueued[i];
    }
  }

  // The row id an entry goes to.
  function Slot(uploads: map<nat, Row>, nextId: nat, e: Entry): nat {
    FindPending(uploads, nextId, e.repo, e.commit).GetOr(nextId)
  }

  function Existing(uploads: map<nat, Row>, nextId: nat, e: Entry): Option<Row> {
    match FindPending(uploads, nextId, e.repo, e.commit)
    case None => None
    case Some(id) => Some(uploads[id])
  }

  lemma EnqueueKeepsInvariant(uploads: map<nat, Row>, nextId: nat, enqueued: seq<Entry>, posts: seq<Post>,
                              flight: Option<nat>, e: Entry, now: int)
    requires Invariant(uploads, nextId, enqueued, posts, flight) && nextId > 0 && e.hubUrl != "" && e.orgId != ""
    requires flight.Some? ==> flight.value < nextId
    ensures var id := Slot(uploads, nextId, e);
            Invariant(uploads[id := RowFor(e, Existing(uploads, nextId, e), now)],
                      if id == nextId then nextId + 1 else nextId,
                      enqueued + [e], posts, flight)
  {
    hide Bound, NextAttemptAt, FindPending, PostsOf, OrNull;
    var id := Slot(uploads, nextId, e);
    var row := RowFor(e, Existing(uploads, nextId, e), now);
    var after := uploads[id := row];
    StillBound(enqueued, e);
    assert forall a :: a in uploads && uploads[a].status.Pending? && uploads[a].repo == e.repo
                       && uploads[a].commit == e.commit
                       ==> a == id by {
      assert forall a :: a in uploads && uploads[a].status.Pending? && uploads[a].repo == e.repo
                         && uploads[a].commit == e.commit
                         ==> IsPending(uploads, a, e.repo, e.commit);
    }
    assert OnePendingPerCommit(after);
    if id == nextId {
      NoPosts(posts, nextId);
    }
    assert PostsCounted(after, posts, flight);
  }

  lemma OneMorePost(posts: seq<Post>, post: Post)
    ensures forall x: nat :: PostsOf(posts + [post], x) == PostsOf(posts, x) + (if x == post.id then 1 else 0)
  {
    assert (posts + [post])[..|posts|] == posts;
  }

  lemma PostKeepsInvariant(uploads: map<nat, Row>, nextId: nat, enqueued: seq<Entry>, posts: seq<Post>, id: nat,
                           post: Post)
    requires Invariant(uploads, nextId, enqueued, posts, None) && id in uploads && uploads[id].status.Pending?
    requires post.id == id && Bound(enqueued, post.body, post.hubUrl, post.orgId)
    ensures Invariant(uploads, nextId, enqueued, posts + [post], Some(id))
  {
    hide Bound, RowIsBound, OnePendingPerCommit;
    OneMorePost(posts, post);
    hide PostsOf;
    assert PostsCounted(uploads, posts + [post], Some(id));
  }

  // What a settled upload leaves of its row.
  datatype Verdict = Delivered | Retriable | Final

  function Settled(uploads: map<nat, Row>, id: nat, verdict: Verdict, error: string, now: int): map<nat, Row> {
    match verdict
    case Delivered => uploads - {id}
    case Retriable => if id in uploads then uploads[id := Failed(uploads[id], error, now)] else uploads
    case Final => if id in uploads then uploads[id := Killed(uploads[id], error, now)] else uploads
  }

  lemma SettleKeepsInvariant(uploads: map<nat, Row>, nextId: nat, enqueued: seq<Entry>, posts: seq<Post>, id: nat,
                             verdict: Verdict, error: string, now: int)
    requires Invariant(uploads, nextId, enqueued, posts, Some(id)) && id in uploads && uploads[id].status.Pending?
    ensures Invariant(Settled(uploads, id, verdict, error, now), nextId, enqueued, posts, None)
  {
    hide Bound, PostsOf;
  }

  lemma FewerRowsKeepInvariant(uploads: map<nat, Row>, nextId: nat, enqueued: seq<Entry>, posts: seq<Post>,
                               gone: set<nat>)
    requires Invariant(uploads, nextId, enqueued, posts, None)
    ensures Invariant(uploads - gone, nextId, enqueued, posts, None)
  {
    hide Bound, PostsOf;
  }

  // Whatever the rows: exactly the pending ones without an organisation are held, and nothing else changes.
  lemma QuarantineHolds(uploads: map<nat, Row>, id: nat)
    requires id in uploads
    ensures Quarantined(uploads).Keys == uploads.Keys
    ensures var row, after := uploads[id], Quarantined(uploads)[id];
            && (row.status == Pending && row.orgId == None ==> after.status == Held)
            && (row.status != Pending || row.orgId != None ==> after == row)
            && SameUpload(row, after) && after.attempts == row.attempts && after.lastError == row.lastError
            && after.nextAttemptAt == row.nextAttemptAt
  {
  }

  lemma QuarantineKeepsInvariant(uploads: map<nat, Row>, nextId: nat, enqueued: seq<Entry>, posts: seq<Post>)
    requires Invariant(uploads, nextId, enqueued, posts, None)
    ensures Quarantined(uploads) == uploads
  {
    hide Bound, PostsOf;
  }

  // ---------------------------------------------------------------- listing what is due

  ghost predicate IsDue(row: Row, now: int) {
    row.status.Pending? && row.nextAttemptAt <= now
  }

  // SELECT * WHERE status = 'pending' AND next_attempt_at <= now ORDER BY next_attempt_at LIMIT limit
  ghost predicate ListsDue(uploads: map<nat, Row>, now: int, limit: nat, ids: seq<nat>) {
    && |ids| <= limit
    && (forall i :: 0 <= i < |ids| ==> ids[i] in uploads && IsDue(uploads[ids[i]], now))
    && Distinct(ids)
    && (forall i, j :: 0 <= i < j < |ids| ==> uploads[ids[i]].nextAttemptAt <= uploads[ids[j]].nextAttemptAt)
    && (forall id :: id in uploads && IsDue(uploads[id], now) && id !in ids ==>
          |ids| == limit && forall i :: 0 <= i < |ids| ==> uploads[ids[i]].nextAttemptAt <= uploads[id].nextAttemptAt)
  }

  method Earliest(uploads: map<nat, Row>, candidates: set<nat>, at: Row -> int) returns (best: nat)
    requires candidates != {} && candidates <= uploads.Keys
    ensures best in candidates && forall id :: id in candidates ==> at(uploads[best]) <= at(uploads[id])
  {
    best :| best in candidates;
    var left := candidates - {best};
    while left != {}
      invariant left <= candidates && best in candidates
      invariant forall id :: id in candidates - left ==> at(uploads[best]) <= at(uploads[id])
      decreases left
    {
      var id :| id in left;
      if at(uploads[id]) < at(uploads[best]) { best := id; }
      left := left - {id};
    }
  }

  method ListDueUploads(uploads: map<nat, Row>, limit: nat, now: int) returns (ids: seq<nat>)
    ensures ListsDue(uploads, now, limit, ids)
  {
    ids := [];
    var due := set id | id in uploads && uploads[id].status.Pending? && uploads[id].nextAttemptAt <= now;
    var left := due;
    while |ids| < limit && left != {}
      invariant |ids| <= limit && left <= due
      invariant forall id :: id in due <==> id in left || id in ids
      invariant forall i :: 0 <= i < |ids| ==> ids[i] in due && ids[i] !in left
      invariant Distinct(ids)
      invariant forall i, j :: 0 <= i < j < |ids| ==> uploads[ids[i]].nextAttemptAt <= uploads[ids[j]].nextAttemptAt
      invariant forall i, id :: 0 <= i < |ids| && id in left ==>
                uploads[ids[i]].nextAttemptAt <= uploads[id].nextAttemptAt
      decreases left
    {
      var next := Earliest(uploads, left, (row: Row) => row.nextAttemptAt);
      ids := ids + [next];
      left := left - {next};
    }
  }

  lemma StatusesPartition(uploads: map<nat, Row>, pending: set<nat>, dead: set<nat>, held: set<nat>)
    requires pending == set id | id in uploads && uploads[id].status.Pending?
    requires dead == set id | id in uploads && uploads[id].status.Dead?
    requires held == set id | id in uploads && uploads[id].status.Held?
    ensures |pending| + |dead| + |held| == |uploads|
  {
    assert uploads.Keys == pending + dead + held;
  }

  function DeadRows(uploads: map<nat, Row>): set<nat> {
    set id | id in uploads && uploads[id].status.Dead?
  }

  // ---------------------------------------------------------------- the queue and its drain

  // What the world does while one row is drained: entries enqueued while the upload is in flight, the
  // hub's verdict, and the time it comes.
  datatype Turn = Turn(meanwhile: seq<(Entry, int)>, verdict: Verdict, error: string, at: int)

  // ---------------------------------------------------------------- a drain as a function

  datatype Table = Table(uploads: map<nat, Row>, nextId: nat)

  function Enqueued(t: Table, e: Entry, now: int): Table {
    if e.hubUrl == "" || e.orgId == "" then t
    else
      var id := Slot(t.uploads, t.nextId, e);
      Table(t.uploads[id := RowFor(e, Existing(t.uploads, t.nextId, e), now)],
            if id == t.nextId then t.nextId + 1 else t.nextId)
  }

  function Arrived(t: Table, meanwhile: seq<(Entry, int)>): Table {
    if meanwhile == [] then t
    else
      var last := meanwhile[|meanwhile| - 1];
      Enqueued(Arrived(t, meanwhile[..|meanwhile| - 1]), last.0, last.1)
  }

  // A row without a destination is left alone.
  predicate Skips(row: Row) {
    row.hubUrl.GetOr("") == "" || row.orgId.GetOr("") == ""
  }

  // The entries that arrive during the turn of the row listed as `row`. Only an upload is awaited.
  function Met(row: Row, unparsable: set<string>, turn: Turn): seq<(Entry, int)> {
    if Skips(row) || row.body in unparsable then [] else turn.meanwhile
  }

  // The table when the row is about to be deleted or marked.
  function Standing(t: Table, row: Row, unparsable: set<string>, turn: Turn): Table {
    Arrived(t, Met(row, unparsable, turn))
  }

  function AfterTurn(t: Table, id: nat, row: Row, unparsable: set<string>, turn: Turn): Table {
    var mid := Standing(t, row, unparsable, turn);
    if Skips(row) then mid
    else if row.body in unparsable then mid.(uploads := mid.uploads - {id})
    else mid.(uploads := Settled(mid.uploads, id, turn.verdict, turn.error, turn.at))
  }

  ghost predicate Listed(rows: map<nat, Row>, ids: seq<nat>) {
    forall i :: 0 <= i < |ids| ==> ids[i] in rows
  }

  // The first k turns. The rows sent are the ones listed, whatever became of them since.
  function AfterTurns(t: Table, rows: map<nat, Row>, ids: seq<nat>, unparsable: set<string>, turns: seq<Turn>, k: nat)
      : Table
    requires k <= |ids| <= |turns| && Listed(rows, ids)
  {
    if k == 0 then t
    else AfterTurn(AfterTurns(t, rows, ids, unparsable, turns, k - 1), ids[k - 1], rows[ids[k - 1]], unparsable,
                   turns[k - 1])
  }

  function UploadOf(id: nat, row: Row): Post {
    Post(id, row.body, row.hubUrl.GetOr(""), row.orgId.GetOr(""))
  }

  function SentInTurn(id: nat, row: Row, unparsable: set<string>): seq<Post> {
    if Skips(row) || row.body in unparsable then [] else [UploadOf(id, row)]
  }

  function SentInTurns(rows: map<nat, Row>, ids: seq<nat>, unparsable: set<string>, k: nat): seq<Post>
    requires k <= |ids| && Listed(rows, ids)
  {
    if k == 0 then []
    else SentInTurns(rows, ids, unparsable, k - 1) + SentInTurn(ids[k - 1], rows[ids[k - 1]], unparsable)
  }

  // ---------------------------------------------------------------- what a drain counts

  // The upload listed as `row` is sent and accepted by the hub.
  predicate Succeeds(row: Row, unparsable: set<string>, turn: Turn) {
    row.body !in unparsable && turn.verdict.Delivered?
  }

  // It is discarded, or refused for now and has an attempt left.
  predicate Fails(row: Row, unparsable: set<string>, turn: Turn) {
    row.body in unparsable || (turn.verdict.Retriable? && row.attempts + 1 < MAX_ATTEMPTS)
  }

  // It is refused for good, or for the last time.
  predicate Dies(row: Row, unparsable: set<string>, turn: Turn) {
    row.body !in unparsable
    && (turn.verdict.Final? || (turn.verdict.Retriable? && row.attempts + 1 >= MAX_ATTEMPTS))
  }

  // The turns among the first n, of rows as they were listed, that end so.
  ghost function SucceededIn(rows: map<nat, Row>, ids: seq<nat>, unparsable: set<string>, turns: seq<Turn>, n: nat)
      : set<nat>
    requires n <= |ids| <= |turns| && Listed(rows, ids)
  {
    set k: nat | k < n && Succeeds(rows[ids[k]], unparsable, turns[k])
  }

  ghost function FailedIn(rows: map<nat, Row>, ids: seq<nat>, unparsable: set<string>, turns: seq<Turn>, n: nat)
      : set<nat>
    requires n <= |ids| <= |turns| && Listed(rows, ids)
  {
    set k: nat | k < n && Fails(rows[ids[k]], unparsable, turns[k])
  }

  ghost function DiedIn(rows: map<nat, Row>, ids: seq<nat>, unparsable: set<string>, turns: seq<Turn>, n: nat)
      : set<nat>
    requires n <= |ids| <= |turns| && Listed(rows, ids)
  {
    set k: nat | k < n && Dies(rows[ids[k]], unparsable, turns[k])
  }

  ghost predicate Counted(rows: map<nat, Row>, ids: seq<nat>, unparsable: set<string>, turns: seq<Turn>, n: nat,
                          succeeded: nat, failed: nat, dead: nat)
    requires n <= |ids| <= |turns| && Listed(rows, ids)
  {
    && succeeded == |SucceededIn(rows, ids, unparsable, turns, n)|
    && failed == |FailedIn(rows, ids, unparsable, turns, n)|
    && dead == |DiedIn(rows, ids, unparsable, turns, n)|
  }

  lemma OneMoreTurn(rows: map<nat, Row>, ids: seq<nat>, unparsable: set<string>, turns: seq<Turn>, n: nat,
                    succeeded: nat, failed: nat, dead: nat)
    requires n < |ids| <= |turns| && Listed(rows, ids)
    requires Counted(rows, ids, unparsable, turns, n, succeeded, failed, dead)
    ensures var row, turn := rows[ids[n]], turns[n];
            Counted(rows, ids, unparsable, turns, n + 1,
                    if Succeeds(row, unparsable, turn) then succeeded + 1 else succeeded,
                    if Fails(row, unparsable, turn) then failed + 1 else failed,
                    if Dies(row, unparsable, turn) then dead + 1 else dead)
  {
    OneMoreSucceeded(rows, ids, unparsable, turns, n);
    OneMoreFailed(rows, ids, unparsable, turns, n);
    OneMoreDied(rows, ids, unparsable, turns, n);
    hide Succeeds, Fails, Dies, SucceededIn, FailedIn, DiedIn;
  }

  lemma OneMoreSucceeded(rows: map<nat, Row>, ids: seq<nat>, unparsable: set<string>, turns: seq<Turn>, n: nat)
    requires n < |ids| <= |turns| && Listed(rows, ids)
    ensures |SucceededIn(rows, ids, unparsable, turns, n + 1)|
            == |SucceededIn(rows, ids, unparsable, turns, n)|
               + if Succeeds(rows[ids[n]], unparsable, turns[n]) then 1 else 0
  {
    hide Succeeds;
    var more := if Succeeds(rows[ids[n]], unparsable, turns[n]) then {n} else {};
    assert SucceededIn(rows, ids, unparsable, turns, n + 1) == SucceededIn(rows, ids, unparsable, turns, n) + more;
  }

  lemma OneMoreFailed(rows: map<nat, Row>, ids: seq<nat>, unparsable: set<string>, turns: seq<Turn>, n: nat)
    requires n < |ids| <= |turns| && Listed(rows, ids)
    ensures |FailedIn(rows, ids, unparsable, turns, n + 1)|
            == |FailedIn(rows, ids, unparsable, turns, n)|
               + if Fails(rows[ids[n]], unparsable, turns[n]) then 1 else 0
  {
    hide Fails;
    var more := if Fails(rows[ids[n]], unparsable, turns[n]) then {n} else {};
    assert FailedIn(rows, ids, unparsable, turns, n + 1) == FailedIn(rows, ids, unparsable, turns, n) + more;
  }

  lemma OneMoreDied(rows: map<nat, Row>, ids: seq<nat>, unparsable: set<string>, turns: seq<Turn>, n: nat)
    requires n < |ids| <= |turns| && Listed(rows, ids)
    ensures |DiedIn(rows, ids, unparsable, turns, n + 1)|
            == |DiedIn(rows, ids, unparsable, turns, n)|
               + if Dies(rows[ids[n]], unparsable, turns[n]) then 1 else 0
  {
    hide Dies;
    var more := if Dies(rows[ids[n]], unparsable, turns[n]) then {n} else {};
    assert DiedIn(rows, ids, unparsable, turns, n + 1) == DiedIn(rows, ids, unparsable, turns, n) + more;
  }

  lemma NothingCounted(rows: map<nat, Row>, ids: seq<nat>, unparsable: set<string>, turns: seq<Turn>)
    requires |ids| <= |turns| && Listed(rows, ids)
    ensures Counted(rows, ids, unparsable, turns, 0, 0, 0, 0)
  {
    assert SucceededIn(rows, ids, unparsable, turns, 0) == {};
    assert FailedIn(rows, ids, unparsable, turns, 0) == {};
    assert DiedIn(rows, ids, unparsable, turns, 0) == {};
  }

  // ---------------------------------------------------------------- the queue

  datatype Report = Report(attempted: nat, succeeded: nat, failed: nat, dead: nat)

  datatype Op =
    | EnqueueOp(e: Entry, now: int)
    | DrainOp(limit: nat, now: int, unparsable: set<string>, turns: seq<Turn>)
    | PruneOp
    | ReopenOp

  class Queue {
    var uploads: map<nat, Row>
    var nextId: nat
    // The entries accepted so far, and every upload sent.
    ghost var enqueued: seq<Entry>
    ghost var posts: seq<Post>

    function Now(): Table
      reads this
    {
      Table(uploads, nextId)
    }

    ghost predicate Valid()
      reads this
    {
      nextId > 0 && Invariant(uploads, nextId, enqueued, posts, None)
    }

    constructor ()
      ensures Valid() && uploads == map[] && enqueued == [] && posts == []
    {
      uploads, nextId, enqueued, posts := map[], 1, [], [];
      new;
      assert forall id: nat :: PostsOf([], id) == 0;
    }

    // enqueueUpload, also while row `flight` is being sent
    method EnqueueDuring(e: Entry, now: int, ghost flight: Option<nat>) returns (r: Outcome<nat>)
      requires nextId > 0 && Invariant(uploads, nextId, enqueued, posts, flight)
               && (flight.Some? ==> flight.value < nextId)
      modifies this
      ensures nextId >= old(nextId) && Invariant(uploads, nextId, enqueued, posts, flight) && posts == old(posts)
      ensures r.Thrown? <==> e.hubUrl == "" || e.orgId == ""
      ensures r.Thrown? ==> uploads == old(uploads) && enqueued == old(enqueued)
      ensures r.Done? ==> enqueued == old(enqueued) + [e] && r.value == Slot(old(uploads), old(nextId), e)
                          && uploads == old(uploads)[r.value := RowFor(e, Existing(old(uploads), old(nextId), e), now)]
                          && StoresEntry(old(uploads), uploads, r.value, e, now)
      ensures Now() == Enqueued(old(Now()), e, now)
    {
      if e.hubUrl == "" || e.orgId == "" {
        return Thrown;
      }
      EnqueueKeepsInvariant(uploads, nextId, enqueued, posts, flight, e, now);
      EntryIsStored(uploads, nextId, e, now);
      hide StoresEntry;
      var existing := FindPending(uploads, nextId, e.repo, e.commit);
      var id;
      if existing.Some? {
        id := existing.value;
        uploads := uploads[id := RowFor(e, Some(uploads[id]), now)];
      } else {
        id := nextId;
        uploads := uploads[id := RowFor(e, None, now)];
        nextId := nextId + 1;
      }
      enqueued := enqueued + [e];
      return Done(id);
    }

    method Enqueue(e: Entry, now: int) returns (r: Outcome<nat>)
      requires Valid()
      modifies this
      ensures Valid() && posts == old(posts)
      ensures r.Thrown? <==> e.hubUrl == "" || e.orgId == ""
      ensures r.Thrown? ==> uploads == old(uploads) && enqueued == old(enqueued)
      ensures r.Done? ==> enqueued == old(enqueued) + [e] && r.value == Slot(old(uploads), old(nextId), e)
                          && uploads == old(uploads)[r.value := RowFor(e, Existing(old(uploads), old(nextId), e), now)]
                          && StoresEntry(old(uploads), uploads, r.value, e, now)
      ensures Now() == Enqueued(old(Now()), e, now)
    {
      r := EnqueueDuring(e, now, None);
    }

    // deleteUpload, markUploadFailure or markUploadDead for the row just sent
    method Settle(id: nat, verdict: Verdict, error: string, now: int) returns (died: bool)
      requires nextId > 0 && Invariant(uploads, nextId, enqueued, posts, Some(id)) && id in uploads
               && uploads[id].status.Pending?
      modifies this`uploads
      ensures Valid() && uploads == Settled(old(uploads), id, verdict, error, now)
      ensures MeetsVerdict(old(uploads[id]), if id in uploads then Some(uploads[id]) else None, verdict, error, now)
      ensures died <==> id in uploads && uploads[id].status.Dead?
      ensures died <==> verdict.Final? || (verdict.Retriable? && old(uploads[id].attempts) + 1 >= MAX_ATTEMPTS)
    {
      hide Invariant, MeetsVerdict, NextAttemptAt;
      SettleKeepsInvariant(uploads, nextId, enqueued, posts, id, verdict, error, now);
      VerdictIsMet(uploads, id, verdict, error, now);
      match verdict
      case Delivered =>
        uploads := uploads - {id};
        died := false;
      case Retriable =>
        var attempts := uploads[id].attempts + 1;
        died := attempts >= MAX_ATTEMPTS;
        if died {
          uploads := uploads[id := uploads[id].(status := Dead, attempts := attempts, lastError := Some(error),
                                                nextAttemptAt := now)];
        } else {
          uploads := uploads[id := uploads[id].(attempts := attempts, lastError := Some(error),
                                                nextAttemptAt := NextAttemptAt(attempts + 1, now))];
        }
      case Final =>
        uploads := uploads[id := uploads[id].(status := Dead, attempts := uploads[id].attempts + 1,
                                              lastError := Some(error), nextAttemptAt := now)];
        died := true;
    }

    // The entries that arrive while row id is in flight: they never touch its status or its attempts.
    method Arrivals(meanwhile: seq<(Entry, int)>, id: nat)
      requires nextId > 0 && Invariant(uploads, nextId, enqueued, posts, Some(id)) && id in uploads
               && uploads[id].status.Pending?
      modifies this
      ensures nextId > 0 && Invariant(uploads, nextId, enqueued, posts, Some(id)) && posts == old(posts)
      ensures OnlyArrivals(old(uploads), uploads) && Extends(old(enqueued), enqueued)
      ensures nextId >= old(nextId) && Now() == Arrived(old(Now()), meanwhile)
    {
      hide Invariant, OnlyArrivals, Extends, FindPending, Enqueued;
      ghost var startTable := Now();
      ghost var startEntries, startRows := enqueued, uploads;
      ArrivalsStart(startRows, startEntries);
      FlightIsKnown(uploads, nextId, enqueued, posts, id);
      var i := 0;
      while i < |meanwhile|
        invariant nextId >= old(nextId) > 0 && Invariant(uploads, nextId, enqueued, posts, Some(id))
                  && posts == old(posts)
        invariant OnlyArrivals(old(uploads), uploads) && Extends(old(enqueued), enqueued)
        invariant id < nextId && i <= |meanwhile| && Now() == Arrived(startTable, meanwhile[..i])
      {
        assert meanwhile[..i + 1][..i] == meanwhile[..i];
        ghost var before, known := uploads, enqueued;
        FlightIsKnown(uploads, nextId, enqueued, posts, id);
        ArrivalsStep(startRows, before, nextId, startEntries, known, meanwhile[i].0, meanwhile[i].1);
        var r := EnqueueDuring(meanwhile[i].0, meanwhile[i].1, Some(id));
        i := i + 1;
      }
      assert meanwhile[..|meanwhile|] == meanwhile;
    }

    // drainQueue's loop body for one listed row, which is sent as it was when listed.
    method DrainRow(id: nat, row: Row, unparsable: set<string>, turn: Turn) returns (outcome: Drained)
      requires Valid() && id in uploads && uploads[id].status.Pending? && row.status.Pending?
               && RowIsBound(enqueued, row)
      modifies this
      ensures Valid() && OnlyArrivalsBut(old(uploads), uploads, id)
      ensures Extends(old(enqueued), enqueued)
      ensures Now() == AfterTurn(old(Now()), id, row, unparsable, turn)
      ensures posts == old(posts) + SentInTurn(id, row, unparsable)
      ensures outcome.Sent? <==> row.body !in unparsable && turn.verdict.Delivered?
      ensures outcome.Died? <==> id in uploads && uploads[id].status.Dead?
      ensures old(uploads[id].attempts) == row.attempts ==>
                && (outcome.Sent? <==> Succeeds(row, unparsable, turn))
                && (outcome.Waits? <==> Fails(row, unparsable, turn))
                && (outcome.Died? <==> Dies(row, unparsable, turn))
    {
      hide Invariant, Bound, Settled, OnlyArrivalsBut;
      ghost var before := uploads;
      assert !Skips(row);
      if row.hubUrl.GetOr("") == "" || row.orgId.GetOr("") == "" {
        assert false;
      }
      if row.body in unparsable {
        DiscardedBut(before, id);
        FewerRowsKeepInvariant(uploads, nextId, enqueued, posts, {id});
        uploads := uploads - {id};
        return Waits;
      }
      ghost var post := Post(id, row.body, row.hubUrl.value, row.orgId.value);
      PostKeepsInvariant(uploads, nextId, enqueued, posts, id, post);
      posts := posts + [post];
      Arrivals(turn.meanwhile, id);
      assert uploads[id].attempts == before[id].attempts;
      hide OnlyArrivals;
      SettledBut(before, uploads, id, turn.verdict, turn.error, turn.at);
      var died := Settle(id, turn.verdict, turn.error, turn.at);
      outcome := if turn.verdict.Delivered? then Sent else if died then Died else Waits;
    }

    // One drain of the rows `ids` that are due. However entries arrive in between: the counters add up, dead is the
    // rise in dead rows, what was sent is what was listed, and the table is what the turns make of it.
    method Drain(limit: nat, now: int, unparsable: set<string>, turns: seq<Turn>)
        returns (report: Report, ghost ids: seq<nat>)
      requires Valid() && |turns| >= limit
      modifies this
      ensures Valid()
      ensures ListsDue(old(uploads), now, limit, ids) && Listed(old(uploads), ids) && |ids| <= |turns|
      ensures Now() == AfterTurns(old(Now()), old(uploads), ids, unparsable, turns, |ids|)
      ensures posts == old(posts) + SentInTurns(old(uploads), ids, unparsable, |ids|)
      ensures report.attempted == report.succeeded + report.failed + report.dead == |ids| <= limit
      ensures Counted(old(uploads), ids, unparsable, turns, |ids|, report.succeeded, report.failed, report.dead)
      ensures |DeadRows(uploads)| == |DeadRows(old(uploads))| + report.dead
      ensures Extends(old(posts), posts)
      ensures SentSince(old(uploads), posts, |old(posts)|, now)
    {
      hide Invariant, RowIsBound, ListsDue, OnlyArrivalsBut, SentFrom, Extends, DeadRows, PendingFrom, SentSince,
           AfterTurn, SentInTurn, Listed, Counted, Succeeds, Fails, Dies, SameAttemptsFrom;
      var listed := ListDueUploads(uploads, limit, now);
      ids := listed;
      var rows := uploads;
      var succeeded, failed, dead := 0, 0, 0;
      ghost var startId := nextId;
      var i := 0;
      ghost var start, sentBefore := Now(), posts;
      DrainStarts(rows, enqueued, posts, now, limit, ids);
      NothingCounted(rows, ids, unparsable, turns);
      while i < |listed|
        invariant 0 <= i <= |ids| && Valid()
        invariant Now() == AfterTurns(start, rows, ids, unparsable, turns, i)
        invariant posts == sentBefore + SentInTurns(rows, ids, unparsable, i)
        invariant rows == old(uploads)
        invariant PendingFrom(uploads, ids, i)
        invariant Extends(old(enqueued), enqueued)
        invariant i == succeeded + failed + dead
        invariant Counted(rows, ids, unparsable, turns, i, succeeded, failed, dead)
        invariant SameAttemptsFrom(rows, uploads, ids, i)
        invariant |DeadRows(uploads)| == |DeadRows(rows)| + dead
        invariant Extends(old(posts), posts) && SentSince(rows, posts, |old(posts)|, now)
      {
        ghost var before, known, sent := uploads, enqueued, posts;
        ListedRow(rows, startId, old(enqueued), enqueued, old(posts), now, limit, ids, i);
        PendingHead(rows, uploads, ids, i);
        OneMoreTurn(rows, ids, unparsable, turns, i, succeeded, failed, dead);
        var outcome := DrainRow(listed[i], rows[listed[i]], unparsable, turns[i]);
        SentFromRow(ids[i], rows[ids[i]], unparsable);
        DeadAfterRow(before, uploads, ids[i], outcome);
        LaterRowsStayPending(rows, before, uploads, ids, i);
        ExtendsTrans(old(enqueued), known, enqueued);
        OneMoreSent(rows, old(posts), sent, posts, ids[i], now);
        match outcome {
          case Sent => succeeded := succeeded + 1;
          case Waits => failed := failed + 1;
          case Died => dead := dead + 1;
        }
        i := i + 1;
      }
      report := Report(|listed|, succeeded, failed, dead);
    }

    method PruneDead() returns (pruned: nat)
      requires Valid()
      modifies this`uploads
      ensures Valid() && uploads == old(uploads) - DeadRows(old(uploads)) && pruned == |DeadRows(old(uploads))|
    {
      var gone := set id | id in uploads && uploads[id].status.Dead?;
      assert gone == DeadRows(uploads);
      FewerRowsKeepInvariant(uploads, nextId, enqueued, posts, gone);
      pruned := |gone|;
      uploads := uploads - gone;
    }

    // Opening the database again runs the quarantine, which finds nothing to hold.
    method Reopen()
      requires Valid()
      modifies this`uploads
      ensures Valid() && uploads == old(uploads)
    {
      QuarantineKeepsInvariant(uploads, nextId, enqueued, posts);
      uploads := Quarantined(uploads);
    }

    // queueStats
    method Stats() returns (pending: nat, dead: nat, held: nat, oldest: Option<int>)
      ensures dead == |DeadRows(uploads)| && pending + dead + held == |uploads|
      ensures oldest.None? <==> pending == 0
      ensures oldest.Some? ==>
                (exists id :: id in uploads && uploads[id].status.Pending? && uploads[id].enqueuedAt == oldest.value)
                && forall id :: id in uploads && uploads[id].status.Pending? ==> oldest.value <= uploads[id].enqueuedAt
    {
      var p := set id | id in uploads && uploads[id].status.Pending?;
      var d := set id | id in uploads && uploads[id].status.Dead?;
      var h := set id | id in uploads && uploads[id].status.Held?;
      assert d == DeadRows(uploads);
      StatusesPartition(uploads, p, d, h);
      pending, dead, held := |p|, |d|, |h|;
      oldest := None;
      if p != {} {
        var id := Earliest(uploads, p, (row: Row) => row.enqueuedAt);
        oldest := Some(uploads[id].enqueuedAt);
      }
    }

    // Every run keeps the invariant: destinations stay bound, one pending row per commit, attempts and
    // sends stay bounded.
    method Run(ops: seq<Op>)
      requires Valid()
      requires forall i :: 0 <= i < |ops| && ops[i].DrainOp? ==> |ops[i].turns| >= ops[i].limit
      modifies this
      ensures Valid()
    {
      for i := 0 to |ops|
        invariant Valid()
      {
        match ops[i]
        case EnqueueOp(e, now) => var r := Enqueue(e, now);
        case DrainOp(limit, now, unparsable, turns) =>
          ghost var ids;
          var report;
          report, ids := Drain(limit, now, unparsable, turns);
        case PruneOp => var n := PruneDead();
        case ReopenOp => Reopen();
      }
    }
  }

  datatype Drained = Sent | Waits | Died

  // The upload carries the body and destination of a row that was pending and due when listed.
  ghost predicate SentFrom(rows: map<nat, Row>, post: Post, now: int) {
    post.id in rows && IsDue(rows[post.id], now) && post.body == rows[post.id].body
    && rows[post.id].hubUrl == Some(post.hubUrl) && rows[post.id].orgId == Some(post.orgId)
  }

  // Arrivals leave every row's status and attempts alone, and what they add is pending.
  ghost predicate OnlyArrivals(before: map<nat, Row>, after: map<nat, Row>) {
    && (forall id :: id in before ==>
        id in after && after[id].status == before[id].status && after[id].attempts == before[id].attempts)
    && (forall id :: id in after && id !in before ==> after[id].status.Pending?)
  }

  ghost predicate OnlyArrivalsBut(before: map<nat, Row>, after: map<nat, Row>, row: nat) {
    && (forall id :: id in before && id != row ==>
        id in after && after[id].status == before[id].status && after[id].attempts == before[id].attempts)
    && (forall id :: id in after && id !in before ==> after[id].status.Pending?)
  }

  lemma ArrivalsStart(before: map<nat, Row>, enqueued: seq<Entry>)
    ensures OnlyArrivals(before, before) && Extends(enqueued, enqueued)
  {
  }

  lemma FlightIsKnown(uploads: map<nat, Row>, nextId: nat, enqueued: seq<Entry>, posts: seq<Post>, id: nat)
    requires Invariant(uploads, nextId, enqueued, posts, Some(id))
    ensures nextId !in uploads && (id in uploads ==> id < nextId)
  {
    hide OnePendingPerCommit, AttemptsBounded, PostsCounted, RowIsBound, Bound;
  }

  lemma ArrivalsStep(start: map<nat, Row>, before: map<nat, Row>, nextId: nat, startEntries: seq<Entry>,
                     known: seq<Entry>, e: Entry, now: int)
    requires OnlyArrivals(start, before) && Extends(startEntries, known) && nextId !in before
    ensures OnlyArrivals(start, before[Slot(before, nextId, e) := RowFor(e, Existing(before, nextId, e), now)])
    ensures Extends(startEntries, known + [e])
  {
    ExtendsTrans(startEntries, known, known + [e]);
  }

  lemma DiscardedBut(before: map<nat, Row>, id: nat)
    ensures OnlyArrivalsBut(before, before - {id}, id)
  {
  }

  lemma SettledBut(before: map<nat, Row>, after: map<nat, Row>, id: nat, verdict: Verdict, error: string, now: int)
    requires id in before && before[id].status.Pending? && OnlyArrivals(before, after)
    ensures id in after && after[id].status.Pending?
    ensures OnlyArrivalsBut(before, Settled(after, id, verdict, error, now), id)
  {
  }

  ghost predicate Extends<T(!new)>(older: seq<T>, newer: seq<T>) {
    |older| <= |newer| && newer[..|older|] == older
  }

  ghost predicate PendingFrom(uploads: map<nat, Row>, ids: seq<nat>, i: nat) {
    forall j :: i <= j < |ids| ==> ids[j] in uploads && uploads[ids[j]].status.Pending?
  }

  ghost predicate SentSince(rows: map<nat, Row>, posts: seq<Post>, start: nat, now: int) {
    forall k :: start <= k < |posts| ==> SentFrom(rows, posts[k], now)
  }

  lemma DrainStarts(rows: map<nat, Row>, enqueued: seq<Entry>, posts: seq<Post>, now: int, limit: nat, ids: seq<nat>)
    requires ListsDue(rows, now, limit, ids)
    ensures |ids| <= limit && PendingFrom(rows, ids, 0) && Distinct(ids) && Listed(rows, ids)
    ensures SameAttemptsFrom(rows, rows, ids, 0)
    ensures Extends(enqueued, enqueued) && Extends(posts, posts) && SentSince(rows, posts, |posts|, now)
  {
  }

  // A listed row was pending, so it is bound, and stays so when entries are added.
  lemma ListedRow(rows: map<nat, Row>, nextId: nat, older: seq<Entry>, newer: seq<Entry>, posts: seq<Post>,
                  now: int, limit: nat, ids: seq<nat>, i: nat)
    requires ListsDue(rows, now, limit, ids) && i < |ids| && Extends(older, newer)
    requires Invariant(rows, nextId, older, posts, None)
    ensures ids[i] in rows && IsDue(rows[ids[i]], now) && RowIsBound(newer, rows[ids[i]])
    ensures rows[ids[i]].hubUrl.Some? && rows[ids[i]].orgId.Some?
  {
    hide PostsCounted, OnePendingPerCommit, AttemptsBounded, Bound;
    OlderEntriesStillBind(older, newer, rows[ids[i]]);
  }

  // The attempts of the rows from turn i on are those they were listed with.
  ghost predicate SameAttemptsFrom(rows: map<nat, Row>, uploads: map<nat, Row>, ids: seq<nat>, i: nat) {
    forall j :: i <= j < |ids| ==>
      ids[j] in rows && ids[j] in uploads && uploads[ids[j]].attempts == rows[ids[j]].attempts
  }

  lemma PendingHead(rows: map<nat, Row>, uploads: map<nat, Row>, ids: seq<nat>, i: nat)
    requires i < |ids| && PendingFrom(uploads, ids, i) && SameAttemptsFrom(rows, uploads, ids, i)
    ensures ids[i] in uploads && uploads[ids[i]].status.Pending?
    ensures ids[i] in rows && uploads[ids[i]].attempts == rows[ids[i]].attempts
  {
  }

  // The row of step i settled: the rows listed after it are still pending.
  lemma LaterRowsStayPending(rows: map<nat, Row>, before: map<nat, Row>, after: map<nat, Row>, ids: seq<nat>, i: nat)
    requires i < |ids| && OnlyArrivalsBut(before, after, ids[i]) && Distinct(ids) && PendingFrom(before, ids, i)
    requires SameAttemptsFrom(rows, before, ids, i)
    ensures PendingFrom(after, ids, i + 1) && SameAttemptsFrom(rows, after, ids, i + 1)
  {
  }

  lemma ExtendsTrans<T(!new)>(a: seq<T>, b: seq<T>, c: seq<T>)
    requires Extends(a, b) && Extends(b, c)
    ensures Extends(a, c)
  {
    assert c[..|a|] == c[..|b|][..|a|];
  }

  lemma OneMoreSent(rows: map<nat, Row>, start: seq<Post>, sent: seq<Post>, posts: seq<Post>, id: nat, now: int)
    requires Extends(start, sent) && SentSince(rows, sent, |start|, now) && id in rows && IsDue(rows[id], now)
    requires rows[id].hubUrl.Some? && rows[id].orgId.Some?
    requires posts == sent || posts == sent + [Post(id, rows[id].body, rows[id].hubUrl.value, rows[id].orgId.value)]
    ensures Extends(start, posts) && SentSince(rows, posts, |start|, now)
  {
    hide IsDue;
    assert Extends(sent, posts);
    ExtendsTrans(start, sent, posts);
    forall k | |start| <= k < |posts| ensures SentFrom(rows, posts[k], now) {
      if k < |sent| {
        assert posts[k] == sent[k];
      }
    }
  }

  lemma SentFromRow(id: nat, row: Row, unparsable: set<string>)
    requires row.hubUrl.Some? && row.orgId.Some?
    ensures SentInTurn(id, row, unparsable) == []
            || SentInTurn(id, row, unparsable) == [Post(id, row.body, row.hubUrl.value, row.orgId.value)]
  {
  }

  lemma OlderEntriesStillBind(older: seq<Entry>, newer: seq<Entry>, row: Row)
    requires RowIsBound(older, row) && Extends(older, newer)
    ensures RowIsBound(newer, row)
  {
    var i :| 0 <= i < |older| && older[i].body == row.body && older[i].hubUrl == row.hubUrl.value
        && older[i].orgId == row.orgId.value;
    assert newer[i] == older[i];
  }

  lemma DeadAfterRow(before: map<nat, Row>, after: map<nat, Row>, id: nat, outcome: Drained)
    requires id in before && before[id].status.Pending? && OnlyArrivalsBut(before, after, id)
    requires outcome.Died? <==> id in after && after[id].status.Dead?
    ensures |DeadRows(after)| == |DeadRows(before)| + (if outcome.Died? then 1 else 0)
  {
    assert DeadRows(after) == DeadRows(before) + (if outcome.Died? then {id} else {});
  }
}
