/**
 The alert delivery queue.  Its marks carry no status guard: a worker that holds
 an old snapshot settles the row whatever has happened to it since.
 */
module Alerts {
  import opened Bytes
  import opened QueueParts

  const STALE_SECONDS := 120
  const BATCH := 10

  datatype Status = Pending | Retry | Processing | Delivered | DeadLetter

  datatype Row = Row(status: Status, attempts: nat, max: nat, next: nat, created: nat, locked: Option<nat>)

  // ---------- statements ----------

  predicate Claimable(row: Row) {
    row.status == Pending || row.status == Retry
  }

  predicate Due(row: Row, now: nat) {
    Claimable(row) && row.next <= now
  }

  function Claimed(row: Row, now: nat): Row {
    row.(status := Processing, attempts := row.attempts + 1, locked := Some(now))
  }

  predicate Stale(row: Row, now: nat) {
    row.status == Processing && row.locked.Some? && row.locked.value + STALE_SECONDS < now
  }

  function Recovered(row: Row, now: nat): Row {
    if Stale(row, now) then row.(status := Retry, locked := None, next := now) else row
  }

  function RecoverAll(rows: map<nat, Row>, now: nat): map<nat, Row> {
    map id | id in rows :: Recovered(rows[id], now)
  }

  // The delay before the next attempt, in seconds.
  function RetryDelay(attempt: nat): (d: nat)
    ensures 60 <= d <= 86400
  {
    if attempt <= 1 then 60
    else if attempt == 2 then 300
    else if attempt == 3 then 1800
    else if attempt == 4 then 7200
    else if attempt == 5 then 28800
    else 86400
  }

  function Succeeded(row: Row): Row {
    row.(status := Delivered, locked := None)
  }

  // Decided by the snapshot's attempts; the limit never changes.
  function FailedOnce(row: Row, attempts: nat, retryable: bool, now: nat): Row {
    if retryable && attempts < row.max then row.(status := Retry, locked := None, next := now + RetryDelay(attempts))
    else row.(status := DeadLetter, locked := None, next := now)
  }

  // ---------- the system ----------

  datatype Log = Log(claims: nat, recoveries: nat)

  datatype State = State(rows: map<nat, Row>, logs: map<nat, Log>, held: map<nat, Snapshot>, now: nat)

  datatype Event =
    | Insert(id: nat, max: nat)
    | Tick(seconds: nat)
    | Claim(worker: nat, id: nat)
    | MarkSuccess(worker: nat)
    | MarkFailure(worker: nat, retryable: bool)
    | Crash(worker: nat)
    | Startup

  predicate Enabled(s: State, e: Event) {
    match e
    case Insert(id, max) => id !in s.rows && id !in s.logs && 1 <= max <= 12
    case Tick(seconds) => true
    case Claim(worker, id) => worker !in s.held && id in s.rows && id in s.logs && Due(s.rows[id], s.now)
    case MarkSuccess(worker) => worker in s.held && s.held[worker].row in s.rows
    case MarkFailure(worker, retryable) => worker in s.held && s.held[worker].row in s.rows
    case Crash(worker) => worker in s.held
    case Startup => s.logs.Keys == s.rows.Keys
  }

  function RecoveryLogged(s: State): map<nat, Log>
    requires s.logs.Keys == s.rows.Keys
  {
    map id | id in s.logs ::
      if Stale(s.rows[id], s.now) then s.logs[id].(recoveries := s.logs[id].recoveries + 1) else s.logs[id]
  }

  function Step(s: State, e: Event): State
    requires Enabled(s, e)
  {
    match e
    case Insert(id, max) =>
      s.(rows := s.rows[id := Row(Pending, 0, max, s.now, s.now, None)], logs := s.logs[id := Log(0, 0)])
    case Tick(seconds) =>
      s.(now := s.now + seconds)
    case Claim(worker, id) =>
      var row := Claimed(s.rows[id], s.now);
      s.(rows := s.rows[id := row], logs := s.logs[id := s.logs[id].(claims := s.logs[id].claims + 1)],
         held := s.held[worker := Snapshot(id, row.attempts)])
    case MarkSuccess(worker) =>
      var h := s.held[worker];
      s.(rows := s.rows[h.row := Succeeded(s.rows[h.row])], held := s.held - {worker})
    case MarkFailure(worker, retryable) =>
      var h := s.held[worker];
      s.(rows := s.rows[h.row := FailedOnce(s.rows[h.row], h.attempts, retryable, s.now)], held := s.held - {worker})
    case Crash(worker) =>
      s.(held := s.held - {worker})
    case Startup =>
      s.(rows := RecoverAll(s.rows, s.now), logs := RecoveryLogged(s))
  }

  function Run(s: State, events: seq<Event>): Option<State>
    decreases |events|
  {
    if events == [] then Some(s)
    else if !Enabled(s, events[0]) then None
    else Run(Step(s, events[0]), events[1..])
  }

  const START := State(map[], map[], map[], 0)

  // ---------- the invariant ----------

  predicate Balanced(s: State, id: nat)
    requires id in s.rows && id in s.logs
  {
    var (row, log) := (s.rows[id], s.logs[id]);
    && row.max >= 1 && log.claims == row.attempts
    && log.claims + (if Claimable(row) then 1 else 0) + |RetryHolders(s.held, id, row.max)|
       <= 1 + log.recoveries + (if row.attempts < row.max then row.attempts else row.max - 1)
  }

  predicate Exclusive(s: State, id: nat)
    requires id in s.rows && id in s.logs
  {
    |HoldersOf(s.held, id)| + (if s.rows[id].status == Processing then 0 else 1) <= 1 + s.logs[id].recoveries
  }

  ghost predicate Inv(s: State) {
    && s.logs.Keys == s.rows.Keys
    && (forall w :: w in s.held ==> s.held[w].row in s.rows)
    && (forall id :: id in s.rows ==> Balanced(s, id) && Exclusive(s, id))
  }

  lemma MarkKeeps(s: State, e: Event, id: nat)
    requires Inv(s) && Enabled(s, e) && (e.MarkSuccess? || e.MarkFailure? || e.Crash?) && id in s.rows
    ensures Balanced(Step(s, e), id) && Exclusive(Step(s, e), id)
  {
    assert Balanced(s, id) && Exclusive(s, id);
    Dropped(s.held, e.worker, id, s.rows[id].max);
  }

  lemma ClaimKeeps(s: State, e: Event, id: nat)
    requires Inv(s) && Enabled(s, e) && e.Claim? && id in s.rows
    ensures Balanced(Step(s, e), id) && Exclusive(Step(s, e), id)
  {
    assert Balanced(s, id) && Exclusive(s, id);
    Taken(s.held, e.worker, Snapshot(e.id, s.rows[e.id].attempts + 1), id, s.rows[id].max);
  }

  lemma InsertKeeps(s: State, e: Event, id: nat)
    requires Inv(s) && Enabled(s, e) && e.Insert? && (id in s.rows || id == e.id)
    ensures Balanced(Step(s, e), id) && Exclusive(Step(s, e), id)
  {
    if id == e.id {
      assert HoldersOf(s.held, id) == {} && RetryHolders(s.held, id, e.max) == {};
    } else {
      assert Balanced(s, id) && Exclusive(s, id);
    }
  }

  lemma OtherKeeps(s: State, e: Event, id: nat)
    requires Inv(s) && Enabled(s, e) && (e.Tick? || e.Startup?) && id in s.rows
    ensures Balanced(Step(s, e), id) && Exclusive(Step(s, e), id)
  {
    assert Balanced(s, id) && Exclusive(s, id);
  }

  lemma StepKeeps(s: State, e: Event)
    requires Inv(s) && Enabled(s, e)
    ensures Inv(Step(s, e))
  {
    var t := Step(s, e);
    forall id | id in t.rows ensures Balanced(t, id) && Exclusive(t, id) {
      if e.MarkSuccess? || e.MarkFailure? || e.Crash? {
        MarkKeeps(s, e, id);
      } else if e.Claim? {
        ClaimKeeps(s, e, id);
      } else if e.Insert? {
        InsertKeeps(s, e, id);
      } else {
        OtherKeeps(s, e, id);
      }
    }
  }

  lemma {:induction false} RunKeeps(s: State, events: seq<Event>)
    requires Inv(s) && Run(s, events).Some?
    ensures Inv(Run(s, events).value)
    decreases |events|
  {
    if events != [] {
      StepKeeps(s, events[0]);
      RunKeeps(Step(s, events[0]), events[1..]);
    }
  }

  // ---------- main results ----------

  // In every run, a delivery is claimed at most max_attempts times plus once for
  // each startup recovery of its row, and no more workers hold it than one plus
  // its recoveries; outside processing, no more than its recoveries.
  lemma ClaimsBounded(events: seq<Event>, id: nat)
    requires Run(START, events).Some? && id in Run(START, events).value.rows
    ensures id in Run(START, events).value.logs
    ensures var (t, log) := (Run(START, events).value, Run(START, events).value.logs[id]);
            && log.claims <= t.rows[id].max + log.recoveries
            && |HoldersOf(t.held, id)| <= 1 + log.recoveries
            && (t.rows[id].status != Processing ==> |HoldersOf(t.held, id)| <= log.recoveries)
  {
    RunKeeps(START, events);
    var t := Run(START, events).value;
    assert Balanced(t, id) && Exclusive(t, id);
  }

  predicate Closed(row: Row) {
    row.status == Delivered || row.status == DeadLetter
  }

  lemma {:induction false} ClosedWithoutHolders(s: State, events: seq<Event>, id: nat)
    requires id in s.rows && Closed(s.rows[id]) && HoldersOf(s.held, id) == {} && Run(s, events).Some?
    ensures id in Run(s, events).value.rows && Run(s, events).value.rows[id] == s.rows[id]
    decreases |events|
  {
    if events != [] {
      var t := Step(s, events[0]);
      NoNewHolder(s, events[0], id);
      ClosedWithoutHolders(t, events[1..], id);
    }
  }

  lemma NoNewHolder(s: State, e: Event, id: nat)
    requires id in s.rows && Closed(s.rows[id]) && HoldersOf(s.held, id) == {} && Enabled(s, e)
    ensures id in Step(s, e).rows && Step(s, e).rows[id] == s.rows[id] && HoldersOf(Step(s, e).held, id) == {}
  {
    assert forall w :: w in s.held && s.held[w].row == id ==> w in HoldersOf(s.held, id);
    assert HoldersOf(Step(s, e).held, id) <= HoldersOf(s.held, id);
  }

  lemma RunFirst(s: State, e: Event, rest: seq<Event>)
    requires Enabled(s, e)
    ensures Run(s, [e] + rest) == Run(Step(s, e), rest)
  {
    assert ([e] + rest)[1..] == rest;
  }

  // Whether some continuation changes the status of a row.
  ghost predicate MayChange(s: State, id: nat)
    requires id in s.rows
  {
    exists events :: Run(s, events).Some? && id in Run(s, events).value.rows
                     && Run(s, events).value.rows[id].status != s.rows[id].status
  }

  // A delivered row is final exactly when no worker holds a snapshot of it.
  lemma DeliveredFinalExactly(s: State, id: nat)
    requires id in s.rows && s.rows[id].status == Delivered
    ensures MayChange(s, id) <==> HoldersOf(s.held, id) != {}
  {
    if HoldersOf(s.held, id) == {} {
      forall events | Run(s, events).Some?
        ensures id in Run(s, events).value.rows && Run(s, events).value.rows[id] == s.rows[id]
      {
        ClosedWithoutHolders(s, events, id);
      }
    } else {
      var w :| w in HoldersOf(s.held, id);
      RunFirst(s, MarkFailure(w, false), []);
      assert Run(s, [MarkFailure(w, false)] + []).Some?;
    }
  }

  // A first worker is slow; the row is recovered, and a second worker delivers it.
  function Overtaking(): seq<Event> {
    [Insert(0, 6)] + ([Claim(1, 0)] + ([Tick(121)] + ([Startup] + ([Claim(2, 0)] + ([MarkSuccess(2)] + [])))))
  }

  // The first worker's late failure mark, and a third worker's claim.
  function LateMark(): seq<Event> {
    [MarkFailure(1, true)] + ([Tick(60)] + ([Claim(3, 0)] + []))
  }

  lemma Overtaken() returns (s: State)
    ensures Run(START, Overtaking()) == Some(s)
    ensures 0 in s.rows && 0 in s.logs && s.rows[0].status == Delivered && s.rows[0].attempts == 2 && s.rows[0].max == 6
    ensures 1 in s.held && s.held[1] == Snapshot(0, 1) && 3 !in s.held
  {
    var s1 := Step(START, Insert(0, 6));
    var s2 := Step(s1, Claim(1, 0));
    var s3 := Step(s2, Tick(121));
    var s4 := Step(s3, Startup);
    var s5 := Step(s4, Claim(2, 0));
    s := Step(s5, MarkSuccess(2));
    RunFirst(START, Insert(0, 6),
             [Claim(1, 0)] + ([Tick(121)] + ([Startup] + ([Claim(2, 0)] + ([MarkSuccess(2)] + [])))));
    RunFirst(s1, Claim(1, 0), [Tick(121)] + ([Startup] + ([Claim(2, 0)] + ([MarkSuccess(2)] + []))));
    RunFirst(s2, Tick(121), [Startup] + ([Claim(2, 0)] + ([MarkSuccess(2)] + [])));
    RunFirst(s3, Startup, [Claim(2, 0)] + ([MarkSuccess(2)] + []));
    RunFirst(s4, Claim(2, 0), [MarkSuccess(2)] + []);
    RunFirst(s5, MarkSuccess(2), []);
  }

  lemma LateMarkReopens(s: State)
    requires 0 in s.rows && 0 in s.logs && s.rows[0].attempts == 2 && s.rows[0].max == 6
    requires 1 in s.held && s.held[1] == Snapshot(0, 1) && 3 !in s.held
    ensures var t := Run(s, LateMark());
            t.Some? && 0 in t.value.rows && t.value.rows[0].status == Processing && t.value.rows[0].attempts == 3
  {
    var s1 := Step(s, MarkFailure(1, true));
    var s2 := Step(s1, Tick(60));
    RunFirst(s, MarkFailure(1, true), [Tick(60)] + ([Claim(3, 0)] + []));
    RunFirst(s1, Tick(60), [Claim(3, 0)] + []);
    RunFirst(s2, Claim(3, 0), []);
  }

  // A run in which a delivered alert goes back to retry and is claimed again: the
  // first worker's late failure mark overwrites the second worker's success.
  lemma DeliveredClaimedAgain() returns (events: seq<Event>)
    ensures var t := Run(START, events);
            t.Some? && 0 in t.value.rows && t.value.rows[0].status == Processing && t.value.rows[0].attempts == 3
    ensures exists n :: 0 <= n <= |events| && DeliveredAfter(events, n, 0)
  {
    var s := Overtaken();
    LateMarkReopens(s);
    RunAppend(START, Overtaking(), LateMark());
    events := Overtaking() + LateMark();
    assert events[..|Overtaking()|] == Overtaking();
    assert DeliveredAfter(events, |Overtaking()|, 0);
  }

  ghost predicate DeliveredAfter(events: seq<Event>, n: nat, id: nat) {
    && n <= |events|
    && var t := Run(START, events[..n]);
       t.Some? && id in t.value.rows && t.value.rows[id].status == Delivered
  }

  lemma {:induction false} RunAppend(s: State, a: seq<Event>, b: seq<Event>)
    requires Run(s, a).Some?
    ensures Run(s, a + b) == Run(Run(s, a).value, b)
    decreases |a|
  {
    if a == [] {
      assert a + b == b;
    } else {
      assert (a + b)[1..] == a[1..] + b;
      RunAppend(Step(s, a[0]), a[1..], b);
    }
  }

  // ---------- the worker ----------

  // The answer to one delivery: no valid request, no answer, or a status code.
  datatype Response = Unsendable | NoAnswer | Answer(code: int)

  predicate Success(r: Response) {
    r.Answer? && 200 <= r.code < 300
  }

  predicate Retryable(r: Response) {
    r.NoAnswer? || (r.Answer? && (r.code == 408 || r.code == 425 || r.code == 429 || r.code >= 500))
  }

  function Settled(row: Row, attempts: nat, r: Response, now: nat): Row {
    if Success(r) then Succeeded(row) else FailedOnce(row, attempts, Retryable(r), now)
  }

  // The order in which rows are claimed.
  function Rank(row: Row, id: nat): (nat, nat) {
    (row.next, row.created)
  }

  ghost predicate NextDue(rows: map<nat, Row>, now: nat, locked: set<nat>, id: nat) {
    && id in rows && id !in locked && Due(rows[id], now)
    && forall x :: x in rows && x !in locked && Due(rows[x], now) ==> NotAfter(Rank(rows[id], id), Rank(rows[x], x))
  }

  predicate NothingDue(rows: map<nat, Row>, now: nat, locked: set<nat>) {
    forall x :: x in rows && x !in locked ==> !Due(rows[x], now)
  }

  // Deliveries one after the other: each claimed and settled with its answer.
  function AfterBatch(rows: map<nat, Row>, ids: seq<nat>, answers: seq<Response>, now: nat): map<nat, Row>
    requires |ids| <= |answers|
    decreases |ids|
  {
    if ids == [] then rows else
      var before := AfterBatch(rows, ids[..|ids| - 1], answers, now);
      var id := ids[|ids| - 1];
      if id !in before then before else
        var row := Claimed(before[id], now);
        before[id := Settled(row, row.attempts, answers[|ids| - 1], now)]
  }

  // Every one of the rows was the first due one when those before it were settled.
  ghost predicate EachNextDue(rows: map<nat, Row>, ids: seq<nat>, answers: seq<Response>, now: nat, locked: set<nat>) {
    && |ids| <= |answers|
    && forall k :: 0 <= k < |ids| ==> NextDue(AfterBatch(rows, ids[..k], answers, now), now, locked, ids[k])
  }

  lemma NextDueAppended(rows: map<nat, Row>, ids: seq<nat>, answers: seq<Response>, now: nat, locked: set<nat>, id: nat)
    requires EachNextDue(rows, ids, answers, now, locked) && |ids| < |answers|
    requires NextDue(AfterBatch(rows, ids, answers, now), now, locked, id)
    ensures EachNextDue(rows, ids + [id], answers, now, locked)
  {
    forall k | 0 <= k < |ids| + 1
      ensures NextDue(AfterBatch(rows, (ids + [id])[..k], answers, now), now, locked, (ids + [id])[k])
    {
      assert (ids + [id])[..k] == ids[..k];
      assert ids[..|ids|] == ids;
    }
  }

  const DELAYS: seq<nat> := [60, 300, 1800, 7200, 28800, 86400]

  // Looks the delay up in the table; attempts beyond it get the last entry.
  method RetryAt(now: nat, attempt: nat) returns (at: nat)
    ensures at == now + RetryDelay(attempt)
  {
    var index := attempt - 1;
    if index < 0 {
      index := 0;
    }
    if index >= |DELAYS| {
      index := |DELAYS| - 1;
    }
    return now + DELAYS[index];
  }

  class Table {
    var rows: map<nat, Row>
    var now: nat

    constructor ()
      ensures rows == map[] && now == 0
    {
      rows := map[];
      now := 0;
    }

    method ClaimDelivery(locked: set<nat>) returns (item: Option<Snapshot>)
      modifies `rows
      ensures item.None? ==> rows == old(rows) && NothingDue(rows, now, locked)
      ensures item.Some? ==>
                && NextDue(old(rows), now, locked, item.value.row)
                && rows == old(rows)[item.value.row := Claimed(old(rows)[item.value.row], now)]
                && item.value.attempts == rows[item.value.row].attempts
    {
      var (current, time) := (rows, now);
      var best := FirstDue(rows.Keys - locked, x => x in current && Due(current[x], time),
                           x => if x in current then Rank(current[x], x) else (0, 0));
      assert forall x :: x in rows && x !in locked ==> x in rows.Keys - locked;
      if best.None? {
        return None;
      }
      var id := best.value;
      rows := rows[id := rows[id].(status := Processing, attempts := rows[id].attempts + 1, locked := Some(now))];
      return Some(Snapshot(id, rows[id].attempts));
    }

    method MarkDelivered(item: Snapshot)
      requires item.row in rows
      modifies `rows
      ensures rows == old(rows)[item.row := Succeeded(old(rows)[item.row])]
    {
      rows := rows[item.row := rows[item.row].(status := Delivered, locked := None)];
    }

    method MarkFailed(item: Snapshot, retryable: bool)
      requires item.row in rows
      modifies `rows
      ensures rows == old(rows)[item.row := FailedOnce(old(rows)[item.row], item.attempts, retryable, now)]
    {
      var status, next := DeadLetter, now;
      if retryable && item.attempts < rows[item.row].max {
        status := Retry;
        next := RetryAt(now, item.attempts);
      }
      rows := rows[item.row := rows[item.row].(status := status, locked := None, next := next)];
    }

    method ProcessDelivery(item: Snapshot, answer: Response)
      requires item.row in rows
      modifies `rows
      ensures rows == old(rows)[item.row := Settled(old(rows)[item.row], item.attempts, answer, now)]
    {
      match answer {
        case Unsendable =>
          MarkFailed(item, false);
        case NoAnswer =>
          MarkFailed(item, true);
        case Answer(code) =>
          if 200 <= code < 300 {
            MarkDelivered(item);
            return;
          }
          MarkFailed(item, code == 408 || code == 425 || code == 429 || code >= 500);
      }
    }

    // Claims and delivers up to ten rows; fewer only when nothing is due.
    method ProcessBatch(locked: set<nat>, answers: seq<Response>) returns (ids: seq<nat>)
      requires |answers| == BATCH
      modifies `rows
      ensures |ids| <= BATCH && rows == AfterBatch(old(rows), ids, answers, now)
      ensures |ids| < BATCH ==> NothingDue(rows, now, locked)
      ensures EachNextDue(old(rows), ids, answers, now, locked)
      ensures forall id :: id in ids ==> id in old(rows) && id !in locked
    {
      ids := [];
      for i := 0 to BATCH
        modifies `rows
        invariant |ids| == i && rows == AfterBatch(old(rows), ids, answers, now) && rows.Keys == old(rows).Keys
        invariant EachNextDue(old(rows), ids, answers, now, locked)
        invariant forall id :: id in ids ==> id in old(rows) && id !in locked
      {
        var item := ClaimDelivery(locked);
        if item.None? {
          return;
        }
        ProcessDelivery(item.value, answers[i]);
        assert (ids + [item.value.row])[..i] == ids;
        NextDueAppended(old(rows), ids, answers, now, locked, item.value.row);
        ids := ids + [item.value.row];
      }
    }
  }
}
