/**
 The operator notification queue.  It has no recovery of abandoned claims; a
 claim made while no destination is configured is refunded.
 */
module OperatorNotifications {
  import opened Bytes
  import opened QueueParts

  const LIMIT := 8

  datatype Status = Pending | Processing | Delivered | Cancelled | Failed

  datatype Row = Row(status: Status, attempts: nat, next: nat)

  // A claimed row in a worker's hands: the attempts of the claim, whether the
  // escalation was already resolved, and whether a delivery call was made.
  datatype Hold = Hold(row: nat, attempts: nat, resolved: bool, called: bool)

  // ---------- statements ----------

  predicate Due(row: Row, now: nat) {
    row.status == Pending && row.next <= now
  }

  function Claimed(row: Row): Row {
    row.(status := Processing, attempts := row.attempts + 1)
  }

  function Marked(row: Row, status: Status): Row {
    if row.status == Processing then row.(status := status) else row
  }

  function Refunded(row: Row, now: nat): Row {
    if row.status != Processing then row
    else row.(status := Pending, attempts := if row.attempts > 0 then row.attempts - 1 else 0, next := now + 300)
  }

  function Retried(row: Row, attempts: nat, now: nat): Row {
    if attempts >= LIMIT then Marked(row, Failed)
    else if row.status != Processing then row
    else row.(status := Pending, next := now + Backoff(attempts))
  }

  // ---------- the system ----------

  datatype State = State(rows: map<nat, Row>, calls: map<nat, nat>, held: map<nat, Hold>, now: nat)

  datatype Event =
    | Insert(id: nat)
    | Tick(seconds: nat)
    | LeadAssigned(id: nat)
    | Claim(worker: nat, id: nat, resolved: bool)
    | CancelResolved(worker: nat)
    | Refund(worker: nat)
    | Call(worker: nat)
    | Finish(worker: nat, delivered: bool)
    | Crash(worker: nat)

  predicate HeldRow(s: State, worker: nat) {
    worker in s.held && s.held[worker].row in s.rows && s.held[worker].row in s.calls
  }

  predicate Enabled(s: State, e: Event) {
    match e
    case Insert(id) => id !in s.rows && id !in s.calls
    case Tick(seconds) => true
    case LeadAssigned(id) => id in s.rows
    case Claim(worker, id, resolved) => worker !in s.held && id in s.rows && Due(s.rows[id], s.now)
    case CancelResolved(worker) => HeldRow(s, worker) && s.held[worker].resolved
    case Refund(worker) => HeldRow(s, worker) && !s.held[worker].resolved && !s.held[worker].called
    case Call(worker) => HeldRow(s, worker) && !s.held[worker].resolved && !s.held[worker].called
    case Finish(worker, delivered) => HeldRow(s, worker) && s.held[worker].called
    case Crash(worker) => worker in s.held
  }

  function Step(s: State, e: Event): State
    requires Enabled(s, e)
  {
    match e
    case Insert(id) => s.(rows := s.rows[id := Row(Pending, 0, s.now)], calls := s.calls[id := 0])
    case Tick(seconds) => s.(now := s.now + seconds)
    case LeadAssigned(id) =>
      if s.rows[id].status == Pending then s.(rows := s.rows[id := s.rows[id].(status := Cancelled)]) else s
    case Claim(worker, id, resolved) =>
      var row := Claimed(s.rows[id]);
      s.(rows := s.rows[id := row], held := s.held[worker := Hold(id, row.attempts, resolved, false)])
    case CancelResolved(worker) =>
      var h := s.held[worker];
      s.(rows := s.rows[h.row := Marked(s.rows[h.row], Cancelled)], held := s.held - {worker})
    case Refund(worker) =>
      var h := s.held[worker];
      s.(rows := s.rows[h.row := Refunded(s.rows[h.row], s.now)], held := s.held - {worker})
    case Call(worker) =>
      var h := s.held[worker];
      s.(calls := s.calls[h.row := s.calls[h.row] + 1], held := s.held[worker := h.(called := true)])
    case Finish(worker, delivered) =>
      var h := s.held[worker];
      var row := if delivered then Marked(s.rows[h.row], Delivered) else Retried(s.rows[h.row], h.attempts, s.now);
      s.(rows := s.rows[h.row := row], held := s.held - {worker})
    case Crash(worker) => s.(held := s.held - {worker})
  }

  function Run(s: State, events: seq<Event>): Option<State>
    decreases |events|
  {
    if events == [] then Some(s)
    else if !Enabled(s, events[0]) then None
    else Run(Step(s, events[0]), events[1..])
  }

  const START := State(map[], map[], map[], 0)

  // ---------- the invariant ----------

  // How many delivery calls a row of each status has had.
  predicate RowInv(s: State, id: nat)
    requires id in s.rows && id in s.calls
  {
    var (row, calls) := (s.rows[id], s.calls[id]);
    match row.status
    case Pending => row.attempts == calls < LIMIT
    case Processing => 0 < row.attempts <= LIMIT && calls <= row.attempts <= calls + 1
    case Delivered => 0 < row.attempts == calls <= LIMIT
    case Cancelled => calls <= row.attempts <= calls + 1 && row.attempts <= LIMIT
    case Failed => row.attempts == calls == LIMIT
  }

  predicate HoldInv(s: State, w: nat)
    requires w in s.held
  {
    var h := s.held[w];
    && h.row in s.rows && h.row in s.calls
    && s.rows[h.row].status == Processing && s.rows[h.row].attempts == h.attempts
    && s.calls[h.row] == (if h.called then h.attempts else h.attempts - 1)
  }

  ghost predicate OneHolder(s: State) {
    forall v, w :: v in s.held && w in s.held && s.held[v].row == s.held[w].row ==> v == w
  }

  ghost predicate Inv(s: State) {
    && s.calls.Keys == s.rows.Keys
    && (forall id :: id in s.rows ==> RowInv(s, id))
    && (forall w :: w in s.held ==> HoldInv(s, w))
    && OneHolder(s)
  }

  lemma RowKept(s: State, e: Event, id: nat)
    requires Inv(s) && Enabled(s, e) && id in Step(s, e).rows
    ensures id in Step(s, e).calls && RowInv(Step(s, e), id)
  {
    assert id in s.rows ==> RowInv(s, id);
    if e.CancelResolved? || e.Refund? || e.Call? || e.Finish? {
      assert HoldInv(s, e.worker);
    }
  }

  lemma HoldKept(s: State, e: Event, w: nat)
    requires Inv(s) && Enabled(s, e) && w in Step(s, e).held
    ensures HoldInv(Step(s, e), w)
  {
    if w in s.held {
      assert HoldInv(s, w);
    }
    if e.Claim? {
      assert RowInv(s, e.id);
    }
    if e.CancelResolved? || e.Refund? || e.Call? || e.Finish? {
      assert HoldInv(s, e.worker);
    }
  }

  lemma OneHolderKept(s: State, e: Event)
    requires Inv(s) && Enabled(s, e)
    ensures OneHolder(Step(s, e))
  {
    if e.Claim? {
      forall v | v in s.held ensures s.held[v].row != e.id {
        assert HoldInv(s, v);
      }
    }
  }

  lemma StepKeeps(s: State, e: Event)
    requires Inv(s) && Enabled(s, e)
    ensures Inv(Step(s, e))
  {
    var t := Step(s, e);
    forall id | id in t.rows ensures id in t.calls && RowInv(t, id) {
      RowKept(s, e, id);
    }
    forall w | w in t.held ensures HoldInv(t, w) {
      HoldKept(s, e, w);
    }
    OneHolderKept(s, e);
    KeysKept(s, e);
  }

  lemma KeysKept(s: State, e: Event)
    requires Inv(s) && Enabled(s, e)
    ensures Step(s, e).calls.Keys == Step(s, e).rows.Keys
  {
    if e.CancelResolved? || e.Refund? || e.Call? || e.Finish? {
      assert HoldInv(s, e.worker);
    }
  }

  lemma {:induction false} RunKeeps(s: State, events: seq<Event>)
    requires Inv(s) && Run(s, events).Some?
    ensures Inv(Run(s, events).value)
    decreases |events|
  {
    if events != [] {
      StepKeeps(s, events[0]);
      RunKeeps(Step(s, events[0]), events[1..]);
    }
  }

  // ---------- main results ----------

  // In every run: at most one worker holds a row; no row has more than eight
  // attempts or delivery calls; and a pending row's attempts are the delivery
  // calls made for it, because claims that could not be delivered are refunded.
  lemma QueueSafe(events: seq<Event>)
    requires Run(START, events).Some?
    ensures var t := Run(START, events).value;
            && t.calls.Keys == t.rows.Keys && OneHolder(t)
            && (forall id :: id in t.rows ==> t.rows[id].attempts <= LIMIT && t.calls[id] <= LIMIT)
            && (forall id :: id in t.rows && t.rows[id].status == Pending ==>
                t.rows[id].attempts == t.calls[id] < LIMIT)
            && (forall id :: id in t.rows && t.rows[id].status == Failed ==> t.calls[id] == LIMIT)
            && (forall id :: id in t.rows && t.rows[id].status == Delivered ==> t.calls[id] == t.rows[id].attempts)
  {
    RunKeeps(START, events);
    var t := Run(START, events).value;
    forall id | id in t.rows ensures RowInv(t, id) {
    }
  }

  predicate Final(status: Status) {
    status == Delivered || status == Cancelled || status == Failed
  }

  lemma {:induction false} FinalStays(s: State, events: seq<Event>, id: nat)
    requires id in s.rows && Final(s.rows[id].status) && Run(s, events).Some?
    ensures id in Run(s, events).value.rows && Run(s, events).value.rows[id] == s.rows[id]
    decreases |events|
  {
    if events != [] {
      FinalStays(Step(s, events[0]), events[1..], id);
    }
  }

  // Whether some continuation changes a row.
  ghost predicate MayChange(s: State, id: nat)
    requires id in s.rows
  {
    exists events :: Run(s, events).Some? && id in Run(s, events).value.rows
                     && Run(s, events).value.rows[id] != s.rows[id]
  }

  ghost predicate HeldBySomeone(s: State, id: nat) {
    exists w :: w in s.held && s.held[w].row == id
  }

  lemma {:induction false} StrandedStays(s: State, events: seq<Event>, id: nat)
    requires id in s.rows && s.rows[id].status == Processing && !HeldBySomeone(s, id) && Run(s, events).Some?
    ensures id in Run(s, events).value.rows && Run(s, events).value.rows[id] == s.rows[id]
    decreases |events|
  {
    if events != [] {
      StrandedStep(s, events[0], id);
      StrandedStays(Step(s, events[0]), events[1..], id);
    }
  }

  lemma StrandedStep(s: State, e: Event, id: nat)
    requires id in s.rows && s.rows[id].status == Processing && !HeldBySomeone(s, id) && Enabled(s, e)
    ensures id in Step(s, e).rows && Step(s, e).rows[id] == s.rows[id] && !HeldBySomeone(Step(s, e), id)
  {
    assert forall w :: w in s.held ==> s.held[w].row != id;
    assert forall w :: w in Step(s, e).held ==> Step(s, e).held[w].row != id;
  }

  lemma RunFirst(s: State, e: Event, rest: seq<Event>)
    requires Enabled(s, e)
    ensures Run(s, [e] + rest) == Run(Step(s, e), rest)
  {
    assert ([e] + rest)[1..] == rest;
  }

  // A row in processing can still be settled exactly when a worker holds it: once
  // the holder crashed, nothing in the queue ever takes the row up again.
  lemma ProcessingSettlesExactly(s: State, id: nat)
    requires Inv(s) && id in s.rows && s.rows[id].status == Processing
    ensures MayChange(s, id) <==> HeldBySomeone(s, id)
  {
    if HeldBySomeone(s, id) {
      var w :| w in s.held && s.held[w].row == id;
      assert HoldInv(s, w);
      var e := if s.held[w].resolved then CancelResolved(w)
               else if s.held[w].called then Finish(w, true)
               else Refund(w);
      RunFirst(s, e, []);
      assert Run(s, [e] + []).Some?;
    } else {
      forall events | Run(s, events).Some?
        ensures id in Run(s, events).value.rows && Run(s, events).value.rows[id] == s.rows[id]
      {
        StrandedStays(s, events, id);
      }
    }
  }

  lemma AbandonedRun() returns (events: seq<Event>)
    ensures Run(START, events).Some? && Abandoned(Run(START, events).value, 0)
  {
    var (e1, e2, e3) := (Insert(0), Claim(0, 0, false), Crash(0));
    var s1 := Step(START, e1);
    var s2 := Step(s1, e2);
    events := [e1] + ([e2] + ([e3] + []));
    RunFirst(START, e1, [e2] + ([e3] + []));
    RunFirst(s1, e2, [e3] + []);
    RunFirst(s2, e3, []);
  }

  ghost predicate Abandoned(s: State, id: nat) {
    id in s.rows && s.rows[id].status == Processing && !HeldBySomeone(s, id)
  }

  // It does happen: a worker crashes between its claim and its settlement, and from
  // there no run changes the row, whatever workers, requests and time do.
  lemma AbandonedForever()
    ensures exists events :: Run(START, events).Some? && Abandoned(Run(START, events).value, 0)
                             && !MayChange(Run(START, events).value, 0)
  {
    var events := AbandonedRun();
    RunKeeps(START, events);
    ProcessingSettlesExactly(Run(START, events).value, 0);
  }

  // ---------- the worker ----------

  // What a turn of the worker finds.
  datatype Situation = Situation(resolved: bool, webhook: bool, telegram: bool, delivered: bool)

  function AfterTurn(row: Row, x: Situation, now: nat): Row {
    var claimed := Claimed(row);
    if x.resolved then Marked(claimed, Cancelled)
    else if !x.webhook && !x.telegram then Refunded(claimed, now)
    else if x.delivered then Marked(claimed, Delivered)
    else Retried(claimed, claimed.attempts, now)
  }

  // The order in which rows are claimed.
  function Rank(row: Row, id: nat): (nat, nat) {
    (row.next, id)
  }

  ghost predicate NextDue(rows: map<nat, Row>, now: nat, locked: set<nat>, id: nat) {
    && id in rows && id !in locked && Due(rows[id], now)
    && forall x :: x in rows && x !in locked && Due(rows[x], now) ==> NotAfter(Rank(rows[id], id), Rank(rows[x], x))
  }

  predicate NothingDue(rows: map<nat, Row>, now: nat, locked: set<nat>) {
    forall x :: x in rows && x !in locked ==> !Due(rows[x], now)
  }

  class Table {
    var rows: map<nat, Row>
    var now: nat

    constructor ()
      ensures rows == map[] && now == 0
    {
      rows := map[];
      now := 0;
    }

    method ClaimOperatorNotification(locked: set<nat>) returns (item: Option<(nat, nat)>)
      modifies `rows
      ensures item.None? ==> rows == old(rows) && NothingDue(rows, now, locked)
      ensures item.Some? ==>
                && NextDue(old(rows), now, locked, item.value.0)
                && rows == old(rows)[item.value.0 := Claimed(old(rows)[item.value.0])]
                && item.value.1 == rows[item.value.0].attempts
    {
      var (current, time) := (rows, now);
      var best := FirstDue(rows.Keys - locked, x => x in current && Due(current[x], time),
                           x => if x in current then Rank(current[x], x) else (0, 0));
      assert forall x :: x in rows && x !in locked ==> x in rows.Keys - locked;
      if best.None? {
        return None;
      }
      var id := best.value;
      rows := rows[id := rows[id].(status := Processing, attempts := rows[id].attempts + 1)];
      return Some((id, rows[id].attempts));
    }

    method Mark(id: nat, status: Status)
      requires id in rows
      modifies `rows
      ensures rows == old(rows)[id := Marked(old(rows)[id], status)]
    {
      if rows[id].status == Processing {
        rows := rows[id := rows[id].(status := status)];
      }
    }

    method RetryOperatorNotification(id: nat, attempts: nat)
      requires id in rows
      modifies `rows
      ensures rows == old(rows)[id := Retried(old(rows)[id], attempts, now)]
    {
      if attempts >= LIMIT {
        Mark(id, Failed);
        return;
      }
      var exponent: int := if attempts < 8 then attempts else 8;
      var seconds := Double(exponent);
      if seconds < 30 {
        seconds := 30;
      }
      if seconds > 900 {
        seconds := 900;
      }
      if rows[id].status == Processing {
        rows := rows[id := rows[id].(status := Pending, next := now + seconds)];
      }
    }

    method DeliverOneOperatorNotification(locked: set<nat>, x: Situation) returns (claimed: Option<nat>)
      modifies `rows
      ensures claimed.None? ==> rows == old(rows) && NothingDue(rows, now, locked)
      ensures claimed.Some? ==> NextDue(old(rows), now, locked, claimed.value)
      ensures claimed.Some? ==> rows == old(rows)[claimed.value := AfterTurn(old(rows)[claimed.value], x, now)]
    {
      var item := ClaimOperatorNotification(locked);
      if item.None? {
        return None;
      }
      var (id, attempts) := item.value;
      claimed := Some(id);
      if x.resolved {
        Mark(id, Cancelled);
        return;
      }
      if !x.webhook && !x.telegram {
        if rows[id].status == Processing {
          var refunded: int := if rows[id].attempts > 0 then rows[id].attempts - 1 else 0;
          rows := rows[id := rows[id].(status := Pending, attempts := refunded, next := now + 300)];
        }
        return;
      }
      if !x.delivered {
        RetryOperatorNotification(id, attempts);
        return;
      }
      Mark(id, Delivered);
    }
  }

  // The events of an uninterrupted turn.
  function TurnEvents(w: nat, id: nat, x: Situation): seq<Event> {
    [Claim(w, id, x.resolved)] +
    (if x.resolved then [CancelResolved(w)] + []
     else if !x.webhook && !x.telegram then [Refund(w)] + []
     else [Call(w)] + ([Finish(w, x.delivered)] + []))
  }

  // An uninterrupted turn is a run of those events.
  lemma TurnIsRun(s: State, w: nat, id: nat, x: Situation)
    requires Inv(s) && Enabled(s, Claim(w, id, x.resolved))
    ensures var t := Run(s, TurnEvents(w, id, x));
            t.Some? && t.value.held == s.held && t.value.rows == s.rows[id := AfterTurn(s.rows[id], x, s.now)]
  {
    var s1 := Step(s, Claim(w, id, x.resolved));
    assert s1.held - {w} == s.held;
    if x.resolved {
      RunFirst(s, Claim(w, id, x.resolved), [CancelResolved(w)] + []);
      RunFirst(s1, CancelResolved(w), []);
    } else if !x.webhook && !x.telegram {
      RunFirst(s, Claim(w, id, x.resolved), [Refund(w)] + []);
      RunFirst(s1, Refund(w), []);
    } else {
      var s2 := Step(s1, Call(w));
      assert s2.held - {w} == s.held;
      RunFirst(s, Claim(w, id, x.resolved), [Call(w)] + ([Finish(w, x.delivered)] + []));
      RunFirst(s1, Call(w), [Finish(w, x.delivered)] + []);
      RunFirst(s2, Finish(w, x.delivered), []);
    }
  }
}
