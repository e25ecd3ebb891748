/**
 The follow-up queue.  Every SQL statement is one atomic step on the rows; any
 number of workers hold snapshots of rows they claimed, and may be slow, crash,
 or settle a row long after another worker has taken it over.
 */
module Followups {
  import opened Bytes
  import opened QueueParts

  const LIMIT := 5
  const STALE_SECONDS := 600

  datatype Status = Pending | Processing | Sent | Cancelled | Failed

  datatype Channel = WhatsApp | Telegram | Other

  datatype Row = Row(status: Status, attempts: nat, due: nat, updated: nat, channel: Channel, account: int)

  // How a worker settles the row it holds.
  datatype Resolution = Deliver | Cancel | Fail | Return

  // ---------- statements ----------

  predicate Due(row: Row, now: nat) {
    row.status == Pending && row.due <= now
  }

  function Claimed(row: Row, now: nat): Row {
    row.(status := Processing, attempts := row.attempts + 1, updated := now)
  }

  predicate Stale(row: Row, now: nat) {
    row.status == Processing && row.updated + STALE_SECONDS < now
  }

  function Recovered(row: Row, now: nat): Row {
    if Stale(row, now) then row.(status := Pending, due := now, updated := now) else row
  }

  function RecoverAll(rows: map<nat, Row>, now: nat): map<nat, Row> {
    map id | id in rows :: Recovered(rows[id], now)
  }

  // Every settling statement is guarded by the processing status, and decides by
  // the attempts in the snapshot, not by those in the row.
  function Settled(row: Row, attempts: nat, resolution: Resolution, now: nat): Row {
    if row.status != Processing then row
    else match resolution
      case Deliver => row.(status := Sent, updated := now)
      case Cancel => row.(status := Cancelled, updated := now)
      case Fail => row.(status := Failed, updated := now)
      case Return =>
        if attempts >= LIMIT then row.(status := Failed, updated := now)
        else row.(status := Pending, due := now + Backoff(attempts), updated := now)
  }

  // ---------- the system ----------

  datatype Log = Log(claims: nat, recoveries: nat, retries: nat)

  datatype State = State(rows: map<nat, Row>, logs: map<nat, Log>, held: map<nat, Snapshot>, now: nat)

  datatype Event =
    | Insert(id: nat, due: nat, channel: Channel, account: int)
    | Tick(seconds: nat)
    | Claim(worker: nat, id: nat)
    | Settle(worker: nat, resolution: Resolution)
    | Crash(worker: nat)
    | RecoverStale
    | OperatorCancel(id: nat)
    | OperatorRetry(id: nat)

  predicate Enabled(s: State, e: Event) {
    match e
    case Insert(id, due, channel, account) => id !in s.rows && id !in s.logs
    case Tick(seconds) => true
    case Claim(worker, id) => worker !in s.held && id in s.rows && id in s.logs && Due(s.rows[id], s.now)
    case Settle(worker, resolution) => worker in s.held && s.held[worker].row in s.rows
    case Crash(worker) => worker in s.held
    case RecoverStale => s.logs.Keys == s.rows.Keys
    case OperatorCancel(id) => id in s.rows && (s.rows[id].status == Pending || s.rows[id].status == Failed)
    case OperatorRetry(id) => id in s.rows && id in s.logs && s.rows[id].status == Failed
  }

  function RecoveryLogged(s: State): map<nat, Log>
    requires s.logs.Keys == s.rows.Keys
  {
    map id | id in s.logs ::
      if Stale(s.rows[id], s.now) then s.logs[id].(recoveries := s.logs[id].recoveries + 1) else s.logs[id]
  }

  function Step(s: State, e: Event): State
    requires Enabled(s, e)
  {
    match e
    case Insert(id, due, channel, account) =>
      s.(rows := s.rows[id := Row(Pending, 0, due, s.now, channel, account)], logs := s.logs[id := Log(0, 0, 0)])
    case Tick(seconds) =>
      s.(now := s.now + seconds)
    case Claim(worker, id) =>
      var row := Claimed(s.rows[id], s.now);
      s.(rows := s.rows[id := row], logs := s.logs[id := s.logs[id].(claims := s.logs[id].claims + 1)],
         held := s.held[worker := Snapshot(id, row.attempts)])
    case Settle(worker, resolution) =>
      var h := s.held[worker];
      s.(rows := s.rows[h.row := Settled(s.rows[h.row], h.attempts, resolution, s.now)], held := s.held - {worker})
    case Crash(worker) =>
      s.(held := s.held - {worker})
    case RecoverStale =>
      s.(rows := RecoverAll(s.rows, s.now), logs := RecoveryLogged(s))
    case OperatorCancel(id) =>
      s.(rows := s.rows[id := s.rows[id].(status := Cancelled, updated := s.now)])
    case OperatorRetry(id) =>
      s.(rows := s.rows[id := s.rows[id].(status := Pending, due := s.now, attempts := 0, updated := s.now)],
         logs := s.logs[id := s.logs[id].(retries := s.logs[id].retries + 1)])
  }

  function Run(s: State, events: seq<Event>): Option<State>
    decreases |events|
  {
    if events == [] then Some(s)
    else if !Enabled(s, events[0]) then None
    else Run(Step(s, events[0]), events[1..])
  }

  const START := State(map[], map[], map[], 0)

  // ---------- the invariant ----------

  // Claims are paid for by the row's first appearance, by recoveries, by operator
  // retries, and by returns from snapshots below the limit.
  predicate Balanced(s: State, id: nat)
    requires id in s.rows && id in s.logs
  {
    var (row, log) := (s.rows[id], s.logs[id]);
    log.claims + (if row.status == Pending then 1 else 0) + |RetryHolders(s.held, id, LIMIT)|
    <= 1 + log.recoveries + LIMIT * log.retries + (if row.attempts < LIMIT then row.attempts else LIMIT - 1)
  }

  // A row outside processing takes up one of the places that its first appearance
  // and its recoveries make for holders.
  predicate Exclusive(s: State, id: nat)
    requires id in s.rows && id in s.logs
  {
    |HoldersOf(s.held, id)| + (if s.rows[id].status == Processing then 0 else 1) <= 1 + s.logs[id].recoveries
  }

  ghost predicate Inv(s: State) {
    && s.logs.Keys == s.rows.Keys
    && (forall w :: w in s.held ==> s.held[w].row in s.rows)
    && (forall id :: id in s.rows ==> Balanced(s, id) && Exclusive(s, id))
  }

  lemma SettleKeeps(s: State, e: Event, id: nat)
    requires Inv(s) && Enabled(s, e) && (e.Settle? || e.Crash?) && id in s.rows
    ensures Balanced(Step(s, e), id) && Exclusive(Step(s, e), id)
  {
    assert Balanced(s, id) && Exclusive(s, id);
    Dropped(s.held, e.worker, id, LIMIT);
  }

  lemma ClaimKeeps(s: State, e: Event, id: nat)
    requires Inv(s) && Enabled(s, e) && e.Claim? && id in s.rows
    ensures Balanced(Step(s, e), id) && Exclusive(Step(s, e), id)
  {
    assert Balanced(s, id) && Exclusive(s, id);
    Taken(s.held, e.worker, Snapshot(e.id, s.rows[e.id].attempts + 1), id, LIMIT);
  }

  lemma InsertKeeps(s: State, e: Event, id: nat)
    requires Inv(s) && Enabled(s, e) && e.Insert? && (id in s.rows || id == e.id)
    ensures Balanced(Step(s, e), id) && Exclusive(Step(s, e), id)
  {
    if id == e.id {
      assert HoldersOf(s.held, id) == {} && RetryHolders(s.held, id, LIMIT) == {};
    } else {
      assert Balanced(s, id) && Exclusive(s, id);
    }
  }

  lemma OtherKeeps(s: State, e: Event, id: nat)
    requires Inv(s) && Enabled(s, e) && (e.Tick? || e.RecoverStale? || e.OperatorCancel? || e.OperatorRetry?)
             && id in s.rows
    ensures Balanced(Step(s, e), id) && Exclusive(Step(s, e), id)
  {
    assert Balanced(s, id) && Exclusive(s, id);
  }

  lemma StepKeeps(s: State, e: Event)
    requires Inv(s) && Enabled(s, e)
    ensures Inv(Step(s, e))
  {
    var t := Step(s, e);
    forall id | id in t.rows ensures Balanced(t, id) && Exclusive(t, id) {
      if e.Settle? || e.Crash? {
        SettleKeeps(s, e, id);
      } else if e.Claim? {
        ClaimKeeps(s, e, id);
      } else if e.Insert? {
        InsertKeeps(s, e, id);
      } else {
        OtherKeeps(s, e, id);
      }
    }
  }

  lemma {:induction false} RunKeeps(s: State, events: seq<Event>)
    requires Inv(s) && Run(s, events).Some?
    ensures Inv(Run(s, events).value)
    decreases |events|
  {
    if events != [] {
      StepKeeps(s, events[0]);
      RunKeeps(Step(s, events[0]), events[1..]);
    }
  }

  // ---------- main results ----------

  // In every run, a row is claimed at most five times, plus once for each time it
  // was recovered, plus five times for each operator retry; and at most one
  // worker holds it, plus one for each recovery.
  lemma ClaimsBounded(events: seq<Event>, id: nat)
    requires Run(START, events).Some? && id in Run(START, events).value.rows
    ensures id in Run(START, events).value.logs
    ensures var (t, log) := (Run(START, events).value, Run(START, events).value.logs[id]);
            && log.claims <= LIMIT + log.recoveries + LIMIT * log.retries
            && |HoldersOf(t.held, id)| <= 1 + log.recoveries
  {
    RunKeeps(START, events);
    var t := Run(START, events).value;
    assert Balanced(t, id) && Exclusive(t, id);
  }

  // A sent or cancelled row never changes again, whatever late workers, recovery
  // or the operator do.
  lemma {:induction false} SentIsFinal(s: State, events: seq<Event>, id: nat)
    requires id in s.rows && (s.rows[id].status == Sent || s.rows[id].status == Cancelled)
    requires Run(s, events).Some?
    ensures id in Run(s, events).value.rows && Run(s, events).value.rows[id] == s.rows[id]
    decreases |events|
  {
    if events != [] {
      SentIsFinal(Step(s, events[0]), events[1..], id);
    }
  }

  // ---------- the bound is reached ----------

  // A worker claims the row, fails to deliver, and the retry falls due.
  function Rounds(n: nat): seq<Event> {
    if n == 0 then [] else [Claim(0, 0)] + ([Settle(0, Return)] + ([Tick(900)] + Rounds(n - 1)))
  }

  lemma RunFirst(s: State, e: Event, rest: seq<Event>)
    requires Enabled(s, e)
    ensures Run(s, [e] + rest) == Run(Step(s, e), rest)
  {
    assert ([e] + rest)[1..] == rest;
  }

  lemma {:induction false} RoundsRun(s: State, n: nat)
    requires 0 in s.rows && 0 in s.logs && 0 !in s.held && s.rows[0].attempts + n <= LIMIT
    requires n > 0 ==> Due(s.rows[0], s.now)
    ensures Run(s, Rounds(n)).Some? && 0 in Run(s, Rounds(n)).value.logs
    ensures Run(s, Rounds(n)).value.logs[0] == s.logs[0].(claims := s.logs[0].claims + n)
    decreases n
  {
    if n > 0 {
      var s1 := Step(s, Claim(0, 0));
      var s2 := Step(s1, Settle(0, Return));
      var s3 := Step(s2, Tick(900));
      RunFirst(s, Claim(0, 0), [Settle(0, Return)] + ([Tick(900)] + Rounds(n - 1)));
      RunFirst(s1, Settle(0, Return), [Tick(900)] + Rounds(n - 1));
      RunFirst(s2, Tick(900), Rounds(n - 1));
      RoundsRun(s3, n - 1);
    }
  }

  // Without recovery and retry, five claims of one row do happen.
  lemma FiveClaims()
    ensures exists events :: Run(START, events).Some? && 0 in Run(START, events).value.logs
                             && Run(START, events).value.logs[0] == Log(LIMIT, 0, 0)
  {
    var first := Insert(0, 0, Telegram, 0);
    RunFirst(START, first, Rounds(LIMIT));
    RoundsRun(Step(START, first), LIMIT);
    assert Run(START, [first] + Rounds(LIMIT)).Some?;
  }

  // ---------- the worker ----------

  // What a delivery attempt finds: whether the recipient wrote recently, whether
  // the account is available and enabled, and whether sending succeeds.
  datatype Situation = Situation(recentInbound: bool, accountAvailable: bool, outboundEnabled: bool, sent: bool)

  function Resolve(row: Row, x: Situation): Resolution {
    match row.channel
    case WhatsApp =>
      if !x.recentInbound then Cancel
      else if row.account <= 0 || !x.accountAvailable then Fail
      else if !x.outboundEnabled || !x.sent then Return
      else Deliver
    case Telegram => if x.sent then Deliver else Return
    case Other => Cancel
  }

  // The order in which rows are claimed.
  function Rank(row: Row, id: nat): (nat, nat) {
    (row.due, id)
  }

  // id is the first due row that no other transaction has locked.
  ghost predicate NextDue(rows: map<nat, Row>, now: nat, locked: set<nat>, id: nat) {
    && id in rows && id !in locked && Due(rows[id], now)
    && forall x :: x in rows && x !in locked && Due(rows[x], now) ==> NotAfter(Rank(rows[id], id), Rank(rows[x], x))
  }

  predicate NothingDue(rows: map<nat, Row>, now: nat, locked: set<nat>) {
    forall x :: x in rows && x !in locked ==> !Due(rows[x], now)
  }

  // The table of follow-ups as one worker's statements change it.
  class Table {
    var rows: map<nat, Row>
    var now: nat

    constructor ()
      ensures rows == map[] && now == 0
    {
      rows := map[];
      now := 0;
    }

    method RecoverStaleFollowups()
      modifies `rows
      ensures rows == RecoverAll(old(rows), now)
    {
      var left := rows.Keys;
      var start := rows;
      while left != {}
        modifies `rows
        invariant left <= rows.Keys == start.Keys
        invariant forall id :: id in start ==> rows[id] == if id in left then start[id] else Recovered(start[id], now)
        decreases |left|
      {
        var id :| id in left;
        if rows[id].status == Processing && rows[id].updated + STALE_SECONDS < now {
          rows := rows[id := rows[id].(status := Pending, due := now, updated := now)];
        }
        left := left - {id};
      }
      assert rows == RecoverAll(start, now);
    }

    // Takes the earliest due row, skipping rows that other transactions lock.
    method ClaimFollowup(locked: set<nat>) returns (item: Option<Snapshot>)
      modifies `rows
      ensures item.None? ==> rows == old(rows) && NothingDue(rows, now, locked)
      ensures item.Some? ==>
                && NextDue(old(rows), now, locked, item.value.row)
                && rows == old(rows)[item.value.row := Claimed(old(rows)[item.value.row], now)]
                && item.value.attempts == rows[item.value.row].attempts
    {
      var (current, time) := (rows, now);
      var best := FirstDue(rows.Keys - locked, x => x in current && Due(current[x], time),
                           x => if x in current then Rank(current[x], x) else (0, 0));
      assert forall x :: x in rows && x !in locked ==> x in rows.Keys - locked;
      if best.None? {
        return None;
      }
      var id := best.value;
      rows := rows[id := rows[id].(status := Processing, attempts := rows[id].attempts + 1, updated := now)];
      return Some(Snapshot(id, rows[id].attempts));
    }

    // UPDATE ... WHERE id = id AND status = 'processing'
    method Mark(id: nat, status: Status)
      modifies `rows
      ensures rows == if id in old(rows) && old(rows)[id].status == Processing
                      then old(rows)[id := old(rows)[id].(status := status, updated := now)] else old(rows)
    {
      if id in rows && rows[id].status == Processing {
        rows := rows[id := rows[id].(status := status, updated := now)];
      }
    }

    method ReturnFollowupToPending(item: Snapshot)
      requires item.row in rows
      modifies `rows
      ensures rows == old(rows)[item.row := Settled(old(rows)[item.row], item.attempts, Return, now)]
    {
      if item.attempts >= LIMIT {
        Mark(item.row, Failed);
        return;
      }
      var exponent: int := if item.attempts < 8 then item.attempts else 8;
      var seconds := Double(exponent);
      if seconds < 30 {
        seconds := 30;
      }
      if seconds > 900 {
        seconds := 900;
      }
      if rows[item.row].status == Processing {
        rows := rows[item.row := rows[item.row].(status := Pending, due := now + seconds, updated := now)];
      }
    }

    // One turn of a worker that nothing else interrupts.
    method DeliverOneFollowup(locked: set<nat>, x: Situation) returns (claimed: Option<nat>)
      modifies `rows
      ensures claimed.None? ==> rows == old(rows) && NothingDue(rows, now, locked)
      ensures claimed.Some? ==> NextDue(old(rows), now, locked, claimed.value)
      ensures claimed.Some? ==>
                var row := Claimed(old(rows)[claimed.value], now);
                rows == old(rows)[claimed.value := Settled(row, row.attempts, Resolve(row, x), now)]
    {
      var item := ClaimFollowup(locked);
      if item.None? {
        return None;
      }
      var id := item.value.row;
      claimed := Some(id);
      var (channel, account) := (rows[id].channel, rows[id].account);
      if channel == WhatsApp && !x.recentInbound {
        Mark(id, Cancelled);
        return;
      }
      match channel {
        case WhatsApp =>
          if account <= 0 || !x.accountAvailable {
            Mark(id, Failed);
            return;
          }
          if !x.outboundEnabled {
            ReturnFollowupToPending(item.value);
            return;
          }
        case Telegram =>
        case Other =>
          Mark(id, Cancelled);
          return;
      }
      if !x.sent {
        ReturnFollowupToPending(item.value);
        return;
      }
      Mark(id, Sent);
    }
  }

  // An uninterrupted turn is a claim followed by a settlement.
  lemma TurnIsTwoEvents(s: State, w: nat, id: nat, x: Situation)
    requires Enabled(s, Claim(w, id))
    ensures var row := Claimed(s.rows[id], s.now);
            var t := Run(s, [Claim(w, id), Settle(w, Resolve(row, x))]);
            && t.Some? && t.value.held == s.held
            && t.value.rows == s.rows[id := Settled(row, row.attempts, Resolve(row, x), s.now)]
  {
    var resolution := Resolve(Claimed(s.rows[id], s.now), x);
    var s1 := Step(s, Claim(w, id));
    var events := [Claim(w, id), Settle(w, resolution)];
    RunFirst(s, Claim(w, id), [Settle(w, resolution)]);
    assert events == [Claim(w, id)] + [Settle(w, resolution)];
    RunFirst(s1, Settle(w, resolution), []);
    assert [Settle(w, resolution)] == [Settle(w, resolution)] + [];
    assert s1.held - {w} == s.held;
  }

  // There is a way to send the row, and sending succeeds.
  predicate GoesOut(row: Row, x: Situation) {
    && x.sent && row.channel != Other
    && (row.channel == WhatsApp ==> x.recentInbound && x.accountAvailable && x.outboundEnabled && row.account > 0)
  }

  // There is no account to send the row from, inside the reply window.
  predicate Accountless(row: Row, x: Situation) {
    row.channel == WhatsApp && x.recentInbound && (row.account <= 0 || !x.accountAvailable)
  }

  // After an uninterrupted turn the row is sent exactly when it went out; cancelled
  // when its channel is unknown or the reply window is over; failed without an
  // account or at the fifth claim; and else due again, later than now.
  lemma TurnExactly(s: State, w: nat, id: nat, x: Situation)
    requires Enabled(s, Claim(w, id))
    ensures var row := s.rows[id];
            var t := Run(s, [Claim(w, id), Settle(w, Resolve(Claimed(row, s.now), x))]);
            t.Some? && id in t.value.rows &&
            var after := t.value.rows[id];
            && (after.status == Sent <==> GoesOut(row, x))
            && (after.status == Cancelled <==> row.channel == Other || (row.channel == WhatsApp && !x.recentInbound))
            && (after.status == Failed ==> Accountless(row, x) || row.attempts + 1 >= LIMIT)
            && (after.status == Pending ==> after.due > s.now && row.attempts + 1 < LIMIT)
            && after.status != Processing && after.attempts == row.attempts + 1
  {
    TurnIsTwoEvents(s, w, id, x);
    BackoffRange(s.rows[id].attempts + 1);
  }
}
