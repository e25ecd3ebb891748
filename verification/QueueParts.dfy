/** What the queues share: back-off, the choice of the next row, and the snapshots that workers hold of rows. */
module QueueParts {
  import opened Bytes

  // Doubling with the attempts, between 30 and 900 seconds.
  function Backoff(attempts: nat): nat {
    var seconds := Double(if attempts < 8 then attempts else 8);
    if seconds < 30 then 30 else if seconds > 900 then 900 else seconds
  }

  function Double(n: nat): nat { if n == 0 then 1 else 2 * Double(n - 1) }

  lemma {:induction false} DoubleGrows(a: nat, b: nat)
    requires a <= b
    ensures Double(a) <= Double(b)
    decreases b
  {
    if a < b {
      DoubleGrows(a, b - 1);
    }
  }

  // Up to four attempts the delay is its lower bound; up to seven it is at most
  // 128 seconds; and the upper bound of 900 is never reached.
  lemma BackoffRange(attempts: nat)
    ensures 30 <= Backoff(attempts) <= 256
    ensures attempts <= 4 ==> Backoff(attempts) == 30
    ensures attempts <= 7 ==> Backoff(attempts) <= 128
  {
    assert Double(4) == 16 && Double(7) == 128 && Double(8) == 256;
    DoubleGrows(if attempts < 8 then attempts else 8, 8);
    if attempts <= 7 {
      DoubleGrows(attempts, 7);
    }
    if attempts <= 4 {
      DoubleGrows(attempts, 4);
    }
  }

  // Rows are claimed in the order of a rank, the first number before the second.
  predicate NotAfter(a: (nat, nat), b: (nat, nat)) {
    a.0 < b.0 || (a.0 == b.0 && a.1 <= b.1)
  }

  // The due row of the lowest rank among the given ones, if any is due.
  method FirstDue(ids: set<nat>, due: nat -> bool, rank: nat -> (nat, nat)) returns (best: Option<nat>)
    ensures best.None? ==> forall x :: x in ids ==> !due(x)
    ensures best.Some? ==> best.value in ids && due(best.value)
    ensures best.Some? ==> forall x :: x in ids && due(x) ==> NotAfter(rank(best.value), rank(x))
  {
    best := None;
    var left := ids;
    while left != {}
      invariant left <= ids
      invariant best.None? ==> forall x :: x in ids - left ==> !due(x)
      invariant best.Some? ==> best.value in ids && due(best.value)
      invariant best.Some? ==> forall x :: x in ids - left && due(x) ==> NotAfter(rank(best.value), rank(x))
      decreases |left|
    {
      var id :| id in left;
      left := left - {id};
      if due(id) && (best.None? || !NotAfter(rank(best.value), rank(id))) {
        best := Some(id);
      }
    }
  }

  // A worker's snapshot of a row it claimed: the row, and the number of attempts
  // that the claim recorded.
  datatype Snapshot = Snapshot(row: nat, attempts: nat)

  function HoldersOf(held: map<nat, Snapshot>, row: nat): set<nat> {
    set w | w in held && held[w].row == row
  }

  // Holders whose snapshot still allows another attempt.
  function RetryHolders(held: map<nat, Snapshot>, row: nat, limit: nat): set<nat> {
    set w | w in held && held[w].row == row && held[w].attempts < limit
  }

  lemma Taken(held: map<nat, Snapshot>, w: nat, s: Snapshot, row: nat, limit: nat)
    requires w !in held
    ensures |HoldersOf(held[w := s], row)| == |HoldersOf(held, row)| + (if s.row == row then 1 else 0)
    ensures |RetryHolders(held[w := s], row, limit)|
            == |RetryHolders(held, row, limit)| + (if s.row == row && s.attempts < limit then 1 else 0)
  {
    var after := held[w := s];
    if s.row == row {
      assert HoldersOf(after, row) == HoldersOf(held, row) + {w};
      if s.attempts < limit {
        assert RetryHolders(after, row, limit) == RetryHolders(held, row, limit) + {w};
      } else {
        assert RetryHolders(after, row, limit) == RetryHolders(held, row, limit);
      }
    } else {
      assert HoldersOf(after, row) == HoldersOf(held, row);
      assert RetryHolders(after, row, limit) == RetryHolders(held, row, limit);
    }
  }

  lemma Dropped(held: map<nat, Snapshot>, w: nat, row: nat, limit: nat)
    requires w in held
    ensures |HoldersOf(held - {w}, row)| == |HoldersOf(held, row)| - (if held[w].row == row then 1 else 0)
    ensures |RetryHolders(held - {w}, row, limit)|
            == |RetryHolders(held, row, limit)| - (if held[w].row == row && held[w].attempts < limit then 1 else 0)
  {
    Taken(held - {w}, w, held[w], row, limit);
    assert (held - {w})[w := held[w]] == held;
  }
}
