/**
 Schema migrations: any number of runners, each working through the sorted
 migration files one transaction at a time, against one database whose
 schema_migrations table has a unique version key.  A runner may crash anywhere,
 and a commit may take effect although the runner sees an error.
 */
module Migrations {
  import opened Bytes

  // Ready: between transactions.  Absent, Executed, Inserted: inside one.
  datatype Phase = Ready | Absent | Executed | Inserted | Returned(ok: bool)

  datatype Runner = Runner(at: nat, applied: nat, skipped: nat, phase: Phase)

  // effects: the files whose SQL was committed, in the order of the commits.
  datatype State = State(versions: set<string>, effects: seq<string>, runners: map<nat, Runner>)

  datatype Event =
    | Start(w: nat)
    | Look(w: nat)
    | Execute(w: nat)
    | InsertVersion(w: nat)
    | Commit(w: nat)
    | CommitUnseen(w: nat)
    | Fail(w: nat)
    | Crash(w: nat)
    | Finish(w: nat)

  predicate Active(r: Runner) {
    !r.phase.Returned?
  }

  predicate In(s: State, w: nat, phase: Phase) {
    w in s.runners && s.runners[w].phase == phase
  }

  // A transaction that inserted a version blocks others from inserting it.
  predicate Unblocked(s: State, files: seq<string>, w: nat)
    requires w in s.runners && s.runners[w].at < |files|
  {
    forall x :: x in s.runners && x != w && s.runners[x].phase == Inserted && s.runners[x].at < |files| ==>
                  files[s.runners[x].at] != files[s.runners[w].at]
  }

  predicate Enabled(files: seq<string>, s: State, e: Event) {
    match e
    case Start(w) => w !in s.runners
    case Look(w) => In(s, w, Ready) && s.runners[w].at < |files|
    case Execute(w) => In(s, w, Absent)
    case InsertVersion(w) => In(s, w, Executed) && s.runners[w].at < |files| && Unblocked(s, files, w)
    case Commit(w) => In(s, w, Inserted) && s.runners[w].at < |files|
    case CommitUnseen(w) => In(s, w, Inserted) && s.runners[w].at < |files|
    case Fail(w) => w in s.runners && Active(s.runners[w])
    case Crash(w) => w in s.runners
    case Finish(w) => In(s, w, Ready) && s.runners[w].at == |files|
  }

  function Moved(s: State, w: nat, r: Runner): State {
    s.(runners := s.runners[w := r])
  }

  function Committed(s: State, v: string): State {
    s.(versions := s.versions + {v}, effects := s.effects + [v])
  }

  function Step(files: seq<string>, s: State, e: Event): State
    requires Enabled(files, s, e)
  {
    match e
    case Start(w) => Moved(s, w, Runner(0, 0, 0, Ready))
    case Look(w) =>
      var r := s.runners[w];
      if files[r.at] in s.versions then Moved(s, w, r.(at := r.at + 1, skipped := r.skipped + 1))
      else Moved(s, w, r.(phase := Absent))
    case Execute(w) => Moved(s, w, s.runners[w].(phase := Executed))
    case InsertVersion(w) =>
      var r := s.runners[w];
      Moved(s, w, r.(phase := if files[r.at] in s.versions then Returned(false) else Inserted))
    case Commit(w) =>
      var r := s.runners[w];
      Moved(Committed(s, files[r.at]), w, Runner(r.at + 1, r.applied + 1, r.skipped, Ready))
    case CommitUnseen(w) =>
      var r := s.runners[w];
      Moved(Committed(s, files[r.at]), w, r.(phase := Returned(false)))
    case Fail(w) => Moved(s, w, s.runners[w].(phase := Returned(false)))
    case Crash(w) => s.(runners := s.runners - {w})
    case Finish(w) => Moved(s, w, s.runners[w].(phase := Returned(true)))
  }

  function Run(files: seq<string>, s: State, events: seq<Event>): Option<State>
    decreases |events|
  {
    if events == [] then Some(s)
    else if !Enabled(files, s, events[0]) then None
    else Run(files, Step(files, s, events[0]), events[1..])
  }

  const START := State({}, [], map[])

  // ---------- the invariant ----------

  predicate Distinct(xs: seq<string>) {
    forall i, j :: 0 <= i < j < |xs| ==> xs[i] != xs[j]
  }

  // The table lists exactly the committed files, each committed once.
  ghost predicate Recorded(s: State) {
    Distinct(s.effects) && forall v :: v in s.versions <==> v in s.effects
  }

  predicate RunnerInv(files: seq<string>, s: State, w: nat)
    requires w in s.runners
  {
    var r := s.runners[w];
    && r.at <= |files| && r.applied + r.skipped == r.at
    && (forall i :: 0 <= i < r.at ==> files[i] in s.versions)
    && (r.phase == Absent || r.phase == Executed || r.phase == Inserted ==> r.at < |files|)
    && (r.phase == Inserted ==> files[r.at] !in s.versions && Unblocked(s, files, w))
    && (r.phase == Returned(true) ==> r.at == |files|)
  }

  ghost predicate Inv(files: seq<string>, s: State) {
    Recorded(s) && forall w :: w in s.runners ==> RunnerInv(files, s, w)
  }

  lemma RecordedNext(s: State, v: string)
    requires Recorded(s) && v !in s.versions
    ensures Recorded(Committed(s, v))
  {
    forall i, j | 0 <= i < j < |s.effects| + 1 ensures (s.effects + [v])[i] != (s.effects + [v])[j] {
      assert (s.effects + [v])[i] in s.effects;
    }
  }

  lemma RunnerKept(files: seq<string>, s: State, e: Event, w: nat)
    requires Inv(files, s) && Enabled(files, s, e) && w in Step(files, s, e).runners
    ensures RunnerInv(files, Step(files, s, e), w)
  {
    if w in s.runners {
      assert RunnerInv(files, s, w);
    }
    if e.Commit? || e.CommitUnseen? {
      assert RunnerInv(files, s, e.w);
    }
  }

  lemma StepKeeps(files: seq<string>, s: State, e: Event)
    requires Inv(files, s) && Enabled(files, s, e)
    ensures Inv(files, Step(files, s, e))
  {
    forall w | w in Step(files, s, e).runners ensures RunnerInv(files, Step(files, s, e), w) {
      RunnerKept(files, s, e, w);
    }
    if e.Commit? || e.CommitUnseen? {
      assert RunnerInv(files, s, e.w);
      RecordedNext(s, files[s.runners[e.w].at]);
    }
  }

  lemma {:induction false} RunKeeps(files: seq<string>, s: State, events: seq<Event>)
    requires Inv(files, s) && Run(files, s, events).Some?
    ensures Inv(files, Run(files, s, events).value)
    decreases |events|
  {
    if events != [] {
      StepKeeps(files, s, events[0]);
      RunKeeps(files, Step(files, s, events[0]), events[1..]);
    }
  }

  // ---------- main results ----------

  // Under any interleaving of runners with crashes: every file's SQL is committed
  // at most once, schema_migrations is exactly the set of committed files, and a
  // runner that returned success has counted every file, all of them committed.
  lemma MigrationsSafe(files: seq<string>, events: seq<Event>)
    requires Run(files, START, events).Some?
    ensures var t := Run(files, START, events).value;
            && Distinct(t.effects) && (forall v :: v in t.versions <==> v in t.effects)
            && forall w :: w in t.runners && t.runners[w].phase == Returned(true) ==>
                 t.runners[w].applied + t.runners[w].skipped == |files| && forall v :: v in files ==> v in t.versions
  {
    RunKeeps(files, START, events);
    var t := Run(files, START, events).value;
    forall w | w in t.runners && t.runners[w].phase == Returned(true)
      ensures t.runners[w].applied + t.runners[w].skipped == |files| && forall v :: v in files ==> v in t.versions
    {
      assert RunnerInv(files, t, w);
    }
  }

  lemma NothingLeftStep(files: seq<string>, s: State, e: Event, w: nat)
    requires Inv(files, s) && Enabled(files, s, e) && (forall v :: v in files ==> v in s.versions)
    ensures Step(files, s, e).effects == s.effects && Step(files, s, e).versions == s.versions
    ensures w in Step(files, s, e).runners && (w in s.runners ==> s.runners[w].applied == 0) ==>
              Step(files, s, e).runners[w].applied == 0
  {
    if e.Commit? || e.CommitUnseen? {
      assert RunnerInv(files, s, e.w);
    }
  }

  // Once every file is committed, no run of any runners commits anything, so a
  // runner started from then on applies none.
  lemma {:induction false} NothingLeft(files: seq<string>, s: State, events: seq<Event>, w: nat)
    requires Inv(files, s) && (forall v :: v in files ==> v in s.versions) && Run(files, s, events).Some?
    requires w in s.runners ==> s.runners[w].applied == 0
    ensures var t := Run(files, s, events).value;
            && t.effects == s.effects && t.versions == s.versions
            && (w in t.runners ==> t.runners[w].applied == 0)
            && (w in t.runners && t.runners[w].phase == Returned(true) ==> t.runners[w].skipped == |files|)
    decreases |events|
  {
    if events == [] {
      if w in s.runners {
        assert RunnerInv(files, s, w);
      }
    } else {
      StepKeeps(files, s, events[0]);
      NothingLeftStep(files, s, events[0], w);
      NothingLeft(files, Step(files, s, events[0]), events[1..], w);
    }
  }

  // After any runner's success, the next runner applies nothing.
  lemma NextRunAppliesNone(files: seq<string>, before: seq<Event>, after: seq<Event>, done: nat, w: nat)
    requires Run(files, START, before).Some?
    requires var s := Run(files, START, before).value;
             && done in s.runners && s.runners[done].phase == Returned(true) && w !in s.runners
             && Run(files, s, after).Some?
    ensures var s := Run(files, START, before).value;
            var t := Run(files, s, after).value;
            t.effects == s.effects && (w in t.runners ==> t.runners[w].applied == 0)
  {
    MigrationsSafe(files, before);
    RunKeeps(files, START, before);
    NothingLeft(files, Run(files, START, before).value, after, w);
  }

  // ---------- one runner at a time ----------

  // Every runner is started only when no other is active.
  predicate OneAtATime(files: seq<string>, s: State, events: seq<Event>)
    decreases |events|
  {
    events != [] ==>
      && Enabled(files, s, events[0])
      && (events[0].Start? ==> forall w :: w in s.runners ==> !Active(s.runners[w]))
      && OneAtATime(files, Step(files, s, events[0]), events[1..])
  }

  ghost predicate LoneInv(files: seq<string>, s: State) {
    && s.effects <= files && (forall v :: v in s.versions <==> v in s.effects)
    && (forall v, w :: v in s.runners && w in s.runners && Active(s.runners[v]) && Active(s.runners[w]) ==> v == w)
    && (forall w :: w in s.runners && Active(s.runners[w]) ==> LoneRunner(files, s, s.runners[w]))
  }

  predicate LoneRunner(files: seq<string>, s: State, r: Runner) {
    && r.at <= |s.effects|
    && (r.phase == Absent || r.phase == Executed || r.phase == Inserted ==> r.at == |s.effects| < |files|)
  }

  lemma PrefixMember(files: seq<string>, effects: seq<string>, i: nat)
    requires Distinct(files) && effects <= files && i < |files|
    ensures files[i] in effects <==> i < |effects|
  {
    assert forall j :: 0 <= j < |effects| ==> effects[j] == files[j];
  }

  lemma LoneStep(files: seq<string>, s: State, e: Event)
    requires Distinct(files) && LoneInv(files, s) && Enabled(files, s, e)
    requires e.Start? ==> forall w :: w in s.runners ==> !Active(s.runners[w])
    ensures LoneInv(files, Step(files, s, e))
  {
    var t := Step(files, s, e);
    if e.Commit? || e.CommitUnseen? {
      assert LoneRunner(files, s, s.runners[e.w]);
      assert t.effects == files[..|t.effects|];
      forall w | w in t.runners && Active(t.runners[w]) ensures LoneRunner(files, t, t.runners[w]) {
        assert w == e.w;
      }
    } else if e.Look? {
      assert LoneRunner(files, s, s.runners[e.w]);
      PrefixMember(files, s.effects, s.runners[e.w].at);
    }
  }

  // When runners never overlap, whatever crashes: the committed files are always
  // a prefix of the sorted list.
  lemma {:induction false} LoneRunsCommitPrefix(files: seq<string>, s: State, events: seq<Event>)
    requires Distinct(files) && LoneInv(files, s) && OneAtATime(files, s, events)
    ensures Run(files, s, events).Some? && Run(files, s, events).value.effects <= files
    decreases |events|
  {
    if events != [] {
      LoneStep(files, s, events[0]);
      LoneRunsCommitPrefix(files, Step(files, s, events[0]), events[1..]);
    }
  }

  lemma LoneRunsFromEmpty(files: seq<string>, events: seq<Event>)
    requires Distinct(files) && OneAtATime(files, START, events)
    ensures Run(files, START, events).Some? && Run(files, START, events).value.effects <= files
  {
    LoneRunsCommitPrefix(files, START, events);
  }

  // ---------- the runner ----------

  // Where one file's transaction goes wrong.
  datatype Fault = NoFault | Unreadable | BeginFails | LookFails | SqlFails | InsertFails | CommitFails | CommitLost

  function Missing(files: seq<string>, versions: set<string>): seq<string> {
    if files == [] then []
    else Missing(files[..|files| - 1], versions) + (if files[|files| - 1] in versions then [] else [files[|files| - 1]])
  }

  lemma {:induction false} MissingMembers(files: seq<string>, versions: set<string>)
    ensures forall v :: v in Missing(files, versions) <==> v in files && v !in versions
    decreases |files|
  {
    if files != [] {
      MissingMembers(files[..|files| - 1], versions);
      assert files == files[..|files| - 1] + [files[|files| - 1]];
    }
  }

  lemma {:induction false} MissingFromEmpty(files: seq<string>)
    ensures Missing(files, {}) == files
    decreases |files|
  {
    if files != [] {
      MissingFromEmpty(files[..|files| - 1]);
      assert files == files[..|files| - 1] + [files[|files| - 1]];
    }
  }

  lemma InitialRun(files: seq<string>, effects: seq<string>, versions: set<string>)
    requires forall v :: v in versions <==> v in effects
    ensures versions == {} ==> effects + Missing(files, versions) == files && Missing(files, versions) == files
  {
    assert effects != [] ==> effects[0] in versions;
    if versions == {} {
      MissingFromEmpty(files);
    }
  }

  // Some faults stop the run at any file, the others only at a file that is not
  // recorded yet.
  predicate Stops(fault: Fault, recorded: bool) {
    fault == Unreadable || fault == BeginFails || fault == LookFails || (!recorded && fault != NoFault)
  }

  // The first file from i on whose fault takes effect, or the end of the list.
  function StopFrom(files: seq<string>, faults: seq<Fault>, versions: set<string>, i: nat): (n: nat)
    requires |faults| == |files| && i <= |files|
    ensures i <= n <= |files| && (n < |files| ==> Stops(faults[n], files[n] in versions))
    ensures forall j :: i <= j < n ==> !Stops(faults[j], files[j] in versions)
    decreases |files| - i
  {
    if i == |files| || Stops(faults[i], files[i] in versions) then i else StopFrom(files, faults, versions, i + 1)
  }

  // How many files are behind the run when it returns: those before its stop, and
  // the one whose commit took place although its answer was lost.
  function Behind(files: seq<string>, faults: seq<Fault>, versions: set<string>): (n: nat)
    requires |faults| == |files|
    ensures n <= |files|
  {
    var n := StopFrom(files, faults, versions, 0);
    if n < |files| && faults[n] == CommitLost then n + 1 else n
  }

  class Database {
    var versions: set<string>
    var effects: seq<string>

    constructor ()
      ensures versions == {} && effects == []
    {
      versions := {};
      effects := [];
    }

    // A run that nothing else interleaves with.  It commits the missing files in
    // order up to the first fault that takes effect, and succeeds exactly when there
    // is none.
    method RunMigrations(files: seq<string>, faults: seq<Fault>) returns (applied: nat, skipped: nat, ok: bool)
      requires Distinct(files) && |faults| == |files|
      requires forall v :: v in versions <==> v in effects
      modifies this
      ensures forall v :: v in versions <==> v in effects
      ensures effects == old(effects) + Missing(files[..Behind(files, faults, old(versions))], old(versions))
      ensures ok <==> StopFrom(files, faults, old(versions), 0) == |files|
      ensures applied + skipped == StopFrom(files, faults, old(versions), 0)
      ensures applied == |Missing(files[..applied + skipped], old(versions))|
      ensures ok ==> effects == old(effects) + Missing(files, old(versions)) && applied + skipped == |files|
      ensures ok ==> applied == |Missing(files, old(versions))|
      ensures ok ==> forall v :: v in files ==> v in versions
      ensures ok && old(versions) == {} ==> effects == files && applied == |files|
      ensures (forall i :: 0 <= i < |files| ==> faults[i] == NoFault) ==> ok
    {
      applied, skipped := 0, 0;
      ghost var (was, had) := (effects, versions);
      for i := 0 to |files|
        invariant Reached(files, i, was, had, effects, versions, applied, skipped)
        invariant StopFrom(files, faults, had, 0) == StopFrom(files, faults, had, i)
      {
        ReachedNext(files, i, was, had, effects, versions, applied, skipped);
        if faults[i] == Unreadable || faults[i] == BeginFails || faults[i] == LookFails {
          return applied, skipped, false;
        }
        var version := files[i];
        if version in versions {
          skipped := skipped + 1;
          continue;
        }
        if faults[i] == SqlFails || faults[i] == InsertFails || faults[i] == CommitFails {
          return applied, skipped, false;
        }
        versions := versions + {version};
        effects := effects + [version];
        if faults[i] == CommitLost {
          return applied, skipped, false;
        }
        applied := applied + 1;
      }
      assert files[..|files|] == files;
      MissingMembers(files, had);
      InitialRun(files, was, had);
      return applied, skipped, true;
    }
  }

  // What a run has done when it comes to the i-th file.
  ghost predicate Reached(files: seq<string>, i: int, was: seq<string>, had: set<string>,
                          effects: seq<string>, versions: set<string>, applied: int, skipped: int) {
    && 0 <= i <= |files| && applied + skipped == i && applied == |Missing(files[..i], had)|
    && effects == was + Missing(files[..i], had) && forall v :: v in versions <==> v in effects
  }

  lemma ReachedNext(files: seq<string>, i: nat, was: seq<string>, had: set<string>,
                    effects: seq<string>, versions: set<string>, applied: int, skipped: int)
    requires Distinct(files) && i < |files| && (forall v :: v in had <==> v in was)
    requires Reached(files, i, was, had, effects, versions, applied, skipped)
    ensures files[i] in versions <==> files[i] in had
    ensures files[i] in had ==> Reached(files, i + 1, was, had, effects, versions, applied, skipped + 1)
    ensures files[i] !in had ==>
              Reached(files, i + 1, was, had, effects + [files[i]], versions + {files[i]}, applied + 1, skipped)
  {
    StillMissing(files, i, was, had);
    OneMore(files, i, was, had);
  }

  lemma OneMore(files: seq<string>, i: nat, effects: seq<string>, versions: set<string>)
    requires i < |files|
    ensures files[i] in versions ==> Missing(files[..i + 1], versions) == Missing(files[..i], versions)
    ensures files[i] !in versions ==>
              && |Missing(files[..i + 1], versions)| == |Missing(files[..i], versions)| + 1
              && effects + Missing(files[..i + 1], versions) == effects + Missing(files[..i], versions) + [files[i]]
  {
    assert files[..i + 1][..i] == files[..i];
  }

  lemma StillMissing(files: seq<string>, i: nat, effects: seq<string>, versions: set<string>)
    requires Distinct(files) && i < |files|
    requires forall v :: v in versions <==> v in effects
    ensures files[i] in effects + Missing(files[..i], versions) <==> files[i] in versions
  {
    MissingMembers(files[..i], versions);
  }
}
