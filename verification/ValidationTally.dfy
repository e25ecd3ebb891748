/** Running totals of a control's results, and how they add up to its report. */
module ValidationTally {
  import opened JsonCanonical
  import opened Strings
  import opened ValidationModel
  import opened ValidationSpec

  // What the loops over a control's cases keep up to date.
  datatype Running = Running(verdict: Verdict, rules: set<Rule>, counts: Counts, results: seq<CaseResult>)

  ghost predicate Tallies(t: Running) {
    t.verdict == VerdictOf(t.results) && t.rules == RulesOf(t.results) && t.counts == CountsOf(t.results)
  }

  lemma VerdictNext(results: seq<CaseResult>, r: CaseResult)
    ensures VerdictOf(results + [r]) ==
              if Bad(r.outcome) then Failed
              else if r.outcome == Incomplete && VerdictOf(results) != Failed then Unfinished
              else VerdictOf(results)
  {
    var more := results + [r];
    assert r in more;
    assert forall x :: x in more <==> x in results || x == r;
  }

  lemma RulesNext(results: seq<CaseResult>, r: CaseResult)
    ensures RulesOf(results + [r]) == RulesOf(results) + r.rules
  {
    assert forall x :: x in results + [r] <==> x in results || x == r;
    assert r in results + [r];
  }

  lemma CountNext<T>(f: CaseResult -> T, results: seq<CaseResult>, r: CaseResult, x: T)
    ensures multiset(Map(f, results + [r]))[x] == multiset(Map(f, results))[x] + (if f(r) == x then 1 else 0)
  {
    assert Map(f, results + [r]) == Map(f, results) + [f(r)];
  }

  // The counts with one more result.
  function Counted(c: Counts, r: CaseResult): Counts {
    Counts(c.attackCases + (if IsAttack(r) then 1 else 0), c.benignCases + (if IsAttack(r) then 0 else 1),
           c.caughtInTime + (if r.outcome == CaughtInTime then 1 else 0),
           c.caughtLate + (if r.outcome == CaughtLate then 1 else 0),
           c.missed + (if r.outcome == Missed then 1 else 0),
           c.falsePositives + (if r.outcome == FalsePositive then 1 else 0),
           c.clean + (if r.outcome == Clean then 1 else 0),
           c.incomplete + (if r.outcome == Incomplete then 1 else 0))
  }

  lemma CountsNext(results: seq<CaseResult>, r: CaseResult)
    ensures CountsOf(results + [r]) == Counted(CountsOf(results), r)
  {
    CountNext(IsAttack, results, r, true);
    CountNext(IsAttack, results, r, false);
    CountNext(OutcomeOf, results, r, CaughtInTime);
    CountNext(OutcomeOf, results, r, CaughtLate);
    CountNext(OutcomeOf, results, r, Missed);
    CountNext(OutcomeOf, results, r, FalsePositive);
    CountNext(OutcomeOf, results, r, Clean);
    CountNext(OutcomeOf, results, r, Incomplete);
  }

  lemma EmptyTallies()
    ensures Tallies(Running(Validated, {}, Counts(0, 0, 0, 0, 0, 0, 0, 0), []))
  {
    assert Map(IsAttack, []) == [] && Map(OutcomeOf, []) == [];
  }

  lemma TalliesNext(t: Running, r: CaseResult, next: Running)
    requires Tallies(t) && next.results == t.results + [r] && next.rules == t.rules + r.rules
    requires next.counts == Counted(t.counts, r)
    requires next.verdict == if Bad(r.outcome) then Failed
                             else if r.outcome == Incomplete && t.verdict != Failed then Unfinished
                             else t.verdict
    ensures Tallies(next)
  {
    VerdictNext(t.results, r);
    RulesNext(t.results, r);
    CountsNext(t.results, r);
  }

  // Appends a result and updates verdict, rules and counts.
  method Add(t: Running, r: CaseResult) returns (next: Running)
    requires Tallies(t)
    ensures Tallies(next) && next.results == t.results + [r]
  {
    var counts := t.counts;
    var verdict := t.verdict;
    if r.kind == ATTACK {
      counts := counts.(attackCases := counts.attackCases + 1);
    } else {
      counts := counts.(benignCases := counts.benignCases + 1);
    }
    match r.outcome {
      case CaughtInTime =>
        counts := counts.(caughtInTime := counts.caughtInTime + 1);
      case Clean =>
        counts := counts.(clean := counts.clean + 1);
      case CaughtLate =>
        counts := counts.(caughtLate := counts.caughtLate + 1);
        verdict := Failed;
      case Missed =>
        counts := counts.(missed := counts.missed + 1);
        verdict := Failed;
      case FalsePositive =>
        counts := counts.(falsePositives := counts.falsePositives + 1);
        verdict := Failed;
      case Incomplete =>
        counts := counts.(incomplete := counts.incomplete + 1);
        if verdict != Failed {
          verdict := Unfinished;
        }
    }
    next := Running(verdict, t.rules + r.rules, counts, t.results + [r]);
    TalliesNext(t, r, next);
  }

  // Totals do not depend on the order of the results.
  lemma TalliesPermuted(t: Running, sorted: seq<CaseResult>)
    requires Tallies(t) && multiset(sorted) == multiset(t.results)
    ensures Tallies(t.(results := sorted))
  {
    SameMembers(sorted, t.results);
    MapPermutation(IsAttack, sorted, t.results);
    MapPermutation(OutcomeOf, sorted, t.results);
  }

  // ---------- which results were collected ----------

  // The results are those that the table lists for the references.
  ghost predicate Collected(table: map<string, CaseResult>, results: seq<CaseResult>, refs: set<string>) {
    && DistinctKeys(results, ResultKey)
    && (forall r :: r in results ==> r.caseRef in refs && r.caseRef in table && table[r.caseRef] == r)
    && (forall ref :: ref in refs ==> exists r :: r in results && r.caseRef == ref)
  }

  lemma CollectedNext(table: map<string, CaseResult>, results: seq<CaseResult>, refs: set<string>, r: CaseResult)
    requires Collected(table, results, refs) && r.caseRef !in refs && r.caseRef in table && table[r.caseRef] == r
    ensures Collected(table, results + [r], refs + {r.caseRef})
  {
    assert r in results + [r];
    forall ref | ref in refs ensures exists x :: x in results + [r] && x.caseRef == ref {
      var x :| x in results && x.caseRef == ref;
      assert x in results + [r];
    }
    forall i, j | 0 <= i < j < |results| + 1 ensures ResultKey((results + [r])[i]) != ResultKey((results + [r])[j]) {
      assert (results + [r])[i] in results;
    }
  }

  lemma CollectedPermuted(table: map<string, CaseResult>, results: seq<CaseResult>, sorted: seq<CaseResult>,
                          refs: set<string>)
    requires Collected(table, results, refs) && multiset(sorted) == multiset(results)
    ensures Collected(table, sorted, refs)
  {
    SameMembers(sorted, results);
    DistinctPermutation(results, sorted, ResultKey);
    forall ref | ref in refs ensures exists r :: r in sorted && r.caseRef == ref {
      var r :| r in results && r.caseRef == ref;
      assert r in sorted;
    }
  }

  // Collected in order, they are the table read in the order of its references.
  lemma CollectedInOrder(table: map<string, CaseResult>, results: seq<CaseResult>)
    requires Collected(table, results, table.Keys) && Ordered(results, ResultKey)
    ensures |results| == |Sorted(table.Keys)|
    ensures forall i :: 0 <= i < |results| ==>
              results[i].caseRef == Sorted(table.Keys)[i] && results[i] == table[results[i].caseRef]
  {
    OrderedKeys(results, ResultKey, table.Keys);
    assert forall i :: 0 <= i < |results| ==> Map(ResultKey, results)[i] == results[i].caseRef;
    forall i | 0 <= i < |results| ensures results[i] == table[results[i].caseRef] {
      assert results[i] in results;
    }
  }

  ghost function Table(e: Evidence, control: Control): (m: map<string, CaseResult>)
    requires Coherent(e)
    ensures m.Keys == Refs(e)
  {
    map ref | ref in Refs(e) :: ResultFor(e, control, ref)
  }

  lemma ReportIsTally(e: Evidence, control: Control)
    requires Coherent(e)
    ensures ControlReport(e, control) == Tally(control, ControlReport(e, control).cases)
  {
  }

  // The report's cases, as the table read in the order of its references.
  lemma ReportReadsTable(e: Evidence, control: Control, table: map<string, CaseResult>)
    requires Coherent(e) && table == Table(e, control)
    ensures |ControlReport(e, control).cases| == |Sorted(table.Keys)|
    ensures forall i :: 0 <= i < |Sorted(table.Keys)| ==>
              Sorted(table.Keys)[i] in table && ControlReport(e, control).cases[i] == table[Sorted(table.Keys)[i]]
  {
    var refs := Sorted(Refs(e));
    var cases := ControlReport(e, control).cases;
    forall i | 0 <= i < |refs| ensures refs[i] in table && cases[i] == table[refs[i]] {
      RowReadsTable(e, control, table, refs, i);
    }
  }

  lemma RowReadsTable(e: Evidence, control: Control, table: map<string, CaseResult>, refs: seq<string>, i: nat)
    requires Coherent(e) && table == Table(e, control) && refs == Sorted(Refs(e)) && i < |refs|
    ensures refs[i] in table && i < |ControlReport(e, control).cases|
    ensures ControlReport(e, control).cases[i] == table[refs[i]]
  {
    InRefs(e, refs, i);
  }

  lemma TableOrder(e: Evidence, control: Control, table: map<string, CaseResult>, results: seq<CaseResult>)
    requires Coherent(e) && table == Table(e, control)
    requires Collected(table, results, table.Keys) && Ordered(results, ResultKey)
    ensures results == ControlReport(e, control).cases
  {
    CollectedInOrder(table, results);
    ReportReadsTable(e, control, table);
  }

  // Results collected from the whole table, in order and with their totals, are
  // the control's report.
  lemma CollectedReport(e: Evidence, control: Control, t: Running, report: ControlResult)
    requires Coherent(e) && Tallies(t)
    requires Collected(Table(e, control), t.results, Refs(e)) && Ordered(t.results, ResultKey)
    requires report == Tally(control, t.results)
    ensures report == ControlReport(e, control)
  {
    TableOrder(e, control, Table(e, control), t.results);
    ReportIsTally(e, control);
  }
}
