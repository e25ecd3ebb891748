/**
 The in-process cache.  Reading takes three steps, each atomic under the lock but
 not together: look the item up, check its expiry, and delete it if it expired.
 Other calls may run between them.
 */
module MemoryCache {
  import opened Bytes

  // decodable: whether the stored bytes decode into what the caller asks for.
  datatype Item = Item(data: string, decodable: bool, expires: Option<nat>)

  predicate Expired(item: Item, now: nat) {
    item.expires.Some? && now > item.expires.value
  }

  datatype Outcome = Hit(data: string) | Miss | DecodeError

  // ---------- the system ----------

  // A read between its steps: what it found, what the last write was at that
  // moment, and whether it has decided to delete the key.
  datatype Read = Read(key: string, found: Option<Item>, latest: Option<Item>, deleting: bool)

  datatype Answer = Answer(key: string, outcome: Outcome, latest: Option<Item>, at: nat)

  // latest: the items as written and deleted by callers, without the deletions
  // that reads make.  dropped: the keys that such a deletion took away since
  // their last write.
  datatype State = State(
    items: map<string, Item>, latest: map<string, Item>, dropped: set<string>,
    lookups: map<nat, Read>, answers: seq<Answer>, now: nat)

  datatype Event =
    | Tick(elapsed: nat)
    | Set(key: string, data: string, decodable: bool, ttl: nat)
    | Delete(keys: set<string>)
    | LookUp(r: nat, key: string)
    | Check(r: nat)
    | DeleteExpired(r: nat)

  function Find(m: map<string, Item>, key: string): Option<Item> {
    if key in m then Some(m[key]) else None
  }

  predicate Enabled(s: State, e: Event) {
    match e
    case Tick(elapsed) => true
    case Set(key, data, decodable, ttl) => true
    case Delete(keys) => true
    case LookUp(r, key) => r !in s.lookups
    case Check(r) => r in s.lookups && !s.lookups[r].deleting
    case DeleteExpired(r) => r in s.lookups && s.lookups[r].deleting
  }

  function NewItem(data: string, decodable: bool, ttl: nat, now: nat): Item {
    Item(data, decodable, if ttl > 0 then Some(now + ttl) else None)
  }

  function OutcomeOf(found: Option<Item>, now: nat): Outcome {
    if found.None? || Expired(found.value, now) then Miss
    else if found.value.decodable then Hit(found.value.data)
    else DecodeError
  }

  function Step(s: State, e: Event): State
    requires Enabled(s, e)
  {
    match e
    case Tick(elapsed) => s.(now := s.now + elapsed)
    case Set(key, data, decodable, ttl) =>
      var item := NewItem(data, decodable, ttl, s.now);
      s.(items := s.items[key := item], latest := s.latest[key := item], dropped := s.dropped - {key})
    case Delete(keys) =>
      s.(items := s.items - keys, latest := s.latest - keys, dropped := s.dropped - keys)
    case LookUp(r, key) =>
      s.(lookups := s.lookups[r := Read(key, Find(s.items, key), Find(s.latest, key), false)])
    case Check(r) =>
      var x := s.lookups[r];
      if x.found.Some? && Expired(x.found.value, s.now) then s.(lookups := s.lookups[r := x.(deleting := true)])
      else s.(lookups := s.lookups - {r},
              answers := s.answers + [Answer(x.key, OutcomeOf(x.found, s.now), x.latest, s.now)])
    case DeleteExpired(r) =>
      var x := s.lookups[r];
      s.(items := s.items - {x.key}, dropped := if x.key in s.latest then s.dropped + {x.key} else s.dropped,
         lookups := s.lookups - {r}, answers := s.answers + [Answer(x.key, Miss, x.latest, s.now)])
  }

  function Run(s: State, events: seq<Event>): Option<State>
    decreases |events|
  {
    if events == [] then Some(s)
    else if !Enabled(s, events[0]) then None
    else Run(Step(s, events[0]), events[1..])
  }

  const START := State(map[], map[], {}, map[], [], 0)

  // ---------- the invariant ----------

  // The stored map is the last-write map without the dropped keys.
  predicate Stored(s: State) {
    s.items == s.latest - s.dropped && s.dropped <= s.latest.Keys
  }

  predicate Faithful(a: Answer) {
    match a.outcome
    case Hit(data) =>
      && a.latest.Some? && a.latest.value.data == data && a.latest.value.decodable
      && !Expired(a.latest.value, a.at)
    case DecodeError => a.latest.Some? && !a.latest.value.decodable && !Expired(a.latest.value, a.at)
    case Miss => true
  }

  ghost predicate Inv(s: State) {
    && Stored(s)
    && (forall r :: r in s.lookups && s.lookups[r].found.Some? ==> s.lookups[r].found == s.lookups[r].latest)
    && (forall r :: r in s.lookups && s.lookups[r].deleting ==> ReadExpired(s, r))
    && (forall a :: a in s.answers ==> Faithful(a))
  }

  predicate ReadExpired(s: State, r: nat)
    requires r in s.lookups
  {
    s.lookups[r].found.Some? && Expired(s.lookups[r].found.value, s.now)
  }

  lemma StepKeeps(s: State, e: Event)
    requires Inv(s) && Enabled(s, e)
    ensures Inv(Step(s, e))
  {
    var t := Step(s, e);
    StoredKept(s, e);
    forall r | r in t.lookups && t.lookups[r].deleting ensures ReadExpired(t, r) {
      assert r in s.lookups && s.lookups[r].deleting ==> ReadExpired(s, r);
    }
    forall a | a in t.answers ensures Faithful(a) {
      if a !in s.answers {
        assert a == t.answers[|t.answers| - 1];
      }
    }
  }

  lemma StoredKept(s: State, e: Event)
    requires Stored(s) && Enabled(s, e)
    ensures Stored(Step(s, e))
  {
    var t := Step(s, e);
    assert t.items.Keys == t.latest.Keys - t.dropped;
    assert t.items == t.latest - t.dropped;
  }

  lemma {:induction false} RunKeeps(s: State, events: seq<Event>)
    requires Inv(s) && Run(s, events).Some?
    ensures Inv(Run(s, events).value)
    decreases |events|
  {
    if events != [] {
      StepKeeps(s, events[0]);
      RunKeeps(Step(s, events[0]), events[1..]);
    }
  }

  // ---------- main results ----------

  // Under any interleaving: the stored map is the last-write map without the keys
  // that a read's deletion dropped, and every hit returns the value that was the
  // latest when it was looked up, not deleted and not expired.
  lemma CacheSafe(events: seq<Event>)
    requires Run(START, events).Some?
    ensures var t := Run(START, events).value;
            && (forall k :: k in t.items <==> k in t.latest && k !in t.dropped)
            && (forall k :: k in t.items ==> t.items[k] == t.latest[k])
            && forall a :: a in t.answers && a.outcome.Hit? ==>
                 a.latest.Some? && a.latest.value.data == a.outcome.data && !Expired(a.latest.value, a.at)
  {
    RunKeeps(START, events);
    var t := Run(START, events).value;
    forall a | a in t.answers ensures Faithful(a) {
    }
  }

  lemma RunFirst(s: State, e: Event, rest: seq<Event>)
    requires Enabled(s, e)
    ensures Run(s, [e] + rest) == Run(Step(s, e), rest)
  {
    assert ([e] + rest)[1..] == rest;
  }

  // A read that looked up an expired item and has yet to delete it takes away
  // nothing but its key, never the last write of it from the record, and a value
  // that has not expired only if it was written after the look-up.
  lemma LateDelete(s: State, r: nat)
    requires Inv(s) && r in s.lookups && s.lookups[r].deleting
    ensures var (key, t) := (s.lookups[r].key, Step(s, DeleteExpired(r)));
            && t.latest == s.latest && t.items == s.items - {key}
            && (FreshLost(t, key) <==> key in s.latest && !Expired(s.latest[key], s.now))
            && (FreshLost(t, key) ==> Find(s.latest, key) != s.lookups[r].found)
  {
    assert ReadExpired(s, r);
  }

  // It does happen: a fresh value is set between the look-up and the deletion.
  lemma FreshValueLost()
    ensures exists events :: Run(START, events).Some? && FreshLost(Run(START, events).value, "k")
  {
    var (e1, e2, e3, e4, e5, e6) :=
      (Set("k", "old", true, 1), Tick(2), LookUp(0, "k"), Check(0), Set("k", "new", true, 0), DeleteExpired(0));
    var s1 := Step(START, e1);
    var s2 := Step(s1, e2);
    var s3 := Step(s2, e3);
    var s4 := Step(s3, e4);
    var s5 := Step(s4, e5);
    RunFirst(START, e1, [e2] + ([e3] + ([e4] + ([e5] + ([e6] + [])))));
    RunFirst(s1, e2, [e3] + ([e4] + ([e5] + ([e6] + []))));
    RunFirst(s2, e3, [e4] + ([e5] + ([e6] + [])));
    RunFirst(s3, e4, [e5] + ([e6] + []));
    RunFirst(s4, e5, [e6] + []);
    RunFirst(s5, e6, []);
    assert Run(START, [e1] + ([e2] + ([e3] + ([e4] + ([e5] + ([e6] + [])))))).Some?;
  }

  // ---------- when a fresh value can be lost ----------

  // The last write of the key has not expired, and the cache no longer has it.
  predicate FreshLost(s: State, key: string) {
    key in s.latest && !Expired(s.latest[key], s.now) && key !in s.items
  }

  // A read found an item of the key that expires before the key's last write does.
  predicate Threatens(s: State, r: nat, key: string)
    requires r in s.lookups && key in s.latest
  {
    var (found, last) := (s.lookups[r].found, s.latest[key].expires);
    && s.lookups[r].key == key && found.Some? && found.value.expires.Some?
    && (last.None? || found.value.expires.value < last.value)
  }

  ghost predicate Threatened(s: State, key: string)
    requires key in s.latest
  {
    exists r :: r in s.lookups && Threatens(s, r, key)
  }

  predicate Writes(e: Event, key: string) {
    (e.Set? && e.key == key) || (e.Delete? && key in e.keys)
  }

  // Some continuation that neither sets nor deletes the key loses its value while
  // it is fresh.
  ghost predicate MayLoseFresh(s: State, key: string) {
    exists events :: (forall e :: e in events ==> !Writes(e, key))
                     && Run(s, events).Some? && FreshLost(Run(s, events).value, key)
  }

  ghost predicate Safe(s: State, key: string) {
    key in s.latest && (Expired(s.latest[key], s.now) || (key in s.items && !Threatened(s, key)))
  }

  lemma SafeStep(s: State, e: Event, key: string)
    requires Inv(s) && Enabled(s, e) && Safe(s, key) && !Writes(e, key)
    ensures Safe(Step(s, e), key) && Step(s, e).latest[key] == s.latest[key]
  {
    var t := Step(s, e);
    if !Expired(t.latest[key], t.now) {
      forall r | r in t.lookups ensures !Threatens(t, r, key) {
        assert r in s.lookups ==> !Threatens(s, r, key);
      }
      if e.DeleteExpired? {
        assert ReadExpired(s, e.r) && !Threatens(s, e.r, key);
      }
    }
  }

  lemma {:induction false} SafeRun(s: State, events: seq<Event>, key: string)
    requires Inv(s) && Safe(s, key) && Run(s, events).Some? && forall e :: e in events ==> !Writes(e, key)
    ensures Safe(Run(s, events).value, key)
    decreases |events|
  {
    if events != [] {
      SafeStep(s, events[0], key);
      StepKeeps(s, events[0]);
      SafeRun(Step(s, events[0]), events[1..], key);
    }
  }

  // Time passes until the found item has expired; the read notices and deletes.
  lemma ThreatIsReal(s: State, r: nat, key: string)
    requires Inv(s) && key in s.items && !Expired(s.items[key], s.now) && r in s.lookups && Threatens(s, r, key)
    ensures MayLoseFresh(s, key)
  {
    var expiry := s.lookups[r].found.value.expires.value;
    var e1 := Tick(if s.now > expiry then 0 else expiry + 1 - s.now);
    var s1 := Step(s, e1);
    StepKeeps(s, e1);
    var checks := if s.lookups[r].deleting then [] else [Check(r)];
    var s2 := if s.lookups[r].deleting then s1 else Step(s1, Check(r));
    if checks != [] {
      StepKeeps(s1, Check(r));
      RunFirst(s1, Check(r), [DeleteExpired(r)] + []);
    }
    LateDelete(s2, r);
    RunFirst(s2, DeleteExpired(r), []);
    var rest := checks + ([DeleteExpired(r)] + []);
    assert checks == [] ==> rest == [DeleteExpired(r)] + [];
    RunFirst(s, e1, rest);
    var events := [e1] + rest;
    assert Run(s, events) == Some(Step(s2, DeleteExpired(r)));
  }

  // A fresh value can be lost without being overwritten or deleted by a caller
  // exactly when a read in progress holds an older item of its key that expires
  // earlier.
  lemma FreshLossExactly(s: State, key: string)
    requires Inv(s) && key in s.items && !Expired(s.items[key], s.now)
    ensures key in s.latest
    ensures MayLoseFresh(s, key) <==> Threatened(s, key)
  {
    assert Stored(s);
    if Threatened(s, key) {
      var r :| r in s.lookups && Threatens(s, r, key);
      ThreatIsReal(s, r, key);
    } else {
      forall events | Run(s, events).Some? && (forall e :: e in events ==> !Writes(e, key))
        ensures !FreshLost(Run(s, events).value, key)
      {
        SafeRun(s, events, key);
      }
    }
  }

  // ---------- the cache ----------

  class Memory {
    var items: map<string, Item>

    constructor ()
      ensures items == map[]
    {
      items := map[];
    }

    method Delete(keys: seq<string>)
      modifies this
      ensures items == old(items) - (set k | k in keys)
    {
      for i := 0 to |keys|
        invariant items == old(items) - (set k | k in keys[..i])
      {
        assert keys[..i + 1] == keys[..i] + [keys[i]];
        items := items - {keys[i]};
      }
      assert keys[..|keys|] == keys;
    }

    method SetJSON(key: string, data: string, decodable: bool, ttl: int, now: nat)
      modifies this
      ensures items == old(items)[key := NewItem(data, decodable, if ttl > 0 then ttl else 0, now)]
    {
      var item := Item(data, decodable, None);
      if ttl > 0 {
        item := item.(expires := Some(now + ttl));
      }
      items := items[key := item];
    }

    // A read that nothing else runs between.
    method GetJSON(key: string, now: nat) returns (outcome: Outcome)
      modifies this
      ensures outcome == OutcomeOf(Find(old(items), key), now)
      ensures items == if key in old(items) && Expired(old(items)[key], now) then old(items) - {key} else old(items)
    {
      var item := Find(items, key);
      if item.None? || (item.value.expires.Some? && now > item.value.expires.value) {
        if item.Some? {
          Delete([key]);
          assert (set k | k in [key]) == {key};
        }
        return Miss;
      }
      if !item.value.decodable {
        return DecodeError;
      }
      return Hit(item.value.data);
    }
  }

  // The steps of an uninterrupted read.
  function ReadEvents(s: State, r: nat, key: string): seq<Event> {
    [LookUp(r, key)]
    + ([Check(r)] + (if key in s.items && Expired(s.items[key], s.now) then [DeleteExpired(r)] + [] else []))
  }

  // An uninterrupted read answers like GetJSON, and drops a key only when its
  // latest value expired.
  lemma ReadIsRun(s: State, r: nat, key: string)
    requires Inv(s) && r !in s.lookups
    ensures var t := Run(s, ReadEvents(s, r, key));
            && t.Some? && t.value.latest == s.latest && |t.value.answers| == |s.answers| + 1
            && t.value.answers[|s.answers|].outcome == OutcomeOf(Find(s.items, key), s.now)
            && t.value.items == (if key in s.items && Expired(s.items[key], s.now) then s.items - {key} else s.items)
            && forall k :: k in t.value.dropped && k !in s.dropped ==> k in s.latest && Expired(s.latest[k], s.now)
  {
    var s1 := Step(s, LookUp(r, key));
    var s2 := Step(s1, Check(r));
    if key in s.items && Expired(s.items[key], s.now) {
      RunFirst(s, LookUp(r, key), [Check(r)] + ([DeleteExpired(r)] + []));
      RunFirst(s1, Check(r), [DeleteExpired(r)] + []);
      RunFirst(s2, DeleteExpired(r), []);
    } else {
      RunFirst(s, LookUp(r, key), [Check(r)] + []);
      RunFirst(s1, Check(r), []);
    }
  }

  // ---------- reading what was set ----------

  // An event that neither writes the key nor completes a read that deletes it.
  predicate Leaves(s: State, e: Event, key: string) {
    !Writes(e, key) && (e.DeleteExpired? && e.r in s.lookups ==> s.lookups[e.r].key != key)
  }

  predicate Undisturbed(s: State, events: seq<Event>, key: string)
    decreases |events|
  {
    events != [] ==>
      Enabled(s, events[0]) && Leaves(s, events[0], key) && Undisturbed(Step(s, events[0]), events[1..], key)
  }

  lemma {:induction false} ItemStays(s: State, events: seq<Event>, key: string)
    requires Inv(s) && key in s.items && Undisturbed(s, events, key)
    ensures Run(s, events).Some? && Inv(Run(s, events).value)
    ensures Find(Run(s, events).value.items, key) == Some(s.items[key])
    decreases |events|
  {
    if events != [] {
      StepKeeps(s, events[0]);
      ItemStays(Step(s, events[0]), events[1..], key);
    }
  }

  // A value that was set is what a later read answers, whatever else ran in
  // between, until its lifetime is over; from then on the read misses.
  lemma ReadAfterSet(s: State, data: string, ttl: nat, events: seq<Event>, r: nat, key: string)
    requires Inv(s) && Undisturbed(Step(s, Set(key, data, true, ttl)), events, key)
    ensures var stored := Step(s, Set(key, data, true, ttl));
            Run(stored, events).Some? &&
            var t := Run(stored, events).value;
            r !in t.lookups ==>
              && Run(t, ReadEvents(t, r, key)).Some?
              && var answers := Run(t, ReadEvents(t, r, key)).value.answers;
                 && |answers| == |t.answers| + 1
                 && answers[|t.answers|].outcome == if ttl == 0 || t.now <= s.now + ttl then Hit(data) else Miss
  {
    var stored := Step(s, Set(key, data, true, ttl));
    StepKeeps(s, Set(key, data, true, ttl));
    ItemStays(stored, events, key);
    var t := Run(stored, events).value;
    if r !in t.lookups {
      ReadIsRun(t, r, key);
    }
  }
}
