/** The recency order of the cache under concurrent calls: cached keys stand in the order in
    which the steps of any thread last touched them. */
module FlightOrder {
  import opened LruOrder
  import opened Flights

  /** The step moves the key to the front: a lookup or a recheck that finds it unexpired, or
      a store. */
  ghost predicate Touches(s: State, a: Action, key: string)
    requires Enabled(s, a)
  {
    || ((a.LookUp? || a.Recheck?) && s.calls[a.t].key == key && Get(s.order, key, s.now).1.Some?)
    || (a.Store? && s.calls[a.t].key == key)
  }

  /** The position in the run of the key's last touch, or -1. */
  ghost function LastTouch(c: Config, run: seq<Action>, key: string): (i: int)
    requires Legal(c, run)
    ensures -1 <= i < |run|
    decreases |run|
  {
    if run == [] then -1
    else if Touches(Exec(c, run[..|run| - 1]), run[|run| - 1], key) then |run| - 1
    else LastTouch(c, run[..|run| - 1], key)
  }

  ghost predicate ByLastTouch(c: Config, run: seq<Action>, order: Order)
    requires Legal(c, run)
  {
    && (forall i :: 0 <= i < |order| ==> 0 <= LastTouch(c, run, order[i].key))
    && forall i, j :: 0 <= i < j < |order| ==> LastTouch(c, run, order[i].key) > LastTouch(c, run, order[j].key)
  }

  lemma LastTouchStays(c: Config, run: seq<Action>, key: string)
    requires run != [] && Legal(c, run) && !Touches(Exec(c, run[..|run| - 1]), run[|run| - 1], key)
    ensures LastTouch(c, run, key) == LastTouch(c, run[..|run| - 1], key)
  {
  }

  /** What is left of an ordered cache is ordered, if the step touched none of it. */
  lemma UntouchedStaysOrdered(c: Config, run: seq<Action>, order: Order)
    requires run != [] && Legal(c, run) && ByLastTouch(c, run[..|run| - 1], order)
    requires forall i :: 0 <= i < |order| ==> !Touches(Exec(c, run[..|run| - 1]), run[|run| - 1], order[i].key)
    ensures ByLastTouch(c, run, order)
    ensures forall i :: 0 <= i < |order| ==> LastTouch(c, run, order[i].key) < |run| - 1
  {
    forall i | 0 <= i < |order|
      ensures LastTouch(c, run, order[i].key) == LastTouch(c, run[..|run| - 1], order[i].key)
    {
      LastTouchStays(c, run, order[i].key);
    }
  }

  lemma DroppedStaysOrdered(c: Config, run: seq<Action>, order: Order, key: string)
    requires Legal(c, run) && ByLastTouch(c, run, order) && Distinct(order)
    ensures ByLastTouch(c, run, Without(order, key))
    ensures forall i :: 0 <= i < |Without(order, key)| ==> Without(order, key)[i].key != key
  {
    LookupWithout(order, key, key);
    if Lookup(order, key).Some? {
      var i := IndexOf(order, key);
      WithoutAt(order, i);
      CutStaysOrdered(c, run, order, i);
    } else {
      WithoutAbsent(order, key);
    }
  }

  lemma CutStaysOrdered(c: Config, run: seq<Action>, order: Order, i: nat)
    requires Legal(c, run) && ByLastTouch(c, run, order) && i < |order|
    ensures ByLastTouch(c, run, order[..i] + order[i + 1..])
  {
    var rest := order[..i] + order[i + 1..];
    forall k | 0 <= k < |rest| ensures rest[k] == order[if k < i then k else k + 1] {
    }
  }

  lemma PrefixStaysOrdered(c: Config, run: seq<Action>, order: Order, n: nat)
    requires Legal(c, run) && ByLastTouch(c, run, order)
    ensures ByLastTouch(c, run, First(order, n))
  {
  }

  /** The touched key goes in front of what is left. */
  lemma FrontIsLatest(c: Config, run: seq<Action>, e: Entry, rest: Order)
    requires run != [] && Legal(c, run) && Touches(Exec(c, run[..|run| - 1]), run[|run| - 1], e.key)
    requires ByLastTouch(c, run, rest)
    requires forall i :: 0 <= i < |rest| ==> LastTouch(c, run, rest[i].key) < |run| - 1
    ensures ByLastTouch(c, run, [e] + rest)
  {
  }

  /** Over every interleaving of any number of calls, the cache is ordered by last touch, so
      what an eviction takes is what was touched least recently. */
  lemma {:induction false} CacheIsByLastTouch(c: Config, run: seq<Action>)
    requires Legal(c, run)
    ensures ByLastTouch(c, run, Exec(c, run).order)
    decreases |run|
  {
    if run != [] {
      var init, a := run[..|run| - 1], run[|run| - 1];
      var s := Exec(c, init);
      CacheIsByLastTouch(c, init);
      Reachable(c, init);
      if a.LookUp? || a.Recheck? || a.Store? {
        var key := s.calls[a.t].key;
        DroppedStaysOrdered(c, init, s.order, key);
        UntouchedStaysOrdered(c, run, Without(s.order, key));
        TouchedStep(c, run);
      } else {
        UntouchedStaysOrdered(c, run, s.order);
      }
    }
  }

  /** The entries of the keys the step is not about. */
  ghost function Others(c: Config, run: seq<Action>): Order
    requires run != [] && Legal(c, run) && (run[|run| - 1].LookUp? || run[|run| - 1].Recheck? || run[|run| - 1].Store?)
  {
    var s := Exec(c, run[..|run| - 1]);
    Without(s.order, s.calls[run[|run| - 1].t].key)
  }

  ghost predicate OthersOrdered(c: Config, run: seq<Action>)
    requires run != [] && Legal(c, run) && (run[|run| - 1].LookUp? || run[|run| - 1].Recheck? || run[|run| - 1].Store?)
  {
    var rest := Others(c, run);
    ByLastTouch(c, run, rest) && forall i :: 0 <= i < |rest| ==> LastTouch(c, run, rest[i].key) < |run| - 1
  }

  lemma TouchedStep(c: Config, run: seq<Action>)
    requires run != [] && Legal(c, run) && (run[|run| - 1].LookUp? || run[|run| - 1].Recheck? || run[|run| - 1].Store?)
    requires OthersOrdered(c, run)
    ensures ByLastTouch(c, run, Exec(c, run).order)
  {
    if run[|run| - 1].Store? {
      StoreStep(c, run);
    } else {
      LookUpStep(c, run);
    }
  }

  lemma StoreStep(c: Config, run: seq<Action>)
    requires run != [] && Legal(c, run) && run[|run| - 1].Store? && OthersOrdered(c, run)
    ensures ByLastTouch(c, run, Exec(c, run).order)
  {
    var a, s := run[|run| - 1], Exec(c, run[..|run| - 1]);
    var entry := Entry(s.calls[a.t].key, s.calls[a.t].val, s.now + c.ttl);
    FrontIsLatest(c, run, entry, Others(c, run));
    PrefixStaysOrdered(c, run, [entry] + Others(c, run), c.max);
    if Lookup(s.order, entry.key).None? {
      WithoutAbsent(s.order, entry.key);
    }
  }

  lemma LookUpStep(c: Config, run: seq<Action>)
    requires run != [] && Legal(c, run) && (run[|run| - 1].LookUp? || run[|run| - 1].Recheck?) && OthersOrdered(c, run)
    ensures ByLastTouch(c, run, Exec(c, run).order)
  {
    var a, s := run[|run| - 1], Exec(c, run[..|run| - 1]);
    var key := s.calls[a.t].key;
    var found := Lookup(s.order, key);
    if found.None? {
      WithoutAbsent(s.order, key);
    } else if s.now <= found.value.expires {
      FrontIsLatest(c, run, found.value, Others(c, run));
    }
  }

  lemma ShiftedOrGone(entry: Entry, order: Order, max: nat, j: nat)
    requires j < |order|
    ensures var after := First([entry] + order, max); j + 1 < |after| ==> after[j + 1] == order[j]
  {
  }

  lemma EvictorIsNew(order: Order, key: string, val: string, now: int, ttl: int, max: nat, gone: string)
    requires Distinct(order) && 0 < max && |order| <= max && Lookup(order, gone).Some?
    requires Lookup(Put(order, key, val, now, ttl, max), gone).None?
    ensures gone != key && Lookup(order, key).None?
  {
    PutLooksUp(order, key, val, key, now, ttl, max);
    LookupWithout(order, key, gone);
    assert ([Entry(key, val, now + ttl)] + Without(order, key))[1..] == Without(order, key);
  }

  /** A store evicts from behind every key it keeps. */
  lemma EvictsFromBehind(order: Order, key: string, val: string, now: int, ttl: int, max: nat,
                         gone: string, kept: string)
    returns (i: nat, j: nat)
    requires Distinct(order) && |order| <= max && Lookup(order, gone).Some? && kept != key
    requires var after := Put(order, key, val, now, ttl, max);
             Lookup(after, gone).None? && Lookup(after, kept).Some?
    ensures gone != key && i < j < |order| && order[i].key == kept && order[j].key == gone
  {
    var entry, after := Entry(key, val, now + ttl), Put(order, key, val, now, ttl, max);
    var at := IndexOf(after, kept);
    EvictorIsNew(order, key, val, now, ttl, max, gone);
    assert after == First([entry] + order, max);
    assert at > 0;
    i := at - 1;
    j := IndexOf(order, gone);
    ShiftedOrGone(entry, order, max, i);
    ShiftedOrGone(entry, order, max, j);
  }

  /** A key that a store evicts was touched before every key that stays. */
  lemma EvictedIsLeastRecent(c: Config, run: seq<Action>, gone: string, kept: string)
    requires run != [] && Legal(c, run) && run[|run| - 1].Store?
    requires var before, after := Exec(c, run[..|run| - 1]), Exec(c, run);
             Cached(before, gone) && !Cached(after, gone) && Cached(after, kept)
    ensures LastTouch(c, run, gone) < LastTouch(c, run, kept)
  {
    var init, a := run[..|run| - 1], run[|run| - 1];
    var s := Exec(c, init);
    var key, val := s.calls[a.t].key, s.calls[a.t].val;
    Reachable(c, init);
    PutLooksUp(s.order, key, val, key, s.now, c.ttl, c.max);
    LastTouchStays(c, run, gone);
    if kept != key {
      var i, j := EvictsFromBehind(s.order, key, val, s.now, c.ttl, c.max, gone, kept);
      CacheIsByLastTouch(c, init);
      LastTouchStays(c, run, kept);
    }
  }

  // ---- which keys those are ----

  /** The key a step is about. */
  ghost function KeyOf(s: State, a: Action): string
    requires Enabled(s, a) && (a.LookUp? || a.Recheck? || a.Store?)
  {
    s.calls[a.t].key
  }

  /** The touched keys, the last touched first. */
  ghost function TouchedKeys(c: Config, run: seq<Action>): seq<string>
    requires Legal(c, run)
    decreases |run|
  {
    if run == [] then []
    else
      var init, a := run[..|run| - 1], run[|run| - 1];
      var s, before := Exec(c, init), TouchedKeys(c, init);
      if (a.LookUp? || a.Recheck? || a.Store?) && Touches(s, a, KeyOf(s, a)) then
        [KeyOf(s, a)] + Drop(before, KeyOf(s, a))
      else before
  }

  /** The step finds its key expired, and drops it. */
  ghost predicate DropsExpired(s: State, a: Action)
    requires Enabled(s, a)
  {
    (a.LookUp? || a.Recheck?) && Cached(s, s.calls[a.t].key) && !Touches(s, a, s.calls[a.t].key)
  }

  ghost predicate NothingExpires(c: Config, run: seq<Action>)
    requires Legal(c, run)
    decreases |run|
  {
    run == [] || (NothingExpires(c, run[..|run| - 1]) && !DropsExpired(Exec(c, run[..|run| - 1]), run[|run| - 1]))
  }

  lemma {:induction false} TouchedKeysNoRepeats(c: Config, run: seq<Action>)
    requires Legal(c, run)
    ensures NoRepeats(TouchedKeys(c, run))
    decreases |run|
  {
    if run != [] {
      var init, a := run[..|run| - 1], run[|run| - 1];
      var before := TouchedKeys(c, init);
      TouchedKeysNoRepeats(c, init);
      if a.LookUp? || a.Recheck? || a.Store? {
        var k := KeyOf(Exec(c, init), a);
        DropKeepsNoRepeats(before, k);
        DropElements(before, k);
        NoRepeatsCons(k, Drop(before, k));
      }
    }
  }

  /** Every key touched in the run is listed, and no other. */
  lemma {:induction false} TouchedKeysAreTouched(c: Config, run: seq<Action>, key: string)
    requires Legal(c, run)
    ensures key in TouchedKeys(c, run) <==> LastTouch(c, run, key) >= 0
    decreases |run|
  {
    if run != [] {
      var init, a := run[..|run| - 1], run[|run| - 1];
      TouchedKeysAreTouched(c, init, key);
      if a.LookUp? || a.Recheck? || a.Store? {
        DropElements(TouchedKeys(c, init), KeyOf(Exec(c, init), a));
      }
    }
  }

  /** A touch brings the key to the front and drops it further back, cap or no cap. */
  lemma TouchMovesKey(order: Order, keys: seq<string>, e: Entry, max: nat)
    requires NoRepeats(keys) && Keys(order) == First(keys, max) && Distinct(order)
    ensures Keys(First([e] + Without(order, e.key), max)) == First([e.key] + Drop(keys, e.key), max)
  {
    var rest := Without(order, e.key);
    KeysWithout(order, e.key);
    assert Keys([e] + rest) == [e.key] + Keys(rest);
    assert Keys(First([e] + rest, max)) == First(Keys([e] + rest), max);
    if max > 0 {
      DropFirst(keys, e.key, max);
      FirstCons(e.key, Drop(First(keys, max), e.key), max);
      FirstCons(e.key, Drop(keys, e.key), max);
    }
  }

  /** What a touching step leaves, in one form for hits and stores. */
  lemma TouchResult(c: Config, s: State, a: Action) returns (e: Entry)
    requires Inv(c, s) && Enabled(s, a) && (a.LookUp? || a.Recheck? || a.Store?) && Touches(s, a, KeyOf(s, a))
    ensures e.key == KeyOf(s, a) && Step(c, s, a).order == First([e] + Without(s.order, e.key), c.max)
  {
    var key := KeyOf(s, a);
    var found := Lookup(s.order, key);
    if found.Some? {
      var i := IndexOf(s.order, key);
      WithoutAt(s.order, i);
    } else {
      WithoutAbsent(s.order, key);
    }
    e := if a.Store? then Entry(key, s.calls[a.t].val, s.now + c.ttl) else found.value;
  }

  lemma QuietStep(c: Config, s: State, a: Action)
    requires Enabled(s, a) && !DropsExpired(s, a)
    requires a.LookUp? || a.Recheck? || a.Store? ==> !Touches(s, a, KeyOf(s, a))
    ensures Step(c, s, a).order == s.order
  {
  }

  /** Over every interleaving in which no lookup drops an expired entry, the cached keys are
      the last touched ones, as many as the cap allows. */
  lemma {:induction false} CacheHoldsLastTouched(c: Config, run: seq<Action>)
    requires Legal(c, run) && NothingExpires(c, run)
    ensures Keys(Exec(c, run).order) == First(TouchedKeys(c, run), c.max)
    decreases |run|
  {
    if run != [] {
      var init, a := run[..|run| - 1], run[|run| - 1];
      var s := Exec(c, init);
      CacheHoldsLastTouched(c, init);
      Reachable(c, init);
      if (a.LookUp? || a.Recheck? || a.Store?) && Touches(s, a, KeyOf(s, a)) {
        var e := TouchResult(c, s, a);
        TouchedKeysNoRepeats(c, init);
        TouchMovesKey(s.order, TouchedKeys(c, init), e, c.max);
      } else {
        QuietStep(c, s, a);
      }
    }
  }
}
