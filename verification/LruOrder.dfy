/** The abstract value of the result cache: its entries, most recently used first.
    `Get`, `Put` and `Do` say what each locked cache operation does to that value. */
module LruOrder {
  import opened Outcomes

  datatype Entry = Entry(key: string, val: string, expires: int)

  type Order = seq<Entry>

  ghost predicate Distinct(order: Order) {
    forall i, j :: 0 <= i < j < |order| ==> order[i].key != order[j].key
  }

  function Lookup(order: Order, key: string): (e: Option<Entry>)
    ensures e.Some? ==> e.value in order && e.value.key == key
    ensures e.None? ==> forall i :: 0 <= i < |order| ==> order[i].key != key
  {
    if order == [] then None
    else if order[0].key == key then Some(order[0])
    else Lookup(order[1..], key)
  }

  function Without(order: Order, key: string): (rest: Order)
    ensures |rest| <= |order|
  {
    if order == [] then []
    else if order[0].key == key then Without(order[1..], key)
    else [order[0]] + Without(order[1..], key)
  }

  function First<T>(s: seq<T>, n: nat): (r: seq<T>)
    ensures |r| == (if n < |s| then n else |s|) && r <= s
  {
    if n < |s| then s[..n] else s
  }

  /** A hit moves the entry to the front; an expired entry is dropped. */
  function Get(order: Order, key: string, now: int): (Order, Option<string>) {
    match Lookup(order, key)
    case None => (order, None)
    case Some(e) =>
      if now > e.expires then (Without(order, key), None)
      else ([e] + Without(order, key), Some(e.val))
  }

  /** A new key evicts from the back; a known key never evicts. */
  function Put(order: Order, key: string, val: string, now: int, ttl: int, max: nat): Order {
    var entry := Entry(key, val, now + ttl);
    if Lookup(order, key).Some? then [entry] + Without(order, key)
    else First([entry] + order, max)
  }

  datatype DoResult = DoResult(order: Order, answer: Result<string, string>, ran: bool)

  /** One `do` with nothing running beside it. The clock is read by the outer lookup,
      by the lookup inside the flight and by the store. */
  function Do(order: Order, key: string, fn: Result<string, string>, t1: int, t2: int, t3: int,
              ttl: int, max: nat): DoResult
  {
    var outer := Get(order, key, t1);
    if outer.1.Some? then DoResult(outer.0, Ok(outer.1.value), false)
    else
      var inner := Get(outer.0, key, t2);
      if inner.1.Some? then DoResult(inner.0, Ok(inner.1.value), false)
      else match fn
        case Err(e) => DoResult(inner.0, Err(e), true)
        case Ok(v) => DoResult(Put(inner.0, key, v, t3, ttl, max), Ok(v), true)
  }

  // ---- facts about single operations ----

  lemma {:induction false} WithoutAbsent(order: Order, key: string)
    requires forall i :: 0 <= i < |order| ==> order[i].key != key
    ensures Without(order, key) == order
  {
    if order != [] {
      WithoutAbsent(order[1..], key);
    }
  }

  lemma {:induction false} LookupAt(order: Order, i: nat)
    requires i < |order| && Distinct(order)
    ensures Lookup(order, order[i].key) == Some(order[i])
  {
    if i > 0 {
      assert order[0].key != order[i].key;
      LookupAt(order[1..], i - 1);
    }
  }

  /** In a duplicate-free order, removing a key removes exactly the one position holding it. */
  lemma {:induction false} WithoutAt(order: Order, i: nat)
    requires i < |order| && Distinct(order)
    ensures Without(order, order[i].key) == order[..i] + order[i + 1..]
  {
    if i == 0 {
      WithoutAbsent(order[1..], order[0].key);
    } else {
      var tail := order[1..];
      WithoutAt(tail, i - 1);
      calc {
        Without(order, order[i].key);
        [order[0]] + Without(tail, tail[i - 1].key);
        [order[0]] + (tail[..i - 1] + tail[i..]);
        order[..i] + order[i + 1..];
      }
    }
  }

  lemma IndexOf(order: Order, key: string) returns (i: nat)
    requires Lookup(order, key).Some?
    ensures i < |order| && order[i] == Lookup(order, key).value && order[i].key == key
  {
    i :| i < |order| && order[i] == Lookup(order, key).value;
  }

  lemma MoveToFrontDistinct(order: Order, i: nat, e: Entry)
    requires i < |order| && Distinct(order) && e.key == order[i].key
    ensures Distinct(order[..i] + order[i + 1..])
    ensures Distinct([e] + (order[..i] + order[i + 1..]))
  {
  }

  /** Each operation keeps the keys distinct and the size within the cap. */
  lemma OperationsKeepOrder(order: Order, key: string, val: string, now: int, ttl: int, max: nat)
    requires Distinct(order) && |order| <= max
    ensures Distinct(Get(order, key, now).0) && |Get(order, key, now).0| <= max
    ensures Distinct(Put(order, key, val, now, ttl, max)) && |Put(order, key, val, now, ttl, max)| <= max
  {
    if Lookup(order, key).Some? {
      var i := IndexOf(order, key);
      WithoutAt(order, i);
      MoveToFrontDistinct(order, i, order[i]);
      MoveToFrontDistinct(order, i, Entry(key, val, now + ttl));
    }
  }

  /** Rewriting the entry of a key leaves the entries of the other keys as they were. */
  lemma WithoutUpdated(order: Order, i: nat, e: Entry)
    requires i < |order| && Distinct(order) && e.key == order[i].key
    ensures Without(order[i := e], e.key) == Without(order, e.key)
  {
    WithoutAt(order, i);
    WithoutAt(order[i := e], i);
  }

  /** What one operation says about a key: an unexpired entry is found, every other
      key keeps its entry, and the moved entry keeps value and expiry. */
  lemma GetLooksUp(order: Order, key: string, other: string, now: int)
    requires Distinct(order)
    ensures Get(order, key, now).1.Some? <==>
            Lookup(order, key).Some? && now <= Lookup(order, key).value.expires
    ensures other != key ==> Lookup(Get(order, key, now).0, other) == Lookup(order, other)
    ensures Get(order, key, now).1.Some? ==>
              Get(order, key, now).1.value == Lookup(order, key).value.val
              && Lookup(Get(order, key, now).0, key) == Lookup(order, key)
    ensures Get(order, key, now).1.None? ==> Lookup(Get(order, key, now).0, key).None?
  {
    LookupWithout(order, key, other);
    LookupWithout(order, key, key);
  }

  lemma {:induction false} LookupWithout(order: Order, key: string, other: string)
    ensures Lookup(Without(order, key), other) == if other == key then None else Lookup(order, other)
  {
    if order != [] {
      LookupWithout(order[1..], key, other);
      assert ([order[0]] + Without(order[1..], key))[1..] == Without(order[1..], key);
    }
  }

  /** A store is found by the next lookup (cap permitting); any other key is either
      untouched or, when the store evicts, gone. */
  lemma PutLooksUp(order: Order, key: string, val: string, other: string, now: int, ttl: int, max: nat)
    requires Distinct(order) && |order| <= max
    ensures max > 0 ==> Lookup(Put(order, key, val, now, ttl, max), key) == Some(Entry(key, val, now + ttl))
    ensures max == 0 ==> Put(order, key, val, now, ttl, max) == []
    ensures other != key ==>
              var after := Lookup(Put(order, key, val, now, ttl, max), other);
              after == Lookup(order, other) || after == None
  {
    var entry := Entry(key, val, now + ttl);
    if Lookup(order, key).Some? {
      LookupWithout(order, key, other);
      assert ([entry] + Without(order, key))[1..] == Without(order, key);
    } else if max > 0 {
      assert First([entry] + order, max)[0] == entry;
      assert First([entry] + order, max)[1..] == First(order, max - 1);
      LookupFirst(order, other, max - 1);
    }
  }

  lemma {:induction false} LookupFirst(order: Order, key: string, n: nat)
    ensures Lookup(First(order, n), key) == Lookup(order, key) || Lookup(First(order, n), key) == None
  {
    if n < |order| && n > 0 && order[0].key != key {
      assert First(order, n)[1..] == First(order[1..], n - 1);
      LookupFirst(order[1..], key, n - 1);
    }
  }

  /** Eviction takes entries off the back only: what is left is a prefix. */
  lemma EvictsOnlyTail(order: Order, key: string, val: string, now: int, ttl: int, max: nat)
    requires Lookup(order, key).None? && |order| <= max
    ensures Put(order, key, val, now, ttl, max) <= [Entry(key, val, now + ttl)] + order
    ensures |order| < max ==> Put(order, key, val, now, ttl, max) == [Entry(key, val, now + ttl)] + order
    ensures 0 < |order| == max ==>
              Put(order, key, val, now, ttl, max) == [Entry(key, val, now + ttl)] + order[..max - 1]
  {
    var entry := Entry(key, val, now + ttl);
    if 0 < |order| == max {
      assert ([entry] + order)[..max] == [entry] + order[..max - 1];
    }
  }

  // ---- any sequence of successful calls ----

  function Keys(order: Order): (ks: seq<string>)
    ensures |ks| == |order| && forall i :: 0 <= i < |ks| ==> ks[i] == order[i].key
  {
    seq(|order|, i requires 0 <= i < |order| => order[i].key)
  }

  function Drop(ks: seq<string>, k: string): (r: seq<string>)
    ensures |r| <= |ks|
  {
    if ks == [] then []
    else if ks[0] == k then Drop(ks[1..], k)
    else [ks[0]] + Drop(ks[1..], k)
  }

  datatype Call = Call(key: string, val: string, t1: int, t2: int, t3: int)

  function RunCalls(calls: seq<Call>, ttl: int, max: nat): Order {
    if calls == [] then []
    else
      var c := calls[|calls| - 1];
      Do(RunCalls(calls[..|calls| - 1], ttl, max), c.key, Ok(c.val), c.t1, c.t2, c.t3, ttl, max).order
  }

  /** The distinct keys of a call sequence, most recent call first. */
  function MostRecent(calls: seq<Call>): seq<string> {
    if calls == [] then []
    else
      var k := calls[|calls| - 1].key;
      [k] + Drop(MostRecent(calls[..|calls| - 1]), k)
  }

  ghost predicate NoRepeats(ks: seq<string>) {
    forall i, j :: 0 <= i < j < |ks| ==> ks[i] != ks[j]
  }

  lemma {:induction false} KeysWithout(order: Order, key: string)
    ensures Keys(Without(order, key)) == Drop(Keys(order), key)
  {
    if order != [] {
      KeysWithout(order[1..], key);
      assert Keys(order)[1..] == Keys(order[1..]);
      assert Keys([order[0]] + Without(order[1..], key)) == [order[0].key] + Keys(Without(order[1..], key));
    }
  }

  lemma {:induction false} DropAbsent(ks: seq<string>, k: string)
    requires k !in ks
    ensures Drop(ks, k) == ks
  {
    if ks != [] {
      DropAbsent(ks[1..], k);
    }
  }

  lemma {:induction false} DropElements(ks: seq<string>, k: string)
    ensures forall x :: x in Drop(ks, k) <==> x in ks && x != k
  {
    if ks != [] {
      DropElements(ks[1..], k);
      assert ks == [ks[0]] + ks[1..];
    }
  }

  lemma NoRepeatsCons(x: string, ks: seq<string>)
    requires NoRepeats(ks) && x !in ks
    ensures NoRepeats([x] + ks)
  {
  }

  lemma {:induction false} DropKeepsNoRepeats(ks: seq<string>, k: string)
    requires NoRepeats(ks)
    ensures NoRepeats(Drop(ks, k))
  {
    if ks != [] {
      DropKeepsNoRepeats(ks[1..], k);
      DropElements(ks[1..], k);
      assert ks[0] !in ks[1..];
      if ks[0] != k {
        NoRepeatsCons(ks[0], Drop(ks[1..], k));
      }
    }
  }

  lemma FirstCons<T>(x: T, s: seq<T>, n: nat)
    requires n > 0
    ensures First([x] + s, n) == [x] + First(s, n - 1)
  {
  }

  /** Dropping a key frees one place, so cutting to the cap first loses nothing. */
  lemma {:induction false} DropFirst(ks: seq<string>, k: string, n: nat)
    requires NoRepeats(ks) && n > 0
    ensures First(Drop(First(ks, n), k), n - 1) == First(Drop(ks, k), n - 1)
  {
    if ks != [] && n > 1 {
      var tail := ks[1..];
      assert ks == [ks[0]] + tail;
      FirstCons(ks[0], tail, n);
      assert First(ks, n)[1..] == First(tail, n - 1);
      if ks[0] == k {
        DropAbsent(tail, k);
        DropAbsent(First(tail, n - 1), k);
      } else {
        DropFirst(tail, k, n - 1);
        FirstCons(ks[0], Drop(First(tail, n - 1), k), n - 1);
        FirstCons(ks[0], Drop(tail, k), n - 1);
      }
    }
  }

  /** What a successful store does to the keys. */
  lemma PutMovesKeyToFront(order: Order, key: string, val: string, now: int, ttl: int, max: nat)
    requires Lookup(order, key).None? && |order| <= max
    ensures Keys(Put(order, key, val, now, ttl, max)) == First([key] + Keys(order), max)
  {
    var entry := Entry(key, val, now + ttl);
    assert Keys([entry] + order) == [key] + Keys(order);
    assert Keys(First([entry] + order, max)) == First(Keys([entry] + order), max);
  }

  /** Outside a flight nothing can fill the cache between the two lookups, so the inner
      one never hits: `fn` runs exactly when the outer lookup found nothing current. */
  lemma DoRunsOnMiss(order: Order, key: string, fn: Result<string, string>, t1: int, t2: int, t3: int,
                     ttl: int, max: nat)
    requires Distinct(order)
    ensures var r := Do(order, key, fn, t1, t2, t3, ttl, max);
            && (r.ran <==> Get(order, key, t1).1.None?)
            && (r.ran ==> r.answer == fn)
            && (r.ran && fn.Err? ==> r.order == Without(order, key))
            && (r.ran && fn.Ok? ==> r.order == Put(Without(order, key), key, fn.value, t3, ttl, max)
                                    && Lookup(Without(order, key), key).None?)
  {
    GetLooksUp(order, key, key, t1);
    LookupWithout(order, key, key);
    if Lookup(order, key).None? {
      WithoutAbsent(order, key);
    }
  }

  /** A successful call leaves its key in front and the others as they were. */
  lemma DoMovesKeyToFront(order: Order, c: Call, ttl: int, max: nat)
    requires Distinct(order) && |order| <= max
    ensures var r := Do(order, c.key, Ok(c.val), c.t1, c.t2, c.t3, ttl, max);
            Distinct(r.order) && |r.order| <= max
            && Keys(r.order) == First([c.key] + Drop(Keys(order), c.key), max)
  {
    DoRunsOnMiss(order, c.key, Ok(c.val), c.t1, c.t2, c.t3, ttl, max);
    KeysWithout(order, c.key);
    OperationsKeepOrder(order, c.key, c.val, c.t1, ttl, max);
    var rest := Without(order, c.key);
    if Get(order, c.key, c.t1).1.Some? {
      var i := IndexOf(order, c.key);
      assert Keys([order[i]] + rest) == [c.key] + Keys(rest);
    } else {
      if Lookup(order, c.key).None? {
        WithoutAbsent(order, c.key);
      }
      assert Get(order, c.key, c.t1).0 == rest;
      OperationsKeepOrder(rest, c.key, c.val, c.t3, ttl, max);
      PutMovesKeyToFront(rest, c.key, c.val, c.t3, ttl, max);
    }
  }

  lemma {:induction false} MostRecentNoRepeats(calls: seq<Call>)
    ensures NoRepeats(MostRecent(calls))
  {
    if calls != [] {
      var init, k := calls[..|calls| - 1], calls[|calls| - 1].key;
      MostRecentNoRepeats(init);
      DropKeepsNoRepeats(MostRecent(init), k);
      DropElements(MostRecent(init), k);
      NoRepeatsCons(k, Drop(MostRecent(init), k));
    }
  }

  /** `MostRecent` lists exactly the keys that were called. */
  lemma {:induction false} MostRecentIsEveryKey(calls: seq<Call>, key: string)
    ensures key in MostRecent(calls) <==> exists c :: c in calls && c.key == key
  {
    if calls != [] {
      var init, last := calls[..|calls| - 1], calls[|calls| - 1];
      assert calls == init + [last];
      MostRecentIsEveryKey(init, key);
      DropElements(MostRecent(init), last.key);
    }
  }

  /** After any sequence of successful calls, whatever the clock readings and the TTL, the
      cached keys are the most recently used distinct keys, as many as the cap allows. */
  lemma {:induction false} CacheHoldsMostRecent(calls: seq<Call>, ttl: int, max: nat)
    ensures Distinct(RunCalls(calls, ttl, max)) && |RunCalls(calls, ttl, max)| <= max
    ensures Keys(RunCalls(calls, ttl, max)) == First(MostRecent(calls), max)
  {
    if calls != [] {
      var init, last := calls[..|calls| - 1], calls[|calls| - 1];
      CacheHoldsMostRecent(init, ttl, max);
      DoMovesKeyToFront(RunCalls(init, ttl, max), last, ttl, max);
      if max > 0 {
        var ks := MostRecent(init);
        MostRecentNoRepeats(init);
        DropFirst(ks, last.key, max);
        FirstCons(last.key, Drop(First(ks, max), last.key), max);
        FirstCons(last.key, Drop(ks, last.key), max);
      }
    }
  }

  /** The same calls on a larger cache keep every key of the smaller one, in the same order. */
  lemma InclusionProperty(calls: seq<Call>, ttl: int, ttl': int, m: nat, n: nat)
    requires m <= n
    ensures Keys(RunCalls(calls, ttl, m)) <= Keys(RunCalls(calls, ttl', n))
  {
    CacheHoldsMostRecent(calls, ttl, m);
    CacheHoldsMostRecent(calls, ttl', n);
  }
}
