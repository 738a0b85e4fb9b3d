/** Many concurrent `do` calls on one cache, as a state machine. Every critical section
    (a locked lookup or store, registering with the singleflight group, removing a landed
    flight) is one step; any interleaving of steps of any number of calls is a run. */
module Flights {
  import opened Outcomes
  import opened Folds
  import opened LruOrder

  type Answer = Result<string, string>

  /** Where one `do` call is. Leading, Running, Computed and Landing are inside the
      closure that leads flight `fid`; Waiting is a call that joined that flight. */
  datatype Phase =
    | Calling(key: string)
    | Missed(key: string)
    | Leading(key: string, fid: nat)
    | Running(key: string, fid: nat)
    | Computed(key: string, fid: nat, val: string)
    | Landing(key: string, fid: nat, answer: Answer)
    | Waiting(key: string, fid: nat)
    | Done(key: string, answer: Answer)
  {
    predicate Leads() {
      Leading? || Running? || Computed? || Landing?
    }

    /** `fn` has started and its outcome has not yet been stored or given up. */
    predicate Busy() {
      Running? || Computed?
    }

    function Rank(): nat {
      match this
      case Calling(_) => 6
      case Missed(_) => 5
      case Leading(_, _) => 4
      case Running(_, _) => 3
      case Computed(_, _, _) => 2
      case Landing(_, _, _) => 1
      case Waiting(_, _) => 1
      case Done(_, _) => 0
    }
  }

  datatype Config = Config(ttl: int, max: nat, start: int)

  /** A flight the singleflight group has registered, and the call that leads it. */
  datatype Flight = Flight(fid: nat, leader: nat)

  datatype State = State(
    now: int,
    order: Order,
    calls: map<nat, Phase>,
    flights: map<string, Flight>,
    answers: map<nat, Answer>,
    nextFid: nat)

  datatype Action =
    | Tick(to: int)
    | Begin(t: nat, key: string)
    | LookUp(t: nat)
    | Enter(t: nat)
    | Recheck(t: nat)
    | FnReturns(t: nat, outcome: Answer)
    | Store(t: nat)
    | Land(t: nat)
    | Wake(t: nat)

  function Init(c: Config): State {
    State(c.start, [], map[], map[], map[], 0)
  }

  predicate Enabled(s: State, a: Action) {
    match a
    case Tick(to) => to >= s.now
    case Begin(t, _) => t !in s.calls
    case LookUp(t) => t in s.calls && s.calls[t].Calling?
    case Enter(t) => t in s.calls && s.calls[t].Missed?
    case Recheck(t) => t in s.calls && s.calls[t].Leading?
    case FnReturns(t, _) => t in s.calls && s.calls[t].Running?
    case Store(t) => t in s.calls && s.calls[t].Computed?
    case Land(t) => t in s.calls && s.calls[t].Landing?
    case Wake(t) => t in s.calls && s.calls[t].Waiting? && s.calls[t].fid in s.answers
  }

  function Step(c: Config, s: State, a: Action): State
    requires Enabled(s, a)
  {
    match a
    case Tick(to) => s.(now := to)
    case Begin(t, key) => s.(calls := s.calls[t := Calling(key)])
    case LookUp(t) =>
      var key := s.calls[t].key;
      var (order, hit) := Get(s.order, key, s.now);
      s.(order := order, calls := s.calls[t := if hit.Some? then Done(key, Ok(hit.value)) else Missed(key)])
    case Enter(t) =>
      var key := s.calls[t].key;
      if key in s.flights then s.(calls := s.calls[t := Waiting(key, s.flights[key].fid)])
      else s.(calls := s.calls[t := Leading(key, s.nextFid)],
              flights := s.flights[key := Flight(s.nextFid, t)],
              nextFid := s.nextFid + 1)
    case Recheck(t) =>
      var Leading(key, fid) := s.calls[t];
      var (order, hit) := Get(s.order, key, s.now);
      s.(order := order,
         calls := s.calls[t := if hit.Some? then Landing(key, fid, Ok(hit.value)) else Running(key, fid)])
    case FnReturns(t, outcome) =>
      var Running(key, fid) := s.calls[t];
      s.(calls := s.calls[t := if outcome.Ok? then Computed(key, fid, outcome.value)
                               else Landing(key, fid, outcome)])
    case Store(t) =>
      var Computed(key, fid, val) := s.calls[t];
      s.(order := Put(s.order, key, val, s.now, c.ttl, c.max),
         calls := s.calls[t := Landing(key, fid, Ok(val))])
    case Land(t) =>
      var Landing(key, fid, answer) := s.calls[t];
      s.(calls := s.calls[t := Done(key, answer)],
         flights := s.flights - {key},
         answers := s.answers[fid := answer])
    case Wake(t) =>
      var Waiting(key, fid) := s.calls[t];
      s.(calls := s.calls[t := Done(key, s.answers[fid])])
  }

  // ---- runs ----

  ghost predicate Legal(c: Config, run: seq<Action>)
    decreases |run|, 0
  {
    run == [] || (Legal(c, run[..|run| - 1]) && Enabled(Exec(c, run[..|run| - 1]), run[|run| - 1]))
  }

  ghost function Exec(c: Config, run: seq<Action>): State
    requires Legal(c, run)
    decreases |run|, 1
  {
    if run == [] then Init(c) else Step(c, Exec(c, run[..|run| - 1]), run[|run| - 1])
  }

  lemma {:induction false} PrefixLegal(c: Config, run: seq<Action>, i: nat)
    requires Legal(c, run) && i <= |run|
    ensures Legal(c, run[..i])
    decreases |run|
  {
    if i < |run| {
      PrefixLegal(c, run[..|run| - 1], i);
      assert run[..|run| - 1][..i] == run[..i];
    } else {
      assert run[..i] == run;
    }
  }

  /** The state before action `i` of a run (after the run when `i` is its length). */
  ghost function Before(c: Config, run: seq<Action>, i: nat): State
    requires Legal(c, run) && i <= |run|
  {
    PrefixLegal(c, run, i);
    Exec(c, run[..i])
  }

  // ---- what every reachable state satisfies ----

  ghost predicate Cached(s: State, key: string) {
    Lookup(s.order, key).Some?
  }

  ghost predicate OrderOk(c: Config, s: State) {
    Distinct(s.order) && |s.order| <= c.max
  }

  /** Leaders and registered flights are in bijection. */
  ghost predicate LeadersOk(s: State) {
    && (forall t :: t in s.calls && s.calls[t].Leads() ==>
          s.calls[t].key in s.flights && s.flights[s.calls[t].key] == Flight(s.calls[t].fid, t))
    && (forall key :: key in s.flights ==>
          var t := s.flights[key].leader;
          t in s.calls && s.calls[t].Leads() && s.calls[t].key == key)
  }

  ghost predicate FidsOk(s: State) {
    && (forall key :: key in s.flights ==> s.flights[key].fid < s.nextFid && s.flights[key].fid !in s.answers)
    && (forall key, key' :: key in s.flights && key' in s.flights && key != key' ==>
          s.flights[key].fid != s.flights[key'].fid)
    && (forall fid :: fid in s.answers ==> fid < s.nextFid)
  }

  ghost predicate WaitersOk(s: State) {
    forall t :: t in s.calls && s.calls[t].Waiting? && s.calls[t].fid !in s.answers ==>
      s.calls[t].key in s.flights && s.flights[s.calls[t].key].fid == s.calls[t].fid
  }

  /** While `fn` runs for a key, the key is not in the cache. */
  ghost predicate BusyOk(s: State) {
    forall t :: t in s.calls && s.calls[t].Busy() ==> !Cached(s, s.calls[t].key)
  }

  ghost predicate Inv(c: Config, s: State) {
    OrderOk(c, s) && LeadersOk(s) && FidsOk(s) && WaitersOk(s) && BusyOk(s)
  }

  lemma StepKeepsInv(c: Config, s: State, a: Action)
    requires Inv(c, s) && Enabled(s, a)
    ensures Inv(c, Step(c, s, a))
  {
    StepKeepsOrder(c, s, a);
    StepKeepsLeaders(c, s, a);
    StepKeepsFids(c, s, a);
    StepKeepsWaiters(c, s, a);
    StepKeepsBusy(c, s, a);
  }

  lemma StepKeepsLeaders(c: Config, s: State, a: Action)
    requires LeadersOk(s) && Enabled(s, a)
    ensures LeadersOk(Step(c, s, a))
  {
    if !a.Enter? && !a.Land? {
      StepKeepsFlights(c, s, a);
    }
  }

  /** Only entering and landing change who leads what. */
  lemma StepKeepsFlights(c: Config, s: State, a: Action)
    requires Enabled(s, a) && !a.Enter? && !a.Land?
    ensures var s' := Step(c, s, a);
            && s'.flights == s.flights
            && (forall t :: t in s.calls && s.calls[t].Leads() ==>
                  t in s'.calls && s'.calls[t].Leads() && s'.calls[t].key == s.calls[t].key
                  && s'.calls[t].fid == s.calls[t].fid)
            && (forall t :: t in s'.calls && s'.calls[t].Leads() ==> t in s.calls && s.calls[t].Leads())
  {
  }

  lemma StepKeepsFids(c: Config, s: State, a: Action)
    requires LeadersOk(s) && FidsOk(s) && Enabled(s, a)
    ensures FidsOk(Step(c, s, a))
  {
  }

  lemma StepKeepsWaiters(c: Config, s: State, a: Action)
    requires LeadersOk(s) && WaitersOk(s) && Enabled(s, a)
    ensures WaitersOk(Step(c, s, a))
  {
  }

  lemma StepKeepsOrder(c: Config, s: State, a: Action)
    requires OrderOk(c, s) && Enabled(s, a)
    ensures OrderOk(c, Step(c, s, a))
  {
    if a.LookUp? || a.Recheck? || a.Store? {
      var val := if a.Store? then s.calls[a.t].val else "";
      OperationsKeepOrder(s.order, s.calls[a.t].key, val, s.now, c.ttl, c.max);
    }
  }

  /** A step brings a key into the cache only by storing it. */
  lemma StepCaches(c: Config, s: State, a: Action, key: string)
    requires OrderOk(c, s) && Enabled(s, a)
    ensures var s' := Step(c, s, a);
            Cached(s', key) ==> Cached(s, key) || (a.Store? && s.calls[a.t].key == key)
    ensures var s' := Step(c, s, a);
            a.Store? && s.calls[a.t].key == key ==> (Cached(s', key) <==> c.max > 0)
    ensures a.Recheck? && s.calls[a.t].key == key && Step(c, s, a).calls[a.t].Running? ==>
              !Cached(Step(c, s, a), key)
  {
    if a.LookUp? || a.Recheck? {
      GetLooksUp(s.order, s.calls[a.t].key, key, s.now);
    } else if a.Store? {
      PutLooksUp(s.order, s.calls[a.t].key, s.calls[a.t].val, key, s.now, c.ttl, c.max);
    }
  }

  lemma StepKeepsBusy(c: Config, s: State, a: Action)
    requires Inv(c, s) && Enabled(s, a)
    ensures BusyOk(Step(c, s, a))
  {
    var s' := Step(c, s, a);
    forall t | t in s'.calls && s'.calls[t].Busy() ensures !Cached(s', s'.calls[t].key) {
      StepCaches(c, s, a, s'.calls[t].key);
    }
  }

  lemma {:induction false} Reachable(c: Config, run: seq<Action>)
    requires Legal(c, run)
    ensures Inv(c, Exec(c, run))
    decreases |run|
  {
    if run != [] {
      Reachable(c, run[..|run| - 1]);
      StepKeepsInv(c, Exec(c, run[..|run| - 1]), run[|run| - 1]);
    }
  }

  /** Over every run, at most one `fn` for a key is in flight. */
  lemma AtMostOneInFlight(c: Config, run: seq<Action>, t: nat, u: nat)
    requires Legal(c, run)
    requires var s := Exec(c, run);
             t in s.calls && u in s.calls && s.calls[t].Busy() && s.calls[u].Busy()
             && s.calls[t].key == s.calls[u].key
    ensures t == u
  {
    Reachable(c, run);
  }

  // ---- every call finishes ----

  /** No caller is stuck: while a call is unfinished, it or the leader of the flight it
      waits for has a step to take. */
  lemma NoCallerIsStuck(c: Config, run: seq<Action>, t: nat) returns (a: Action)
    requires Legal(c, run)
    requires t in Exec(c, run).calls && !Exec(c, run).calls[t].Done?
    ensures Enabled(Exec(c, run), a) && !a.Tick? && !a.Begin?
    ensures var s := Exec(c, run);
            a.t == t || (s.calls[t].Waiting? && s.calls[a.t].Leads()
                         && s.calls[a.t].key == s.calls[t].key && s.calls[a.t].fid == s.calls[t].fid)
  {
    Reachable(c, run);
    var s := Exec(c, run);
    var u := t;
    if s.calls[t].Waiting? && s.calls[t].fid !in s.answers {
      u := s.flights[s.calls[t].key].leader;
    }
    match s.calls[u]
    case Calling(_) => a := LookUp(u);
    case Missed(_) => a := Enter(u);
    case Leading(_, _) => a := Recheck(u);
    case Running(_, _) => a := FnReturns(u, Err(""));
    case Computed(_, _, _) => a := Store(u);
    case Landing(_, _, _) => a := Land(u);
    case Waiting(_, _) => a := Wake(u);
  }

  /** Every step of a call brings it closer to its end and leaves the other calls where they are. */
  lemma StepsMakeProgress(c: Config, s: State, a: Action)
    requires Enabled(s, a) && !a.Tick? && !a.Begin?
    ensures Step(c, s, a).calls[a.t].Rank() < s.calls[a.t].Rank()
    ensures forall u :: u in s.calls && u != a.t ==> u in Step(c, s, a).calls && Step(c, s, a).calls[u] == s.calls[u]
  {
  }

  function Ranks(calls: map<nat, Phase>): nat -> int {
    t => if t in calls then calls[t].Rank() else 0
  }

  /** What the calls still have to do. */
  ghost function Work(calls: map<nat, Phase>): nat {
    SumNonNegative(calls.Keys, Ranks(calls));
    Sum(calls.Keys, Ranks(calls))
  }

  lemma StepLeavesLessWork(c: Config, s: State, a: Action)
    requires Enabled(s, a) && !a.Tick? && !a.Begin?
    ensures Step(c, s, a).calls.Keys == s.calls.Keys
    ensures Work(Step(c, s, a).calls) < Work(s.calls)
  {
    var s', ts := Step(c, s, a), s.calls.Keys;
    StepsMakeProgress(c, s, a);
    assert s'.calls.Keys == ts;
    SumTakes(ts, Ranks(s.calls), a.t);
    SumTakes(ts, Ranks(s'.calls), a.t);
    SumCongruent(ts - {a.t}, Ranks(s.calls), Ranks(s'.calls));
  }

  lemma Extends(c: Config, run: seq<Action>, a: Action)
    requires Legal(c, run) && Enabled(Exec(c, run), a)
    ensures Legal(c, run + [a]) && Exec(c, run + [a]) == Step(c, Exec(c, run), a)
  {
    var next := run + [a];
    assert next[..|next| - 1] == run && next[|next| - 1] == a;
  }

  /** Every run can be continued, with no new call and no tick of the clock, until every call
      has returned. */
  lemma {:induction false} EveryCallCanFinish(c: Config, run: seq<Action>) returns (more: seq<Action>)
    requires Legal(c, run)
    ensures Legal(c, run + more) && forall a :: a in more ==> !a.Tick? && !a.Begin?
    ensures Exec(c, run + more).calls.Keys == Exec(c, run).calls.Keys
    ensures forall t :: t in Exec(c, run + more).calls ==> Exec(c, run + more).calls[t].Done?
    decreases Work(Exec(c, run).calls)
  {
    var s := Exec(c, run);
    if t :| t in s.calls && !s.calls[t].Done? {
      var a := NoCallerIsStuck(c, run, t);
      Extends(c, run, a);
      StepLeavesLessWork(c, s, a);
      var rest := EveryCallCanFinish(c, run + [a]);
      more := [a] + rest;
      assert run + more == run + [a] + rest;
    } else {
      more := [];
      assert run + more == run;
    }
  }

  // ---- one call alone ----

  /** The steps of one call with nothing running beside it: `fn` answers if it is asked. */
  function Alone(c: Config, s: State, t: nat, key: string, fn: Answer, t1: int, t2: int, t3: int): State
    requires t !in s.calls && key !in s.flights && s.now <= t1 <= t2 <= t3
  {
    var looked := Looked(c, s, t, key, t1);
    if looked.calls[t].Done? then looked else AfterMiss(c, looked, t, fn, t2, t3)
  }

  /** A call begins and looks up. */
  function Looked(c: Config, s: State, t: nat, key: string, t1: int): (r: State)
    requires t !in s.calls && s.now <= t1
    ensures var (order, hit) := Get(s.order, key, t1);
            && r.order == order && r.flights == s.flights && r.now == t1
            && r.calls == s.calls[t := if hit.Some? then Done(key, Ok(hit.value)) else Missed(key)]
  {
    Step(c, Step(c, Step(c, s, Tick(t1)), Begin(t, key)), LookUp(t))
  }

  function AfterMiss(c: Config, s: State, t: nat, fn: Answer, t2: int, t3: int): State
    requires t in s.calls && s.calls[t].Missed? && s.calls[t].key !in s.flights && s.now <= t2 <= t3
  {
    var leading := Step(c, Step(c, s, Enter(t)), Tick(t2));
    Step(c, Flown(c, Step(c, leading, Recheck(t)), t, fn, t3), Land(t))
  }

  /** The rest of the closure after the recheck. */
  function Flown(c: Config, s: State, t: nat, fn: Answer, t3: int): (r: State)
    requires t in s.calls && (s.calls[t].Landing? || s.calls[t].Running?) && s.now <= t3
    ensures t in r.calls && r.calls[t].Landing?
  {
    if s.calls[t].Landing? then s
    else
      var returned := Step(c, s, FnReturns(t, fn));
      if fn.Err? then returned else Step(c, Step(c, returned, Tick(t3)), Store(t))
  }

  lemma FlownDoes(c: Config, s: State, t: nat, fn: Answer, t3: int)
    requires t in s.calls && s.calls[t].Running? && s.now <= t3
    ensures var Running(key, fid), r := s.calls[t], Flown(c, s, t, fn, t3);
            && r.order == (if fn.Ok? then Put(s.order, key, fn.value, t3, c.ttl, c.max) else s.order)
            && r.calls == s.calls[t := Landing(key, fid, fn)] && r.flights == s.flights
  {
  }

  /** Registering, rechecking, running and landing, once the outer lookup has missed. */
  lemma FlightIsDo(c: Config, s: State, t: nat, key: string, fn: Answer, t2: int, t3: int)
    requires t in s.calls && s.calls[t] == Missed(key) && key !in s.flights && s.now <= t2 <= t3
    ensures var s' := AfterMiss(c, s, t, fn, t2, t3);
            var (order, hit) := Get(s.order, key, t2);
            && s'.order == (if hit.Some? || fn.Err? then order else Put(order, key, fn.value, t3, c.ttl, c.max))
            && s'.calls == s.calls[t := Done(key, if hit.Some? then Ok(hit.value) else fn)]
            && s'.flights == s.flights
  {
    var leading := Step(c, Step(c, s, Enter(t)), Tick(t2));
    var rechecked := Step(c, leading, Recheck(t));
    if rechecked.calls[t].Running? {
      FlownDoes(c, rechecked, t, fn, t3);
    }
    assert s.flights[key := Flight(s.nextFid, t)] - {key} == s.flights;
  }

  /** The state machine refines the sequential specification: a call alone leaves the cache
      and the answer of `LruOrder.Do`, no flight behind it, and every other call where it was. */
  lemma AloneIsDo(c: Config, s: State, t: nat, key: string, fn: Answer, t1: int, t2: int, t3: int)
    requires t !in s.calls && key !in s.flights && s.now <= t1 <= t2 <= t3
    ensures var r, s' := Do(s.order, key, fn, t1, t2, t3, c.ttl, c.max), Alone(c, s, t, key, fn, t1, t2, t3);
            && s'.order == r.order && s'.calls == s.calls[t := Done(key, r.answer)] && s'.flights == s.flights
  {
    var looked := Looked(c, s, t, key, t1);
    if !looked.calls[t].Done? {
      MissIsDo(c, s, looked, t, key, fn, t1, t2, t3);
    }
  }

  lemma MissIsDo(c: Config, s: State, looked: State, t: nat, key: string, fn: Answer, t1: int, t2: int, t3: int)
    requires t !in s.calls && key !in s.flights && t1 <= t2 <= t3
    requires looked.order == Get(s.order, key, t1).0 && looked.flights == s.flights && looked.now == t1
    requires looked.calls == s.calls[t := Missed(key)] && Get(s.order, key, t1).1.None?
    ensures var r, s' := Do(s.order, key, fn, t1, t2, t3, c.ttl, c.max), AfterMiss(c, looked, t, fn, t2, t3);
            && s'.order == r.order && s'.calls == s.calls[t := Done(key, r.answer)] && s'.flights == s.flights
  {
    FlightIsDo(c, looked, t, key, fn, t2, t3);
  }

  // ---- how often `fn` runs ----

  predicate StartsFn(c: Config, s: State, a: Action, key: string)
    requires Enabled(s, a)
  {
    a.Recheck? && s.calls[a.t].key == key && Step(c, s, a).calls[a.t].Running?
  }

  predicate FnFails(s: State, a: Action, key: string)
    requires Enabled(s, a)
  {
    a.FnReturns? && s.calls[a.t].key == key && a.outcome.Err?
  }

  /** The step takes the key out of the cache (expired or evicted), or stores it in vain. */
  ghost predicate Loses(c: Config, s: State, a: Action, key: string)
    requires Enabled(s, a)
  {
    !Cached(Step(c, s, a), key) && (Cached(s, key) || (a.Store? && s.calls[a.t].key == key))
  }

  ghost predicate BusyWith(s: State, key: string) {
    exists t :: t in s.calls && s.calls[t].Busy() && s.calls[t].key == key
  }

  function One(b: bool): nat {
    if b then 1 else 0
  }

  ghost function Starts(c: Config, run: seq<Action>, key: string): nat
    requires Legal(c, run)
    decreases |run|
  {
    if run == [] then 0 else
    var init := run[..|run| - 1];
    Starts(c, init, key) + One(StartsFn(c, Exec(c, init), run[|run| - 1], key))
  }

  ghost function Failures(c: Config, run: seq<Action>, key: string): nat
    requires Legal(c, run)
    decreases |run|
  {
    if run == [] then 0 else
    var init := run[..|run| - 1];
    Failures(c, init, key) + One(FnFails(Exec(c, init), run[|run| - 1], key))
  }

  ghost function Losses(c: Config, run: seq<Action>, key: string): nat
    requires Legal(c, run)
    decreases |run|
  {
    if run == [] then 0 else
    var init := run[..|run| - 1];
    Losses(c, init, key) + One(Loses(c, Exec(c, init), run[|run| - 1], key))
  }

  lemma StepBalances(c: Config, s: State, a: Action, key: string)
    requires Inv(c, s) && Enabled(s, a)
    ensures var s' := Step(c, s, a);
            One(StartsFn(c, s, a, key)) + One(Cached(s, key)) + One(BusyWith(s, key))
            == One(FnFails(s, a, key)) + One(Loses(c, s, a, key)) + One(Cached(s', key)) + One(BusyWith(s', key))
  {
    var s' := Step(c, s, a);
    StepCaches(c, s, a, key);
    StepBusy(c, s, a, key);
  }

  lemma StepBusy(c: Config, s: State, a: Action, key: string)
    requires Inv(c, s) && Enabled(s, a)
    ensures var s' := Step(c, s, a);
            && (StartsFn(c, s, a, key) ==> !BusyWith(s, key) && BusyWith(s', key))
            && (FnFails(s, a, key) || (a.Store? && s.calls[a.t].key == key) ==>
                  BusyWith(s, key) && !BusyWith(s', key) && !Cached(s, key))
            && (!StartsFn(c, s, a, key) && !FnFails(s, a, key) && !(a.Store? && s.calls[a.t].key == key) ==>
                  (BusyWith(s, key) <==> BusyWith(s', key)))
  {
    var s' := Step(c, s, a);
    if StartsFn(c, s, a, key) {
      assert a.t in s'.calls;
    } else if FnFails(s, a, key) || (a.Store? && s.calls[a.t].key == key) {
      assert a.t in s.calls && s.calls[a.t].Busy();
    } else {
      BusyStays(c, s, a, key);
    }
  }

  /** A step that neither starts nor ends a run of `fn` for the key leaves its runs alone. */
  lemma BusyStays(c: Config, s: State, a: Action, key: string)
    requires Enabled(s, a)
    requires !StartsFn(c, s, a, key) && !FnFails(s, a, key) && !(a.Store? && s.calls[a.t].key == key)
    ensures BusyWith(s, key) <==> BusyWith(Step(c, s, a), key)
  {
    var s' := Step(c, s, a);
    if BusyWith(s, key) {
      var t :| t in s.calls && s.calls[t].Busy() && s.calls[t].key == key;
      assert t in s'.calls;
    }
    if BusyWith(s', key) {
      var t :| t in s'.calls && s'.calls[t].Busy() && s'.calls[t].key == key;
      assert t in s.calls;
    }
  }

  /** Conservation over every interleaving of any number of calls: each run of `fn` for a
      key is accounted for by a failure, by a stored value that was lost again, by the
      value now in the cache or by the run now in flight. */
  lemma {:induction false} RunsAreAccountedFor(c: Config, run: seq<Action>, key: string)
    requires Legal(c, run)
    ensures Starts(c, run, key) == Failures(c, run, key) + Losses(c, run, key)
                                   + One(Cached(Exec(c, run), key)) + One(BusyWith(Exec(c, run), key))
    decreases |run|
  {
    if run != [] {
      var init := run[..|run| - 1];
      RunsAreAccountedFor(c, init, key);
      Reachable(c, init);
      StepBalances(c, Exec(c, init), run[|run| - 1], key);
    }
  }

  /** `fn` runs exactly once in total when it never fails for the key and the key is never
      lost, however many calls are made and however they interleave. */
  lemma RunsExactlyOnce(c: Config, run: seq<Action>, key: string, t: nat)
    requires Legal(c, run) && Failures(c, run, key) == 0 && Losses(c, run, key) == 0
    ensures Starts(c, run, key) <= 1
    ensures t in Exec(c, run).calls && Exec(c, run).calls[t].Done? && Exec(c, run).calls[t].key == key ==>
              Starts(c, run, key) == 1
  {
    RunsAreAccountedFor(c, run, key);
    Reachable(c, run);
    var s := Exec(c, run);
    if t in s.calls && s.calls[t].Done? && s.calls[t].key == key {
      AnswersFollowStarts(c, run, key);
    }
  }

  /** No answer for a key exists anywhere before `fn` ran for it. */
  ghost predicate NoTrace(s: State, key: string) {
    && !Cached(s, key)
    && (forall t :: t in s.calls && s.calls[t].key == key ==>
          s.calls[t].Calling? || s.calls[t].Missed? || s.calls[t].Leading? || s.calls[t].Waiting?)
    && (forall t :: t in s.calls && s.calls[t].key == key && s.calls[t].Waiting? ==> s.calls[t].fid !in s.answers)
  }

  lemma {:induction false} AnswersFollowStarts(c: Config, run: seq<Action>, key: string)
    requires Legal(c, run)
    ensures Starts(c, run, key) == 0 ==> NoTrace(Exec(c, run), key)
    decreases |run|
  {
    if run != [] && Starts(c, run, key) == 0 {
      var init := run[..|run| - 1];
      AnswersFollowStarts(c, init, key);
      Reachable(c, init);
      StepCaches(c, Exec(c, init), run[|run| - 1], key);
    }
  }

  // ---- where answers come from ----

  ghost predicate Fresh(s: State, key: string, val: string) {
    var e := Lookup(s.order, key);
    e.Some? && e.value.val == val && s.now <= e.value.expires
  }

  ghost predicate At(s: State, t: nat, phase: Phase) {
    t in s.calls && s.calls[t] == phase
  }

  /** Action `i` is call `t`'s own lookup, and finds `val` unexpired in the cache. */
  ghost predicate OwnHit(c: Config, run: seq<Action>, i: nat, t: nat, key: string, val: string)
    requires Legal(c, run) && i < |run|
  {
    run[i] == LookUp(t) && At(Before(c, run, i), t, Calling(key)) && Fresh(Before(c, run, i), key, val)
  }

  /** Action `i` decides the answer of flight `fid`: its leader finds a value unexpired in
      the cache, or `fn` returns. */
  ghost predicate Settles(c: Config, run: seq<Action>, i: nat, fid: nat, key: string, answer: Answer)
    requires Legal(c, run) && i < |run|
  {
    var s := Before(c, run, i);
    || (run[i].Recheck? && At(s, run[i].t, Leading(key, fid)) && answer.Ok? && Fresh(s, key, answer.value))
    || (run[i].FnReturns? && At(s, run[i].t, Running(key, fid)) && run[i].outcome == answer)
  }

  /** Action `i` is call `t` entering flight `fid` while it is registered, or creating it. */
  ghost predicate Enters(c: Config, run: seq<Action>, i: nat, t: nat, fid: nat, key: string)
    requires Legal(c, run) && i < |run|
  {
    var s := Before(c, run, i);
    && run[i] == Enter(t) && At(s, t, Missed(key))
    && fid == if key in s.flights then s.flights[key].fid else s.nextFid
  }

  /** Action `i` is a successful return of `fn` for the key. */
  ghost predicate Produces(c: Config, run: seq<Action>, i: nat, key: string, val: string)
    requires Legal(c, run) && i < |run|
  {
    var s := Before(c, run, i);
    && run[i].FnReturns? && run[i].outcome == Ok(val)
    && run[i].t in s.calls && s.calls[run[i].t].Running? && s.calls[run[i].t].key == key
  }

  /** Action `i` stores the entry, dated from the clock of that moment. */
  ghost predicate Stores(c: Config, run: seq<Action>, i: nat, e: Entry)
    requires Legal(c, run) && i < |run|
  {
    var s := Before(c, run, i);
    && run[i].Store? && run[i].t in s.calls && s.calls[run[i].t].Computed?
    && s.calls[run[i].t].key == e.key && s.calls[run[i].t].val == e.val && e.expires == s.now + c.ttl
  }

  ghost predicate Hit(c: Config, run: seq<Action>, t: nat, key: string, val: string)
    requires Legal(c, run)
  {
    exists i :: 0 <= i < |run| && OwnHit(c, run, i, t, key, val)
  }

  ghost predicate Settled(c: Config, run: seq<Action>, fid: nat, key: string, answer: Answer)
    requires Legal(c, run)
  {
    exists i :: 0 <= i < |run| && Settles(c, run, i, fid, key, answer)
  }

  ghost predicate Entered(c: Config, run: seq<Action>, t: nat, fid: nat, key: string)
    requires Legal(c, run)
  {
    exists i :: 0 <= i < |run| && Enters(c, run, i, t, fid, key)
  }

  ghost predicate Produced(c: Config, run: seq<Action>, key: string, val: string)
    requires Legal(c, run)
  {
    exists i :: 0 <= i < |run| && Produces(c, run, i, key, val)
  }

  ghost predicate Stored(c: Config, run: seq<Action>, e: Entry)
    requires Legal(c, run)
  {
    exists i :: 0 <= i < |run| && Stores(c, run, i, e)
  }

  lemma SameBefore(c: Config, run: seq<Action>)
    requires run != [] && Legal(c, run)
    ensures var init := run[..|run| - 1];
            forall i :: 0 <= i < |init| ==> init[i] == run[i] && Before(c, init, i) == Before(c, run, i)
  {
    var init := run[..|run| - 1];
    forall i | 0 <= i < |init| ensures init[i] == run[i] && Before(c, init, i) == Before(c, run, i) {
      assert init[..i] == run[..i];
    }
  }

  /** Nothing that happened in a flight is undone by one more action. */
  lemma FlightsRemain(c: Config, run: seq<Action>)
    requires run != [] && Legal(c, run)
    ensures var init := run[..|run| - 1];
            && (forall fid, key, answer :: Settled(c, init, fid, key, answer) ==> Settled(c, run, fid, key, answer))
            && (forall t, fid, key :: Entered(c, init, t, fid, key) ==> Entered(c, run, t, fid, key))
  {
    var init := run[..|run| - 1];
    SameBefore(c, run);
    forall fid, key, answer | Settled(c, init, fid, key, answer) ensures Settled(c, run, fid, key, answer) {
      var i :| 0 <= i < |init| && Settles(c, init, i, fid, key, answer);
      assert Settles(c, run, i, fid, key, answer);
    }
    forall t, fid, key | Entered(c, init, t, fid, key) ensures Entered(c, run, t, fid, key) {
      var i :| 0 <= i < |init| && Enters(c, init, i, t, fid, key);
      assert Enters(c, run, i, t, fid, key);
    }
  }

  lemma HitsRemain(c: Config, run: seq<Action>)
    requires run != [] && Legal(c, run)
    ensures var init := run[..|run| - 1];
            forall t, key, val :: Hit(c, init, t, key, val) ==> Hit(c, run, t, key, val)
  {
    var init := run[..|run| - 1];
    SameBefore(c, run);
    forall t, key, val | Hit(c, init, t, key, val) ensures Hit(c, run, t, key, val) {
      var i :| 0 <= i < |init| && OwnHit(c, init, i, t, key, val);
      assert OwnHit(c, run, i, t, key, val);
    }
  }

  lemma StoresRemain(c: Config, run: seq<Action>)
    requires run != [] && Legal(c, run)
    ensures var init := run[..|run| - 1];
            && (forall key, val :: Produced(c, init, key, val) ==> Produced(c, run, key, val))
            && (forall e :: Stored(c, init, e) ==> Stored(c, run, e))
  {
    var init := run[..|run| - 1];
    SameBefore(c, run);
    forall key, val | Produced(c, init, key, val) ensures Produced(c, run, key, val) {
      var i :| 0 <= i < |init| && Produces(c, init, i, key, val);
      assert Produces(c, run, i, key, val);
    }
    forall e | Stored(c, init, e) ensures Stored(c, run, e) {
      var i :| 0 <= i < |init| && Stores(c, init, i, e);
      assert Stores(c, run, i, e);
    }
  }

  /** Every cached entry was stored with its value and date, after `fn` produced that value. */
  lemma {:induction false} CacheHoldsProduced(c: Config, run: seq<Action>)
    requires Legal(c, run)
    ensures var s := Exec(c, run);
            && (forall e :: e in s.order ==> Stored(c, run, e) && Produced(c, run, e.key, e.val))
            && (forall t :: t in s.calls && s.calls[t].Computed? ==> Produced(c, run, s.calls[t].key, s.calls[t].val))
    decreases |run|
  {
    if run != [] {
      var init, a := run[..|run| - 1], run[|run| - 1];
      CacheHoldsProduced(c, init);
      StoresRemain(c, run);
      var s, s' := Exec(c, init), Exec(c, run);
      assert Before(c, run, |init|) == s;
      if a.Store? {
        var entry := Entry(s.calls[a.t].key, s.calls[a.t].val, s.now + c.ttl);
        assert Stores(c, run, |init|, entry);
        StepAddsOnly(s, a, c, entry);
      } else {
        StepAddsNothing(s, a, c);
      }
      if a.FnReturns? && a.outcome.Ok? {
        assert Produces(c, run, |init|, s.calls[a.t].key, a.outcome.value);
      }
    }
  }

  lemma StepAddsOnly(s: State, a: Action, c: Config, entry: Entry)
    requires Enabled(s, a) && a.Store?
    requires entry == Entry(s.calls[a.t].key, s.calls[a.t].val, s.now + c.ttl)
    ensures forall e :: e in Step(c, s, a).order ==> e in s.order || e == entry
  {
    WithoutSubset(s.order, s.calls[a.t].key);
  }

  lemma StepAddsNothing(s: State, a: Action, c: Config)
    requires Enabled(s, a) && !a.Store?
    ensures forall e :: e in Step(c, s, a).order ==> e in s.order
  {
    if a.LookUp? || a.Recheck? {
      WithoutSubset(s.order, s.calls[a.t].key);
    }
  }

  lemma {:induction false} WithoutSubset(order: Order, key: string)
    ensures forall e :: e in Without(order, key) ==> e in order
  {
    if order != [] {
      WithoutSubset(order[1..], key);
    }
  }

  /** The run explains where every call stands. */
  ghost predicate Explained(c: Config, run: seq<Action>, s: State)
    requires Legal(c, run)
  {
    forall t :: t in s.calls ==> ExplainedCall(c, run, s, t)
  }

  ghost predicate ExplainedCall(c: Config, run: seq<Action>, s: State, t: nat)
    requires Legal(c, run) && t in s.calls
  {
    match s.calls[t]
    case Leading(key, fid) => Entered(c, run, t, fid, key)
    case Running(key, fid) => Entered(c, run, t, fid, key)
    case Computed(key, fid, val) => Entered(c, run, t, fid, key) && Settled(c, run, fid, key, Ok(val))
    case Landing(key, fid, answer) => Entered(c, run, t, fid, key) && Settled(c, run, fid, key, answer)
    case Waiting(key, fid) =>
      Entered(c, run, t, fid, key) && (fid in s.answers ==> Settled(c, run, fid, key, s.answers[fid]))
    case Done(key, answer) => Justified(c, run, t, key, answer)
    case _ => true
  }

  /** The answer is a value the call itself found unexpired in the cache, or the answer
      settled by a flight the call entered. */
  ghost predicate Justified(c: Config, run: seq<Action>, t: nat, key: string, answer: Answer)
    requires Legal(c, run)
  {
    || (answer.Ok? && Hit(c, run, t, key, answer.value))
    || exists fid :: Entered(c, run, t, fid, key) && Settled(c, run, fid, key, answer)
  }

  lemma {:induction false} EveryCallIsExplained(c: Config, run: seq<Action>)
    requires Legal(c, run)
    ensures Explained(c, run, Exec(c, run))
    decreases |run|
  {
    if run != [] {
      var init := run[..|run| - 1];
      EveryCallIsExplained(c, init);
      Reachable(c, init);
      forall t | t in Exec(c, run).calls ensures ExplainedCall(c, run, Exec(c, run), t) {
        StaysOrMoves(c, Exec(c, init), run[|run| - 1], t);
        if t in Exec(c, init).calls && Exec(c, init).calls[t] == Exec(c, run).calls[t] {
          StaysExplained(c, run, t);
        } else {
          MoveExplained(c, run);
        }
      }
    }
  }

  lemma StaysOrMoves(c: Config, s: State, a: Action, t: nat)
    requires Enabled(s, a) && t in Step(c, s, a).calls
    ensures (t in s.calls && s.calls[t] == Step(c, s, a).calls[t]) || (!a.Tick? && t == a.t)
  {
  }

  lemma StaysExplained(c: Config, run: seq<Action>, t: nat)
    requires run != [] && Legal(c, run)
    requires var init := run[..|run| - 1];
             var s, s' := Exec(c, init), Exec(c, run);
             Inv(c, s) && Explained(c, init, s) && t in s.calls && t in s'.calls && s.calls[t] == s'.calls[t]
    ensures ExplainedCall(c, run, Exec(c, run), t)
  {
    var init, a := run[..|run| - 1], run[|run| - 1];
    var s, s' := Exec(c, init), Exec(c, run);
    FlightsRemain(c, run);
    HitsRemain(c, run);
    assert ExplainedCall(c, init, s, t);
    if s.calls[t].Waiting? {
      AnswersAppear(c, s, a, t);
      if s.calls[t].fid !in s.answers && s.calls[t].fid in s'.answers {
        assert ExplainedCall(c, init, s, a.t);
      }
    }
  }

  /** A waiting call's answer stands once given, and is given by the leader of its flight. */
  lemma AnswersAppear(c: Config, s: State, a: Action, t: nat)
    requires Inv(c, s) && Enabled(s, a) && t in s.calls && s.calls[t].Waiting?
    ensures var fid, s' := s.calls[t].fid, Step(c, s, a);
            && (fid in s.answers ==> fid in s'.answers && s'.answers[fid] == s.answers[fid])
            && (fid !in s.answers && fid in s'.answers ==>
                  a.Land? && s.calls[a.t] == Landing(s.calls[t].key, fid, s'.answers[fid]))
  {
  }

  lemma MoveExplained(c: Config, run: seq<Action>)
    requires run != [] && Legal(c, run) && !run[|run| - 1].Tick?
    requires var init := run[..|run| - 1];
             Inv(c, Exec(c, init)) && Explained(c, init, Exec(c, init))
    ensures run[|run| - 1].t in Exec(c, run).calls && ExplainedCall(c, run, Exec(c, run), run[|run| - 1].t)
  {
    var a := run[|run| - 1];
    if a.LookUp? {
      LookUpExplained(c, run);
    } else if a.Enter? {
      EnterExplained(c, run);
    } else if a.Recheck? || a.FnReturns? {
      SettlingExplained(c, run);
    } else if !a.Begin? {
      FinishExplained(c, run);
    }
  }

  lemma LookUpExplained(c: Config, run: seq<Action>)
    requires run != [] && Legal(c, run) && run[|run| - 1].LookUp?
    ensures run[|run| - 1].t in Exec(c, run).calls && ExplainedCall(c, run, Exec(c, run), run[|run| - 1].t)
  {
    var n := |run| - 1;
    var s, s', t := Exec(c, run[..n]), Exec(c, run), run[n].t;
    assert Before(c, run, n) == s;
    if s'.calls[t].Done? {
      assert OwnHit(c, run, n, t, s.calls[t].key, s'.calls[t].answer.value);
    }
  }

  lemma EnterExplained(c: Config, run: seq<Action>)
    requires run != [] && Legal(c, run) && run[|run| - 1].Enter? && Inv(c, Exec(c, run[..|run| - 1]))
    ensures run[|run| - 1].t in Exec(c, run).calls && ExplainedCall(c, run, Exec(c, run), run[|run| - 1].t)
  {
    var n := |run| - 1;
    var s, s', t := Exec(c, run[..n]), Exec(c, run), run[n].t;
    assert Before(c, run, n) == s;
    assert Enters(c, run, n, t, s'.calls[t].fid, s.calls[t].key);
  }

  lemma SettlingExplained(c: Config, run: seq<Action>)
    requires run != [] && Legal(c, run) && (run[|run| - 1].Recheck? || run[|run| - 1].FnReturns?)
    requires Explained(c, run[..|run| - 1], Exec(c, run[..|run| - 1]))
    ensures run[|run| - 1].t in Exec(c, run).calls && ExplainedCall(c, run, Exec(c, run), run[|run| - 1].t)
  {
    var n := |run| - 1;
    var s, s', a := Exec(c, run[..n]), Exec(c, run), run[n];
    var before, after := s.calls[a.t], s'.calls[a.t];
    FlightsRemain(c, run);
    assert ExplainedCall(c, run[..n], s, a.t);
    assert Before(c, run, n) == s;
    if a.FnReturns? {
      assert Settles(c, run, n, before.fid, before.key, a.outcome);
    } else if after.Landing? {
      assert Settles(c, run, n, before.fid, before.key, after.answer);
    }
  }

  lemma FinishExplained(c: Config, run: seq<Action>)
    requires run != [] && Legal(c, run)
    requires var a := run[|run| - 1]; a.Store? || a.Land? || a.Wake?
    requires Explained(c, run[..|run| - 1], Exec(c, run[..|run| - 1]))
    ensures run[|run| - 1].t in Exec(c, run).calls && ExplainedCall(c, run, Exec(c, run), run[|run| - 1].t)
  {
    var init, a := run[..|run| - 1], run[|run| - 1];
    FlightsRemain(c, run);
    assert ExplainedCall(c, init, Exec(c, init), a.t);
  }

  /** Whatever a lookup finds was stored no longer than the TTL before, and was produced by
      a successful `fn` for the same key. */
  lemma HitsAreRecent(c: Config, run: seq<Action>, i: nat, key: string, val: string)
    requires Legal(c, run) && i <= |run| && Fresh(Before(c, run, i), key, val)
    ensures Produced(c, run, key, val)
    ensures exists j, e :: 0 <= j < i && Stores(c, run, j, e) && e.key == key && e.val == val
                           && Before(c, run, i).now <= Before(c, run, j).now + c.ttl
  {
    PrefixLegal(c, run, i);
    var prefix := run[..i];
    CacheHoldsProduced(c, prefix);
    var e := Lookup(Exec(c, prefix).order, key).value;
    forall j | 0 <= j < i ensures prefix[j] == run[j] && Before(c, prefix, j) == Before(c, run, j) {
      assert prefix[..j] == run[..j];
    }
    var j :| 0 <= j < i && Stores(c, prefix, j, e);
    assert Stores(c, run, j, e);
    var k :| 0 <= k < i && Produces(c, prefix, k, key, val);
    assert Produces(c, run, k, key, val);
  }

  /** Over every run, each value returned for a key came from a successful `fn` for that
      key, through the cache or through a flight the call entered; each error returned is
      the outcome of the `fn` of such a flight. */
  lemma EveryAnswerIsJustified(c: Config, run: seq<Action>, t: nat)
    requires Legal(c, run) && t in Exec(c, run).calls && Exec(c, run).calls[t].Done?
    ensures var Done(key, answer) := Exec(c, run).calls[t];
            Justified(c, run, t, key, answer) && (answer.Ok? ==> Produced(c, run, key, answer.value))
  {
    EveryCallIsExplained(c, run);
    var s := Exec(c, run);
    var Done(key, answer) := s.calls[t];
    assert ExplainedCall(c, run, s, t);
    if answer.Ok? {
      if Hit(c, run, t, key, answer.value) {
        var i :| 0 <= i < |run| && OwnHit(c, run, i, t, key, answer.value);
        HitsAreRecent(c, run, i, key, answer.value);
      } else {
        var fid :| Entered(c, run, t, fid, key) && Settled(c, run, fid, key, answer);
        var i :| 0 <= i < |run| && Settles(c, run, i, fid, key, answer);
        if run[i].Recheck? {
          HitsAreRecent(c, run, i, key, answer.value);
        } else {
          assert Produces(c, run, i, key, answer.value);
        }
      }
    }
  }
}
