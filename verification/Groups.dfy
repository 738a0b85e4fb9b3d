/** Which groups a user belongs to: the cluster's groups, inverted and refreshed at most
    once per lifetime. */
module Groups {
  import opened Outcomes

  datatype Group = Group(name: string, users: seq<string>)

  type ByUser = map<string, seq<string>>

  // ---- inverting the membership relation ----

  function Of(m: ByUser, user: string): seq<string> {
    if user in m then m[user] else []
  }

  function AddUsers(m: ByUser, name: string, users: seq<string>): ByUser {
    if users == [] then m
    else
      var before, u := AddUsers(m, name, users[..|users| - 1]), users[|users| - 1];
      before[u := Of(before, u) + [name]]
  }

  function Inverse(groups: seq<Group>): ByUser {
    if groups == [] then map[]
    else
      var last := groups[|groups| - 1];
      AddUsers(Inverse(groups[..|groups| - 1]), last.name, last.users)
  }

  /** JSON decoding is the library's: any partial reading of the data. */
  datatype Decoder<!Data> = Decoder(read: Data -> Option<seq<Group>>)

  /** Data that cannot be read names no groups. */
  function Parsed<Data>(d: Decoder<Data>, data: Data): ByUser {
    match d.read(data)
    case None => map[]
    case Some(groups) => Inverse(groups)
  }

  method ParseGroups<Data>(d: Decoder<Data>, data: Data) returns (m: ByUser)
    ensures m == Parsed(d, data)
  {
    m := map[];
    var list := d.read(data);
    if list.None? {
      return;
    }
    var groups := list.value;
    for i := 0 to |groups|
      invariant m == Inverse(groups[..i])
    {
      assert groups[..i + 1][..i] == groups[..i];
      var name, users := groups[i].name, groups[i].users;
      ghost var before := m;
      for k := 0 to |users|
        invariant m == AddUsers(before, name, users[..k])
      {
        assert users[..k + 1][..k] == users[..k];
        m := m[users[k] := Of(m, users[k]) + [name]];
      }
      assert users[..|users|] == users;
    }
    assert groups[..|groups|] == groups;
  }

  function Repeated(name: string, n: nat): seq<string> {
    if n == 0 then [] else Repeated(name, n - 1) + [name]
  }

  function Times(users: seq<string>, user: string): nat {
    if users == [] then 0
    else Times(users[..|users| - 1], user) + if users[|users| - 1] == user then 1 else 0
  }

  /** The groups of a user in listing order, each as often as it names the user. */
  function Memberships(groups: seq<Group>, user: string): seq<string> {
    if groups == [] then []
    else
      var last := groups[|groups| - 1];
      Memberships(groups[..|groups| - 1], user) + Repeated(last.name, Times(last.users, user))
  }

  lemma {:induction false} AddUsersAppends(m: ByUser, name: string, users: seq<string>, user: string)
    ensures Of(AddUsers(m, name, users), user) == Of(m, user) + Repeated(name, Times(users, user))
  {
    if users != [] {
      var init := users[..|users| - 1];
      AddUsersAppends(m, name, init, user);
      var before, added := Of(m, user), Repeated(name, Times(init, user));
      assert before + added + [name] == before + (added + [name]);
    }
  }

  /** The table is the inverse of the listing, with order and multiplicity. */
  lemma {:induction false} InverseIsMemberships(groups: seq<Group>, user: string)
    ensures Of(Inverse(groups), user) == Memberships(groups, user)
  {
    if groups != [] {
      var init, last := groups[..|groups| - 1], groups[|groups| - 1];
      InverseIsMemberships(init, user);
      AddUsersAppends(Inverse(init), last.name, last.users, user);
    }
  }

  lemma {:induction false} RepeatedHas(name: string, n: nat)
    ensures forall x :: x in Repeated(name, n) <==> x == name && n > 0
  {
    if n > 0 {
      RepeatedHas(name, n - 1);
    }
  }

  lemma {:induction false} TimesPositive(users: seq<string>, user: string)
    ensures Times(users, user) > 0 <==> user in users
  {
    if users != [] {
      TimesPositive(users[..|users| - 1], user);
      assert users == users[..|users| - 1] + [users[|users| - 1]];
    }
  }

  /** A user is told a group exactly when a group of that name lists the user. */
  lemma {:induction false} InverseRelation(groups: seq<Group>, user: string, name: string)
    ensures name in Of(Inverse(groups), user) <==> exists g :: g in groups && g.name == name && user in g.users
  {
    InverseIsMemberships(groups, user);
    if groups != [] {
      var init, last := groups[..|groups| - 1], groups[|groups| - 1];
      InverseRelation(init, user, name);
      InverseIsMemberships(init, user);
      RepeatedHas(last.name, Times(last.users, user));
      TimesPositive(last.users, user);
      assert groups == init + [last];
    }
  }

  // ---- one call ----

  /** What a call sees: the clock before and after a fetch, and what a fetch would answer. */
  datatype Call<Data> = Call(user: string, now: int, after: int, fetched: Option<Data>)

  datatype Cache = Cache(expires: int, byUser: ByUser)

  /** The zero time, before every clock reading. */
  const START := 0

  function Initial(): Cache {
    Cache(START, map[])
  }

  predicate Fetches<Data>(c: Cache, call: Call<Data>) {
    call.now > c.expires
  }

  function Step<Data>(d: Decoder<Data>, ttl: int, c: Cache, call: Call<Data>): Cache {
    if !Fetches(c, call) then c
    else Cache(call.after + ttl, if call.fetched.Some? then Parsed(d, call.fetched.value) else c.byUser)
  }

  class GroupCache<Data(!new)> {
    const decoder: Decoder<Data>
    const ttl: int
    var expires: int
    var byUser: ByUser

    function State(): Cache
      reads this
    {
      Cache(expires, byUser)
    }

    constructor (decoder: Decoder<Data>, ttl: int)
      ensures this.decoder == decoder && this.ttl == ttl && State() == Initial()
    {
      this.decoder, this.ttl, expires, byUser := decoder, ttl, START, map[];
    }

    /** The lock makes calls atomic. A failed fetch keeps the table and is not retried
        before the lifetime has passed. */
    method GroupsFor(call: Call<Data>) returns (groups: seq<string>)
      modifies this
      ensures State() == Step(decoder, ttl, old(State()), call)
      ensures groups == Of(State().byUser, call.user)
    {
      if call.now > expires {
        if call.fetched.Some? {
          byUser := ParseGroups(decoder, call.fetched.value);
        }
        expires := call.after + ttl;
      }
      groups := if call.user in byUser then byUser[call.user] else [];
    }
  }

  // ---- whole runs ----

  function Run<Data>(d: Decoder<Data>, ttl: int, calls: seq<Call<Data>>): Cache {
    if calls == [] then Initial() else Step(d, ttl, Run(d, ttl, calls[..|calls| - 1]), calls[|calls| - 1])
  }

  /** The calls that fetched. */
  function Fetched<Data>(d: Decoder<Data>, ttl: int, calls: seq<Call<Data>>): seq<Call<Data>> {
    if calls == [] then []
    else
      var init, last := calls[..|calls| - 1], calls[|calls| - 1];
      Fetched(d, ttl, init) + if Fetches(Run(d, ttl, init), last) then [last] else []
  }

  /** The clock never goes back. */
  ghost predicate Monotone<Data>(calls: seq<Call<Data>>) {
    && (forall i :: 0 <= i < |calls| ==> START < calls[i].now <= calls[i].after)
    && forall i, j :: 0 <= i < j < |calls| ==> calls[i].after <= calls[j].now
  }

  lemma {:induction false} ExpiryIsLastFetch<Data>(d: Decoder<Data>, ttl: int, calls: seq<Call<Data>>)
    requires Monotone(calls)
    ensures var made := Fetched(d, ttl, calls);
            && (calls != [] ==> made != [])
            && Run(d, ttl, calls).expires == if made == [] then START else made[|made| - 1].after + ttl
  {
    if calls != [] {
      ExpiryIsLastFetch(d, ttl, calls[..|calls| - 1]);
    }
  }

  /** Fetches start more than a lifetime after the one before ended, and every call is
      answered within a lifetime of the end of the last fetch. */
  lemma {:induction false} FetchesAreApart<Data>(d: Decoder<Data>, ttl: int, calls: seq<Call<Data>>)
    requires Monotone(calls)
    ensures var made := Fetched(d, ttl, calls);
            && (forall i :: 0 < i < |made| ==> made[i].now > made[i - 1].after + ttl)
            && (calls != [] ==>
                  var last := calls[|calls| - 1];
                  made != [] && (made[|made| - 1] == last || last.now <= made[|made| - 1].after + ttl))
  {
    if calls != [] {
      FetchesAreApart(d, ttl, calls[..|calls| - 1]);
      ExpiryIsLastFetch(d, ttl, calls[..|calls| - 1]);
    }
  }

  function LastGood<Data>(made: seq<Call<Data>>): Option<Data> {
    if made == [] then None
    else if made[|made| - 1].fetched.Some? then made[|made| - 1].fetched
    else LastGood(made[..|made| - 1])
  }

  /** After any calls, every user is told the groups of the last successful fetch. */
  lemma {:induction false} AnswersAreLastGood<Data>(d: Decoder<Data>, ttl: int, calls: seq<Call<Data>>, user: string)
    ensures var good := LastGood(Fetched(d, ttl, calls));
            Of(Run(d, ttl, calls).byUser, user) ==
            if good.Some? && d.read(good.value).Some? then Memberships(d.read(good.value).value, user) else []
  {
    if calls != [] {
      var init, last := calls[..|calls| - 1], calls[|calls| - 1];
      AnswersAreLastGood(d, ttl, init, user);
      var made := Fetched(d, ttl, init);
      if Fetches(Run(d, ttl, init), last) {
        assert (made + [last])[..|made|] == made;
        if last.fetched.Some? && d.read(last.fetched.value).Some? {
          InverseIsMemberships(d.read(last.fetched.value).value, user);
        }
      } else {
        assert made + [] == made;
      }
    }
  }
}
