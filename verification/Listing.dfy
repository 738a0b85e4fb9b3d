/** Paged lists: following continue tokens to the end, and falling back from one served
    version of a custom resource to the next. */
module Listing {
  import opened Outcomes

  const PAGE_SIZE := 500

  datatype Error = NotFound | Other(message: string)

  datatype Request = Request(limit: nat, token: string)

  datatype Response<+T> = Page(items: seq<T>, next: string) | Failed(error: Error)

  type Server<!T> = Request -> Response<T>

  /** The responses a client gets from `token` on, when following continue tokens; having
      one at all says the token chain is finite. */
  ghost predicate Chain<T>(server: Server<T>, token: string, pages: seq<Response<T>>)
    decreases |pages|
  {
    && pages != []
    && pages[0] == server(Request(500, token))
    && if pages[0].Page? && pages[0].next != "" then Chain(server, pages[0].next, pages[1..]) else |pages| == 1
  }

  /** The items delivered, in page order. */
  function Delivered<T>(pages: seq<Response<T>>): seq<T> {
    if pages == [] then []
    else PageItems(pages[0]) + Delivered(pages[1..])
  }

  function Ending<T>(pages: seq<Response<T>>): Option<Error> {
    if pages != [] && pages[|pages| - 1].Failed? then Some(pages[|pages| - 1].error) else None
  }

  /** How many items the pages before `j` hold. */
  function Offset<T>(pages: seq<Response<T>>, j: nat): nat
    requires j <= |pages|
  {
    if j == 0 then 0 else Offset(pages, j - 1) + if pages[j - 1].Page? then |pages[j - 1].items| else 0
  }

  lemma {:induction false} DeliveredSplits<T>(pages: seq<Response<T>>, j: nat)
    requires j <= |pages|
    ensures Delivered(pages) == Delivered(pages[..j]) + Delivered(pages[j..])
    decreases j
  {
    if j == 0 {
      assert pages[0..] == pages;
    } else {
      var rest := pages[1..];
      DeliveredSplits(rest, j - 1);
      assert pages[..j][1..] == rest[..j - 1] && rest[j - 1..] == pages[j..];
      Regroup(PageItems(pages[0]), Delivered(rest[..j - 1]), Delivered(pages[j..]));
    }
  }

  lemma {:induction false} DeliveredCount<T>(pages: seq<Response<T>>, j: nat)
    requires j <= |pages|
    ensures |Delivered(pages[..j])| == Offset(pages, j)
  {
    if j > 0 {
      var less := pages[..j];
      DeliveredCount(pages, j - 1);
      DeliveredSplits(less, j - 1);
      assert less[..j - 1] == pages[..j - 1] && less[j - 1..] == [pages[j - 1]] && less[j - 1..][1..] == [];
    }
  }

  lemma DeliveredSize<T>(pages: seq<Response<T>>)
    ensures |Delivered(pages)| == Offset(pages, |pages|)
  {
    assert pages[..|pages|] == pages;
    DeliveredCount(pages, |pages|);
  }

  /** Every item of every page is delivered, at the place where the earlier pages leave off,
      and nothing else is. */
  lemma DeliveredExactly<T>(pages: seq<Response<T>>, j: nat, i: nat)
    requires j < |pages| && pages[j].Page? && i < |pages[j].items|
    ensures |Delivered(pages)| == Offset(pages, |pages|)
    ensures Offset(pages, j) + i < |Delivered(pages)|
    ensures Delivered(pages)[Offset(pages, j) + i] == pages[j].items[i]
  {
    DeliveredSize(pages);
    DeliveredSplits(pages, j);
    DeliveredCount(pages, j);
    assert pages[j..][0] == pages[j];
  }

  lemma {:induction false} ChainIsUnique<T>(server: Server<T>, token: string, a: seq<Response<T>>, b: seq<Response<T>>)
    requires Chain(server, token, a) && Chain(server, token, b)
    ensures a == b
    decreases |a|
  {
    if a[0].Page? && a[0].next != "" {
      ChainIsUnique(server, a[0].next, a[1..], b[1..]);
      assert a == [a[0]] + a[1..] && b == [b[0]] + b[1..];
    }
  }

  function PageItems<T>(response: Response<T>): seq<T> {
    if response.Page? then response.items else []
  }

  /** What is still to come after the first response of a chain. */
  function Rest<T>(pages: seq<Response<T>>): seq<Response<T>>
    requires pages != []
  {
    if pages[0].Page? && pages[0].next != "" then pages[1..] else []
  }

  lemma Regroup<T>(a: seq<T>, b: seq<T>, c: seq<T>)
    ensures a + (b + c) == a + b + c
  {
  }

  /** What the first response contributes: only the last one of a chain can fail or carry no
      token, and before it the chain goes on from the token. */
  lemma ChainStep<T>(server: Server<T>, token: string, pages: seq<Response<T>>, fed: seq<T>)
    requires Chain(server, token, pages)
    ensures fed + Delivered(pages) == fed + PageItems(pages[0]) + Delivered(Rest(pages))
    ensures Rest(pages) == [] ==> fed + Delivered(pages) == fed + PageItems(pages[0])
    ensures pages[0].Failed? ==> Ending(pages) == Some(pages[0].error)
    ensures pages[0].Page? && pages[0].next == "" ==> Ending(pages) == None
    ensures pages[0].Page? && pages[0].next != "" ==>
              Chain(server, pages[0].next, Rest(pages)) && Ending(pages) == Ending(Rest(pages))
  {
    assert |pages| == 1 ==> pages[1..] == [];
    assert Delivered(pages) == PageItems(pages[0]) + Delivered(Rest(pages));
    Regroup(fed, PageItems(pages[0]), Delivered(Rest(pages)));
    if Rest(pages) == [] {
      assert PageItems(pages[0]) + [] == PageItems(pages[0]);
    }
  }

  /** Calls the list function once per page; `fed` is what the callback was given. */
  method ListPages<T>(server: Server<T>, ghost pages: seq<Response<T>>) returns (fed: seq<T>, err: Option<Error>)
    requires Chain(server, "", pages)
    ensures fed == Delivered(pages) && err == Ending(pages)
  {
    fed := [];
    var opts := Request(PAGE_SIZE, "");
    ghost var left := pages;
    while true
      invariant opts.limit == PAGE_SIZE && Chain(server, opts.token, left)
      invariant fed + Delivered(left) == Delivered(pages) && Ending(left) == Ending(pages)
      decreases |left|
    {
      ChainStep(server, opts.token, left, fed);
      var response := server(opts);
      fed, left := fed + PageItems(response), Rest(left);
      if response.Failed? {
        return fed, Some(response.error);
      }
      if response.next == "" {
        return fed, None;
      }
      opts := opts.(token := response.next);
    }
  }

  // ---- versions ----

  datatype Custom<+T> = Custom(fed: seq<T>, installed: bool, err: Option<Error>)

  /** What trying the versions in turn comes to, given the responses for each. */
  function TryVersions<T>(chains: seq<seq<Response<T>>>): Custom<T> {
    if chains == [] then Custom([], false, None)
    else match Ending(chains[0])
      case None => Custom(Delivered(chains[0]), true, None)
      case Some(NotFound) =>
        var rest := TryVersions(chains[1..]);
        rest.(fed := Delivered(chains[0]) + rest.fed)
      case Some(error) => Custom(Delivered(chains[0]), false, Some(error))
  }

  ghost predicate Chains<T>(cluster: string -> Server<T>, versions: seq<string>, chains: seq<seq<Response<T>>>) {
    |chains| == |versions| && forall i :: 0 <= i < |versions| ==> Chain(cluster(versions[i]), "", chains[i])
  }

  /** The outcome with more items fed before it. */
  function After<T>(fed: seq<T>, rest: Custom<T>): Custom<T> {
    rest.(fed := fed + rest.fed)
  }

  lemma AfterAfter<T>(a: seq<T>, b: seq<T>, rest: Custom<T>)
    ensures After(a, After(b, rest)) == After(a + b, rest)
  {
    Regroup(a, b, rest.fed);
  }

  /** What the next version's answer adds to what the later ones come to. */
  lemma TryNext<T>(chains: seq<seq<Response<T>>>, i: nat)
    requires i < |chains|
    ensures var pages, later, rest := chains[i], TryVersions(chains[i..]), TryVersions(chains[i + 1..]);
            if Ending(pages) == Some(NotFound) then later == After(Delivered(pages), rest)
            else later == Custom(Delivered(pages), Ending(pages).None?, Ending(pages))
  {
    assert chains[i..][1..] == chains[i + 1..];
  }

  method ListCustom<T>(cluster: string -> Server<T>, versions: seq<string>, ghost chains: seq<seq<Response<T>>>)
    returns (fed: seq<T>, installed: bool, err: Option<Error>)
    requires Chains(cluster, versions, chains)
    ensures Custom(fed, installed, err) == TryVersions(chains)
  {
    fed := [];
    for i := 0 to |versions|
      invariant After(fed, TryVersions(chains[i..])) == TryVersions(chains)
    {
      var items, e := ListPages(cluster(versions[i]), chains[i]);
      TryNext(chains, i);
      AfterAfter(fed, items, TryVersions(chains[i + 1..]));
      fed := fed + items;
      if e == Some(NotFound) {
        continue;
      }
      if e.Some? {
        return fed, false, e;
      }
      return fed, true, None;
    }
    return fed, false, None;
  }

  /** The first version that does not answer NotFound, or the number of versions. */
  function FirstServed<T>(chains: seq<seq<Response<T>>>): (i: nat)
    ensures i <= |chains|
    ensures forall j :: 0 <= j < i ==> Ending(chains[j]) == Some(NotFound)
    ensures i < |chains| ==> Ending(chains[i]) != Some(NotFound)
  {
    if chains == [] || Ending(chains[0]) != Some(NotFound) then 0 else 1 + FirstServed(chains[1..])
  }

  /** What earlier versions delivered before answering NotFound. */
  function Strays<T>(chains: seq<seq<Response<T>>>): seq<T> {
    if chains == [] then [] else Delivered(chains[0]) + Strays(chains[1..])
  }

  lemma StraysFrom<T>(chains: seq<seq<Response<T>>>, i: nat)
    requires 0 < i <= |chains|
    ensures Strays(chains[..i]) == Delivered(chains[0]) + Strays(chains[1..][..i - 1])
  {
    assert chains[..i][1..] == chains[1..][..i - 1];
  }

  lemma {:induction false} FedByFirstServed<T>(chains: seq<seq<Response<T>>>)
    ensures var i := FirstServed(chains);
            TryVersions(chains).fed == Strays(chains[..i]) + if i < |chains| then Delivered(chains[i]) else []
  {
    if chains != [] && Ending(chains[0]) == Some(NotFound) {
      FedByFirstServed(chains[1..]);
      StraysFrom(chains, FirstServed(chains));
    } else {
      assert FirstServed(chains) == 0 && Strays(chains[..0]) == [];
    }
  }

  lemma {:induction false} StatusOfFirstServed<T>(chains: seq<seq<Response<T>>>)
    ensures var i, r := FirstServed(chains), TryVersions(chains);
            && r.installed == (i < |chains| && Ending(chains[i]) == None)
            && r.err == if i < |chains| then Ending(chains[i]) else None
  {
    if chains != [] && Ending(chains[0]) == Some(NotFound) {
      StatusOfFirstServed(chains[1..]);
    }
  }

  /** The answer in closed form: installed exactly when the first version that does not
      answer NotFound is listed to its end, an error exactly when that version fails, and
      not installed exactly when every version answers NotFound. */
  lemma AnswerIsFirstServed<T>(chains: seq<seq<Response<T>>>)
    ensures var i, r := FirstServed(chains), TryVersions(chains);
            && (r.installed <==> i < |chains| && Ending(chains[i]) == None)
            && (r.err.Some? <==> i < |chains| && Ending(chains[i]).Some?)
            && (!r.installed && r.err.None? <==> forall j :: 0 <= j < |chains| ==> Ending(chains[j]) == Some(NotFound))
            && r.fed == Strays(chains[..i]) + if i < |chains| then Delivered(chains[i]) else []
  {
    FedByFirstServed(chains);
    StatusOfFirstServed(chains);
  }

  lemma {:induction false} StraysEmpty<T>(chains: seq<seq<Response<T>>>)
    ensures Strays(chains) == [] <==> forall j :: 0 <= j < |chains| ==> Delivered(chains[j]) == []
  {
    if chains != [] {
      StraysEmpty(chains[1..]);
      assert chains == [chains[0]] + chains[1..];
    }
  }

  lemma NoStrays<T>(chains: seq<seq<Response<T>>>, n: nat)
    requires n <= |chains|
    ensures Strays(chains[..n]) == [] <==> forall j :: 0 <= j < n ==> Delivered(chains[j]) == []
  {
    StraysEmpty(chains[..n]);
    assert forall j :: 0 <= j < n ==> chains[..n][j] == chains[j];
  }

  lemma PrefixEmpty<T>(a: seq<T>, b: seq<T>)
    ensures a + b == b <==> a == []
  {
    assert |a + b| == |a| + |b|;
    if a == [] {
      assert a + b == b;
    }
  }

  /** On success the callback saw every item of the served version, in page order, exactly
      once, if and only if no earlier version delivered an item before its NotFound. */
  lemma FedExactlyOnce<T>(chains: seq<seq<Response<T>>>)
    requires TryVersions(chains).installed
    ensures FirstServed(chains) < |chains|
    ensures TryVersions(chains).fed == Delivered(chains[FirstServed(chains)]) <==>
            forall j :: 0 <= j < FirstServed(chains) ==> Delivered(chains[j]) == []
  {
    AnswerIsFirstServed(chains);
    var i := FirstServed(chains);
    NoStrays(chains, i);
    PrefixEmpty(Strays(chains[..i]), Delivered(chains[i]));
  }

  /** NotFound only ever answers the first request for a version. */
  ghost predicate NotFoundComesFirst<T>(pages: seq<Response<T>>) {
    Ending(pages) == Some(NotFound) ==> |pages| == 1
  }

  lemma LoneFailure<T>(pages: seq<Response<T>>)
    requires |pages| == 1 && pages[0].Failed?
    ensures Delivered(pages) == []
  {
    assert pages[1..] == [];
  }

  lemma NotFoundFirstFeedsOnce<T>(chains: seq<seq<Response<T>>>)
    requires TryVersions(chains).installed
    requires forall j :: 0 <= j < |chains| ==> NotFoundComesFirst(chains[j])
    ensures FirstServed(chains) < |chains|
    ensures TryVersions(chains).fed == Delivered(chains[FirstServed(chains)])
  {
    FedExactlyOnce(chains);
    forall j | 0 <= j < FirstServed(chains) ensures Delivered(chains[j]) == [] {
      assert NotFoundComesFirst(chains[j]);
      LoneFailure(chains[j]);
    }
  }

  // ---- a resource that disappears between two pages ----

  /** Version `v1` serves one page and is gone when the second is asked for; `v2` serves the
      same item. */
  function Vanishing(): string -> Server<int> {
    version => (request: Request) =>
      if version == "v2" then Page([7], "")
      else if request.token == "" then Page([7], "more")
      else Failed(NotFound)
  }

  lemma VanishingChains()
    ensures Chains(Vanishing(), ["v1", "v2"], [[Page([7], "more"), Failed(NotFound)], [Page([7], "")]])
  {
    var late: seq<Response<int>> := [Page([7], "more"), Failed(NotFound)];
    var next: seq<Response<int>> := [Page([7], "")];
    var first, second := Vanishing()("v1"), Vanishing()("v2");
    assert "v1"[1] != "v2"[1];
    assert late[1..] == [Failed(NotFound)];
    assert Chain(first, "more", late[1..]);
    assert Chain(first, "", late) && Chain(second, "", next);
  }

  /** It is fed again from the next version. */
  lemma LateNotFoundFeedsTwice()
    ensures exists chains ::
              Chains(Vanishing(), ["v1", "v2"], chains) && TryVersions(chains) == Custom([7, 7], true, None)
  {
    var late: seq<Response<int>> := [Page([7], "more"), Failed(NotFound)];
    var next: seq<Response<int>> := [Page([7], "")];
    VanishingChains();
    assert late[1..] == [Failed(NotFound)] && late[1..][1..] == [] && next[1..] == [];
    assert Delivered(late) == [7] && Delivered(next) == [7];
    assert [late, next][1..] == [next];
  }
}
