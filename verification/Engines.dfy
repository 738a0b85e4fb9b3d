/** Which data service a container image runs: the image's name, and the longest keyword
    found in the name of any image that is not an exporter. */
module Engines {
  import opened Outcomes
  import opened Text

  // ---- image references ----

  /** `reg:5000/bitnami/redis:7.2` becomes `redis`. */
  function ImageName(image: string): string {
    ToLower(Before(AfterLast(Before(image, '@'), '/'), ':'))
  }

  /** An image reference taken apart; the path is everything before the last slash. */
  datatype Image = Image(path: Option<string>, name: string, tag: Option<string>, digest: Option<string>) {
    /** Separators appear only where printing puts them. */
    predicate Valid() {
      && (path.Some? ==> '@' !in path.value)
      && '@' !in name && '/' !in name && ':' !in name
      && (tag.Some? ==> '@' !in tag.value && '/' !in tag.value)
    }

    function Base(): string {
      name + Suffix(':', tag)
    }

    function Undigested(): string {
      Prefix(path, '/') + Base()
    }

    function Print(): string {
      Undigested() + Suffix('@', digest)
    }
  }

  /** The name is found again in every printed reference. */
  lemma ImageNameOfPrinted(i: Image)
    requires i.Valid()
    ensures ImageName(i.Print()) == ToLower(i.name)
  {
    BeforeSuffix(i.Undigested(), '@', i.digest);
    AfterPrefix(i.path, '/', i.Base());
    BeforeSuffix(i.name, ':', i.tag);
  }

  function Parse(image: string): Image {
    var undigested := Before(image, '@');
    var base := AfterLast(undigested, '/');
    Image(BeforeLast(undigested, '/'), Before(base, ':'), After(base, ':'), After(image, '@'))
  }

  /** Every string is a printed reference, and its image name is that reference's name:
      with `ImageNameOfPrinted`, the name is defined by printing alone. */
  lemma EveryImagePrints(image: string)
    ensures Parse(image).Valid() && Parse(image).Print() == image
    ensures ImageName(image) == ToLower(Parse(image).name)
  {
    var undigested := Before(image, '@');
    CutJoins(image, '@');
    CutLastJoins(undigested, '/');
    CutJoins(AfterLast(undigested, '/'), ':');
  }

  // ---- the engine ----

  const EXPORTER := "exporter"

  predicate IsExporter(image: string) {
    Contains(ImageName(image), EXPORTER)
  }

  function Better(best: string, name: string, keyword: string): string {
    if |keyword| > |best| && Contains(name, keyword) then keyword else best
  }

  function BestIn(name: string, keywords: seq<string>, best: string): string {
    if keywords == [] then best
    else Better(BestIn(name, keywords[..|keywords| - 1], best), name, keywords[|keywords| - 1])
  }

  function Engine(images: seq<string>, keywords: seq<string>): string {
    if images == [] then ""
    else
      var before, image := Engine(images[..|images| - 1], keywords), images[|images| - 1];
      if IsExporter(image) then before else BestIn(ImageName(image), keywords, before)
  }

  method DetectEngine(images: seq<string>, keywords: seq<string>) returns (best: string)
    ensures best == Engine(images, keywords)
  {
    best := "";
    for i := 0 to |images|
      invariant best == Engine(images[..i], keywords)
    {
      assert images[..i + 1][..i] == images[..i];
      if IsExporter(images[i]) {
        continue;
      }
      var name := ImageName(images[i]);
      ghost var before := best;
      for k := 0 to |keywords|
        invariant best == BestIn(name, keywords[..k], before)
      {
        assert keywords[..k + 1][..k] == keywords[..k];
        if |keywords[k]| > |best| && Contains(name, keywords[k]) {
          best := keywords[k];
        }
      }
      assert keywords[..|keywords|] == keywords;
    }
    assert images[..|images|] == images;
  }

  /** Keyword `k` names a service in image `i`. */
  predicate Names(images: seq<string>, keywords: seq<string>, i: int, k: int) {
    && 0 <= i < |images| && 0 <= k < |keywords|
    && !Contains(ImageName(images[i]), "exporter") && keywords[k] != "" && Contains(ImageName(images[i]), keywords[k])
  }

  /** Either nothing is named and the engine is empty, or it is the first of the longest
      keywords named, in image order and then keyword order. */
  ghost predicate IsEngine(images: seq<string>, keywords: seq<string>, engine: string) {
    if engine == "" then forall i, k :: !Names(images, keywords, i, k)
    else exists i, k :: Names(images, keywords, i, k) && keywords[k] == engine && FirstLongest(images, keywords, i, k)
  }

  ghost predicate FirstLongest(images: seq<string>, keywords: seq<string>, i: int, k: int)
    requires Names(images, keywords, i, k)
  {
    forall j, l :: Names(images, keywords, j, l) ==>
      && |keywords[l]| <= |keywords[k]|
      && (j < i || (j == i && l < k) ==> |keywords[l]| < |keywords[k]|)
  }

  lemma {:induction false} BestInWhere(name: string, keywords: seq<string>, best: string) returns (k: int)
    ensures |best| <= |BestIn(name, keywords, best)|
    ensures forall l :: 0 <= l < |keywords| && Contains(name, keywords[l]) ==>
              |keywords[l]| <= |BestIn(name, keywords, best)|
    ensures -1 <= k < |keywords|
    ensures k == -1 ==> BestIn(name, keywords, best) == best
    ensures k >= 0 ==>
              BestIn(name, keywords, best) == keywords[k] && Contains(name, keywords[k]) && |best| < |keywords[k]|
    ensures k >= 0 ==> forall l :: 0 <= l < k && Contains(name, keywords[l]) ==> |keywords[l]| < |keywords[k]|
  {
    if keywords == [] {
      k := -1;
    } else {
      var init, last := keywords[..|keywords| - 1], keywords[|keywords| - 1];
      k := BestInWhere(name, init, best);
      var before := BestIn(name, init, best);
      assert forall l :: 0 <= l < |init| ==> init[l] == keywords[l];
      if |last| > |before| && Contains(name, last) {
        k := |init|;
      }
    }
  }

  ghost predicate AtMost(images: seq<string>, keywords: seq<string>, i: int, bound: nat) {
    forall l :: Names(images, keywords, i, l) ==> |keywords[l]| <= bound
  }

  /** A choice among the earlier images stands if the next image names nothing longer. */
  lemma ChoiceStands(images: seq<string>, image: string, keywords: seq<string>, engine: string)
    requires IsEngine(images, keywords, engine)
    requires AtMost(images + [image], keywords, |images|, |engine|)
    ensures IsEngine(images + [image], keywords, engine)
  {
    NamesPrefix(images, image, keywords);
    var more := images + [image];
    if engine == "" {
      forall i, k ensures !Names(more, keywords, i, k) {
        assert i < |images| ==> !Names(images, keywords, i, k);
      }
    } else {
      var i, k :| Names(images, keywords, i, k) && keywords[k] == engine && FirstLongest(images, keywords, i, k);
      assert Names(more, keywords, i, k);
      assert FirstLongest(more, keywords, i, k);
    }
  }

  /** The next image's choice replaces a shorter one. */
  lemma ChoiceReplaced(images: seq<string>, image: string, keywords: seq<string>, engine: string, k: nat)
    requires IsEngine(images, keywords, engine)
    requires Names(images + [image], keywords, |images|, k) && |keywords[k]| > |engine|
    requires AtMost(images + [image], keywords, |images|, |keywords[k]|)
    requires forall l :: 0 <= l < k && Names(images + [image], keywords, |images|, l) ==> |keywords[l]| < |keywords[k]|
    ensures IsEngine(images + [image], keywords, keywords[k])
  {
    NamesPrefix(images, image, keywords);
    var more := images + [image];
    forall j, l | Names(more, keywords, j, l) && j < |images| ensures |keywords[l]| < |keywords[k]| {
      assert Names(images, keywords, j, l);
      Bounded(images, keywords, engine, j, l);
    }
    assert FirstLongest(more, keywords, |images|, k);
  }

  lemma Bounded(images: seq<string>, keywords: seq<string>, engine: string, j: int, l: int)
    requires IsEngine(images, keywords, engine) && Names(images, keywords, j, l)
    ensures |keywords[l]| <= |engine|
  {
  }

  lemma NamesPrefix(images: seq<string>, image: string, keywords: seq<string>)
    ensures forall i, k :: i < |images| ==>
              (Names(images + [image], keywords, i, k) <==> Names(images, keywords, i, k))
    ensures forall k :: Names(images + [image], keywords, |images|, k) <==>
              0 <= k < |keywords| && !IsExporter(image) && keywords[k] != "" && Contains(ImageName(image), keywords[k])
    ensures forall i, k :: Names(images + [image], keywords, i, k) ==> i <= |images|
  {
  }

  /** The detected engine is a longest keyword named by any image that is not an exporter,
      and empty exactly when none is named. */
  lemma {:induction false} EngineIs(images: seq<string>, keywords: seq<string>)
    ensures IsEngine(images, keywords, Engine(images, keywords))
  {
    if images != [] {
      var init, last := images[..|images| - 1], images[|images| - 1];
      assert images == init + [last];
      EngineIs(init, keywords);
      EngineStep(init, last, keywords);
    }
  }

  lemma EngineStep(images: seq<string>, image: string, keywords: seq<string>)
    requires IsEngine(images, keywords, Engine(images, keywords))
    ensures IsEngine(images + [image], keywords, Engine(images + [image], keywords))
  {
    var more, before, name := images + [image], Engine(images, keywords), ImageName(image);
    assert more[..|more| - 1] == images;
    NamesPrefix(images, image, keywords);
    if IsExporter(image) {
      ChoiceStands(images, image, keywords, before);
    } else {
      var k := BestInWhere(name, keywords, before);
      assert Engine(more, keywords) == BestIn(name, keywords, before);
      if k >= 0 {
        ChoiceReplaced(images, image, keywords, before, k);
      } else {
        ChoiceStands(images, image, keywords, before);
      }
    }
  }

  /** That description leaves no choice. */
  lemma EngineIsUnique(images: seq<string>, keywords: seq<string>, engine: string)
    requires IsEngine(images, keywords, engine)
    ensures engine == Engine(images, keywords)
  {
    var detected := Engine(images, keywords);
    EngineIs(images, keywords);
    if engine != "" {
      var i, k :| Names(images, keywords, i, k) && keywords[k] == engine && FirstLongest(images, keywords, i, k);
      if detected != "" {
        var j, l :| Names(images, keywords, j, l) && keywords[l] == detected && FirstLongest(images, keywords, j, l);
      }
    }
  }

  // ---- the order of images and keywords ----

  /** Keyword `k` is named in image `i`, and nothing longer is named anywhere. */
  ghost predicate NamesLongest(images: seq<string>, keywords: seq<string>, i: int, k: int) {
    Names(images, keywords, i, k) && forall j, l :: Names(images, keywords, j, l) ==> |keywords[l]| <= |keywords[k]|
  }

  /** All longest keywords named are one string. */
  ghost predicate OneLongest(images: seq<string>, keywords: seq<string>) {
    forall i, k, j, l :: NamesLongest(images, keywords, i, k) && NamesLongest(images, keywords, j, l) ==>
      keywords[k] == keywords[l]
  }

  ghost predicate SameMembers(a: seq<string>, b: seq<string>) {
    forall s :: s in a <==> s in b
  }

  /** Then neither the order nor repetitions of images and keywords matter. */
  lemma EngineIgnoresOrder(images: seq<string>, keywords: seq<string>, images': seq<string>, keywords': seq<string>)
    requires SameMembers(images, images') && SameMembers(keywords, keywords') && OneLongest(images, keywords)
    ensures Engine(images, keywords) == Engine(images', keywords')
  {
    EngineAtLeast(images, keywords, images', keywords');
    EngineAtLeast(images', keywords', images, keywords);
    if Engine(images, keywords) != "" {
      var i, k := EngineNamed(images, keywords);
      var j, l := EngineNamedIn(images', keywords', images, keywords);
      SameLengthLongest(images, keywords, i, k, j, l);
    }
  }

  lemma EngineNamedIn(images: seq<string>, keywords: seq<string>, images': seq<string>, keywords': seq<string>)
    returns (i: int, k: int)
    requires Engine(images, keywords) != "" && SameMembers(images, images') && SameMembers(keywords, keywords')
    ensures Names(images', keywords', i, k) && keywords'[k] == Engine(images, keywords)
  {
    i, k := EngineNamed(images, keywords);
    assert images[i] in images && keywords[k] in keywords;
    i, k := SameNames(images, keywords, images', keywords', i, k);
  }

  lemma SameLengthLongest(images: seq<string>, keywords: seq<string>, i: int, k: int, j: int, l: int)
    requires NamesLongest(images, keywords, i, k) && Names(images, keywords, j, l) && |keywords[l]| == |keywords[k]|
    ensures NamesLongest(images, keywords, j, l)
  {
  }

  lemma EngineNamed(images: seq<string>, keywords: seq<string>) returns (i: int, k: int)
    requires Engine(images, keywords) != ""
    ensures NamesLongest(images, keywords, i, k) && keywords[k] == Engine(images, keywords)
  {
    EngineIs(images, keywords);
    i, k :| Names(images, keywords, i, k) && keywords[k] == Engine(images, keywords) &&
            FirstLongest(images, keywords, i, k);
  }

  lemma SameNames(images: seq<string>, keywords: seq<string>, images': seq<string>, keywords': seq<string>,
                  i: int, k: int)
    returns (i': int, k': int)
    requires Names(images, keywords, i, k) && images[i] in images' && keywords[k] in keywords'
    ensures Names(images', keywords', i', k') && images'[i'] == images[i] && keywords'[k'] == keywords[k]
  {
    i' :| 0 <= i' < |images'| && images'[i'] == images[i];
    k' :| 0 <= k' < |keywords'| && keywords'[k'] == keywords[k];
  }

  function InFront(s: seq<string>, i: nat): seq<string>
    requires i < |s|
  {
    [s[i]] + s[..i] + s[i + 1..]
  }

  lemma InFrontPermutes(s: seq<string>, i: nat)
    requires i < |s|
    ensures multiset(InFront(s, i)) == multiset(s) && SameMembers(s, InFront(s, i))
  {
    assert s == s[..i] + [s[i]] + s[i + 1..];
    forall x ensures x in s <==> x in InFront(s, i) {
      assert x in s <==> x in multiset(s);
      assert x in InFront(s, i) <==> x in multiset(InFront(s, i));
    }
  }

  /** A longest keyword is detected once it and its image come first. */
  lemma FrontIsDetected(images: seq<string>, keywords: seq<string>, i: nat, k: nat)
    requires NamesLongest(images, keywords, i, k)
    ensures Engine(InFront(images, i), InFront(keywords, k)) == keywords[k]
  {
    var images', keywords' := InFront(images, i), InFront(keywords, k);
    InFrontPermutes(images, i);
    InFrontPermutes(keywords, k);
    assert Names(images', keywords', 0, 0);
    forall j, l | Names(images', keywords', j, l) ensures |keywords'[l]| <= |keywords'[0]| {
      assert images'[j] in images' && keywords'[l] in keywords';
      var j', l' := SameNames(images', keywords', images, keywords, j, l);
    }
    assert FirstLongest(images', keywords', 0, 0);
    EngineIsUnique(images', keywords', keywords[k]);
  }

  ghost predicate OrderIndependent(images: seq<string>, keywords: seq<string>) {
    forall images', keywords' :: multiset(images') == multiset(images) && multiset(keywords') == multiset(keywords) ==>
      Engine(images', keywords') == Engine(images, keywords)
  }

  lemma SameMultiset(a: seq<string>, b: seq<string>)
    requires multiset(a) == multiset(b)
    ensures SameMembers(a, b)
  {
    forall x ensures x in a <==> x in b {
      assert x in a <==> x in multiset(a);
      assert x in b <==> x in multiset(b);
    }
  }

  /** The order is irrelevant exactly when all longest keywords named are one string. */
  lemma OrderIndependentExactly(images: seq<string>, keywords: seq<string>)
    ensures OrderIndependent(images, keywords) <==> OneLongest(images, keywords)
  {
    if OneLongest(images, keywords) {
      forall images', keywords' | multiset(images') == multiset(images) && multiset(keywords') == multiset(keywords)
        ensures Engine(images', keywords') == Engine(images, keywords)
      {
        SameMultiset(images', images);
        SameMultiset(keywords', keywords);
        EngineIgnoresOrder(images, keywords, images', keywords');
      }
    }
    if OrderIndependent(images, keywords) {
      forall i, k, j, l | NamesLongest(images, keywords, i, k) && NamesLongest(images, keywords, j, l)
        ensures keywords[k] == keywords[l]
      {
        FrontIsDetected(images, keywords, i, k);
        FrontIsDetected(images, keywords, j, l);
        InFrontPermutes(images, i);
        InFrontPermutes(images, j);
        InFrontPermutes(keywords, k);
        InFrontPermutes(keywords, l);
      }
    }
  }

  lemma OccursIn(before: string, part: string, after: string)
    ensures Contains(before + part + after, part)
  {
    ContainsItself(part);
    ContainsConcat(part, before, part);
    ContainsConcat(before + part, after, part);
  }

  lemma PlainImageName(image: string)
    requires forall i :: 0 <= i < |image| ==> image[i] !in "@/:" && Lower(image[i]) == image[i]
    ensures ImageName(image) == image
  {
    var i := Image(None, image, None, None);
    assert i.Print() == image;
    ImageNameOfPrinted(i);
    assert ToLower(image) == image;
  }

  /** An image that names two keywords of one length is detected as the one listed first. */
  lemma TieMatters(image: string, a: string, b: string)
    requires !IsExporter(image) && Contains(ImageName(image), a) && Contains(ImageName(image), b)
    requires |a| == |b| && a != b
    ensures !OrderIndependent([image], [a, b])
  {
    var images, keywords := [image], [a, b];
    assert Names(images, keywords, 0, 0) && Names(images, keywords, 0, 1);
    assert NamesLongest(images, keywords, 0, 0) && NamesLongest(images, keywords, 0, 1);
    OrderIndependentExactly(images, keywords);
  }

  lemma RedisKafkaName()
    ensures ImageName("redis-kafka") == "redis-kafka"
  {
    PlainImageName("redis-kafka");
  }

  lemma RedisKafkaIsNoExporter()
    ensures !Contains("redis-kafka", EXPORTER)
  {
    LacksChar("redis-kafka", EXPORTER, 1);
  }

  lemma RedisKafkaHasBoth()
    ensures Contains("redis-kafka", "redis") && Contains("redis-kafka", "kafka")
  {
    OccursIn("", "redis", "-kafka");
    OccursIn("redis-", "kafka", "");
    assert "" + "redis" + "-kafka" == "redis-kafka" == "redis-" + "kafka" + "";
  }

  lemma RedisIsNotKafka()
    ensures |"redis"| == |"kafka"| && "redis" != "kafka"
  {
    assert "redis"[0] != "kafka"[0];
  }

  /** So it is with two of the server's own keywords. */
  lemma OrderCanMatter()
    ensures !OrderIndependent(["redis-kafka"], ["redis", "kafka"])
  {
    RedisKafkaName();
    RedisKafkaIsNoExporter();
    RedisKafkaHasBoth();
    RedisIsNotKafka();
    TieMatters("redis-kafka", "redis", "kafka");
  }

  lemma EngineAtLeast(images: seq<string>, keywords: seq<string>, images': seq<string>, keywords': seq<string>)
    requires forall s :: s in images ==> s in images'
    requires forall s :: s in keywords ==> s in keywords'
    ensures |Engine(images, keywords)| <= |Engine(images', keywords')|
    ensures Engine(images, keywords) == "" || Engine(images, keywords) in keywords
  {
    EngineIs(images, keywords);
    EngineIs(images', keywords');
    if Engine(images, keywords) != "" {
      var i, k :| Names(images, keywords, i, k) && keywords[k] == Engine(images, keywords);
      assert images[i] in images' && keywords[k] in keywords';
      var i' :| 0 <= i' < |images'| && images'[i'] == images[i];
      var k' :| 0 <= k' < |keywords'| && keywords'[k'] == keywords[k];
      assert Names(images', keywords', i', k');
    }
  }
}
