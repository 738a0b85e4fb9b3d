/** Deciding over a sequence element by element, and adding over a set in any order. */
module Folds {
  predicate Any<T>(s: seq<T>, p: T -> bool) {
    s != [] && (Any(s[..|s| - 1], p) || p(s[|s| - 1]))
  }

  predicate Every<T>(s: seq<T>, p: T -> bool) {
    s == [] || (Every(s[..|s| - 1], p) && p(s[|s| - 1]))
  }

  lemma AnyOneMore<T>(s: seq<T>, i: nat, p: T -> bool)
    requires i < |s|
    ensures Any(s[..i + 1], p) <==> Any(s[..i], p) || p(s[i])
  {
    assert s[..i + 1][..i] == s[..i];
  }

  lemma EveryOneMore<T>(s: seq<T>, i: nat, p: T -> bool)
    requires i < |s|
    ensures Every(s[..i + 1], p) <==> Every(s[..i], p) && p(s[i])
  {
    assert s[..i + 1][..i] == s[..i];
  }

  lemma {:induction false} AnyMeans<T>(s: seq<T>, p: T -> bool)
    ensures Any(s, p) <==> exists x :: x in s && p(x)
  {
    if s != [] {
      AnyMeans(s[..|s| - 1], p);
      assert s == s[..|s| - 1] + [s[|s| - 1]];
    }
  }

  lemma {:induction false} EveryMeans<T>(s: seq<T>, p: T -> bool)
    ensures Every(s, p) <==> forall x :: x in s ==> p(x)
  {
    if s != [] {
      EveryMeans(s[..|s| - 1], p);
      assert s == s[..|s| - 1] + [s[|s| - 1]];
    }
  }

  /** The sum over a set, its elements taken in any order. */
  ghost function Sum<T>(s: set<T>, f: T -> int): int {
    if s == {} then 0
    else
      var x :| x in s;
      f(x) + Sum(s - {x}, f)
  }

  lemma {:induction false} SumTakes<T>(s: set<T>, f: T -> int, x: T)
    requires x in s
    ensures Sum(s, f) == f(x) + Sum(s - {x}, f)
    decreases |s|
  {
    var first :| first in s && Sum(s, f) == f(first) + Sum(s - {first}, f);
    if first != x {
      SumTakes(s - {first}, f, x);
      SumTakes(s - {x}, f, first);
      assert s - {first} - {x} == s - {x} - {first};
    }
  }

  lemma SumAdds<T>(s: set<T>, f: T -> int, x: T)
    requires x !in s
    ensures Sum(s + {x}, f) == Sum(s, f) + f(x)
  {
    SumTakes(s + {x}, f, x);
    assert s + {x} - {x} == s;
  }

  lemma {:induction false} SumDisjoint<T>(a: set<T>, b: set<T>, f: T -> int)
    requires a !! b
    ensures Sum(a + b, f) == Sum(a, f) + Sum(b, f)
    decreases |a|
  {
    if a == {} {
      assert a + b == b;
    } else {
      var x :| x in a;
      SumTakes(a, f, x);
      SumTakes(a + b, f, x);
      assert a + b - {x} == (a - {x}) + b;
      SumDisjoint(a - {x}, b, f);
    }
  }

  lemma {:induction false} SumCongruent<T>(s: set<T>, f: T -> int, g: T -> int)
    requires forall x :: x in s ==> f(x) == g(x)
    ensures Sum(s, f) == Sum(s, g)
    decreases |s|
  {
    if s != {} {
      var x :| x in s;
      SumTakes(s, f, x);
      SumTakes(s, g, x);
      SumCongruent(s - {x}, f, g);
    }
  }

  lemma {:induction false} SumNonNegative<T>(s: set<T>, f: T -> int)
    requires forall x :: x in s ==> 0 <= f(x)
    ensures 0 <= Sum(s, f)
    decreases |s|
  {
    if s != {} {
      var x :| x in s;
      SumTakes(s, f, x);
      SumNonNegative(s - {x}, f);
    }
  }
}
