/** The bounded buffer that collects a debug pod's output: the first `max` bytes are kept,
    the rest only counted. */
module OutputBuffer {
  newtype Byte = b: int | 0 <= b < 256

  type Bytes = seq<Byte>

  /** How many of `total` bytes fit; a maximum below one keeps nothing. */
  function Fits(max: int, total: nat): nat {
    if max <= 0 then 0 else if total < max then total else max
  }

  class LimitBuffer {
    const max: int
    var buf: Bytes
    var dropped: int
    /** Everything written so far, in the order the lock was taken. */
    ghost var stream: Bytes

    ghost predicate Valid()
      reads this
    {
      buf == stream[..Fits(max, |stream|)] && dropped == |stream| - |buf|
    }

    constructor (max: int)
      ensures Valid() && this.max == max && stream == []
    {
      this.max, buf, dropped, stream := max, [], 0, [];
    }

    /** Always reports the whole slice as written, kept or not. */
    method Write(p: Bytes) returns (n: int)
      requires Valid()
      modifies this
      ensures Valid() && stream == old(stream) + p && n == |p|
    {
      stream := stream + p;
      var room := max - |buf|;
      if room <= 0 {
        dropped := dropped + |p|;
        return |p|;
      }
      if |p| > room {
        buf := buf + p[..room];
        dropped := dropped + (|p| - room);
        return |p|;
      }
      buf := buf + p;
      n := |p|;
    }

    /** The kept bytes and, when some were dropped, the notice. */
    method String() returns (text: Bytes)
      requires Valid()
      ensures text == Shown(max, stream)
      ensures |stream| <= max ==> text == stream
      ensures |stream| > max >= 0 ==> text == stream[..max] + Notice(|stream| - max)
      ensures max < 0 && stream != [] ==> text == Notice(|stream|)
    {
      text := buf;
      if dropped > 0 {
        text := text + Notice(dropped);
      }
    }
  }

  // ---- what is shown ----

  const NOTICE_HEAD := "\n[output truncated: "
  const NOTICE_TAIL := " more bytes; narrow the command]"

  function Digit(n: nat): char
    requires n < 10
  {
    '0' + n as char
  }

  function Decimal(n: nat): string {
    if n < 10 then [Digit(n)] else Decimal(n / 10) + [Digit(n % 10)]
  }

  function Ascii(s: string): Bytes {
    seq(|s|, i requires 0 <= i < |s| => (s[i] as int % 256) as Byte)
  }

  function Notice(n: nat): Bytes {
    Ascii(NOTICE_HEAD) + Ascii(Decimal(n)) + Ascii(NOTICE_TAIL)
  }

  /** What is told of a stream: its bounded prefix, and how many bytes there were beyond it. */
  function Shown(max: int, stream: Bytes): Bytes {
    var kept := Fits(max, |stream|);
    stream[..kept] + if kept < |stream| then Notice(|stream| - kept) else []
  }

  function Number(s: string): int {
    if s == "" then 0 else 10 * Number(s[..|s| - 1]) + (s[|s| - 1] as int - '0' as int)
  }

  /** The notice gives the number in decimal digits, the first not zero. */
  lemma {:induction false} DecimalIs(n: nat)
    ensures Number(Decimal(n)) == n && Decimal(n) != ""
    ensures forall c :: c in Decimal(n) ==> '0' <= c <= '9'
    ensures n > 0 ==> Decimal(n)[0] != '0'
  {
    if n >= 10 {
      DecimalIs(n / 10);
    }
  }

  lemma NoticeIs(n: nat)
    ensures Notice(n) == Ascii("\n[output truncated: ") + Ascii(Decimal(n)) + Ascii(" more bytes; narrow the command]")
    ensures forall s, i :: 0 <= i < |s| && s[i] as int < 128 ==> Ascii(s)[i] as int == s[i] as int
  {
  }

  /** A number is read back from its digits. */
  lemma {:induction false} DecimalTellsNumber(a: nat, b: nat)
    requires Ascii(Decimal(a)) == Ascii(Decimal(b))
    ensures a == b
  {
    var s, t := Decimal(a), Decimal(b);
    assert |Ascii(s)| == |Ascii(t)| == |s| == |t|;
    assert Ascii(s)[|s| - 1] == Ascii(t)[|s| - 1];
    if a >= 10 && b >= 10 {
      assert Ascii(Decimal(a / 10)) == Ascii(s)[..|s| - 1];
      assert Ascii(Decimal(b / 10)) == Ascii(t)[..|t| - 1];
      DecimalTellsNumber(a / 10, b / 10);
    }
  }

  lemma NoticeTellsNumber(a: nat, b: nat)
    requires Notice(a) == Notice(b)
    ensures a == b
  {
    var h, n := |NOTICE_HEAD|, |Notice(a)| - |NOTICE_TAIL|;
    assert Notice(a)[h..n] == Ascii(Decimal(a));
    assert Notice(b)[h..n] == Ascii(Decimal(b));
    DecimalTellsNumber(a, b);
  }

  /** Two streams are shown alike if and only if they have the same length and agree on
      the bytes that are kept: what is shown tells both, and nothing else. */
  lemma ShownTellsExactly(max: int, a: Bytes, b: Bytes)
    ensures Shown(max, a) == Shown(max, b) <==>
            |a| == |b| && a[..Fits(max, |a|)] == b[..Fits(max, |b|)]
  {
    var i, j := Fits(max, |a|), Fits(max, |b|);
    if Shown(max, a) == Shown(max, b) {
      assert Shown(max, a)[..i] == a[..i];
      assert Shown(max, b)[..j] == b[..j];
      if i < |a| && j < |b| {
        assert Shown(max, a)[i..] == Notice(|a| - i);
        assert Shown(max, b)[j..] == Notice(|b| - j);
        NoticeTellsNumber(|a| - i, |b| - j);
      }
    }
  }

  // ---- many writers ----

  function Joined(writes: seq<Bytes>): Bytes {
    if writes == [] then [] else Joined(writes[..|writes| - 1]) + writes[|writes| - 1]
  }

  /** Writers that share the buffer in some order leave the bounded prefix of what they
      wrote in that order. */
  method WriteAll(b: LimitBuffer, writes: seq<Bytes>)
    requires b.Valid()
    modifies b
    ensures b.Valid() && b.stream == old(b.stream) + Joined(writes)
  {
    for i := 0 to |writes|
      invariant b.Valid() && b.stream == old(b.stream) + Joined(writes[..i])
    {
      assert writes[..i + 1][..i] == writes[..i];
      var n := b.Write(writes[i]);
    }
    assert writes[..|writes|] == writes;
  }

  lemma {:induction false} JoinedConcat(a: seq<Bytes>, b: seq<Bytes>)
    ensures Joined(a + b) == Joined(a) + Joined(b)
  {
    if b == [] {
      assert a + b == a;
    } else {
      assert (a + b)[..|a + b| - 1] == a + b[..|b| - 1];
      JoinedConcat(a, b[..|b| - 1]);
      Regroup(Joined(a), Joined(b[..|b| - 1]), b[|b| - 1]);
    }
  }

  lemma Regroup(a: Bytes, b: Bytes, c: Bytes)
    ensures a + b + c == a + (b + c)
  {
  }

  function Without(writes: seq<Bytes>, i: nat): seq<Bytes>
    requires i < |writes|
  {
    writes[..i] + writes[i + 1..]
  }

  lemma JoinedWithout(writes: seq<Bytes>, i: nat)
    requires i < |writes|
    ensures |Joined(writes)| == |Joined(Without(writes, i))| + |writes[i]|
  {
    var before, after := writes[..i + 1], writes[i + 1..];
    assert writes == before + after && before[..i] == writes[..i];
    JoinedConcat(before, after);
    JoinedConcat(writes[..i], after);
  }

  lemma MultisetWithout(writes: seq<Bytes>, i: nat)
    requires i < |writes|
    ensures multiset(Without(writes, i)) == multiset(writes) - multiset{writes[i]}
  {
    assert writes == writes[..i] + [writes[i]] + writes[i + 1..];
  }

  /** How much is kept and how much is dropped does not depend on the interleaving. */
  lemma {:induction false} CountsIgnoreInterleaving(a: seq<Bytes>, b: seq<Bytes>, max: int)
    requires multiset(a) == multiset(b)
    ensures |Joined(a)| == |Joined(b)| && Fits(max, |Joined(a)|) == Fits(max, |Joined(b)|)
  {
    if a == [] {
      assert |b| == |multiset(b)|;
    } else {
      assert a[0] in multiset(a);
      var i :| 0 <= i < |b| && b[i] == a[0];
      MultisetWithout(a, 0);
      MultisetWithout(b, i);
      CountsIgnoreInterleaving(Without(a, 0), Without(b, i), max);
      JoinedWithout(a, 0);
      JoinedWithout(b, i);
    }
  }
}
