/** Small vocabulary shared by the hubctl model: Ruby's nil as `Option`,
    order-preserving selection (`Array#select`), string join/split and sums. */
module Common {

  /** A Ruby value that may be nil. */
  datatype Option<+T> = None | Some(value: T) {

    /** `x || default` for a value whose only falsy state is nil. */
    function GetOr(default: T): T {
      match this
      case Some(v) => v
      case None => default
    }

    /** `x || y` for two values whose only falsy state is nil. */
    function OrElse(other: Option<T>): Option<T> {
      match this
      case Some(_) => this
      case None => other
    }
  }

  /** The outcome of a call that may raise: a value, or the error raised. */
  datatype Result<+T, +E> = Ok(value: T) | Err(error: E)

  /** `a` can be obtained from `b` by deleting elements (order kept). */
  predicate IsSubseq<T(==)>(a: seq<T>, b: seq<T>)
    decreases |b|
  {
    || |a| == 0
    || (&& |b| > 0
        && ((a[0] == b[0] && IsSubseq(a[1..], b[1..])) || IsSubseq(a, b[1..])))
  }

  /** Every element of a subsequence occurs in the sequence. */
  lemma {:induction false} SubseqMembers<T>(a: seq<T>, b: seq<T>)
    requires IsSubseq(a, b)
    ensures forall x :: x in a ==> x in b
    decreases |b|
  {
    if |a| == 0 {
    } else if a[0] == b[0] && IsSubseq(a[1..], b[1..]) {
      SubseqMembers(a[1..], b[1..]);
      forall x | x in a ensures x in b {
        if x != a[0] { assert x in a[1..]; }
      }
    } else {
      SubseqMembers(a, b[1..]);
    }
  }

  lemma {:induction false} SubseqRefl<T>(a: seq<T>)
    ensures IsSubseq(a, a)
    decreases |a|
  {
    if |a| > 0 { SubseqRefl(a[1..]); }
  }

  /** The subsequence relation is transitive. */
  lemma {:induction false} SubseqTrans<T>(a: seq<T>, b: seq<T>, c: seq<T>)
    requires IsSubseq(a, b) && IsSubseq(b, c)
    ensures IsSubseq(a, c)
    decreases |c|
  {
    if |a| == 0 {
    } else if b[0] == c[0] && IsSubseq(b[1..], c[1..]) {
      if a[0] == b[0] && IsSubseq(a[1..], b[1..]) {
        SubseqTrans(a[1..], b[1..], c[1..]);
      } else {
        SubseqTrans(a, b[1..], c[1..]);
      }
    } else {
      SubseqTrans(a, b, c[1..]);
    }
  }

  /** Position of the first occurrence of `x` in `s`. */
  function FirstPos<T(==)>(s: seq<T>, x: T): (i: nat)
    requires x in s
    ensures i < |s| && s[i] == x && x !in s[..i]
  {
    if s[0] == x then 0
    else
      var j := FirstPos(s[1..], x);
      assert s[..j + 1] == [s[0]] + s[1..][..j];
      j + 1
  }

  /** Any position holding the first `x` is the one `FirstPos` finds. */
  lemma FirstPosUnique<T>(s: seq<T>, x: T, i: nat)
    requires i < |s| && s[i] == x && x !in s[..i]
    ensures FirstPos(s, x) == i
  {
  }

  /** Within a prefix, first positions are those of the whole sequence. */
  lemma FirstPosPrefix<T>(s: seq<T>, k: nat, x: T)
    requires k <= |s| && x in s[..k]
    ensures FirstPos(s, x) == FirstPos(s[..k], x)
  {
    var i := FirstPos(s[..k], x);
    assert s[..k][..i] == s[..i];
    FirstPosUnique(s, x, i);
  }

  /** No element occurs twice. */
  predicate NoDups<T(==)>(s: seq<T>) {
    forall i, j :: 0 <= i < j < |s| ==> s[i] != s[j]
  }

  /** Ruby's `Array#select`: the elements satisfying `p`, in input order. */
  function Filter<T(!new)>(s: seq<T>, p: T -> bool): (r: seq<T>)
    ensures IsSubseq(r, s)
    ensures forall x :: x in r <==> x in s && p(x)
    ensures forall x :: multiset(r)[x] == if p(x) then multiset(s)[x] else 0
    decreases |s|
  {
    if |s| == 0 then []
    else
      var rest := Filter(s[1..], p);
      assert s == [s[0]] + s[1..];
      if p(s[0]) then
        assert ([s[0]] + rest)[1..] == rest;
        [s[0]] + rest
      else
        rest
  }

  /** `Filter` with a predicate that holds everywhere returns its input. */
  lemma {:induction false} FilterAll<T(!new)>(s: seq<T>, p: T -> bool)
    requires forall x :: x in s ==> p(x)
    ensures Filter(s, p) == s
    decreases |s|
  {
    if |s| > 0 {
      assert p(s[0]);
      assert forall x :: x in s[1..] ==> x in s;
      FilterAll(s[1..], p);
      assert s == [s[0]] + s[1..];
    }
  }

  /** Selecting from a concatenation selects from each part. */
  lemma {:induction false} FilterConcat<T(!new)>(a: seq<T>, b: seq<T>, p: T -> bool)
    ensures Filter(a + b, p) == Filter(a, p) + Filter(b, p)
    decreases |a|
  {
    if |a| == 0 {
      assert a + b == b;
    } else {
      var head := if p(a[0]) then [a[0]] else [];
      assert (a + b)[0] == a[0];
      assert (a + b)[1..] == a[1..] + b;
      FilterHead(a + b, p);
      FilterHead(a, p);
      FilterConcat(a[1..], b, p);
      ConcatAssoc(head, Filter(a[1..], p), Filter(b, p));
    }
  }

  lemma ConcatAssoc<T>(x: seq<T>, y: seq<T>, z: seq<T>)
    ensures x + (y + z) == (x + y) + z
  {
  }

  /** One step of `Filter`: the head is kept iff it satisfies `p`. */
  lemma FilterHead<T(!new)>(s: seq<T>, p: T -> bool)
    requires |s| > 0
    ensures Filter(s, p) == (if p(s[0]) then [s[0]] else []) + Filter(s[1..], p)
  {
  }

  /** Selection keeps the relative order of first occurrences. */
  lemma {:induction false} FilterKeepsFirstOrder<T(!new)>(s: seq<T>, p: T -> bool, x: T, y: T)
    requires x in s && y in s && p(x) && p(y)
    ensures x in Filter(s, p) && y in Filter(s, p)
    ensures FirstPos(Filter(s, p), x) < FirstPos(Filter(s, p), y) <==> FirstPos(s, x) < FirstPos(s, y)
    decreases |s|
  {
    var a := s[0];
    var t := s[1..];
    assert s == [a] + t;
    var f := Filter(s, p);
    if x != a && y != a {
      FilterKeepsFirstOrder(t, p, x, y);
      if p(a) {
        assert f == [a] + Filter(t, p);
        assert f[1..] == Filter(t, p);
      }
    } else if p(a) {
      assert f == [a] + Filter(t, p);
      assert f[1..] == Filter(t, p);
    }
  }

  /** `Filter` only looks at the values of its predicate. */
  lemma {:induction false} FilterExt<T(!new)>(s: seq<T>, p: T -> bool, q: T -> bool)
    requires forall x :: p(x) == q(x)
    ensures Filter(s, p) == Filter(s, q)
    decreases |s|
  {
    if |s| > 0 {
      FilterExt(s[1..], p, q);
    }
  }

  /** Selecting twice is selecting by the conjunction. */
  lemma {:induction false} FilterFilter<T(!new)>(s: seq<T>, p: T -> bool, q: T -> bool, both: T -> bool)
    requires forall x :: both(x) == (p(x) && q(x))
    ensures Filter(Filter(s, p), q) == Filter(s, both)
    decreases |s|
  {
    if |s| > 0 {
      FilterFilter(s[1..], p, q, both);
    }
  }

  /** The membership test `Array#-` uses: "not one of `xs`". */
  function NotIn<T(==)>(xs: seq<T>): T -> bool {
    x => x !in xs
  }

  /** Ruby's `a - b`: `a` without any element of `b`, order kept. */
  function Without<T(==,!new)>(s: seq<T>, xs: seq<T>): (r: seq<T>)
    ensures IsSubseq(r, s)
    ensures forall x :: x in r <==> x in s && x !in xs
    ensures forall x :: multiset(r)[x] == if x in xs then 0 else multiset(s)[x]
  {
    Filter(s, NotIn(xs))
  }

  /** First positions in `s` all lie before its last index, except that of
      an element met only at the end. */
  lemma FirstPosBeforeLast<T(!new)>(s: seq<T>, y: T)
    requires |s| > 0 && y in s[..|s| - 1]
    ensures FirstPos(s, y) == FirstPos(s[..|s| - 1], y) < |s| - 1
  {
    var init := s[..|s| - 1];
    var i := FirstPos(init, y);
    assert s[..i] == init[..i];
    FirstPosUnique(s, y, i);
  }

  /** Ruby's `Array#uniq`: the first occurrence of each element, in the
      order the first occurrences appear. */
  function Uniq<T(==,!new)>(s: seq<T>): (r: seq<T>)
    ensures forall x :: x in r <==> x in s
    ensures forall i, j :: 0 <= i < j < |r| ==> FirstPos(s, r[i]) < FirstPos(s, r[j])
    ensures NoDups(r)
    decreases |s|
  {
    if |s| == 0 then []
    else
      var init := s[..|s| - 1];
      var x := s[|s| - 1];
      SplitLast(s);
      var u := Uniq(init);
      UniqPositionsCarry(s, u);
      if x in u then u
      else
        assert FirstPos(s, x) == |s| - 1 by { FirstPosUnique(s, x, |s| - 1); }
        u + [x]
  }

  /** The first positions of the prefix's elements are unchanged by
      appending one element. */
  lemma UniqPositionsCarry<T(!new)>(s: seq<T>, u: seq<T>)
    requires |s| > 0
    requires forall y :: y in u ==> y in s[..|s| - 1]
    ensures forall y :: y in u ==> FirstPos(s, y) == FirstPos(s[..|s| - 1], y) < |s| - 1
  {
    forall y | y in u
      ensures FirstPos(s, y) == FirstPos(s[..|s| - 1], y) < |s| - 1
    {
      FirstPosBeforeLast(s, y);
    }
  }

  /** `uniq` leaves a duplicate-free sequence as it is. */
  lemma {:induction false} UniqOfNoDups<T(!new)>(s: seq<T>)
    requires NoDups(s)
    ensures Uniq(s) == s
    decreases |s|
  {
    if |s| > 0 {
      NoDupsPrefix(s);
      UniqOfNoDups(s[..|s| - 1]);
      UniqOfNoDupsStep(s);
    }
  }

  /** Dropping the last element keeps a sequence free of duplicates, and
      that element does not occur before it. */
  lemma NoDupsPrefix<T>(s: seq<T>)
    requires |s| > 0 && NoDups(s)
    ensures NoDups(s[..|s| - 1]) && s[|s| - 1] !in s[..|s| - 1]
  {
  }

  /** One more fresh element is kept by `uniq`. */
  lemma UniqOfNoDupsStep<T(!new)>(s: seq<T>)
    requires |s| > 0 && s[|s| - 1] !in s[..|s| - 1]
    requires Uniq(s[..|s| - 1]) == s[..|s| - 1]
    ensures Uniq(s) == s
  {
    SplitLast(s);
    UniqSnoc(s[..|s| - 1], s[|s| - 1]);
  }

  /** A non-empty sequence is its prefix followed by its last element. */
  lemma SplitLast<T>(s: seq<T>)
    requires |s| > 0
    ensures s == s[..|s| - 1] + [s[|s| - 1]]
  {
  }

  /** Appending elements that are already present changes nothing after `uniq`. */
  lemma {:induction false} UniqAbsorbs<T(!new)>(r: seq<T>, ys: seq<T>)
    requires NoDups(r)
    requires forall y :: y in ys ==> y in r
    ensures Uniq(r + ys) == r
    decreases |ys|
  {
    if |ys| == 0 {
      assert r + ys == r;
      UniqOfNoDups(r);
    } else {
      var init := ys[..|ys| - 1];
      var x := ys[|ys| - 1];
      assert r + ys == (r + init) + [x];
      UniqAbsorbs(r, init);
      UniqSnoc(r + init, x);
    }
  }

  /** `uniq` after appending one element: it is kept only when new. */
  lemma UniqSnoc<T(!new)>(s: seq<T>, x: T)
    ensures Uniq(s + [x]) == if x in s then Uniq(s) else Uniq(s) + [x]
  {
    var t := s + [x];
    assert t[..|t| - 1] == s;
  }

  predicate StartsWith(s: string, prefix: string) {
    |prefix| <= |s| && s[..|prefix|] == prefix
  }

  predicate EndsWith(s: string, suffix: string) {
    |suffix| <= |s| && s[|s| - |suffix|..] == suffix
  }

  /** Ruby's `Array#join(sep)`. */
  function Join(parts: seq<string>, sep: string): string
    decreases |parts|
  {
    if |parts| == 0 then ""
    else if |parts| == 1 then parts[0]
    else parts[0] + sep + Join(parts[1..], sep)
  }

  /** Field splitting on one separator character, keeping empty fields
      (the way `awk -F` or `cut` read a line). */
  function Split(s: string, c: char): (r: seq<string>)
    ensures |r| >= 1
    ensures forall k :: 0 <= k < |r| ==> c !in r[k]
    decreases |s|
  {
    if c !in s then [s]
    else
      var i := FirstPos(s, c);
      [s[..i]] + Split(s[i + 1..], c)
  }

  /** Splitting a joined line recovers the fields, provided no field
      contains the separator and there is at least one field. */
  lemma {:induction false} SplitJoin(parts: seq<string>, c: char)
    requires |parts| >= 1
    requires forall k :: 0 <= k < |parts| ==> c !in parts[k]
    ensures Split(Join(parts, [c]), c) == parts
    decreases |parts|
  {
    if |parts| > 1 {
      var rest := Join(parts[1..], [c]);
      var s := parts[0] + [c] + rest;
      assert Join(parts, [c]) == s;
      assert s[|parts[0]|] == c;
      assert s[..|parts[0]|] == parts[0];
      assert c in s;
      FirstPosUnique(s, c, |parts[0]|);
      assert s[|parts[0]| + 1..] == rest;
      assert Split(s, c) == [parts[0]] + Split(rest, c);
      SplitJoin(parts[1..], c);
      assert parts == [parts[0]] + parts[1..];
    }
  }

  /** Decimal digits of a natural number, as Ruby's `Integer#to_s`. */
  function NatToString(n: nat): (r: string)
    ensures |r| >= 1
    ensures forall k :: 0 <= k < |r| ==> '0' <= r[k] <= '9'
    decreases n
  {
    var d := [(('0' as int) + n % 10) as char];
    if n < 10 then d else NatToString(n / 10) + d
  }

  /** The number a run of decimal digits denotes, most significant first. */
  function DigitsValue(s: string): nat
    decreases |s|
  {
    if |s| == 0 then 0 else DigitsValue(s[..|s| - 1]) * 10 + DigitValue(s[|s| - 1])
  }

  function DigitValue(c: char): nat {
    if '0' <= c <= '9' then (c as int) - ('0' as int) else 0
  }

  function Pow10(k: nat): (r: nat)
    ensures r >= 1
  {
    if k == 0 then 1 else 10 * Pow10(k - 1)
  }

  /** Reading back the digits of `n` gives `n`. */
  lemma {:induction false} NatToStringValue(n: nat)
    ensures DigitsValue(NatToString(n)) == n
    decreases n
  {
    var d := [(('0' as int) + n % 10) as char];
    var r := NatToString(n);
    if n >= 10 {
      NatToStringValue(n / 10);
      assert r[..|r| - 1] == NatToString(n / 10);
    }
    assert r[|r| - 1] == d[0];
  }

  /** A number below 10^w takes at most w digits. */
  lemma {:induction false} NatToStringLength(n: nat, w: nat)
    requires w >= 1 && n < Pow10(w)
    ensures |NatToString(n)| <= w
    decreases n
  {
    if n >= 10 {
      assert n / 10 < Pow10(w - 1);
      NatToStringLength(n / 10, w - 1);
    }
  }

  /** Leading zeros do not change the value of a run of digits. */
  lemma {:induction false} LeadingZerosValue(z: nat, s: string)
    ensures DigitsValue(seq(z, _ => '0') + s) == DigitsValue(s)
    decreases |s|
  {
    var zs: string := seq(z, _ => '0');
    if |s| == 0 {
      assert zs + s == zs;
      ZerosValue(z);
    } else {
      var t := zs + s;
      assert t[..|t| - 1] == zs + s[..|s| - 1];
      assert t[|t| - 1] == s[|s| - 1];
      LeadingZerosValue(z, s[..|s| - 1]);
    }
  }

  lemma {:induction false} ZerosValue(z: nat)
    ensures DigitsValue(seq(z, _ => '0')) == 0
  {
    if z > 0 {
      var zs: string := seq(z, _ => '0');
      assert zs[..z - 1] == seq(z - 1, _ => '0');
      ZerosValue(z - 1);
    }
  }

  /** Decimal rendering of an integer, with a leading '-' when negative. */
  function IntToString(n: int): (r: string)
    ensures |r| >= 1
    ensures forall k :: 0 <= k < |r| ==> r[k] != ' '
  {
    if n < 0 then "-" + NatToString(-n) else NatToString(n)
  }

  /** Sum of a real-valued measure over a sequence (Ruby's `sum { ... }`). */
  function SumOf<T>(s: seq<T>, f: T -> real): real
    decreases |s|
  {
    if |s| == 0 then 0.0 else f(s[0]) + SumOf(s[1..], f)
  }

  /** A sum over a concatenation is the sum of the parts. */
  lemma {:induction false} SumOfConcat<T>(a: seq<T>, b: seq<T>, f: T -> real)
    ensures SumOf(a + b, f) == SumOf(a, f) + SumOf(b, f)
    decreases |a|
  {
    if |a| == 0 {
      assert a + b == b;
    } else {
      var ab := a + b;
      assert ab[0] == a[0];
      assert ab[1..] == a[1..] + b;
      SumOfConcat(a[1..], b, f);
      assert SumOf(ab, f) == f(a[0]) + SumOf(a[1..] + b, f);
    }
  }

  /** Summing over the selected and the rejected elements gives the total. */
  lemma {:induction false} SumOfPartition<T(!new)>(s: seq<T>, p: T -> bool, notP: T -> bool, f: T -> real)
    requires forall x :: notP(x) == !p(x)
    ensures SumOf(Filter(s, p), f) + SumOf(Filter(s, notP), f) == SumOf(s, f)
    decreases |s|
  {
    if |s| > 0 {
      SumOfPartition(s[1..], p, notP, f);
    }
  }

  /** Summing only where the measure is non-zero changes nothing. */
  lemma {:induction false} SumOfFilterZero<T(!new)>(s: seq<T>, p: T -> bool, f: T -> real)
    requires forall x :: x in s && !p(x) ==> f(x) == 0.0
    ensures SumOf(Filter(s, p), f) == SumOf(s, f)
    decreases |s|
  {
    if |s| > 0 {
      assert forall x :: x in s[1..] ==> x in s;
      SumOfFilterZero(s[1..], p, f);
    }
  }
}
