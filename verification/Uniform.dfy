/** Rejection sampling is unbiased: every string over the alphabet comes from the same
    number of accepted byte sequences (linkgen/linkgen.go). */
module Uniform {
  import opened Linkgen

  function Pow(b: nat, n: nat): nat {
    if n == 0 then 1 else Pow(b, n - 1) * b
  }

  predicate Distinct(alpha: string) {
    forall i, j :: 0 <= i < j < |alpha| ==> alpha[i] != alpha[j]
  }

  /** The accepted bytes that stand for the letter `c`. */
  function BytesFor(alpha: string, c: char): set<Byte>
    requires |alpha| > 0
  {
    set b: Byte | Accepted(|alpha|, b) && alpha[b % |alpha|] == c
  }

  function Multiples(m: nat, k: nat, q: nat): set<int> {
    if q == 0 then {} else Multiples(m, k, q - 1) + {k + (q - 1) * m}
  }

  lemma RemainderIs(b: int, m: nat, q: int, r: int)
    requires 0 <= r < m && b == q * m + r
    ensures b % m == r
  {
    Between(m, q - b / m, b % m - r);
    assert (q - b / m) * m == q * m - (b / m) * m;
  }

  lemma Between(m: nat, d: int, e: int)
    requires 0 - m < e < m && d * m == e
    ensures d == 0
  {
    AtLeastOne(m, d);
    AtLeastOne(m, -d);
    assert (-d) * m == -(d * m);
  }

  lemma AtLeastOne(m: nat, d: int)
    ensures d >= 1 ==> d * m >= m
  {
    if d >= 1 {
      assert d * m == (d - 1) * m + m;
    }
  }

  /** Membership in the multiples is a remainder below a bound. */
  lemma {:induction false} MultiplesAre(m: nat, k: nat, q: nat, b: int)
    requires k < m
    ensures b in Multiples(m, k, q) <==> 0 <= b < q * m && b % m == k
  {
    if q == 0 {
    } else {
      MultiplesAre(m, k, q - 1, b);
      MultiplesTop(m, k, q, b);
    }
  }

  lemma MultiplesTop(m: nat, k: nat, q: nat, b: int)
    requires k < m && q > 0
    ensures (q - 1) * m <= b < q * m ==> (b % m == k <==> b == k + (q - 1) * m)
    ensures (q - 1) * m <= k + (q - 1) * m < q * m
  {
    assert q * m == (q - 1) * m + m;
    if (q - 1) * m <= b < q * m {
      RemainderIs(b, m, q - 1, b - (q - 1) * m);
    }
  }

  lemma {:induction false} MultiplesCount(m: nat, k: nat, q: nat)
    requires k < m
    ensures |Multiples(m, k, q)| == q
  {
    if q == 0 {
    } else {
      MultiplesCount(m, k, q - 1);
      MultiplesAre(m, k, q - 1, k + (q - 1) * m);
    }
  }

  lemma BytesForCount(alpha: string, k: nat)
    requires k < |alpha| <= 256 && Distinct(alpha)
    ensures |BytesFor(alpha, alpha[k])| == 256 / |alpha|
  {
    var m, q := |alpha|, 256 / |alpha|;
    assert 256 - 256 % m == q * m;
    forall b: int ensures b in BytesFor(alpha, alpha[k]) <==> b in Multiples(m, k, q) {
      MultiplesAre(m, k, q, b);
    }
    MultiplesCount(m, k, q);
    assert BytesFor(alpha, alpha[k]) == Multiples(m, k, q);
  }

  /** All ways to put a byte of `bs` after a sequence of `heads`. */
  function Extend(heads: set<seq<Byte>>, bs: set<Byte>): set<seq<Byte>> {
    set h, b | h in heads && b in bs :: h + [b]
  }

  lemma InExtend(heads: set<seq<Byte>>, bs: set<Byte>, init: seq<Byte>, last: Byte)
    ensures init + [last] in Extend(heads, bs) <==> init in heads && last in bs
  {
    if init + [last] in Extend(heads, bs) {
      var h, b :| h in heads && b in bs && h + [b] == init + [last];
      assert h == (h + [b])[..|h|] == (init + [last])[..|init|] == init;
      assert b == (h + [b])[|h|] == last;
    }
  }

  lemma ExtendLess(heads: set<seq<Byte>>, b: Byte, h: seq<Byte>)
    requires h in heads
    ensures Extend(heads, {b}) == Extend(heads - {h}, {b}) + {h + [b]}
    ensures h + [b] !in Extend(heads - {h}, {b})
  {
    forall s ensures s in Extend(heads, {b}) <==> s in Extend(heads - {h}, {b}) + {h + [b]} {
      if s != [] {
        var init, last := s[..|s| - 1], s[|s| - 1];
        assert s == init + [last];
        InExtend(heads, {b}, init, last);
        InExtend(heads - {h}, {b}, init, last);
        assert s == h + [b] <==> init == h && last == b;
      }
    }
    InExtend(heads - {h}, {b}, h, b);
  }

  lemma {:induction false} ExtendByOne(heads: set<seq<Byte>>, b: Byte)
    ensures |Extend(heads, {b})| == |heads|
  {
    if heads == {} {
      assert Extend(heads, {b}) == {};
    } else {
      var h :| h in heads;
      ExtendByOne(heads - {h}, b);
      ExtendLess(heads, b, h);
    }
  }

  lemma ExtendSplits(heads: set<seq<Byte>>, bs: set<Byte>, b: Byte)
    requires b in bs
    ensures Extend(heads, bs) == Extend(heads, bs - {b}) + Extend(heads, {b})
  {
    forall s | s in Extend(heads, bs) ensures s in Extend(heads, bs - {b}) + Extend(heads, {b}) {
      var h, c :| h in heads && c in bs && s == h + [c];
      assert c in bs - {b} || c in {b};
    }
  }

  lemma ExtendApart(heads: set<seq<Byte>>, bs: set<Byte>, b: Byte)
    ensures Extend(heads, bs - {b}) !! Extend(heads, {b})
  {
    forall s | s in Extend(heads, bs - {b}) ensures s !in Extend(heads, {b}) {
      var h, c :| h in heads && c in bs - {b} && s == h + [c];
      assert s[|s| - 1] == c;
      assert forall g, d :: g in heads && d in {b} ==> (g + [d])[|g + [d]| - 1] == b;
    }
  }

  lemma SplitCount(heads: set<seq<Byte>>, bs: set<Byte>, b: Byte)
    requires b in bs
    ensures |Extend(heads, bs)| == |Extend(heads, bs - {b})| + |heads|
  {
    ExtendSplits(heads, bs, b);
    ExtendApart(heads, bs, b);
    ExtendByOne(heads, b);
  }

  lemma {:induction false} ExtendCount(heads: set<seq<Byte>>, bs: set<Byte>)
    ensures |Extend(heads, bs)| == |heads| * |bs|
    decreases |bs|
  {
    if bs == {} {
      assert Extend(heads, bs) == {};
    } else {
      var b :| b in bs;
      var rest := bs - {b};
      ExtendCount(heads, rest);
      SplitCount(heads, bs, b);
      OneMoreTime(|heads|, |bs|);
    }
  }

  lemma OneMoreTime(x: nat, y: nat)
    requires y > 0
    ensures x * y == x * (y - 1) + x
  {
  }

  /** The accepted byte sequences that render as `w`. */
  function Preimages(alpha: string, w: string): set<seq<Byte>>
    requires |alpha| > 0
  {
    if w == [] then {[]} else Extend(Preimages(alpha, w[..|w| - 1]), BytesFor(alpha, w[|w| - 1]))
  }

  predicate AllAccepted(m: nat, bs: seq<Byte>)
    requires m > 0
  {
    forall i :: 0 <= i < |bs| ==> Accepted(m, bs[i])
  }

  lemma AcceptedSnoc(m: nat, init: seq<Byte>, last: Byte)
    requires m > 0
    ensures AllAccepted(m, init + [last]) <==> AllAccepted(m, init) && Accepted(m, last)
  {
    var bs := init + [last];
    assert bs[|init|] == last;
    assert forall i :: 0 <= i < |init| ==> bs[i] == init[i];
  }

  lemma SnocEqual(a: string, c: char, w: string)
    requires w != []
    ensures a + [c] == w <==> a == w[..|w| - 1] && c == w[|w| - 1]
  {
    assert w == w[..|w| - 1] + [w[|w| - 1]];
    assert (a + [c])[..|a|] == a && (a + [c])[|a|] == c;
  }

  lemma {:induction false} PreimagesAre(alpha: string, w: string, bs: seq<Byte>)
    requires |alpha| > 0
    ensures bs in Preimages(alpha, w) <==> AllAccepted(|alpha|, bs) && Letters(alpha, bs) == w
  {
    if w == [] || bs == [] {
    } else {
      var init, last := bs[..|bs| - 1], bs[|bs| - 1];
      assert bs == init + [last];
      PreimagesAre(alpha, w[..|w| - 1], init);
      AcceptedSnoc(|alpha|, init, last);
      LettersAppend(alpha, init, last);
      SnocEqual(Letters(alpha, init), alpha[last % |alpha|], w);
      InExtend(Preimages(alpha, w[..|w| - 1]), BytesFor(alpha, w[|w| - 1]), init, last);
    }
  }

  /** Every string over an alphabet of `m` letters is rendered by exactly `(256 / m)^n`
      accepted byte sequences, whatever the string. */
  lemma {:induction false} UnbiasedLinks(alpha: string, w: string)
    requires 0 < |alpha| <= 256 && Distinct(alpha) && Over(alpha, w)
    ensures |Preimages(alpha, w)| == Pow(256 / |alpha|, |w|)
  {
    if w == [] {
    } else {
      var init, c := w[..|w| - 1], w[|w| - 1];
      UnbiasedLinks(alpha, init);
      var k :| 0 <= k < |alpha| && alpha[k] == c;
      BytesForCount(alpha, k);
      ExtendCount(Preimages(alpha, init), BytesFor(alpha, c));
    }
  }

  predicate Increasing(alpha: string) {
    forall i :: 0 < i < |alpha| ==> alpha[i - 1] < alpha[i]
  }

  lemma {:induction false} IncreasingIsDistinct(alpha: string)
    requires Increasing(alpha)
    ensures Distinct(alpha)
  {
    forall i, j | 0 <= i < j < |alpha| ensures alpha[i] < alpha[j] {
      IncreasingApart(alpha, i, j);
    }
  }

  lemma {:induction false} IncreasingApart(alpha: string, i: nat, j: nat)
    requires Increasing(alpha) && i < j < |alpha|
    ensures alpha[i] < alpha[j]
  {
    if i + 1 == j {
    } else {
      IncreasingApart(alpha, i, j - 1);
    }
  }

  lemma IncreasingJoin(a: string, b: string)
    requires Increasing(a) && Increasing(b) && a != "" && b != "" && a[|a| - 1] < b[0]
    ensures Increasing(a + b)
  {
  }

  lemma LowerIsIncreasing()
    ensures Increasing(ALPHA_LOWER)
  {
  }

  lemma UpperIsIncreasing()
    ensures Increasing(ALPHA_UPPER)
  {
  }

  lemma MixedIsIncreasing()
    ensures Increasing(ALPHA_MIXED)
  {
    IncreasingJoin("123456789ABCDEFGHJKLMNPQRSTUVWXYZ", "abcdefghijkmnopqrstuvwxyz");
  }

  /** The three alphabets list their letters in increasing order, hence without repetition. */
  lemma {:induction false} AlphabetsAreDistinct()
    ensures Distinct(ALPHA_LOWER) && Distinct(ALPHA_MIXED) && Distinct(ALPHA_UPPER)
  {
    LowerIsIncreasing();
    IncreasingIsDistinct(ALPHA_LOWER);
    MixedIsIncreasing();
    IncreasingIsDistinct(ALPHA_MIXED);
    UpperIsIncreasing();
    IncreasingIsDistinct(ALPHA_UPPER);
  }

  lemma LowerHas(c: char)
    ensures |ALPHA_LOWER| == 36 && (c in ALPHA_LOWER ==> '0' <= c <= '9' || 'a' <= c <= 'z')
  {
  }

  lemma UpperHas(c: char)
    ensures |ALPHA_UPPER| == 34 && (c in ALPHA_UPPER ==> ('1' <= c <= '9' || 'A' <= c <= 'Z') && c != 'O')
  {
  }

  lemma MixedFirstHas(c: char)
    ensures c in "123456789ABCDEFGHJKLMNPQRSTUVWXYZ" ==> ('1' <= c <= '9' || 'A' <= c <= 'Z') && c != 'I' && c != 'O'
  {
  }

  lemma MixedSecondHas(c: char)
    ensures c in "abcdefghijkmnopqrstuvwxyz" ==> 'a' <= c <= 'z' && c != 'l'
  {
  }

  /** The letters of the three alphabets; as there are so many and all different, they are all there
      are of each kind. */
  lemma AlphabetsHave(c: char)
    ensures |ALPHA_LOWER| == 36 && |ALPHA_MIXED| == 58 && |ALPHA_UPPER| == 34
    ensures c in ALPHA_LOWER ==> '0' <= c <= '9' || 'a' <= c <= 'z'
    ensures c in ALPHA_MIXED ==>
            ('1' <= c <= '9' || 'A' <= c <= 'Z' || 'a' <= c <= 'z') && c != 'I' && c != 'O' && c != 'l'
    ensures c in ALPHA_UPPER ==> ('1' <= c <= '9' || 'A' <= c <= 'Z') && c != 'O'
  {
    LowerHas(c);
    UpperHas(c);
    MixedFirstHas(c);
    MixedSecondHas(c);
  }
}
