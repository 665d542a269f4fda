/** Link generation by rejection sampling (linkgen/linkgen.go).  The random source is a
    stream of bytes; reading past its end is the error of `rand.Read`. */
module Linkgen {
  import opened Wrappers
  import opened Records
  import opened Store

  type Byte = b: int | 0 <= b < 256

  const ALPHA_LOWER := "0123456789abcdefghijklmnopqrstuvwxyz"
  const ALPHA_MIXED := "123456789ABCDEFGHJKLMNPQRSTUVWXYZ" + "abcdefghijkmnopqrstuvwxyz"
  const ALPHA_UPPER := "123456789ABCDEFGHIJKLMNPQRSTUVWXYZ"

  datatype LinkStyle =
    | Link4Plus4Upper | Link4Plus4Lower | Link4Plus4Mixed | LinkUUIDv4
    | Link16Hex | Link16Upper | Link16Lower | Link16Mixed
    | Link32Hex | Link32Upper | Link32Lower | Link32Mixed

  // ----- what the generator draws from a stream -----

  predicate Accepted(m: nat, b: Byte)
    requires m > 0
  {
    b < 256 - 256 % m
  }

  /** The accepted bytes of a stream, in order. */
  function AcceptedOf(m: nat, s: seq<Byte>): seq<Byte>
    requires m > 0
  {
    if s == [] then [] else AcceptedOf(m, s[..|s| - 1]) + (if Accepted(m, s[|s| - 1]) then [s[|s| - 1]] else [])
  }

  /** The letters that bytes stand for. */
  function Letters(alpha: string, bs: seq<Byte>): (w: string)
    requires |alpha| > 0
    ensures |w| == |bs|
  {
    if bs == [] then [] else Letters(alpha, bs[..|bs| - 1]) + [alpha[bs[|bs| - 1] % |alpha|]]
  }

  lemma {:induction false} AcceptedOfConcat(m: nat, s: seq<Byte>, t: seq<Byte>)
    requires m > 0
    ensures AcceptedOf(m, s + t) == AcceptedOf(m, s) + AcceptedOf(m, t)
  {
    if t == [] {
      assert s + t == s;
    } else {
      AcceptedOfConcat(m, s, t[..|t| - 1]);
      assert (s + t)[..|s + t| - 1] == s + t[..|t| - 1];
    }
  }

  /** Exactly as much has been read as it takes to see `n` accepted bytes. */
  ghost predicate JustEnough(m: nat, n: nat, used: seq<Byte>)
    requires m > 0
  {
    |AcceptedOf(m, used)| == n && (used != [] ==> Accepted(m, used[|used| - 1]))
  }

  lemma EnoughForOne(m: nat, used: seq<Byte>)
    requires m > 0 && JustEnough(m, 1, used)
    ensures used != [] && AcceptedOf(m, used) == [used[|used| - 1]]
  {
    var init, last := used[..|used| - 1], used[|used| - 1];
    assert used == init + [last];
    AcceptedOfConcat(m, init, [last]);
  }

  lemma LettersAppend(alpha: string, bs: seq<Byte>, b: Byte)
    requires |alpha| > 0
    ensures Letters(alpha, bs + [b]) == Letters(alpha, bs) + [alpha[b % |alpha|]]
  {
    assert (bs + [b])[..|bs|] == bs;
  }

  lemma {:induction false} LettersAt(alpha: string, bs: seq<Byte>)
    requires |alpha| > 0
    ensures forall i :: 0 <= i < |bs| ==> Letters(alpha, bs)[i] == alpha[bs[i] % |alpha|]
  {
    if bs == [] {
    } else {
      LettersAt(alpha, bs[..|bs| - 1]);
    }
  }

  /** What the accepted bytes among `used` spell. */
  function Spelled(alpha: string, used: seq<Byte>): string
    requires |alpha| > 0
  {
    Letters(alpha, AcceptedOf(|alpha|, used))
  }

  lemma OneMoreLetter(alpha: string, n: nat, used: seq<Byte>, u: seq<Byte>)
    requires |alpha| > 0 && JustEnough(|alpha|, n, used) && JustEnough(|alpha|, 1, u)
    ensures JustEnough(|alpha|, n + 1, used + u)
    ensures Spelled(alpha, used + u) == Spelled(alpha, used) + [alpha[AcceptedOf(|alpha|, u)[0] % |alpha|]]
  {
    AcceptedOfConcat(|alpha|, used, u);
    EnoughForOne(|alpha|, u);
    LettersAppend(alpha, AcceptedOf(|alpha|, used), u[|u| - 1]);
  }

  /** Every byte up to the one taken is at or above the largest multiple of `max` in reach, and that
      one is below it. */
  predicate DropsUntil(max: nat, used: seq<Byte>, r: Option<nat>)
    requires max > 0
  {
    match r
    case None => forall i :: 0 <= i < |used| ==> used[i] >= 256 - 256 % max
    case Some(v) =>
      && used != [] && used[|used| - 1] < 256 - 256 % max && v == used[|used| - 1] % max
      && forall i :: 0 <= i < |used| - 1 ==> used[i] >= 256 - 256 % max
  }

  lemma {:induction false} NoneAccepted(m: nat, s: seq<Byte>)
    requires m > 0 && AcceptedOf(m, s) == []
    ensures forall i :: 0 <= i < |s| ==> s[i] >= 256 - 256 % m
  {
    if s == [] {
    } else {
      NoneAccepted(m, s[..|s| - 1]);
    }
  }

  class RandomSource {
    var bytes: seq<Byte>

    method Read(n: nat) returns (r: Option<seq<Byte>>)
      modifies this
      ensures if n <= |old(bytes)| then r == Some(old(bytes)[..n]) && bytes == old(bytes)[n..]
              else r == None && bytes == []
    {
      if n > |bytes| {
        bytes := [];
        return None;
      }
      r := Some(bytes[..n]);
      bytes := bytes[n..];
    }

    /** A uniform index below `max`: bytes are dropped until one is accepted. */
    method RandInt(max: nat) returns (r: Option<nat>, ghost used: seq<Byte>)
      requires max > 0
      modifies this
      ensures old(bytes) == used + bytes
      ensures match r
              case None => AcceptedOf(max, used) == [] && bytes == []
              case Some(v) => JustEnough(max, 1, used) && AcceptedOf(max, used)[0] % max == v
      ensures DropsUntil(max, used, r)
    {
      used := [];
      while true
        invariant old(bytes) == used + bytes && AcceptedOf(max, used) == []
        decreases |bytes|
      {
        ghost var before := bytes;
        var b := Read(1);
        if b == None {
          assert used + before == used;
          NoneAccepted(max, used);
          return None, used;
        }
        AcceptedOfConcat(max, used, b.value);
        NoneAccepted(max, used);
        used := used + b.value;
        if b.value[0] < 256 - 256 % max {
          return Some(b.value[0] % max), used;
        }
      }
    }

    /** A string of `length` letters, from precisely the first `length` accepted bytes. */
    method RandomString(alpha: string, length: nat) returns (r: Option<string>, ghost used: seq<Byte>)
      requires |alpha| > 0
      modifies this
      ensures old(bytes) == used + bytes
      ensures match r
              case None => bytes == [] && |AcceptedOf(|alpha|, used)| < length
              case Some(w) => JustEnough(|alpha|, length, used) && w == Spelled(alpha, used)
      ensures r.Some? ==>
                && |r.value| == length == |AcceptedOf(|alpha|, used)|
                && forall i :: 0 <= i < length ==> r.value[i] == alpha[AcceptedOf(|alpha|, used)[i] % |alpha|]
    {
      used := [];
      var b: string := [];
      for i := 0 to length
        invariant old(bytes) == used + bytes
        invariant JustEnough(|alpha|, i, used)
        invariant b == Spelled(alpha, used)
      {
        var idx, u := RandInt(|alpha|);
        assert used + (u + bytes) == (used + u) + bytes;
        if idx == None {
          AcceptedOfConcat(|alpha|, used, u);
          return None, used + u;
        }
        OneMoreLetter(alpha, i, used, u);
        used, b := used + u, b + [alpha[idx.value]];
      }
      LettersAt(alpha, AcceptedOf(|alpha|, used));
      return Some(b), used;
    }
  }

  /** So a string is drawn if and only if the stream holds enough accepted bytes, and it
      spells the first of them. */
  lemma FirstAccepted(m: nat, n: nat, used: seq<Byte>, rest: seq<Byte>)
    requires m > 0
    ensures JustEnough(m, n, used) ==>
              n <= |AcceptedOf(m, used + rest)| && AcceptedOf(m, used) == AcceptedOf(m, used + rest)[..n]
    ensures rest == [] && |AcceptedOf(m, used)| < n ==> |AcceptedOf(m, used + rest)| < n
  {
    AcceptedOfConcat(m, used, rest);
  }

  // ----- links -----

  const HEX_DIGITS := "0123456789abcdef"

  function Hex(bs: seq<Byte>): (h: string)
    ensures |h| == 2 * |bs|
    ensures forall i :: 0 <= i < |h| ==> h[i] == HexDigit(bs, i)
  {
    seq(2 * |bs|, i requires 0 <= i < 2 * |bs| => HexDigit(bs, i))
  }

  /** Two digits a byte, the high one first. */
  function HexDigit(bs: seq<Byte>, i: nat): (c: char)
    requires i < 2 * |bs|
    ensures c in HEX_DIGITS
  {
    HEX_DIGITS[if i % 2 == 0 then bs[i / 2] / 16 else bs[i / 2] % 16]
  }

  /** What a hexadecimal digit stands for. */
  function DigitValue(c: char): int {
    if '0' <= c <= '9' then c as int - '0' as int else c as int - 'a' as int + 10
  }

  lemma HexDigits(d: nat)
    requires d < 16
    ensures DigitValue(HEX_DIGITS[d]) == d
    ensures '0' <= HEX_DIGITS[d] <= '9' || 'a' <= HEX_DIGITS[d] <= 'f'
  {
  }

  lemma TwoDigits(bs: seq<Byte>, i: nat)
    requires i < |bs|
    ensures Hex(bs)[2 * i] == HEX_DIGITS[bs[i] / 16] && Hex(bs)[2 * i + 1] == HEX_DIGITS[bs[i] % 16]
  {
    assert HexDigit(bs, 2 * i) == HEX_DIGITS[bs[i] / 16];
    assert HexDigit(bs, 2 * i + 1) == HEX_DIGITS[bs[i] % 16];
  }

  /** Every byte can be read back from its two digits. */
  lemma HexReadsBack(bs: seq<Byte>, i: nat)
    requires i < |bs|
    ensures DigitValue(Hex(bs)[2 * i]) * 16 + DigitValue(Hex(bs)[2 * i + 1]) == bs[i]
  {
    TwoDigits(bs, i);
    HexDigits(bs[i] / 16);
    HexDigits(bs[i] % 16);
  }

  predicate Over(alpha: string, w: string) {
    forall i :: 0 <= i < |w| ==> w[i] in alpha
  }

  lemma {:induction false} LettersAreOver(alpha: string, bs: seq<Byte>)
    requires |alpha| > 0
    ensures Over(alpha, Letters(alpha, bs))
  {
    if bs == [] {
    } else {
      LettersAreOver(alpha, bs[..|bs| - 1]);
    }
  }

  predicate FourPlusFour(alpha: string, w: string) {
    |w| == 9 && w[4] == '-' && Over(alpha, w[..4] + w[5..])
  }

  function Dashed(w: string): string
    requires |w| == 8
  {
    w[..4] + "-" + w[4..]
  }

  /** The digits of a version 4, variant 10 UUID of RFC 4122 with 122 random bits. */
  function UuidDigits(b: seq<Byte>): (h: string)
    requires |b| == 16
    ensures |h| == 32
  {
    Hex(b[6 := b[6] % 16 + 64][8 := b[8] % 64 + 128])
  }

  function Uuid(b: seq<Byte>): string
    requires |b| == 16
  {
    Grouped(UuidDigits(b))
  }

  /** 32 digits in groups of 8, 4, 4, 4 and 12. */
  function Grouped(h: string): string
    requires |h| == 32
  {
    h[0..8] + "-" + h[8..12] + "-" + h[12..16] + "-" + h[16..20] + "-" + h[20..32]
  }

  predicate IsUuidV4(w: string) {
    && |w| == 36 && w[14] == '4' && w[19] in "89ab"
    && forall i :: 0 <= i < 36 ==> if i in {8, 13, 18, 23} then w[i] == '-' else w[i] in HEX_DIGITS
  }

  /** The shape each configured style promises. */
  predicate HasStyle(style: LinkStyle, w: string) {
    match style
    case LinkUUIDv4 => IsUuidV4(w)
    case Link16Hex => |w| == 16 && Over(HEX_DIGITS, w)
    case Link16Lower => |w| == 16 && Over(ALPHA_LOWER, w)
    case Link16Mixed => |w| == 16 && Over(ALPHA_MIXED, w)
    case Link16Upper => |w| == 16 && Over(ALPHA_UPPER, w)
    case Link32Hex => |w| == 32 && Over(HEX_DIGITS, w)
    case Link32Lower => |w| == 32 && Over(ALPHA_LOWER, w)
    case Link32Mixed => |w| == 32 && Over(ALPHA_MIXED, w)
    case Link32Upper => |w| == 32 && Over(ALPHA_UPPER, w)
    case Link4Plus4Lower => FourPlusFour(ALPHA_LOWER, w)
    case Link4Plus4Mixed => FourPlusFour(ALPHA_MIXED, w)
    case Link4Plus4Upper => FourPlusFour(ALPHA_UPPER, w)
  }

  class Generator {
    const store: Memory
    const style: LinkStyle
    const rand: RandomSource

    constructor (store: Memory, style: LinkStyle, rand: RandomSource)
      ensures this.store == store && this.style == style && this.rand == rand
    {
      this.store := store;
      this.style := style;
      this.rand := rand;
    }

    /** The first draft no live share uses: `tried` are the drafts before it.  Nothing comes back
        only when the bytes behind those do not suffice for another draft. */
    method Generate(now: real) returns (r: Option<string>, ghost used: seq<Byte>, ghost tried: seq<Draft>)
      requires rand as object != store
      modifies rand
      ensures old(rand.bytes) == BytesOf(tried) + used + rand.bytes
      ensures match r
              case Some(w) => FoundAfter(style, store.data, now, old(rand.bytes), tried, used, w)
              case None => ShortAfter(style, store.data, now, old(rand.bytes), tried, used) && rand.bytes == []
    {
      used, tried := [], [];
      while true
        invariant old(rand.bytes) == BytesOf(tried) + rand.bytes
        invariant AllTaken(style, store.data, now, tried)
        decreases |rand.bytes|
      {
        ghost var left := rand.bytes;
        var s;
        s, used := GenerateOne();
        assert BytesOf(tried) + left == BytesOf(tried) + used + rand.bytes;
        if s == None {
          return None, used, tried;
        }
        var exists_ := store.Exists(now, LocKey(s.value));
        if !exists_ {
          return s, used, tried;
        }
        BytesOfAppend(tried, Draft(used, s.value));
        tried := tried + [Draft(used, s.value)];
      }
    }

    /** One draft of the configured style, or none when the stream is too short for it. */
    method GenerateOne() returns (r: Option<string>, ghost used: seq<Byte>)
      modifies rand
      ensures old(rand.bytes) == used + rand.bytes
      ensures r.Some? ==> used != [] && Drafted(style, used, r.value)
      ensures r.None? ==> TooFew(style, used) && rand.bytes == []
    {
      match style
      case LinkUUIDv4 => r, used := UuidV4();
      case Link16Hex => r, used := HexString(8);
      case Link16Lower => r, used := rand.RandomString(ALPHA_LOWER, 16);
      case Link16Mixed => r, used := rand.RandomString(ALPHA_MIXED, 16);
      case Link16Upper => r, used := rand.RandomString(ALPHA_UPPER, 16);
      case Link32Hex => r, used := HexString(16);
      case Link32Lower => r, used := rand.RandomString(ALPHA_LOWER, 32);
      case Link32Mixed => r, used := rand.RandomString(ALPHA_MIXED, 32);
      case Link32Upper => r, used := rand.RandomString(ALPHA_UPPER, 32);
      case Link4Plus4Lower => r, used := DrawFourPlusFour(ALPHA_LOWER);
      case Link4Plus4Mixed => r, used := DrawFourPlusFour(ALPHA_MIXED);
      case Link4Plus4Upper => r, used := DrawFourPlusFour(ALPHA_UPPER);
    }

    method DrawFourPlusFour(alpha: string) returns (r: Option<string>, ghost used: seq<Byte>)
      requires |alpha| > 0
      modifies rand
      ensures old(rand.bytes) == used + rand.bytes
      ensures r.Some? ==> JustEnough(|alpha|, 8, used) && r.value == Dashed(Spelled(alpha, used))
      ensures r.Some? ==> |r.value| == 9 && r.value[4] == '-' && r.value[..4] + r.value[5..] == Spelled(alpha, used)
      ensures r.None? ==> |AcceptedOf(|alpha|, used)| < 8 && rand.bytes == []
    {
      var s;
      s, used := rand.RandomString(alpha, 8);
      if s == None {
        return None, used;
      }
      return Some(s.value[..4] + "-" + s.value[4..]), used;
    }

    method HexString(n: nat) returns (r: Option<string>, ghost used: seq<Byte>)
      modifies rand
      ensures old(rand.bytes) == used + rand.bytes
      ensures r.Some? ==> |used| == n && r.value == Hex(used)
      ensures r.None? ==> |used| < n && rand.bytes == []
    {
      ghost var before := rand.bytes;
      var b := rand.Read(n);
      if b == None {
        return None, before;
      }
      return Some(Hex(b.value)), b.value;
    }

    method UuidV4() returns (r: Option<string>, ghost used: seq<Byte>)
      modifies rand
      ensures old(rand.bytes) == used + rand.bytes
      ensures r.Some? ==> |used| == 16 && r.value == Uuid(used)
      ensures r.None? ==> |used| < 16 && rand.bytes == []
    {
      ghost var before := rand.bytes;
      var read := rand.Read(16);
      if read == None {
        return None, before;
      }
      var b := read.value;
      b := b[6 := b[6] % 16 + 64];
      b := b[8 := b[8] % 64 + 128];
      var h := Hex(b);
      assert h == UuidDigits(read.value);
      return Some(h[0..8] + "-" + h[8..12] + "-" + h[12..16] + "-" + h[16..20] + "-" + h[20..32]), read.value;
    }
  }

  /** `w` is what the style makes of exactly the random bytes `used`. */
  ghost predicate Drafted(style: LinkStyle, used: seq<Byte>, w: string) {
    match style
    case LinkUUIDv4 => |used| == 16 && w == Uuid(used)
    case Link16Hex => |used| == 8 && w == Hex(used)
    case Link16Lower => JustEnough(|ALPHA_LOWER|, 16, used) && w == Spelled(ALPHA_LOWER, used)
    case Link16Mixed => JustEnough(|ALPHA_MIXED|, 16, used) && w == Spelled(ALPHA_MIXED, used)
    case Link16Upper => JustEnough(|ALPHA_UPPER|, 16, used) && w == Spelled(ALPHA_UPPER, used)
    case Link32Hex => |used| == 16 && w == Hex(used)
    case Link32Lower => JustEnough(|ALPHA_LOWER|, 32, used) && w == Spelled(ALPHA_LOWER, used)
    case Link32Mixed => JustEnough(|ALPHA_MIXED|, 32, used) && w == Spelled(ALPHA_MIXED, used)
    case Link32Upper => JustEnough(|ALPHA_UPPER|, 32, used) && w == Spelled(ALPHA_UPPER, used)
    case Link4Plus4Lower => JustEnough(|ALPHA_LOWER|, 8, used) && w == Dashed(Spelled(ALPHA_LOWER, used))
    case Link4Plus4Mixed => JustEnough(|ALPHA_MIXED|, 8, used) && w == Dashed(Spelled(ALPHA_MIXED, used))
    case Link4Plus4Upper => JustEnough(|ALPHA_UPPER|, 8, used) && w == Dashed(Spelled(ALPHA_UPPER, used))
  }

  /** The stream ends before the style has the random bytes it needs. */
  predicate TooFew(style: LinkStyle, s: seq<Byte>) {
    match style
    case LinkUUIDv4 => |s| < 16
    case Link16Hex => |s| < 8
    case Link16Lower => |AcceptedOf(|ALPHA_LOWER|, s)| < 16
    case Link16Mixed => |AcceptedOf(|ALPHA_MIXED|, s)| < 16
    case Link16Upper => |AcceptedOf(|ALPHA_UPPER|, s)| < 16
    case Link32Hex => |s| < 16
    case Link32Lower => |AcceptedOf(|ALPHA_LOWER|, s)| < 32
    case Link32Mixed => |AcceptedOf(|ALPHA_MIXED|, s)| < 32
    case Link32Upper => |AcceptedOf(|ALPHA_UPPER|, s)| < 32
    case Link4Plus4Lower => |AcceptedOf(|ALPHA_LOWER|, s)| < 8
    case Link4Plus4Mixed => |AcceptedOf(|ALPHA_MIXED|, s)| < 8
    case Link4Plus4Upper => |AcceptedOf(|ALPHA_UPPER|, s)| < 8
  }

  /** A link and the random bytes it was made of. */
  datatype Draft = Draft(used: seq<Byte>, link: string)

  /** Drafts that came to nothing: a live share has each of their links. */
  ghost predicate AllTaken(style: LinkStyle, db: Db, now: real, drafts: seq<Draft>) {
    forall d :: d in drafts ==> Drafted(style, d.used, d.link) && Live(db, now, LocKey(d.link))
  }

  function BytesOf(drafts: seq<Draft>): seq<Byte> {
    if drafts == [] then [] else drafts[0].used + BytesOf(drafts[1..])
  }

  /** The stream begins with drafts that are taken, then `used`. */
  ghost predicate TriedFirst(style: LinkStyle, db: Db, now: real, s: seq<Byte>, tried: seq<Draft>, used: seq<Byte>) {
    BytesOf(tried) + used <= s && AllTaken(style, db, now, tried)
  }

  ghost predicate FoundAfter(style: LinkStyle, db: Db, now: real, s: seq<Byte>, tried: seq<Draft>, used: seq<Byte>,
                             w: string) {
    TriedFirst(style, db, now, s, tried, used) && Drafted(style, used, w) && !Live(db, now, LocKey(w))
  }

  /** `w` is the first draft the stream gives that no live share uses. */
  ghost predicate FirstFree(style: LinkStyle, db: Db, now: real, s: seq<Byte>, w: string) {
    exists tried, used :: FoundAfter(style, db, now, s, tried, used, w)
  }

  ghost predicate ShortAfter(style: LinkStyle, db: Db, now: real, s: seq<Byte>, tried: seq<Draft>, used: seq<Byte>) {
    TriedFirst(style, db, now, s, tried, used) && BytesOf(tried) + used == s && TooFew(style, used)
  }

  /** The stream runs out before it gives such a draft. */
  ghost predicate NoneFree(style: LinkStyle, db: Db, now: real, s: seq<Byte>) {
    exists tried, used :: ShortAfter(style, db, now, s, tried, used)
  }

  lemma {:induction false} BytesOfAppend(drafts: seq<Draft>, d: Draft)
    ensures BytesOf(drafts + [d]) == BytesOf(drafts) + d.used
  {
    if drafts == [] {
      assert BytesOf([d]) == d.used + BytesOf([]);
    } else {
      BytesOfAppend(drafts[1..], d);
      assert (drafts + [d])[1..] == drafts[1..] + [d];
    }
  }

  // ----- the stream and the live shares determine the link -----

  lemma JustEnoughOnce(m: nat, n: nat, u: seq<Byte>, v: seq<Byte>)
    requires m > 0 && JustEnough(m, n, u) && JustEnough(m, n, v) && u <= v
    ensures u == v
  {
    var more := v[|u|..];
    assert v == u + more && (more != [] ==> more[|more| - 1] == v[|v| - 1]);
    AcceptedOfConcat(m, u, more);
  }

  lemma EnoughStays(m: nat, u: seq<Byte>, s: seq<Byte>)
    requires m > 0 && u <= s
    ensures |AcceptedOf(m, u)| <= |AcceptedOf(m, s)|
  {
    AcceptedOfConcat(m, u, s[|u|..]);
    assert s == u + s[|u|..];
  }

  /** A stream has one way to begin with a draft. */
  lemma OneDraft(style: LinkStyle, u: seq<Byte>, w: string, v: seq<Byte>, x: string)
    requires Drafted(style, u, w) && Drafted(style, v, x) && u <= v
    ensures u == v && w == x
  {
    match style
    case LinkUUIDv4 =>
    case Link16Hex =>
    case Link32Hex =>
    case Link16Lower => JustEnoughOnce(|ALPHA_LOWER|, 16, u, v);
    case Link32Lower => JustEnoughOnce(|ALPHA_LOWER|, 32, u, v);
    case Link4Plus4Lower => JustEnoughOnce(|ALPHA_LOWER|, 8, u, v);
    case Link16Mixed => JustEnoughOnce(|ALPHA_MIXED|, 16, u, v);
    case Link32Mixed => JustEnoughOnce(|ALPHA_MIXED|, 32, u, v);
    case Link4Plus4Mixed => JustEnoughOnce(|ALPHA_MIXED|, 8, u, v);
    case Link16Upper => JustEnoughOnce(|ALPHA_UPPER|, 16, u, v);
    case Link32Upper => JustEnoughOnce(|ALPHA_UPPER|, 32, u, v);
    case Link4Plus4Upper => JustEnoughOnce(|ALPHA_UPPER|, 8, u, v);
  }

  lemma DraftSuffices(style: LinkStyle, u: seq<Byte>, w: string, s: seq<Byte>)
    requires Drafted(style, u, w) && u <= s
    ensures !TooFew(style, s)
  {
    EnoughStays(|ALPHA_LOWER|, u, s);
    EnoughStays(|ALPHA_MIXED|, u, s);
    EnoughStays(|ALPHA_UPPER|, u, s);
  }

  lemma OneOf(style: LinkStyle, u: seq<Byte>, w: string, v: seq<Byte>, x: string, s: seq<Byte>)
    requires Drafted(style, u, w) && Drafted(style, v, x) && u <= s && v <= s
    ensures u == v && w == x
  {
    if |u| <= |v| {
      assert u <= v;
      OneDraft(style, u, w, v, x);
    } else {
      assert v <= u;
      OneDraft(style, v, x, u, w);
    }
  }

  lemma CutFirst(a: seq<Byte>, b: seq<Byte>, s: seq<Byte>)
    requires a + b <= s
    ensures a <= s && b <= s[|a|..] && (a + b == s ==> b == s[|a|..])
  {
    assert s == a + b + s[|a + b|..];
  }

  lemma OthersTaken(style: LinkStyle, db: Db, now: real, tried: seq<Draft>)
    requires AllTaken(style, db, now, tried) && tried != []
    ensures Drafted(style, tried[0].used, tried[0].link) && Live(db, now, LocKey(tried[0].link))
    ensures AllTaken(style, db, now, tried[1..])
  {
    assert tried[0] in tried && forall d :: d in tried[1..] ==> d in tried;
  }

  lemma AfterFirstTried(style: LinkStyle, db: Db, now: real, s: seq<Byte>, tried: seq<Draft>, used: seq<Byte>)
    requires TriedFirst(style, db, now, s, tried, used) && tried != []
    ensures var d := tried[0];
            && d.used <= s && Drafted(style, d.used, d.link) && Live(db, now, LocKey(d.link))
            && TriedFirst(style, db, now, s[|d.used|..], tried[1..], used)
            && (BytesOf(tried) + used == s ==> BytesOf(tried[1..]) + used == s[|d.used|..])
  {
    OthersTaken(style, db, now, tried);
    FirstOfBytes(tried, used);
    CutFirst(tried[0].used, BytesOf(tried[1..]) + used, s);
  }

  lemma FirstOfBytes(tried: seq<Draft>, used: seq<Byte>)
    requires tried != []
    ensures BytesOf(tried) + used == tried[0].used + (BytesOf(tried[1..]) + used)
  {
  }

  lemma {:induction false} SameDrafts(style: LinkStyle, db: Db, now: real, s: seq<Byte>, tried: seq<Draft>,
                                      used: seq<Byte>, w: string, tried': seq<Draft>, used': seq<Byte>, w': string)
    requires FoundAfter(style, db, now, s, tried, used, w) && FoundAfter(style, db, now, s, tried', used', w')
    ensures w == w'
    decreases |tried|
  {
    if tried == [] && tried' == [] {
      OneOf(style, used, w, used', w', s);
    } else if tried == [] {
      AfterFirstTried(style, db, now, s, tried', used');
      OneOf(style, used, w, tried'[0].used, tried'[0].link, s);
    } else if tried' == [] {
      AfterFirstTried(style, db, now, s, tried, used);
      OneOf(style, tried[0].used, tried[0].link, used', w', s);
    } else {
      AfterFirstTried(style, db, now, s, tried, used);
      AfterFirstTried(style, db, now, s, tried', used');
      OneOf(style, tried[0].used, tried[0].link, tried'[0].used, tried'[0].link, s);
      SameDrafts(style, db, now, s[|tried[0].used|..], tried[1..], used, w, tried'[1..], used', w');
    }
  }

  lemma {:induction false} FreeMeansEnough(style: LinkStyle, db: Db, now: real, s: seq<Byte>, tried: seq<Draft>,
                                           used: seq<Byte>, w: string, tried': seq<Draft>, used': seq<Byte>)
    requires FoundAfter(style, db, now, s, tried, used, w)
    requires TriedFirst(style, db, now, s, tried', used') && BytesOf(tried') + used' == s
    ensures !TooFew(style, used')
    decreases |tried'|
  {
    if tried == [] && tried' == [] {
      assert used' == s;
      DraftSuffices(style, used, w, s);
    } else if tried == [] {
      AfterFirstTried(style, db, now, s, tried', used');
      OneOf(style, used, w, tried'[0].used, tried'[0].link, s);
    } else if tried' == [] {
      AfterFirstTried(style, db, now, s, tried, used);
      assert used' == s;
      DraftSuffices(style, tried[0].used, tried[0].link, s);
    } else {
      AfterFirstTried(style, db, now, s, tried, used);
      AfterFirstTried(style, db, now, s, tried', used');
      OneOf(style, tried[0].used, tried[0].link, tried'[0].used, tried'[0].link, s);
      FreeMeansEnough(style, db, now, s[|tried[0].used|..], tried[1..], used, w, tried'[1..], used');
    }
  }

  /** The bytes of the stream and the live shares determine the link, and whether there is one. */
  lemma LinkIsDetermined(style: LinkStyle, db: Db, now: real, s: seq<Byte>, w: string)
    requires FirstFree(style, db, now, s, w)
    ensures forall x :: FirstFree(style, db, now, s, x) ==> x == w
    ensures !NoneFree(style, db, now, s)
  {
    var tried, used :| FoundAfter(style, db, now, s, tried, used, w);
    forall x | FirstFree(style, db, now, s, x) ensures x == w {
      var tried', used' :| FoundAfter(style, db, now, s, tried', used', x);
      SameDrafts(style, db, now, s, tried, used, w, tried', used', x);
    }
    if NoneFree(style, db, now, s) {
      var tried', used' :| ShortAfter(style, db, now, s, tried', used');
      FreeMeansEnough(style, db, now, s, tried, used, w, tried', used');
    }
  }

  /** Every draft has the shape its style promises. */
  lemma DraftsHaveStyle(style: LinkStyle, used: seq<Byte>, w: string)
    requires Drafted(style, used, w)
    ensures HasStyle(style, w)
  {
    match style
    case LinkUUIDv4 => UuidIsUuid(used);
    case Link16Hex =>
    case Link32Hex =>
    case Link16Lower => LettersAreOver(ALPHA_LOWER, AcceptedOf(|ALPHA_LOWER|, used));
    case Link32Lower => LettersAreOver(ALPHA_LOWER, AcceptedOf(|ALPHA_LOWER|, used));
    case Link16Mixed => LettersAreOver(ALPHA_MIXED, AcceptedOf(|ALPHA_MIXED|, used));
    case Link32Mixed => LettersAreOver(ALPHA_MIXED, AcceptedOf(|ALPHA_MIXED|, used));
    case Link16Upper => LettersAreOver(ALPHA_UPPER, AcceptedOf(|ALPHA_UPPER|, used));
    case Link32Upper => LettersAreOver(ALPHA_UPPER, AcceptedOf(|ALPHA_UPPER|, used));
    case Link4Plus4Lower => DashedIsStyled(ALPHA_LOWER, used);
    case Link4Plus4Mixed => DashedIsStyled(ALPHA_MIXED, used);
    case Link4Plus4Upper => DashedIsStyled(ALPHA_UPPER, used);
  }

  lemma DashedIsStyled(alpha: string, used: seq<Byte>)
    requires |alpha| > 0 && |Spelled(alpha, used)| == 8
    ensures FourPlusFour(alpha, Dashed(Spelled(alpha, used)))
  {
    LettersAreOver(alpha, AcceptedOf(|alpha|, used));
    var w := Dashed(Spelled(alpha, used));
    assert w[..4] + w[5..] == Spelled(alpha, used);
  }

  /** Where the `k`-th digit of a UUID stands, between the dashes. */
  function PlaceOf(k: nat): (p: nat)
    requires k < 32
    ensures p < 36
  {
    if k < 8 then k else if k < 12 then k + 1 else if k < 16 then k + 2 else if k < 20 then k + 3 else k + 4
  }

  /** All random bits but the six fixed ones can be read back from a UUID. */
  lemma UuidReadsBack(b: seq<Byte>, i: nat)
    requires |b| == 16 && i < 16
    ensures |Uuid(b)| == 36
    ensures var byte := DigitValue(Uuid(b)[PlaceOf(2 * i)]) * 16 + DigitValue(Uuid(b)[PlaceOf(2 * i + 1)]);
            byte == if i == 6 then b[6] % 16 + 64 else if i == 8 then b[8] % 64 + 128 else b[i]
  {
    GroupsOf(UuidDigits(b));
    HexReadsBack(b[6 := b[6] % 16 + 64][8 := b[8] % 64 + 128], i);
  }

  lemma GroupsOf(h: string)
    requires |h| == 32
    ensures var w := Grouped(h);
            && |w| == 36 && w[14] == h[12] && w[19] == h[16]
            && (forall k :: 0 <= k < 32 ==> w[PlaceOf(k)] == h[k])
            && forall i :: 0 <= i < 36 ==> if i in {8, 13, 18, 23} then w[i] == '-' else w[i] in h
  {
    var w := Grouped(h);
    assert forall i :: 0 <= i < 8 ==> w[i] == h[i];
    assert forall i :: 9 <= i < 13 ==> w[i] == h[i - 1];
    assert forall i :: 14 <= i < 18 ==> w[i] == h[i - 2];
    assert forall i :: 19 <= i < 23 ==> w[i] == h[i - 3];
    assert forall i :: 24 <= i < 36 ==> w[i] == h[i - 4];
  }

  lemma VersionAndVariant(b: seq<Byte>)
    requires |b| == 16
    ensures UuidDigits(b)[12] == '4' && UuidDigits(b)[16] in "89ab"
  {
    var marked := b[6 := b[6] % 16 + 64][8 := b[8] % 64 + 128];
    assert HexDigit(marked, 12) == HEX_DIGITS[4];
    assert marked[8] / 16 == b[8] % 64 / 16 + 8;
  }

  lemma UuidIsUuid(b: seq<Byte>)
    requires |b| == 16
    ensures IsUuidV4(Uuid(b))
  {
    GroupsOf(UuidDigits(b));
    VersionAndVariant(b);
  }
}
