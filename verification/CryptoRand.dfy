/**
  cryptorand/numbers.go: bounded integers drawn from a stream of random bytes.

  The stream is a field of `Entropy`; a read past its end is the read error that every
  generator passes on to its caller.
*/
module CryptoRand {
  import opened Counting
  import opened MachineInts
  import opened Wrappers

  type byte = b: int | 0 <= b < 256
  type uint32 = v: int | 0 <= v < TWO_32
  type int64 = i: int | -TWO_63 <= i < TWO_63

  /** The range the documentation of UnbiasedModulo32 demands of its divisor. */
  type Divisor = n: int | 0 < n < TWO_31 witness 1

  function BigEndian32(b: seq<byte>): uint32
    requires |b| == 4
  {
    0x100_0000 * (b[0] as int) + 0x1_0000 * (b[1] as int) + 0x100 * (b[2] as int) + b[3]
  }

  function BigEndian64(b: seq<byte>): int64
    requires |b| == 8
  {
    var u := BigEndian32(b[..4]) * TWO_32 + BigEndian32(b[4..]);
    if u < TWO_63 then u else u - TWO_64
  }

  /** The four bytes of a word, the most significant first. */
  function Bytes32(v: int): (b: seq<byte>)
    ensures |b| == 4
  {
    [v / 256 / 256 / 256 % 256, v / 256 / 256 % 256, v / 256 % 256, v % 256]
  }

  lemma OneDigit(x: nat, d: byte)
    ensures (256 * x + d) / 256 == x && (256 * x + d) % 256 == d
  {
  }

  lemma Bytes32Read(v: uint32)
    ensures BigEndian32(Bytes32(v)) == v
  {
    var (a, b, c) := (v / 256, v / 256 / 256, v / 256 / 256 / 256);
    assert v == 256 * a + v % 256 && a == 256 * b + a % 256 && b == 256 * c + b % 256;
    assert 0 <= c < 256;
  }

  lemma Bytes32Written(b: seq<byte>)
    requires |b| == 4
    ensures Bytes32(BigEndian32(b)) == b
  {
    var b0: nat, b1: nat, b2: nat := b[0], b[1], b[2];
    OneDigit(256 * (256 * b0 + b1) + b2, b[3]);
    OneDigit(256 * b0 + b1, b[2]);
    OneDigit(b0, b[1]);
    assert BigEndian32(b) == 256 * (256 * (256 * b0 + b1) + b2) + b[3];
  }

  /** Reading and writing four bytes big-endian are inverse. */
  lemma BigEndian32IsBijective(v: uint32, b: seq<byte>)
    requires |b| == 4
    ensures BigEndian32(Bytes32(v)) == v
    ensures Bytes32(BigEndian32(b)) == b
  {
    Bytes32Read(v);
    Bytes32Written(b);
  }

  function Bytes64(i: int64): (b: seq<byte>)
    ensures |b| == 8
  {
    var u := if i < 0 then i + TWO_64 else i;
    Bytes32(u / TWO_32) + Bytes32(u % TWO_32)
  }

  /** Eight bytes read big-endian as a signed number: every 64-bit number has exactly one reading. */
  lemma BigEndian64IsBijective(i: int64, b: seq<byte>)
    requires |b| == 8
    ensures BigEndian64(Bytes64(i)) == i
    ensures Bytes64(BigEndian64(b)) == b
  {
    var u := if i < 0 then i + TWO_64 else i;
    assert 0 <= u < TWO_64 && u == (u / TWO_32) * TWO_32 + u % TWO_32;
    BigEndian32IsBijective(u / TWO_32, b[..4]);
    BigEndian32IsBijective(u % TWO_32, b[4..]);
    assert Bytes64(i)[..4] == Bytes32(u / TWO_32) && Bytes64(i)[4..] == Bytes32(u % TWO_32);
    HalvesOf(BigEndian32(b[..4]), BigEndian32(b[4..]));
    assert b[..4] + b[4..] == b;
  }

  lemma HalvesOf(hi: uint32, lo: uint32)
    ensures (hi * TWO_32 + lo) / TWO_32 == hi && (hi * TWO_32 + lo) % TWO_32 == lo
  {
  }

  /** Negation wraps: the most negative draw has no positive counterpart and stays as it is. */
  function Abs63(raw: int64): int64 {
    if raw < 0 && raw != -TWO_63 then -raw else raw
  }

  /** `uint32(i >> 31)`: an arithmetic shift, then truncation to 32 bits. */
  function High32(raw: int64): uint32 {
    (Abs63(raw) / TWO_31) % TWO_32
  }

  // ---- multiply-shift rejection (UnbiasedModulo32) ----

  function Low(v: uint32, n: Divisor): int { (v * n) % TWO_32 }

  function Pick(v: uint32, n: Divisor): (k: int)
    ensures 0 <= k < n
  {
    var (x: int, y: int) := (v, n);
    assert 0 <= x * y < TWO_32 * y;
    (v * n) / TWO_32
  }

  /** `uint32(-n) % uint32(n)` */
  function Threshold(n: Divisor): int { (TWO_32 - n) % n }

  predicate Accepted(v: uint32, n: Divisor) { Low(v, n) >= Threshold(n) }

  lemma ThresholdIsRemainder(n: Divisor)
    ensures Threshold(n) == TWO_32 % n < n
  {
    DivModUnique(TWO_32, n, (TWO_32 - n) / n + 1);
  }

  /** The `low < n` test in front of the redraw loop skips no input the loop would reject. */
  lemma ShortcutIsExact(v: uint32, n: Divisor)
    ensures Low(v, n) < n && Low(v, n) < Threshold(n) <==> Low(v, n) < TWO_32 % n
  {
    ThresholdIsRemainder(n);
  }

  ghost predicate YieldsPick(v: int, n: Divisor, k: int) {
    0 <= v < TWO_32 && Accepted(v, n) && Pick(v, n) == k
  }

  /** The 32-bit inputs that are accepted and come out as k. */
  ghost function PickInputs(n: Divisor, k: int): set<int> {
    set v: int | 0 <= v < TWO_32 && YieldsPick(v, n, k)
  }

  /** The first input whose product reaches the accepted part of the k-th stripe of 2^32. */
  ghost function StripeStart(n: Divisor, k: nat): int {
    (k * TWO_32 + TWO_32 % n + n - 1) / n
  }

  lemma StripeStartBounds(n: Divisor, k: nat, v: int)
    ensures v >= StripeStart(n, k) <==> v * n >= k * TWO_32 + TWO_32 % n
  {
    var x := k * TWO_32 + TWO_32 % n;
    var s := StripeStart(n, k);
    assert s * n <= x + n - 1 < s * n + n;
    assert v >= s ==> v * n >= s * n;
    assert v <= s - 1 ==> v * n <= (s - 1) * n;
    assert (s - 1) * n == s * n - n;
  }

  /** v reaches k+1 times 2^32 exactly at the end of the stripe. */
  lemma StripeEndBounds(n: Divisor, k: nat, v: int)
    ensures v < StripeStart(n, k) + TWO_32 / n <==> v * n < (k + 1) * TWO_32
  {
    var q := TWO_32 / n;
    StripeStartBounds(n, k, v - q);
    assert (v - q) * n == v * n - q * n;
    assert q * n + TWO_32 % n == TWO_32;
  }

  lemma StripeIsWord(n: Divisor, k: nat, v: int)
    requires k < n && 0 <= v * n < (k + 1) * TWO_32
    ensures 0 <= v < TWO_32
  {
    assert (k + 1) * TWO_32 <= n * TWO_32;
    assert v >= TWO_32 ==> v * n >= TWO_32 * n;
    assert v < 0 ==> v * n < 0;
  }

  lemma PickInputsAreStripe(n: Divisor, k: nat, v: int)
    requires k < n
    ensures v in PickInputs(n, k) <==> StripeStart(n, k) <= v < StripeStart(n, k) + TWO_32 / n
  {
    ThresholdIsRemainder(n);
    StripeStartBounds(n, k, v);
    StripeEndBounds(n, k, v);
    if StripeStart(n, k) <= v < StripeStart(n, k) + TWO_32 / n {
      StripeIsWord(n, k, v);
      DivModUnique(v * n, TWO_32, k);
      assert YieldsPick(v, n, k);
    }
    if v in PickInputs(n, k) {
      assert v * n == k * TWO_32 + Low(v, n);
    }
  }

  /** Exact uniformity: every residue has floor(2^32 / n) accepted 32-bit inputs. */
  lemma UnbiasedModulo32IsUniform(n: Divisor, k: nat)
    requires k < n
    ensures |PickInputs(n, k)| == TWO_32 / n
  {
    var lo, q := StripeStart(n, k), TWO_32 / n;
    forall v ensures v in PickInputs(n, k) <==> v in Interval(lo, lo + q) {
      PickInputsAreStripe(n, k, v);
    }
    assert PickInputs(n, k) == Interval(lo, lo + q);
  }

  // ---- uniformity over the raw 64-bit draws ----

  ghost predicate HighIs(raw: int, u: uint32) { -TWO_63 <= raw < TWO_63 && High32(raw) == u }

  ghost function RawDraws(u: uint32): set<int> {
    set raw: int | -TWO_63 <= raw < TWO_63 && HighIs(raw, u)
  }

  lemma HighIsStripe(raw: int64, u: uint32)
    ensures High32(raw) == u <==>
              || u * TWO_31 <= raw < (u + 1) * TWO_31
              || u * TWO_31 <= 0 - raw < (u + 1) * TWO_31
              || (u == 0 && raw == -TWO_63)
  {
    var i := Abs63(raw);
    if raw == -TWO_63 {
      assert High32(raw) == 0;
      assert 0 - raw >= TWO_32 * TWO_31;
      assert (u + 1) * TWO_31 <= TWO_32 * TWO_31;
    } else {
      assert 0 <= i / TWO_31 < TWO_32;
      if u * TWO_31 <= i < (u + 1) * TWO_31 {
        DivModUnique(i, TWO_31, u);
      }
    }
  }

  /**
    Every 32-bit value has exactly 2^32 raw draws. Zero would be one short, because it has
    no negative twin; the draw -2^63, which Int63 leaves negative, makes up for it.
  */
  lemma Uint32IsUniform(u: uint32)
    ensures |RawDraws(u)| == TWO_32
  {
    var lo, hi := u * TWO_31, (u + 1) * TWO_31;
    assert 0 <= lo && hi == lo + TWO_31 <= TWO_63;
    forall raw
      ensures raw in RawDraws(u) <==>
              lo <= raw < hi || lo <= 0 - raw < hi || (u == 0 && raw == -TWO_63)
    {
      RawDrawsMember(raw, u);
    }
    if u == 0 {
      Partition(RawDraws(u), Interval(1 - hi, hi), {-TWO_63});
    } else {
      Partition(RawDraws(u), Interval(lo, hi), Interval(1 - hi, 1 - lo));
    }
  }

  lemma RawDrawsMember(raw: int, u: uint32)
    ensures raw in RawDraws(u) <==>
              || u * TWO_31 <= raw < (u + 1) * TWO_31
              || u * TWO_31 <= 0 - raw < (u + 1) * TWO_31
              || (u == 0 && raw == -TWO_63)
  {
    assert (u + 1) * TWO_31 <= TWO_32 * TWO_31;
    if -TWO_63 <= raw < TWO_63 {
      HighIsStripe(raw, u);
      assert HighIs(raw, u) <==> High32(raw) == u;
    }
  }

  ghost predicate RawYields(raw: int, n: Divisor, k: int) {
    -TWO_63 <= raw < TWO_63 && YieldsPick(High32(raw), n, k)
  }

  ghost function RawPickDraws(n: Divisor, k: int): set<int> {
    set raw: int | -TWO_63 <= raw < TWO_63 && RawYields(raw, n, k)
  }

  /** Int31n is exactly uniform over the 2^64 raw draws as well. */
  lemma Int31nIsUniform(n: Divisor, k: nat)
    requires k < n
    ensures |RawPickDraws(n, k)| == (TWO_32 / n) * TWO_32
  {
    var high := (x: int) => if -TWO_63 <= x < TWO_63 then High32(x) else -1;
    var inputs := PickInputs(n, k);
    forall u | u in inputs ensures |Preimage(high, -TWO_63, TWO_63, {u})| == TWO_32 {
      Uint32IsUniform(u);
      assert Preimage(high, -TWO_63, TWO_63, {u}) == RawDraws(u);
    }
    PreimageSize(high, -TWO_63, TWO_63, inputs, TWO_32);
    assert RawPickDraws(n, k) == Preimage(high, -TWO_63, TWO_63, inputs);
    UnbiasedModulo32IsUniform(n, k);
  }

  // ---- modulo rejection (Int63n) ----

  type Bound63 = m: int | 0 < m < TWO_63 witness 1

  function TrueMax(max: Bound63): int64 { TWO_63 - 1 - TWO_63 % max }

  /** Go's remainder takes the sign of its left operand. */
  function GoMod(i: int, m: Bound63): int { if i >= 0 then i % m else -((-i) % m) }

  ghost predicate YieldsResidue(raw: int, max: Bound63, r: int) {
    -TWO_63 <= raw < TWO_63 && Abs63(raw) <= TrueMax(max) && GoMod(Abs63(raw), max) == r
  }

  ghost function ResidueDraws(max: Bound63, r: int): set<int> {
    set raw: int | -TWO_63 <= raw < TWO_63 && YieldsResidue(raw, max, r)
  }

  /** The accepted interval is a whole number of periods, so its non-negative values are fair. */
  lemma Int63nIntervalIsFair(max: Bound63, r: nat)
    requires r < max
    ensures TrueMax(max) + 1 == (TWO_63 / max) * max
    ensures |Residues(max, TWO_63 / max, r)| == TWO_63 / max
  {
    ResiduesSize(max, TWO_63 / max, r);
  }

  /**
    Over the raw draws each residue has two preimages per period, except that zero has no
    negative twin; only when max divides 2^63 does the draw -2^63 fill that gap.
  */
  lemma Int63nPreimages(max: Bound63, r: nat)
    requires r < max
    ensures |ResidueDraws(max, r)| ==
            2 * (TWO_63 / max) - (if r == 0 && TWO_63 % max != 0 then 1 else 0)
  {
    var q := TWO_63 / max;
    Int63nIntervalIsFair(max, r);
    var fair := Residues(max, q, r);
    assert q > 0 by { assert TWO_63 == q * max + TWO_63 % max; }
    ZeroIsResidue(max, q, r);
    assert |fair - {0}| == q - (if r == 0 then 1 else 0);
    MirrorSize(fair - {0});
    ResidueDrawsSplit(max, r, fair);
  }

  lemma ZeroIsResidue(m: nat, q: nat, r: nat)
    requires r < m && 0 < q
    ensures 0 in Residues(m, q, r) <==> r == 0
  {
    assert q * m > 0;
  }

  /** raw is a fair value, the negative of one, or the draw that wraps. */
  ghost predicate Mirrors(raw: int, fair: set<int>, wraps: bool) {
    raw in fair || (raw < 0 && 0 - raw in fair) || (wraps && raw == -TWO_63)
  }

  lemma ResidueDrawsSplit(max: Bound63, r: nat, fair: set<int>)
    requires r < max && fair == Residues(max, TWO_63 / max, r)
    ensures |ResidueDraws(max, r)| ==
            |fair| + |Preimage(Negate, -TWO_63, TWO_63, fair - {0})|
            + (if TWO_63 % max == 0 && r == 0 then 1 else 0)
  {
    FairBelow(max, r);
    var wraps := TWO_63 % max == 0 && r == 0;
    forall raw ensures raw in ResidueDraws(max, r) <==> Mirrors(raw, fair, wraps) {
      ResidueDrawsMember(raw, max, r, fair);
    }
    MirroredUnionSize(ResidueDraws(max, r), fair, wraps);
  }

  lemma ResidueDrawsMember(raw: int, max: Bound63, r: nat, fair: set<int>)
    requires r < max && fair == Residues(max, TWO_63 / max, r)
    ensures raw in ResidueDraws(max, r) <==> Mirrors(raw, fair, TWO_63 % max == 0 && r == 0)
  {
    FairBelow(max, r);
    if -TWO_63 <= raw < TWO_63 {
      YieldsResidueIff(raw, max, r);
    }
  }

  lemma FairBelow(max: Bound63, r: nat)
    requires r < max
    ensures forall y :: y in Residues(max, TWO_63 / max, r) ==> 0 <= y < TWO_63
  {
    assert TrueMax(max) + 1 == (TWO_63 / max) * max;
  }

  lemma MirroredUnionSize(whole: set<int>, fair: set<int>, wraps: bool)
    requires forall y :: y in fair ==> 0 <= y < TWO_63
    requires forall raw :: raw in whole <==> Mirrors(raw, fair, wraps)
    ensures |whole| ==
            |fair| + |Preimage(Negate, -TWO_63, TWO_63, fair - {0})| + (if wraps then 1 else 0)
  {
    var mirrored := Preimage(Negate, -TWO_63, TWO_63, fair - {0});
    var wrapped := if wraps then {-TWO_63} else {};
    forall raw ensures raw in mirrored <==> raw < 0 && 0 - raw in fair {
      assert Negate(raw) == 0 - raw;
    }
    Partition(whole, fair, mirrored + wrapped);
    Partition(mirrored + wrapped, mirrored, wrapped);
  }

  function Negate(x: int): int { 0 - x }

  lemma MirrorSize(s: set<int>)
    requires forall y :: y in s ==> 0 < y < TWO_63
    ensures |Preimage(Negate, -TWO_63, TWO_63, s)| == |s|
  {
    forall y | y in s ensures |Preimage(Negate, -TWO_63, TWO_63, {y})| == 1 {
      assert Preimage(Negate, -TWO_63, TWO_63, {y}) == {0 - y};
    }
    PreimageSize(Negate, -TWO_63, TWO_63, s, 1);
  }

  lemma YieldsResidueIff(raw: int64, max: Bound63, r: nat)
    requires r < max
    ensures YieldsResidue(raw, max, r) <==>
              || raw in Residues(max, TWO_63 / max, r)
              || (raw < 0 && 0 - raw in Residues(max, TWO_63 / max, r))
              || (raw == -TWO_63 && TWO_63 % max == 0 && r == 0)
  {
    assert TrueMax(max) + 1 == (TWO_63 / max) * max;
  }

  lemma Int63nUniformIff(max: Bound63)
    ensures TWO_63 % max == 0 <==>
            forall r: nat :: r < max ==> |ResidueDraws(max, r)| == |ResidueDraws(max, 0)|
  {
    forall r: nat | r < max { Int63nPreimages(max, r); }
    if TWO_63 % max != 0 {
      assert max > 1;
      assert |ResidueDraws(max, 1)| != |ResidueDraws(max, 0)|;
    }
  }

  /** An accepted draw lands in [0, max) unless it is -2^63 and max does not divide 2^63. */
  lemma Int63nInRangeIff(raw: int64, max: Bound63)
    requires Abs63(raw) <= TrueMax(max)
    ensures 0 <= GoMod(Abs63(raw), max) < max <==> !(raw == -TWO_63 && TWO_63 % max != 0)
  {
  }

  // ---- what the loops read from the stream ----

  function DrawAt(stream: seq<byte>): int64
    requires |stream| >= 8
  {
    BigEndian64(stream[..8])
  }

  /** The value UnbiasedModulo32 settles on, and the bytes it leaves. */
  function FirstAccepted32(stream: seq<byte>, v: uint32, n: Divisor): (Option<uint32>, seq<byte>) {
    if Accepted(v, n) then (Some(v), stream)
    else if |stream| < 8 then (None, [])
    else FirstAccepted32(stream[8..], High32(DrawAt(stream)), n)
  }

  function FirstAccepted63(stream: seq<byte>, max: Bound63): (Option<int64>, seq<byte>) {
    if |stream| < 8 then (None, [])
    else if Abs63(DrawAt(stream)) <= TrueMax(max) then (Some(DrawAt(stream)), stream[8..])
    else FirstAccepted63(stream[8..], max)
  }

  lemma {:induction false} FirstAccepted32IsAccepted(stream: seq<byte>, v: uint32, n: Divisor)
    ensures var a := FirstAccepted32(stream, v, n).0; a.Some? ==> Accepted(a.value, n)
    decreases |stream|
  {
    if !Accepted(v, n) && |stream| >= 8 {
      FirstAccepted32IsAccepted(stream[8..], High32(DrawAt(stream)), n);
    }
  }

  // Int31n over any number of redraws.

  ghost predicate RawRejected(raw: int, n: Divisor) {
    -TWO_63 <= raw < TWO_63 && !Accepted(High32(raw), n)
  }

  ghost function RejectedDraws(n: Divisor): set<int> {
    set raw: int | -TWO_63 <= raw < TWO_63 && RawRejected(raw, n)
  }

  /** The raw draws of a call that rejects j times and then gives k. */
  ghost function Attempts(n: Divisor, k: int, j: nat): set<seq<int>> {
    if j == 0 then Prefixed(RawPickDraws(n, k), {[]})
    else Prefixed(RejectedDraws(n), Attempts(n, k, j - 1))
  }

  function DrawsOf(stream: seq<byte>, m: nat): seq<int64>
    requires |stream| >= 8 * m
  {
    if m == 0 then [] else [DrawAt(stream)] + DrawsOf(stream[8..], m - 1)
  }

  lemma Regrouped(a: nat, b: nat, c: nat)
    ensures a * (b * c) == a * b * c
  {
  }

  /** After any number of rejections, every k comes from equally many sequences of raw draws. */
  lemma {:induction false} Int31nUniformAtEveryAttempt(n: Divisor, k: nat, j: nat)
    requires k < n
    ensures |Attempts(n, k, j)| == Pow(|RejectedDraws(n)|, j) * ((TWO_32 / n) * TWO_32)
    decreases j
  {
    if j == 0 {
      Int31nIsUniform(n, k);
      PrefixedSize(RawPickDraws(n, k), {[]});
    } else {
      Int31nUniformAtEveryAttempt(n, k, j - 1);
      var rejected := RejectedDraws(n);
      PrefixedSize(rejected, Attempts(n, k, j - 1));
      Regrouped(|rejected|, Pow(|rejected|, j - 1), (TWO_32 / n) * TWO_32);
    }
  }

  /** A stream that begins with such draws makes the redraw loop settle on k after exactly them. */
  lemma {:induction false} AttemptDecidesInt31n(stream: seq<byte>, n: Divisor, k: nat, j: nat)
    requires k < n && |stream| >= 8 * (j + 1) && DrawsOf(stream, j + 1) in Attempts(n, k, j)
    ensures var a := FirstAccepted32(stream[8..], High32(DrawAt(stream)), n);
            a.0.Some? && Pick(a.0.value, n) == k && a.1 == stream[8 * (j + 1)..]
    decreases j
  {
    var raw, rest := DrawAt(stream), stream[8..];
    assert DrawsOf(stream, j + 1) == [raw] + DrawsOf(rest, j);
    if j == 0 {
      PrefixedMember(raw, DrawsOf(rest, j), RawPickDraws(n, k), {[]});
      assert RawYields(raw, n, k);
    } else {
      PrefixedMember(raw, DrawsOf(rest, j), RejectedDraws(n), Attempts(n, k, j - 1));
      assert RawRejected(raw, n);
      AttemptDecidesInt31n(rest, n, k, j - 1);
      assert rest[8 * j..] == stream[8 * (j + 1)..];
    }
  }

  // Int63n over any number of redraws.

  ghost predicate RawOver(raw: int, max: Bound63) {
    -TWO_63 <= raw < TWO_63 && Abs63(raw) > TrueMax(max)
  }

  ghost function OverDraws(max: Bound63): set<int> {
    set raw: int | -TWO_63 <= raw < TWO_63 && RawOver(raw, max)
  }

  /** The raw draws of a call that redraws j times and then gives residue r. */
  ghost function ResidueAttempts(max: Bound63, r: int, j: nat): set<seq<int>> {
    if j == 0 then Prefixed(ResidueDraws(max, r), {[]})
    else Prefixed(OverDraws(max), ResidueAttempts(max, r, j - 1))
  }

  lemma {:induction false} ResidueAttemptsSize(max: Bound63, r: nat, j: nat)
    requires r < max
    ensures |ResidueAttempts(max, r, j)| == Pow(|OverDraws(max)|, j) * |ResidueDraws(max, r)|
    decreases j
  {
    if j == 0 {
      PrefixedSize(ResidueDraws(max, r), {[]});
    } else {
      ResidueAttemptsSize(max, r, j - 1);
      PrefixedSize(OverDraws(max), ResidueAttempts(max, r, j - 1));
      Regrouped(|OverDraws(max)|, Pow(|OverDraws(max)|, j - 1), |ResidueDraws(max, r)|);
    }
  }

  lemma {:induction false} PowPositive(b: nat, e: nat)
    requires b > 0
    ensures Pow(b, e) > 0
  {
    if e > 0 {
      PowPositive(b, e - 1);
    }
  }

  lemma OverDrawsInhabited(max: Bound63)
    requires TWO_63 % max != 0
    ensures |OverDraws(max)| > 0
  {
    assert RawOver(TWO_63 - 1, max);
    assert TWO_63 - 1 in OverDraws(max);
  }

  lemma ProductsDiffer(a: nat, b: nat, c: nat)
    requires a > 0 && b != c
    ensures a * b != a * c
  {
  }

  lemma UnevenAttempts(max: Bound63, j: nat)
    requires TWO_63 % max != 0
    ensures max > 1 && |ResidueAttempts(max, 1, j)| != |ResidueAttempts(max, 0, j)|
  {
    var redraws := Pow(|OverDraws(max)|, j);
    Int63nPreimages(max, 0);
    Int63nPreimages(max, 1);
    ResidueAttemptsSize(max, 0, j);
    ResidueAttemptsSize(max, 1, j);
    OverDrawsInhabited(max);
    PowPositive(|OverDraws(max)|, j);
    ProductsDiffer(redraws, |ResidueDraws(max, 1)|, |ResidueDraws(max, 0)|);
  }

  lemma EvenAttempts(max: Bound63, r: nat, j: nat)
    requires TWO_63 % max == 0 && r < max
    ensures |ResidueAttempts(max, r, j)| == |ResidueAttempts(max, 0, j)|
  {
    Int63nPreimages(max, 0);
    Int63nPreimages(max, r);
    ResidueAttemptsSize(max, 0, j);
    ResidueAttemptsSize(max, r, j);
  }

  /** After any number of redraws, all residues come from equally many draw sequences iff max divides 2^63. */
  lemma Int63nUniformAtEveryAttemptIff(max: Bound63, j: nat)
    ensures TWO_63 % max == 0 <==>
            forall r: nat :: r < max ==> |ResidueAttempts(max, r, j)| == |ResidueAttempts(max, 0, j)|
  {
    if TWO_63 % max == 0 {
      forall r: nat | r < max { EvenAttempts(max, r, j); }
    } else {
      UnevenAttempts(max, j);
    }
  }

  /** A stream that begins with such draws makes the loop settle on r after exactly them. */
  lemma {:induction false} AttemptDecidesInt63n(stream: seq<byte>, max: Bound63, r: nat, j: nat)
    requires r < max && |stream| >= 8 * (j + 1) && DrawsOf(stream, j + 1) in ResidueAttempts(max, r, j)
    ensures var a := FirstAccepted63(stream, max);
            a.0.Some? && GoMod(Abs63(a.0.value), max) == r && a.1 == stream[8 * (j + 1)..]
    decreases j
  {
    var raw, rest := DrawAt(stream), stream[8..];
    assert DrawsOf(stream, j + 1) == [raw] + DrawsOf(rest, j);
    if j == 0 {
      PrefixedMember(raw, DrawsOf(rest, j), ResidueDraws(max, r), {[]});
      assert YieldsResidue(raw, max, r);
    } else {
      PrefixedMember(raw, DrawsOf(rest, j), OverDraws(max), ResidueAttempts(max, r, j - 1));
      assert RawOver(raw, max);
      AttemptDecidesInt63n(rest, max, r, j - 1);
      assert rest[8 * j..] == stream[8 * (j + 1)..];
    }
  }

  lemma {:induction false} FirstAccepted63IsAccepted(stream: seq<byte>, max: Bound63)
    ensures var a := FirstAccepted63(stream, max).0; a.Some? ==> Abs63(a.value) <= TrueMax(max)
    decreases |stream|
  {
    if |stream| >= 8 {
      FirstAccepted63IsAccepted(stream[8..], max);
    }
  }

  class Entropy {
    var bytes: seq<byte>

    constructor (bytes: seq<byte>)
      ensures this.bytes == bytes
    {
      this.bytes := bytes;
    }

    /** `io.ReadFull`: all k bytes or an error. */
    method ReadFull(k: nat) returns (r: Result<seq<byte>>)
      modifies this
      ensures |old(bytes)| < k ==> r.Err? && bytes == []
      ensures |old(bytes)| >= k ==> r == Ok(old(bytes)[..k]) && bytes == old(bytes)[k..]
    {
      if |bytes| < k {
        bytes := [];
        return Err;
      }
      r := Ok(bytes[..k]);
      bytes := bytes[k..];
    }

    method Int63() returns (r: Result<int64>)
      modifies this
      ensures |old(bytes)| < 8 ==> r.Err? && bytes == []
      ensures |old(bytes)| >= 8 ==> r == Ok(Abs63(DrawAt(old(bytes)))) && bytes == old(bytes)[8..]
    {
      var buf := ReadFull(8);
      if buf.Err? { return Err; }
      var i := BigEndian64(buf.value);
      r := Ok(if i < 0 then (if i == -TWO_63 then i else -i) else i);
    }

    method Uint32() returns (r: Result<uint32>)
      modifies this
      ensures |old(bytes)| < 8 ==> r.Err? && bytes == []
      ensures |old(bytes)| >= 8 ==> r == Ok(High32(DrawAt(old(bytes)))) && bytes == old(bytes)[8..]
    {
      var i := Int63();
      if i.Err? { return Err; }
      r := Ok((i.value / TWO_31) % TWO_32);
    }

    method UnbiasedModulo32(v0: uint32, n: Divisor) returns (r: Result<int>)
      modifies this
      ensures bytes == FirstAccepted32(old(bytes), v0, n).1
      ensures match FirstAccepted32(old(bytes), v0, n).0
              case None => r.Err?
              case Some(v) => r == Ok(Pick(v, n)) && Accepted(v, n) && 0 <= r.value < n
    {
      var v: uint32 := v0;
      var prod := v * n;
      var low := prod % TWO_32;
      ShortcutIsExact(v0, n);
      ThresholdIsRemainder(n);
      FirstAccepted32IsAccepted(bytes, v0, n);
      if low < n {
        var thresh := (TWO_32 - n) % n;
        while low < thresh
          invariant prod == v * n && low == prod % TWO_32
          invariant FirstAccepted32(bytes, v, n) == FirstAccepted32(old(bytes), v0, n)
          decreases |bytes|
        {
          var next := Uint32();
          if next.Err? { return Err; }
          v := next.value;
          prod := v * n;
          low := prod % TWO_32;
        }
      }
      r := Ok(prod / TWO_32);
    }

    method Int31n(max: Divisor) returns (r: Result<int>)
      modifies this
      ensures |old(bytes)| < 8 ==> r.Err?
      ensures |old(bytes)| >= 8 ==>
                match FirstAccepted32(old(bytes)[8..], High32(DrawAt(old(bytes))), max).0
                case None => r.Err?
                case Some(v) => r == Ok(Pick(v, max)) && Accepted(v, max) && 0 <= r.value < max
    {
      var i := Uint32();
      if i.Err? { return Err; }
      r := UnbiasedModulo32(i.value, max);
    }

    method Int63n(max: Bound63) returns (r: Result<int>)
      modifies this
      ensures bytes == FirstAccepted63(old(bytes), max).1
      ensures match FirstAccepted63(old(bytes), max).0
              case None => r.Err?
              case Some(raw) => r == Ok(GoMod(Abs63(raw), max)) && Abs63(raw) <= TrueMax(max)
    {
      var trueMax := TWO_63 - 1 - TWO_63 % max;
      FirstAccepted63IsAccepted(bytes, max);
      ghost var before := bytes;
      var i := Int63();
      if i.Err? { return Err; }
      while i.value > trueMax
        invariant i.Ok? && |before| >= 8 && bytes == before[8..] && i.value == Abs63(DrawAt(before))
        invariant FirstAccepted63(before, max) == FirstAccepted63(old(bytes), max)
        decreases |bytes|
      {
        before := bytes;
        i := Int63();
        if i.Err? { return Err; }
      }
      r := Ok(GoMod(i.value, max));
    }

    /** In range for every raw draw below 2^31, and for every accepted draw but -2^63 above. */
    method Intn(max: Bound63) returns (r: Result<int>)
      modifies this
      ensures max < TWO_31 && |old(bytes)| < 8 ==> r.Err?
      ensures max < TWO_31 && |old(bytes)| >= 8 ==>
                match FirstAccepted32(old(bytes)[8..], High32(DrawAt(old(bytes))), max).0
                case None => r.Err?
                case Some(v) => r == Ok(Pick(v, max)) && Accepted(v, max) && 0 <= r.value < max
      ensures max >= TWO_31 ==>
                match FirstAccepted63(old(bytes), max).0
                case None => r.Err?
                case Some(raw) =>
                  && r == Ok(GoMod(Abs63(raw), max))
                  && (0 <= r.value < max <==> !(raw == -TWO_63 && TWO_63 % max != 0))
    {
      if max <= TWO_31 - 1 {
        r := Int31n(max);
      } else {
        FirstAccepted63IsAccepted(bytes, max);
        r := Int63n(max);
      }
    }

    /** strings.go: one 32-bit word per rune, redrawn from the stream when rejected. */
    method StringCharset(charset: string, size: nat) returns (r: Result<string>)
      requires |charset| < TWO_31
      modifies this
      ensures (r, bytes) == GeneratedString(old(bytes), charset, size)
      ensures r.Ok? && charset != "" ==> |r.value| == size
      ensures r.Ok? ==> forall i :: 0 <= i < |r.value| ==> r.value[i] in charset
    {
      if |charset| == 0 || size == 0 { return Ok(""); }
      var ibuf := ReadFull(4 * size);
      if ibuf.Err? { return Err; }
      ghost var rest := bytes;
      var out := "";
      var i := 0;
      PrependedNothing(FillFrom(ibuf.value, 0, rest, charset).0);
      while i < size
        invariant 0 <= i <= size && |out| == i
        invariant forall j :: 0 <= j < i ==> out[j] in charset
        invariant FillFrom(ibuf.value, 0, rest, charset) ==
                  Prepend(out, FillFrom(ibuf.value, i, bytes, charset))
      {
        var count := UnbiasedModulo32(WordAt(ibuf.value, i), |charset|);
        if count.Err? { return Err; }
        PrependedTwice(out, [charset[count.value]], FillFrom(ibuf.value, i + 1, bytes, charset).0);
        out := out + [charset[count.value]];
        i := i + 1;
      }
      assert out + "" == out;
      r := Ok(out);
    }
  }

  function Prepend(s: string, r: (Result<string>, seq<byte>)): (Result<string>, seq<byte>) {
    (Prepended(s, r.0), r.1)
  }

  function WordAt(ibuf: seq<byte>, i: nat): uint32
    requires 4 * i + 4 <= |ibuf|
  {
    BigEndian32(ibuf[4 * i..4 * (i + 1)])
  }

  function FillFrom(ibuf: seq<byte>, i: nat, stream: seq<byte>, charset: string): (Result<string>, seq<byte>)
    requires 0 < |charset| < TWO_31 && 4 * i <= |ibuf|
    decreases |ibuf| - 4 * i
  {
    if |ibuf| < 4 * i + 4 then (Ok(""), stream)
    else
      var (v, rest) := FirstAccepted32(stream, WordAt(ibuf, i), |charset|);
      if v.None? then (Err, rest)
      else Prepend([charset[Pick(v.value, |charset|)]], FillFrom(ibuf, i + 1, rest, charset))
  }

  function GeneratedString(stream: seq<byte>, charset: string, size: nat): (Result<string>, seq<byte>)
    requires |charset| < TWO_31
  {
    if |charset| == 0 || size == 0 then (Ok(""), stream)
    else if |stream| < 4 * size then (Err, [])
    else FillFrom(stream[..4 * size], 0, stream[4 * size..], charset)
  }

  // ---- uniformity of strings ----

  function Words(ibuf: seq<byte>): seq<uint32> {
    seq(|ibuf| / 4, i requires 0 <= i < |ibuf| / 4 => WordAt(ibuf, i))
  }

  ghost predicate IndexVector(ks: seq<int>, n: Divisor) {
    forall i :: 0 <= i < |ks| ==> 0 <= ks[i] < n
  }

  function Letters(charset: string, ks: seq<int>): string
    requires 0 < |charset| < TWO_31 && IndexVector(ks, |charset|)
  {
    seq(|ks|, i requires 0 <= i < |ks| => charset[ks[i]])
  }

  ghost predicate DrawsPick(vs: seq<int>, n: Divisor, ks: seq<int>) {
    |vs| == |ks| && forall i :: 0 <= i < |ks| ==> YieldsPick(vs[i], n, ks[i])
  }

  ghost function DrawVectors(n: Divisor, ks: seq<int>): set<seq<int>> {
    Product(seq(|ks|, i requires 0 <= i < |ks| => PickInputs(n, ks[i])))
  }

  /** Every index vector comes from exactly floor(2^32 / n)^size accepted draw vectors. */
  lemma StringsAreUniform(n: Divisor, ks: seq<int>)
    requires IndexVector(ks, n)
    ensures forall vs :: vs in DrawVectors(n, ks) <==> DrawsPick(vs, n, ks)
    ensures |DrawVectors(n, ks)| == Pow(TWO_32 / n, |ks|)
  {
    var sets := seq(|ks|, i requires 0 <= i < |ks| => PickInputs(n, ks[i]));
    forall i | 0 <= i < |ks| ensures |sets[i]| == TWO_32 / n {
      UnbiasedModulo32IsUniform(n, ks[i]);
    }
    ProductSize(sets, TWO_32 / n);
    forall vs ensures vs in DrawVectors(n, ks) <==> DrawsPick(vs, n, ks) {
      ProductMembers(sets, vs);
    }
  }

  /** A buffer of accepted words decides the string on its own, whatever follows it. */
  lemma {:induction false} AcceptedWordsDecideString(ibuf: seq<byte>, i: nat, stream: seq<byte>, charset: string, ks: seq<int>)
    requires 0 < |charset| < TWO_31 && IndexVector(ks, |charset|)
    requires 4 * i <= |ibuf| && DrawsPick(Words(ibuf), |charset|, ks)
    ensures FillFrom(ibuf, i, stream, charset) == (Ok(Letters(charset, ks)[i..]), stream)
    decreases |ibuf| - 4 * i
  {
    if 4 * i + 4 <= |ibuf| {
      AcceptedWordsDecideString(ibuf, i + 1, stream, charset, ks);
      assert Words(ibuf)[i] == WordAt(ibuf, i);
      assert YieldsPick(WordAt(ibuf, i), |charset|, ks[i]);
      assert FirstAccepted32(stream, WordAt(ibuf, i), |charset|) == (Some(WordAt(ibuf, i)), stream);
      assert Letters(charset, ks)[i..] == [charset[ks[i]]] + Letters(charset, ks)[i + 1..];
    } else {
      assert Letters(charset, ks)[i..] == "";
    }
  }

  // Strings over any number of redraws.

  ghost predicate WordRejected(v: int, n: Divisor) { 0 <= v < TWO_32 && !Accepted(v, n) }

  ghost function RejectedWords(n: Divisor): set<int> {
    set v: int | 0 <= v < TWO_32 && WordRejected(v, n)
  }

  /** The buffer word and the raw draws with which a position rejects j times and then picks k. */
  ghost function PositionInputs(n: Divisor, k: int, j: nat): set<seq<int>> {
    if j == 0 then Prefixed(PickInputs(n, k), {[]})
    else Prefixed(RejectedWords(n), Attempts(n, k, j - 1))
  }

  ghost function PositionCount(n: Divisor, j: nat): nat {
    if j == 0 then TWO_32 / n
    else Times(|RejectedWords(n)|, Times(Pow(|RejectedDraws(n)|, j - 1), Times(TWO_32 / n, TWO_32)))
  }

  lemma PositionInputsSize(n: Divisor, k: nat, j: nat)
    requires k < n
    ensures |PositionInputs(n, k, j)| == PositionCount(n, j)
  {
    if j == 0 {
      UnbiasedModulo32IsUniform(n, k);
      PrefixedSize(PickInputs(n, k), {[]});
    } else {
      Int31nUniformAtEveryAttempt(n, k, j - 1);
      PrefixedSize(RejectedWords(n), Attempts(n, k, j - 1));
    }
  }

  /** The inputs of a whole string, position i rejecting js[i] times. */
  ghost function StringInputs(n: Divisor, ks: seq<int>, js: seq<nat>): set<seq<seq<int>>>
    requires |ks| == |js|
  {
    if ks == [] then {[]} else Prefixed(PositionInputs(n, ks[0], js[0]), StringInputs(n, ks[1..], js[1..]))
  }

  ghost function StringCount(n: Divisor, js: seq<nat>): nat {
    if js == [] then 1 else Times(PositionCount(n, js[0]), StringCount(n, js[1..]))
  }

  /** However often each position redraws, every index vector comes from equally many inputs. */
  lemma {:induction false} StringsUniformAtEveryAttempt(n: Divisor, ks: seq<int>, js: seq<nat>)
    requires IndexVector(ks, n) && |ks| == |js|
    ensures |StringInputs(n, ks, js)| == StringCount(n, js)
    decreases |ks|
  {
    if ks != [] {
      PositionInputsSize(n, ks[0], js[0]);
      StringsUniformAtEveryAttempt(n, ks[1..], js[1..]);
      PrefixedSize(PositionInputs(n, ks[0], js[0]), StringInputs(n, ks[1..], js[1..]));
    }
  }

  lemma PositionDecides(stream: seq<byte>, v: uint32, n: Divisor, k: nat, j: nat)
    requires k < n && |stream| >= 8 * j
    ensures var a := FirstAccepted32(stream, v, n);
            [v] + DrawsOf(stream, j) in PositionInputs(n, k, j) ==>
              a.0.Some? && Pick(a.0.value, n) == k && a.1 == stream[8 * j..]
  {
    if [v] + DrawsOf(stream, j) in PositionInputs(n, k, j) {
      if j == 0 {
        PrefixedMember(v, DrawsOf(stream, j), PickInputs(n, k), {[]});
        assert YieldsPick(v, n, k);
      } else {
        PrefixedMember(v, DrawsOf(stream, j), RejectedWords(n), Attempts(n, k, j - 1));
        assert WordRejected(v, n);
        AttemptDecidesInt31n(stream, n, k, j - 1);
      }
    }
  }

  /** The buffer from word i on and the stream hold these inputs in turn. */
  ghost predicate Supplies(ibuf: seq<byte>, i: nat, stream: seq<byte>, inputs: seq<seq<int>>, js: seq<nat>)
    requires |inputs| == |js|
    decreases |js|
  {
    if js == [] then 4 * i <= |ibuf| < 4 * i + 4
    else
      && 4 * i + 4 <= |ibuf| && |stream| >= 8 * js[0]
      && inputs[0] == [WordAt(ibuf, i)] + DrawsOf(stream, js[0])
      && Supplies(ibuf, i + 1, stream[8 * js[0]..], inputs[1..], js[1..])
  }

  /** A generator supplied with inputs of an index vector spells that vector. */
  lemma {:induction false} InputsDecideString(ibuf: seq<byte>, i: nat, stream: seq<byte>, charset: string,
                                              inputs: seq<seq<int>>, ks: seq<int>, js: seq<nat>)
    requires 0 < |charset| < TWO_31 && IndexVector(ks, |charset|) && |ks| == |js| == |inputs| && 4 * i <= |ibuf|
    ensures Supplies(ibuf, i, stream, inputs, js) && inputs in StringInputs(|charset|, ks, js) ==>
              FillFrom(ibuf, i, stream, charset).0 == Ok(Letters(charset, ks))
    decreases |js|
  {
    if js == [] {
      assert Letters(charset, ks) == "";
    } else if Supplies(ibuf, i, stream, inputs, js) && inputs in StringInputs(|charset|, ks, js) {
      var n := |charset|;
      PrefixedShape(inputs, PositionInputs(n, ks[0], js[0]), StringInputs(n, ks[1..], js[1..]));
      PositionDecides(stream, WordAt(ibuf, i), n, ks[0], js[0]);
      InputsDecideString(ibuf, i + 1, stream[8 * js[0]..], charset, inputs[1..], ks[1..], js[1..]);
      assert Letters(charset, ks) == [charset[ks[0]]] + Letters(charset, ks[1..]);
    }
  }

  // ---- uniformity over byte buffers ----

  /** The buffer that holds these words, one after the other. */
  function Encoded(ws: seq<int>): (b: seq<byte>)
    ensures |b| == 4 * |ws|
  {
    if ws == [] then [] else Bytes32(ws[0]) + Encoded(ws[1..])
  }

  ghost predicate AllWords(ws: seq<int>) { forall i :: 0 <= i < |ws| ==> 0 <= ws[i] < TWO_32 }

  /** Word i of the buffer is word i of the vector. */
  lemma {:induction false} EncodedAt(ws: seq<int>, i: nat)
    requires i < |ws|
    ensures Encoded(ws)[4 * i..4 * (i + 1)] == Bytes32(ws[i])
    decreases |ws|
  {
    SlotOfJoined(Bytes32(ws[0]), Encoded(ws[1..]), i);
    if i > 0 {
      EncodedAt(ws[1..], i - 1);
    }
  }

  lemma SlotOfJoined(head: seq<byte>, tail: seq<byte>, i: nat)
    requires |head| == 4 && 4 * i <= |tail|
    ensures (head + tail)[4 * i..4 * (i + 1)] == if i == 0 then head else tail[4 * (i - 1)..4 * i]
  {
  }

  lemma WordsOfEncoded(ws: seq<int>)
    requires AllWords(ws)
    ensures Words(Encoded(ws)) == ws
  {
    forall i | 0 <= i < |ws| ensures Words(Encoded(ws))[i] == ws[i] {
      EncodedAt(ws, i);
      Bytes32Read(ws[i]);
    }
  }

  /** Every buffer of whole words is the buffer of exactly one vector. */
  lemma {:induction false} EncodedOfWords(b: seq<byte>)
    requires |b| % 4 == 0
    ensures AllWords(Words(b)) && Encoded(Words(b)) == b
    decreases |b|
  {
    if b != [] {
      Bytes32Written(b[..4]);
      EncodedOfWords(b[4..]);
      WordsCons(b);
      var ws := Words(b);
      assert ws[0] == BigEndian32(b[..4]) && ws[1..] == Words(b[4..]);
      assert b[..4] + b[4..] == b;
    }
  }

  lemma WordsCons(b: seq<byte>)
    requires |b| >= 4
    ensures Words(b) == [BigEndian32(b[..4])] + Words(b[4..])
  {
    forall i | 0 <= i < |Words(b[4..])| ensures Words(b)[i + 1] == Words(b[4..])[i] {
      assert b[4 * (i + 1)..4 * (i + 2)] == b[4..][4 * i..4 * (i + 1)];
    }
    assert b[0..4] == b[..4];
  }

  lemma EncodedInjective(a: seq<int>, b: seq<int>)
    requires AllWords(a) && AllWords(b) && Encoded(a) == Encoded(b)
    ensures a == b
  {
    WordsOfEncoded(a);
    WordsOfEncoded(b);
  }

  /** The buffers of a set of word vectors. */
  ghost function EncodedAll(vectors: set<seq<int>>): set<seq<byte>> {
    set ws | ws in vectors :: Encoded(ws)
  }

  ghost predicate AllVectors(vectors: set<seq<int>>) { forall ws :: ws in vectors ==> AllWords(ws) }

  lemma EncodedAllMember(vectors: set<seq<int>>, ws: seq<int>)
    requires AllVectors(vectors) && AllWords(ws)
    ensures Encoded(ws) in EncodedAll(vectors) <==> ws in vectors
  {
    var b := Encoded(ws);
    if b in EncodedAll(vectors) {
      var vs :| vs in vectors && Encoded(vs) == b;
      EncodedInjective(vs, ws);
    }
  }

  lemma {:induction false} EncodedAllSize(vectors: set<seq<int>>)
    requires AllVectors(vectors)
    ensures |EncodedAll(vectors)| == |vectors|
    decreases |vectors|
  {
    if |vectors| == 0 {
      assert EncodedAll(vectors) == {};
    } else {
      var ws :| ws in vectors;
      var rest := vectors - {ws};
      EncodedAllSize(rest);
      EncodedAllMember(rest, ws);
      assert EncodedAll(vectors) == EncodedAll(rest) + {Encoded(ws)};
    }
  }

  /** The buffers of accepted words that pick an index vector. */
  ghost function Buffers(n: Divisor, ks: seq<int>): set<seq<byte>> { EncodedAll(DrawVectors(n, ks)) }

  lemma DrawVectorsAreWords(n: Divisor, ks: seq<int>)
    requires IndexVector(ks, n)
    ensures AllVectors(DrawVectors(n, ks))
  {
    StringsAreUniform(n, ks);
    forall ws | ws in DrawVectors(n, ks) ensures AllWords(ws) { DrawsAreWords(ws, n, ks); }
  }

  /** Every index vector comes from exactly floor(2^32 / n)^size buffers of accepted words. */
  lemma BuffersAreUniform(n: Divisor, ks: seq<int>)
    requires IndexVector(ks, n)
    ensures |Buffers(n, ks)| == Pow(TWO_32 / n, |ks|)
  {
    StringsAreUniform(n, ks);
    DrawVectorsAreWords(n, ks);
    EncodedAllSize(DrawVectors(n, ks));
  }

  lemma DrawsAreWords(ws: seq<int>, n: Divisor, ks: seq<int>)
    requires DrawsPick(ws, n, ks)
    ensures AllWords(ws)
  {
    forall i | 0 <= i < |ws| ensures 0 <= ws[i] < TWO_32 {
      assert YieldsPick(ws[i], n, ks[i]);
    }
  }

  /** Such a buffer at the head of the stream makes the generator return the letters, whatever follows. */
  lemma BufferDecidesString(charset: string, ks: seq<int>, ws: seq<int>, rest: seq<byte>)
    requires 0 < |charset| < TWO_31 && IndexVector(ks, |charset|) && DrawsPick(ws, |charset|, ks)
    ensures GeneratedString(Encoded(ws) + rest, charset, |ks|) == (Ok(Letters(charset, ks)), rest)
  {
    var b := Encoded(ws);
    DrawsAreWords(ws, |charset|, ks);
    WordsOfEncoded(ws);
    assert (b + rest)[..4 * |ks|] == b && (b + rest)[4 * |ks|..] == rest;
    if |ks| == 0 {
      assert b + rest == rest && Letters(charset, ks) == "";
    } else {
      AcceptedWordsDecideString(b, 0, rest, charset, ks);
      assert Letters(charset, ks)[0..] == Letters(charset, ks);
    }
  }

  ghost predicate AllAccepted(ws: seq<int>, n: Divisor) {
    AllWords(ws) && forall i :: 0 <= i < |ws| ==> Accepted(ws[i], n)
  }

  ghost function Picks(ws: seq<int>, n: Divisor): seq<int>
    requires AllAccepted(ws, n)
  {
    seq(|ws|, i requires 0 <= i < |ws| => Pick(ws[i], n))
  }

  /** With distinct letters, a buffer of accepted words gives the letters of ks if and only if it is one of those. */
  lemma StringFromBufferIff(charset: string, ks: seq<int>, ws: seq<int>, rest: seq<byte>)
    requires 0 < |charset| < TWO_31 && IndexVector(ks, |charset|) && |ws| == |ks| && AllAccepted(ws, |charset|)
    requires forall i, j :: 0 <= i < j < |charset| ==> charset[i] != charset[j]
    ensures GeneratedString(Encoded(ws) + rest, charset, |ks|).0 == Ok(Letters(charset, ks)) <==>
            Encoded(ws) in Buffers(|charset|, ks)
  {
    var picks := Picks(ws, |charset|);
    assert DrawsPick(ws, |charset|, picks);
    BufferDecidesString(charset, picks, ws, rest);
    LettersInjective(charset, picks, ks);
    BufferIsOneIff(|charset|, ks, ws);
  }

  lemma BufferIsOneIff(n: Divisor, ks: seq<int>, ws: seq<int>)
    requires IndexVector(ks, n) && |ws| == |ks| && AllAccepted(ws, n)
    ensures Encoded(ws) in Buffers(n, ks) <==> Picks(ws, n) == ks
  {
    StringsAreUniform(n, ks);
    DrawVectorsAreWords(n, ks);
    EncodedAllMember(DrawVectors(n, ks), ws);
    PicksIff(ws, n, ks);
  }

  lemma PicksIff(ws: seq<int>, n: Divisor, ks: seq<int>)
    requires AllAccepted(ws, n) && |ws| == |ks|
    ensures DrawsPick(ws, n, ks) <==> Picks(ws, n) == ks
  {
    if DrawsPick(ws, n, ks) {
      forall i | 0 <= i < |ks| ensures Picks(ws, n)[i] == ks[i] {
        assert YieldsPick(ws[i], n, ks[i]);
      }
    }
  }

  lemma LettersInjective(charset: string, a: seq<int>, b: seq<int>)
    requires 0 < |charset| < TWO_31 && IndexVector(a, |charset|) && IndexVector(b, |charset|) && |a| == |b|
    requires forall i, j :: 0 <= i < j < |charset| ==> charset[i] != charset[j]
    ensures Letters(charset, a) == Letters(charset, b) <==> a == b
  {
    if Letters(charset, a) == Letters(charset, b) {
      forall i | 0 <= i < |a| ensures a[i] == b[i] {
        assert Letters(charset, a)[i] == Letters(charset, b)[i];
      }
    }
  }

  // ---- edges and draws in bytes ----

  lemma {:induction false} FillLength(ibuf: seq<byte>, i: nat, stream: seq<byte>, charset: string)
    requires 0 < |charset| < TWO_31 && 4 * i <= |ibuf| && |ibuf| % 4 == 0
    ensures var r := FillFrom(ibuf, i, stream, charset);
            if r.0.Ok? then |r.0.value| == |ibuf| / 4 - i else r.1 == []
    decreases |ibuf| - 4 * i
  {
    if |ibuf| >= 4 * i + 4 {
      var (v, rest) := FirstAccepted32(stream, WordAt(ibuf, i), |charset|);
      RunsDry(stream, WordAt(ibuf, i), |charset|);
      FillLength(ibuf, i + 1, rest, charset);
    }
  }

  lemma {:induction false} RunsDry(stream: seq<byte>, v: uint32, n: Divisor)
    ensures var a := FirstAccepted32(stream, v, n); a.0.None? ==> a.1 == []
    decreases |stream|
  {
    if !Accepted(v, n) && |stream| >= 8 {
      RunsDry(stream[8..], High32(DrawAt(stream)), n);
    }
  }

  /**
    No letters or no length give the empty string and read nothing. Otherwise a string has exactly
    the length asked for, and an error means that the stream ran dry.
  */
  lemma StringEdges(stream: seq<byte>, charset: string, size: nat)
    requires |charset| < TWO_31
    ensures charset == "" || size == 0 ==> GeneratedString(stream, charset, size) == (Ok(""), stream)
    ensures charset != "" && |stream| < 4 * size ==> GeneratedString(stream, charset, size) == (Err, [])
    ensures var r := GeneratedString(stream, charset, size);
            charset != "" ==> if r.0.Ok? then |r.0.value| == size else r.1 == []
  {
    if charset != "" && size > 0 && |stream| >= 4 * size {
      FillLength(stream[..4 * size], 0, stream[4 * size..], charset);
    }
  }

  /** The stream that holds these raw draws, one after the other. */
  function EncodedDraws(raws: seq<int64>): (b: seq<byte>)
    ensures |b| == 8 * |raws|
  {
    if raws == [] then [] else Bytes64(raws[0]) + EncodedDraws(raws[1..])
  }

  /** Streams of whole draws and sequences of raw draws correspond one to one. */
  lemma {:induction false} DrawsOfEncoded(raws: seq<int64>, rest: seq<byte>)
    ensures DrawsOf(EncodedDraws(raws) + rest, |raws|) == raws
    decreases |raws|
  {
    if raws != [] {
      var head, tail := Bytes64(raws[0]), EncodedDraws(raws[1..]);
      BigEndian64IsBijective(raws[0], head);
      DrawsOfEncoded(raws[1..], rest);
      FirstEight(head, tail, rest);
    }
  }

  lemma FirstEight(head: seq<byte>, tail: seq<byte>, rest: seq<byte>)
    requires |head| == 8
    ensures (head + tail + rest)[..8] == head && (head + tail + rest)[8..] == tail + rest
  {
  }

  lemma {:induction false} EncodedOfDraws(stream: seq<byte>, m: nat)
    requires |stream| == 8 * m
    ensures EncodedDraws(DrawsOf(stream, m)) == stream
    decreases m
  {
    if m > 0 {
      var draws := DrawsOf(stream, m);
      BigEndian64IsBijective(0, stream[..8]);
      EncodedOfDraws(stream[8..], m - 1);
      assert draws[1..] == DrawsOf(stream[8..], m - 1) && draws[0] == DrawAt(stream);
      assert stream[..8] + stream[8..] == stream;
    }
  }
}
