/** The zoomable map of the viewer: tile positions at each zoom level, the
    per-level maps of rendered regions, and the pixel operations that build a
    coarser tile from four finer ones or a finer tile from part of a coarser
    one. Level 0 holds the regions themselves; level -1 has one tile per 2 x 2
    block of level 0 tiles, and so on. */
module RenderedMap {
  import opened Common

  const TILE: int := 512
  const HALF: int := 256

  /** A tile position (JOML's Vector2i): two Java ints. */
  datatype Pos = Pos(x: int, y: int)

  predicate PosOk(p: Pos) {
    IsInt32(p.x) && IsInt32(p.y)
  }

  //// Arithmetic on positions ////

  lemma {:induction false} Pow2Add(a: nat, b: nat)
    ensures Pow2(a + b) == Pow2(a) * Pow2(b)
  {
    if a > 0 {
      var p, q := Pow2(a - 1), Pow2(b);
      Pow2Add(a - 1, b);
      assert Pow2(a + b) == 2 * (p * q);
      assert Pow2(a) == 2 * p;
      Double(p, q);
    }
  }

  lemma Double(p: int, q: int)
    ensures 2 * (p * q) == (2 * p) * q
  {
  }

  lemma MulLe(x: int, y: int, c: nat)
    requires x <= y
    ensures x * c <= y * c
  {
  }

  /** Java's `v >> n` on an int: the distance is taken modulo 32 and the sign
      bit is copied in, so the result is the quotient by 2^distance rounded
      toward minus infinity. */
  function Shr(v: int, n: int): (r: int)
    ensures r * Pow2(n % 32) <= v < r * Pow2(n % 32) + Pow2(n % 32)
  {
    v / Pow2(n % 32)
  }

  lemma DivMod(v: int, d: int)
    requires d > 0
    ensures v == v / d * d + v % d && 0 <= v % d < d
  {
  }

  lemma Regroup(q: int, r: int, b: int, a: int)
    ensures (q * b + r) * a == q * (a * b) + r * a
    ensures (b - 1) * a == a * b - a
  {
  }

  /** Dividing by a, then by b, is dividing by a * b (both rounding down). */
  lemma DivDiv(v: int, a: int, b: int)
    requires a > 0 && b > 0
    ensures v / a / b == v / (a * b)
  {
    var q1, r1 := v / a, v % a;
    DivMod(v, a);
    var q2, r2 := q1 / b, q1 % b;
    DivMod(q1, b);
    Regroup(q2, r2, b, a);
    MulLe(r2, b - 1, a);
    DivModOf(v, a * b, q2, r2 * a + r1);
  }

  /** Shifting right by a, then by b, is shifting right by a + b. */
  lemma ShrShr(v: int, a: nat, b: nat)
    requires a + b < 32
    ensures Shr(Shr(v, a), b) == Shr(v, a + b)
  {
    assert a % 32 == a && b % 32 == b && (a + b) % 32 == a + b;
    var pa, pb := Pow2(a), Pow2(b);
    Pow2Add(a, b);
    DivDiv(v, pa, pb);
    assert Shr(Shr(v, a), b) == v / pa / pb;
  }

  /** groundPos: the tile `levelDiff` levels further out that holds `pos`. */
  function GroundPos(pos: Pos, levelDiff: int): Pos {
    Pos(Shr(pos.x, levelDiff), Shr(pos.y, levelDiff))
  }

  /** abovePos: the tile one level further out that holds `pos`. */
  function AbovePos(pos: Pos): Pos {
    GroundPos(pos, 1)
  }

  /** belowPos: the four tiles one level further in that make up `pos`, in
      the order (0,0), (1,0), (0,1), (1,1) added to the doubled position.
      `<< 1` and `add` wrap around like Java ints. */
  function BelowPos(pos: Pos): seq<Pos> {
    var ox := Wrap32(pos.x * 2);
    var oy := Wrap32(pos.y * 2);
    [Pos(Wrap32(ox + 0), Wrap32(oy + 0)), Pos(Wrap32(ox + 1), Wrap32(oy + 0)),
     Pos(Wrap32(ox + 0), Wrap32(oy + 1)), Pos(Wrap32(ox + 1), Wrap32(oy + 1))]
  }

  /** Each of the four tiles below a position has that position above it,
      and the four are different, as long as doubling does not overflow. */
  lemma AboveOfBelow(pos: Pos)
    requires -0x4000_0000 <= pos.x < 0x4000_0000 && -0x4000_0000 <= pos.y < 0x4000_0000
    ensures |BelowPos(pos)| == 4
    ensures forall i :: 0 <= i < 4 ==> AbovePos(BelowPos(pos)[i]) == pos
    ensures forall i, j :: 0 <= i < j < 4 ==> BelowPos(pos)[i] != BelowPos(pos)[j]
  {
    assert Pow2(1) == 2;
  }

  /** Every position is one of the four tiles below the tile above it. */
  lemma BelowOfAbove(pos: Pos)
    requires PosOk(pos)
    ensures pos in BelowPos(AbovePos(pos))
  {
    assert Pow2(1) == 2;
    var a := AbovePos(pos);
    var ox := a.x * 2;
    var oy := a.y * 2;
    assert IsInt32(ox) && IsInt32(oy);
    var i := (pos.x - ox) + 2 * (pos.y - oy);
    assert BelowPos(a)[i] == pos;
  }

  /** Going out one level from the tile `k` levels out is going out k + 1 levels. */
  lemma AboveGround(pos: Pos, k: nat)
    requires k < 31
    ensures AbovePos(GroundPos(pos, k)) == GroundPos(pos, k + 1)
  {
    ShrShr(pos.x, k, 1);
    ShrShr(pos.y, k, 1);
  }

  //// Pixels ////

  /** Channel k of an ARGB pixel held in a Java int (0 blue, 1 green, 2 red,
      3 alpha): eight bits of its two's complement pattern. */
  function Channel(p: int, k: int): (c: int)
    requires 0 <= k < 4
    ensures 0 <= c < 256
  {
    if k == 3 then p / 0x100_0000 % 256
    else if k == 2 then p / 0x1_0000 % 256
    else if k == 1 then p / 0x100 % 256
    else p % 256
  }

  predicate IsChannel(c: int) {
    0 <= c < 256
  }

  /** The ARGB int with the given channels. */
  function Pack(alpha: int, red: int, green: int, blue: int): (p: int)
    requires IsChannel(alpha) && IsChannel(red) && IsChannel(green) && IsChannel(blue)
    ensures IsInt32(p)
  {
    Wrap32(alpha * 0x100_0000 + red * 0x1_0000 + green * 0x100 + blue)
  }

  /** The channels of a packed pixel are the ones it was packed from. */
  lemma PackChannels(alpha: int, red: int, green: int, blue: int)
    requires IsChannel(alpha) && IsChannel(red) && IsChannel(green) && IsChannel(blue)
    ensures var p := Pack(alpha, red, green, blue);
      Channel(p, 3) == alpha && Channel(p, 2) == red && Channel(p, 1) == green && Channel(p, 0) == blue
  {
    var v := alpha * 0x100_0000 + red * 0x1_0000 + green * 0x100 + blue;
    var p := Pack(alpha, red, green, blue);
    var a := if p == v then alpha else alpha - 256;
    assert p == a * 0x100_0000 + red * 0x1_0000 + green * 0x100 + blue;
    DivModOf(p, 0x100_0000, a, red * 0x1_0000 + green * 0x100 + blue);
    DivModOf(a, 256, if p == v then 0 else -1, alpha);
    DivModOf(p, 0x1_0000, a * 0x100 + red, green * 0x100 + blue);
    DivModOf(a * 0x100 + red, 256, a, red);
    DivModOf(p, 0x100, a * 0x1_0000 + red * 0x100 + green, blue);
    DivModOf(a * 0x1_0000 + red * 0x100 + green, 256, a * 0x100 + red, green);
    DivModOf(p, 256, a * 0x1_0000 + red * 0x100 + green, blue);
  }

  /** Packing the channels of a Java int gives back that int. */
  lemma ChannelsPack(p: int)
    requires IsInt32(p)
    ensures Pack(Channel(p, 3), Channel(p, 2), Channel(p, 1), Channel(p, 0)) == p
  {
    var a, rest := p / 0x100_0000, p % 0x100_0000;
    var r, rest2 := rest / 0x1_0000, rest % 0x1_0000;
    var g, b := rest2 / 0x100, rest2 % 0x100;
    assert p == a * 0x100_0000 + r * 0x1_0000 + g * 0x100 + b;
    assert -128 <= a < 128;
    DivModOf(a, 256, if a < 0 then -1 else 0, if a < 0 then a + 256 else a);
    DivModOf(p, 0x1_0000, a * 0x100 + r, g * 0x100 + b);
    DivModOf(a * 0x100 + r, 256, a, r);
    DivModOf(p, 0x100, a * 0x1_0000 + r * 0x100 + g, b);
    DivModOf(a * 0x1_0000 + r * 0x100 + g, 256, a * 0x100 + r, g);
    DivModOf(p, 256, a * 0x1_0000 + r * 0x100 + g, b);
    var v := Channel(p, 3) * 0x100_0000 + r * 0x1_0000 + g * 0x100 + b;
    assert v == p || v == p + TWO_32;
    DivModOf(v, TWO_32, if v == p then (if p < 0 then -1 else 0) else (if p < 0 then 0 else 1),
             if p < 0 then p + TWO_32 else p);
  }

  /** The mean of four channel values, rounded down. */
  function Mean4(a: int, b: int, c: int, d: int): int {
    (a + b + c + d) / 4
  }

  /** sampleColor with every channel averaged as an unsigned byte: each
      channel of the result is the rounded-down mean of that channel of the
      four pixels. */
  function SampleColor(a: int, b: int, c: int, d: int): (r: int)
    ensures IsInt32(r)
    ensures forall k :: 0 <= k < 4 ==>
      Channel(r, k) == Mean4(Channel(a, k), Channel(b, k), Channel(c, k), Channel(d, k))
  {
    var alpha := Mean4(Channel(a, 3), Channel(b, 3), Channel(c, 3), Channel(d, 3));
    var red := Mean4(Channel(a, 2), Channel(b, 2), Channel(c, 2), Channel(d, 2));
    var green := Mean4(Channel(a, 1), Channel(b, 1), Channel(c, 1), Channel(d, 1));
    var blue := Mean4(Channel(a, 0), Channel(b, 0), Channel(c, 0), Channel(d, 0));
    PackChannels(alpha, red, green, blue);
    Pack(alpha, red, green, blue)
  }

  /** Four equal pixels sample to that pixel. */
  lemma SampleColorSame(p: int)
    requires IsInt32(p)
    ensures SampleColor(p, p, p, p) == p
  {
    var alpha, red, green, blue := Channel(p, 3), Channel(p, 2), Channel(p, 1), Channel(p, 0);
    assert Mean4(alpha, alpha, alpha, alpha) == alpha;
    assert Mean4(red, red, red, red) == red;
    assert Mean4(green, green, green, green) == green;
    assert Mean4(blue, blue, blue, blue) == blue;
    assert SampleColor(p, p, p, p) == Pack(alpha, red, green, blue);
    ChannelsPack(p);
  }

  /** `v & 0xFF000000` on a long: the int literal is sign-extended, so the mask
      keeps every bit from 24 up and the result is v rounded down to a
      multiple of 2^24. */
  function AlphaBits(v: int): int {
    v / 0x100_0000 * 0x100_0000
  }

  /** `v & 0x00FF0000`. */
  function RedBits(v: int): int {
    v / 0x1_0000 % 256 * 0x1_0000
  }

  /** `v & 0x0000FF00`. */
  function GreenBits(v: int): int {
    v / 0x100 % 256 * 0x100
  }

  /** `v & 0x000000FF`. */
  function BlueBits(v: int): int {
    v % 256
  }

  /** sampleColor as written: each pixel widened to long, each channel masked,
      summed, shifted right by two and masked again, the four channels or-ed
      (their bits do not overlap, so `|` adds them) and the long cast back to
      int. */
  function SampleColorAsWritten(a: int, b: int, c: int, d: int): int {
    var alpha := AlphaBits((AlphaBits(a) + AlphaBits(b) + AlphaBits(c) + AlphaBits(d)) / 4);
    var red := RedBits((RedBits(a) + RedBits(b) + RedBits(c) + RedBits(d)) / 4);
    var green := GreenBits((GreenBits(a) + GreenBits(b) + GreenBits(c) + GreenBits(d)) / 4);
    var blue := BlueBits((BlueBits(a) + BlueBits(b) + BlueBits(c) + BlueBits(d)) / 4);
    Wrap32(alpha + red + green + blue)
  }

  /** The alpha value the sign-extended mask sees: the alpha byte read as a
      signed byte. */
  function SignedAlpha(p: int): int {
    var alpha := Channel(p, 3);
    if alpha < 128 then alpha else alpha - 256
  }

  lemma AlphaBitsSigned(p: int)
    requires IsInt32(p)
    ensures AlphaBits(p) == SignedAlpha(p) * 0x100_0000
  {
    var s := p / 0x100_0000;
    assert -128 <= s < 128;
    DivModOf(s, 256, if s < 0 then -1 else 0, if s < 0 then s + 256 else s);
  }

  /** The red part of sampleColor as written: the rounded-down mean of the
      red channels, in place. */
  lemma RedMean(a: int, b: int, c: int, d: int)
    ensures RedBits((RedBits(a) + RedBits(b) + RedBits(c) + RedBits(d)) / 4)
      == Mean4(Channel(a, 2), Channel(b, 2), Channel(c, 2), Channel(d, 2)) * 0x1_0000
  {
    var s := Channel(a, 2) + Channel(b, 2) + Channel(c, 2) + Channel(d, 2);
    assert RedBits(a) + RedBits(b) + RedBits(c) + RedBits(d) == s * 0x1_0000;
    DivModOf(s * 0x1_0000, 4, s * 0x4000, 0);
    DivModOf(s * 0x4000, 0x1_0000, s / 4, (s % 4) * 0x4000);
    DivModOf(s / 4, 256, 0, s / 4);
  }

  /** The green part of sampleColor as written. */
  lemma GreenMean(a: int, b: int, c: int, d: int)
    ensures GreenBits((GreenBits(a) + GreenBits(b) + GreenBits(c) + GreenBits(d)) / 4)
      == Mean4(Channel(a, 1), Channel(b, 1), Channel(c, 1), Channel(d, 1)) * 0x100
  {
    var s := Channel(a, 1) + Channel(b, 1) + Channel(c, 1) + Channel(d, 1);
    assert GreenBits(a) + GreenBits(b) + GreenBits(c) + GreenBits(d) == s * 0x100;
    DivModOf(s * 0x100, 4, s * 0x40, 0);
    DivModOf(s * 0x40, 0x100, s / 4, (s % 4) * 0x40);
    DivModOf(s / 4, 256, 0, s / 4);
  }

  /** The blue part of sampleColor as written. */
  lemma BlueMean(a: int, b: int, c: int, d: int)
    ensures BlueBits((BlueBits(a) + BlueBits(b) + BlueBits(c) + BlueBits(d)) / 4)
      == Mean4(Channel(a, 0), Channel(b, 0), Channel(c, 0), Channel(d, 0))
  {
    var s := Channel(a, 0) + Channel(b, 0) + Channel(c, 0) + Channel(d, 0);
    DivModOf(s / 4, 256, 0, s / 4);
  }

  /** The red, green and blue part of a sample: each channel's rounded-down
      mean in place. */
  function LowMeans(a: int, b: int, c: int, d: int): int {
    Mean4(Channel(a, 2), Channel(b, 2), Channel(c, 2), Channel(d, 2)) * 0x1_0000
    + Mean4(Channel(a, 1), Channel(b, 1), Channel(c, 1), Channel(d, 1)) * 0x100
    + Mean4(Channel(a, 0), Channel(b, 0), Channel(c, 0), Channel(d, 0))
  }

  lemma AlphaSumShift(sa: int)
    ensures AlphaBits(sa * 0x100_0000 / 4) == sa / 4 * 0x100_0000
  {
    DivModOf(sa * 0x100_0000, 4, sa * 0x40_0000, 0);
    DivModOf(sa * 0x40_0000, 0x100_0000, sa / 4, (sa % 4) * 0x40_0000);
  }

  /** The alpha part of sampleColor as written: the rounded-down mean of the
      alphas read as signed bytes. */
  lemma AlphaMean(a: int, b: int, c: int, d: int)
    requires IsInt32(a) && IsInt32(b) && IsInt32(c) && IsInt32(d)
    ensures AlphaBits((AlphaBits(a) + AlphaBits(b) + AlphaBits(c) + AlphaBits(d)) / 4)
      == SignedAlphaSum(a, b, c, d) / 4 * 0x100_0000
  {
    AlphaBitsSigned(a);
    AlphaBitsSigned(b);
    AlphaBitsSigned(c);
    AlphaBitsSigned(d);
    var sa := SignedAlpha(a) + SignedAlpha(b) + SignedAlpha(c) + SignedAlpha(d);
    assert AlphaBits(a) + AlphaBits(b) + AlphaBits(c) + AlphaBits(d) == sa * 0x100_0000;
    AlphaSumShift(sa);
  }

  function AlphaSum(a: int, b: int, c: int, d: int): int {
    Channel(a, 3) + Channel(b, 3) + Channel(c, 3) + Channel(d, 3)
  }

  function SignedAlphaSum(a: int, b: int, c: int, d: int): int {
    SignedAlpha(a) + SignedAlpha(b) + SignedAlpha(c) + SignedAlpha(d)
  }

  /** A sample from the sum of its four alphas and its other channels. */
  function Assemble(alphaSum: int, low: int): int {
    Wrap32(alphaSum / 4 * 0x100_0000 + low)
  }

  /** As written, the alpha of a sample is the rounded-down mean of the
      alphas read as signed bytes; the other channels are unsigned means. */
  lemma AsWrittenForm(a: int, b: int, c: int, d: int)
    requires IsInt32(a) && IsInt32(b) && IsInt32(c) && IsInt32(d)
    ensures SampleColorAsWritten(a, b, c, d)
      == Assemble(SignedAlphaSum(a, b, c, d), LowMeans(a, b, c, d))
  {
    AlphaMean(a, b, c, d);
    RedMean(a, b, c, d);
    GreenMean(a, b, c, d);
    BlueMean(a, b, c, d);
    var alpha := SignedAlphaSum(a, b, c, d) / 4 * 0x100_0000;
    var red := Mean4(Channel(a, 2), Channel(b, 2), Channel(c, 2), Channel(d, 2)) * 0x1_0000;
    var green := Mean4(Channel(a, 1), Channel(b, 1), Channel(c, 1), Channel(d, 1)) * 0x100;
    var blue := Mean4(Channel(a, 0), Channel(b, 0), Channel(c, 0), Channel(d, 0));
    AsWrittenOf(a, b, c, d, alpha, red, green, blue);
    AssembleParts(SignedAlphaSum(a, b, c, d), LowMeans(a, b, c, d), alpha, red, green, blue);
  }

  lemma AsWrittenOf(a: int, b: int, c: int, d: int, alpha: int, red: int, green: int, blue: int)
    requires alpha == AlphaBits((AlphaBits(a) + AlphaBits(b) + AlphaBits(c) + AlphaBits(d)) / 4)
    requires red == RedBits((RedBits(a) + RedBits(b) + RedBits(c) + RedBits(d)) / 4)
    requires green == GreenBits((GreenBits(a) + GreenBits(b) + GreenBits(c) + GreenBits(d)) / 4)
    requires blue == BlueBits((BlueBits(a) + BlueBits(b) + BlueBits(c) + BlueBits(d)) / 4)
    ensures SampleColorAsWritten(a, b, c, d) == Wrap32(alpha + red + green + blue)
  {
  }

  lemma AssembleParts(sum: int, low: int, alpha: int, red: int, green: int, blue: int)
    requires alpha == sum / 4 * 0x100_0000 && low == red + green + blue
    ensures Assemble(sum, low) == Wrap32(alpha + red + green + blue)
  {
  }

  /** The unsigned means packed. */
  function MeanPack(a: int, b: int, c: int, d: int): int {
    Pack(Mean4(Channel(a, 3), Channel(b, 3), Channel(c, 3), Channel(d, 3)),
         Mean4(Channel(a, 2), Channel(b, 2), Channel(c, 2), Channel(d, 2)),
         Mean4(Channel(a, 1), Channel(b, 1), Channel(c, 1), Channel(d, 1)),
         Mean4(Channel(a, 0), Channel(b, 0), Channel(c, 0), Channel(d, 0)))
  }

  lemma MeanPackAssembled(a: int, b: int, c: int, d: int)
    ensures MeanPack(a, b, c, d) == Assemble(AlphaSum(a, b, c, d), LowMeans(a, b, c, d))
  {
    var alpha := Mean4(Channel(a, 3), Channel(b, 3), Channel(c, 3), Channel(d, 3));
    AssembleOf(AlphaSum(a, b, c, d), LowMeans(a, b, c, d), alpha);
    MeanPackOf(a, b, c, d, alpha);
  }

  lemma AssembleOf(sum: int, low: int, alpha: int)
    requires alpha == sum / 4
    ensures Assemble(sum, low) == Wrap32(alpha * 0x100_0000 + low)
  {
  }

  lemma MeanPackOf(a: int, b: int, c: int, d: int, alpha: int)
    requires alpha == Mean4(Channel(a, 3), Channel(b, 3), Channel(c, 3), Channel(d, 3))
    ensures MeanPack(a, b, c, d) == Wrap32(alpha * 0x100_0000 + LowMeans(a, b, c, d))
  {
  }

  lemma MeanForm(a: int, b: int, c: int, d: int)
    ensures SampleColor(a, b, c, d)
      == Assemble(AlphaSum(a, b, c, d), LowMeans(a, b, c, d))
  {
    assert SampleColor(a, b, c, d) == MeanPack(a, b, c, d);
    MeanPackAssembled(a, b, c, d);
  }

  /** sampleColor as written agrees with the unsigned mean whenever the four
      alphas are all below 128 or all at least 128. */
  lemma SampleColorAsWrittenAgrees(a: int, b: int, c: int, d: int)
    requires IsInt32(a) && IsInt32(b) && IsInt32(c) && IsInt32(d)
    requires (Channel(a, 3) < 128 && Channel(b, 3) < 128 && Channel(c, 3) < 128 && Channel(d, 3) < 128)
          || (Channel(a, 3) >= 128 && Channel(b, 3) >= 128 && Channel(c, 3) >= 128 && Channel(d, 3) >= 128)
    ensures SampleColorAsWritten(a, b, c, d) == SampleColor(a, b, c, d)
  {
    AsWrittenForm(a, b, c, d);
    MeanForm(a, b, c, d);
    assert SignedAlphaSum(a, b, c, d) == AlphaSum(a, b, c, d) || SignedAlphaSum(a, b, c, d) == AlphaSum(a, b, c, d) - 1024;
    AlphaWrap(SignedAlphaSum(a, b, c, d), AlphaSum(a, b, c, d), LowMeans(a, b, c, d));
  }

  /** Lowering the alpha sum by 1024 lowers the assembled value by 2^32,
      which the cast to int does not see. */
  lemma AlphaWrap(sa: int, ua: int, low: int)
    requires sa == ua || sa == ua - 1024
    ensures Assemble(sa, low) == Assemble(ua, low)
  {
    if sa != ua {
      DivModOf(sa, 4, ua / 4 - 256, ua % 4);
      Wrap32Shift(ua / 4 * 0x100_0000 + low);
    }
  }

  lemma Wrap32Shift(x: int)
    ensures Wrap32(x - TWO_32) == Wrap32(x)
  {
    DivModOf(x - TWO_32, TWO_32, x / TWO_32 - 1, x % TWO_32);
  }

  /** Two solid pixels and two fully transparent ones: as written the
      sample is solid (alpha 0xFF), where the mean alpha is 0x7F. */
  lemma SampleColorMixedAlpha(solid: int, clear: int)
    requires IsInt32(solid) && IsInt32(clear)
    requires Channel(solid, 3) == 255 && Channel(clear, 3) == 0
    ensures Channel(SampleColorAsWritten(solid, solid, clear, clear), 3) == 255
    ensures Channel(SampleColor(solid, solid, clear, clear), 3) == 127
  {
    AlphaBitsSigned(solid);
    AlphaBitsSigned(clear);
    DivModOf(-0x80_0000, 0x100_0000, -1, 0x80_0000);
    var alpha := AlphaBits((AlphaBits(solid) + AlphaBits(solid) + AlphaBits(clear) + AlphaBits(clear)) / 4);
    assert alpha == -0x100_0000;
    RedMean(solid, solid, clear, clear);
    GreenMean(solid, solid, clear, clear);
    BlueMean(solid, solid, clear, clear);
    var rest := Mean4(Channel(solid, 2), Channel(solid, 2), Channel(clear, 2), Channel(clear, 2)) * 0x1_0000
              + Mean4(Channel(solid, 1), Channel(solid, 1), Channel(clear, 1), Channel(clear, 1)) * 0x100
              + Mean4(Channel(solid, 0), Channel(solid, 0), Channel(clear, 0), Channel(clear, 0));
    assert 0 <= rest < 0x100_0000;
    var v := SampleColorAsWritten(solid, solid, clear, clear);
    assert v == alpha + rest;
    DivModOf(v, 0x100_0000, -1, rest);
    DivModOf(-1, 256, -1, 255);
  }

  //// Images ////

  /** A 512 x 512 JavaFX image, read and written image[x, y] as its
      PixelReader and PixelWriter do; pixels are ARGB ints. */
  predicate IsTile(image: array2<int>) {
    image.Length0 == TILE && image.Length1 == TILE
  }

  /** An image or Java's null. */
  predicate TileOrNull(image: Option<array2<int>>) {
    image.Some? ==> IsTile(image.value)
  }

  function Footprint(image: Option<array2<int>>): set<object> {
    if image.Some? then {image.value} else {}
  }

  /** sampleColor(x, y, reader): the 2 x 2 block whose top left pixel is
      (x, y), averaged in Java int arithmetic, sign-extended alpha included. */
  function SampleAt(image: array2<int>, x: int, y: int): int
    reads image
    requires IsTile(image) && 0 <= x < TILE - 1 && 0 <= y < TILE - 1
  {
    SampleColorAsWritten(image[x, y], image[x + 1, y], image[x, y + 1], image[x + 1, y + 1])
  }

  /** The alphas of a 2 x 2 block are all below 128 or all at least 128. */
  predicate AlphasAgree(a: int, b: int, c: int, d: int) {
    || (Channel(a, 3) < 128 && Channel(b, 3) < 128 && Channel(c, 3) < 128 && Channel(d, 3) < 128)
    || (Channel(a, 3) >= 128 && Channel(b, 3) >= 128 && Channel(c, 3) >= 128 && Channel(d, 3) >= 128)
  }

  /** On a block of Java ints whose alphas agree, the sample as written is
      the intended per-channel mean; four equal pixels sample to themselves. */
  lemma SampleAtMean(image: array2<int>, x: int, y: int)
    requires IsTile(image) && 0 <= x < TILE - 1 && 0 <= y < TILE - 1
    requires IsInt32(image[x, y]) && IsInt32(image[x + 1, y]) && IsInt32(image[x, y + 1]) && IsInt32(image[x + 1, y + 1])
    requires AlphasAgree(image[x, y], image[x + 1, y], image[x, y + 1], image[x + 1, y + 1])
    ensures SampleAt(image, x, y) == SampleColor(image[x, y], image[x + 1, y], image[x, y + 1], image[x + 1, y + 1])
  {
    SampleColorAsWrittenAgrees(image[x, y], image[x + 1, y], image[x, y + 1], image[x + 1, y + 1]);
  }

  /** The four finer tiles a coarser one is built from; any may be missing. */
  datatype Corners = Corners(
    topLeft: Option<array2<int>>, topRight: Option<array2<int>>,
    bottomLeft: Option<array2<int>>, bottomRight: Option<array2<int>>)

  predicate CornersOk(cs: Corners) {
    TileOrNull(cs.topLeft) && TileOrNull(cs.topRight) && TileOrNull(cs.bottomLeft) && TileOrNull(cs.bottomRight)
  }

  function CornerSet(cs: Corners): set<object> {
    Footprint(cs.topLeft) + Footprint(cs.topRight) + Footprint(cs.bottomLeft) + Footprint(cs.bottomRight)
  }

  /** Pixel (x, y) of one quarter of the halved image: the sample of the
      2 x 2 block at (2x, 2y) of its finer tile, or 0 (transparent) when that
      tile is missing. */
  function Quarter(image: Option<array2<int>>, x: int, y: int): int
    reads Footprint(image)
    requires TileOrNull(image) && 0 <= x < HALF && 0 <= y < HALF
  {
    if image.None? then 0 else SampleAt(image.value, 2 * x, 2 * y)
  }

  /** Pixel (x, y) of the tile halfSize builds: the top left quarter comes
      from the top left tile, and so on. */
  function HalfPixel(cs: Corners, x: int, y: int): int
    reads CornerSet(cs)
    requires CornersOk(cs) && 0 <= x < TILE && 0 <= y < TILE
  {
    if y < HALF then
      if x < HALF then Quarter(cs.topLeft, x, y) else Quarter(cs.topRight, x - HALF, y)
    else
      if x < HALF then Quarter(cs.bottomLeft, x, y - HALF) else Quarter(cs.bottomRight, x - HALF, y - HALF)
  }

  /** Coordinate inside its quarter. */
  function Local(v: int): int {
    if v < HALF then v else v - HALF
  }

  /** The body of halfSize's inner loop: the pixel (x, y) of each quarter. */
  method HalfStep(output: array2<int>, cs: Corners, x: int, y: int)
    requires IsTile(output) && CornersOk(cs) && output !in CornerSet(cs)
    requires 0 <= x < HALF && 0 <= y < HALF
    modifies output
    ensures forall px, py :: 0 <= px < TILE && 0 <= py < TILE ==>
      output[px, py] == if Local(px) == x && Local(py) == y then HalfPixel(cs, px, py) else old(output[px, py])
  {
    var rx := x * 2;
    var ry := y * 2;
    output[x, y] := if cs.topLeft.Some? then SampleAt(cs.topLeft.value, rx, ry) else 0;
    output[x + HALF, y] := if cs.topRight.Some? then SampleAt(cs.topRight.value, rx, ry) else 0;
    output[x, y + HALF] := if cs.bottomLeft.Some? then SampleAt(cs.bottomLeft.value, rx, ry) else 0;
    output[x + HALF, y + HALF] := if cs.bottomRight.Some? then SampleAt(cs.bottomRight.value, rx, ry) else 0;
  }

  /** halfSize(old, topLeft, topRight, bottomLeft, bottomRight): the coarser
      tile made of the four finer ones, each shrunk to a quarter by sampling
      2 x 2 blocks, written into `previous` when there is one and into a new
      image otherwise. */
  method HalfSize(previous: Option<array2<int>>, cs: Corners) returns (output: array2<int>)
    requires CornersOk(cs) && TileOrNull(previous)
    requires previous.Some? ==> previous.value !in CornerSet(cs)
    modifies Footprint(previous)
    ensures previous.Some? ==> output == previous.value
    ensures previous.None? ==> fresh(output)
    ensures IsTile(output)
    ensures forall px, py :: 0 <= px < TILE && 0 <= py < TILE ==> output[px, py] == HalfPixel(cs, px, py)
  {
    if previous.Some? {
      output := previous.value;
    } else {
      output := new int[TILE, TILE]((_, _) => 0);
    }
    var y := 0;
    while y < HALF
      invariant 0 <= y <= HALF
      invariant output !in CornerSet(cs)
      invariant forall px, py :: 0 <= px < TILE && 0 <= py < TILE && Local(py) < y ==>
        output[px, py] == HalfPixel(cs, px, py)
    {
      var x := 0;
      while x < HALF
        invariant 0 <= x <= HALF
        invariant forall px, py :: 0 <= px < TILE && 0 <= py < TILE && (Local(py) < y || (Local(py) == y && Local(px) < x)) ==>
          output[px, py] == HalfPixel(cs, px, py)
      {
        HalfStep(output, cs, x, y);
        x := x + 1;
      }
      y := y + 1;
    }
  }

  /** Halving four uniform tiles of the same colour gives that colour. */
  lemma HalfSizeUniform(cs: Corners, p: int, x: int, y: int)
    requires CornersOk(cs) && IsInt32(p)
    requires cs.topLeft.Some? && cs.topRight.Some? && cs.bottomLeft.Some? && cs.bottomRight.Some?
    requires forall image, px, py :: image in CornerSet(cs) && 0 <= px < TILE && 0 <= py < TILE ==> image[px, py] == p
    requires 0 <= x < TILE && 0 <= y < TILE
    ensures HalfPixel(cs, x, y) == p
  {
    SampleColorSame(p);
    SampleColorAsWrittenAgrees(p, p, p, p);
  }

  /** The varargs overload halfSize(old, corners...) as written: its call with
      four arguments resolves to itself again (old := corners[0], three
      corners left), so some corner is always read past the end of the
      array. Err carries the index read. */
  function HalfSizeVarargsAsWritten(previous: Option<array2<int>>, corners: seq<Option<array2<int>>>): (r: Result<array2<int>, int>)
    ensures r == Err(if |corners| < 4 then |corners| else 3)
    decreases |corners|
  {
    if |corners| < 4 then Err(|corners|)
    else HalfSizeVarargsAsWritten(corners[0], corners[1..4])
  }

  /** The varargs overload as evidently intended: `previous` is reused and
      the four corners are passed on to halfSize in order. Fewer than four
      corners is the array index error of the varargs `halfSize`. */
  method HalfSizeVarargs(previous: Option<array2<int>>, corners: seq<Option<array2<int>>>) returns (r: Result<array2<int>, int>)
    requires TileOrNull(previous)
    requires |corners| >= 4 ==> CornersOk(Corners(corners[0], corners[1], corners[2], corners[3]))
    requires |corners| >= 4 && previous.Some? ==> previous.value !in CornerSet(Corners(corners[0], corners[1], corners[2], corners[3]))
    modifies Footprint(previous)
    ensures r.Err? <==> |corners| < 4
    ensures r.Err? ==> r.error == |corners|
    ensures r.Ok? ==> IsTile(r.value) && (previous.Some? ==> r.value == previous.value)
    ensures r.Ok? ==> forall px, py :: 0 <= px < TILE && 0 <= py < TILE ==>
      r.value[px, py] == HalfPixel(Corners(corners[0], corners[1], corners[2], corners[3]), px, py)
  {
    if |corners| < 4 {
      return Err(|corners|);
    }
    var output := HalfSize(previous, Corners(corners[0], corners[1], corners[2], corners[3]));
    r := Ok(output);
  }

  //// Enlarging ////

  /** 512 is 2^n tiles of 512 / 2^n pixels, for n up to 9. */
  lemma TileGeometry(n: nat)
    requires n <= 9
    ensures Pow2(n) * (TILE / Pow2(n)) == TILE && TILE / Pow2(n) >= 1 && Pow2(n) <= TILE
  {
    var scale, size := Pow2(n), Pow2(9 - n);
    Pow2Add(n, 9 - n);
    assert Pow2(9) == 512;
    assert scale * size == TILE;
    DivModOf(TILE, scale, size, 0);
    MulLe(1, size, scale);
  }

  /** From n = 10 on, a 512 pixel tile has no pixels left at scale 2^n. */
  lemma TileVanishes(n: nat)
    requires 10 <= n
    ensures TILE / Pow2(n) == 0
  {
    Pow2Add(10, n - 10);
    assert Pow2(10) == 1024;
    MulLe(1, Pow2(n - 10), 1024);
    DivModOf(TILE, Pow2(n), 0, TILE);
  }

  /** A quotient of a coordinate below scale * size is below size. */
  lemma QuotientBelow(v: int, scale: int, size: int)
    requires 0 <= v < scale * size && scale >= 1
    ensures v / scale < size
  {
    DivMod(v, scale);
    if v / scale >= size {
      MulLe(size, v / scale, scale);
    }
  }

  /** Every coordinate of a tile of `scale * size` pixels has a quotient
      by `scale` in [0, size). */
  lemma QuotientsBelow(scale: int, size: int)
    requires scale >= 1 && scale * size == TILE
    ensures forall v :: 0 <= v < TILE ==> 0 <= v / scale < size
  {
    forall v | 0 <= v < TILE
      ensures 0 <= v / scale < size
    {
      QuotientBelow(v, scale, size);
    }
  }

  /** The input pixel doubleSize reads lies inside the input tile. */
  lemma DoubledIndex(scale: int, size: int, sub: int, v: int)
    requires scale >= 1 && size >= 1 && scale * size == TILE
    requires 0 <= sub < scale && 0 <= v < TILE
    ensures 0 <= v / scale + sub * size < TILE
  {
    QuotientBelow(v, scale, size);
    MulLe(sub, scale - 1, size);
    Regroup(0, 0, scale, size);
    MulLe(0, sub, size);
  }

  /** Pixel (x, y) of the `sub` part, `size` pixels wide, of `input`
      enlarged `scale` times. */
  function Enlarged(input: array2<int>, scale: int, size: int, sub: Pos, x: int, y: int): int
    reads input
    requires IsTile(input) && scale >= 1 && size >= 1 && scale * size == TILE
    requires 0 <= sub.x < scale && 0 <= sub.y < scale
    requires 0 <= x < TILE && 0 <= y < TILE
  {
    DoubledIndex(scale, size, sub.x, x);
    DoubledIndex(scale, size, sub.y, y);
    input[x / scale + sub.x * size, y / scale + sub.y * size]
  }

  /** The pixel doubleSize writes at (x, y) for a level difference whose
      low five bits are at most 9. */
  function Doubled(input: array2<int>, levelDiff: int, sub: Pos, x: int, y: int): int
    reads input
    requires IsTile(input) && levelDiff % 32 <= 9
    requires 0 <= sub.x < Pow2(levelDiff % 32) && 0 <= sub.y < Pow2(levelDiff % 32)
    requires 0 <= x < TILE && 0 <= y < TILE
  {
    TileGeometry(levelDiff % 32);
    Enlarged(input, Pow2(levelDiff % 32), TILE / Pow2(levelDiff % 32), sub, x, y)
  }

  /** Pixel (px, py) lies in block (blockX, blockY) and comes before
      (dx, dy) in the order doubleSize's two inner loops write the block. */
  predicate BlockDone(px: int, py: int, scale: int, blockX: int, blockY: int, dx: int, dy: int)
    requires scale >= 1
  {
    px / scale == blockX && py / scale == blockY && (px % scale < dx || (px % scale == dx && py % scale < dy))
  }

  /** Writing pixel (dx, dy) of the block adds exactly that pixel. */
  lemma BlockStep(scale: int, blockX: int, blockY: int, dx: int, dy: int)
    requires scale >= 1 && 0 <= dx < scale && 0 <= dy < scale
    ensures forall px, py :: BlockDone(px, py, scale, blockX, blockY, dx, dy + 1) <==>
      BlockDone(px, py, scale, blockX, blockY, dx, dy) || (px == blockX * scale + dx && py == blockY * scale + dy)
  {
    DivModOf(blockX * scale + dx, scale, blockX, dx);
    DivModOf(blockY * scale + dy, scale, blockY, dy);
    forall px, py
      ensures BlockDone(px, py, scale, blockX, blockY, dx, dy + 1) <==>
        BlockDone(px, py, scale, blockX, blockY, dx, dy) || (px == blockX * scale + dx && py == blockY * scale + dy)
    {
      DivMod(px, scale);
      DivMod(py, scale);
    }
  }

  /** A finished column of the block is the start of the next one, and a
      finished block is the whole block. */
  lemma BlockColumn(scale: int, blockX: int, blockY: int, dx: int)
    requires scale >= 1
    ensures forall px, py :: BlockDone(px, py, scale, blockX, blockY, dx, scale) <==>
      BlockDone(px, py, scale, blockX, blockY, dx + 1, 0)
    ensures forall px, py :: BlockDone(px, py, scale, blockX, blockY, scale, 0) <==>
      px / scale == blockX && py / scale == blockY
  {
  }

  /** doubleSize's two inner loops: the `scale` x `scale` block
      (blockX, blockY) of `output` is set to `argb`. */
  method FillBlock(output: array2<int>, blockX: int, blockY: int, scale: int, argb: int)
    requires IsTile(output) && scale >= 1 && 0 <= blockX && 0 <= blockY
    requires (blockX + 1) * scale <= TILE && (blockY + 1) * scale <= TILE
    modifies output
    ensures forall px, py :: 0 <= px < TILE && 0 <= py < TILE ==>
      output[px, py] == if px / scale == blockX && py / scale == blockY then argb else old(output[px, py])
  {
    Regroup(blockX, 0, scale, 1);
    Regroup(blockY, 0, scale, 1);
    var dx := 0;
    while dx < scale
      invariant 0 <= dx <= scale
      invariant forall px, py :: 0 <= px < TILE && 0 <= py < TILE ==>
        output[px, py] == if BlockDone(px, py, scale, blockX, blockY, dx, 0) then argb else old(output[px, py])
    {
      var dy := 0;
      while dy < scale
        invariant 0 <= dy <= scale
        invariant forall px, py :: 0 <= px < TILE && 0 <= py < TILE ==>
          output[px, py] == if BlockDone(px, py, scale, blockX, blockY, dx, dy) then argb else old(output[px, py])
      {
        BlockStep(scale, blockX, blockY, dx, dy);
        output[blockX * scale + dx, blockY * scale + dy] := argb;
        dy := dy + 1;
      }
      BlockColumn(scale, blockX, blockY, dx);
      dx := dx + 1;
    }
    BlockColumn(scale, blockX, blockY, scale);
  }

  /** The body of doubleSize's two outer loops: block (x, y) of the
      output shows the input pixel it enlarges. */
  method EnlargeStep(output: array2<int>, input: array2<int>, scale: int, size: int, sub: Pos, x: int, y: int)
    requires IsTile(output) && IsTile(input) && output != input
    requires scale >= 1 && size >= 1 && scale * size == TILE
    requires 0 <= sub.x < scale && 0 <= sub.y < scale && 0 <= x < size && 0 <= y < size
    modifies output
    ensures forall px, py :: 0 <= px < TILE && 0 <= py < TILE ==>
      output[px, py] == if px / scale == x && py / scale == y then Enlarged(input, scale, size, sub, px, py) else old(output[px, py])
  {
    var rx := x + sub.x * size;
    var ry := y + sub.y * size;
    MulLe(x + 1, size, scale);
    MulLe(y + 1, size, scale);
    DivModOf(x * scale, scale, x, 0);
    DivModOf(y * scale, scale, y, 0);
    DoubledIndex(scale, size, sub.x, x * scale);
    DoubledIndex(scale, size, sub.y, y * scale);
    var argb := input[rx, ry];
    FillBlock(output, x, y, scale, argb);
  }

  /** doubleSize(old, input, levelDiff, subTile): the part `subTile` of
      `input`, 512 >> levelDiff pixels wide, enlarged by 1 << levelDiff into
      `previous` when there is one and into a new (transparent) image
      otherwise. Java masks the shift count to its low five bits; from
      levelDiff & 31 = 10 on the part is empty and nothing is written. */
  method DoubleSize(previous: Option<array2<int>>, input: array2<int>, levelDiff: int, sub: Pos) returns (output: array2<int>)
    requires TileOrNull(previous) && IsTile(input)
    requires previous.Some? ==> previous.value != input
    requires levelDiff % 32 <= 9 ==> 0 <= sub.x < Pow2(levelDiff % 32) && 0 <= sub.y < Pow2(levelDiff % 32)
    modifies Footprint(previous)
    ensures previous.Some? ==> output == previous.value
    ensures previous.None? ==> fresh(output)
    ensures IsTile(output)
    ensures levelDiff % 32 <= 9 ==> forall px, py :: 0 <= px < TILE && 0 <= py < TILE ==>
      output[px, py] == Doubled(input, levelDiff, sub, px, py)
    ensures levelDiff % 32 > 9 ==> forall px, py :: 0 <= px < TILE && 0 <= py < TILE ==>
      output[px, py] == if previous.Some? then old(previous.value[px, py]) else 0
  {
    if previous.Some? {
      output := previous.value;
    } else {
      output := new int[TILE, TILE]((_, _) => 0);
    }
    label start:
    var n := levelDiff % 32;
    var tileSize := Shr(TILE, levelDiff);
    var scaleFactor := Wrap32(Pow2(n));
    if n <= 9 {
      TileGeometry(n);
      QuotientsBelow(scaleFactor, tileSize);
    } else {
      TileVanishes(n);
    }
    var y := 0;
    while y < tileSize
      invariant 0 <= y <= tileSize
      invariant tileSize >= 1 ==> n <= 9 && scaleFactor == Pow2(n) && scaleFactor * tileSize == TILE
      invariant tileSize >= 1 ==> forall v :: 0 <= v < TILE ==> 0 <= v / scaleFactor < tileSize
      invariant tileSize == 0 ==> unchanged@start(output)
      invariant tileSize >= 1 ==> forall px, py :: 0 <= px < TILE && 0 <= py < TILE ==>
        output[px, py] == if py / scaleFactor < y then Enlarged(input, scaleFactor, tileSize, sub, px, py) else old@start(output[px, py])
    {
      var x := 0;
      while x < tileSize
        invariant 0 <= x <= tileSize
        invariant forall px, py :: 0 <= px < TILE && 0 <= py < TILE ==>
          output[px, py] == if py / scaleFactor < y || (py / scaleFactor == y && px / scaleFactor < x)
            then Enlarged(input, scaleFactor, tileSize, sub, px, py) else old@start(output[px, py])
      {
        EnlargeStep(output, input, scaleFactor, tileSize, sub, x, y);
        x := x + 1;
      }
      y := y + 1;
    }
  }

  /** Sampling a tile enlarged twice gives back the pixels it was enlarged
      from: doubleSize by one level, then halfSize, is the identity on the
      enlarged part. */
  lemma HalvingUndoesDoubling(output: array2<int>, input: array2<int>, sub: Pos, x: int, y: int)
    requires IsTile(output) && IsTile(input) && 0 <= sub.x < 2 && 0 <= sub.y < 2
    requires forall px, py :: 0 <= px < TILE && 0 <= py < TILE ==> IsInt32(input[px, py])
    requires forall px, py :: 0 <= px < TILE && 0 <= py < TILE ==> output[px, py] == Doubled(input, 1, sub, px, py)
    requires 0 <= x < HALF && 0 <= y < HALF
    ensures SampleAt(output, 2 * x, 2 * y) == input[x + sub.x * HALF, y + sub.y * HALF]
  {
    var p := input[x + sub.x * HALF, y + sub.y * HALF];
    DoubledBlock(output, input, sub, x, y);
    SampleColorSame(p);
    SampleColorAsWrittenAgrees(p, p, p, p);
  }

  /** doubleSize by one level writes input pixel (x, y) of the `sub`
      quarter to all four pixels of block (2x, 2y). */
  lemma DoubledBlock(output: array2<int>, input: array2<int>, sub: Pos, x: int, y: int)
    requires IsTile(output) && IsTile(input) && 0 <= sub.x < 2 && 0 <= sub.y < 2
    requires forall px, py :: 0 <= px < TILE && 0 <= py < TILE ==> output[px, py] == Doubled(input, 1, sub, px, py)
    requires 0 <= x < HALF && 0 <= y < HALF
    ensures var p := input[x + sub.x * HALF, y + sub.y * HALF];
      && output[2 * x, 2 * y] == p && output[2 * x + 1, 2 * y] == p
      && output[2 * x, 2 * y + 1] == p && output[2 * x + 1, 2 * y + 1] == p
  {
    assert Pow2(1) == 2;
    DivModOf(2 * x, 2, x, 0);
    DivModOf(2 * x + 1, 2, x, 1);
    DivModOf(2 * y, 2, y, 0);
    DivModOf(2 * y + 1, 2, y, 1);
    DivModOf(TILE, 2, HALF, 0);
  }

  //// The level maps ////

  /** A tile of the viewer; its image and state live in RenderedRegion,
      which is not part of this model, so only its level and position are kept. */
  datatype RenderedRegion = RenderedRegion(level: int, position: Pos)

  /** The StackOverflowError get(level) throws for a level beyond 20 either way. */
  datatype MapError = StackOverflow

  /** A level map: a position with None is known to exist but has no
      RenderedRegion yet (Java's null value). */
  type LevelMap = map<Pos, Option<RenderedRegion>>

  /** The adjacent level toward 0, which a level is built from. */
  function Toward0(level: int): int {
    if level < 0 then level + 1 else level - 1
  }

  /** The positions `levelDiff` levels out from the positions `ps`. */
  function Grounded(ps: set<Pos>, levelDiff: nat): set<Pos> {
    set p | p in ps :: GroundPos(p, levelDiff)
  }

  /** The level 0 map: every plain region, present. */
  function Lift(plain: map<Pos, RenderedRegion>): LevelMap {
    map p | p in plain :: Some(plain[p])
  }

  /** A new level map: the distinct positions above the keys of `m`, all null. */
  function Above(m: LevelMap): LevelMap {
    map q | q in AboveKeys(m) :: None
  }

  function AboveKeys(m: LevelMap): set<Pos> {
    set p | p in m.Keys :: AbovePos(p)
  }

  /** What holds of the level maps between calls: level 0 is the plain
      regions, and every other level present lies within 20 of 0 and was
      built from the level next to it toward 0. */
  predicate LevelsOk(regions: map<int, LevelMap>, plain: map<Pos, RenderedRegion>) {
    0 in regions && regions[0] == Lift(plain) &&
    forall l :: l in regions && l != 0 ==>
      -20 <= l <= 20 && Toward0(l) in regions && regions[l] == Above(regions[Toward0(l)])
  }

  lemma GroundZero(ps: set<Pos>)
    ensures Grounded(ps, 0) == ps
  {
    assert Pow2(0) == 1;
    forall p | p in ps
      ensures GroundPos(p, 0) == p
    {
    }
  }

  /** The positions of level l are those of the plain regions taken |l|
      levels out; positive and negative levels alike. */
  lemma {:induction false} LevelKeys(regions: map<int, LevelMap>, plain: map<Pos, RenderedRegion>, l: int)
    requires LevelsOk(regions, plain) && l in regions
    ensures regions[l].Keys == Grounded(plain.Keys, Abs(l))
    decreases Abs(l)
  {
    if l == 0 {
      GroundZero(plain.Keys);
    } else {
      var t := Toward0(l);
      LevelKeys(regions, plain, t);
      assert Abs(l) == Abs(t) + 1;
      forall p | p in plain.Keys
        ensures AbovePos(GroundPos(p, Abs(t))) == GroundPos(p, Abs(l))
      {
        AboveGround(p, Abs(t));
      }
      assert regions[l].Keys == AboveKeys(regions[t]);
    }
  }

  /** The viewer's tile pyramid: the regions of the world at level 0 and a
      map of positions per zoom level, filled in on demand. The MapDB image
      caches are not part of this model. */
  class RenderedMap {
    var plainRegions: map<Pos, RenderedRegion>
    var regions: map<int, LevelMap>

    ghost predicate Valid()
      reads this
    {
      LevelsOk(regions, plainRegions)
    }

    /** RenderedMap(executor, positions): clearReload with no regions, then
        with `positions`. */
    constructor(positions: seq<Pos>)
      ensures Valid()
      ensures plainRegions.Keys == set p | p in positions
      ensures forall p :: p in plainRegions ==> plainRegions[p] == RenderedRegion(0, p)
      ensures regions == map[0 := Lift(plainRegions)]
    {
      plainRegions := map[];
      regions := map[];
      new;
      ClearReload([]);
      ClearReload(positions);
    }

    /** clearReload: forget every level and start over from the regions at
        `positions`; a later duplicate position replaces an earlier one. */
    method ClearReload(positions: seq<Pos>)
      modifies this
      ensures Valid()
      ensures plainRegions.Keys == set p | p in positions
      ensures forall p :: p in plainRegions ==> plainRegions[p] == RenderedRegion(0, p)
      ensures regions == map[0 := Lift(plainRegions)]
    {
      regions := map[];
      plainRegions := map[];
      var i := 0;
      while i < |positions|
        invariant 0 <= i <= |positions| && regions == map[]
        invariant plainRegions.Keys == set p | p in positions[..i]
        invariant forall p :: p in plainRegions ==> plainRegions[p] == RenderedRegion(0, p)
      {
        assert positions[..i + 1] == positions[..i] + [positions[i]];
        plainRegions := plainRegions[positions[i] := RenderedRegion(0, positions[i])];
        i := i + 1;
      }
      assert positions[..i] == positions;
      regions := regions[0 := Lift(plainRegions)];
      assert regions.Keys == {0};
    }

    /** get(level): the map of `level`, built and remembered on first use
        from the level next to it toward 0 (and so, recursively, all levels
        in between); a level beyond 20 either way is an error. */
    method Get(level: int) returns (r: Result<LevelMap, MapError>)
      requires Valid()
      modifies this
      ensures Valid()
      ensures plainRegions == old(plainRegions)
      ensures r.Err? <==> level > 20 || level < -20
      ensures r.Ok? ==> level in regions && r.value == regions[level]
      ensures r.Ok? ==> r.value.Keys == Grounded(plainRegions.Keys, Abs(level))
      ensures forall l :: l in old(regions) ==> l in regions && regions[l] == old(regions[l])
      ensures level in old(regions) ==> regions == old(regions)
      ensures forall l :: l in regions && l !in old(regions) ==> Abs(l) <= Abs(level) && (l < 0) == (level < 0)
      decreases Abs(level)
    {
      if level > 20 || level < -20 {
        return Err(StackOverflow);
      }
      if level in regions {
        r := Ok(regions[level]);
      } else {
        var inner := Get(Toward0(level));
        var m := Above(inner.value);
        regions := regions[level := m];
        r := Ok(m);
      }
      LevelKeys(regions, plainRegions, level);
    }
  }
}
