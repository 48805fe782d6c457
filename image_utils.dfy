/**
  The average colour of a drink's picture: the mean of the red, green and
  blue bytes of the picture's RGBA pixels, each rounded down, white when the
  canvas gives no 2D context; and the translucent background built from it.
*/
module ImageUtils {
  import opened Wrappers
  import opened Text

  /** One byte of a `Uint8ClampedArray`. */
  type Byte = x: int | 0 <= x < 256

  /** A channel of the result: `Math.floor(sum / count)`, which is `NaN` when no pixel was counted (`0 / 0`). */
  datatype Channel = Num(n: nat) | NaN

  datatype Colour = Colour(r: Channel, g: Channel, b: Channel)

  /** The colour reported when the canvas has no 2D context. */
  const White: Colour := Colour(Num(255), Num(255), Num(255))

  /** Byte `ch` (0 red, 1 green, 2 blue, 3 alpha) of pixel `k`. */
  function At(s: seq<Byte>, k: nat, ch: nat): Byte
    requires ch < 4 && 4 * k + ch < |s|
  {
    s[4 * k + ch]
  }

  /** The sum of channel `ch` over the first `n` pixels. */
  function ChannelSum(s: seq<Byte>, ch: nat, n: nat): nat
    requires ch < 4 && 4 * n <= |s|
  {
    if n == 0 then 0 else ChannelSum(s, ch, n - 1) + At(s, n - 1, ch)
  }

  /** `Math.floor(sum / count)` for the non-negative sums of the loop. */
  function Mean(sum: nat, count: nat): (c: Channel)
    ensures c.NaN? <==> count == 0
    ensures c.Num? ==> c.n * count <= sum < (c.n + 1) * count
  {
    if count == 0 then NaN else Num(sum / count)
  }

  /**
    The average the loop computes over the bytes `s`, one pixel per four
    bytes: three bytes for a picture with pixels, `NaN` in every channel for
    one without.
  */
  function AverageOf(s: seq<Byte>): (c: Colour)
    requires |s| % 4 == 0
    ensures |s| == 0 <==> c == Colour(NaN, NaN, NaN)
    ensures |s| > 0 ==> c.r.Num? && c.g.Num? && c.b.Num? && c.r.n <= 255 && c.g.n <= 255 && c.b.n <= 255
  {
    var n := |s| / 4;
    if n > 0 then
      ChannelSumBound(s, 0, n);
      ChannelSumBound(s, 1, n);
      ChannelSumBound(s, 2, n);
      MeanIsByte(ChannelSum(s, 0, n), n);
      MeanIsByte(ChannelSum(s, 1, n), n);
      MeanIsByte(ChannelSum(s, 2, n), n);
      Colour(Mean(ChannelSum(s, 0, n), n), Mean(ChannelSum(s, 1, n), n), Mean(ChannelSum(s, 2, n), n))
    else
      Colour(Mean(ChannelSum(s, 0, n), n), Mean(ChannelSum(s, 1, n), n), Mean(ChannelSum(s, 2, n), n))
  }

  /**
    `processImage` once the picture is drawn: `imageData` is the
    `getImageData(...).data` of the canvas, or `None` when the canvas gives no
    2D context. The loop steps four bytes at a time and adds up bytes 0, 1
    and 2 of each pixel; the alpha byte is never read.
  */
  method AverageColour(imageData: Option<array<Byte>>) returns (c: Colour)
    requires imageData.Some? ==> imageData.value.Length % 4 == 0
    ensures imageData.None? ==> c == White
    ensures imageData.Some? ==> c == AverageOf(imageData.value[..])
  {
    if imageData.None? {
      return White;
    }
    var data := imageData.value;
    var r: nat, g: nat, b: nat, count: nat := 0, 0, 0, 0;
    var i := 0;
    while i < data.Length
      invariant 0 <= i <= data.Length && i == 4 * count
      invariant r == ChannelSum(data[..], 0, count)
      invariant g == ChannelSum(data[..], 1, count)
      invariant b == ChannelSum(data[..], 2, count)
    {
      r := r + data[i];
      g := g + data[i + 1];
      b := b + data[i + 2];
      count := count + 1;
      i := i + 4;
    }
    c := Colour(Mean(r, count), Mean(g, count), Mean(b, count));
  }

  /** No channel sum exceeds 255 per pixel. */
  lemma {:induction false} ChannelSumBound(s: seq<Byte>, ch: nat, n: nat)
    requires ch < 4 && 4 * n <= |s|
    ensures ChannelSum(s, ch, n) <= 255 * n
  {
    if n > 0 {
      ChannelSumBound(s, ch, n - 1);
    }
  }

  /** Multiplying by a count keeps the order. */
  lemma MulMono(a: nat, b: nat, n: nat)
    requires a <= b
    ensures a * n <= b * n
  {
    var d := b - a;
    assert b * n == a * n + d * n;
  }

  /** The mean of `n` times `v` over `n` pixels is `v`. */
  lemma MeanOfMultiple(n: nat, v: nat)
    requires n > 0
    ensures Mean(n * v, n) == Num(v)
  {
    var m := Mean(n * v, n);
    if m.n < v {
      MulMono(m.n + 1, v, n);
      assert false;
    } else if m.n > v {
      MulMono(v + 1, m.n, n);
      assert false;
    }
  }

  /** The mean of a sum bounded by 255 per counted pixel is a byte. */
  lemma MeanIsByte(sum: nat, count: nat)
    requires 0 < count && sum <= 255 * count
    ensures Mean(sum, count).Num? && Mean(sum, count).n <= 255
  {
    var m := Mean(sum, count);
    if m.n >= 256 {
      MulMono(256, m.n, count);
      assert false;
    }
  }

  /** A channel that is `v` in every pixel sums to `n` times `v`. */
  lemma {:induction false} ChannelSumUniform(s: seq<Byte>, ch: nat, n: nat, v: Byte)
    requires ch < 4 && 4 * n <= |s|
    requires forall k :: 0 <= k < n ==> At(s, k, ch) == v
    ensures ChannelSum(s, ch, n) == n * v
  {
    if n > 0 {
      ChannelSumUniform(s, ch, n - 1, v);
    }
  }

  /** A picture of one colour averages to that colour, whatever its alpha bytes. */
  lemma UniformAverage(s: seq<Byte>, r: Byte, g: Byte, b: Byte)
    requires |s| % 4 == 0 && |s| > 0
    requires forall k :: 0 <= k < |s| / 4 ==> At(s, k, 0) == r && At(s, k, 1) == g && At(s, k, 2) == b
    ensures AverageOf(s) == Colour(Num(r), Num(g), Num(b))
  {
    var n := |s| / 4;
    ChannelSumUniform(s, 0, n, r);
    ChannelSumUniform(s, 1, n, g);
    ChannelSumUniform(s, 2, n, b);
    MeanOfMultiple(n, r);
    MeanOfMultiple(n, g);
    MeanOfMultiple(n, b);
  }

  /** Sums of a channel on which two pictures agree are equal. */
  lemma {:induction false} ChannelSumAgree(s: seq<Byte>, t: seq<Byte>, ch: nat, n: nat)
    requires ch < 4 && 4 * n <= |s| && 4 * n <= |t|
    requires forall k :: 0 <= k < n ==> At(s, k, ch) == At(t, k, ch)
    ensures ChannelSum(s, ch, n) == ChannelSum(t, ch, n)
  {
    if n > 0 {
      ChannelSumAgree(s, t, ch, n - 1);
    }
  }

  /** The alpha bytes play no part: pictures that differ only there have the same average. */
  lemma AlphaIgnored(s: seq<Byte>, t: seq<Byte>)
    requires |s| == |t| && |s| % 4 == 0
    requires forall k :: 0 <= k < |s| / 4 ==> At(s, k, 0) == At(t, k, 0) && At(s, k, 1) == At(t, k, 1) && At(s, k, 2) == At(t, k, 2)
    ensures AverageOf(s) == AverageOf(t)
  {
    var n := |s| / 4;
    ChannelSumAgree(s, t, 0, n);
    ChannelSumAgree(s, t, 1, n);
    ChannelSumAgree(s, t, 2, n);
  }

  // ---------------------------------------------------------------------------
  // `applyAverageColorToElement`
  // ---------------------------------------------------------------------------

  /** A number in a template literal: its decimal digits, or `NaN`. */
  function ShowChannel(c: Channel): (r: string)
    ensures Lacks(r, ',')
  {
    match c
    case Num(n) => NatToString(n)
    case NaN => "NaN"
  }

  /** Different channels are shown differently. */
  lemma ShowChannelInjective(a: Channel, b: Channel)
    requires ShowChannel(a) == ShowChannel(b)
    ensures a == b
  {
    if a.Num? && b.Num? {
      NatToStringInjective(a.n, b.n);
    }
  }

  /** The background the card gets: `rgba(${r}, ${g}, ${b}, 0.2)`, always at the fixed opacity 0.2. */
  function RgbaString(c: Colour): (r: string)
    ensures |r| > 11 && r[..5] == "rgba(" && r[|r| - 6..] == ", 0.2)"
  {
    "rgba(" + ShowChannel(c.r) + ", " + ShowChannel(c.g) + ", " + ShowChannel(c.b) + ", 0.2)"
  }

  /** The background of three channel texts, grouped from the right. */
  lemma RgbaGrouped(r: string, g: string, b: string)
    ensures "rgba(" + r + ", " + g + ", " + b + ", 0.2)" == "rgba(" + (r + (", " + (g + (", " + (b + ", 0.2)")))))
  {
  }

  /** Equal texts with the same start have the same rest. */
  lemma DropPrefix(p: string, a: string, b: string)
    requires p + a == p + b
    ensures a == b
  {
    assert a == (p + a)[|p|..];
    assert b == (p + b)[|p|..];
  }

  /** Three comma-free channel texts are read back from the text they make. */
  lemma RgbaTexts(r1: string, g1: string, b1: string, r2: string, g2: string, b2: string)
    requires Lacks(r1, ',') && Lacks(g1, ',') && Lacks(b1, ',') && Lacks(r2, ',') && Lacks(g2, ',') && Lacks(b2, ',')
    requires "rgba(" + (r1 + (", " + (g1 + (", " + (b1 + ", 0.2)"))))) == "rgba(" + (r2 + (", " + (g2 + (", " + (b2 + ", 0.2)")))))
    ensures r1 == r2 && g1 == g2 && b1 == b2
  {
    var t1, t2 := ", " + (g1 + (", " + (b1 + ", 0.2)"))), ", " + (g2 + (", " + (b2 + ", 0.2)")));
    DropPrefix("rgba(", r1 + t1, r2 + t2);
    SplitAtChar(',', r1, t1, r2, t2);
    var u1, u2 := ", " + (b1 + ", 0.2)"), ", " + (b2 + ", 0.2)");
    DropPrefix(", ", g1 + u1, g2 + u2);
    SplitAtChar(',', g1, u1, g2, u2);
    DropPrefix(", ", b1 + ", 0.2)", b2 + ", 0.2)");
    SplitAtChar(',', b1, ", 0.2)", b2, ", 0.2)");
  }

  /** The background tells the colour: different colours give different backgrounds. */
  lemma RgbaStringInjective(c: Colour, d: Colour)
    requires RgbaString(c) == RgbaString(d)
    ensures c == d
  {
    RgbaGrouped(ShowChannel(c.r), ShowChannel(c.g), ShowChannel(c.b));
    RgbaGrouped(ShowChannel(d.r), ShowChannel(d.g), ShowChannel(d.b));
    RgbaTexts(ShowChannel(c.r), ShowChannel(c.g), ShowChannel(c.b), ShowChannel(d.r), ShowChannel(d.g), ShowChannel(d.b));
    ShowChannelInjective(c.r, d.r);
    ShowChannelInjective(c.g, d.g);
    ShowChannelInjective(c.b, d.b);
  }

  /** A picture without pixels gets the background `rgba(NaN, NaN, NaN, 0.2)`. */
  lemma EmptyPictureBackground()
    ensures RgbaString(AverageOf([])) == "rgba(NaN, NaN, NaN, 0.2)"
  {
    assert AverageOf([]) == Colour(NaN, NaN, NaN);
  }

  /** Without a 2D context the card gets a faint white background. */
  lemma WhiteBackground()
    ensures RgbaString(White) == "rgba(255, 255, 255, 0.2)"
  {
    assert NatToString(255) == "255";
  }
}
