/** The colord functions of WP_Duotone_Gutenberg that turn HSL into RGB, over
    real numbers, against the conversion of CSS Color Module Level 4. */
module Duotone {

  /** A hue as it was parsed. */
  datatype Angle = Finite(degrees: real) | NotFinite

  datatype Parsed = Parsed(h: Angle, s: real, l: real, a: real)

  datatype Hsla = Hsla(h: int, s: real, l: real, a: real)

  datatype Hsva = Hsva(h: int, s: real, v: real, a: real)

  datatype Rgba = Rgba(r: real, g: real, b: real, a: real)

  // ---- The code ----

  function Clamp(x: real, low: real, high: real): real {
    if x > high then high else if x > low then x else low
  }

  /** A float as an operand of PHP's % loses its fraction. */
  function Truncate(x: real): int {
    if x >= 0.0 then x.Floor else -((-x).Floor)
  }

  /** PHP's %, whose sign is that of the dividend. */
  function Remainder(n: int, d: int): int
    requires d > 0
  {
    if n >= 0 then n % d else -((-n) % d)
  }

  function ClampHue(angle: Angle): int {
    var degrees := if angle.Finite? then Remainder(Truncate(angle.degrees), 360) else 0;
    if degrees > 0 then degrees else degrees + 360
  }

  function ClampHsla(c: Parsed): Hsla {
    Hsla(ClampHue(c.h), Clamp(c.s, 0.0, 100.0), Clamp(c.l, 0.0, 100.0), Clamp(c.a, 0.0, 1.0))
  }

  function Headroom(l: real): real {
    (if l < 50.0 then l else 100.0 - l) / 100.0
  }

  function Saturated(s: real, l: real): real {
    s * Headroom(l)
  }

  function HslaToHsva(c: Hsla): Hsva
    requires 0.0 <= c.s <= 100.0 && 0.0 <= c.l <= 100.0
  {
    var s := Saturated(c.s, c.l);
    Hsva(c.h, if s > 0.0 then 2.0 * s / (c.l + s) * 100.0 else 0.0, c.l + s, c.a)
  }

  /** The channels for sector k of the hue. */
  function Pick(k: int, v: real, b: real, c: real, d: real, a: real): Rgba
    requires 0 <= k < 6
  {
    Rgba([v, c, b, b, d, v][k] * 255.0, [d, v, v, c, b, b][k] * 255.0, [b, b, d, v, v, c][k] * 255.0, a)
  }

  /** The colour at place f in sector k. */
  function Mix(k: int, f: real, v: real, s: real, a: real): Rgba
    requires 0 <= k < 6
  {
    Pick(k, v, v * (1.0 - s), v * (1.0 - f * s), v * (1.0 - (1.0 - f) * s), a)
  }

  function HsvaToRgba(c: Hsva): Rgba
    requires 0 <= c.h
  {
    var h := c.h as real / 360.0 * 6.0;
    var hh := h.Floor;
    Mix(hh % 6, h - hh as real, c.v / 100.0, c.s / 100.0, c.a)
  }

  function HslaToRgba(c: Hsla): Rgba
    requires 0 <= c.h && 0.0 <= c.s <= 100.0 && 0.0 <= c.l <= 100.0
  {
    HsvaToRgba(HslaToHsva(c))
  }

  // ---- Section 7.1 of CSS Color Module Level 4 ----

  function Min(x: real, y: real): real {
    if x < y then x else y
  }

  function Max(x: real, y: real): real {
    if x > y then x else y
  }

  function Mod12(x: real): real {
    x - 12.0 * (x / 12.0).Floor as real
  }

  /** The channel n of a colour given by a hue in degrees and by saturation and
      lightness in percent. */
  function CssChannel(n: int, hue: real, sat: real, light: real): real {
    light / 100.0 - Amplitude(sat, light) * Wave(Mod12(n as real + hue / 30.0))
  }

  /** How the channel n goes round the wheel. */
  function Wave(k: real): real {
    Max(-1.0, Min(k - 3.0, Min(9.0 - k, 1.0)))
  }

  /** The colour of the standard, with channels up to 255. */
  function Css(hue: real, sat: real, light: real, alpha: real): Rgba {
    Rgba(CssChannel(0, hue, sat, light) * 255.0, CssChannel(8, hue, sat, light) * 255.0, CssChannel(4, hue, sat, light) * 255.0, alpha)
  }

  function Amplitude(sat: real, light: real): real {
    sat / 100.0 * Min(light / 100.0, 1.0 - light / 100.0)
  }

  // ---- The hue ----

  /** The hue is brought into one turn, keeping its angle; a full turn stands for 0. */
  lemma HueIsInOneTurn(angle: Angle)
    ensures 1 <= ClampHue(angle) <= 360
    ensures angle.Finite? ==> ClampHue(angle) % 360 == Truncate(angle.degrees) % 360
    ensures angle.NotFinite? ==> ClampHue(angle) == 360
  {
    if angle.Finite? {
      var n := Truncate(angle.degrees);
      if n < 0 {
        NegativeModulo(-n);
      }
    }
  }

  lemma NegativeModulo(n: int)
    requires n > 0
    ensures (-n) % 360 == if n % 360 == 0 then 0 else 360 - n % 360
  {
    var q, r := n / 360, n % 360;
    assert n == 360 * q + r;
    if r == 0 {
      assert -n == 360 * -q;
    } else {
      assert -n == 360 * (-q - 1) + (360 - r);
    }
  }

  // ---- The channels ----

  lemma Hundredth(s: real, m: real)
    ensures s * m / 100.0 == s / 100.0 * m
  {
    var q := s / 100.0;
    assert s == 100.0 * q;
    assert 100.0 * q * m == 100.0 * (q * m);
  }

  lemma NotNegative(x: real, y: real)
    requires x >= 0.0 && y >= 0.0
    ensures x * y >= 0.0
  {
  }

  lemma ProductAtMost(s: real, m: real, p: real)
    requires 0.0 <= s <= 100.0 && m >= 0.0 && p == s * m
    ensures 0.0 <= p <= 100.0 * m
  {
    NotNegative(s, m);
    NotNegative(100.0 - s, m);
    assert (100.0 - s) * m == 100.0 * m - s * m;
  }

  lemma HeadroomIs(l: real)
    requires 0.0 <= l <= 100.0
    ensures Headroom(l) == Min(l / 100.0, 1.0 - l / 100.0)
    ensures 0.0 <= Headroom(l) && 100.0 * Headroom(l) <= l && 100.0 * Headroom(l) <= 100.0 - l
  {
  }

  lemma Bounded(s: real, m: real, p: real, l: real)
    requires 0.0 <= s <= 100.0 && m >= 0.0 && 100.0 * m <= l && 100.0 * m <= 100.0 - l && p == s * m
    ensures 0.0 <= p <= l && p <= 100.0 - l
  {
    ProductAtMost(s, m, p);
    assert p <= 100.0 * m;
  }

  lemma SaturatedIs(s: real, l: real)
    requires 0.0 <= s <= 100.0 && 0.0 <= l <= 100.0
    ensures 0.0 <= Saturated(s, l) <= l && Saturated(s, l) <= 100.0 - l
  {
    HeadroomIs(l);
    Bounded(s, Headroom(l), Saturated(s, l), l);
  }

  function Chroma(s: real, l: real): real {
    Saturated(s, l) / 100.0
  }

  lemma AmplitudeIs(s: real, l: real)
    requires 0.0 <= s <= 100.0 && 0.0 <= l <= 100.0
    ensures Amplitude(s, l) == Chroma(s, l)
  {
    HeadroomIs(l);
    Hundredth(s, Headroom(l));
  }

  /** Value times saturation, without the division by the value. */
  lemma ValueTimesSaturation(h: int, s: real, l: real, a: real)
    requires 0.0 <= s <= 100.0 && 0.0 <= l <= 100.0
    ensures var c := HslaToHsva(Hsla(h, s, l, a));
      c.v / 100.0 == l / 100.0 + Chroma(s, l) && (c.v / 100.0) * (c.s / 100.0) == 2.0 * Chroma(s, l)
  {
    SaturatedIs(s, l);
    Ratio(Saturated(s, l), l);
  }

  lemma Ratio(p: real, l: real)
    requires p >= 0.0 && l >= 0.0
    ensures p > 0.0 ==> (l + p) / 100.0 * (2.0 * p / (l + p) * 100.0 / 100.0) == 2.0 * (p / 100.0)
  {
    if p > 0.0 {
      var q := 2.0 * p / (l + p);
      assert q * (l + p) == 2.0 * p;
      assert q * 100.0 / 100.0 == q;
      assert ((l + p) / 100.0) * q == (q * (l + p)) / 100.0;
    }
  }

  /** How far red, green and blue are from the lightness in each sector of the
      hue, at place f in the sector. */
  function Waves(k: int, f: real): (real, real, real)
    requires 0 <= k < 6
  {
    var up, down := 1.0 - 2.0 * f, 2.0 * f - 1.0;
    ([-1.0, down, 1.0, 1.0, up, -1.0][k], [up, -1.0, -1.0, down, 1.0, 1.0][k], [1.0, 1.0, up, -1.0, -1.0, down][k])
  }

  /** The channel whose wave is w, of lightness l. */
  function Tone(l: real, p: real, w: real): real {
    l - p * w
  }

  function Tones(l: real, p: real, w: (real, real, real), a: real): Rgba {
    Rgba(Tone(l, p, w.0) * 255.0, Tone(l, p, w.1) * 255.0, Tone(l, p, w.2) * 255.0, a)
  }

  lemma SectorOf(hue: int)
    requires 0 <= hue <= 360
    ensures var h := hue as real / 360.0 * 6.0;
      h.Floor == hue / 60 && h - h.Floor as real == (hue % 60) as real / 60.0
  {
    var h := hue as real / 360.0 * 6.0;
    assert hue == 60 * (hue / 60) + hue % 60;
    assert h == (hue / 60) as real + (hue % 60) as real / 60.0;
  }

  lemma FallingTone(f: real, v: real, t: real, p: real, l: real)
    requires v == l + p && v * t == 2.0 * p
    ensures v * (1.0 - f * t) == Tone(l, p, 2.0 * f - 1.0)
  {
    assert v * (1.0 - f * t) == v - f * (v * t);
    assert f * (2.0 * p) == p * (2.0 * f);
    assert p * (2.0 * f - 1.0) == p * (2.0 * f) - p;
  }

  lemma MixIs(k: int, f: real, v: real, t: real, p: real, l: real, a: real)
    requires 0 <= k < 6 && v == l + p && v * t == 2.0 * p
    ensures Mix(k, f, v, t, a) == Tones(l, p, Waves(k, f), a)
  {
    MixByTones(k, f, v, t, p, l, a, v * (1.0 - t), v * (1.0 - f * t), v * (1.0 - (1.0 - f) * t));
  }

  lemma MixByTones(k: int, f: real, v: real, t: real, p: real, l: real, a: real, b: real, c: real, d: real)
    requires 0 <= k < 6 && v == l + p && v * t == 2.0 * p
    requires b == v * (1.0 - t) && c == v * (1.0 - f * t) && d == v * (1.0 - (1.0 - f) * t)
    ensures Pick(k, v, b, c, d, a) == Tones(l, p, Waves(k, f), a)
  {
    FourTones(f, v, t, p, l, b, c, d);
    PickIs(k, v, b, c, d, l, p, f, a);
  }

  lemma FourTones(f: real, v: real, t: real, p: real, l: real, b: real, c: real, d: real)
    requires v == l + p && v * t == 2.0 * p
    requires b == v * (1.0 - t) && c == v * (1.0 - f * t) && d == v * (1.0 - (1.0 - f) * t)
    ensures v == Tone(l, p, -1.0) && b == Tone(l, p, 1.0) && c == Tone(l, p, 2.0 * f - 1.0) && d == Tone(l, p, 1.0 - 2.0 * f)
  {
    FallingTone(f, v, t, p, l);
    FallingTone(1.0 - f, v, t, p, l);
    assert v * (1.0 - t) == v - v * t;
    assert 2.0 * (1.0 - f) - 1.0 == 1.0 - 2.0 * f;
  }

  lemma PickIs(k: int, v: real, b: real, c: real, d: real, l: real, p: real, f: real, a: real)
    requires 0 <= k < 6
    requires v == Tone(l, p, -1.0) && b == Tone(l, p, 1.0) && c == Tone(l, p, 2.0 * f - 1.0) && d == Tone(l, p, 1.0 - 2.0 * f)
    ensures Pick(k, v, b, c, d, a) == Tones(l, p, Waves(k, f), a)
  {
  }

  /** What the code computes in these terms. */
  lemma CodeByWaves(hue: int, s: real, l: real, alpha: real)
    requires 0 <= hue <= 360 && 0.0 <= s <= 100.0 && 0.0 <= l <= 100.0
    ensures HslaToRgba(Hsla(hue, s, l, alpha)) ==
      Tones(l / 100.0, Chroma(s, l), Waves(hue / 60 % 6, (hue % 60) as real / 60.0), alpha)
  {
    var c := HslaToHsva(Hsla(hue, s, l, alpha));
    ValueTimesSaturation(hue, s, l, alpha);
    SectorOf(hue);
    MixIs(hue / 60 % 6, (hue % 60) as real / 60.0, c.v / 100.0, c.s / 100.0, Chroma(s, l), l / 100.0, alpha);
  }

  lemma Mod12Is(x: real)
    requires 0.0 <= x < 24.0
    ensures Mod12(x) == if x < 12.0 then x else x - 12.0
  {
    assert (x / 12.0).Floor == if x < 12.0 then 0 else 1;
  }

  /** Sector of the wheel and place in it, of an angle in one turn. */
  function Sector(hue: real): int {
    (hue / 60.0).Floor
  }

  function Place(hue: real): real {
    hue / 60.0 - Sector(hue) as real
  }

  lemma Phase(n: int, hue: real)
    requires (n == 0 || n == 4 || n == 8) && 0.0 <= hue < 360.0
    ensures var k := 2 * Sector(hue) + n;
      Mod12(n as real + hue / 30.0) == (if k < 12 then k else k - 12) as real + 2.0 * Place(hue)
  {
    var x := n as real + hue / 30.0;
    assert hue / 30.0 == 2.0 * (hue / 60.0);
    assert x == (2 * Sector(hue) + n) as real + 2.0 * Place(hue);
    Mod12Is(x);
  }

  lemma ChannelIs(n: int, hue: real, s: real, l: real)
    requires 0.0 <= s <= 100.0 && 0.0 <= l <= 100.0
    ensures CssChannel(n, hue, s, l) == Tone(l / 100.0, Chroma(s, l), Wave(Mod12(n as real + hue / 30.0)))
  {
    AmplitudeIs(s, l);
  }

  lemma WavesAre(sector: int, f: real)
    requires 0 <= sector < 6 && 0.0 <= f < 1.0
    ensures var k := 2 * sector;
      Waves(sector, f) == (Wave(k as real + 2.0 * f),
        Wave((if k + 8 < 12 then k + 8 else k - 4) as real + 2.0 * f),
        Wave((if k + 4 < 12 then k + 4 else k - 8) as real + 2.0 * f))
  {
  }

  /** The phases of the three channels make the waves of the sector. */
  lemma PhasesAre(hue: real)
    requires 0.0 <= hue < 360.0
    ensures 0 <= Sector(hue) < 6
    ensures Waves(Sector(hue), Place(hue)) == (Wave(Mod12(0 as real + hue / 30.0)),
      Wave(Mod12(8 as real + hue / 30.0)), Wave(Mod12(4 as real + hue / 30.0)))
  {
    Phase(0, hue);
    Phase(8, hue);
    Phase(4, hue);
    WavesAre(Sector(hue), Place(hue));
  }

  /** What the standard asks for in the same terms as the code. */
  lemma CssByWaves(hue: real, s: real, l: real, alpha: real)
    requires 0.0 <= hue < 360.0 && 0.0 <= s <= 100.0 && 0.0 <= l <= 100.0
    ensures 0 <= Sector(hue) < 6
    ensures Css(hue, s, l, alpha) == Tones(l / 100.0, Chroma(s, l), Waves(Sector(hue), Place(hue)), alpha)
  {
    PhasesAre(hue);
    ChannelIs(0, hue, s, l);
    ChannelIs(8, hue, s, l);
    ChannelIs(4, hue, s, l);
  }

  /** A channel lies between black and white. */
  lemma ToneInRange(l: real, p: real, w: real)
    requires 0.0 <= p <= l && p <= 1.0 - l && -1.0 <= w <= 1.0
    ensures 0.0 <= Tone(l, p, w) <= 1.0
  {
    NotNegative(p, 1.0 - w);
    NotNegative(p, 1.0 + w);
    assert p * (1.0 - w) == p - p * w && p * (1.0 + w) == p + p * w;
  }

  lemma Percent(p: real, l: real)
    requires 0.0 <= p <= l && p <= 100.0 - l
    ensures 0.0 <= p / 100.0 <= l / 100.0 && p / 100.0 <= 1.0 - l / 100.0
  {
  }

  lemma ChromaIs(s: real, l: real)
    requires 0.0 <= s <= 100.0 && 0.0 <= l <= 100.0
    ensures 0.0 <= Chroma(s, l) <= l / 100.0 && Chroma(s, l) <= 1.0 - l / 100.0
  {
    SaturatedIs(s, l);
    Percent(Saturated(s, l), l);
  }

  lemma ToneOf(n: int, hue: real, s: real, l: real)
    requires 0.0 <= s <= 100.0 && 0.0 <= l <= 100.0
    ensures 0.0 <= CssChannel(n, hue, s, l) * 255.0 <= 255.0
  {
    ChannelIs(n, hue, s, l);
    ChromaIs(s, l);
    ToneInRange(l / 100.0, Chroma(s, l), Wave(Mod12(n as real + hue / 30.0)));
  }

  lemma WholeSector(h: int)
    requires 0 <= h < 360
    ensures Sector(h as real) == h / 60 && Place(h as real) == (h % 60) as real / 60.0
  {
    var r := h as real / 60.0;
    assert h == 60 * (h / 60) + h % 60;
    assert r == (h / 60) as real + (h % 60) as real / 60.0;
    assert 0.0 <= (h % 60) as real / 60.0 < 1.0;
    assert r.Floor == h / 60;
  }

  lemma SameSector(hue: int)
    requires 0 <= hue <= 360
    ensures hue / 60 % 6 == hue % 360 / 60 && hue % 60 == hue % 360 % 60
  {
  }

  lemma OneTurnMatches(hue: int, s: real, l: real, alpha: real)
    requires 0 <= hue <= 360 && 0.0 <= s <= 100.0 && 0.0 <= l <= 100.0
    ensures HslaToRgba(Hsla(hue, s, l, alpha)) == Css((hue % 360) as real, s, l, alpha)
  {
    CodeByWaves(hue, s, l, alpha);
    SameSector(hue);
    WholeSector(hue % 360);
    CssByWaves((hue % 360) as real, s, l, alpha);
  }

  /** The hue the code works with, in one turn. */
  function WholeHue(angle: Angle): int {
    if angle.Finite? then Truncate(angle.degrees) % 360 else 0
  }

  /** The number between 0 and the limit that is nearest. */
  function Within(x: real, high: real): real {
    Max(0.0, Min(x, high))
  }

  lemma ClampIs(x: real, high: real)
    requires high > 0.0
    ensures Clamp(x, 0.0, high) == Within(x, high) && 0.0 <= Within(x, high) <= high
  {
  }

  /** The fraction goes, towards zero on either side of it. */
  lemma TruncateIs(x: real)
    ensures x >= 0.0 ==> Truncate(x) as real <= x < Truncate(x) as real + 1.0
    ensures x < 0.0 ==> Truncate(x) as real - 1.0 < x <= Truncate(x) as real
  {
  }

  lemma MatchesWithin(angle: Angle, s: real, l: real, alpha: real)
    requires 0.0 <= s <= 100.0 && 0.0 <= l <= 100.0
    ensures ClampHue(angle) >= 0
    ensures var rgba := HslaToRgba(Hsla(ClampHue(angle), s, l, alpha));
      && rgba == Css(WholeHue(angle) as real, s, l, alpha)
      && 0.0 <= rgba.r <= 255.0 && 0.0 <= rgba.g <= 255.0 && 0.0 <= rgba.b <= 255.0
  {
    HueIsInOneTurn(angle);
    OneTurnMatches(ClampHue(angle), s, l, alpha);
    CssInRange(WholeHue(angle) as real, s, l, alpha);
  }

  lemma CssInRange(hue: real, s: real, l: real, alpha: real)
    requires 0.0 <= s <= 100.0 && 0.0 <= l <= 100.0
    ensures var rgba := Css(hue, s, l, alpha); 0.0 <= rgba.r <= 255.0 && 0.0 <= rgba.g <= 255.0 && 0.0 <= rgba.b <= 255.0
  {
    ToneOf(0, hue, s, l);
    ToneOf(8, hue, s, l);
    ToneOf(4, hue, s, l);
  }

  /** For any hue, saturation, lightness and alpha the code gives the colour of
      the standard for the hue without its fraction and the others brought into
      their ranges, and every channel is in range. */
  lemma MatchesTruncated(c: Parsed)
    ensures var rgba := HslaToRgba(ClampHsla(c));
      && rgba == Css(WholeHue(c.h) as real, Within(c.s, 100.0), Within(c.l, 100.0), Within(c.a, 1.0))
      && 0.0 <= rgba.r <= 255.0 && 0.0 <= rgba.g <= 255.0 && 0.0 <= rgba.b <= 255.0 && 0.0 <= rgba.a <= 1.0
  {
    ClampIs(c.s, 100.0);
    ClampIs(c.l, 100.0);
    ClampIs(c.a, 1.0);
    MatchesWithin(c.h, Within(c.s, 100.0), Within(c.l, 100.0), Within(c.a, 1.0));
  }

  // ---- Hues with a fraction ----

  predicate Whole(x: real) {
    x == x.Floor as real
  }

  function Turns(hue: real): int {
    (hue / 360.0).Floor
  }

  /** The same angle in one turn. */
  function InTurn(hue: real): real {
    hue - 360.0 * Turns(hue) as real
  }

  lemma InTurnIs(hue: real)
    ensures 0.0 <= InTurn(hue) < 360.0 && (Whole(InTurn(hue)) <==> Whole(hue))
    ensures Whole(hue) ==> InTurn(hue) == (hue.Floor % 360) as real
  {
    var n := 360 * Turns(hue);
    var q := hue / 360.0;
    assert q - 1.0 < Turns(hue) as real <= q;
    assert InTurn(hue) == hue - n as real;
    assert InTurn(hue).Floor == hue.Floor - n;
    if Whole(hue) {
      assert 0 <= hue.Floor - n < 360;
    }
  }

  lemma WholeTurns(x: real, m: int)
    ensures Mod12(x + 12.0 * m as real) == Mod12(x)
  {
    var y := x + 12.0 * m as real;
    assert y / 12.0 == x / 12.0 + m as real;
    assert (y / 12.0).Floor == (x / 12.0).Floor + m;
  }

  /** The standard's colour depends on the angle only. */
  lemma CssInTurn(hue: real, s: real, l: real, alpha: real)
    ensures Css(hue, s, l, alpha) == Css(InTurn(hue), s, l, alpha)
  {
    SameChannel(0, hue, s, l);
    SameChannel(8, hue, s, l);
    SameChannel(4, hue, s, l);
  }

  lemma SameChannel(n: int, hue: real, s: real, l: real)
    ensures CssChannel(n, hue, s, l) == CssChannel(n, InTurn(hue), s, l)
  {
    var m, x := Turns(hue), n as real + InTurn(hue) / 30.0;
    assert hue / 30.0 == InTurn(hue) / 30.0 + 12.0 * m as real;
    WholeTurns(x, m);
  }

  /** No two places on the wheel have the same waves. */
  lemma WavesDiffer(j: int, e: real, k: int, f: real)
    requires 0 <= j < 6 && 0 <= k < 6 && 0.0 <= e < 1.0 && 0.0 <= f < 1.0
    ensures Waves(j, e) == Waves(k, f) ==> j == k && e == f
  {
  }

  lemma TonesDiffer(l: real, p: real, w: real, v: real)
    requires p != 0.0
    ensures Tone(l, p, w) == Tone(l, p, v) ==> w == v
  {
    assert p * w - p * v == p * (w - v);
  }

  lemma SameTones(l: real, p: real, w: (real, real, real), v: (real, real, real), a: real)
    ensures Tones(l, p, w, a) == Tones(l, p, v, a) <==> p == 0.0 || w == v
  {
    if p == 0.0 {
      assert p * w.0 == p * v.0 && p * w.1 == p * v.1 && p * w.2 == p * v.2;
    } else {
      TonesDiffer(l, p, w.0, v.0);
      TonesDiffer(l, p, w.1, v.1);
      TonesDiffer(l, p, w.2, v.2);
    }
  }

  /** Two hues in one turn have the same colour only if they are the same, or
      there is no colour. */
  lemma HuesDiffer(g: real, h: real, s: real, l: real, alpha: real)
    requires 0.0 <= g < 360.0 && 0.0 <= h < 360.0 && 0.0 <= s <= 100.0 && 0.0 <= l <= 100.0
    ensures Css(g, s, l, alpha) == Css(h, s, l, alpha) <==> g == h || Amplitude(s, l) == 0.0
  {
    CssByWaves(g, s, l, alpha);
    CssByWaves(h, s, l, alpha);
    AmplitudeIs(s, l);
    SameTones(l / 100.0, Chroma(s, l), Waves(Sector(g), Place(g)), Waves(Sector(h), Place(h)), alpha);
    WavesDiffer(Sector(g), Place(g), Sector(h), Place(h));
  }

  /** The code gives the colour of the standard if and only if the hue is a
      whole number of degrees or the colour is a grey. */
  lemma MatchesCssExactly(c: Parsed)
    requires c.h.Finite?
    ensures var s, l := Within(c.s, 100.0), Within(c.l, 100.0);
      HslaToRgba(ClampHsla(c)) == Css(c.h.degrees, s, l, Within(c.a, 1.0)) <==> Whole(c.h.degrees) || Amplitude(s, l) == 0.0
  {
    var s, l, alpha := Within(c.s, 100.0), Within(c.l, 100.0), Within(c.a, 1.0);
    MatchesTruncated(c);
    CssInTurn(c.h.degrees, s, l, alpha);
    InTurnIs(c.h.degrees);
    TruncatedInTurn(c.h.degrees);
    HuesDiffer(WholeHue(c.h) as real, InTurn(c.h.degrees), s, l, alpha);
  }

  lemma TruncatedInTurn(hue: real)
    ensures (Truncate(hue) % 360) as real == InTurn(hue) <==> Whole(hue)
  {
    InTurnIs(hue);
    var h := (Truncate(hue) % 360) as real;
    assert Whole(h) && (Whole(hue) ==> Truncate(hue) == hue.Floor);
  }

  /** Half a degree of pure hue already shows. */
  lemma HalfDegreeShows(c: Parsed)
    requires c == Parsed(Finite(59.5), 100.0, 50.0, 1.0)
    ensures HslaToRgba(ClampHsla(c)) != Css(59.5, 100.0, 50.0, 1.0)
  {
    MatchesCssExactly(c);
    assert (59.5).Floor == 59;
    assert Amplitude(100.0, 50.0) == 0.5;
  }
}
