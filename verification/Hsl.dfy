/** Conversion between RGB and HSL (src/common/colorspaces.c), over the reals. */
module Hsl {
  datatype Rgb = Rgb(r: real, g: real, b: real)
  datatype Hsl = Hsl(h: real, s: real, l: real)

  function Max(x: real, y: real): real {
    if x < y then y else x
  }

  function Min(x: real, y: real): real {
    if x < y then x else y
  }

  predicate InGamut(c: Rgb) {
    0.0 <= c.r <= 1.0 && 0.0 <= c.g <= 1.0 && 0.0 <= c.b <= 1.0
  }

  /** Hue, before it is scaled and wrapped around: 0 at red, 2 at green, 4 at blue. */
  function Sextant(c: Rgb, pmax: real, delta: real): real
    requires delta > 0.0
  {
    if pmax == c.r then (c.g - c.b) / delta
    else if pmax == c.g then 2.0 + (c.b - c.r) / delta
    else if pmax == c.b then 4.0 + (c.r - c.g) / delta
    else 0.0
  }

  function Wrapped(hv: real): real {
    if hv < 0.0 then hv + 1.0 else if hv > 1.0 then hv - 1.0 else hv
  }

  function Rgb2Hsl(c: Rgb): Hsl
    requires InGamut(c)
  {
    var pmax, pmin := Max(c.r, Max(c.g, c.b)), Min(c.r, Min(c.g, c.b));
    var delta := pmax - pmin;
    var lv := (pmin + pmax) / 2.0;
    if pmax == pmin then Hsl(0.0, 0.0, lv)
    else
      var sv := if lv < 0.5 then delta / (pmax + pmin) else delta / (2.0 - pmax - pmin);
      Hsl(Wrapped(Sextant(c, pmax, delta) / 6.0), sv, lv)
  }

  function Flank(m1: real, m2: real, x: real): real {
    m1 + (m2 - m1) * x * 6.0
  }

  function Hue2Rgb(m1: real, m2: real, hue: real): real {
    var hue := Wrapped(hue);
    if hue < 1.0 / 6.0 then Flank(m1, m2, hue)
    else if hue < 1.0 / 2.0 then m2
    else if hue < 2.0 / 3.0 then Flank(m1, m2, 2.0 / 3.0 - hue)
    else m1
  }

  /** m2 of hsl2rgb. */
  function Upper(s: real, l: real): real {
    if l < 0.5 then l * (1.0 + s) else l + s - l * s
  }

  function Hsl2Rgb(c: Hsl): Rgb {
    if c.s == 0.0 then Rgb(c.l, c.l, c.l)
    else
      var m2 := Upper(c.s, c.l);
      var m1 := 2.0 * c.l - m2;
      Rgb(Hue2Rgb(m1, m2, c.h + 1.0 / 3.0), Hue2Rgb(m1, m2, c.h), Hue2Rgb(m1, m2, c.h - 1.0 / 3.0))
  }

  // ---------------------------------------------------------------------------------------------
  // From RGB to HSL and back
  // ---------------------------------------------------------------------------------------------

  /** The two middle values of hsl2rgb are the largest and the smallest channel. */
  lemma MiddleValues(pmin: real, pmax: real, s: real, l: real)
    requires 0.0 <= pmin < pmax <= 1.0 && l == (pmin + pmax) / 2.0
    requires s == if l < 0.5 then (pmax - pmin) / (pmax + pmin) else (pmax - pmin) / (2.0 - pmax - pmin)
    ensures 0.0 < s <= 1.0 && 0.0 < l < 1.0
    ensures Upper(s, l) == pmax
  {
    var d := pmax - pmin;
    if l < 0.5 {
      assert s * (2.0 * l) == d;
      assert l * s == d / 2.0;
    } else {
      assert s * (2.0 - 2.0 * l) == d;
      assert s - l * s == d / 2.0;
    }
    QuotientAtMostOne(d, if l < 0.5 then pmax + pmin else 2.0 - pmax - pmin);
  }

  lemma QuotientAtMostOne(x: real, y: real)
    requires 0.0 < x <= y
    ensures 0.0 < x / y <= 1.0
  {}

  lemma QuotientIn(x: real, d: real)
    requires d > 0.0 && -d <= x <= d
    ensures -1.0 <= x / d <= 1.0 && d * (x / d) == x
    ensures x >= 0.0 <==> x / d >= 0.0
    ensures x == d <==> x / d == 1.0
  {}

  /** On the rising and on the falling flank, with q sixths of the circle from the foot. */
  lemma Flanks(m1: real, m2: real, q: real)
    requires 0.0 <= q <= 1.0
    ensures Hue2Rgb(m1, m2, q / 6.0) == m1 + (m2 - m1) * q
    ensures Hue2Rgb(m1, m2, 2.0 / 3.0 - q / 6.0) == m1 + (m2 - m1) * q
  {
    hide Flank;
    FlankAt(m1, m2, q);
    FlankAt(m1, m2, 0.0);
    FlankAt(m1, m2, 1.0);
    assert 2.0 / 3.0 - (2.0 / 3.0 - q / 6.0) == q / 6.0;
    if 0.0 < q < 1.0 { assert 0.0 < q / 6.0 < 1.0 / 6.0; }
  }

  lemma FlankAt(m1: real, m2: real, q: real)
    ensures Flank(m1, m2, q / 6.0) == m1 + (m2 - m1) * q
    ensures m1 + (m2 - m1) * 0.0 == m1 && m1 + (m2 - m1) * 1.0 == m2
  {
    assert (m2 - m1) * (q / 6.0) * 6.0 == (m2 - m1) * q;
  }

  /** Elsewhere: on the plateau, and at the foot. */
  lemma Plateau(m1: real, m2: real, hue: real)
    ensures 1.0 / 6.0 <= hue <= 1.0 / 2.0 ==> Hue2Rgb(m1, m2, hue) == m2
    ensures 2.0 / 3.0 <= hue <= 1.0 ==> Hue2Rgb(m1, m2, hue) == m1
    ensures -1.0 / 3.0 <= hue < 0.0 || 1.0 < hue <= 7.0 / 6.0 ==> Hue2Rgb(m1, m2, hue) == Hue2Rgb(m1, m2, Wrapped(hue))
    ensures hue == 0.0 ==> Hue2Rgb(m1, m2, hue) == m1
  {
    FlankEnds(m1, m2);
    hide Flank;
  }

  lemma FlankEnds(m1: real, m2: real)
    ensures Flank(m1, m2, 0.0) == m1 && Flank(m1, m2, 1.0 / 6.0) == m2
  {}

  /** Every colour in the unit cube survives the round trip: greys, ties for the largest channel, and hues that
      wrap around at red. */
  lemma RgbRoundTrip(c: Rgb)
    requires InGamut(c)
    ensures Hsl2Rgb(Rgb2Hsl(c)) == c
    ensures var x := Rgb2Hsl(c); 0.0 <= x.h < 1.0 && 0.0 <= x.s <= 1.0 && 0.0 <= x.l <= 1.0
  {
    var pmax, pmin := Max(c.r, Max(c.g, c.b)), Min(c.r, Min(c.g, c.b));
    if pmax != pmin {
      hide Hue2Rgb, Sextant, Upper, HuesBack, Hsl2Rgb;
      var d, x := pmax - pmin, Rgb2Hsl(c);
      MiddleValues(pmin, pmax, x.s, x.l);
      HueReturns(c, pmax, pmin, d);
      HuesBackIs(c, pmin, pmax, x.h);
      FromMiddle(c, pmin, pmax, x);
    }
  }

  /** What the three numbers are: lightness is the middle between the largest and the smallest channel, saturation their
      distance relative to the largest one possible, hue the place on the circle that red, yellow, green, cyan, blue and
      magenta divide into sixths; and a grey has hue and saturation 0. */
  lemma HslMeans(c: Rgb)
    requires InGamut(c)
    ensures var x := Rgb2Hsl(c);
            if c.r == c.g == c.b then x == Hsl(0.0, 0.0, c.r)
            else
              var pmax, pmin := Max(c.r, Max(c.g, c.b)), Min(c.r, Min(c.g, c.b));
              && 2.0 * x.l == pmax + pmin
              && x.s * (if x.l < 0.5 then pmax + pmin else 2.0 - pmax - pmin) == pmax - pmin
              && HueMeans(c, 6.0 * x.h)
  {
    hide Rgb2Hsl, Sextant, Wrapped, HueMeans, Max, Min;
    var pmax, pmin := Max(c.r, Max(c.g, c.b)), Min(c.r, Min(c.g, c.b));
    Rgb2HslIs(c, pmax, pmin);
    if pmax != pmin {
      Extremes(c, pmax, pmin);
      SaturationMeans(pmax - pmin, pmax + pmin, Rgb2Hsl(c));
      SextantMeans(c, pmax, pmin, pmax - pmin);
    }
  }

  lemma Rgb2HslIs(c: Rgb, pmax: real, pmin: real)
    requires InGamut(c) && pmax == Max(c.r, Max(c.g, c.b)) && pmin == Min(c.r, Min(c.g, c.b))
    ensures pmax == pmin <==> c.r == c.g == c.b
    ensures pmax == pmin ==> Rgb2Hsl(c) == Hsl(0.0, 0.0, c.r)
    ensures 0.0 <= pmin <= pmax <= 1.0
    ensures pmax != pmin ==>
              var x, d := Rgb2Hsl(c), pmax - pmin;
              && x.l == (pmin + pmax) / 2.0 && x.h == Wrapped(Sextant(c, pmax, d) / 6.0)
              && (x.l < 0.5 ==> pmax + pmin != 0.0 && x.s == d / (pmax + pmin))
              && (x.l >= 0.5 ==> 2.0 - pmax - pmin != 0.0 && x.s == d / (2.0 - pmax - pmin))
  {
    hide Wrapped, Sextant;
  }

  lemma SaturationMeans(d: real, sum: real, x: Hsl)
    requires x.l < 0.5 ==> sum != 0.0 && x.s == d / sum
    requires x.l >= 0.5 ==> 2.0 - sum != 0.0 && x.s == d / (2.0 - sum)
    ensures x.s * (if x.l < 0.5 then sum else 2.0 - sum) == d
  {
    if x.l < 0.5 { TimesQuotient(d, sum); } else { TimesQuotient(d, 2.0 - sum); }
  }

  lemma Extremes(c: Rgb, pmax: real, pmin: real)
    requires pmax == Max(c.r, Max(c.g, c.b)) && pmin == Min(c.r, Min(c.g, c.b))
    ensures pmin <= c.r <= pmax && pmin <= c.g <= pmax && pmin <= c.b <= pmax
    ensures pmax == c.r || pmax == c.g || pmax == c.b
    ensures pmin == c.r || pmin == c.g || pmin == c.b
  {}

  /** Six times the hue, going around from red (0) over green (2) and blue (4). */
  predicate HueMeans(c: Rgb, x: real) {
    && (c.r >= c.g >= c.b ==> x * (c.r - c.b) == c.g - c.b)
    && (c.g >= c.r >= c.b ==> (2.0 - x) * (c.g - c.b) == c.r - c.b)
    && (c.g >= c.b >= c.r ==> (x - 2.0) * (c.g - c.r) == c.b - c.r)
    && (c.b >= c.g >= c.r ==> (4.0 - x) * (c.b - c.r) == c.g - c.r)
    && (c.b >= c.r >= c.g ==> (x - 4.0) * (c.b - c.g) == c.r - c.g)
    && (c.r >= c.b > c.g ==> (6.0 - x) * (c.r - c.g) == c.b - c.g)
  }

  lemma TimesQuotient(x: real, d: real)
    ensures d != 0.0 ==> x / d * d == x
  {}

  lemma SixTimes(y: real)
    requires -6.0 <= y <= 6.0
    ensures 6.0 * Wrapped(y / 6.0) == if y < 0.0 then y + 6.0 else y
  {}

  lemma SextantMeans(c: Rgb, pmax: real, pmin: real, d: real)
    requires pmin <= c.r <= pmax && pmin <= c.g <= pmax && pmin <= c.b <= pmax
    requires pmax == c.r || pmax == c.g || pmax == c.b
    requires (pmin == c.r || pmin == c.g || pmin == c.b) && d == pmax - pmin > 0.0
    ensures HueMeans(c, 6.0 * Wrapped(Sextant(c, pmax, d) / 6.0))
  {
    hide Wrapped, HueMeans, Sextant;
    SextantIs(c, pmax, d);
    if pmax == c.r { RedSextant(c, d); }
    else if pmax == c.g { GreenSextant(c, d); }
    else { BlueSextant(c, d); }
  }

  lemma RedSextant(c: Rgb, d: real)
    requires c.r >= c.g && c.r >= c.b && d == c.r - (if c.g < c.b then c.g else c.b) > 0.0
    ensures HueMeans(c, 6.0 * Wrapped((c.g - c.b) / d / 6.0))
  {
    hide Wrapped, HueMeans;
    QuotientIn(c.g - c.b, d);
    var q := (c.g - c.b) / d;
    SixTimes(q);
    AtRed(c, d, q);
  }

  lemma GreenSextant(c: Rgb, d: real)
    requires c.g > c.r && c.g >= c.b && d == c.g - (if c.r < c.b then c.r else c.b) > 0.0
    ensures HueMeans(c, 6.0 * Wrapped((2.0 + (c.b - c.r) / d) / 6.0))
  {
    hide Wrapped, HueMeans;
    QuotientIn(c.b - c.r, d);
    var q := (c.b - c.r) / d;
    SixTimes(2.0 + q);
    AtGreen(c, d, q);
  }

  lemma BlueSextant(c: Rgb, d: real)
    requires c.b > c.r && c.b > c.g && d == c.b - (if c.r < c.g then c.r else c.g) > 0.0
    ensures HueMeans(c, 6.0 * Wrapped((4.0 + (c.r - c.g) / d) / 6.0))
  {
    hide Wrapped, HueMeans;
    QuotientIn(c.r - c.g, d);
    var q := (c.r - c.g) / d;
    SixTimes(4.0 + q);
    AtBlue(c, d, q);
  }

  lemma SextantIs(c: Rgb, pmax: real, d: real)
    requires d > 0.0
    ensures pmax == c.r ==> Sextant(c, pmax, d) == (c.g - c.b) / d
    ensures pmax != c.r && pmax == c.g ==> Sextant(c, pmax, d) == 2.0 + (c.b - c.r) / d
    ensures pmax != c.r && pmax != c.g && pmax == c.b ==> Sextant(c, pmax, d) == 4.0 + (c.r - c.g) / d
  {}

  lemma AtRed(c: Rgb, d: real, q: real)
    requires c.r >= c.g && c.r >= c.b && d == c.r - (if c.g < c.b then c.g else c.b) > 0.0 && d * q == c.g - c.b
    requires q >= 0.0 <==> c.g >= c.b
    requires c.g - c.b == d <==> q == 1.0
    ensures HueMeans(c, if q < 0.0 then q + 6.0 else q)
  {
    assert c.r == c.g ==> q == 1.0;
    if c.r == c.b && q < 0.0 { assert d * (q + 1.0) == 0.0; NonZero(d, q + 1.0); }
  }

  lemma NonZero(d: real, x: real)
    requires d > 0.0 && d * x == 0.0
    ensures x == 0.0
  {}

  lemma AtGreen(c: Rgb, d: real, q: real)
    requires c.g > c.r && c.g >= c.b && d == c.g - (if c.r < c.b then c.r else c.b) > 0.0 && d * q == c.b - c.r
    requires c.b - c.r == d <==> q == 1.0
    ensures HueMeans(c, 2.0 + q)
  {}

  lemma AtBlue(c: Rgb, d: real, q: real)
    requires c.b > c.r && c.b > c.g && d == c.b - (if c.r < c.g then c.r else c.g) > 0.0 && d * q == c.r - c.g
    ensures HueMeans(c, 4.0 + q)
  {}

  lemma HueReturns(c: Rgb, pmax: real, pmin: real, d: real)
    requires pmax == Max(c.r, Max(c.g, c.b)) && pmin == Min(c.r, Min(c.g, c.b)) && d == pmax - pmin > 0.0
    ensures HuesBack(c, pmin, pmax, Wrapped(Sextant(c, pmax, d) / 6.0))
  {
    hide Hue2Rgb, Wrapped, HuesBack;
    if pmax == c.r { FromRed(c, pmin, d); }
    else if pmax == c.g { FromGreen(c, pmin, d); }
    else { FromBlue(c, pmin, d); }
  }

  lemma FromMiddle(c: Rgb, pmin: real, pmax: real, x: Hsl)
    requires HuesBack(c, pmin, pmax, x.h) && x.s != 0.0 && 2.0 * x.l == pmin + pmax
    requires Upper(x.s, x.l) == pmax
    ensures Hsl2Rgb(x) == c
  {
    hide Hue2Rgb, Upper;
  }

  predicate HuesBack(c: Rgb, pmin: real, pmax: real, h: real) {
    && 0.0 <= h < 1.0
    && Hue2Rgb(pmin, pmax, h + 1.0 / 3.0) == c.r
    && Hue2Rgb(pmin, pmax, h) == c.g
    && Hue2Rgb(pmin, pmax, h - 1.0 / 3.0) == c.b
  }

  lemma HuesBackIs(c: Rgb, pmin: real, pmax: real, h: real)
    requires HuesBack(c, pmin, pmax, h)
    ensures 0.0 <= h < 1.0
  {}

  lemma FromRed(c: Rgb, pmin: real, d: real)
    requires d > 0.0 && c.r == pmin + d && pmin == Min(c.r, Min(c.g, c.b)) && c.g <= c.r && c.b <= c.r
    ensures HuesBack(c, pmin, c.r, Wrapped((c.g - c.b) / d / 6.0))
  {
    var q := (c.g - c.b) / d;
    QuotientIn(c.g - c.b, d);
    if q >= 0.0 {
      Flanks(pmin, c.r, q);
      Plateau(pmin, c.r, q / 6.0 + 1.0 / 3.0);
      Plateau(pmin, c.r, q / 6.0 - 1.0 / 3.0);
      Plateau(pmin, c.r, q / 6.0 + 2.0 / 3.0);
    } else {
      Flanks(pmin, c.r, -q);
      Plateau(pmin, c.r, q / 6.0 + 1.0 + 1.0 / 3.0);
      Plateau(pmin, c.r, q / 6.0 + 1.0 / 3.0);
      Plateau(pmin, c.r, q / 6.0 + 1.0);
      assert q / 6.0 + 1.0 - 1.0 / 3.0 == 2.0 / 3.0 - (-q) / 6.0;
    }
  }

  lemma FromGreen(c: Rgb, pmin: real, d: real)
    requires d > 0.0 && c.g == pmin + d && pmin == Min(c.r, Min(c.g, c.b)) && c.r < c.g && c.b <= c.g
    ensures HuesBack(c, pmin, c.g, Wrapped((2.0 + (c.b - c.r) / d) / 6.0))
  {
    var q := (c.b - c.r) / d;
    QuotientIn(c.b - c.r, d);
    var h := (2.0 + q) / 6.0;
    Plateau(pmin, c.g, h);
    Plateau(pmin, c.g, h - 1.0 / 3.0);
    Plateau(pmin, c.g, h + 1.0 / 3.0);
    if q >= 0.0 {
      Flanks(pmin, c.g, q);
      assert h - 1.0 / 3.0 == q / 6.0;
    } else {
      Flanks(pmin, c.g, -q);
      assert h + 1.0 / 3.0 == 2.0 / 3.0 - (-q) / 6.0;
      Plateau(pmin, c.g, h - 1.0 / 3.0 + 1.0);
    }
  }

  lemma FromBlue(c: Rgb, pmin: real, d: real)
    requires d > 0.0 && c.b == pmin + d && pmin == Min(c.r, Min(c.g, c.b)) && c.r < c.b && c.g < c.b
    ensures HuesBack(c, pmin, c.b, Wrapped((4.0 + (c.r - c.g) / d) / 6.0))
  {
    var q := (c.r - c.g) / d;
    QuotientIn(c.r - c.g, d);
    var h := (4.0 + q) / 6.0;
    Plateau(pmin, c.b, h - 1.0 / 3.0);
    Plateau(pmin, c.b, h);
    Plateau(pmin, c.b, h + 1.0 / 3.0);
    if q >= 0.0 {
      Flanks(pmin, c.b, q);
      assert h + 1.0 / 3.0 == 1.0 + q / 6.0;
    } else {
      Flanks(pmin, c.b, -q);
      assert h == 2.0 / 3.0 - (-q) / 6.0;
    }
  }

  // ---------------------------------------------------------------------------------------------
  // From HSL to RGB and back
  // ---------------------------------------------------------------------------------------------

  lemma SaturationReturns(l: real, s: real, m1: real, m2: real)
    requires 0.0 < s <= 1.0 && 0.0 < l < 1.0
    requires m2 == Upper(s, l) && m1 == 2.0 * l - m2
    ensures 0.0 <= m1 < m2 <= 1.0 && (m1 + m2) / 2.0 == l
    ensures s == if l < 0.5 then (m2 - m1) / (m2 + m1) else (m2 - m1) / (2.0 - m2 - m1)
  {
    if l < 0.5 {
      assert m2 - m1 == s * (2.0 * l);
      Quotient(m2 - m1, s, 2.0 * l);
      Product(l, s);
      Product(l, 1.0 - s);
    } else {
      assert m2 - m1 == s * (2.0 - 2.0 * l);
      Quotient(m2 - m1, s, 2.0 - 2.0 * l);
      Product(1.0 - l, s);
      Product(1.0 - l, 1.0 - s);
    }
  }

  lemma Product(x: real, y: real)
    requires x >= 0.0 && y >= 0.0
    ensures x * y >= 0.0 && (x > 0.0 && y > 0.0 ==> x * y > 0.0)
    ensures x * (1.0 - y) == x - x * y
  {}

  lemma Quotient(x: real, s: real, y: real)
    requires y > 0.0 && x == s * y
    ensures x / y == s
  {}

  /** A point t of the way from a to b. */
  function Between(a: real, b: real, t: real): real {
    a + (b - a) * t
  }

  lemma BetweenIs(a: real, b: real, t: real)
    requires a < b && 0.0 <= t <= 1.0
    ensures a <= Between(a, b, t) <= b
    ensures (Between(a, b, t) - a) / (b - a) == t && (a - Between(a, b, t)) / (b - a) == -t
    ensures (t == 0.0 <==> Between(a, b, t) == a) && (t == 1.0 <==> Between(a, b, t) == b)
  {
    var d, u := b - a, 1.0 - t;
    var x := d * t;
    assert Between(a, b, t) == a + x;
    Product(d, t);
    Product(d, u);
    assert d * u == d - x;
    if t > 0.0 { assert x > 0.0; } else { assert x == 0.0; }
    if u > 0.0 { assert d - x > 0.0; } else { assert x == d; }
    Quotient(x, t, d);
    Quotient(-x, -t, d);
  }

  /** The hue is recovered from the channels: k is the sixth of the circle, t the place in it. */
  lemma HueReturnsIn(m1: real, m2: real, h: real, k: int, t: real)
    requires m1 < m2 && 0 <= k < 6 && 0.0 <= t < 1.0 && h == (k as real + t) / 6.0
    ensures var c := Rgb(Hue2Rgb(m1, m2, h + 1.0 / 3.0), Hue2Rgb(m1, m2, h), Hue2Rgb(m1, m2, h - 1.0 / 3.0));
            && Max(c.r, Max(c.g, c.b)) == m2 && Min(c.r, Min(c.g, c.b)) == m1
            && Wrapped(Sextant(c, m2, m2 - m1) / 6.0) == h
  {
    var c := Rgb(Hue2Rgb(m1, m2, h + 1.0 / 3.0), Hue2Rgb(m1, m2, h), Hue2Rgb(m1, m2, h - 1.0 / 3.0));
    BetweenIs(m1, m2, t);
    BetweenIs(m1, m2, 1.0 - t);
    ChannelsIn(m1, m2, h, k, t);
    hide Hue2Rgb, Between;
  }

  lemma ChannelsIn(m1: real, m2: real, h: real, k: int, t: real)
    requires m1 < m2 && 0 <= k < 6 && 0.0 <= t < 1.0 && h == (k as real + t) / 6.0
    ensures var r, g, b := Hue2Rgb(m1, m2, h + 1.0 / 3.0), Hue2Rgb(m1, m2, h), Hue2Rgb(m1, m2, h - 1.0 / 3.0);
            var up, down := Between(m1, m2, t), Between(m1, m2, 1.0 - t);
            if k == 0 then r == m2 && g == up && b == m1
            else if k == 1 then r == down && g == m2 && b == m1
            else if k == 2 then r == m1 && g == m2 && b == up
            else if k == 3 then r == m1 && g == down && b == m2
            else if k == 4 then r == up && g == m1 && b == m2
            else r == m2 && g == m1 && b == down
  {
  }

  /** And the other way round: every hue, saturation and lightness of a colour that is neither grey nor black nor
      white survives, so the two conversions are inverse bijections. */
  lemma HslRoundTrip(x: Hsl)
    requires 0.0 <= x.h < 1.0 && 0.0 < x.s <= 1.0 && 0.0 < x.l < 1.0
    ensures InGamut(Hsl2Rgb(x)) && Rgb2Hsl(Hsl2Rgb(x)) == x
  {
    var m2 := Upper(x.s, x.l);
    var m1 := 2.0 * x.l - m2;
    SaturationReturns(x.l, x.s, m1, m2);
    var k, t := SextantOf(x.h);
    HueReturnsIn(m1, m2, x.h, k, t);
    hide Hue2Rgb, Upper, Sextant, Wrapped;
  }

  lemma SextantOf(h: real) returns (k: int, t: real)
    requires 0.0 <= h < 1.0
    ensures 0 <= k < 6 && 0.0 <= t < 1.0 && h == (k as real + t) / 6.0
  {
    k := (6.0 * h).Floor;
    t := 6.0 * h - k as real;
  }
}
