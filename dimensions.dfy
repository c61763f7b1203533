/** Aspect-ratio search, missing-side inference and the default size steps
    of the image plan (src/utils.ts). The source works on `width / height`
    as a double; here every comparison with that ratio is made exactly, by
    cross-multiplying with the whole-number width and height. */
module Dimensions {
  import opened Text

  // ---------------------------------------------------------------------
  // Fractions

  /** A fraction num/den; 1/0 is the search's upper bound "infinity". */
  datatype Fraction = Fraction(num: nat, den: nat)

  function Mediant(a: Fraction, b: Fraction): Fraction
  {
    Fraction(a.num + b.num, a.den + b.den)
  }

  /** f < w/h */
  predicate Below(f: Fraction, w: nat, h: nat) { f.num * h < w * f.den }
  /** f > w/h */
  predicate Above(f: Fraction, w: nat, h: nat) { w * f.den < f.num * h }
  /** f = w/h */
  predicate Equals(f: Fraction, w: nat, h: nat) { w * f.den == f.num * h }

  /** p/q <= a/b, by cross-multiplying. */
  predicate AtMost(p: nat, q: nat, a: nat, b: nat) { p * b <= a * q }
  /** p/q >= a/b, by cross-multiplying. */
  predicate AtLeast(p: nat, q: nat, a: nat, b: nat) { a * q <= p * b }

  /** p/q = w/h. */
  predicate WritesAs(w: nat, h: nat, p: nat, q: nat)
  {
    w * q == p * h
  }

  lemma Trichotomy(f: Fraction, w: nat, h: nat)
    ensures Below(f, w, h) || Equals(f, w, h) || Above(f, w, h)
  {}

  /** Two bounds that are neighbours in the Stern–Brocot tree. */
  predicate Neighbours(lo: Fraction, hi: Fraction)
  {
    hi.num * lo.den == lo.num * hi.den + 1
  }

  // ---------------------------------------------------------------------
  // Arithmetic steps the solver does not take on its own

  lemma MulLe(x: nat, y: nat, k: nat)
    requires x <= y
    ensures x * k <= y * k
  {}

  lemma MulLt(x: nat, y: nat, k: nat)
    requires x < y && k > 0
    ensures x * k < y * k
  {}

  lemma CancelLt(x: nat, y: nat, k: nat)
    requires x * k < y * k
    ensures x < y
  {
    if x >= y { MulLe(y, x, k); }
  }

  lemma CancelLe(x: nat, y: nat, k: nat)
    requires x * k <= y * k && k > 0
    ensures x <= y
  {
    if x > y { MulLt(y, x, k); }
  }

  /** p/q <= a/b < c/d gives p/q < c/d. */
  lemma LeLtTrans(p: nat, q: nat, a: nat, b: nat, c: nat, d: nat)
    requires q > 0 && b > 0
    requires p * b <= a * q && a * d < c * b
    ensures p * d < c * q
  {
    MulLe(p * b, a * q, d);
    MulLt(a * d, c * b, q);
    assert p * b * d <= a * q * d;
    assert a * q * d == a * d * q;
    assert c * b * q == c * q * b;
    assert p * d * b == p * b * d;
    CancelLt(p * d, c * q, b);
  }

  /** a/b < p/q <= c/d gives a/b < c/d... in the form the search needs. */
  lemma LtLeTrans(a: nat, b: nat, p: nat, q: nat, c: nat, d: nat)
    requires q > 0 && d > 0
    requires a * q < p * b && p * d <= c * q
    ensures a * d < c * b
  {
    MulLt(a * q, p * b, d);
    MulLe(p * d, c * q, b);
    assert a * q * d == a * d * q;
    assert p * b * d == p * d * b;
    assert c * q * b == c * b * q;
    CancelLt(a * d, c * b, q);
  }

  /** Every fraction strictly between two neighbours has a denominator at
      least the sum of theirs (the Stern–Brocot property). */
  lemma BetweenNeighbours(lo: Fraction, hi: Fraction, p: nat, q: nat)
    requires Neighbours(lo, hi)
    requires lo.num * q < p * lo.den && p * hi.den < hi.num * q
    ensures q >= lo.den + hi.den
  {
    var x := p * lo.den - lo.num * q;
    var y := hi.num * q - p * hi.den;
    assert x >= 1 && y >= 1;
    calc {
      lo.den * y + hi.den * x;
      lo.den * hi.num * q - lo.den * p * hi.den + hi.den * p * lo.den - hi.den * lo.num * q;
      q * (hi.num * lo.den - lo.num * hi.den);
      q;
    }
    MulLe(1, y, lo.den);
    MulLe(1, x, hi.den);
  }

  lemma MediantNeighbours(lo: Fraction, hi: Fraction)
    requires Neighbours(lo, hi)
    ensures Neighbours(Mediant(lo, hi), hi) && Neighbours(lo, Mediant(lo, hi))
  {
    var m := Mediant(lo, hi);
    assert hi.num * m.den == hi.num * lo.den + hi.num * hi.den;
    assert m.num * hi.den == lo.num * hi.den + hi.num * hi.den;
    assert m.num * lo.den == lo.num * lo.den + hi.num * lo.den;
    assert lo.num * m.den == lo.num * lo.den + lo.num * hi.den;
  }

  /** When the two bounds bracket w/h and their mediant needs a denominator
      above `lim`, nothing with denominator at most `lim` equals w/h, the lower
      bound is the largest such fraction at most w/h and the upper bound the
      smallest one at least w/h. */
  lemma Exhausted(lo: Fraction, hi: Fraction, w: nat, h: nat, lim: nat)
    requires h > 0 && lo.den > 0
    requires Neighbours(lo, hi) && Below(lo, w, h) && Above(hi, w, h)
    requires lo.den + hi.den > lim
    ensures forall p: nat, q: nat :: 1 <= q <= lim ==> !WritesAs(w, h, p, q)
    ensures forall p: nat, q: nat :: 1 <= q <= lim && AtMost(p, q, w, h) ==> AtMost(p, q, lo.num, lo.den)
    ensures forall p: nat, q: nat :: 1 <= q <= lim && AtLeast(p, q, w, h) ==> AtLeast(p, q, hi.num, hi.den)
  {
    forall p: nat, q: nat | 1 <= q <= lim ensures !WritesAs(w, h, p, q) {
      if WritesAs(w, h, p, q) {
        Strictly(lo, hi, w, h, p, q);
      }
    }
    forall p: nat, q: nat | 1 <= q <= lim && AtMost(p, q, w, h)
      ensures AtMost(p, q, lo.num, lo.den)
    {
      if !AtMost(p, q, lo.num, lo.den) {
        // lo < p/q <= w/h < hi
        LeLtTrans(p, q, w, h, hi.num, hi.den);
        BetweenNeighbours(lo, hi, p, q);
      }
    }
    forall p: nat, q: nat | 1 <= q <= lim && AtLeast(p, q, w, h)
      ensures AtLeast(p, q, hi.num, hi.den)
    {
      if !AtLeast(p, q, hi.num, hi.den) {
        // lo < w/h <= p/q < hi
        LtLeTrans(lo.num, lo.den, w, h, p, q);
        BetweenNeighbours(lo, hi, p, q);
      }
    }
  }

  /** A fraction equal to w/h lies strictly between bounds that bracket w/h. */
  lemma Strictly(lo: Fraction, hi: Fraction, w: nat, h: nat, p: nat, q: nat)
    requires h > 0 && q > 0 && lo.den > 0
    requires Neighbours(lo, hi) && Below(lo, w, h) && Above(hi, w, h)
    requires WritesAs(w, h, p, q)
    ensures q >= lo.den + hi.den
  {
    LtLeTrans(lo.num, lo.den, w, h, p, q);
    LeLtTrans(p, q, w, h, hi.num, hi.den);
    BetweenNeighbours(lo, hi, p, q);
  }

  /** No denominator below the mediant's writes w/h when the bounds bracket it. */
  lemma SmallestDenominator(lo: Fraction, hi: Fraction, w: nat, h: nat)
    requires h > 0 && lo.den > 0
    requires Neighbours(lo, hi) && Below(lo, w, h) && Above(hi, w, h)
    ensures forall p: nat, q: nat :: 1 <= q < lo.den + hi.den ==> !WritesAs(w, h, p, q)
  {
    forall p: nat, q: nat | 1 <= q < lo.den + hi.den ensures !WritesAs(w, h, p, q) {
      if WritesAs(w, h, p, q) {
        Strictly(lo, hi, w, h, p, q);
      }
    }
  }

  // ---------------------------------------------------------------------
  // getAspectRatio

  /** How the search picks its result from its final bounds. */
  predicate Picked(lo: Fraction, hi: Fraction, w: nat, h: nat, lim: nat, r: Fraction)
  {
    var m := Mediant(lo, hi);
    if Equals(m, w, h) && m.den <= lim then r == m
    else if Equals(m, w, h) then r == (if lo.den < hi.den then lo else hi)
    else m.den > lim && r == (if Below(m, w, h) then hi else lo)
  }

  /** What the picked result means for w/h. */
  lemma SearchOutcome(lo: Fraction, hi: Fraction, w: nat, h: nat, lim: nat, r: Fraction)
    requires h > 0 && 1 <= lo.den <= lim && hi.den <= lim
    requires Neighbours(lo, hi) && Below(lo, w, h) && Above(hi, w, h)
    requires Picked(lo, hi, w, h, lim, r)
    ensures 1 <= r.den <= lim
    ensures Equals(r, w, h) <==> exists p: nat, q: nat :: 1 <= q <= lim && WritesAs(w, h, p, q)
    ensures Equals(r, w, h) ==> forall p: nat, q: nat :: 1 <= q < r.den ==> !WritesAs(w, h, p, q)
    ensures Below(r, w, h) ==>
      forall p: nat, q: nat :: 1 <= q <= lim && AtMost(p, q, w, h) ==> AtMost(p, q, r.num, r.den)
    ensures Above(r, w, h) ==>
      forall p: nat, q: nat :: 1 <= q <= lim && AtLeast(p, q, w, h) ==> AtLeast(p, q, r.num, r.den)
  {
    var m := Mediant(lo, hi);
    if Equals(m, w, h) && m.den <= lim {
      SmallestDenominator(lo, hi, w, h);
      assert WritesAs(w, h, m.num, m.den);
    } else {
      Exhausted(lo, hi, w, h, lim);
    }
  }

  /** AspectRatio (src/utils.ts:273-299): the Stern–Brocot search for w/h
      between 0/1 and 1/0 with denominators capped at `lim`. The test
      `val * mediant[1] > mediant[0]` on the double `val = w / h` is
      Below(mediant, w, h) here, and `==` is Equals. The ghost results are the
      two bounds the search ended with. */
  method AspectRatio(w: nat, h: nat, lim: nat) returns (r: Fraction, ghost lower: Fraction, ghost upper: Fraction)
    requires w > 0 && h > 0 && lim >= 1
    ensures 1 <= r.den <= lim
    // the result equals w/h exactly when some denominator up to lim can write w/h,
    // and then it is written with the smallest such denominator
    ensures Equals(r, w, h) <==> exists p: nat, q: nat :: 1 <= q <= lim && WritesAs(w, h, p, q)
    ensures Equals(r, w, h) ==> forall p: nat, q: nat :: 1 <= q < r.den ==> !WritesAs(w, h, p, q)
    // otherwise it is the closest fraction from its side
    ensures Below(r, w, h) ==>
      forall p: nat, q: nat :: 1 <= q <= lim && AtMost(p, q, w, h) ==> AtMost(p, q, r.num, r.den)
    ensures Above(r, w, h) ==>
      forall p: nat, q: nat :: 1 <= q <= lim && AtLeast(p, q, w, h) ==> AtLeast(p, q, r.num, r.den)
    // and it is picked from two neighbouring bounds around w/h
    ensures Neighbours(lower, upper) && Below(lower, w, h) && Above(upper, w, h)
    ensures lower.den <= lim && upper.den <= lim
    ensures Picked(lower, upper, w, h, lim, r)
  {
    var lo, hi := Fraction(0, 1), Fraction(1, 0);
    assert Above(hi, w, h);
    while true
      invariant Bracket(lo, hi, w, h, lim)
      decreases Measure(lo, hi, w, lim)
    {
      var mediant := Mediant(lo, hi);
      Trichotomy(mediant, w, h);
      if Below(mediant, w, h) {
        if lim < mediant.den {
          r, lower, upper := hi, lo, hi;
          SearchOutcome(lo, hi, w, h, lim, r);
          return;
        }
        RaiseLower(lo, hi, w, h, lim);
        lo := mediant;
      } else if Equals(mediant, w, h) {
        if lim >= mediant.den {
          r, lower, upper := mediant, lo, hi;
        } else if lo.den < hi.den {
          r, lower, upper := lo, lo, hi;
        } else {
          r, lower, upper := hi, lo, hi;
        }
        SearchOutcome(lo, hi, w, h, lim, r);
        return;
      } else {
        if lim < mediant.den {
          r, lower, upper := lo, lo, hi;
          SearchOutcome(lo, hi, w, h, lim, r);
          return;
        }
        LowerUpper(lo, hi, w, h, lim);
        hi := mediant;
      }
    }
  }

  /** The loop invariant of the search: neighbouring bounds around w/h,
      with 1/0 standing for "no upper bound yet". */
  predicate Bracket(lo: Fraction, hi: Fraction, w: nat, h: nat, lim: nat)
  {
    && Neighbours(lo, hi) && Below(lo, w, h) && Above(hi, w, h)
    && 1 <= lo.den <= lim && hi.den <= lim
    && (hi.den == 0 ==> hi == Fraction(1, 0) && lo.den == 1 && lo.num < w)
  }

  function Measure(lo: Fraction, hi: Fraction, w: nat, lim: nat): int
  {
    if hi.den == 0 then 2 * lim + w - lo.num else 2 * lim - lo.den - hi.den
  }

  /** Moving the lower bound up to the mediant keeps the invariant and
      shrinks the measure. */
  lemma RaiseLower(lo: Fraction, hi: Fraction, w: nat, h: nat, lim: nat)
    requires Bracket(lo, hi, w, h, lim)
    requires Below(Mediant(lo, hi), w, h) && Mediant(lo, hi).den <= lim
    ensures Bracket(Mediant(lo, hi), hi, w, h, lim)
    ensures 0 <= Measure(Mediant(lo, hi), hi, w, lim) < Measure(lo, hi, w, lim)
  {
    var m := Mediant(lo, hi);
    MediantNeighbours(lo, hi);
    if hi.den == 0 {
      MulLe(1, h, m.num);
    }
  }

  /** Moving the upper bound down to the mediant likewise. */
  lemma LowerUpper(lo: Fraction, hi: Fraction, w: nat, h: nat, lim: nat)
    requires Bracket(lo, hi, w, h, lim)
    requires Above(Mediant(lo, hi), w, h) && Mediant(lo, hi).den <= lim
    ensures Bracket(lo, Mediant(lo, hi), w, h, lim)
    ensures 0 <= Measure(lo, Mediant(lo, hi), w, lim) < Measure(lo, hi, w, lim)
  {
    MediantNeighbours(lo, hi);
  }

  /** The "w:h" text getAspectRatio builds from a fraction. */
  function FormatRatio(f: Fraction): string
  {
    NatToString(f.num) + ":" + NatToString(f.den)
  }

  /** The largest denominator getAspectRatio allows. */
  const AspectLimit: nat := 21

  /** getAspectRatio (src/utils.ts:270-272): the search with denominators up to 21, as "w:h". */
  method GetAspectRatio(w: nat, h: nat) returns (s: string, r: Fraction)
    requires w > 0 && h > 0
    ensures s == FormatRatio(r) && 1 <= r.den <= AspectLimit
    ensures Equals(r, w, h) <==> exists p: nat, q: nat :: 1 <= q <= AspectLimit && WritesAs(w, h, p, q)
    ensures Equals(r, w, h) ==> forall p: nat, q: nat :: 1 <= q < r.den ==> !WritesAs(w, h, p, q)
    ensures Below(r, w, h) ==>
      forall p: nat, q: nat :: 1 <= q <= AspectLimit && AtMost(p, q, w, h) ==> AtMost(p, q, r.num, r.den)
    ensures Above(r, w, h) ==>
      forall p: nat, q: nat :: 1 <= q <= AspectLimit && AtLeast(p, q, w, h) ==> AtLeast(p, q, r.num, r.den)
  {
    var f, lo, hi := AspectRatio(w, h, AspectLimit);
    r := f;
    s := NatToString(f.num) + ":" + NatToString(f.den);
  }

  // ---------------------------------------------------------------------
  // getDimension

  /** q is n / d rounded to the nearest whole number, halves rounding up. */
  predicate Rounded(q: nat, n: nat, d: nat)
  {
    q * (2 * d) <= 2 * n + d < (q + 1) * (2 * d)
  }

  /** Math.round(n / d) for n, d >= 0: halves round up. */
  function RoundDiv(n: nat, d: nat): (q: nat)
    requires d > 0
    ensures Rounded(q, n, d)
  {
    var q := (2 * n + d) / (2 * d);
    assert 2 * n + d == q * (2 * d) + (2 * n + d) % (2 * d);
    q
  }

  /** A rounded quotient is pinned down by the two bounds of RoundDiv. */
  lemma RoundDivUnique(n: nat, d: nat, q: nat)
    requires d > 0 && Rounded(q, n, d)
    ensures RoundDiv(n, d) == q
  {
    var r := RoundDiv(n, d);
    CancelLt(r, q + 1, 2 * d);
    CancelLt(q, r + 1, 2 * d);
  }

  /** The numerator and denominator of getDimension's factor: the aspect-ratio
      parts when a ratio text is given, the original sides otherwise; None when
      a part is not a number. */
  function DimensionFactor(orgWidth: nat, orgHeight: nat, returnHeight: bool, aspectRatio: string): Option<(nat, nat)>
  {
    if aspectRatio != "" then
      var parts := Split(aspectRatio, ':');
      if |parts| < 2 then None
      else
        var w := ToNumber(parts[0]);
        var h := ToNumber(parts[1]);
        if w.None? || h.None? then None
        else if returnHeight then Some((h.value, w.value)) else Some((w.value, h.value))
    else if returnHeight then Some((orgHeight, orgWidth))
    else Some((orgWidth, orgHeight))
  }

  /** getDimension (src/utils.ts:312-338): round(left / right * desired);
      None stands for the NaN or Infinity the source computes when a ratio
      part is not a number or the divisor is zero. */
  function GetDimension(orgWidth: nat, orgHeight: nat, desired: nat, returnHeight: bool, aspectRatio: string): (r: Option<nat>)
    ensures var f := DimensionFactor(orgWidth, orgHeight, returnHeight, aspectRatio);
      && (r.Some? <==> f.Some? && f.value.1 > 0)
      && (r.Some? ==> Rounded(r.value, f.value.0 * desired, f.value.1))
  {
    Scaled(DimensionFactor(orgWidth, orgHeight, returnHeight, aspectRatio), desired)
  }

  /** `left / right * desired`, rounded; None for a missing factor or a zero divisor. */
  function Scaled(f: Option<(nat, nat)>, desired: nat): (r: Option<nat>)
    ensures r.Some? <==> f.Some? && f.value.1 > 0
    ensures r.Some? ==> Rounded(r.value, f.value.0 * desired, f.value.1)
  {
    if f.None? || f.value.1 == 0 then None
    else Some(RoundDiv(f.value.0 * desired, f.value.1))
  }

  /** The missing side of an image with known positive sides, as createImage asks for it. */
  function InferDimension(orgWidth: nat, orgHeight: nat, desired: nat, returnHeight: bool): (r: nat)
    requires orgWidth > 0 && orgHeight > 0
    ensures GetDimension(orgWidth, orgHeight, desired, returnHeight, "") == Some(r)
  {
    if returnHeight then RoundDiv(orgHeight * desired, orgWidth) else RoundDiv(orgWidth * desired, orgHeight)
  }

  /** Asking for the height of the original width gives the original height, and the other way round. */
  lemma InferOriginal(w: nat, h: nat)
    requires w > 0 && h > 0
    ensures InferDimension(w, h, w, true) == h
    ensures InferDimension(w, h, h, false) == w
  {
    RoundDivUnique(h * w, w, h);
    RoundDivUnique(w * h, h, w);
  }

  /** A given "w:h" text takes the place of the original sides. */
  lemma DimensionFromRatio(orgWidth: nat, orgHeight: nat, desired: nat, f: Fraction)
    requires f.num > 0
    ensures GetDimension(orgWidth, orgHeight, desired, true, FormatRatio(f)) == Some(RoundDiv(f.den * desired, f.num))
  {
    var a, b := NatToString(f.num), NatToString(f.den);
    assert ':' !in a && ':' !in b by {
      assert AllDigits(a) && AllDigits(b);
      assert !IsDigit(':');
    }
    assert FormatRatio(f) == Join([a, b], ":");
    SplitJoin([a, b], ':');
    ToNumberOfNatToString(f.num);
    ToNumberOfNatToString(f.den);
    assert DimensionFactor(orgWidth, orgHeight, true, FormatRatio(f)) == Some((f.den, f.num));
  }

  /** Inferring the height from a width and then the width back from that
      height lands within (w + h) / (2h) of where it started. */
  lemma InferRoundTrip(w: nat, h: nat, t: nat)
    requires w > 0 && h > 0
    ensures var back := InferDimension(w, h, InferDimension(w, h, t, true), false);
      -(w + h) <= 2 * h * (t - back) <= w + h
  {
    var y := InferDimension(w, h, t, true);
    var back := InferDimension(w, h, y, false);
    Doubled(y, w);
    Doubled(back, h);
    assert 2 * h * (t - back) == 2 * (h * t) - 2 * (h * back);
  }

  lemma Doubled(q: nat, d: nat)
    ensures q * (2 * d) == 2 * (d * q) && (q + 1) * (2 * d) == 2 * (d * q) + 2 * d
  {}

  /** x·k <= y·k with k > 0 gives x <= y, on integers of either sign. */
  lemma CancelLeInt(x: int, y: int, k: nat)
    requires k > 0 && x * k <= y * k
    ensures x <= y
  {
    if x > y {
      MulLe(1, x - y, k);
    }
  }

  /** So the round trip is within one pixel when the image is not wider than tall. */
  lemma InferRoundTripPortrait(w: nat, h: nat, t: nat)
    requires 0 < w <= h
    ensures var back := InferDimension(w, h, InferDimension(w, h, t, true), false);
      -1 <= t - back <= 1
  {
    InferRoundTrip(w, h, t);
    var back := InferDimension(w, h, InferDimension(w, h, t, true), false);
    var e := t - back;
    assert e * (2 * h) == 2 * h * e;
    CancelLeInt(e, 1, 2 * h);
    CancelLeInt(-1, e, 2 * h);
  }

  /** A wide image drifts: 500 wide on a 1000×1 image becomes 1 high, ... */
  lemma InferWideThere()
    ensures InferDimension(1000, 1, 500, true) == 1
  {
    assert RoundDiv(500, 1000) == 1;
  }

  /** ... and 1 high becomes 1000 wide again. */
  lemma InferWideBack()
    ensures InferDimension(1000, 1, 1, false) == 1000
  {
    assert RoundDiv(1000, 1) == 1000;
  }

  /** The inferred height is 0 exactly when the requested width is under
      half a pixel's worth of height: 2·h·t < w. On a 1000×1 image any
      width below 500 gives height 0. */
  lemma {:induction false} InferVanishes(w: nat, h: nat, t: nat)
    requires w > 0 && h > 0
    ensures InferDimension(w, h, t, true) == 0 <==> 2 * (h * t) < w
  {
    var q := InferDimension(w, h, t, true);
    assert Rounded(q, h * t, w);
    if q > 0 {
      MulLe(1, q, 2 * w);
    }
  }

  /** Rounding keeps the order of the numerators. */
  lemma RoundDivMonotone(m: nat, n: nat, d: nat)
    requires d > 0 && m <= n
    ensures RoundDiv(m, d) <= RoundDiv(n, d)
  {
    var x, y := RoundDiv(m, d), RoundDiv(n, d);
    CancelLt(x, y + 1, 2 * d);
  }

  /** A larger requested side never gives a smaller inferred side. */
  lemma InferMonotone(w: nat, h: nat, a: nat, b: nat, returnHeight: bool)
    requires w > 0 && h > 0 && a <= b
    ensures InferDimension(w, h, a, returnHeight) <= InferDimension(w, h, b, returnHeight)
  {
    var num, den := if returnHeight then h else w, if returnHeight then w else h;
    MulLe(a, b, num);
    assert num * a == a * num && num * b == b * num;
    RoundDivMonotone(num * a, num * b, den);
  }

  // ---------------------------------------------------------------------
  // defaultSize

  datatype Side = Width | Height

  /** The steps of defaultSize, written out: inc, 2·inc, ... strictly below
      `small`, then `small` itself unless it is a multiple of inc. */
  function StepSizes(small: nat, inc: nat): seq<nat>
    requires small > 0 && inc > 0
  {
    var k := (small - 1) / inc;
    seq(k, i requires 0 <= i < k => (i + 1) * inc) + (if small % inc == 0 then [] else [small])
  }

  lemma DivBetween(n: nat, d: nat, q: nat)
    requires d > 0 && q * d <= n < (q + 1) * d
    ensures n / d == q && n % d == n - q * d
  {
    var q' := n / d;
    assert n == q' * d + n % d;
    if q' < q { MulLe(q' + 1, q, d); }
    if q' > q { MulLe(q + 1, q', d); }
  }

  /** defaultSize (src/utils.ts:194-223): steps along the smaller side. The
      `else` branch at lines 211-218 is unreachable, since the loop condition
      is the branch condition, and is not modelled. */
  method DefaultSize(width: nat, height: nat, inc: nat) returns (key: Side, sizes: seq<nat>)
    requires width > 0 && height > 0 && inc > 0
    ensures key == (if width <= height then Width else Height)
    ensures sizes == StepSizes(if width <= height then width else height, inc)
  {
    var size := inc;
    sizes := [];
    var small := if width <= height then width else height;
    key := if width <= height then Width else Height;
    while size < small
      invariant size == (|sizes| + 1) * inc
      invariant |sizes| * inc < small
      invariant forall i :: 0 <= i < |sizes| ==> sizes[i] == (i + 1) * inc
      decreases small - size
    {
      sizes := sizes + [size];
      size := size + inc;
    }
    var k := |sizes|;
    DivBetween(small - 1, inc, k);
    if size != small {
      DivBetween(small, inc, k);
      sizes := sizes + [small];
    } else {
      assert small == (k + 1) * inc;
      assert small % inc == 0 by { DivBetween(small, inc, k + 1); }
    }
  }

  /** The steps increase strictly, start above zero and never pass the smaller side. */
  lemma StepSizesIncreasing(small: nat, inc: nat)
    requires small > 0 && inc > 0
    ensures var s := StepSizes(small, inc);
      (forall i, j :: 0 <= i < j < |s| ==> s[i] < s[j]) && (forall i :: 0 <= i < |s| ==> 0 < s[i] <= small)
  {
    var s := StepSizes(small, inc);
    var k := (small - 1) / inc;
    assert k * inc <= small - 1 by {
      assert small - 1 == k * inc + (small - 1) % inc;
    }
    forall i | 0 <= i < |s| ensures 0 < s[i] <= small {
      if i < k {
        assert s[i] == (i + 1) * inc;
        MulLe(i + 1, k, inc);
        MulLe(1, i + 1, inc);
      }
    }
    forall i, j | 0 <= i < j < |s| ensures s[i] < s[j] {
      assert s[i] == (i + 1) * inc;
      if j < k {
        assert s[j] == (j + 1) * inc;
        MulLt(i + 1, j + 1, inc);
      } else {
        MulLe(i + 1, k, inc);
      }
    }
  }

  /** The smaller side ends the list exactly when it is not a multiple of the step. */
  lemma StepSizesLast(small: nat, inc: nat)
    requires small > 0 && inc > 0
    ensures var s := StepSizes(small, inc);
      (small % inc != 0 <==> |s| > 0 && s[|s| - 1] == small)
  {
    var s := StepSizes(small, inc);
    var k := (small - 1) / inc;
    if small % inc == 0 && k > 0 {
      assert small - 1 == k * inc + (small - 1) % inc;
      assert s[|s| - 1] == k * inc;
    }
  }

  /** A step larger than the smaller side gives that side alone; an equal step gives nothing. */
  lemma StepSizesDegenerate(small: nat, inc: nat)
    requires small > 0 && inc > 0
    ensures inc > small ==> StepSizes(small, inc) == [small]
    ensures inc == small ==> StepSizes(small, inc) == []
  {
    if inc > small {
      DivBetween(small - 1, inc, 0);
      DivBetween(small, inc, 0);
    }
    if inc == small {
      DivBetween(small - 1, inc, 0);
      DivBetween(small, inc, 1);
    }
  }
}
