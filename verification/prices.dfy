/** Prices as the list pages and the storefront print them: the yuan text
    of an amount, the min-max range over a tier list, and the "¥" label.
    Amounts are whole fen (hundredths of a yuan) instead of JavaScript
    floating-point numbers. */
module Prices {
  import opened Js

  /** An amount in fen. */
  type Cents = nat

  /** The fraction part of `String(c / 100)`: nothing for whole yuan,
      otherwise "." and one or two digits without a trailing zero. */
  function Fraction(f: nat): (s: string)
    requires f < 100
    ensures f == 0 <==> s == ""
    ensures s != "" ==> s[0] == '.' && 2 <= |s| <= 3
  {
    if f == 0 then ""
    else if f % 10 == 0 then "." + [DigitChar(f / 10)]
    else "." + Pad2(f)
  }

  /** `String(c / 100)` for an amount of c fen: the whole yuan in decimal,
      then the fraction. */
  function Yuan(c: Cents): string {
    NatToString(c / 100) + Fraction(c % 100)
  }

  lemma YuanFree(c: Cents)
    ensures Free(Yuan(c), ' ')
  {
    var w := NatToString(c / 100);
    var f := Fraction(c % 100);
    assert Free(w, ' ') by {
      assert forall i :: 0 <= i < |w| ==> DigitValue(w[i], 10).Some?;
    }
    assert Free(f, ' ') by {
      if f != "" {
        var p := f[1..];
        assert AllDigits(p, 10);
        assert forall i :: 0 <= i < |p| ==> DigitValue(p[i], 10).Some?;
        assert forall i :: 1 <= i < |f| ==> f[i] == p[i - 1];
      }
    }
    FreeJoin(w, f, ' ');
  }

  lemma DigitsLackPoint(w: string)
    requires AllDigits(w, 10)
    ensures Free(w, '.')
  {
    assert forall i :: 0 <= i < |w| ==> DigitValue(w[i], 10).Some?;
  }

  lemma FractionInjective(f: nat, g: nat)
    requires f < 100 && g < 100
    requires Fraction(f) == Fraction(g)
    ensures f == g
  {
    if f != 0 && g != 0 {
      if f % 10 == 0 && g % 10 == 0 {
        assert Fraction(f)[1] == DigitChar(f / 10) && Fraction(g)[1] == DigitChar(g / 10);
        assert DigitValue(DigitChar(f / 10), 10) == DigitValue(DigitChar(g / 10), 10);
      } else if f % 10 != 0 && g % 10 != 0 {
        assert Pad2(f) == Fraction(f)[1..] == Fraction(g)[1..] == Pad2(g);
        assert ParseInt(Pad2(f)) == ParseInt(Pad2(g));
      }
    }
  }

  lemma NatToStringInjective(a: nat, b: nat)
    requires NatToString(a) == NatToString(b)
    ensures a == b
  {
    ParseIntOfIntToString(a);
    ParseIntOfIntToString(b);
  }

  /** Different amounts print differently: the yuan text determines the
      amount. */
  lemma YuanInjective(a: Cents, b: Cents)
    requires Yuan(a) == Yuan(b)
    ensures a == b
  {
    var wa, wb := NatToString(a / 100), NatToString(b / 100);
    DigitsLackPoint(wa);
    DigitsLackPoint(wb);
    SplitAtFirst(wa, Fraction(a % 100), wb, Fraction(b % 100), '.');
    NatToStringInjective(a / 100, b / 100);
    FractionInjective(a % 100, b % 100);
  }

  // -----------------------------------------------------------------------
  // Ranges

  /** The prices left after `.filter(p => p != null)`, in order. */
  function Present(ps: seq<Option<Cents>>): (r: seq<Cents>)
    ensures |r| <= |ps|
    ensures forall x :: x in r <==> Some(x) in ps
  {
    if ps == [] then []
    else
      var rest := Present(ps[1..]);
      assert forall x :: Some(x) in ps <==> ps[0] == Some(x) || Some(x) in ps[1..];
      if ps[0].Some? then [ps[0].value] + rest else rest
  }

  function Min(xs: seq<Cents>): (m: Cents)
    requires |xs| > 0
    ensures m in xs && forall i :: 0 <= i < |xs| ==> m <= xs[i]
  {
    if |xs| == 1 then xs[0]
    else
      var m := Min(xs[1..]);
      assert forall i :: 1 <= i < |xs| ==> xs[i] == xs[1..][i - 1];
      if xs[0] <= m then xs[0] else m
  }

  function Max(xs: seq<Cents>): (m: Cents)
    requires |xs| > 0
    ensures m in xs && forall i :: 0 <= i < |xs| ==> xs[i] <= m
  {
    if |xs| == 1 then xs[0]
    else
      var m := Max(xs[1..]);
      assert forall i :: 1 <= i < |xs| ==> xs[i] == xs[1..][i - 1];
      if xs[0] >= m then xs[0] else m
  }

  /** What a price range shows: no price, one price, or a span. */
  datatype Spread = NoPrice | Single(p: Cents) | Between(lo: Cents, hi: Cents)

  /** The spread of the non-null prices: the smallest and the largest, one
      price when they agree, nothing when no price is present. */
  function SpreadOf(ps: seq<Option<Cents>>): (r: Spread)
    ensures r.NoPrice? <==> forall i :: 0 <= i < |ps| ==> ps[i].None?
    ensures r.Single? ==> Some(r.p) in ps && forall i :: 0 <= i < |ps| && ps[i].Some? ==> ps[i].value == r.p
    ensures r.Between? ==> r.lo < r.hi && Some(r.lo) in ps && Some(r.hi) in ps
    ensures r.Between? ==> forall i :: 0 <= i < |ps| && ps[i].Some? ==> r.lo <= ps[i].value <= r.hi
  {
    var xs := Present(ps);
    assert forall i :: 0 <= i < |ps| && ps[i].Some? ==> ps[i].value in xs by {
      forall i | 0 <= i < |ps| && ps[i].Some? ensures ps[i].value in xs {
        assert ps[i] in ps;
      }
    }
    if xs == [] then NoPrice
    else
      var lo, hi := Min(xs), Max(xs);
      if lo == hi then Single(lo) else Between(lo, hi)
  }

  /** `¥${price}` */
  function Priced(c: Cents): string {
    "¥" + Yuan(c)
  }

  /** "¥p" for one price, "¥lo - ¥hi" for a span, "-" for none. */
  function Label(r: Spread): string {
    match r
    case NoPrice => "-"
    case Single(p) => Priced(p)
    case Between(lo, hi) => Priced(lo) + (" - " + Priced(hi))
  }

  /** Distinct spreads get distinct labels, so the label shows exactly
      which prices bound the range. */
  lemma LabelInjective(x: Spread, y: Spread)
    requires Label(x) == Label(y)
    ensures x == y
  {
    if x.NoPrice? || y.NoPrice? {
      assert Label(x)[0] == Label(y)[0];
    } else if x.Single? && y.Single? {
      PricedInjective("", x.p, y.p);
    } else if x.Single? && y.Between? {
      SingleIsNotBetween(x.p, y.lo, y.hi);
    } else if x.Between? && y.Single? {
      SingleIsNotBetween(y.p, x.lo, x.hi);
    } else {
      BetweenInjective(x.lo, x.hi, y.lo, y.hi);
    }
  }

  lemma PricedFree(c: Cents)
    ensures Free(Priced(c), ' ')
  {
    var s := Priced(c);
    YuanFree(c);
    assert forall i :: 1 <= i < |s| ==> s[i] == Yuan(c)[i - 1];
  }

  lemma SingleIsNotBetween(p: Cents, lo: Cents, hi: Cents)
    ensures Label(Single(p)) != Label(Between(lo, hi))
  {
    PricedFree(p);
    PricedFree(lo);
    if Label(Single(p)) == Label(Between(lo, hi)) {
      SplitAtFirst(Priced(p), "", Priced(lo), " - " + Priced(hi), ' ');
    }
  }

  lemma DropPrefix(pre: string, s: string, t: string)
    requires pre + s == pre + t
    ensures s == t
  {
    assert s == (pre + s)[|pre|..];
    assert t == (pre + t)[|pre|..];
  }

  lemma PricedInjective(pre: string, a: Cents, b: Cents)
    requires pre + Priced(a) == pre + Priced(b)
    ensures a == b
  {
    DropPrefix(pre, Priced(a), Priced(b));
    DropPrefix("¥", Yuan(a), Yuan(b));
    YuanInjective(a, b);
  }

  lemma BetweenInjective(lo: Cents, hi: Cents, lo2: Cents, hi2: Cents)
    requires Label(Between(lo, hi)) == Label(Between(lo2, hi2))
    ensures lo == lo2 && hi == hi2
  {
    PricedFree(lo);
    PricedFree(lo2);
    SplitAtFirst(Priced(lo), " - " + Priced(hi), Priced(lo2), " - " + Priced(hi2), ' ');
    PricedInjective("", lo, lo2);
    PricedInjective(" - ", hi, hi2);
  }

  /** The label of a tier list: "-" when the list is missing or empty or
      holds no price. */
  function RangeLabel(prices: Option<seq<Option<Cents>>>): (s: string)
    ensures prices.None? || prices.value == [] ==> s == "-"
    ensures prices.Some? ==> s == Label(SpreadOf(prices.value))
  {
    match prices
    case None => "-"
    case Some(ps) => if ps == [] then "-" else Label(SpreadOf(ps))
  }
}
