/** SI normalisation over the reals: the loops end, the scaled value lands in [1, 1000],
    and the quantity is conserved exactly for the prefixes 10^(3k), k >= 0. */
module Normalize {

  function Pow10(e: int): (r: real)
    ensures r > 0.0
    decreases if e < 0 then -e else e
  {
    if e == 0 then 1.0 else if e > 0 then 10.0 * Pow10(e - 1) else Pow10(e + 1) / 10.0
  }

  lemma Pow10Next(e: int)
    ensures Pow10(e + 1) == 10.0 * Pow10(e)
  {
  }

  lemma Associate(a: real, b: real, c: real)
    ensures (a * b) * c == a * (b * c) && (a * b) * c == b * (a * c)
  {
  }

  lemma TenTimes(r: real, p: real, q: real, r10: real, q10: real)
    requires r10 == 10.0 * r && q10 == 10.0 * q
    ensures r == p * q <==> r10 == p * q10
  {
    Associate(10.0, p, q);
  }

  lemma Pow10AddNext(a: int, b: int)
    ensures Pow10(a + b) == Pow10(a) * Pow10(b) <==> Pow10(a + b + 1) == Pow10(a) * Pow10(b + 1)
  {
    hide Pow10;
    Pow10Next(a + b);
    Pow10Next(b);
    TenTimes(Pow10(a + b), Pow10(a), Pow10(b), Pow10(a + b + 1), Pow10(b + 1));
  }

  lemma {:induction false} Pow10Add(a: int, b: int)
    ensures Pow10(a + b) == Pow10(a) * Pow10(b)
    decreases if b < 0 then -b else b
  {
    hide Pow10;
    if b > 0 {
      Pow10Add(a, b - 1);
      Pow10AddNext(a, b - 1);
    } else if b < 0 {
      Pow10Add(a, b + 1);
      Pow10AddNext(a, b);
    } else {
      UnitFactor(Pow10(a));
    }
  }

  lemma UnitFactor(v: real)
    ensures v * Pow10(0) == v
  {
  }

  lemma Pow10Three()
    ensures Pow10(3) == 1000.0 && Pow10(-3) == 0.001
  {
    assert Pow10(1) == 10.0 && Pow10(2) == 100.0;
    assert Pow10(-1) == 0.1 && Pow10(-2) == 0.01;
  }

  /** The exponent of the normalisation factor. The measure shrinks by at least one in each call. */
  function Shift(v: real): (e: int)
    ensures e % 3 == 0
    ensures e < 0 <==> v > 1000.0
    ensures e > 0 <==> 0.0 < v < 1.0
    decreases if v > 1000.0 then v else if 0.0 < v < 1.0 then 2.0 / v else 0.0
  {
    if v <= 0.0 then 0
    else if v > 1000.0 then Shift(v * 0.001) - 3
    else if v < 1.0 then Shift(v * 1000.0) + 3
    else 0
  }

  /** getNormalizationFactor. */
  method GetNormalizationFactor(value: real) returns (factor: real, exponent: int)
    ensures exponent == Shift(value) && factor == Pow10(Shift(value))
  {
    var v, count, scale := value, 0, -3;
    if v <= 0.0 {
      return 1.0, 0;
    }
    if v > 1000.0 {
      while v > 1000.0
        invariant 0.0 < v && Shift(value) == Shift(v) - 3 * count && !(v < 1.0)
        decreases v
      {
        v := v * 0.001;
        count := count + 1;
      }
    } else {
      while v < 1.0
        invariant 0.0 < v <= 1000.0 && Shift(value) == Shift(v) + 3 * count
        decreases 2.0 / v
      {
        v := v * 1000.0;
        count := count + 1;
      }
      scale := 3;
    }
    return Pow10(count * scale), count * scale;
  }

  lemma ShiftOnce(v: real, w: real, step: int, c: real)
    requires c == Pow10(step) && w == v * c && Shift(v) == Shift(w) + step
    ensures v * Pow10(Shift(v)) == w * Pow10(Shift(w))
  {
    hide Pow10, Shift;
    Pow10Add(Shift(w), step);
    Associate(v, c, Pow10(Shift(w)));
    Associate(v, Pow10(Shift(w)), c);
  }

  /** A positive value times its factor lies in [1, 1000], above 1 when scaled down and below 1000 when scaled up. */
  lemma {:induction false} Normalized(v: real)
    requires v > 0.0
    ensures 1.0 <= v * Pow10(Shift(v)) <= 1000.0
    ensures v > 1000.0 ==> 1.0 < v * Pow10(Shift(v))
    ensures v < 1.0 ==> v * Pow10(Shift(v)) < 1000.0
    decreases if v > 1000.0 then v else if v < 1.0 then 2.0 / v else 0.0
  {
    hide Pow10;
    Pow10Three();
    UnitFactor(v);
    if v > 1000.0 {
      var w := v * 0.001;
      Normalized(w);
      ShiftOnce(v, w, -3, 0.001);
    } else if v < 1.0 {
      var w := v * 1000.0;
      Normalized(w);
      ShiftOnce(v, w, 3, 1000.0);
    }
  }

  function Exponent(p: real): (e: int)
    ensures e >= 0 && e % 3 == 0
    decreases if p > 1.0 then 2.0 * p else 0.0
  {
    if p > 1.0 then Exponent(p / 1000.0) + 3 else 0
  }

  /** getExponent. */
  method GetExponent(prefix: real) returns (e: int)
    ensures e == Exponent(prefix)
  {
    var p, count := prefix, 0;
    if p <= 0.0 {
      return 0;
    }
    while p > 1.0
      invariant Exponent(prefix) == Exponent(p) + 3 * count
      decreases 2.0 * p
    {
      p := p / 1000.0;
      count := count + 1;
    }
    return count * 3;
  }

  lemma {:induction false} ExponentOfPrefix(k: nat)
    ensures Exponent(Pow10(3 * k)) == 3 * k
  {
    if k == 0 {
    } else {
      Pow10Three();
      Pow10Add(3 * (k - 1), 3);
      ExponentOfPrefix(k - 1);
      AtLeastOne(k - 1);
    }
  }

  lemma {:induction false} AtLeastOne(k: nat)
    ensures Pow10(3 * k) >= 1.0
  {
    if k == 0 {
    } else {
      Pow10Three();
      Pow10Add(3 * (k - 1), 3);
      AtLeastOne(k - 1);
    }
  }

  /** The exponent of a prefix is that of the least power of a thousand, from 1 on, that is not below it. */
  lemma {:induction false} ExponentIs(p: real)
    ensures p <= Pow10(Exponent(p))
    ensures Exponent(p) > 0 ==> Pow10(Exponent(p) - 3) < p
    decreases if p > 1.0 then 2.0 * p else 0.0
  {
    hide Pow10;
    UnitFactor(1.0);
    if p > 1.0 {
      var e := Exponent(p / 1000.0);
      ExponentIs(p / 1000.0);
      Thousandfold(e);
      Thousandfold(e - 3);
    }
  }

  lemma Thousandfold(e: int)
    ensures Pow10(e + 3) == 1000.0 * Pow10(e)
  {
    Pow10Three();
    Pow10Add(e, 3);
  }

  /** newPrefixFromFactor. */
  method NewPrefixFromFactor(prefix: real, e: int) returns (p: real)
    ensures p == Pow10(Exponent(prefix) - e)
  {
    var x := GetExponent(prefix);
    p := Pow10(x - e);
  }

  /** Normalize, with prefixes as numbers. */
  method Normalize(avg: real, prefix: real) returns (factor: real, newPrefix: real)
    ensures factor == Pow10(Shift(avg)) && newPrefix == NewPrefix(avg, prefix)
  {
    var f, e := GetNormalizationFactor(avg);
    if e != 0 {
      var np := NewPrefixFromFactor(prefix, e);
      return f, np;
    }
    return f, prefix;
  }

  function NewPrefix(avg: real, prefix: real): real {
    if Shift(avg) != 0 then Pow10(Exponent(prefix) - Shift(avg)) else prefix
  }

  /** A scaled value gets the prefix that undoes the scaling from the prefix's own power of a thousand; any other keeps
      its prefix. */
  lemma NewPrefixIs(avg: real, prefix: real)
    ensures 1.0 <= avg <= 1000.0 || avg <= 0.0 ==> NewPrefix(avg, prefix) == prefix
    ensures avg > 1000.0 || 0.0 < avg < 1.0 ==> NewPrefix(avg, prefix) * Pow10(Shift(avg)) == Pow10(Exponent(prefix))
  {
    hide Pow10, Exponent;
    Pow10Add(Exponent(prefix) - Shift(avg), Shift(avg));
  }

  /** The prefixes Normalize can represent: 1, 10^3, 10^6, ... */
  ghost predicate Thousands(prefix: real) {
    exists k: nat :: prefix == Pow10(3 * k)
  }

  lemma ThousandsIff(prefix: real)
    ensures Thousands(prefix) <==> prefix == Pow10(Exponent(prefix))
  {
    if Thousands(prefix) {
      var k: nat :| prefix == Pow10(3 * k);
      ExponentOfPrefix(k);
    }
    if prefix == Pow10(Exponent(prefix)) {
      assert prefix == Pow10(3 * (Exponent(prefix) / 3));
    }
  }

  /** value * prefix is the same quantity after scaling, if and only if the value needed no scaling
      or its prefix is a power of a thousand; with milli, say, it is not. */
  lemma QuantityConserved(v: real, prefix: real)
    requires v > 0.0
    ensures v * prefix == (v * Pow10(Shift(v))) * NewPrefix(v, prefix) <==> Shift(v) == 0 || Thousands(prefix)
  {
    hide Pow10, Shift, Exponent;
    var e, x := Shift(v), Exponent(prefix);
    ThousandsIff(prefix);
    if e != 0 {
      Pow10Add(e, x - e);
      Associate(v, Pow10(e), Pow10(x - e));
      CancelFactor(v, prefix, Pow10(x));
    } else {
      UnitFactor(v);
    }
  }

  lemma CancelFactor(v: real, a: real, b: real)
    requires v > 0.0
    ensures v * a == v * b <==> a == b
  {
    if v * a == v * b {
      assert v * (a - b) == 0.0;
    }
  }

  /** One kilounit of milli is normalised to a unit of the same size as before, but labelled a thousandfold. */
  lemma MilliIsNotConserved()
    ensures Shift(2000.0) == -3 && NewPrefix(2000.0, 0.001) == 1000.0
    ensures 2000.0 * 0.001 != (2000.0 * Pow10(Shift(2000.0))) * NewPrefix(2000.0, 0.001)
  {
    Pow10Three();
    assert Shift(2000.0) == Shift(2.0) - 3;
  }
}
