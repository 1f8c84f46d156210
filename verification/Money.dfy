/** Decimal numbers as the program holds them: a coefficient and a number of decimals, so that
    2.5 and 2.50 are the same amount but not the same text. */
module Money {

  datatype Dec = Dec(units: int, scale: nat)

  function Pow10(k: nat): (p: nat)
    ensures p > 0
  {
    if k == 0 then 1 else 10 * Pow10(k - 1)
  }

  /** The amount a decimal stands for. */
  function Amount(d: Dec): real {
    d.units as real / Pow10(d.scale) as real
  }

  // ---------- rounding ----------

  /** Rounds half away from zero to whole cents, like quantize(0.01, ROUND_HALF_UP). */
  function Quantize(x: real): real {
    if x >= 0.0 then Cents((x * 100.0 + 0.5).Floor) else -Cents((-x * 100.0 + 0.5).Floor)
  }

  function Cents(c: int): real {
    c as real / 100.0
  }

  ghost predicate WholeCents(x: real) {
    exists c :: x == Cents(c)
  }

  lemma QuantizeWithinHalfCent(x: real)
    ensures -0.005 <= Quantize(x) - x <= 0.005
    ensures WholeCents(Quantize(x))
    // halves go away from zero
    ensures if x >= 0.0 then Quantize(x) - x > -0.005 else Quantize(x) - x < 0.005
  {
    if x >= 0.0 {
      var c := (x * 100.0 + 0.5).Floor;
      assert Quantize(x) == Cents(c);
    } else {
      var c := (-x * 100.0 + 0.5).Floor;
      assert Quantize(x) == Cents(-c);
    }
  }

  lemma QuantizeKeepsCents(x: real)
    requires WholeCents(x)
    ensures Quantize(x) == x
  {
    var c :| x == Cents(c);
    if c >= 0 {
      assert (c as real + 0.5).Floor == c;
    } else {
      assert ((-c) as real + 0.5).Floor == -c;
    }
  }

  lemma CentsAdd(x: real, y: real)
    requires WholeCents(x) && WholeCents(y)
    ensures WholeCents(x + y)
  {
    var c, d :| x == Cents(c) && y == Cents(d);
    assert x + y == Cents(c + d);
  }

  lemma AmountSign(d: Dec)
    ensures Amount(d) > 0.0 <==> d.units > 0
  {
    var p := Pow10(d.scale) as real;
    assert Amount(d) * p == d.units as real;
  }

  // ---------- the NUMERIC(14, 4) columns ----------

  const COLUMN_SCALE := 4

  /** What the database hands back: always four decimals, rounded half away from zero. */
  function Stored(d: Dec): (s: Dec)
    ensures s.scale == COLUMN_SCALE
    ensures d.scale == COLUMN_SCALE ==> s == d
    ensures d.scale <= COLUMN_SCALE ==> Amount(s) == Amount(d)
  {
    if d.scale <= COLUMN_SCALE then
      SameAmount(d, COLUMN_SCALE - d.scale);
      Dec(d.units * Pow10(COLUMN_SCALE - d.scale), COLUMN_SCALE)
    else
      var p := Pow10(d.scale - COLUMN_SCALE);
      Dec(if d.units >= 0 then (2 * d.units + p) / (2 * p) else -((-2 * d.units + p) / (2 * p)), COLUMN_SCALE)
  }

  /** A price with more decimals is off by at most half a unit of the fourth one, and halves go away
      from zero. */
  lemma StoredIsNearest(d: Dec)
    requires d.scale > 4
    ensures var p, off := Pow10(d.scale - 4), Stored(d).units * Pow10(d.scale - 4) - d.units;
            if d.units >= 0 then 0 < 2 * off + p <= 2 * p else 0 <= 2 * off + p < 2 * p
  {
    var p := Pow10(d.scale - 4);
    if d.units >= 0 {
      Halves(d.units, p);
    } else {
      Halves(-d.units, p);
      assert -((-2 * d.units + p) / (2 * p)) * p == -((2 * -d.units + p) / (2 * p) * p);
    }
  }

  lemma Halves(n: nat, p: nat)
    requires p > 0
    ensures 0 < 2 * ((2 * n + p) / (2 * p) * p - n) + p <= 2 * p
  {
    var q, r := (2 * n + p) / (2 * p), (2 * n + p) % (2 * p);
    assert q * (2 * p) + r == 2 * n + p;
    assert q * (2 * p) == 2 * (q * p);
  }

  lemma {:induction false} SameAmount(d: Dec, k: nat)
    ensures Amount(Dec(d.units * Pow10(k), d.scale + k)) == Amount(d)
    decreases k
  {
    if k == 0 {
      assert d.units * 1 == d.units;
    } else {
      SameAmount(Dec(10 * d.units, d.scale + 1), k - 1);
      assert d.units * Pow10(k) == (10 * d.units) * Pow10(k - 1);
      OneMoreDecimal(d);
    }
  }

  lemma OneMoreDecimal(d: Dec)
    ensures Amount(Dec(10 * d.units, d.scale + 1)) == Amount(d)
  {
    var u, p := d.units as real, Pow10(d.scale) as real;
    var x := u / p;
    assert x * p == u;
    assert x * (10.0 * p) == 10.0 * (x * p);
    QuotientIs(x, 10.0 * u, 10.0 * p);
  }

  lemma QuotientIs(x: real, n: real, p: real)
    requires p != 0.0 && x * p == n
    ensures n / p == x
  {
  }
}
