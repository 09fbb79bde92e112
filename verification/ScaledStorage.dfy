/** Scaled-integer storage of decimals (backend/app/core/money.py): NUMERIC(precision, scale) on one
    engine, a 64-bit integer of value x 10^scale on the other. Decimals are exact reals. */
module ScaledStorage {
  import opened Allocation

  const MONEY_SCALE := 6
  const MONEY_PRECISION := 18
  const RATE_SCALE := 10
  const RATE_PRECISION := 20
  const MAX_INT64 := 0x7FFF_FFFF_FFFF_FFFF

  function Pow10(n: nat): (p: int)
    ensures p >= 1
  {
    if n == 0 then 1 else 10 * Pow10(n - 1)
  }

  /** The value counted in units of 10^-scale. */
  function InUnits(value: real, scale: nat): real {
    value * Pow10(scale) as real
  }

  /** process_bind_param on the integer engine. */
  function Bind(value: real, scale: nat): int {
    RoundHalfUp(InUnits(value, scale))
  }

  /** process_result_value on the integer engine. */
  function Load(stored: int, scale: nat): real {
    stored as real / Pow10(scale) as real
  }

  /** Carries at most `scale` fractional digits. */
  predicate InScale(value: real, scale: nat) {
    Whole(InUnits(value, scale))
  }

  /** Representable as NUMERIC(precision, scale). */
  predicate FitsNumeric(value: real, precision: nat, scale: nat) {
    && InScale(value, scale)
    && -(Pow10(precision) as real) < InUnits(value, scale) < Pow10(precision) as real
  }

  predicate FitsInt64(stored: int) {
    -MAX_INT64 - 1 <= stored <= MAX_INT64
  }

  lemma InUnitsOrder(x: real, y: real, scale: nat)
    ensures InUnits(x, scale) < InUnits(y, scale) <==> x < y
    ensures InUnits(x, scale) == InUnits(y, scale) <==> x == y
  {
    var p := Pow10(scale) as real;
    if x < y { assert (y - x) * p > 0.0; }
    if x > y { assert (x - y) * p > 0.0; }
  }

  lemma InUnitsAdds(x: real, y: real, scale: nat)
    ensures InUnits(x + y, scale) == InUnits(x, scale) + InUnits(y, scale)
    ensures InUnits(x - y, scale) == InUnits(x, scale) - InUnits(y, scale)
    ensures InUnits(0.0, scale) == 0.0
  {
    var p := Pow10(scale) as real;
    assert (x + y) * p == x * p + y * p && (x - y) * p == x * p - y * p && 0.0 * p == 0.0;
  }

  lemma InUnitsOfLoad(stored: int, scale: nat)
    ensures InUnits(Load(stored, scale), scale) == stored as real
  {
    var p, k := Pow10(scale) as real, stored as real;
    assert k / p * p == k;
  }

  lemma WholeInt(k: int)
    ensures Whole(k as real)
  {
  }

  lemma WholeAdd(a: real, b: real)
    requires Whole(a) && Whole(b)
    ensures Whole(a + b) && RoundHalfUp(a + b) == RoundHalfUp(a) + RoundHalfUp(b)
  {
    WholeInt(a.Floor + b.Floor);
    RoundHalfUpNear(a);
    RoundHalfUpNear(b);
    RoundHalfUpNear(a + b);
  }

  /** What is stored is the in-scale value nearest the input, and a read returns the value written
      exactly when it was within scale. */
  lemma RoundTrip(value: real, scale: nat)
    ensures InScale(Load(Bind(value, scale), scale), scale)
    ensures Load(Bind(value, scale), scale) == value <==> InScale(value, scale)
    ensures -0.5 <= InUnits(Load(Bind(value, scale), scale) - value, scale) <= 0.5
    ensures forall k: int :: k != Bind(value, scale) ==>
      var x := InUnits(value, scale);
      Distance(x, Bind(value, scale)) < Distance(x, k) ||
      (Distance(x, Bind(value, scale)) == Distance(x, k) && Abs(k) < Abs(Bind(value, scale)))
  {
    forall k: int | k != Bind(value, scale)
      ensures var x := InUnits(value, scale);
        Distance(x, Bind(value, scale)) < Distance(x, k) ||
        (Distance(x, Bind(value, scale)) == Distance(x, k) && Abs(k) < Abs(Bind(value, scale)))
    {
      HalfUpIsNearest(InUnits(value, scale), k);
    }
    var k := Bind(value, scale);
    RoundHalfUpNear(InUnits(value, scale));
    InUnitsOfLoad(k, scale);
    WholeInt(k);
    InUnitsOrder(Load(k, scale), value, scale);
    InUnitsAdds(Load(k, scale), value, scale);
  }

  lemma BindOfInScale(value: real, scale: nat)
    requires InScale(value, scale)
    ensures Bind(value, scale) as real == InUnits(value, scale)
  {
    RoundHalfUpNear(InUnits(value, scale));
  }

  /** Storage preserves order and addition on in-scale values. */
  lemma OrderAndAddition(x: real, y: real, scale: nat)
    requires InScale(x, scale) && InScale(y, scale)
    ensures x < y <==> Bind(x, scale) < Bind(y, scale)
    ensures InScale(x + y, scale) && Bind(x + y, scale) == Bind(x, scale) + Bind(y, scale)
  {
    BindOfInScale(x, scale);
    BindOfInScale(y, scale);
    InUnitsOrder(x, y, scale);
    InUnitsAdds(x, y, scale);
    WholeAdd(InUnits(x, scale), InUnits(y, scale));
  }

  function BindAll(values: seq<real>, scale: nat): seq<int> {
    if values == [] then [] else BindAll(values[..|values| - 1], scale) + [Bind(values[|values| - 1], scale)]
  }

  lemma {:induction false} SumsAgree(values: seq<real>, scale: nat)
    requires forall i :: 0 <= i < |values| ==> InScale(values[i], scale)
    ensures InScale(Sum(values), scale) && Total(BindAll(values, scale)) == Bind(Sum(values), scale)
  {
    if values == [] {
      InUnitsAdds(0.0, 0.0, scale);
    } else {
      var n := |values| - 1;
      SumsAgree(values[..n], scale);
      OrderAndAddition(Sum(values[..n]), values[n], scale);
      assert BindAll(values, scale)[..n] == BindAll(values[..n], scale) by { BindAllLength(values[..n], scale); }
      BindAllLength(values, scale);
    }
  }

  lemma {:induction false} BindAllLength(values: seq<real>, scale: nat)
    ensures |BindAll(values, scale)| == |values|
  {
    if values != [] {
      BindAllLength(values[..|values| - 1], scale);
    }
  }

  /** SUM(debit) - SUM(credit) <> 0 OR SUM(debit) <= 0, on exact decimals. */
  predicate UnbalancedDecimals(debits: seq<real>, credits: seq<real>) {
    Sum(debits) - Sum(credits) != 0.0 || Sum(debits) <= 0.0
  }

  /** The same SQL on scaled integers. */
  predicate UnbalancedIntegers(debits: seq<int>, credits: seq<int>) {
    Total(debits) - Total(credits) != 0 || Total(debits) <= 0
  }

  /** The balance guard gives one verdict on both engines. */
  lemma EnginesAgreeOnBalance(debits: seq<real>, credits: seq<real>, scale: nat)
    requires forall i :: 0 <= i < |debits| ==> InScale(debits[i], scale)
    requires forall i :: 0 <= i < |credits| ==> InScale(credits[i], scale)
    ensures UnbalancedDecimals(debits, credits) <==> UnbalancedIntegers(BindAll(debits, scale), BindAll(credits, scale))
  {
    SumsAgree(debits, scale);
    SumsAgree(credits, scale);
    SameSign(Sum(debits), Sum(credits), scale);
  }

  lemma SameSign(x: real, y: real, scale: nat)
    requires InScale(x, scale) && InScale(y, scale)
    ensures x - y != 0.0 <==> Bind(x, scale) - Bind(y, scale) != 0
    ensures x <= 0.0 <==> Bind(x, scale) <= 0
  {
    BindOfInScale(x, scale);
    BindOfInScale(y, scale);
    InUnitsOrder(x, y, scale);
    InUnitsOrder(0.0, x, scale);
    InUnitsAdds(x, y, scale);
  }

  lemma PowValues()
    ensures Pow10(10) == 10_000_000_000 && Pow10(18) == 1_000_000_000_000_000_000
    ensures Pow10(20) == 100_000_000_000_000_000_000
  {
    assert Pow10(3) == 1_000 && Pow10(6) == 1_000_000 && Pow10(9) == 1_000_000_000;
    assert Pow10(10) == 10 * Pow10(9);
    assert Pow10(12) == 1_000_000_000_000 && Pow10(15) == 1_000_000_000_000_000;
    assert Pow10(18) == 1_000_000_000_000_000_000;
    assert Pow10(20) == 100 * Pow10(18);
  }

  /** Every NUMERIC(18,6) money or quantity value fits a 64-bit integer. */
  lemma MoneyFitsInt64(value: real)
    requires FitsNumeric(value, MONEY_PRECISION, MONEY_SCALE)
    ensures FitsInt64(Bind(value, MONEY_SCALE))
  {
    PowValues();
    BindOfInScale(value, MONEY_SCALE);
  }

  /** A NUMERIC(20,10) rate fits a 64-bit integer exactly between -922337203.6854775808 and
      922337203.6854775807. */
  lemma RateFitsIffSmall(value: real)
    requires FitsNumeric(value, RATE_PRECISION, RATE_SCALE)
    ensures FitsInt64(Bind(value, RATE_SCALE)) <==> -922337203.6854775808 <= value <= 922337203.6854775807
  {
    PowValues();
    BindOfInScale(value, RATE_SCALE);
  }

  /** A legal rate that does not fit. */
  lemma LargeRateOverflows()
    ensures FitsNumeric(1_000_000_000.0, RATE_PRECISION, RATE_SCALE) && !FitsInt64(Bind(1_000_000_000.0, RATE_SCALE))
  {
    PowValues();
    assert InUnits(1_000_000_000.0, RATE_SCALE) == 10_000_000_000_000_000_000 as real;
    WholeInt(10_000_000_000_000_000_000);
    RateFitsIffSmall(1_000_000_000.0);
  }
}
