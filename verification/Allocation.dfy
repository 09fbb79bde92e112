/** The largest-remainder splitter of backend/app/core/money.py.

    Amounts are counted in the minor unit the call asks for (10^-places), so `places` only chooses
    the unit: a total is quantised exactly when it is a whole number here. Decimals are exact reals. */
module Allocation {

  // ---- Decimal rounding, in minor units --------------------------------------------------

  /** quantize(..., ROUND_DOWN): toward zero. */
  function RoundDown(x: real): int {
    if x >= 0.0 then x.Floor else -(-x).Floor
  }

  /** ROUND_HALF_UP: nearest, ties away from zero. */
  function RoundHalfUp(x: real): int {
    if x >= 0.0 then (x + 0.5).Floor else -(-x + 0.5).Floor
  }

  predicate Whole(x: real) {
    x == x.Floor as real
  }

  function Sum(s: seq<real>): real {
    if s == [] then 0.0 else Sum(s[..|s| - 1]) + s[|s| - 1]
  }

  function Total(s: seq<int>): int {
    if s == [] then 0 else Total(s[..|s| - 1]) + s[|s| - 1]
  }

  // ---- The exact shares -------------------------------------------------------------------

  /** Weights that sum to zero, all zero or not, fall back to equal unit weights. */
  function Effective(weights: seq<real>): seq<real> {
    if Sum(weights) == 0.0 then seq(|weights|, i => 1.0) else weights
  }

  lemma {:induction false} SumOfOnes(n: nat)
    ensures Sum(seq(n, i => 1.0)) == n as real
  {
    if n > 0 {
      assert seq(n, i => 1.0)[..n - 1] == seq(n - 1, i => 1.0);
      SumOfOnes(n - 1);
    }
  }

  lemma EffectiveSum(weights: seq<real>)
    requires weights != []
    ensures |Effective(weights)| == |weights| && Sum(Effective(weights)) != 0.0
  {
    SumOfOnes(|weights|);
  }

  function Share(total: real, weight: real, whole: real): real
    requires whole != 0.0
  {
    total * weight / whole
  }

  function Scaled(total: real, w: seq<real>, whole: real): (s: seq<real>)
    requires whole != 0.0
    ensures |s| == |w| && forall i :: 0 <= i < |w| ==> s[i] == Share(total, w[i], whole)
  {
    seq(|w|, i requires 0 <= i < |w| => Share(total, w[i], whole))
  }

  function Shares(total: real, weights: seq<real>): (s: seq<real>)
    requires weights != []
    ensures |s| == |weights|
  {
    EffectiveSum(weights);
    Scaled(total, Effective(weights), Sum(Effective(weights)))
  }

  /** The exact shares written out: total * weight / sum of weights, or an even split of the total when
      the weights sum to zero. */
  ghost predicate ExactShares(total: real, weights: seq<real>, s: seq<real>) {
    |s| == |weights| && forall i :: 0 <= i < |weights| ==>
      s[i] == if Sum(weights) == 0.0 then total / |weights| as real else total * weights[i] / Sum(weights)
  }

  lemma SharesExact(total: real, weights: seq<real>)
    requires weights != []
    ensures ExactShares(total, weights, Shares(total, weights))
    ensures forall s :: ExactShares(total, weights, s) ==> s == Shares(total, weights)
  {
    EffectiveSum(weights);
    SumOfOnes(|weights|);
  }

  lemma {:induction false} ScaledSum(total: real, w: seq<real>, whole: real)
    requires whole != 0.0
    ensures Sum(Scaled(total, w, whole)) == Share(total, Sum(w), whole)
  {
    if w == [] {
      ShareAdds(total, 0.0, 0.0, whole);
    } else {
      var n := |w| - 1;
      ScaledSum(total, w[..n], whole);
      assert Scaled(total, w, whole)[..n] == Scaled(total, w[..n], whole);
      ShareAdds(total, Sum(w[..n]), w[n], whole);
    }
  }

  lemma ShareAdds(total: real, a: real, b: real, whole: real)
    requires whole != 0.0
    ensures Share(total, a + b, whole) == Share(total, a, whole) + Share(total, b, whole)
    ensures Share(total, whole, whole) == total
  {
    assert total * (a + b) == total * a + total * b;
  }

  lemma SharesSum(total: real, weights: seq<real>)
    requires weights != []
    ensures Sum(Shares(total, weights)) == total
  {
    EffectiveSum(weights);
    ScaledSum(total, Effective(weights), Sum(Effective(weights)));
    ShareAdds(total, 0.0, 0.0, Sum(Effective(weights)));
  }

  // ---- The hand-out order -----------------------------------------------------------------

  function At(r: seq<real>, i: nat): real {
    if i < |r| then r[i] else 0.0
  }

  /** sorted(range(n), key=(remainder, -index), reverse=descending): the keys are distinct. */
  predicate Precedes(r: seq<real>, descending: bool, i: nat, j: nat) {
    if descending then At(r, i) > At(r, j) || (At(r, i) == At(r, j) && i < j)
    else At(r, i) < At(r, j) || (At(r, i) == At(r, j) && i > j)
  }

  function Insert(r: seq<real>, descending: bool, order: seq<nat>, i: nat): (out: seq<nat>)
    ensures |out| == |order| + 1
    ensures forall x: nat :: x in out <==> x == i || x in order
  {
    if order == [] || !Precedes(r, descending, order[0], i) then [i] + order
    else [order[0]] + Insert(r, descending, order[1..], i)
  }

  function Order(r: seq<real>, descending: bool, n: nat): (order: seq<nat>)
    ensures |order| == n
    ensures forall x: nat :: x in order <==> x < n
  {
    if n == 0 then [] else Insert(r, descending, Order(r, descending, n - 1), n - 1)
  }

  ghost predicate Sorted(r: seq<real>, descending: bool, order: seq<nat>) {
    order != [] ==>
      (forall x :: x in order[1..] ==> Precedes(r, descending, order[0], x)) && Sorted(r, descending, order[1..])
  }

  lemma {:induction false} InsertSorted(r: seq<real>, descending: bool, order: seq<nat>, i: nat)
    requires Sorted(r, descending, order) && i !in order
    ensures Sorted(r, descending, Insert(r, descending, order, i))
  {
    var out := Insert(r, descending, order, i);
    if order == [] {
    } else if !Precedes(r, descending, order[0], i) {
      assert out[1..] == order;
      assert order == [order[0]] + order[1..];
    } else {
      InsertSorted(r, descending, order[1..], i);
      assert out[1..] == Insert(r, descending, order[1..], i);
    }
  }

  lemma {:induction false} OrderSorted(r: seq<real>, descending: bool, n: nat)
    ensures Sorted(r, descending, Order(r, descending, n))
  {
    if n > 0 {
      OrderSorted(r, descending, n - 1);
      InsertSorted(r, descending, Order(r, descending, n - 1), n - 1);
    }
  }

  lemma {:induction false} SortedAt(r: seq<real>, descending: bool, order: seq<nat>, a: nat, b: nat)
    requires Sorted(r, descending, order) && a < b < |order|
    ensures Precedes(r, descending, order[a], order[b]) && order[a] != order[b]
  {
    if a == 0 {
      assert order[1..][b - 1] == order[b];
    } else {
      SortedAt(r, descending, order[1..], a - 1, b - 1);
    }
  }

  // ---- The specified result, from the total and its exact shares ------------------------------

  function Floors(s: seq<real>): (f: seq<int>)
    ensures |f| == |s| && forall i :: 0 <= i < |s| ==> f[i] == RoundDown(s[i])
  {
    seq(|s|, i requires 0 <= i < |s| => RoundDown(s[i]))
  }

  function Remainders(s: seq<real>): (r: seq<real>)
    ensures |r| == |s| && forall i :: 0 <= i < |s| ==> r[i] == s[i] - RoundDown(s[i]) as real
  {
    seq(|s|, i requires 0 <= i < |s| => s[i] - RoundDown(s[i]) as real)
  }

  /** Whole minor units still to hand out after rounding every share down. */
  function Units(total: real, s: seq<real>): int {
    RoundHalfUp(total - Total(Floors(s)) as real)
  }

  function Abs(x: int): nat {
    if x < 0 then -x else x
  }

  function Step(units: int): int {
    if units >= 0 then 1 else -1
  }

  /** One extra step for each of order[..count]. */
  function HandOut(floors: seq<int>, order: seq<nat>, count: nat, step: int): (parts: seq<int>)
    requires count <= |order| && forall x :: x in order ==> x < |floors|
    ensures |parts| == |floors|
  {
    if count == 0 then floors else
      var before := HandOut(floors, order, count - 1, step);
      assert order[count - 1] in order;
      before[order[count - 1] := before[order[count - 1]] + step]
  }

  /** What the splitter returns when the exact shares are s. */
  function Rounded(total: real, s: seq<real>): (parts: seq<int>)
    requires s != [] && Sum(s) == total
    ensures |parts| == |s|
  {
    NeverWraps(total, s);
    var units := Units(total, s);
    HandOut(Floors(s), Order(Remainders(s), units >= 0, |s|), Abs(units), Step(units))
  }

  /** What `allocate` returns for a non-empty weight list. */
  function Parts(total: real, weights: seq<real>): (parts: seq<int>)
    requires weights != []
    ensures |parts| == |weights|
  {
    SharesSum(total, weights);
    Rounded(total, Shares(total, weights))
  }

  // ---- Sums -------------------------------------------------------------------------------

  lemma RoundDownNear(x: real)
    ensures -1.0 < x - RoundDown(x) as real < 1.0
  {
  }

  lemma {:induction false} SumDifference(r: seq<real>, s: seq<real>, f: seq<int>)
    requires |r| == |s| == |f| && forall i :: 0 <= i < |s| ==> r[i] == s[i] - f[i] as real
    ensures Sum(r) == Sum(s) - Total(f) as real
  {
    if s != [] {
      var n := |s| - 1;
      SumDifference(r[..n], s[..n], f[..n]);
    }
  }

  lemma {:induction false} SumOfFractions(r: seq<real>)
    requires forall i :: 0 <= i < |r| ==> -1.0 < r[i] < 1.0
    ensures r != [] ==> -(|r| as real) < Sum(r) < |r| as real
  {
    if r != [] {
      SumOfFractions(r[..|r| - 1]);
    }
  }

  /** The remainders add up to what rounding down left over, which is less than n. */
  lemma RemainderSum(s: seq<real>)
    ensures Sum(Remainders(s)) == Sum(s) - Total(Floors(s)) as real
    ensures s != [] ==> -(|s| as real) < Sum(Remainders(s)) < |s| as real
  {
    SumDifference(Remainders(s), s, Floors(s));
    forall i | 0 <= i < |s| ensures -1.0 < Remainders(s)[i] < 1.0 {
      RoundDownNear(s[i]);
    }
    SumOfFractions(Remainders(s));
  }

  /** The hand-out loop's `k % n` never wraps: at most n units are ever left, for any weights. */
  lemma NeverWraps(total: real, s: seq<real>)
    requires s != [] && Sum(s) == total
    ensures Abs(Units(total, s)) <= |s|
  {
    RemainderSum(s);
  }

  lemma {:induction false} TotalUpdate(s: seq<int>, i: nat, v: int)
    requires i < |s|
    ensures Total(s[i := v]) == Total(s) - s[i] + v
  {
    var t := s[i := v];
    if i == |s| - 1 {
      assert t[..|s| - 1] == s[..|s| - 1];
    } else {
      TotalUpdate(s[..|s| - 1], i, v);
      assert t[..|s| - 1] == s[..|s| - 1][i := v];
    }
  }

  lemma {:induction false} HandOutTotal(floors: seq<int>, order: seq<nat>, count: nat, step: int)
    requires count <= |order| && forall x :: x in order ==> x < |floors|
    ensures Total(HandOut(floors, order, count, step)) == Total(floors) + count * step
  {
    if count > 0 {
      HandOutTotal(floors, order, count - 1, step);
      assert order[count - 1] in order;
      var before := HandOut(floors, order, count - 1, step);
      TotalUpdate(before, order[count - 1], before[order[count - 1]] + step);
    }
  }

  lemma RoundHalfUpNear(x: real)
    ensures -0.5 <= RoundHalfUp(x) as real - x <= 0.5
    ensures Whole(x) ==> RoundHalfUp(x) as real == x
  {
    var y := if x >= 0.0 then x + 0.5 else -x + 0.5;
    assert y.Floor as real <= y < y.Floor as real + 1.0;
    if Whole(x) {
      var k := if x >= 0.0 then x.Floor else -x.Floor;
      assert y == k as real + 0.5;
      assert y.Floor == k;
    }
  }

  function Distance(x: real, k: int): real {
    if k as real >= x then k as real - x else x - k as real
  }

  lemma NearestAbove(y: real, r: int, k: int)
    requires y >= 0.0 && r as real <= y + 0.5 < r as real + 1.0
    ensures Distance(y, r) <= Distance(y, k)
    ensures k != r && Distance(y, r) == Distance(y, k) ==> Abs(k) < Abs(r)
  {
    if k > r {
      assert k as real >= r as real + 1.0;
    } else if k < r {
      assert k as real <= r as real - 1.0;
    }
  }

  /** quantize(..., ROUND_HALF_UP): no whole number is nearer, and a tie goes away from zero. */
  lemma HalfUpIsNearest(x: real, k: int)
    ensures Distance(x, RoundHalfUp(x)) <= Distance(x, k)
    ensures k != RoundHalfUp(x) && Distance(x, RoundHalfUp(x)) == Distance(x, k) ==> Abs(k) < Abs(RoundHalfUp(x))
  {
    var y := if x >= 0.0 then x else -x;
    var r := (y + 0.5).Floor;
    NearestAbove(y, r, k);
    NearestAbove(y, r, -k);
    assert Distance(-x, -k) == Distance(x, k) && Distance(x, -r) == Distance(-x, r);
  }

  lemma WholeShift(x: real, k: int)
    ensures Whole(x - k as real) <==> Whole(x)
  {
    assert (x - k as real).Floor == x.Floor - k;
  }

  /** The parts are within half a minor unit of the total, for every total and weight list, and
      reconstitute it exactly if and only if the total is a whole number of minor units. */
  lemma PartsSum(total: real, weights: seq<real>)
    requires weights != []
    ensures -0.5 <= Total(Parts(total, weights)) as real - total <= 0.5
    ensures Total(Parts(total, weights)) as real == total <==> Whole(total)
  {
    SharesSum(total, weights);
    RoundedTotal(total, Shares(total, weights));
    Reconstituted(total, Total(Floors(Shares(total, weights))));
  }

  lemma RoundedTotal(total: real, s: seq<real>)
    requires s != [] && Sum(s) == total
    ensures Total(Rounded(total, s)) == Total(Floors(s)) + Units(total, s)
  {
    var units := Units(total, s);
    NeverWraps(total, s);
    HandOutTotal(Floors(s), OrderOf(total, s), Abs(units), Step(units));
  }

  /** Rounding the residual of a whole amount. */
  lemma Reconstituted(total: real, given: int)
    ensures var sum := given + RoundHalfUp(total - given as real);
      -0.5 <= sum as real - total <= 0.5 && (sum as real == total <==> Whole(total))
  {
    RoundHalfUpNear(total - given as real);
    WholeShift(total, given);
  }

  // ---- Shape of one part ------------------------------------------------------------------

  lemma {:induction false} HandOutAt(floors: seq<int>, order: seq<nat>, count: nat, step: int, a: nat)
    requires count <= |order| && a < |order| && forall x :: x in order ==> x < |floors|
    requires forall b, c :: 0 <= b < c < |order| ==> order[b] != order[c]
    ensures order[a] in order
    ensures HandOut(floors, order, count, step)[order[a]] == floors[order[a]] + if a < count then step else 0
  {
    if count > 0 {
      HandOutAt(floors, order, count - 1, step, a);
    }
  }

  /** The order the splitter hands units out in. */
  function OrderOf(total: real, s: seq<real>): (order: seq<nat>)
    ensures |order| == |s|
  {
    Order(Remainders(s), Units(total, s) >= 0, |s|)
  }

  /** Part i is its floor, plus one step when its rank in the order is below |units|. */
  lemma PartAt(total: real, s: seq<real>, i: nat) returns (rank: nat)
    requires s != [] && Sum(s) == total && i < |s|
    ensures rank < |s| && OrderOf(total, s)[rank] == i
    ensures Rounded(total, s)[i] == RoundDown(s[i]) + if rank < Abs(Units(total, s)) then Step(Units(total, s)) else 0
  {
    NeverWraps(total, s);
    var order := OrderOf(total, s);
    assert i in order;
    rank :| 0 <= rank < |order| && order[rank] == i;
    var r, units := Remainders(s), Units(total, s);
    OrderSorted(r, units >= 0, |s|);
    forall b, c | 0 <= b < c < |order| ensures order[b] != order[c] {
      SortedAt(r, units >= 0, order, b, c);
    }
    HandOutAt(Floors(s), order, Abs(units), Step(units), rank);
  }

  /** Two ranks compare as their remainders do. */
  lemma RankOrder(total: real, s: seq<real>, a: nat, b: nat)
    requires a < b < |s|
    ensures Precedes(Remainders(s), Units(total, s) >= 0, OrderOf(total, s)[a], OrderOf(total, s)[b])
  {
    OrderSorted(Remainders(s), Units(total, s) >= 0, |s|);
    SortedAt(Remainders(s), Units(total, s) >= 0, OrderOf(total, s), a, b);
  }

  // ---- Non-negative weights: all shares have the total's sign ----------------------------------

  ghost predicate NonNegative(w: seq<real>) {
    forall i :: 0 <= i < |w| ==> w[i] >= 0.0
  }

  ghost predicate OneSided(total: real, s: seq<real>) {
    forall i :: 0 <= i < |s| ==> if total >= 0.0 then s[i] >= 0.0 else s[i] <= 0.0
  }

  lemma {:induction false} SumSign(r: seq<real>)
    ensures NonNegative(r) ==> Sum(r) >= 0.0
    ensures (forall i :: 0 <= i < |r| ==> r[i] <= 0.0) ==> Sum(r) <= 0.0
  {
    if r != [] {
      SumSign(r[..|r| - 1]);
    }
  }

  lemma MulSign(a: real, b: real, c: real)
    requires b >= 0.0 && c > 0.0
    ensures a >= 0.0 ==> Share(a, b, c) >= 0.0
    ensures a <= 0.0 ==> Share(a, b, c) <= 0.0
  {
    assert a >= 0.0 ==> a * b >= 0.0;
    assert a <= 0.0 ==> a * b <= 0.0;
  }

  lemma SharesOneSided(total: real, weights: seq<real>)
    requires weights != [] && NonNegative(weights)
    ensures OneSided(total, Shares(total, weights)) && Sum(Shares(total, weights)) == total
  {
    SharesSum(total, weights);
    EffectiveSum(weights);
    var w := Effective(weights);
    SumSign(w);
    forall i | 0 <= i < |w|
      ensures if total >= 0.0 then Shares(total, weights)[i] >= 0.0 else Shares(total, weights)[i] <= 0.0 {
      MulSign(total, w[i], Sum(w));
    }
  }

  // ---- Optimality -------------------------------------------------------------------------

  function Deviation(parts: seq<int>, s: seq<real>, i: nat): real
    requires i < |parts| == |s|
  {
    parts[i] as real - s[i]
  }

  function Square(x: real): real {
    x * x
  }

  function Squares(parts: seq<int>, s: seq<real>): (q: seq<real>)
    requires |parts| == |s|
    ensures |q| == |s| && forall i :: 0 <= i < |s| ==> q[i] == Square(Deviation(parts, s, i))
  {
    seq(|s|, i requires 0 <= i < |s| => Square(Deviation(parts, s, i)))
  }

  /** Sum of squared deviations of whole-unit parts from the exact shares. */
  function Cost(parts: seq<int>, s: seq<real>): real
    requires |parts| == |s|
  {
    Sum(Squares(parts, s))
  }

  /** No two parts deviate by more than one minor unit from each other. */
  ghost predicate Tight(parts: seq<int>, s: seq<real>)
    requires |parts| == |s|
  {
    forall i, j :: 0 <= i < |parts| && 0 <= j < |parts| ==> Deviation(parts, s, i) - Deviation(parts, s, j) <= 1.0
  }

  ghost predicate Optimal(parts: seq<int>, s: seq<real>)
    requires |parts| == |s|
  {
    forall other: seq<int> :: |other| == |parts| && Total(other) == Total(parts) ==> Cost(parts, s) <= Cost(other, s)
  }

  lemma WholeSquare(e: int)
    ensures Square(e as real) >= e as real && Square(e as real) >= -e as real
  {
    assert e * e >= e && e * e >= -e;
    assert Square(e as real) == (e * e) as real;
  }

  function Tilt(c: real, e: int): real {
    2.0 * c * (e as real)
  }

  /** One coordinate: |d - c| <= 1/2 and e whole give (d + e)^2 >= d^2 + 2ce. */
  lemma Exchange(d: real, e: int, c: real)
    requires -0.5 <= d - c <= 0.5
    ensures Square(d + e as real) >= Square(d) + Tilt(c, e)
  {
    var x, y := e as real, 2.0 * (d - c);
    WholeSquare(e);
    if e >= 0 {
      assert x * y >= x * -1.0;
    } else {
      assert (-x) * y <= (-x) * 1.0;
      assert x * y >= x;
    }
    assert Square(x) + x * y >= 0.0;
    assert Square(d + x) == Square(d) + 2.0 * c * x + (Square(x) + x * y);
  }

  lemma {:induction false} SumDominates(a: seq<real>, b: seq<real>, t: seq<real>)
    requires |a| == |b| == |t| && forall i :: 0 <= i < |a| ==> a[i] >= b[i] + t[i]
    ensures Sum(a) >= Sum(b) + Sum(t)
  {
    if a != [] {
      var n := |a| - 1;
      SumDominates(a[..n], b[..n], t[..n]);
    }
  }

  function Tilts(c: real, from: seq<int>, to: seq<int>): (t: seq<real>)
    requires |from| == |to|
    ensures |t| == |from| && forall i :: 0 <= i < |from| ==> t[i] == Tilt(c, to[i] - from[i])
  {
    seq(|from|, i requires 0 <= i < |from| => Tilt(c, to[i] - from[i]))
  }

  lemma TiltAdds(c: real, a: int, e: int)
    ensures Tilt(c, a + e) == Tilt(c, a) + Tilt(c, e) && Tilt(c, 0) == 0.0
  {
    var x, y := a as real, e as real;
    assert (a + e) as real == x + y;
    assert 2.0 * c * (x + y) == 2.0 * c * x + 2.0 * c * y;
  }

  lemma {:induction false} TiltSum(c: real, from: seq<int>, to: seq<int>)
    requires |from| == |to|
    ensures Sum(Tilts(c, from, to)) == Tilt(c, Total(to) - Total(from))
  {
    if from == [] {
      TiltAdds(c, 0, 0);
    } else {
      var n := |from| - 1;
      TiltSum(c, from[..n], to[..n]);
      assert Tilts(c, from, to)[..n] == Tilts(c, from[..n], to[..n]);
      TiltAdds(c, Total(to[..n]) - Total(from[..n]), to[n] - from[n]);
    }
  }

  lemma CostBound(parts: seq<int>, other: seq<int>, s: seq<real>, c: real)
    requires |parts| == |other| == |s|
    requires forall i :: 0 <= i < |parts| ==> -0.5 <= Deviation(parts, s, i) - c <= 0.5
    ensures Cost(other, s) >= Cost(parts, s) + Tilt(c, Total(other) - Total(parts))
  {
    var a, b, t := Squares(other, s), Squares(parts, s), Tilts(c, parts, other);
    forall i | 0 <= i < |s| ensures a[i] >= b[i] + t[i] {
      Exchange(Deviation(parts, s, i), other[i] - parts[i], c);
      assert Deviation(other, s, i) == Deviation(parts, s, i) + (other[i] - parts[i]) as real;
    }
    SumDominates(a, b, t);
    TiltSum(c, parts, other);
  }

  lemma LeastDeviation(parts: seq<int>, s: seq<real>) returns (m: nat)
    requires |parts| == |s| > 0
    ensures m < |parts| && forall i :: 0 <= i < |parts| ==> Deviation(parts, s, m) <= Deviation(parts, s, i)
  {
    m := 0;
    for k := 0 to |parts|
      invariant m < |parts| && forall i :: 0 <= i < k ==> Deviation(parts, s, m) <= Deviation(parts, s, i)
    {
      if Deviation(parts, s, k) < Deviation(parts, s, m) { m := k; }
    }
  }

  lemma TightIsOptimal(parts: seq<int>, s: seq<real>)
    requires |parts| == |s| > 0 && Tight(parts, s)
    ensures Optimal(parts, s)
  {
    var m := LeastDeviation(parts, s);
    var c := Deviation(parts, s, m) + 0.5;
    forall other: seq<int> | |other| == |parts| && Total(other) == Total(parts)
      ensures Cost(parts, s) <= Cost(other, s) {
      CostBound(parts, other, s, c);
      TiltAdds(c, 0, 0);
    }
  }

  lemma {:induction false} SumUpdate(s: seq<real>, i: nat, v: real)
    requires i < |s|
    ensures Sum(s[i := v]) == Sum(s) - s[i] + v
  {
    var n, t := |s| - 1, s[i := v];
    if i == n {
      assert t[..n] == s[..n];
    } else {
      SumUpdate(s[..n], i, v);
      assert t[..n] == s[..n][i := v];
    }
  }

  lemma CostUpdate(parts: seq<int>, s: seq<real>, i: nat, v: int)
    requires i < |parts| == |s|
    ensures Cost(parts[i := v], s) == Cost(parts, s) - Square(Deviation(parts, s, i)) + Square(v as real - s[i])
  {
    var q, x := Squares(parts, s), Square(v as real - s[i]);
    forall k | 0 <= k < |s| ensures Squares(parts[i := v], s)[k] == if k == i then x else q[k] {
      assert k != i ==> Deviation(parts[i := v], s, k) == Deviation(parts, s, k);
    }
    assert Squares(parts[i := v], s) == q[i := x];
    SumUpdate(q, i, x);
  }

  /** Moving a unit from a high deviation d to one more than a unit lower gains. */
  lemma MoveGains(d: real, e: real)
    requires d - e > 1.0
    ensures Square(d - 1.0) + Square(e + 1.0) < Square(d) + Square(e)
  {
    assert (d - 1.0) * (d - 1.0) == d * (d - 1.0) - (d - 1.0) && d * (d - 1.0) == d * d - d;
    assert (e + 1.0) * (e + 1.0) == e * (e + 1.0) + (e + 1.0) && e * (e + 1.0) == e * e + e;
  }

  lemma LooseIsNotOptimal(parts: seq<int>, s: seq<real>, i: nat, j: nat)
    requires |parts| == |s| && i < |parts| && j < |parts|
    requires Deviation(parts, s, i) - Deviation(parts, s, j) > 1.0
    ensures !Optimal(parts, s)
  {
    var mid := parts[i := parts[i] - 1];
    var other := mid[j := mid[j] + 1];
    CostUpdate(parts, s, i, parts[i] - 1);
    CostUpdate(mid, s, j, mid[j] + 1);
    TotalUpdate(parts, i, parts[i] - 1);
    TotalUpdate(mid, j, mid[j] + 1);
    assert Deviation(mid, s, j) == Deviation(parts, s, j);
    MoveGains(Deviation(parts, s, i), Deviation(parts, s, j));
    assert Cost(other, s) < Cost(parts, s);
  }

  /** A whole-unit split is optimal among splits with its sum exactly when it is tight. */
  lemma OptimalIffTight(parts: seq<int>, s: seq<real>)
    requires |parts| == |s| > 0
    ensures Optimal(parts, s) <==> Tight(parts, s)
  {
    if Tight(parts, s) {
      TightIsOptimal(parts, s);
    } else {
      var i, j :| 0 <= i < |parts| && 0 <= j < |parts| && Deviation(parts, s, i) - Deviation(parts, s, j) > 1.0;
      LooseIsNotOptimal(parts, s, i, j);
    }
  }

  /** The remainder at a rank of the hand-out order. */
  function RankRemainder(total: real, s: seq<real>, rank: nat): real
    requires rank < |s|
  {
    At(Remainders(s), OrderOf(total, s)[rank])
  }

  /** On each side of the hand-out cut, no two remainders are more than one unit apart. */
  ghost predicate SidesTight(total: real, s: seq<real>) {
    forall a, b :: 0 <= a < |s| && 0 <= b < |s| && (a < Abs(Units(total, s)) <==> b < Abs(Units(total, s))) ==>
      RankRemainder(total, s, a) - RankRemainder(total, s, b) <= 1.0
  }

  /** A part's deviation from its share, by its rank. */
  lemma DeviationAt(total: real, s: seq<real>, i: nat) returns (rank: nat)
    requires s != [] && Sum(s) == total && i < |s|
    ensures rank < |s| && OrderOf(total, s)[rank] == i
    ensures Deviation(Rounded(total, s), s, i) ==
      (if rank < Abs(Units(total, s)) then Step(Units(total, s)) as real else 0.0) - RankRemainder(total, s, rank)
  {
    rank := PartAt(total, s, i);
    assert Remainders(s)[i] == s[i] - RoundDown(s[i]) as real;
  }

  /** Across the cut the order already keeps deviations within one unit. */
  lemma AcrossTheCut(total: real, s: seq<real>, a: nat, b: nat)
    requires Sum(s) == total && a < Abs(Units(total, s)) <= b < |s|
    ensures var d := Step(Units(total, s)) as real - RankRemainder(total, s, a) + RankRemainder(total, s, b);
      -1.0 <= d <= 1.0
  {
    RankOrder(total, s, a, b);
    UnitsNearRemainders(total, s);
    assert -1.0 < RankRemainder(total, s, a) < 1.0 && -1.0 < RankRemainder(total, s, b) < 1.0;
  }

  lemma SidesTightIsTight(total: real, s: seq<real>)
    requires s != [] && Sum(s) == total && SidesTight(total, s)
    ensures Tight(Rounded(total, s), s)
  {
    var p, cut := Rounded(total, s), Abs(Units(total, s));
    forall i, j | 0 <= i < |p| && 0 <= j < |p| ensures Deviation(p, s, i) - Deviation(p, s, j) <= 1.0 {
      var a := DeviationAt(total, s, i);
      var b := DeviationAt(total, s, j);
      if a < cut <= b {
        AcrossTheCut(total, s, a, b);
      } else if b < cut <= a {
        AcrossTheCut(total, s, b, a);
      } else {
        assert RankRemainder(total, s, b) - RankRemainder(total, s, a) <= 1.0;
      }
    }
  }

  lemma RankOf(total: real, s: seq<real>, a: nat, i: nat, rank: nat)
    requires a < |s| && rank < |s| && OrderOf(total, s)[a] == i && OrderOf(total, s)[rank] == i
    ensures a == rank
  {
    OrderSorted(Remainders(s), Units(total, s) >= 0, |s|);
    if a < rank {
      SortedAt(Remainders(s), Units(total, s) >= 0, OrderOf(total, s), a, rank);
    } else if rank < a {
      SortedAt(Remainders(s), Units(total, s) >= 0, OrderOf(total, s), rank, a);
    }
  }

  lemma TightIsSidesTight(total: real, s: seq<real>)
    requires s != [] && Sum(s) == total && Tight(Rounded(total, s), s)
    ensures SidesTight(total, s)
  {
    var p, order, cut := Rounded(total, s), OrderOf(total, s), Abs(Units(total, s));
    forall a, b | 0 <= a < |s| && 0 <= b < |s| && (a < cut <==> b < cut)
      ensures RankRemainder(total, s, a) - RankRemainder(total, s, b) <= 1.0 {
      assert order[a] in order && order[b] in order;
      var x := DeviationAt(total, s, order[a]);
      var y := DeviationAt(total, s, order[b]);
      RankOf(total, s, a, order[a], x);
      RankOf(total, s, b, order[b], y);
      assert Deviation(p, s, order[b]) - Deviation(p, s, order[a]) <= 1.0;
    }
  }

  /** For all weights: the allocation is optimal among whole-unit splits with its sum if and only if the
      exact shares' remainders lie within one unit of each other on either side of the hand-out cut. */
  lemma OptimalIffSidesTight(total: real, weights: seq<real>, s: seq<real>)
    requires weights != [] && ExactShares(total, weights, s)
    ensures Optimal(Parts(total, weights), s) <==> SidesTight(total, s)
  {
    SharesSum(total, weights);
    SharesExact(total, weights);
    OptimalIffTight(Rounded(total, s), s);
    if SidesTight(total, s) {
      SidesTightIsTight(total, s);
    }
    if Tight(Rounded(total, s), s) {
      TightIsSidesTight(total, s);
    }
  }

  /** For non-negative weights no split into whole minor units with the same sum is closer to the
      exact shares: all remainders then have one sign. */
  lemma AllocationIsOptimal(total: real, weights: seq<real>, s: seq<real>)
    requires weights != [] && NonNegative(weights) && ExactShares(total, weights, s)
    ensures Optimal(Parts(total, weights), s)
  {
    SharesExact(total, weights);
    SharesOneSided(total, weights);
    forall i: nat
      ensures if total >= 0.0 then 0.0 <= At(Remainders(s), i) < 1.0 else -1.0 < At(Remainders(s), i) <= 0.0
    {
      if i < |s| { OneSidedRemainder(s[i]); }
    }
    OptimalIffSidesTight(total, weights, s);
  }

  /** quantize(..., ROUND_DOWN) cuts toward zero: what is cut off has the value's own sign. */
  lemma OneSidedRemainder(x: real)
    ensures if x >= 0.0 then 0.0 <= x - RoundDown(x) as real < 1.0 else -1.0 < x - RoundDown(x) as real <= 0.0
  {
  }

  lemma SumOfThree(a: real, b: real, c: real)
    ensures Sum([a, b, c]) == a + b + c
  {
    assert [a, b, c][..2] == [a, b] && [a, b][..1] == [a] && [a][..0] == [];
    assert Sum([a]) == a && Sum([a, b]) == a + b;
  }

  lemma TotalOfThree(a: int, b: int, c: int)
    ensures Total([a, b, c]) == a + b + c
  {
    assert [a, b, c][..2] == [a, b] && [a, b][..1] == [a] && [a][..0] == [];
    assert Total([a]) == a && Total([a, b]) == a + b;
  }

  /** A negative weight can break optimality: 1 split by (0.9, -0.9, 1) stays at (0, 0, 1), with
      remainders 0.9 and -0.9 on the same side of the cut. */
  lemma NegativeWeightNotOptimal()
    ensures ExactShares(1.0, [0.9, -0.9, 1.0], [0.9, -0.9, 1.0])
    ensures var w := [0.9, -0.9, 1.0]; !Optimal(Parts(1.0, w), w) && !SidesTight(1.0, w)
  {
    var w := [0.9, -0.9, 1.0];
    SumOfThree(0.9, -0.9, 1.0);
    var s := Shares(1.0, w);
    SharesSum(1.0, w);
    assert s == [0.9, -0.9, 1.0];
    assert Floors(s) == [0, 0, 1];
    TotalOfThree(0, 0, 1);
    var p := Parts(1.0, w);
    assert p == [0, 0, 1];
    LooseIsNotOptimal(p, s, 1, 0);
    SharesExact(1.0, w);
    OptimalIffSidesTight(1.0, w, w);
  }

  // ---- Fairness ---------------------------------------------------------------------------

  /** Sum of r taken along an order. */
  function Along(r: seq<real>, order: seq<nat>): real {
    if order == [] then 0.0 else At(r, order[0]) + Along(r, order[1..])
  }

  lemma {:induction false} AlongInsert(r: seq<real>, descending: bool, order: seq<nat>, i: nat)
    ensures Along(r, Insert(r, descending, order, i)) == Along(r, order) + At(r, i)
  {
    var out := Insert(r, descending, order, i);
    if order == [] || !Precedes(r, descending, order[0], i) {
      assert out[1..] == order;
    } else {
      AlongInsert(r, descending, order[1..], i);
      assert out[1..] == Insert(r, descending, order[1..], i);
    }
  }

  lemma {:induction false} AlongOrder(r: seq<real>, descending: bool, n: nat)
    requires n <= |r|
    ensures Along(r, Order(r, descending, n)) == Sum(r[..n])
  {
    if n > 0 {
      AlongOrder(r, descending, n - 1);
      AlongInsert(r, descending, Order(r, descending, n - 1), n - 1);
      assert r[..n][..n - 1] == r[..n - 1];
    }
  }

  lemma {:induction false} AlongSplit(r: seq<real>, order: seq<nat>, k: nat)
    requires k <= |order|
    ensures Along(r, order) == Along(r, order[..k]) + Along(r, order[k..])
  {
    if k > 0 {
      AlongSplit(r, order[1..], k - 1);
      assert order[1..][..k - 1] == order[..k][1..] && order[1..][k - 1..] == order[k..];
    } else {
      assert order[0..] == order;
    }
  }

  lemma {:induction false} AlongBounds(r: seq<real>, order: seq<nat>)
    requires forall i: nat :: -1.0 < At(r, i) < 1.0
    ensures order != [] ==> -(|order| as real) < Along(r, order) < |order| as real
    ensures (forall x: nat :: x in order ==> At(r, x) <= 0.0) ==> Along(r, order) <= 0.0
    ensures (forall x: nat :: x in order ==> At(r, x) >= 0.0) ==> Along(r, order) >= 0.0
  {
    if order != [] {
      AlongBounds(r, order[1..]);
    }
  }

  /** A unit is only ever handed to a part that rounding actually cut. */
  lemma BumpedWasCut(total: real, s: seq<real>, rank: nat)
    requires s != [] && Sum(s) == total && rank < |s| && rank < Abs(Units(total, s))
    ensures var x := At(Remainders(s), OrderOf(total, s)[rank]); if Units(total, s) >= 0 then x > 0.0 else x < 0.0
  {
    var r, order, units := Remainders(s), OrderOf(total, s), Units(total, s);
    UnitsNearRemainders(total, s);
    AlongOrder(r, units >= 0, |s|);
    assert r[..|s|] == r;
    OrderSorted(r, units >= 0, |s|);
    TailBound(r, units >= 0, order, rank);
  }

  lemma UnitsNearRemainders(total: real, s: seq<real>)
    requires Sum(s) == total
    ensures -0.5 <= Units(total, s) as real - Sum(Remainders(s)) <= 0.5
    ensures forall i: nat :: -1.0 < At(Remainders(s), i) < 1.0
  {
    RemainderSum(s);
    RoundHalfUpNear(Sum(Remainders(s)));
  }

  /** If the element at rank (and so every later one) is on the wrong side of zero, the whole sum is
      at most rank. */
  lemma TailBound(r: seq<real>, descending: bool, order: seq<nat>, rank: nat)
    requires Sorted(r, descending, order) && rank < |order|
    requires forall i: nat :: -1.0 < At(r, i) < 1.0
    ensures descending && At(r, order[rank]) <= 0.0 ==>
      Along(r, order) <= rank as real && (rank > 0 ==> Along(r, order) < rank as real)
    ensures !descending && At(r, order[rank]) >= 0.0 ==>
      Along(r, order) >= -(rank as real) && (rank > 0 ==> Along(r, order) > -(rank as real))
  {
    AlongSplit(r, order, rank);
    AlongBounds(r, order[..rank]);
    var tail := order[rank..];
    forall y | y in tail ensures if descending then At(r, y) <= At(r, order[rank]) else At(r, y) >= At(r, order[rank]) {
      var a :| 0 <= a < |tail| && tail[a] == y;
      if a > 0 {
        SortedAt(r, descending, order, rank, rank + a);
      }
    }
    AlongBounds(r, tail);
  }

  /** |x| < |bound|. */
  predicate Below(x: real, bound: real) {
    if bound > 0.0 then -bound < x < bound else bound < x < -bound
  }

  lemma ScaledBelow(d: real, w: real, x: real)
    requires -1.0 < d < 1.0 && w != 0.0 && x == d * w
    ensures Below(x, w)
  {
    if w > 0.0 {
      assert (1.0 - d) * w > 0.0 && (1.0 + d) * w > 0.0;
    } else {
      assert (1.0 - d) * -w > 0.0 && (1.0 + d) * -w > 0.0;
    }
  }

  /** part is strictly within one minor unit of total * weight / sum. */
  predicate Near(part: int, total: real, weight: real, sum: real) {
    Below(part as real * sum - total * weight, sum)
  }

  lemma NearShare(part: int, total: real, weight: real, sum: real, s: real)
    requires sum != 0.0 && s == total * weight / sum && -1.0 < part as real - s < 1.0
    ensures Near(part, total, weight, sum)
  {
    var p := part as real;
    assert s * sum == total * weight;
    ScaledBelow(p - s, sum, p * sum - total * weight);
  }

  lemma EvenShare(total: real, n: nat)
    requires n > 0
    ensures total / n as real == total * 1.0 / n as real
  {
  }

  /** Every part is strictly within one minor unit of total * weight / sum of weights, for all weights,
      and of total / n when they sum to zero. */
  ghost predicate WithinUnit(part: int, total: real, weights: seq<real>, i: nat)
    requires i < |weights|
  {
    if Sum(weights) == 0.0 then Near(part, total, 1.0, |weights| as real)
    else Near(part, total, weights[i], Sum(weights))
  }

  lemma NearExact(part: int, total: real, weights: seq<real>, s: seq<real>, i: nat)
    requires i < |weights| && ExactShares(total, weights, s) && -1.0 < part as real - s[i] < 1.0
    ensures WithinUnit(part, total, weights, i)
  {
    if Sum(weights) == 0.0 {
      EvenShare(total, |weights|);
      NearShare(part, total, 1.0, |weights| as real, s[i]);
    } else {
      NearShare(part, total, weights[i], Sum(weights), s[i]);
    }
  }

  lemma WithinOneUnit(total: real, weights: seq<real>, i: nat)
    requires i < |weights|
    ensures WithinUnit(Parts(total, weights)[i], total, weights, i)
  {
    SharesExact(total, weights);
    WithinOneShare(total, weights, i);
    NearExact(Parts(total, weights)[i], total, weights, Shares(total, weights), i);
  }

  lemma WithinOneShare(total: real, weights: seq<real>, i: nat)
    requires i < |weights|
    ensures -1.0 < Deviation(Parts(total, weights), Shares(total, weights), i) < 1.0
  {
    SharesSum(total, weights);
    var s := Shares(total, weights);
    var rank := DeviationAt(total, s, i);
    UnitsNearRemainders(total, s);
    assert -1.0 < RankRemainder(total, s, rank) < 1.0;
    if rank < Abs(Units(total, s)) {
      BumpedWasCut(total, s, rank);
    }
  }

  /** Larger share, larger part. */
  lemma RoundedMonotone(total: real, s: seq<real>, i: nat, j: nat)
    requires i < |s| && j < |s| && Sum(s) == total && s[i] > s[j]
    ensures Rounded(total, s)[i] >= Rounded(total, s)[j]
  {
    var a := PartAt(total, s, i);
    var b := PartAt(total, s, j);
    if a < b {
      RankOrder(total, s, a, b);
    } else if b < a {
      RankOrder(total, s, b, a);
    }
  }

  lemma ShareOrder(total: real, w1: real, w2: real, whole: real)
    requires whole != 0.0 && w1 > w2 && total != 0.0
    ensures if total > 0.0 <==> whole > 0.0 then Share(total, w1, whole) > Share(total, w2, whole)
      else Share(total, w1, whole) < Share(total, w2, whole)
  {
    ShareAdds(total, w2, w1 - w2, whole);
    ShareSign(total, w1 - w2, whole);
  }

  lemma ShareSign(total: real, d: real, whole: real)
    requires whole != 0.0 && d > 0.0 && total != 0.0
    ensures if total > 0.0 <==> whole > 0.0 then Share(total, d, whole) > 0.0 else Share(total, d, whole) < 0.0
  {
    var q := total * d / whole;
    assert q * whole == total * d;
    assert total > 0.0 ==> total * d > 0.0;
    assert total < 0.0 ==> total * d < 0.0;
    assert q > 0.0 && whole < 0.0 ==> q * whole < 0.0;
    assert q < 0.0 && whole > 0.0 ==> q * whole < 0.0;
    assert q < 0.0 && whole < 0.0 ==> q * whole > 0.0;
    assert q > 0.0 && whole > 0.0 ==> q * whole > 0.0;
  }

  lemma {:induction false} ZeroTotals(s: seq<real>)
    requires forall k :: 0 <= k < |s| ==> s[k] == 0.0
    ensures Total(Floors(s)) == 0
  {
    if s != [] {
      var n := |s| - 1;
      ZeroTotals(s[..n]);
      assert Floors(s)[..n] == Floors(s[..n]);
    }
  }

  lemma RoundedZero(s: seq<real>, i: nat)
    requires i < |s| && Sum(s) == 0.0 && forall k :: 0 <= k < |s| ==> s[k] == 0.0
    ensures Rounded(0.0, s)[i] == 0
  {
    ZeroTotals(s);
    assert Units(0.0, s) == 0;
    var _ := PartAt(0.0, s, i);
    assert RoundDown(s[i]) == 0;
  }

  /** Parts follow the weights, whatever their signs: a strictly larger weight never gets the lesser
      part when total and weight sum agree in sign, and never the greater when they disagree. Weights
      that sum to zero are ignored: there the larger one gets the lesser part exactly when the cut of the
      even split falls between the two. */
  lemma LargerWeightNeverLess(total: real, weights: seq<real>, i: nat, j: nat)
    requires i < |weights| && j < |weights| && weights[i] > weights[j]
    ensures var p := Parts(total, weights);
      if Sum(weights) == 0.0 then p[i] < p[j] <==> j < Cut(total, |weights|) <= i
      else if total == 0.0 then p[i] == p[j] == 0
      else if total > 0.0 <==> Sum(weights) > 0.0 then p[i] >= p[j]
      else p[i] <= p[j]
  {
    SharesSum(total, weights);
    var s := Shares(total, weights);
    if Sum(weights) == 0.0 {
      EvenSplit(total, weights, i);
      EvenSplit(total, weights, j);
    } else if total == 0.0 {
      RoundedZero(s, i);
      RoundedZero(s, j);
    } else {
      ShareOrder(total, weights[i], weights[j], Sum(weights));
      if total > 0.0 <==> Sum(weights) > 0.0 {
        RoundedMonotone(total, s, i, j);
      } else {
        RoundedMonotone(total, s, j, i);
      }
    }
  }

  /** Equal weights, and any weights that sum to zero, differ by at most one unit, and the lower index
      is never the lesser: a positive unit goes to the lower index first and a negative one to the
      higher. */
  lemma TiesFollowTheIndex(total: real, weights: seq<real>, i: nat, j: nat)
    requires i < j < |weights| && (Sum(weights) == 0.0 || weights[i] == weights[j])
    ensures var p := Parts(total, weights); p[j] <= p[i] <= p[j] + 1
  {
    SharesSum(total, weights);
    var s := Shares(total, weights);
    EffectiveSum(weights);
    assert s[i] == s[j];
    var a := PartAt(total, s, i);
    var b := PartAt(total, s, j);
    if a < b {
      RankOrder(total, s, a, b);
    } else if b < a {
      RankOrder(total, s, b, a);
    }
  }

  // ---- The even split ---------------------------------------------------------------------

  /** Units left to hand out when a total is split evenly. */
  function EvenUnits(total: real, n: nat): int
    requires n > 0
  {
    RoundHalfUp(total - (n * RoundDown(total / n as real)) as real)
  }

  /** The indices below it get one unit more than the others. */
  function Cut(total: real, n: nat): int
    requires n > 0
  {
    if EvenUnits(total, n) >= 0 then EvenUnits(total, n) else n + EvenUnits(total, n)
  }

  lemma {:induction false} InsertLast(r: seq<real>, descending: bool, order: seq<nat>, i: nat)
    requires forall k :: 0 <= k < |order| ==> Precedes(r, descending, order[k], i)
    ensures Insert(r, descending, order, i) == order + [i]
  {
    if order != [] {
      InsertLast(r, descending, order[1..], i);
      assert order == [order[0]] + order[1..];
    }
  }

  /** Equal remainders are served by index, from the front or from the back. */
  lemma {:induction false} EqualOrder(r: seq<real>, c: real, descending: bool, n: nat, k: nat)
    requires k < n && forall a: nat :: a < n ==> At(r, a) == c
    ensures Order(r, descending, n)[k] == if descending then k else n - 1 - k
  {
    var order := Order(r, descending, n - 1);
    forall a | 0 <= a < n - 1 ensures order[a] == if descending then a else n - 2 - a {
      EqualOrder(r, c, descending, n - 1, a);
    }
    if descending {
      InsertLast(r, descending, order, n - 1);
    }
  }

  lemma {:induction false} EqualTotal(f: seq<int>, q: int)
    requires forall k :: 0 <= k < |f| ==> f[k] == q
    ensures Total(f) == |f| * q
  {
    if f != [] {
      EqualTotal(f[..|f| - 1], q);
    }
  }

  lemma EqualShares(total: real, weights: seq<real>)
    requires weights != [] && Sum(weights) == 0.0
    ensures forall k :: 0 <= k < |weights| ==> Shares(total, weights)[k] == total / |weights| as real
    ensures Units(total, Shares(total, weights)) == EvenUnits(total, |weights|)
  {
    EffectiveSum(weights);
    SumOfOnes(|weights|);
    EqualTotal(Floors(Shares(total, weights)), RoundDown(total / |weights| as real));
  }

  lemma EqualRank(s: seq<real>, share: real, descending: bool, rank: nat)
    requires rank < |s| && forall k :: 0 <= k < |s| ==> s[k] == share
    ensures Order(Remainders(s), descending, |s|)[rank] == if descending then rank else |s| - 1 - rank
  {
    EqualOrder(Remainders(s), share - RoundDown(share) as real, descending, |s|, rank);
  }

  /** Among equal shares the rank is the index, or its mirror. */
  lemma EqualPart(total: real, s: seq<real>, share: real, k: nat)
    requires k < |s| && Sum(s) == total && forall a :: 0 <= a < |s| ==> s[a] == share
    ensures var units := Units(total, s); var rank := if units >= 0 then k else |s| - 1 - k;
      Rounded(total, s)[k] == RoundDown(share) + if rank < Abs(units) then Step(units) else 0
  {
    var rank := PartAt(total, s, k);
    EqualRank(s, share, Units(total, s) >= 0, rank);
  }

  /** Weights that sum to zero, whatever they are: every index gets the even share rounded down, and
      the units left over are given from the front, or taken from the back. */
  lemma EvenSplit(total: real, weights: seq<real>, k: nat)
    requires k < |weights| && Sum(weights) == 0.0
    ensures var n := |weights|;
      Parts(total, weights)[k] == RoundDown(total / n as real) +
        (if k < Cut(total, n) then 1 else 0) - (if EvenUnits(total, n) < 0 then 1 else 0)
  {
    SharesSum(total, weights);
    EqualShares(total, weights);
    EqualPart(total, Shares(total, weights), total / |weights| as real, k);
  }

  /** So 1 split by (-1, 1) gives the larger weight the lesser part. */
  lemma ZeroSumIgnoresWeights()
    ensures Parts(1.0, [-1.0, 1.0]) == [1, 0]
  {
    var w := [-1.0, 1.0];
    assert w[..1] == [-1.0] && w[..1][..0] == [];
    assert Sum(w[..1]) == -1.0;
    EvenHalf();
    EvenSplit(1.0, w, 0);
    EvenSplit(1.0, w, 1);
  }

  lemma EvenHalf()
    ensures RoundDown(1.0 / 2 as real) == 0 && EvenUnits(1.0, 2) == 1 && Cut(1.0, 2) == 1
  {
    assert 1.0 / 2 as real == 0.5;
    assert RoundDown(0.5) == 0 && RoundHalfUp(1.0) == 1;
  }

  // ---- The split, characterised -----------------------------------------------------------

  /** p splits total by the shares s the largest-remainder way: every share is cut toward zero, the
      residual rounded half up is handed out one unit an index, and an index served before another had
      the larger remainder, or an equal one and the lower index (for a negative residual the smaller, or
      an equal one and the higher index). */
  ghost predicate LargestRemainder(total: real, s: seq<real>, p: seq<int>) {
    var units := RoundHalfUp(total - Total(Floors(s)) as real);
    && |p| == |s| && Total(p) == Total(Floors(s)) + units
    && (forall i :: 0 <= i < |s| ==> p[i] == RoundDown(s[i]) || p[i] == RoundDown(s[i]) + Step(units))
    && (forall i, j :: 0 <= i < |s| && 0 <= j < |s| && p[i] != RoundDown(s[i]) && p[j] == RoundDown(s[j]) ==>
          ServedFirst(s, units >= 0, i, j))
  }

  predicate ServedFirst(s: seq<real>, giving: bool, i: nat, j: nat)
    requires i < |s| && j < |s|
  {
    var a, b := s[i] - RoundDown(s[i]) as real, s[j] - RoundDown(s[j]) as real;
    if a == b then (if giving then i < j else j < i) else (if giving then b < a else a < b)
  }

  function Bumped(f: seq<int>, p: seq<int>): set<nat>
    requires |f| == |p|
  {
    set i: nat | i < |f| && p[i] != f[i]
  }

  lemma {:induction false} BumpedTotal(f: seq<int>, p: seq<int>, step: int)
    requires |f| == |p| && (step == 1 || step == -1)
    requires forall i :: 0 <= i < |f| ==> p[i] == f[i] || p[i] == f[i] + step
    ensures Total(p) == Total(f) + step * |Bumped(f, p)|
  {
    if f != [] {
      var n := |f| - 1;
      BumpedTotal(f[..n], p[..n], step);
      var before := Bumped(f[..n], p[..n]);
      if p[n] == f[n] {
        assert Bumped(f, p) == before;
      } else {
        assert Bumped(f, p) == before + {n};
      }
    }
  }

  /** Nothing about the split is left open: at most one vector is the largest-remainder split. */
  lemma LargestRemainderUnique(total: real, s: seq<real>, p: seq<int>, q: seq<int>)
    requires LargestRemainder(total, s, p) && LargestRemainder(total, s, q)
    ensures p == q
  {
    var f, step := Floors(s), Step(RoundHalfUp(total - Total(Floors(s)) as real));
    BumpedTotal(f, p, step);
    BumpedTotal(f, q, step);
    var a, b := Bumped(f, p), Bumped(f, q);
    SameSizeDiffers(a, b);
    if a != b {
      var i :| i in a && i !in b;
      var j :| j in b && j !in a;
      assert ServedFirst(s, step == 1, i, j) && ServedFirst(s, step == 1, j, i);
    }
    forall i | 0 <= i < |p| ensures p[i] == q[i] {
      assert i in a <==> i in b;
    }
  }

  lemma SameSizeDiffers(a: set<nat>, b: set<nat>)
    requires |a| == |b|
    ensures a == b || ((exists i :: i in a && i !in b) && (exists j :: j in b && j !in a))
  {
    if a != b {
      assert a == a * b + (a - b) && b == a * b + (b - a);
      assert |a - b| == |b - a|;
      assert a - b != {} && b - a != {};
    }
  }

  lemma RoundedIsLargestRemainder(total: real, s: seq<real>)
    requires s != [] && Sum(s) == total
    ensures LargestRemainder(total, s, Rounded(total, s))
  {
    var p, units := Rounded(total, s), Units(total, s);
    RoundedTotal(total, s);
    forall i | 0 <= i < |s| ensures p[i] == RoundDown(s[i]) || p[i] == RoundDown(s[i]) + Step(units) {
      var _ := PartAt(total, s, i);
    }
    forall i, j | 0 <= i < |s| && 0 <= j < |s| && p[i] != RoundDown(s[i]) && p[j] == RoundDown(s[j])
      ensures ServedFirst(s, units >= 0, i, j)
    {
      var a := PartAt(total, s, i);
      var b := PartAt(total, s, j);
      RankOrder(total, s, a, b);
    }
  }

  /** For all totals and weights the parts are the largest-remainder split of the exact shares. */
  lemma PartsAreLargestRemainder(total: real, weights: seq<real>, s: seq<real>)
    requires weights != [] && ExactShares(total, weights, s)
    ensures LargestRemainder(total, s, Parts(total, weights))
  {
    SharesSum(total, weights);
    SharesExact(total, weights);
    RoundedIsLargestRemainder(total, s);
  }

  // ---- The operation ----------------------------------------------------------------------

  method Allocate(total: real, weights: seq<real>) returns (floored: seq<int>)
    ensures |floored| == |weights|
    ensures weights != [] ==> floored == Parts(total, weights)
    ensures forall i :: 0 <= i < |weights| ==> WithinUnit(floored[i], total, weights, i)
    ensures forall s :: weights != [] && ExactShares(total, weights, s) ==> LargestRemainder(total, s, floored)
  {
    var n := |weights|;
    if n == 0 {
      return [];
    }
    SharesSum(total, weights);
    forall i | 0 <= i < n ensures WithinUnit(Parts(total, weights)[i], total, weights, i) {
      WithinOneUnit(total, weights, i);
    }
    forall s | ExactShares(total, weights, s) ensures LargestRemainder(total, s, Parts(total, weights)) {
      PartsAreLargestRemainder(total, weights, s);
    }
    floored := RoundShares(total, Shares(total, weights));
  }

  /** Round every share down, then hand the residual out in remainder order. */
  method RoundShares(total: real, shares: seq<real>) returns (floored: seq<int>)
    requires shares != [] && Sum(shares) == total
    ensures floored == Rounded(total, shares) && LargestRemainder(total, shares, floored)
  {
    NeverWraps(total, shares);
    RoundedIsLargestRemainder(total, shares);
    floored := Floors(shares);
    var units := Units(total, shares);
    var order := Order(Remainders(shares), units >= 0, |shares|);
    floored := HandOutUnits(floored, order, units);
  }

  lemma SmallMod(k: nat, n: nat)
    requires k < n
    ensures k % n == k
  {
  }

  /** The hand-out loop. */
  method HandOutUnits(floors: seq<int>, order: seq<nat>, units: int) returns (floored: seq<int>)
    requires Abs(units) <= |order| == |floors| && forall x :: x in order ==> x < |floors|
    ensures floored == HandOut(floors, order, Abs(units), Step(units))
  {
    floored := floors;
    var n := |floors|;
    var step := if units >= 0 then 1 else -1;
    var k := 0;
    while k < Abs(units)
      invariant 0 <= k <= Abs(units)
      invariant floored == HandOut(floors, order, k, step)
    {
      SmallMod(k, n);
      var i := order[k % n];
      assert i in order;
      floored := floored[i := floored[i] + step];
      k := k + 1;
    }
  }
}
