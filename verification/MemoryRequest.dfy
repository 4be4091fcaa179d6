/**
  The workload's memory request of pkg/autoscaler/autoscaler.go, computed in binary32 (roundTiesToEven, section 4.3.1 of
  IEEE 754-2008), and why it leaves a job of the scale-out workload unplaced.
 */
module MemoryRequest {

  // ---------- binary32 rounding of positive reals in the normal range ----------

  /** The spacing of binary32 values around x: the power of two u for which x / u has 24 bits before the point. */
  function Ulp(x: real): (u: real)
    requires x > 0.0
    ensures u > 0.0 && 8388608.0 * u <= x < 16777216.0 * u
    decreases x < 8388608.0, if x < 8388608.0 then (16777216.0 / x).Floor else x.Floor
  {
    if x >= 16777216.0 then 2.0 * Ulp(x / 2.0)
    else if x < 8388608.0 then
      DoublingHalves(x);
      Ulp(2.0 * x) / 2.0
    else 1.0
  }

  lemma DoublingHalves(x: real)
    requires 0.0 < x < 8388608.0
    ensures (16777216.0 / (2.0 * x)).Floor < (16777216.0 / x).Floor
  {
    var v := 16777216.0 / x;
    assert v * x == 16777216.0;
    Cancel(2.0, v, x);
    assert 16777216.0 / (2.0 * x) == v / 2.0;
  }

  /** The nearest integer, the even one of two equally near. */
  function RoundToEven(y: real): (r: int)
    ensures -0.5 <= r as real - y <= 0.5
    ensures r as real - y == 0.5 || y - r as real == 0.5 ==> r % 2 == 0
  {
    var f := y.Floor;
    var d := y - f as real;
    if d < 0.5 || (d == 0.5 && f % 2 == 0) then f else f + 1
  }

  function Binary32(x: real): (v: real)
    requires x > 0.0
    ensures v > 0.0
  {
    var u := Ulp(x);
    SignificandRange(x, u);
    RoundToEven(x / u) as real * u
  }

  lemma Scale(a: real, b: real, u: real)
    requires a <= b && u > 0.0
    ensures a * u <= b * u
  {
  }

  lemma Positive(a: real, b: real)
    requires a > 0.0 && b > 0.0
    ensures a * b > 0.0
  {
  }

  lemma Cancel(a: real, b: real, u: real)
    requires u > 0.0 && a * u <= b * u
    ensures a <= b
  {
  }

  lemma SignificandRange(x: real, u: real)
    requires u > 0.0 && 8388608.0 * u <= x < 16777216.0 * u
    ensures 0x80_0000 <= RoundToEven(x / u) <= 0x100_0000
    ensures RoundToEven(x / u) as real * u > 0.0
  {
    var y := x / u;
    assert y * u == x;
    Cancel(8388608.0, y, u);
    Cancel(y, 16777216.0, u);
  }

  /** Rounding moves a value by at most one part in 2^24. */
  lemma RoundingError(x: real)
    requires x > 0.0
    ensures x - x / 16777216.0 <= Binary32(x) <= x + x / 16777216.0
  {
    var u := Ulp(x);
    Rescale(x, u, RoundToEven(x / u) as real);
  }

  lemma Rescale(x: real, u: real, r: real)
    requires u > 0.0 && 8388608.0 * u <= x
    requires -0.5 <= r - x / u <= 0.5
    ensures x - x / 16777216.0 <= r * u <= x + x / 16777216.0
  {
    var y := x / u;
    assert y * u == x;
    Scale(r, y + 0.5, u);
    Scale(y - 0.5, r, u);
    assert (y + 0.5) * u == x + 0.5 * u && (y - 0.5) * u == x - 0.5 * u;
  }

  // ---------- the spacing is a power of two, and rounded values are fixed ----------

  /** Two to the power e. */
  function Pow2(e: int): (p: real)
    ensures p > 0.0
    decreases if e < 0 then -e else e
  {
    if e == 0 then 1.0 else if e > 0 then 2.0 * Pow2(e - 1) else Pow2(e + 1) / 2.0
  }

  lemma PowDoubles(e: int)
    ensures Pow2(e + 1) == 2.0 * Pow2(e)
  {
  }

  lemma {:induction false} PowGrows(d: int, e: int)
    requires d < e
    ensures Pow2(e) >= 2.0 * Pow2(d)
    decreases e - d
  {
    PowDoubles(e - 1);
    if d < e - 1 {
      PowGrows(d, e - 1);
    }
  }

  lemma {:induction false} UlpIsPow2(x: real) returns (e: int)
    requires x > 0.0
    ensures Ulp(x) == Pow2(e)
    decreases x < 8388608.0, if x < 8388608.0 then (16777216.0 / x).Floor else x.Floor
  {
    if x >= 16777216.0 {
      e := UlpIsPow2(x / 2.0);
      e := e + 1;
      PowDoubles(e - 1);
    } else if x < 8388608.0 {
      DoublingHalves(x);
      e := UlpIsPow2(2.0 * x);
      e := e - 1;
      PowDoubles(e);
    } else {
      e := 0;
    }
  }

  /** The spacing at x is the only power of two that gives x / u 24 bits before the point. */
  lemma UlpUnique(x: real, e: int)
    requires x > 0.0
    requires 8388608.0 * Pow2(e) <= x < 16777216.0 * Pow2(e)
    ensures Ulp(x) == Pow2(e)
  {
    var d := UlpIsPow2(x);
    if d < e {
      PowGrows(d, e);
    } else if e < d {
      PowGrows(e, d);
    }
  }

  lemma Quotient(r: real, u: real)
    requires u > 0.0
    ensures r * u / u == r
  {
  }

  lemma IntegerIsFixed(r: int)
    ensures RoundToEven(r as real) == r
  {
  }

  lemma FixedAt(v: real, u: real, r: int)
    requires v > 0.0 && u > 0.0 && v == r as real * u && Ulp(v) == u
    ensures Binary32(v) == v
  {
    Quotient(r as real, u);
    IntegerIsFixed(r);
  }

  lemma AtLeast(a: real, y: real, u: real, v: real)
    requires a <= y && u > 0.0 && v == y * u
    ensures a * u <= v
  {
    Scale(a, y, u);
  }

  lemma AtMost(y: real, b: real, u: real, v: real)
    requires y <= b && u > 0.0 && v == y * u
    ensures v <= b * u
  {
    Scale(y, b, u);
  }

  lemma SameBinade(y: real, u: real, v: real)
    requires u > 0.0 && 8388608.0 <= y <= 16777215.0 && v == y * u
    ensures 8388608.0 * u <= v < 16777216.0 * u
  {
    assert 8388608.0 * u <= v by { AtLeast(8388608.0, y, u, v); }
    assert v <= 16777215.0 * u by { AtMost(y, 16777215.0, u, v); }
  }

  lemma FixedSignificand(e: int, r: int, v: real)
    requires 0x80_0000 <= r <= 0x100_0000
    requires v == r as real * Pow2(e) && v > 0.0
    ensures Binary32(v) == v
  {
    hide Binary32, Ulp, RoundToEven, Pow2;
    var u := Pow2(e);
    if r == 0x100_0000 {
      PowDoubles(e);
      assert v == 8388608.0 * (2.0 * u);
      UlpUnique(v, e + 1);
      FixedAt(v, 2.0 * u, 0x80_0000);
    } else {
      SameBinade(r as real, u, v);
      UlpUnique(v, e);
      assert Ulp(v) == u;
      FixedAt(v, u, r);
    }
  }

  /** A value that has been rounded is left alone by rounding. */
  lemma RoundedIsFixed(x: real)
    requires x > 0.0
    ensures Binary32(Binary32(x)) == Binary32(x)
  {
    hide Ulp, RoundToEven, Pow2;
    var e := UlpIsPow2(x);
    SignificandRange(x, Ulp(x));
    FixedSignificand(e, RoundToEven(x / Ulp(x)), Binary32(x));
  }

  // ---------- rounding goes to the nearest value, ties to even ----------

  /** The value with significand r and exponent e; r takes 24 bits, or is 2^24, which is 2^23 with exponent e + 1. */
  function Value(e: int, r: int): real {
    r as real * Pow2(e)
  }

  predicate IsSignificand(r: int) {
    0x80_0000 <= r <= 0x100_0000
  }

  function Distance(x: real, v: real): real {
    if x < v then v - x else x - v
  }

  lemma NearestInteger(y: real, n: int)
    ensures Distance(y, RoundToEven(y) as real) <= Distance(y, n as real)
    ensures Distance(y, RoundToEven(y) as real) == Distance(y, n as real) && n != RoundToEven(y) ==>
              RoundToEven(y) % 2 == 0
  {
  }

  lemma Distribute(a: real, b: real, u: real)
    ensures (a - b) * u == a * u - b * u
  {
  }

  lemma DistanceAt(x: real, y: real, u: real, n: real, v: real)
    requires u > 0.0 && x == y * u && v == n * u
    ensures Distance(x, v) == Distance(y, n) * u
  {
    if y < n {
      assert x <= v by { Scale(y, n, u); }
      Distribute(n, y, u);
    } else {
      assert v <= x by { Scale(n, y, u); }
      Distribute(y, n, u);
    }
  }

  lemma Compare(a: real, b: real, u: real, au: real, bu: real)
    requires u > 0.0 && au == a * u && bu == b * u
    ensures a <= b ==> au <= bu
    ensures au == bu ==> a == b
  {
    if a <= b {
      Scale(a, b, u);
    }
    if au == bu {
      Cancel(a, b, u);
      Cancel(b, a, u);
    }
  }

  lemma DivideBack(x: real, u: real) returns (y: real)
    requires u > 0.0
    ensures y == x / u && x == y * u
  {
    y := x / u;
  }

  lemma NearerAt(x: real, y: real, u: real, m: int, n: int, v: real, w: real)
    requires u > 0.0 && x == y * u && v == m as real * u && w == n as real * u
    ensures Distance(y, m as real) <= Distance(y, n as real) ==> Distance(x, v) <= Distance(x, w)
    ensures Distance(x, v) == Distance(x, w) ==> Distance(y, m as real) == Distance(y, n as real)
  {
    hide Distance;
    DistanceAt(x, y, u, m as real, v);
    DistanceAt(x, y, u, n as real, w);
    Compare(Distance(y, m as real), Distance(y, n as real), u, Distance(x, v), Distance(x, w));
  }

  /** Among the multiples of the spacing at x none is nearer than the one chosen, and of two equally near it is even. */
  lemma NearestMultiple(x: real, e: int, n: int)
    requires x > 0.0
    ensures var r := RoundToEven(x / Pow2(e));
            && Distance(x, Value(e, r)) <= Distance(x, Value(e, n))
            && (Distance(x, Value(e, r)) == Distance(x, Value(e, n)) && n != r ==> r % 2 == 0)
  {
    hide Distance, RoundToEven, Pow2;
    var y := DivideBack(x, Pow2(e));
    NearestInteger(y, n);
    NearerAt(x, y, Pow2(e), RoundToEven(y), n, Value(e, RoundToEven(y)), Value(e, n));
  }

  lemma Bounds(e: int, n: int)
    requires IsSignificand(n)
    ensures 8388608.0 * Pow2(e) <= Value(e, n) <= 16777216.0 * Pow2(e)
    ensures Value(e, 0x80_0000) == 8388608.0 * Pow2(e) && Value(e, 0x100_0000) == 16777216.0 * Pow2(e)
  {
    AtLeast(8388608.0, n as real, Pow2(e), Value(e, n));
    AtMost(n as real, 16777216.0, Pow2(e), Value(e, n));
  }

  /** Seen from x, every value with another exponent lies at or beyond an end of the binade of x. */
  lemma OtherBinades(x: real, e: int, d: int, n: int) returns (m: int)
    requires 8388608.0 * Pow2(e) <= x < 16777216.0 * Pow2(e)
    requires IsSignificand(n)
    ensures d == e ==> m == n
    ensures d < e ==> Value(d, n) <= Value(e, m) <= x
    ensures d > e ==> Value(d, n) >= Value(e, m) > x
  {
    m := if d == e then n else if d < e then 0x80_0000 else 0x100_0000;
    Bounds(d, n);
    if d < e {
      Bounds(e, m);
      PowGrows(d, e);
    } else if d > e {
      Bounds(e, m);
      PowGrows(e, d);
    }
    hide Pow2, Value;
  }

  lemma NoneNearer(x: real, e: int, d: int, n: int)
    requires 8388608.0 * Pow2(e) <= x < 16777216.0 * Pow2(e) && x > 0.0
    requires IsSignificand(n)
    ensures var r := RoundToEven(x / Pow2(e));
            && Distance(x, Value(e, r)) <= Distance(x, Value(d, n))
            && (Distance(x, Value(e, r)) == Distance(x, Value(d, n)) ==>
                  Value(d, n) == Value(e, r) || r % 2 == 0)
  {
    hide Pow2, Value, RoundToEven;
    var m := OtherBinades(x, e, d, n);
    NearestMultiple(x, e, m);
  }

  lemma BinaryAt(x: real, u: real)
    requires x > 0.0 && u == Ulp(x)
    ensures Binary32(x) == RoundToEven(x / u) as real * u
    ensures IsSignificand(RoundToEven(x / u))
  {
    SignificandRange(x, u);
  }

  lemma Chosen(x: real) returns (e: int, r: int)
    requires x > 0.0
    ensures IsSignificand(r) && r == RoundToEven(x / Pow2(e)) && Binary32(x) == Value(e, r)
    ensures 8388608.0 * Pow2(e) <= x < 16777216.0 * Pow2(e)
  {
    hide Binary32, Ulp, RoundToEven, Pow2, IsSignificand;
    e := UlpIsPow2(x);
    BinaryAt(x, Pow2(e));
    r := RoundToEven(x / Pow2(e));
  }

  /** No binary32 value is nearer to x than v. */
  ghost predicate IsNearest(x: real, v: real) {
    forall d, n :: IsSignificand(n) ==> Distance(x, v) <= Distance(x, Value(d, n))
  }

  /** No other binary32 value is as near to x as v. */
  ghost predicate IsAlone(x: real, v: real) {
    forall d, n :: IsSignificand(n) && Distance(x, v) == Distance(x, Value(d, n)) ==> Value(d, n) == v
  }

  /** v is a binary32 value, none is nearer to x, and when another is as near v is the one with an even significand. */
  ghost predicate IsRounded(x: real, v: real) {
    IsNearest(x, v) && exists e, r :: IsSignificand(r) && v == Value(e, r) && (IsAlone(x, v) || r % 2 == 0)
  }

  /** Rounding is roundTiesToEven. */
  lemma RoundTiesToEven(x: real)
    requires x > 0.0
    ensures IsRounded(x, Binary32(x))
  {
    hide RoundToEven, Pow2, Value, Distance, Binary32;
    var e, r := Chosen(x);
    forall d, n | IsSignificand(n)
      ensures Distance(x, Binary32(x)) <= Distance(x, Value(d, n))
      ensures Distance(x, Binary32(x)) == Distance(x, Value(d, n)) ==> Value(d, n) == Binary32(x) || r % 2 == 0
    {
      NoneNearer(x, e, d, n);
    }
  }

  // ---------- the request ----------

  /** The float32 product of two positive float32 values. */
  function Times(x: real, y: real): real
    requires x > 0.0 && y > 0.0
  {
    Binary32(x * y)
  }

  /** factor*float32(bytes) in float32, the constant factor rounded too. */
  function Product(factor: real, bytes: int): real
    requires factor > 0.0 && 1 <= bytes
  {
    Times(Binary32(factor), Binary32(bytes as real))
  }

  /** The factor of the code. */
  const FACTOR: real := 0.7

  /** The product rounds three times: the factor, the capacity, and what they come to. */
  lemma ProductRounds(factor: real, bytes: int) returns (f: real, b: real)
    requires factor > 0.0 && 1 <= bytes
    ensures IsRounded(factor, f) && IsRounded(bytes as real, b) && IsRounded(f * b, Product(factor, bytes))
  {
    hide Binary32, IsRounded;
    f, b := Binary32(factor), Binary32(bytes as real);
    RoundTiesToEven(factor);
    RoundTiesToEven(bytes as real);
    TimesRounds(f, b);
  }

  lemma TimesRounds(a: real, b: real)
    requires a > 0.0 && b > 0.0
    ensures IsRounded(a * b, Times(a, b))
  {
    hide Binary32, IsRounded;
    Positive(a, b);
    RoundTiesToEven(a * b);
  }

  /**
    request is what the printed product can be parsed to: printing chooses a decimal that reads back as the product, and
    parsing keeps it or rounds it up to the next nano unit.
   */
  ghost predicate IsRequest(factor: real, bytes: int, request: real) {
    && 0.0 < factor && 1 <= bytes
    && exists decimal: real :: ReadsAs(decimal, Product(factor, bytes)) && decimal <= request <= decimal + 0.000000001
  }

  predicate ReadsAs(decimal: real, product: real) {
    decimal > 0.0 && Binary32(decimal) == product
  }

  /** If a' is a to within seven parts in 10^8, then d == a' * b is c == a * b to within as much. */
  lemma ScaleNear(a: real, a': real, b: real, c: real, d: real)
    requires b > 0.0 && 0.99999993 * a <= a' <= 1.00000007 * a
    requires c == a * b && d == a' * b
    ensures 0.99999993 * c <= d <= 1.00000007 * c
  {
    assert (0.99999993 * a) * b <= d by { AtLeast(0.99999993 * a, a', b, d); }
    assert d <= (1.00000007 * a) * b by { AtMost(a', 1.00000007 * a, b, d); }
    assert (0.99999993 * a) * b == 0.99999993 * c && (1.00000007 * a) * b == 1.00000007 * c;
  }

  lemma RoundsNear(x: real)
    requires x > 0.0
    ensures 0.99999993 * x <= Binary32(x) <= 1.00000007 * x
  {
    hide Binary32;
    RoundingError(x);
  }

  /** The factor's share of the capacity, unrounded. */
  function Share(factor: real, bytes: int): real {
    factor * bytes as real
  }

  lemma ProductNear(factor: real, bytes: int)
    requires 0.0 < factor && 1 <= bytes
    ensures Share(factor, bytes) > 0.0
    ensures 0.99999978 * Share(factor, bytes) <= Product(factor, bytes) <= 1.00000022 * Share(factor, bytes)
  {
    hide Binary32;
    var b := bytes as real;
    var f', b' := Binary32(factor), Binary32(b);
    var w, x, y, z := Share(factor, bytes), b' * factor, f' * b', Product(factor, bytes);
    assert w > 0.0 by { Positive(factor, b); }
    assert 0.99999993 * w <= x <= 1.00000007 * w by {
      RoundsNear(b);
      ScaleNear(b, b', factor, w, x);
    }
    assert 0.99999993 * x <= y <= 1.00000007 * x by {
      RoundsNear(factor);
      ScaleNear(factor, f', b', x, y);
    }
    assert 0.99999993 * y <= z <= 1.00000007 * y by {
      TimesNear(f', b', y);
    }
    ThreeRoundings(w, x, y, z);
  }

  lemma TimesNear(a: real, b: real, y: real)
    requires a > 0.0 && b > 0.0 && y == a * b
    ensures 0.99999993 * y <= Times(a, b) <= 1.00000007 * y
  {
    hide Binary32;
    Positive(a, b);
    RoundsNear(a * b);
  }

  lemma ThreeRoundings(w: real, x: real, y: real, z: real)
    requires w > 0.0
    requires 0.99999993 * w <= x <= 1.00000007 * w
    requires 0.99999993 * x <= y <= 1.00000007 * x
    requires 0.99999993 * y <= z <= 1.00000007 * y
    ensures 0.99999978 * w <= z <= 1.00000022 * w
  {
  }

  /** The request is the factor's share of the capacity, to within three parts in ten million and one nano unit. */
  lemma RequestNear(factor: real, bytes: int, request: real)
    requires IsRequest(factor, bytes, request)
    ensures 0.9999997 * Share(factor, bytes) <= request <= 1.0000003 * Share(factor, bytes) + 0.000000001
  {
    hide Binary32, Product, Share;
    var decimal: real :| ReadsAs(decimal, Product(factor, bytes)) && decimal <= request <= decimal + 0.000000001;
    ProductNear(factor, bytes);
    RoundsNear(decimal);
  }

  /** What the code asks for is 70% of the capacity. */
  lemma SeventyPercent(bytes: int, request: real)
    requires IsRequest(FACTOR, bytes, request)
    ensures 0.6999997 * bytes as real <= request <= 0.7000003 * bytes as real + 0.000000001
  {
    RequestNear(FACTOR, bytes, request);
    assert bytes as real >= 1.0;
    hide IsRequest;
  }

  lemma ShareFillsANode(b: real, share: real, request: real)
    requires b >= 1.0 && 0.6 * b <= share <= 0.9 * b
    requires 0.9999997 * share <= request <= 1.0000003 * share + 0.000000001
    ensures b < 2.0 * request && request < b
  {
  }

  /**
    Rounding notwithstanding, with the code's factor or any other from 0.6 to 0.9 the request is more than half and less
    than all of any positive capacity.
   */
  lemma RequestFillsANode(factor: real, bytes: int, request: real)
    requires 0.6 <= factor <= 0.9 && IsRequest(factor, bytes, request)
    ensures bytes as real < 2.0 * request
    ensures request < bytes as real
  {
    assert 1 <= bytes;
    hide IsRequest, Share;
    RequestNear(factor, bytes, request);
    ShareBounds(factor, bytes);
    ShareFillsANode(bytes as real, Share(factor, bytes), request);
  }

  lemma ShareBounds(factor: real, bytes: int)
    requires 0.6 <= factor <= 0.9 && 1 <= bytes
    ensures 0.6 * bytes as real <= Share(factor, bytes) <= 0.9 * bytes as real
  {
    Scale(0.6, factor, bytes as real);
    Scale(factor, 0.9, bytes as real);
  }

  /** There is such a request for every positive capacity: the product itself reads back as the product. */
  lemma RequestExists(factor: real, bytes: int)
    requires 0.0 < factor && 1 <= bytes
    ensures exists request :: IsRequest(factor, bytes, request)
  {
    hide Binary32;
    var p := Product(factor, bytes);
    var exact := Binary32(factor) * Binary32(bytes as real);
    assert p == Binary32(exact);
    RoundedIsFixed(exact);
    assert ReadsAs(p, p);
    assert IsRequest(factor, bytes, p);
  }

  // ---------- the extra job ----------

  datatype Place = Unplaced | On(node: nat)

  /** The memory requested by the jobs placed on a node. */
  function Requested(places: seq<Place>, node: nat, request: real): real {
    if places == [] then 0.0
    else Requested(places[..|places| - 1], node, request) + if places[|places| - 1] == On(node) then request else 0.0
  }

  /** Every placed job is on a node, and no node is asked for more memory than it has. */
  predicate Feasible(places: seq<Place>, capacities: seq<int>, request: real) {
    && (forall j :: 0 <= j < |places| && places[j].On? ==> places[j].node < |capacities|)
    && (forall n :: 0 <= n < |capacities| ==> Requested(places, n, request) <= capacities[n] as real)
  }

  /** The jobs placed on a node. */
  function JobsOn(places: seq<Place>, node: nat): set<nat> {
    set j | 0 <= j < |places| && places[j] == On(node)
  }

  /** The memory asked of a node is one request for each job on it. */
  lemma {:induction false} RequestedIsPerJob(places: seq<Place>, node: nat, request: real)
    ensures Requested(places, node, request) == |JobsOn(places, node)| as real * request
  {
    if places == [] {
      assert JobsOn(places, node) == {};
    } else {
      var init, n := places[..|places| - 1], |places| - 1;
      RequestedIsPerJob(init, node, request);
      assert JobsOn(places, node) == JobsOn(init, node) + if places[n] == On(node) then {n} else {};
      OneMore(|JobsOn(init, node)|, request);
    }
  }

  lemma OneMore(k: nat, request: real)
    ensures (k + 1) as real * request == k as real * request + request
  {
  }

  /** Job j on node j as far as the nodes go, and the rest unplaced. */
  function OneEach(jobs: nat, nodes: nat): seq<Place> {
    seq(jobs, j requires j >= 0 => if j < nodes then On(j) else Unplaced)
  }

  /** One job a node does fit when each node has room for one, so the cap on nodes is what leaves a job unplaced. */
  lemma OneEachFits(jobs: nat, capacities: seq<int>, request: real)
    requires request >= 0.0
    requires forall n :: 0 <= n < |capacities| ==> request <= capacities[n] as real
    ensures Feasible(OneEach(jobs, |capacities|), capacities, request)
  {
    var places := OneEach(jobs, |capacities|);
    forall n | 0 <= n < |capacities|
      ensures Requested(places, n, request) <= capacities[n] as real
    {
      RequestedIsPerJob(places, n, request);
      assert JobsOn(places, n) == if n < jobs then {n} else {};
    }
  }

  lemma {:induction false} OneCounts(places: seq<Place>, i: nat, node: nat, request: real)
    requires request > 0.0
    requires i < |places| && places[i] == On(node)
    ensures Requested(places, node, request) >= request
  {
    if i < |places| - 1 {
      OneCounts(places[..|places| - 1], i, node, request);
    } else {
      NonNegative(places[..i], node, request);
    }
  }

  lemma {:induction false} NonNegative(places: seq<Place>, node: nat, request: real)
    requires request > 0.0
    ensures Requested(places, node, request) >= 0.0
  {
    if places != [] {
      NonNegative(places[..|places| - 1], node, request);
    }
  }

  lemma {:induction false} TwoCount(places: seq<Place>, i: nat, j: nat, node: nat, request: real)
    requires request > 0.0
    requires i < j < |places| && places[i] == On(node) && places[j] == On(node)
    ensures Requested(places, node, request) >= 2.0 * request
  {
    if j < |places| - 1 {
      TwoCount(places[..|places| - 1], i, j, node, request);
    } else {
      OneCounts(places[..j], i, node, request);
    }
  }

  /** When two requests exceed the measured capacity, no node of at most that capacity holds two workload pods. */
  lemma OnePodPerNode(bytes: int, request: real, places: seq<Place>, capacities: seq<int>, i: nat, j: nat)
    requires 0.0 < request && bytes as real < 2.0 * request
    requires forall n :: 0 <= n < |capacities| ==> capacities[n] <= bytes
    requires Feasible(places, capacities, request)
    requires i < j < |places| && places[i].On?
    ensures places[i] != places[j]
  {
    if places[i] == places[j] {
      TwoCount(places, i, j, places[i].node, request);
    }
  }

  lemma {:induction false} Pigeonhole(places: seq<Place>, nodes: nat)
    requires forall j :: 0 <= j < |places| ==> places[j].On? && places[j].node < nodes
    requires forall i, j :: 0 <= i < j < |places| ==> places[i] != places[j]
    ensures |places| <= nodes
  {
    if places == [] {
      return;
    }
    assert places[0].node < nodes;
    if k :| 0 <= k < |places| && places[k] == On(nodes - 1) {
      var rest := places[..k] + places[k + 1..];
      forall j | 0 <= j < |rest|
        ensures rest[j].On? && rest[j].node < nodes - 1
      {
        var o := if j < k then j else j + 1;
        assert rest[j] == places[o] && places[o] != places[k];
        assert places[o] == On(places[o].node);
      }
      forall i, j | 0 <= i < j < |rest|
        ensures rest[i] != rest[j]
      {
        assert rest[i] == places[if i < k then i else i + 1] && rest[j] == places[if j < k then j else j + 1];
      }
      Pigeonhole(rest, nodes - 1);
    } else {
      forall j | 0 <= j < |places|
        ensures places[j].node < nodes - 1
      {
        assert places[j] == On(places[j].node);
      }
      Pigeonhole(places, nodes - 1);
    }
  }

  /**
    With maxNodesTotal + 1 jobs and at most maxNodesTotal such nodes, some job is unplaced in every feasible
    placement.
   */
  lemma SomeJobUnplaced(bytes: int, request: real, places: seq<Place>, capacities: seq<int>, maxNodesTotal: nat)
    requires 0.0 < request && bytes as real < 2.0 * request
    requires forall n :: 0 <= n < |capacities| ==> capacities[n] <= bytes
    requires Feasible(places, capacities, request)
    requires |capacities| <= maxNodesTotal && |places| == maxNodesTotal + 1
    ensures exists j :: 0 <= j < |places| && places[j] == Unplaced
  {
    if forall j :: 0 <= j < |places| ==> places[j] != Unplaced {
      forall i, j | 0 <= i < j < |places|
        ensures places[i] != places[j]
      {
        OnePodPerNode(bytes, request, places, capacities, i, j);
      }
      Pigeonhole(places, |capacities|);
    }
  }

  /** So it is for the request the code computes, from any positive capacity. */
  lemma ExtraJobUnplaced(bytes: int, request: real, places: seq<Place>, capacities: seq<int>, maxNodesTotal: nat)
    requires IsRequest(FACTOR, bytes, request)
    requires forall n :: 0 <= n < |capacities| ==> capacities[n] <= bytes
    requires Feasible(places, capacities, request)
    requires |capacities| <= maxNodesTotal && |places| == maxNodesTotal + 1
    ensures exists j :: 0 <= j < |places| && places[j] == Unplaced
  {
    hide IsRequest;
    RequestFillsANode(FACTOR, bytes, request);
    SomeJobUnplaced(bytes, request, places, capacities, maxNodesTotal);
  }
}
