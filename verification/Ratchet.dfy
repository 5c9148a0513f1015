/** The coverage floor of a client: how it is recorded and when it flags, over the reals. */
module Ratchet {
  import opened Wrappers

  function Min(a: nat, b: nat): nat {
    if a < b then a else b
  }

  /** Percentage of operations that are there. */
  function Coverage(total: nat, missing: nat): real
    requires total > 0
  {
    100.0 * (total - Min(missing, total)) as real / total as real
  }

  /** To one decimal, ties to the even one. */
  function RoundTenth(x: real): real {
    var tenths := x * 10.0;
    var low := tenths.Floor;
    var rest := tenths - low as real;
    var n := if rest < 0.5 || (rest == 0.5 && low % 2 == 0) then low else low + 1;
    n as real / 10.0
  }

  /** Truncation toward zero. */
  function Truncate(x: real): int {
    if x >= 0.0 then x.Floor else -((-x).Floor)
  }

  /** What is recorded after measuring. */
  function RecordedFloor(total: nat, errors: nat): int
    requires total > 0
  {
    Truncate(RoundTenth(Coverage(total, errors)))
  }

  /** Whether the check reports a regression; without operations or a floor it never does. */
  predicate Flags(total: nat, missing: nat, floor: Option<int>) {
    total > 0 && floor.Some? && Coverage(total, missing) + 0.05 < floor.value as real
  }

  lemma RoundIsNear(x: real)
    ensures -0.05 <= RoundTenth(x) - x <= 0.05
  {
    var tenths := x * 10.0;
    var low := tenths.Floor;
    var rest := tenths - low as real;
    assert 0.0 <= rest < 1.0;
  }

  lemma CoverageTimes(total: nat, missing: nat)
    requires total > 0
    ensures Coverage(total, missing) * total as real == 100.0 * (total - Min(missing, total)) as real
    ensures 0.0 <= Coverage(total, missing) <= 100.0
  {
    var c, t := Coverage(total, missing), total as real;
    var kept := (total - Min(missing, total)) as real;
    assert 0.0 <= kept <= t;
    assert c * t == 100.0 * kept;
    Between(c, kept, t);
  }

  lemma Between(c: real, kept: real, t: real)
    requires t > 0.0 && 0.0 <= kept <= t && c * t == 100.0 * kept
    ensures 0.0 <= c <= 100.0
  {
    Smaller(c, 0.0, t);
    Smaller(100.0, c, t);
    assert 0.0 * t == 0.0;
  }

  lemma Smaller(a: real, b: real, t: real)
    requires t > 0.0
    ensures a < b <==> a * t < b * t
  {
    assert (b - a) * t == b * t - a * t;
    if a < b {
      assert (b - a) * t > 0.0;
    } else if a > b {
      assert (a - b) * t > 0.0;
    }
  }

  /** The floor just recorded never flags the client it was measured on. */
  lemma UnchangedIsNeverFlagged(total: nat, missing: nat)
    ensures total > 0 ==> !Flags(total, missing, Some(RecordedFloor(total, missing)))
  {
    if total > 0 {
      RoundIsNear(Coverage(total, missing));
      CoverageTimes(total, missing);
    }
  }

  /** In whole numbers: when a client is flagged. */
  lemma FlaggedExactly(total: nat, missing: nat, floor: int)
    requires total > 0
    ensures Flags(total, missing, Some(floor)) <==>
            2000 * (total - Min(missing, total)) + total < 20 * floor * total
  {
    var kept, whole := total - Min(missing, total), floor * total;
    CoverageTimes(total, missing);
    ScaledUp(Coverage(total, missing), floor, total, kept);
    assert 20 * whole == 20 * floor * total;
  }

  lemma ScaledUp(c: real, floor: int, total: nat, kept: int)
    requires total > 0 && c * total as real == 100.0 * kept as real
    ensures c + 0.05 < floor as real <==> 2000 * kept + total < 20 * (floor * total)
  {
    var t, whole := total as real, floor * total;
    Smaller(c + 0.05, floor as real, t);
    Distribute(c, 0.05, t);
    assert floor as real * t == whole as real;
    Linear((c + 0.05) * t, floor as real * t, kept, total, whole);
  }

  lemma Distribute(a: real, b: real, t: real)
    ensures (a + b) * t == a * t + b * t
  {
  }

  lemma Linear(x: real, y: real, kept: int, total: int, whole: int)
    requires x == 100.0 * kept as real + 0.05 * total as real && y == whole as real
    ensures x < y <==> 2000 * kept + total < 20 * whole
  {
    var a, b := 2000 * kept + total, 20 * whole;
    assert a as real == 20.0 * x && b as real == 20.0 * y;
  }

  lemma WholeIsHundred(t: real)
    requires t > 0.0
    ensures 100.0 * t / t == 100.0
  {
  }

  /** The recorded floor in whole numbers: the percentage and a twentieth, rounded down. */
  lemma FloorExactly(total: nat, errors: nat)
    requires total > 0
    ensures var k, kept := RecordedFloor(total, errors), total - Min(errors, total);
            20 * (k * total) <= 2000 * kept + total < 20 * ((k + 1) * total)
  {
    hide Coverage, Truncate, RoundTenth;
    var x := Coverage(total, errors);
    CoverageTimes(total, errors);
    RoundThenTruncate(x);
    ScaledUp(x, RecordedFloor(total, errors), total, total - Min(errors, total));
    ScaledUp(x, RecordedFloor(total, errors) + 1, total, total - Min(errors, total));
  }

  lemma RoundThenTruncate(x: real)
    requires x >= 0.0
    ensures Truncate(RoundTenth(x)) as real <= x + 0.05 < Truncate(RoundTenth(x)) as real + 1.0
  {
    var tenths := x * 10.0;
    var low := tenths.Floor;
    var rest := tenths - low as real;
    var n := if rest < 0.5 || (rest == 0.5 && low % 2 == 0) then low else low + 1;
    assert 0.0 <= rest < 1.0 && low >= 0;
    assert RoundTenth(x) == n as real / 10.0;
    var k := n / 10;
    assert 10 * k <= n <= 10 * k + 9;
    assert (n as real / 10.0).Floor == k;
    assert rest == 0.5 && low == n ==> n % 2 == 0;
    assert low % 2 == 0 && low == 10 * k + 9 ==> false;
  }

  /** A client measured whole is flagged for exactly the losses above one in two thousand. */
  lemma WholeClientFlaggedExactly(total: nat, lost: nat)
    requires total > 0
    ensures RecordedFloor(total, 0) == 100
    ensures Flags(total, lost, Some(RecordedFloor(total, 0))) <==> Min(lost, total) * 2000 > total
  {
    WholeIsHundred(total as real);
    assert Coverage(total, 0) == 100.0;
    assert RoundTenth(100.0) == 100.0 by {
      assert (100.0 * 10.0).Floor == 1000;
    }
    assert (100.0).Floor == 100;
    FlaggedExactly(total, lost, 100);
  }

  /** So any loss is flagged exactly when there are fewer than 2000 operations. */
  lemma AnyLossIsFlagged(total: nat)
    requires total > 0
    ensures (forall lost :: lost > 0 ==> Flags(total, lost, Some(RecordedFloor(total, 0)))) <==> total < 2000
  {
    WholeClientFlaggedExactly(total, 1);
    forall lost: nat | lost > 0 && total < 2000
      ensures Flags(total, lost, Some(RecordedFloor(total, 0)))
    {
      WholeClientFlaggedExactly(total, lost);
    }
  }

  /** Growing losses never clear a flag. */
  lemma FlagsGrow(total: nat, missing: nat, more: nat, floor: int)
    requires Flags(total, missing, Some(floor)) && missing <= more
    ensures Flags(total, more, Some(floor))
  {
    FlaggedExactly(total, missing, floor);
    FlaggedExactly(total, more, floor);
  }
}
