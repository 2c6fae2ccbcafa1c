/** The arithmetic of the daily importance decay. Importance is counted in
    thousandths, the precision to which the worker rounds. */
module Decay {
  import opened Rounding

  const FLOOR: nat := 50

  function Max(x: real, y: real): real {
    if x < y then y else x
  }

  /** round(max(0.05, x * 0.95), 3) */
  function Decayed(x: nat): (r: nat)
  {
    RoundHalfEven(Max(FLOOR as real, x as real * 0.95))
  }

  /** The score after `days` daily decays. */
  function DecayedFor(x: nat, days: nat): nat {
    if days == 0 then x else Decayed(DecayedFor(x, days - 1))
  }

  /** 0.95 to the power `days` */
  function Retention(days: nat): (r: real)
    ensures 0.0 < r <= 1.0
  {
    if days == 0 then 1.0 else 0.95 * Retention(days - 1)
  }

  /** The curve the decay approximates: max(0.05, 0.95^days * x). */
  function Curve(x: nat, days: nat): real {
    Max(FLOOR as real, Retention(days) * x as real)
  }

  lemma {:induction false} CurveStep(x: nat, days: nat)
    ensures Curve(x, days + 1) == Max(FLOOR as real, 0.95 * Curve(x, days))
  {
    assert Retention(days + 1) * x as real == 0.95 * (Retention(days) * x as real);
  }

  /** Rounding once a day never drifts: however many days pass, the stored score is
      within 0.01 (ten thousandths) of the exact floored exponential. */
  lemma {:induction false} DecayTracksCurve(x: nat, days: nat)
    requires x >= FLOOR || days > 0
    ensures -10.0 <= DecayedFor(x, days) as real - Curve(x, days) <= 10.0
  {
    if days > 1 || (days == 1 && x >= FLOOR) {
      DecayTracksCurve(x, days - 1);
      CurveStep(x, days - 1);
    }
  }

  lemma DecayKeepsOrder(x: nat, y: nat)
    requires x <= y
    ensures Decayed(x) <= Decayed(y)
  {
    RoundKeepsOrder(Max(FLOOR as real, x as real * 0.95), Max(FLOOR as real, y as real * 0.95));
  }

  lemma {:induction false} DecayForDaysKeepsOrder(x: nat, y: nat, days: nat)
    requires x <= y
    ensures DecayedFor(x, days) <= DecayedFor(y, days)
  {
    if days > 0 {
      DecayForDaysKeepsOrder(x, y, days - 1);
      DecayKeepsOrder(DecayedFor(x, days - 1), DecayedFor(y, days - 1));
    }
  }

  /** One day lowers every score above the floor, raises every score below it to the
      floor, and the floor is the only score it leaves alone. */
  lemma DecayMovesTowardsFloor(x: nat)
    ensures x > FLOOR ==> FLOOR <= Decayed(x) < x
    ensures x <= FLOOR ==> Decayed(x) == FLOOR
    ensures Decayed(x) == x <==> x == FLOOR
  {
    RoundIsDetermined(FLOOR as real, FLOOR);
    if x > FLOOR {
      RoundKeepsOrder(FLOOR as real, Max(FLOOR as real, x as real * 0.95));
    }
  }

  /** Every score reaches the floor, at the latest after one day per thousandth above it,
      and stays there. */
  lemma {:induction false} DecayEndsAtFloor(x: nat, days: nat)
    requires days > 0 && x <= FLOOR + days
    ensures DecayedFor(x, days) == FLOOR
    decreases days
  {
    DecayMovesTowardsFloor(x);
    DecayShift(x, days - 1);
    if days > 1 {
      DecayEndsAtFloor(Decayed(x), days - 1);
    }
  }

  lemma {:induction false} DecayShift(x: nat, days: nat)
    ensures DecayedFor(x, days + 1) == DecayedFor(Decayed(x), days)
  {
    if days > 0 {
      DecayShift(x, days - 1);
    }
  }

  /** A day leaves 95 percent of a score to the nearest thousandth, but never less than 0.05. */
  lemma DecayedIsNearest(x: nat)
    ensures x as real * 0.95 <= 50.0 ==> Decayed(x) == 50
    ensures x as real * 0.95 > 50.0 ==> -0.5 <= Decayed(x) as real - x as real * 0.95 <= 0.5
  {
    RoundIsDetermined(50.0, 50);
  }
}
