/**
 * The starting-dose rules of the prescription page: the weight-based or
 * entered total daily dose (TDD), and the once-weekly Awiqli override with
 * its 1.5x loading dose.  The number inputs only yield integers, and the
 * model uses the exact quotients weight / 5 for `weight * 0.2` and
 * 3 * tdd / 2 for `tdd * 1.5`; for valid inputs the float products round to
 * the same multiple of 10.
 */
module Dosing {
  import opened Rounding

  /** Starting dose for a new patient weighing 50 kg or more. */
  const DefaultBasalDose := 70
  /** Weekly starting dose of Awiqli for an insulin-naive patient. */
  const AwiqliNaiveWeeklyDose := 70

  /** The answer to "Is this a new insulin prescription?" with the number entered after it. */
  datatype Prescription =
    | NewRx(weight: int)        // kg, entered for a new prescription
    | ExistingRx(tdd: int)      // units per day, entered for an existing one

  /** The bounds the number inputs put on what can be entered. */
  predicate ValidInput(p: Prescription)
  {
    match p
    case NewRx(w) => 10 <= w <= 200
    case ExistingRx(t) => t >= 1
  }

  /** New patient: weight * 0.2 rounded to the nearest 10 below 50 kg, else the default. */
  function NewPatientDose(weight: int): (tdd: int)
    ensures tdd % 10 == 0
    ensures weight >= 50 ==> tdd == DefaultBasalDose
    // below 50 kg: within 5 units of 0.2 units per kg
    ensures weight < 50 ==> Abs(5 * tdd - weight) <= 25
    // on a tie (25 kg), the even multiple of 10
    ensures weight < 50 && Abs(5 * tdd - weight) == 25 ==> (tdd / 10) % 2 == 0
  {
    if weight < 50 then RoundTo10HalfEven(weight, 5) else DefaultBasalDose
  }

  /** The TDD the page holds before any product-specific override. */
  function InitialTdd(p: Prescription): (tdd: int)
    ensures p.ExistingRx? ==> tdd == p.tdd
    ensures p.NewRx? ==> tdd % 10 == 0
    ensures ValidInput(p) && p.NewRx? ==>
              tdd == (if p.weight <= 25 then 0 else if p.weight < 50 then 10 else DefaultBasalDose)
  {
    match p
    case NewRx(w) => NewPatientDose(w)
    case ExistingRx(t) => t
  }

  /** The 1.5x loading dose: round(tdd * 1.5, -1). */
  function LoadingDose(tdd: int): (dose: int)
    ensures dose % 10 == 0
    // within 5 units of 1.5 * tdd
    ensures Abs(2 * dose - 3 * tdd) <= 10
    // on a tie (every tdd that is 10 modulo 20), the even multiple of 10
    ensures Abs(2 * dose - 3 * tdd) == 10 ==> (dose / 10) % 2 == 0
  {
    RoundTo10HalfEven(3 * tdd, 2)
  }

  /** Whether an existing Awiqli patient gets the loading dose. */
  predicate NeedsLoadingDose(fastingBg: real, priorHypo: bool)
  {
    fastingBg > 10.0 && !priorHypo
  }

  /** The weekly Awiqli dose shown to the prescriber. */
  function AwiqliDose(p: Prescription, fastingBg: real, priorHypo: bool): (dose: int)
    ensures p.NewRx? ==> dose == AwiqliNaiveWeeklyDose
    ensures p.ExistingRx? && !NeedsLoadingDose(fastingBg, priorHypo) ==> dose == p.tdd
    ensures p.ExistingRx? && NeedsLoadingDose(fastingBg, priorHypo) ==>
              && dose % 10 == 0
              && Abs(2 * dose - 3 * p.tdd) <= 10
              && (Abs(2 * dose - 3 * p.tdd) == 10 ==> (dose / 10) % 2 == 0)
  {
    if p.NewRx? then AwiqliNaiveWeeklyDose
    else if NeedsLoadingDose(fastingBg, priorHypo) then LoadingDose(p.tdd)
    else p.tdd
  }

  /**
   * The dose the page ends with for the selected insulin.  Fasting BG and
   * hypoglycaemia history are asked for, and used, only for Awiqli.
   */
  function RecommendedDose(insulin: string, p: Prescription, fastingBg: real, priorHypo: bool): (dose: int)
    ensures ValidInput(p) && p.NewRx? ==> dose % 10 == 0 && 0 <= dose <= 70
    ensures ValidInput(p) && p.NewRx? ==>
              dose == if insulin == "Awiqli" then AwiqliNaiveWeeklyDose else InitialTdd(p)
    ensures p.ExistingRx? && (insulin != "Awiqli" || !NeedsLoadingDose(fastingBg, priorHypo)) ==>
              dose == p.tdd
    ensures p.ExistingRx? && insulin == "Awiqli" && NeedsLoadingDose(fastingBg, priorHypo) ==>
              dose == LoadingDose(p.tdd)
  {
    if insulin == "Awiqli" then AwiqliDose(p, fastingBg, priorHypo) else InitialTdd(p)
  }

  /**
   * Below 50 kg the weight rule only ever gives 0 or 10 units: 0 up to 25 kg
   * (5.0 units is a tie and goes to the even 0), 10 from 26 to 49 kg.
   */
  lemma NewPatientDoseBands(weight: int)
    requires 10 <= weight < 50
    ensures NewPatientDose(weight) == (if weight <= 25 then 0 else 10)
  {
    if weight <= 25 {
      RoundTo10Unique(weight, 5, 0);
    } else {
      RoundTo10Unique(weight, 5, 10);
    }
  }

  /** The tie at 25 kg: 25 * 0.2 == 5.0 rounds to 0, not 10. */
  lemma Weight25GivesZero()
    ensures NewPatientDose(25) == 0
  {
    NewPatientDoseBands(25);
  }

  /** The loading dose is exactly the half-to-even rounding of 1.5 * tdd. */
  lemma LoadingDoseCharacterised(tdd: int, m: int)
    requires m % 10 == 0
    requires Abs(2 * m - 3 * tdd) < 10 || (Abs(2 * m - 3 * tdd) == 10 && (m / 10) % 2 == 0)
    ensures LoadingDose(tdd) == m
  {
    RoundTo10Unique(3 * tdd, 2, m);
  }

  /** 350 * 1.5 == 525 is a tie between 520 and 530; half-to-even gives 520. */
  lemma LoadingDose350()
    ensures LoadingDose(350) == 520
  {
    LoadingDoseCharacterised(350, 520);
  }

  /** A TDD of 1 to 3 gives a loading dose of 0. */
  lemma LoadingDoseOfSmallTdd(tdd: int)
    requires 1 <= tdd <= 3
    ensures LoadingDose(tdd) == 0
  {
    LoadingDoseCharacterised(tdd, 0);
  }

  /** An existing Awiqli patient with fasting BG 11.0 and no hypoglycaemia on 350 units. */
  lemma Awiqli350Gives520()
    ensures AwiqliDose(ExistingRx(350), 11.0, false) == 520
  {
    LoadingDose350();
  }
}
