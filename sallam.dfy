/**
 * The Sallam bolus calculator: Mosteller body surface area, the linear bolus formula, the
 * dose per kilogram and the three-tier safety assessment of that dose.
 */
module SallamCalc {

  /** A square-root function on the non-negative reals, given only by its defining property. */
  ghost predicate IsSquareRoot(sqrt: real -> real)
  {
    forall x :: x >= 0.0 ==> sqrt(x) >= 0.0 && sqrt(x) * sqrt(x) == x
  }

  /** Two non-negative roots of the same square are equal. */
  lemma SquareRootUnique(a: real, b: real)
    requires a >= 0.0 && b >= 0.0 && a * a == b * b
    ensures a == b
  {
    assert (a - b) * (a + b) == 0.0;
    if a + b != 0.0 {
      ProductZero(a - b, a + b);
    }
  }

  lemma ProductZero(x: real, y: real)
    requires x * y == 0.0 && y != 0.0
    ensures x == 0.0
  {
  }

  /** Mosteller body surface area (m^2) from weight (kg) and height (cm). */
  function Bsa(sqrt: real -> real, weightKg: real, heightCm: real): (bsa: real)
    requires IsSquareRoot(sqrt) && heightCm * weightKg >= 0.0
    ensures bsa >= 0.0 && bsa * bsa == heightCm * weightKg / 3600.0
  {
    sqrt(heightCm * weightKg / 3600.0)
  }

  /** The BSA does not depend on which square-root function supplies it. */
  lemma BsaDeterminedByInputs(sqrt1: real -> real, sqrt2: real -> real, weightKg: real, heightCm: real)
    requires IsSquareRoot(sqrt1) && IsSquareRoot(sqrt2) && heightCm * weightKg >= 0.0
    ensures Bsa(sqrt1, weightKg, heightCm) == Bsa(sqrt2, weightKg, heightCm)
  {
    SquareRootUnique(Bsa(sqrt1, weightKg, heightCm), Bsa(sqrt2, weightKg, heightCm));
  }

  /** Sallam formula: bolus dose (mg) from age (months) and BSA (m^2). */
  function BolusDose(ageMonths: real, bsa: real): (dose: real)
    ensures ageMonths >= 0.0 && bsa >= 0.0 ==> dose >= 0.75
  {
    0.75 + 0.14 * ageMonths + 45.82 * bsa
  }

  /** The dose grows with age and with BSA. */
  lemma BolusDoseMonotone(age1: real, bsa1: real, age2: real, bsa2: real)
    requires age1 <= age2 && bsa1 <= bsa2
    ensures BolusDose(age1, bsa1) <= BolusDose(age2, bsa2)
  {
  }

  /**
   * The dose is 0.75 mg at age 0 and BSA 0, and from any inputs it rises by 0.14 mg per
   * month of age and by 45.82 mg per m^2 of BSA.
   */
  lemma BolusDoseComponents(ageMonths: real, bsa: real, dAge: real, dBsa: real)
    ensures BolusDose(0.0, 0.0) == 0.75
    ensures BolusDose(ageMonths + dAge, bsa) - BolusDose(ageMonths, bsa) == 0.14 * dAge
    ensures BolusDose(ageMonths, bsa + dBsa) - BolusDose(ageMonths, bsa) == 45.82 * dBsa
  {
  }

  /** Dose per kilogram of body weight. */
  function DosePerKg(dose: real, weightKg: real): (perKg: real)
    requires weightKg != 0.0
    ensures perKg * weightKg == dose
  {
    dose / weightKg
  }

  /** The safety assessment shown for a dose per kilogram. */
  datatype Band = High | Low | Normal

  /** High above 3 mg/kg, otherwise low below 1 mg/kg, otherwise within range. */
  function SafetyBand(dosePerKg: real): (band: Band)
    ensures band == High <==> dosePerKg > 3.0
    ensures band == Low <==> dosePerKg < 1.0
    ensures band == Normal <==> 1.0 <= dosePerKg <= 3.0
  {
    if dosePerKg > 3.0 then High
    else if dosePerKg < 1.0 then Low
    else Normal
  }

  /** Everything the page computes from its three inputs. */
  datatype Assessment = Assessment(bsa: real, bolusDose: real, dosePerKg: real, band: Band)

  function Assess(sqrt: real -> real, ageMonths: real, weightKg: real, heightCm: real): (a: Assessment)
    requires IsSquareRoot(sqrt) && weightKg > 0.0 && heightCm >= 0.0
    ensures a.bsa >= 0.0 && a.bsa * a.bsa == heightCm * weightKg / 3600.0
    ensures a.bolusDose == BolusDose(ageMonths, a.bsa)
    ensures a.dosePerKg * weightKg == a.bolusDose
    ensures a.band == SafetyBand(a.dosePerKg)
  {
    var bsa := Bsa(sqrt, weightKg, heightCm);
    var dose := BolusDose(ageMonths, bsa);
    var perKg := DosePerKg(dose, weightKg);
    Assessment(bsa, dose, perKg, SafetyBand(perKg))
  }

  /** The page's default patient (1 month, 4 kg, 52 cm) gets a dose within range. */
  lemma DefaultPatientWithinRange(sqrt: real -> real)
    requires IsSquareRoot(sqrt)
    ensures var a := Assess(sqrt, 1.0, 4.0, 52.0);
      0.2403 < a.bsa < 0.2404 && 11.90 < a.bolusDose < 11.92 && a.band == Normal
  {
    var a := Assess(sqrt, 1.0, 4.0, 52.0);
    var b := a.bsa;
    assert b * b == 208.0 / 3600.0;
    RootBetween(b, 0.2403, 0.2404);
  }

  /** A non-negative number whose square lies strictly between two squares lies between their roots. */
  lemma RootBetween(b: real, lo: real, hi: real)
    requires b >= 0.0 && lo >= 0.0 && hi >= 0.0 && lo * lo < b * b < hi * hi
    ensures lo < b < hi
  {
  }

}
