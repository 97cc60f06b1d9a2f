/**
 * The Paedfusor three-compartment model with an effect-site compartment, as set up by
 * calculate_propofol_infusion_flexible: weight-scaled volumes and clearances, the rate
 * constants derived from them, the right-hand side handed to the ODE integrator, the
 * bolus-loaded initial state and the conversion of amounts to concentrations.
 */
module PkModel {

  /** Volumes (L), clearances (L/min) and rate constants (1/min) of one patient. */
  datatype Params = Params(
    v1: real, v2: real, v3: real,
    cl1: real, cl2: real, cl3: real,
    ke0: real,
    k10: real, k12: real, k21: real, k13: real, k31: real)

  /** Drug amounts (mcg) in the central, two peripheral and the effect-site compartments. */
  datatype State = State(a1: real, a2: real, a3: real, ae: real)

  /** A right-hand side of the ODE system: the derivative at a state for an infusion rate (mg/min). */
  type Rhs = (State, real) -> State

  /**
   * The numerical integrator, which is not part of this model: given the right-hand side,
   * the initial state, the sample times and the infusion rate in mg/min, it yields one
   * state per sample time.
   */
  type Odeint = (Rhs, State, seq<real>, real) -> seq<State>

  /** The one property of the integrator the calculator relies on: one row per sample time. */
  ghost predicate SolverShape(odeint: Odeint)
  {
    forall rhs, y0, ts, rate :: |odeint(rhs, y0, ts, rate)| == |ts|
  }

  /** Parameter derivation from body weight (kg). */
  function Derive(weight: real): (p: Params)
    requires weight > 0.0
    ensures p.v1 > 0.0 && p.v2 > 0.0 && p.v3 > 0.0
    ensures p.k10 == 0.119 / 0.458 && p.k12 == 0.112 / 0.458 && p.k21 == 0.112 / 0.308
    ensures p.k13 == 0.042 / 0.458 && p.k31 == 0.042 / 0.789
    ensures p.ke0 == 0.152
  {
    var v1 := 0.458 * weight;
    var v2 := 0.308 * weight;
    var v3 := 0.789 * weight;
    var cl1 := 0.119 * weight;
    var cl2 := 0.112 * weight;
    var cl3 := 0.042 * weight;
    CancelWeight(0.119, 0.458, weight);
    CancelWeight(0.112, 0.458, weight);
    CancelWeight(0.112, 0.308, weight);
    CancelWeight(0.042, 0.458, weight);
    CancelWeight(0.042, 0.789, weight);
    Params(v1, v2, v3, cl1, cl2, cl3, 0.152,
           cl1 / v1, cl2 / v1, cl2 / v2, cl3 / v1, cl3 / v3)
  }

  /** A ratio of two weight-scaled quantities does not depend on the weight. */
  lemma CancelWeight(a: real, b: real, weight: real)
    requires b > 0.0 && weight > 0.0
    ensures (a * weight) / (b * weight) == a / b
  {
  }

  /** Volumes and clearances scale linearly with weight; the rate constants do not change. */
  lemma DeriveScalesWithWeight(weight: real, c: real)
    requires weight > 0.0 && c > 0.0
    ensures var p, q := Derive(weight), Derive(c * weight);
      q.v1 == c * p.v1 && q.v2 == c * p.v2 && q.v3 == c * p.v3 &&
      q.cl1 == c * p.cl1 && q.cl2 == c * p.cl2 && q.cl3 == c * p.cl3 &&
      q.k10 == p.k10 && q.k12 == p.k12 && q.k21 == p.k21 && q.k13 == p.k13 && q.k31 == p.k31 &&
      q.ke0 == p.ke0
  {
  }

  /**
   * Right-hand side of the ODE system (pk_model). The sample time argument of the source is
   * unused there and is omitted. The infusion rate is in mg/min and enters as mcg/min.
   * The exchange terms between compartments cancel in the total, so the total amount in the
   * three PK compartments changes only by elimination from the central compartment and by
   * the infusion.
   */
  function Derivative(p: Params, y: State, infusionRate: real): (d: State)
    ensures d.a1 + d.a2 + d.a3 == -p.k10 * y.a1 + 1000.0 * infusionRate
  {
    var infusionMcgPerMin := infusionRate * 1000.0;
    State(
      -(p.k10 + p.k12 + p.k13) * y.a1 + p.k21 * y.a2 + p.k31 * y.a3 + infusionMcgPerMin,
      p.k12 * y.a1 - p.k21 * y.a2,
      p.k13 * y.a1 - p.k31 * y.a3,
      p.ke0 * y.a1 - p.ke0 * y.ae)
  }

  /** pk_model as the closure over one patient's parameters that is handed to the integrator. */
  function PkRhs(p: Params): Rhs
  {
    (y: State, infusionRate: real) => Derivative(p, y, infusionRate)
  }

  /** The effect site is a passive indicator: its amount does not feed back into A1..A3. */
  lemma EffectSiteDoesNotFeedBack(p: Params, y: State, ae: real, infusionRate: real)
    ensures var d, e := Derivative(p, y, infusionRate), Derivative(p, y.(ae := ae), infusionRate);
      d.a1 == e.a1 && d.a2 == e.a2 && d.a3 == e.a3
  {
  }

  /** Without elimination (k10 = 0) the PK compartments gain exactly the infused amount. */
  lemma MassConservedWithoutElimination(p: Params, y: State, infusionRate: real)
    requires p.k10 == 0.0
    ensures var d := Derivative(p, y, infusionRate); d.a1 + d.a2 + d.a3 == 1000.0 * infusionRate
  {
  }

  /**
   * For a positive weight, the effect site is at rest exactly when it holds the same amount
   * as the central compartment; it fills while below and empties while above.
   */
  lemma EffectSiteEquilibrium(weight: real, y: State, infusionRate: real)
    requires weight > 0.0
    ensures var d := Derivative(Derive(weight), y, infusionRate);
      (d.ae == 0.0 <==> y.ae == y.a1) && (d.ae > 0.0 <==> y.ae < y.a1)
  {
  }

  /**
   * Amounts cannot be driven negative: at a non-negative state with a non-negative
   * infusion, every compartment that is empty has a non-negative derivative.
   */
  lemma DerivativeQuasiPositive(weight: real, y: State, infusionRate: real)
    requires weight > 0.0 && infusionRate >= 0.0
    requires y.a1 >= 0.0 && y.a2 >= 0.0 && y.a3 >= 0.0 && y.ae >= 0.0
    ensures var d := Derivative(Derive(weight), y, infusionRate);
      (y.a1 == 0.0 ==> d.a1 >= 0.0) && (y.a2 == 0.0 ==> d.a2 >= 0.0) &&
      (y.a3 == 0.0 ==> d.a3 >= 0.0) && (y.ae == 0.0 ==> d.ae >= 0.0)
  {
  }

  /** The bolus (mg/kg) is loaded entirely into the central compartment, in mcg. */
  function InitialState(bolusDose: real, weight: real): (y: State)
    ensures y.a2 == 0.0 && y.a3 == 0.0 && y.ae == 0.0
    ensures y.a1 + y.a2 + y.a3 + y.ae == 1000.0 * (bolusDose * weight)
  {
    State(bolusDose * weight * 1000.0, 0.0, 0.0, 0.0)
  }

  /** Concentration (mcg/mL) of an amount (mcg) in the central volume (L). */
  function Concentration(amount: real, v1: real): real
    requires v1 > 0.0
  {
    amount / (v1 * 1000.0)
  }

  /** Right after the bolus the plasma concentration is bolus / 0.458, whatever the weight. */
  lemma InitialPlasmaConcentration(bolusDose: real, weight: real)
    requires weight > 0.0
    ensures Concentration(InitialState(bolusDose, weight).a1, Derive(weight).v1) == bolusDose / 0.458
    ensures Concentration(InitialState(bolusDose, weight).ae, Derive(weight).v1) == 0.0
  {
  }

  /** Plasma concentration curve C1: column A1 of the solution divided by V1 (in mL). */
  function PlasmaCurve(sol: seq<State>, v1: real): (c: seq<real>)
    requires v1 > 0.0
  {
    seq(|sol|, i requires 0 <= i < |sol| => Concentration(sol[i].a1, v1))
  }

  /** Effect-site concentration curve Ce: column Ae of the solution divided by V1 (in mL). */
  function EffectSiteCurve(sol: seq<State>, v1: real): (c: seq<real>)
    requires v1 > 0.0
  {
    seq(|sol|, i requires 0 <= i < |sol| => Concentration(sol[i].ae, v1))
  }
}
