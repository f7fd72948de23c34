/**
 * The top-level calculation: base interval from the table, the adjustment
 * pipeline, then the next pumping date and the risk level, both computed
 * from the rounded final interval.
 */
module PumpingFrequency {
  import opened Wrappers
  import opened BaseInterval
  import opened Schedule
  import opened Adjustments

  datatype PumpingResult = PumpingResult(
    baseInterval: real,
    finalInterval: real,
    factors: seq<Factor>,
    nextPumpDate: Option<Date>,
    riskLevel: RiskLevel,
    inputs: Inputs)

  /** A last-pumped date, when given, is a calendar date. */
  predicate ValidInputs(inputs: Inputs) {
    inputs.lastPumped.Some? ==> ValidDate(inputs.lastPumped.value)
  }

  /**
   * The specification of the calculation. `None` stands for a base interval
   * the table cannot produce (a missing cell along the way).
   */
  function Frequency(t: Table, inputs: Inputs): Option<PumpingResult>
    requires WellFormed(t) && ValidInputs(inputs)
  {
    match CalculateBaseInterval(t, inputs.tankSize, inputs.householdSize)
    case None => None
    case Some(base) =>
      var adjusted := Adjust(base, inputs);
      Some(PumpingResult(
        adjusted.baseInterval,
        adjusted.finalInterval,
        adjusted.factors,
        NextPumpDate(inputs.lastPumped, adjusted.finalInterval),
        DetermineRiskLevel(adjusted.finalInterval),
        inputs))
  }

  /** The calculation as the original composes it, calling the pipeline and the date step. */
  method CalculatePumpingFrequency(t: Table, inputs: Inputs) returns (r: Option<PumpingResult>)
    requires WellFormed(t) && ValidInputs(inputs)
    ensures r == Frequency(t, inputs)
  {
    var base := CalculateBaseInterval(t, inputs.tankSize, inputs.householdSize);
    if base.None? {
      return None;
    }
    var adjusted := ApplyAdjustments(base.value, inputs);
    var nextPumpDate := CalculateNextPumpDate(inputs.lastPumped, adjusted.finalInterval);
    var riskLevel := DetermineRiskLevel(adjusted.finalInterval);
    r := Some(PumpingResult(adjusted.baseInterval, adjusted.finalInterval, adjusted.factors,
                            nextPumpDate, riskLevel, inputs));
  }

  /**
   * What a result promises: it exists exactly when the table yields a base
   * interval; its final interval lies in [1, 10] within 0.05 of the clamped
   * product of base and multipliers; the factors are those of the stages
   * that fire; the risk band and the next date both come from the rounded
   * final interval; the inputs are echoed back.
   */
  lemma FrequencyProperties(t: Table, inputs: Inputs)
    requires WellFormed(t) && ValidInputs(inputs)
    ensures var r := Frequency(t, inputs);
      var b := CalculateBaseInterval(t, inputs.tankSize, inputs.householdSize);
      && (r.None? <==> b.None?)
      && (r.Some? ==>
          && 1.0 <= r.value.finalInterval <= 10.0
          && -0.05 <= r.value.finalInterval - Clamp(Scaled(b.value, r.value.factors)) <= 0.05
          && -0.05 <= r.value.baseInterval - b.value <= 0.05
          && r.value.factors == Records(Fired(Pipeline, inputs))
          && (r.value.riskLevel.level == Low <==> 5.0 <= r.value.finalInterval)
          && (r.value.riskLevel.level == Moderate <==> 3.0 <= r.value.finalInterval < 5.0)
          && (r.value.riskLevel.level == High <==> r.value.finalInterval < 3.0)
          && (r.value.nextPumpDate.None? <==> inputs.lastPumped.None?)
          && r.value.nextPumpDate == NextPumpDate(inputs.lastPumped, r.value.finalInterval)
          && r.value.inputs == inputs)
  {
    var b := CalculateBaseInterval(t, inputs.tankSize, inputs.householdSize);
    if b.Some? {
      AdjustProperties(b.value, inputs);
    }
  }

  /**
   * A tabulated size pair with an in-range cell and no adjustment that
   * fires: the result reports that cell, rounded, as both base and final
   * interval, with no factors.
   */
  lemma TabulatedWithoutAdjustments(t: Table, inputs: Inputs)
    requires WellFormed(t) && ValidInputs(inputs)
    requires inputs.tankSize in t && inputs.householdSize in t[inputs.tankSize]
    requires 1.0 <= t[inputs.tankSize][inputs.householdSize] <= 10.0
    requires forall s :: !Fires(s, inputs)
    ensures var r := Frequency(t, inputs);
      var v := t[inputs.tankSize][inputs.householdSize];
      && r.Some?
      && r.value.factors == []
      && r.value.baseInterval == r.value.finalInterval == RoundTenth(v)
  {
    var v := t[inputs.tankSize][inputs.householdSize];
    ExactHit(t, inputs.tankSize, inputs.householdSize);
    NoFactorsIffNothingFires(v, inputs);
  }
}
