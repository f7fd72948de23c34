/**
 * The adjustment pipeline: six conditional multiplicative stages applied in a
 * fixed order to the base interval, each recording the factor it applied,
 * then a clamp to [1, 10] years and rounding to one decimal.
 */
module Adjustments {
  import opened Wrappers
  import opened Schedule
  import opened Interpolation

  /**
   * A form field whose value may be text or a boolean. The two toggles of
   * the input form hold booleans; the pipeline compares them with the text
   * "yes".
   */
  datatype FormValue = Absent | Text(text: string) | Flag(on: bool)

  /**
   * The calculation inputs. `systemAge` is the integer parsed from the
   * field, `None` when the field is empty or does not start with a number.
   * `systemType` and `soilType` are carried but unused.
   */
  datatype Inputs = Inputs(
    tankSize: int,
    householdSize: int,
    waterUsage: string,
    garbageDisposal: FormValue,
    laundryFrequency: string,
    laundryHabits: string,
    waterSoftener: FormValue,
    systemAge: Option<int>,
    systemType: string,
    soilType: string,
    lastPumped: Option<Date>)

  datatype Factor = Factor(name: string, multiplier: real, description: string)

  /** The result of the pipeline: final interval, fired factors, rounded base interval. */
  datatype Adjusted = Adjusted(finalInterval: real, factors: seq<Factor>, baseInterval: real)

  // ------------------------------------------------ the pipeline as data

  /** One entry per factor the pipeline can record, in recording order. */
  datatype Stage =
    | GarbageDisposal
    | LowWaterUsage
    | HighWaterUsage
    | HighLaundryUse
    | ConcentratedLaundry
    | WaterSoftener
    | OlderSystem

  const Pipeline: seq<Stage> :=
    [GarbageDisposal, LowWaterUsage, HighWaterUsage, HighLaundryUse,
     ConcentratedLaundry, WaterSoftener, OlderSystem]

  /** Position of a stage in the pipeline. */
  function Rank(s: Stage): nat {
    match s
    case GarbageDisposal => 0
    case LowWaterUsage => 1
    case HighWaterUsage => 2
    case HighLaundryUse => 3
    case ConcentratedLaundry => 4
    case WaterSoftener => 5
    case OlderSystem => 6
  }

  /** The condition under which a stage applies its factor. */
  predicate Fires(s: Stage, inputs: Inputs) {
    match s
    case GarbageDisposal => inputs.garbageDisposal == Text("yes")
    case LowWaterUsage => inputs.waterUsage == "low"
    case HighWaterUsage => inputs.waterUsage == "high"
    case HighLaundryUse => inputs.laundryFrequency == "high"
    case ConcentratedLaundry => inputs.laundryHabits == "concentrated"
    case WaterSoftener => inputs.waterSoftener == Text("yes")
    case OlderSystem => inputs.systemAge.Some? && inputs.systemAge.value > 20
  }

  const GarbageDisposalName := "Garbage Disposal"
  const GarbageDisposalDescription := "Garbage disposals add significant solids to the tank"
  const LowWaterUsageName := "Low Water Usage"
  const LowWaterUsageDescription := "Water conservation extends tank capacity"
  const HighWaterUsageName := "High Water Usage"
  const HighWaterUsageDescription := "High water flow reduces settling efficiency"
  const HighLaundryUseName := "High Laundry Use"
  const HighLaundryUseDescription := "Frequent laundry loads increase hydraulic load"
  const ConcentratedLaundryName := "Concentrated Laundry"
  const ConcentratedLaundryDescription := "Laundry loads concentrated in 1-2 days reduce settling time"
  const WaterSoftenerName := "Water Softener"
  const WaterSoftenerDescription := "Brine discharge may affect bacterial activity"
  const OlderSystemName := "Older System"
  const OlderSystemDescription := "Systems over 20 years may have reduced efficiency"

  function FactorOf(s: Stage): Factor {
    match s
    case GarbageDisposal =>
      Factor(GarbageDisposalName, 0.7, GarbageDisposalDescription)
    case LowWaterUsage =>
      Factor(LowWaterUsageName, 1.1, LowWaterUsageDescription)
    case HighWaterUsage =>
      Factor(HighWaterUsageName, 0.85, HighWaterUsageDescription)
    case HighLaundryUse =>
      Factor(HighLaundryUseName, 0.9, HighLaundryUseDescription)
    case ConcentratedLaundry =>
      Factor(ConcentratedLaundryName, 0.95, ConcentratedLaundryDescription)
    case WaterSoftener =>
      Factor(WaterSoftenerName, 0.95, WaterSoftenerDescription)
    case OlderSystem =>
      Factor(OlderSystemName, 0.9, OlderSystemDescription)
  }

  /** The stages of `stages` whose conditions hold, in their order. */
  function Fired(stages: seq<Stage>, inputs: Inputs): seq<Stage> {
    if stages == [] then []
    else (if Fires(stages[0], inputs) then [stages[0]] else []) + Fired(stages[1..], inputs)
  }

  /** A stage is among the fired ones exactly when it is in the list and its condition holds. */
  lemma {:induction false} FiredMembers(stages: seq<Stage>, inputs: Inputs)
    ensures |Fired(stages, inputs)| <= |stages|
    ensures forall s :: s in Fired(stages, inputs) <==> s in stages && Fires(s, inputs)
  {
    if stages != [] {
      FiredMembers(stages[1..], inputs);
      assert stages == [stages[0]] + stages[1..];
    }
  }

  /** The factor records of a list of stages, in the same order. */
  function Records(stages: seq<Stage>): seq<Factor> {
    if stages == [] then [] else [FactorOf(stages[0])] + Records(stages[1..])
  }

  lemma {:induction false} RecordsAt(stages: seq<Stage>)
    ensures |Records(stages)| == |stages|
    ensures forall k :: 0 <= k < |stages| ==> Records(stages)[k] == FactorOf(stages[k])
  {
    if stages != [] {
      RecordsAt(stages[1..]);
    }
  }

  /** The product of the multipliers of a factor list (1 for none). */
  function Product(factors: seq<Factor>): real {
    if factors == [] then 1.0 else factors[0].multiplier * Product(factors[1..])
  }

  /** The base interval times the multipliers of the factors. */
  function Scaled(baseInterval: real, factors: seq<Factor>): real {
    baseInterval * Product(factors)
  }

  // ------------------------------------------------ clamp and rounding

  /** `Math.max(1, Math.min(10, x))`: the nearest point of [1, 10]. */
  function Clamp(x: real): (r: real)
    ensures 1.0 <= r <= 10.0
    ensures 1.0 <= x <= 10.0 ==> r == x
    ensures x < 1.0 ==> r == 1.0
    ensures 10.0 < x ==> r == 10.0
  {
    Max(1.0, Min(10.0, x))
  }

  /**
   * `parseFloat(x.toFixed(1))` over exact reals: the nearest multiple of 0.1,
   * a tie going away from zero.
   */
  function RoundTenth(x: real): (r: real)
    ensures -0.05 <= r - x <= 0.05
    ensures (r * 10.0).Floor as real == r * 10.0
  {
    if x >= 0.0 then
      var n := (x * 10.0 + 0.5).Floor;
      TenthsAreWhole(n);
      n as real / 10.0
    else
      var n := (-x * 10.0 + 0.5).Floor;
      TenthsAreWhole(-n);
      -(n as real / 10.0)
  }

  lemma TenthsAreWhole(n: int)
    ensures ((n as real / 10.0) * 10.0).Floor as real == (n as real / 10.0) * 10.0
  {
  }

  /** Rounding keeps a value of [1, 10] inside [1, 10]. */
  lemma RoundTenthInRange(x: real)
    requires 1.0 <= x <= 10.0
    ensures 1.0 <= RoundTenth(x) <= 10.0
  {
    var n := (x * 10.0 + 0.5).Floor;
    assert 10 <= n <= 100;
  }

  /** A stage that does not fire leaves the fired list shorter than the pipeline. */
  lemma {:induction false} FiredShorter(stages: seq<Stage>, s: Stage, inputs: Inputs)
    requires s in stages && !Fires(s, inputs)
    ensures |Fired(stages, inputs)| < |stages|
  {
    if stages[0] != s {
      assert s in stages[1..];
      FiredShorter(stages[1..], s, inputs);
    } else {
      FiredMembers(stages[1..], inputs);
    }
  }

  /** Low and high water usage exclude each other, so at most six factors fire. */
  lemma AtMostSixFactors(inputs: Inputs)
    ensures |Fired(Pipeline, inputs)| <= 6
  {
    if Fires(LowWaterUsage, inputs) {
      FiredShorter(Pipeline, HighWaterUsage, inputs);
    } else {
      FiredShorter(Pipeline, LowWaterUsage, inputs);
    }
  }

  // ------------------------------------------------ running the pipeline

  /** The running interval and the factor records pushed so far. */
  datatype Running = Running(interval: real, factors: seq<Factor>)

  /** The interval multiplied by the stage's multiplier, case by case. */
  function Scale(x: real, s: Stage): real {
    match s
    case GarbageDisposal => x * 0.7
    case LowWaterUsage => x * 1.1
    case HighWaterUsage => x * 0.85
    case HighLaundryUse => x * 0.9
    case ConcentratedLaundry => x * 0.95
    case WaterSoftener => x * 0.95
    case OlderSystem => x * 0.9
  }

  lemma ScaleMultiplies(x: real, s: Stage)
    ensures Scale(x, s) == x * FactorOf(s).multiplier
  {
  }

  /** One stage: when it fires, multiply the interval and push its record. */
  function Apply(st: Running, s: Stage, inputs: Inputs): Running {
    if Fires(s, inputs) then Running(Scale(st.interval, s), st.factors + [FactorOf(s)])
    else st
  }

  /** The stages of `stages` applied one after the other. */
  function Run(st: Running, stages: seq<Stage>, inputs: Inputs): Running
    decreases |stages|
  {
    if stages == [] then st else Run(Apply(st, stages[0], inputs), stages[1..], inputs)
  }

  lemma MulAssoc(a: real, b: real, c: real)
    ensures (a * b) * c == a * (b * c)
  {
  }

  /** Scaling by one more factor in front. */
  lemma ScaledCons(x: real, f: Factor, factors: seq<Factor>)
    ensures Scaled(x * f.multiplier, factors) == Scaled(x, [f] + factors)
  {
    assert ([f] + factors)[1..] == factors;
    MulAssoc(x, f.multiplier, Product(factors));
  }

  /**
   * Running a list of stages pushes exactly the records of the stages that
   * fire, in list order, and multiplies the interval by their product.
   */
  lemma {:induction false} RunRecordsFired(st: Running, stages: seq<Stage>, inputs: Inputs)
    ensures Run(st, stages, inputs).factors == st.factors + Records(Fired(stages, inputs))
    ensures Run(st, stages, inputs).interval == Scaled(st.interval, Records(Fired(stages, inputs)))
    decreases |stages|
  {
    if stages == [] {
      assert st.factors + [] == st.factors;
      assert Scaled(st.interval, []) == st.interval * 1.0;
    } else {
      var s, rest := stages[0], stages[1..];
      var recs := Records(Fired(rest, inputs));
      RunRecordsFired(Apply(st, s, inputs), rest, inputs);
      if Fires(s, inputs) {
        var f := FactorOf(s);
        assert Fired(stages, inputs) == [s] + Fired(rest, inputs);
        assert ([s] + Fired(rest, inputs))[1..] == Fired(rest, inputs);
        assert Records(Fired(stages, inputs)) == [f] + recs;
        ScaleMultiplies(st.interval, s);
        ScaledCons(st.interval, f, recs);
        assert (st.factors + [f]) + recs == st.factors + ([f] + recs);
      } else {
        assert Fired(stages, inputs) == [] + Fired(rest, inputs) == Fired(rest, inputs);
      }
    }
  }

  /** The specification of the pipeline: every stage in order, then clamp and round. */
  function Adjust(baseInterval: real, inputs: Inputs): Adjusted {
    var st := Run(Running(baseInterval, []), Pipeline, inputs);
    Adjusted(RoundTenth(Clamp(st.interval)), st.factors, RoundTenth(baseInterval))
  }

  lemma AdjustProperties(baseInterval: real, inputs: Inputs)
    ensures var r := Adjust(baseInterval, inputs);
      && r.factors == Records(Fired(Pipeline, inputs))
      && 1.0 <= r.finalInterval <= 10.0
      && -0.05 <= r.finalInterval - Clamp(Scaled(baseInterval, r.factors)) <= 0.05
      && -0.05 <= r.baseInterval - baseInterval <= 0.05
      && |r.factors| <= 6
  {
    var st := Run(Running(baseInterval, []), Pipeline, inputs);
    RunRecordsFired(Running(baseInterval, []), Pipeline, inputs);
    assert [] + Records(Fired(Pipeline, inputs)) == Records(Fired(Pipeline, inputs));
    RoundTenthInRange(Clamp(st.interval));
    AtMostSixFactors(inputs);
    RecordsAt(Fired(Pipeline, inputs));
  }

  /** The pipeline unrolled stage by stage. */
  lemma RunPipeline(st: Running, inputs: Inputs)
    ensures Run(st, Pipeline, inputs)
         == Apply(Apply(Apply(Apply(Apply(Apply(Apply(st,
              GarbageDisposal, inputs), LowWaterUsage, inputs), HighWaterUsage, inputs), HighLaundryUse, inputs),
              ConcentratedLaundry, inputs), WaterSoftener, inputs), OlderSystem, inputs)
  {
    var p := Pipeline;
    assert p[1..][1..][1..][1..][1..][1..][1..] == [];
  }

  /** The specification with the pipeline unrolled stage by stage. */
  lemma AdjustUnrolled(baseInterval: real, inputs: Inputs)
    ensures var st := Apply(Apply(Apply(Apply(Apply(Apply(Apply(Running(baseInterval, []),
              GarbageDisposal, inputs), LowWaterUsage, inputs), HighWaterUsage, inputs), HighLaundryUse, inputs),
              ConcentratedLaundry, inputs), WaterSoftener, inputs), OlderSystem, inputs);
      Adjust(baseInterval, inputs) == Adjusted(RoundTenth(Max(1.0, Min(10.0, st.interval))), st.factors, RoundTenth(baseInterval))
  {
    RunPipeline(Running(baseInterval, []), inputs);
  }

  /**
   * One adjustment block: when it applies, multiply the running interval by
   * the factor's multiplier and push the factor record.
   */
  method AdjustBy(interval: real, factors: seq<Factor>, applies: bool, factor: Factor,
                  ghost st: Running, ghost s: Stage, ghost inputs: Inputs)
    returns (interval1: real, factors1: seq<Factor>)
    requires st == Running(interval, factors) && applies == Fires(s, inputs) && factor == FactorOf(s)
    ensures Running(interval1, factors1) == Apply(st, s, inputs)
  {
    interval1, factors1 := interval, factors;
    if applies {
      ScaleMultiplies(interval, s);
      interval1 := interval * factor.multiplier;
      factors1 := factors + [factor];
    }
  }

  method ApplyAdjustments(baseInterval: real, inputs: Inputs) returns (result: Adjusted)
    ensures result == Adjust(baseInterval, inputs)
  {
    var adjustedInterval := baseInterval;
    var factors: seq<Factor> := [];
    ghost var st := Running(baseInterval, []);

    adjustedInterval, factors := AdjustBy(adjustedInterval, factors, inputs.garbageDisposal == Text("yes"),
      Factor(GarbageDisposalName, 0.7, GarbageDisposalDescription), st, GarbageDisposal, inputs);
    st := Apply(st, GarbageDisposal, inputs);
    adjustedInterval, factors := AdjustBy(adjustedInterval, factors, inputs.waterUsage == "low",
      Factor(LowWaterUsageName, 1.1, LowWaterUsageDescription), st, LowWaterUsage, inputs);
    st := Apply(st, LowWaterUsage, inputs);
    adjustedInterval, factors := AdjustBy(adjustedInterval, factors, inputs.waterUsage != "low" && inputs.waterUsage == "high",
      Factor(HighWaterUsageName, 0.85, HighWaterUsageDescription), st, HighWaterUsage, inputs);
    st := Apply(st, HighWaterUsage, inputs);
    adjustedInterval, factors := AdjustBy(adjustedInterval, factors, inputs.laundryFrequency == "high",
      Factor(HighLaundryUseName, 0.9, HighLaundryUseDescription), st, HighLaundryUse, inputs);
    st := Apply(st, HighLaundryUse, inputs);
    adjustedInterval, factors := AdjustBy(adjustedInterval, factors, inputs.laundryHabits == "concentrated",
      Factor(ConcentratedLaundryName, 0.95, ConcentratedLaundryDescription), st, ConcentratedLaundry, inputs);
    st := Apply(st, ConcentratedLaundry, inputs);
    adjustedInterval, factors := AdjustBy(adjustedInterval, factors, inputs.waterSoftener == Text("yes"),
      Factor(WaterSoftenerName, 0.95, WaterSoftenerDescription), st, WaterSoftener, inputs);
    st := Apply(st, WaterSoftener, inputs);
    adjustedInterval, factors := AdjustBy(adjustedInterval, factors, inputs.systemAge.Some? && inputs.systemAge.value > 20,
      Factor(OlderSystemName, 0.9, OlderSystemDescription), st, OlderSystem, inputs);
    st := Apply(st, OlderSystem, inputs);
    AdjustUnrolled(baseInterval, inputs);

    adjustedInterval := Max(1.0, Min(10.0, adjustedInterval));
    result := Adjusted(RoundTenth(adjustedInterval), factors, RoundTenth(baseInterval));
  }

  // ------------------------------------------------ properties of the pipeline

  /** Strictly increasing pipeline positions. */
  ghost predicate InOrder(stages: seq<Stage>) {
    forall i, j :: 0 <= i < j < |stages| ==> Rank(stages[i]) < Rank(stages[j])
  }

  /** Keeping only the stages that fire keeps their relative order. */
  lemma {:induction false} FiredKeepsOrder(stages: seq<Stage>, inputs: Inputs)
    requires InOrder(stages)
    ensures InOrder(Fired(stages, inputs))
  {
    if stages != [] {
      var rest := stages[1..];
      assert InOrder(rest) by {
        forall i, j | 0 <= i < j < |rest| ensures Rank(rest[i]) < Rank(rest[j]) {
          assert rest[i] == stages[i + 1] && rest[j] == stages[j + 1];
        }
      }
      FiredKeepsOrder(rest, inputs);
      FiredMembers(rest, inputs);
      if Fires(stages[0], inputs) {
        var r := Fired(stages, inputs);
        assert r == [stages[0]] + Fired(rest, inputs);
        forall j | 0 < j < |r| ensures Rank(r[0]) < Rank(r[j]) {
          assert r[j] in Fired(rest, inputs);
          var k :| 0 <= k < |rest| && rest[k] == r[j];
          assert rest[k] == stages[k + 1];
        }
      } else {
        assert Fired(stages, inputs) == Fired(rest, inputs);
      }
    }
  }

  /** Each stage sits at its rank in the pipeline. */
  lemma PipelineRanks()
    ensures forall i :: 0 <= i < |Pipeline| ==> Rank(Pipeline[i]) == i
  {
  }

  /** The stages that fire, hence the factors recorded, come in pipeline order. */
  lemma FactorsInPipelineOrder(inputs: Inputs)
    ensures InOrder(Fired(Pipeline, inputs))
  {
    PipelineRanks();
    FiredKeepsOrder(Pipeline, inputs);
  }

  /** The two water-usage stages exclude each other: at most one of their factors is recorded. */
  lemma AtMostOneWaterUsageFactor(inputs: Inputs)
    ensures !(LowWaterUsage in Fired(Pipeline, inputs) && HighWaterUsage in Fired(Pipeline, inputs))
  {
    FiredMembers(Pipeline, inputs);
  }

  lemma EveryStageInPipeline(s: Stage)
    ensures s in Pipeline
  {
    assert Pipeline[Rank(s)] == s;
  }

  /**
   * The factor list is empty exactly when no stage fires; then an in-range
   * base interval comes out as the final interval, only rounded.
   */
  lemma NoFactorsIffNothingFires(baseInterval: real, inputs: Inputs)
    ensures Adjust(baseInterval, inputs).factors == [] <==> forall s :: !Fires(s, inputs)
    ensures (forall s :: !Fires(s, inputs)) && 1.0 <= baseInterval <= 10.0 ==>
      Adjust(baseInterval, inputs).finalInterval == Adjust(baseInterval, inputs).baseInterval == RoundTenth(baseInterval)
  {
    AdjustProperties(baseInterval, inputs);
    FiredMembers(Pipeline, inputs);
    var fired := Fired(Pipeline, inputs);
    RecordsAt(fired);
    if forall s :: !Fires(s, inputs) {
      RunRecordsFired(Running(baseInterval, []), Pipeline, inputs);
      assert Scaled(baseInterval, []) == baseInterval;
    } else {
      var s :| Fires(s, inputs);
      EveryStageInPipeline(s);
      assert s in fired;
    }
  }

  /**
   * The pre-clamp interval is the base exactly when no stage fires: no
   * product of the multipliers that can fire together equals 1.
   */
  lemma ProductOneOnlyWhenNothingFires(baseInterval: real, inputs: Inputs)
    requires baseInterval > 0.0
    ensures Scaled(baseInterval, Records(Fired(Pipeline, inputs))) == baseInterval
            <==> Fired(Pipeline, inputs) == []
  {
    var st0 := Running(baseInterval, []);
    RunRecordsFired(st0, Pipeline, inputs);
    RunPipeline(st0, inputs);
    ChainIsBaseIffNothingFires(baseInterval, inputs);
    FiredMembers(Pipeline, inputs);
    if Fired(Pipeline, inputs) != [] {
      var s := Fired(Pipeline, inputs)[0];
      assert Fires(s, inputs);
    } else {
      forall s ensures !Fires(s, inputs) {
        EveryStageInPipeline(s);
      }
    }
  }

  /** The unrolled pipeline leaves a positive interval unchanged only when no stage fires. */
  lemma ChainIsBaseIffNothingFires(b: real, inputs: Inputs)
    requires b > 0.0
    ensures var st := Apply(Apply(Apply(Apply(Apply(Apply(Apply(Running(b, []),
              GarbageDisposal, inputs), LowWaterUsage, inputs), HighWaterUsage, inputs), HighLaundryUse, inputs),
              ConcentratedLaundry, inputs), WaterSoftener, inputs), OlderSystem, inputs);
            st.interval == b <==> forall s :: !Fires(s, inputs)
  {
  }

  /**
   * The two toggles of the form hold booleans, never the text "yes": the
   * garbage-disposal and water-softener factors are then never recorded.
   */
  lemma BooleanTogglesNeverFire(inputs: Inputs)
    requires inputs.garbageDisposal.Flag? && inputs.waterSoftener.Flag?
    ensures GarbageDisposal !in Fired(Pipeline, inputs)
    ensures WaterSoftener !in Fired(Pipeline, inputs)
  {
    FiredMembers(Pipeline, inputs);
  }

  /**
   * A garbage disposal with high water usage and nothing else: the two
   * factors in that order, and the interval scaled by 0.7 * 0.85.
   */
  lemma GarbageDisposalAndHighWaterUsage(baseInterval: real, inputs: Inputs)
    requires inputs.garbageDisposal == Text("yes") && inputs.waterUsage == "high"
    requires inputs.laundryFrequency != "high" && inputs.laundryHabits != "concentrated"
    requires inputs.waterSoftener != Text("yes") && !(inputs.systemAge.Some? && inputs.systemAge.value > 20)
    ensures Adjust(baseInterval, inputs).factors == [FactorOf(GarbageDisposal), FactorOf(HighWaterUsage)]
    ensures Adjust(baseInterval, inputs).finalInterval == RoundTenth(Clamp(baseInterval * 0.595))
  {
    AdjustUnrolled(baseInterval, inputs);
  }
}
