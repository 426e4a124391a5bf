/** The memory guard before a real model is started, over exact numbers. */
module RuntimeGuard {
  import opened Dicts
  import opened JsonText

  const REPORT_SCHEMA := "runtime-preflight/v1"

  datatype Plan = Plan(
    backendId: string, modelId: string, explicitlyAuthorized: bool, modelWeightsGib: real, kvCacheGib: real,
    runtimeOverheadGib: real, serviceOverheadGib: real, memoryCeilingGib: real)

  datatype Reason = InvalidMemoryEstimate | RuntimeNotAuthorized | MemoryCeilingExceeded | PreflightPassed

  datatype Decision = Decision(allowed: bool, reason: Reason, estimatedTotalGib: real, memoryCeilingGib: real)

  function Code(r: Reason): string {
    match r
    case InvalidMemoryEstimate => "invalid_memory_estimate"
    case RuntimeNotAuthorized => "runtime_not_authorized"
    case MemoryCeilingExceeded => "memory_ceiling_exceeded"
    case PreflightPassed => "runtime_preflight_passed"
  }

  function Message(r: Reason): string {
    match r
    case InvalidMemoryEstimate => "Runtime memory estimates must be non-negative."
    case RuntimeNotAuthorized => "Explicit authorization is required before real-model runtime execution."
    case MemoryCeilingExceeded => "Estimated runtime memory exceeds the configured ceiling."
    case PreflightPassed => "Runtime preflight passed."
  }

  /** The nearest integer, and the even one of two equally near. */
  function RoundHalfEven(x: real): int {
    var f := x.Floor;
    var d := x - f as real;
    if d < 0.5 || (d == 0.5 && f % 2 == 0) then f else f + 1
  }

  /** `round(x, 3)` */
  function Round3(x: real): real {
    RoundHalfEven(x * 1000.0) as real / 1000.0
  }

  function TrueTotal(p: Plan): real {
    p.modelWeightsGib + p.kvCacheGib + p.runtimeOverheadGib + p.serviceOverheadGib
  }

  function EstimatedTotal(p: Plan): real {
    Round3(TrueTotal(p))
  }

  predicate HasNegativeEstimate(p: Plan) {
    || p.modelWeightsGib < 0.0 || p.kvCacheGib < 0.0 || p.runtimeOverheadGib < 0.0 || p.serviceOverheadGib < 0.0
    || p.memoryCeilingGib < 0.0
  }

  function Evaluate(p: Plan): Decision {
    var total := EstimatedTotal(p);
    if HasNegativeEstimate(p) then Decision(false, InvalidMemoryEstimate, total, p.memoryCeilingGib)
    else if !p.explicitlyAuthorized then Decision(false, RuntimeNotAuthorized, total, p.memoryCeilingGib)
    else if total > p.memoryCeilingGib then Decision(false, MemoryCeilingExceeded, total, p.memoryCeilingGib)
    else Decision(true, PreflightPassed, total, p.memoryCeilingGib)
  }

  /** How a number appears in the report is not decided here. */
  function MemoryObject(p: Plan, number: real -> Json): Dict<string, Json> {
    var d := Evaluate(p);
    [Entry("model_weights", number(p.modelWeightsGib)), Entry("kv_cache", number(p.kvCacheGib)),
     Entry("runtime_overhead", number(p.runtimeOverheadGib)), Entry("service_overhead", number(p.serviceOverheadGib)),
     Entry("estimated_total", number(d.estimatedTotalGib)), Entry("ceiling", number(d.memoryCeilingGib))]
  }

  function DecisionObject(d: Decision): Dict<string, Json> {
    [Entry("allowed", Bool(d.allowed)), Entry("reason_code", Str(Code(d.reason))),
     Entry("message", Str(Message(d.reason)))]
  }

  function BuildReport(p: Plan, number: real -> Json): Dict<string, Json> {
    [Entry("schema_version", Str(REPORT_SCHEMA)), Entry("backend_id", Str(p.backendId)),
     Entry("model_id", Str(p.modelId)), Entry("explicitly_authorized", Bool(p.explicitlyAuthorized)),
     Entry("memory_gib", Obj(MemoryObject(p, number))), Entry("decision", Obj(DecisionObject(Evaluate(p))))]
  }

  // ----- Rounding -----

  lemma RoundNear(x: real)
    ensures -0.5 <= RoundHalfEven(x) as real - x <= 0.5
  {}

  lemma RoundMonotone(x: real, y: real)
    requires x <= y
    ensures RoundHalfEven(x) <= RoundHalfEven(y)
  {
    assert x.Floor <= y.Floor;
  }

  /** Rounding to thousandths moves a number by at most half a thousandth, and keeps the order. */
  lemma Round3Near(x: real)
    ensures -0.0005 <= Round3(x) - x <= 0.0005
  {
    RoundNear(x * 1000.0);
  }

  lemma Round3Monotone(x: real, y: real)
    requires x <= y
    ensures Round3(x) <= Round3(y)
  {
    RoundMonotone(x * 1000.0, y * 1000.0);
  }

  // ----- What permission means -----

  /** An allowed plan needs at most half a thousandth more than the ceiling. */
  lemma AllowedFits(p: Plan)
    requires Evaluate(p).allowed
    ensures TrueTotal(p) <= p.memoryCeilingGib + 0.0005
  {
    Round3Near(TrueTotal(p));
  }

  /** The condition on a total and a ceiling that the check amounts to: in thousandths, the total lies
      below the middle of the step that the ceiling lies in, or on it when the step starts evenly. */
  predicate FitsRounded(total: real, ceiling: real) {
    var f := (ceiling * 1000.0).Floor;
    total * 1000.0 < f as real + 0.5 || (total * 1000.0 == f as real + 0.5 && f % 2 == 0)
  }

  lemma Round3AtMost(total: real, ceiling: real)
    ensures Round3(total) <= ceiling <==> FitsRounded(total, ceiling)
  {
    var f := (ceiling * 1000.0).Floor;
    var n := RoundHalfEven(total * 1000.0);
    RoundAtMost(total * 1000.0, f);
    hide RoundHalfEven;
    assert Round3(total) <= ceiling <==> n as real <= ceiling * 1000.0;
    assert n as real <= ceiling * 1000.0 <==> n <= f;
  }

  /** A plan is allowed exactly when it is authorised, no estimate is negative, and its true total fits
      the ceiling up to rounding, for any ceiling. */
  lemma CeilingExactly(p: Plan)
    ensures Evaluate(p).allowed <==>
      p.explicitlyAuthorized && !HasNegativeEstimate(p) && FitsRounded(TrueTotal(p), p.memoryCeilingGib)
  {
    hide Round3;
    hide FitsRounded;
    Round3AtMost(TrueTotal(p), p.memoryCeilingGib);
  }

  /** Some estimate, or the ceiling, is below zero. */
  ghost predicate SomeBelowZero(p: Plan) {
    var numbers := [p.modelWeightsGib, p.kvCacheGib, p.runtimeOverheadGib, p.serviceOverheadGib, p.memoryCeilingGib];
    exists i :: 0 <= i < |numbers| && numbers[i] < 0.0
  }

  lemma BelowZeroExactly(p: Plan)
    ensures HasNegativeEstimate(p) <==> SomeBelowZero(p)
  {
    var numbers := [p.modelWeightsGib, p.kvCacheGib, p.runtimeOverheadGib, p.serviceOverheadGib, p.memoryCeilingGib];
    assert numbers[0] == p.modelWeightsGib && numbers[1] == p.kvCacheGib && numbers[2] == p.runtimeOverheadGib;
    assert numbers[3] == p.serviceOverheadGib && numbers[4] == p.memoryCeilingGib;
  }

  /** Which answer a plan gets, by its own numbers: a negative one is refused first, then a missing
      authorisation, then a sum of the four estimates that does not fit the ceiling. */
  lemma ReasonExactly(p: Plan)
    ensures var d, sum := Evaluate(p), p.modelWeightsGib + p.kvCacheGib + p.runtimeOverheadGib + p.serviceOverheadGib;
      && (Code(d.reason) == "invalid_memory_estimate" <==> SomeBelowZero(p))
      && (Code(d.reason) == "runtime_not_authorized" <==> !SomeBelowZero(p) && !p.explicitlyAuthorized)
      && (Code(d.reason) == "memory_ceiling_exceeded" <==>
          !SomeBelowZero(p) && p.explicitlyAuthorized && !FitsRounded(sum, p.memoryCeilingGib))
      && (Code(d.reason) == "runtime_preflight_passed" <==> d.allowed)
      && (d.allowed <==> !SomeBelowZero(p) && p.explicitlyAuthorized && FitsRounded(sum, p.memoryCeilingGib))
      && d.memoryCeilingGib == p.memoryCeilingGib && -0.0005 <= d.estimatedTotalGib - sum <= 0.0005
  {
    hide HasNegativeEstimate;
    hide SomeBelowZero;
    hide FitsRounded;
    hide Round3;
    BelowZeroExactly(p);
    Round3AtMost(TrueTotal(p), p.memoryCeilingGib);
    Round3Near(TrueTotal(p));
    CodesDiffer();
  }

  lemma CodesDiffer()
    ensures Code(InvalidMemoryEstimate) == "invalid_memory_estimate"
    ensures Code(RuntimeNotAuthorized) == "runtime_not_authorized"
    ensures Code(MemoryCeilingExceeded) == "memory_ceiling_exceeded"
    ensures Code(PreflightPassed) == "runtime_preflight_passed"
    ensures forall r, s :: r != s ==> Code(r) != Code(s)
  {
    assert |"invalid_memory_estimate"| == 23 && |"memory_ceiling_exceeded"| == 23;
    assert "invalid_memory_estimate"[0] != "memory_ceiling_exceeded"[0];
    assert |"runtime_not_authorized"| == 22 && |"runtime_preflight_passed"| == 24;
  }

  /** For a ceiling of whole thousandths, no authorised plan within it is refused. */
  lemma CeilingInThousandths(p: Plan, n: int)
    requires p.memoryCeilingGib == n as real / 1000.0 && p.explicitlyAuthorized && !HasNegativeEstimate(p)
    requires TrueTotal(p) <= p.memoryCeilingGib
    ensures Evaluate(p).allowed
  {
    CeilingExactly(p);
    assert (p.memoryCeilingGib * 1000.0).Floor == n;
  }

  /** The check permits more than the ceiling: an allowed plan whose true total exceeds it. */
  ghost predicate AllowsOver(p: Plan) {
    Evaluate(p).allowed && TrueTotal(p) > p.memoryCeilingGib
  }

  /** The check refuses what fits: an authorised plan, without negative estimates, that is refused
      though its true total is within the ceiling. */
  ghost predicate RefusesWithin(p: Plan) {
    && p.explicitlyAuthorized && !HasNegativeEstimate(p) && TrueTotal(p) <= p.memoryCeilingGib
    && !Evaluate(p).allowed
  }

  function SinglePlan(total: real, ceiling: real): Plan {
    Plan("b", "m", true, total, 0.0, 0.0, 0.0, ceiling)
  }

  lemma SinglePlanTotal(total: real, ceiling: real)
    requires total >= 0.0 && ceiling >= 0.0
    ensures TrueTotal(SinglePlan(total, ceiling)) == total && !HasNegativeEstimate(SinglePlan(total, ceiling))
  {}

  lemma SinglePlanDecided(total: real, ceiling: real)
    requires total >= 0.0 && ceiling >= 0.0
    ensures AllowsOver(SinglePlan(total, ceiling)) <==> FitsRounded(total, ceiling) && total > ceiling
    ensures RefusesWithin(SinglePlan(total, ceiling)) <==> !FitsRounded(total, ceiling) && total <= ceiling
  {
    hide Evaluate;
    hide FitsRounded;
    SinglePlanTotal(total, ceiling);
    CeilingExactly(SinglePlan(total, ceiling));
  }

  /** Which failure a ceiling admits: some plan over it is allowed exactly when the ceiling lies in the
      lower half of its step, and some plan within it is refused exactly when the ceiling lies in the
      upper half, or in the middle of a step that starts oddly. */
  lemma CeilingFailures(ceiling: real)
    requires ceiling >= 0.0
    ensures var f := (ceiling * 1000.0).Floor;
      && ((exists p: Plan :: p.memoryCeilingGib == ceiling && AllowsOver(p)) <==> ceiling * 1000.0 < f as real + 0.5)
      && ((exists p: Plan :: p.memoryCeilingGib == ceiling && RefusesWithin(p)) <==> !FitsRounded(ceiling, ceiling))
  {
    hide Evaluate;
    hide TrueTotal;
    var f := (ceiling * 1000.0).Floor;
    if p: Plan :| p.memoryCeilingGib == ceiling && AllowsOver(p) {
      CeilingExactly(p);
    }
    if p: Plan :| p.memoryCeilingGib == ceiling && RefusesWithin(p) {
      CeilingExactly(p);
    }
    if ceiling * 1000.0 < f as real + 0.5 {
      var total := (ceiling + (f as real + 0.5) / 1000.0) / 2.0;
      SinglePlanDecided(total, ceiling);
      assert AllowsOver(SinglePlan(total, ceiling));
    }
    if !FitsRounded(ceiling, ceiling) {
      SinglePlanDecided(ceiling, ceiling);
      assert RefusesWithin(SinglePlan(ceiling, ceiling));
    }
  }

  lemma RoundAtMost(y: real, n: int)
    ensures RoundHalfEven(y) <= n <==> y < n as real + 0.5 || (y == n as real + 0.5 && n % 2 == 0)
  {
    var f := y.Floor;
    if f < n {
    } else if f > n {
      assert y >= (n + 1) as real;
    }
  }

  /** A plan of 24.0004 GiB runs under a ceiling of 24 GiB. */
  lemma OverCeilingAllowed()
    ensures AllowsOver(SinglePlan(24.0004, 24.0))
  {
    hide AllowsOver;
    SinglePlanDecided(24.0004, 24.0);
    assert (24.0 * 1000.0).Floor == 24000;
  }

  /** A plan of 0.0006 GiB is refused under a ceiling of 0.0006 GiB. */
  lemma WithinCeilingRefused()
    ensures RefusesWithin(SinglePlan(0.0006, 0.0006))
  {
    hide RefusesWithin;
    SinglePlanDecided(0.0006, 0.0006);
    assert (0.0006 * 1000.0).Floor == 0;
  }

  /** No estimate of `q` exceeds the one of `p`; everything else is equal. */
  ghost predicate Lowered(q: Plan, p: Plan) {
    && q.modelWeightsGib <= p.modelWeightsGib && q.kvCacheGib <= p.kvCacheGib
    && q.runtimeOverheadGib <= p.runtimeOverheadGib && q.serviceOverheadGib <= p.serviceOverheadGib
    && q.memoryCeilingGib == p.memoryCeilingGib && q.explicitlyAuthorized == p.explicitlyAuthorized
  }

  /** Lowering estimates, as long as none becomes negative, never revokes permission. */
  lemma LoweringKeepsPermission(p: Plan, q: Plan)
    requires Evaluate(p).allowed && Lowered(q, p) && !HasNegativeEstimate(q)
    ensures Evaluate(q).allowed
  {
    Round3Monotone(TrueTotal(q), TrueTotal(p));
  }
}
