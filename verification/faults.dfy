/** The two deliberate failure modes of product lookup: a random fault
    that fires on a fixed share of calls, and a feature-flag gate that fails
    requests for one designated product. */
module Faults {
  import opened Optional

  /** The only product id the feature flag can fail. */
  const SentinelId: string := "OLJCESPC7Z"

  /** Random draws are uniform over [0, DrawBound). */
  const DrawBound: int := 1000

  /** One random draw, as `rand.Intn(DrawBound)` yields it. */
  type Draw = d: int | 0 <= d < DrawBound

  /** The random fault fires when the draw falls below the configured rate. */
  predicate RandomFaultFires(draw: Draw, failRatePerThousand: int) {
    draw < failRatePerThousand
  }

  /** The draws on which the random fault fires. */
  function FiringDraws(failRatePerThousand: int): (ds: set<Draw>)
    ensures forall d: Draw :: d in ds <==> d < failRatePerThousand
  {
    set d: Draw | RandomFaultFires(d, failRatePerThousand)
  }

  /** A rate in [0, DrawBound] fires on exactly that many of the DrawBound
      equally likely draws: the fault rate is the rate per thousand calls.
      Rates outside that range are effectively clamped. */
  lemma {:induction false} FiringDrawCount(failRatePerThousand: int)
    ensures failRatePerThousand <= 0 ==> FiringDraws(failRatePerThousand) == {}
    ensures 0 <= failRatePerThousand <= DrawBound ==> |FiringDraws(failRatePerThousand)| == failRatePerThousand
    ensures DrawBound <= failRatePerThousand ==> |FiringDraws(failRatePerThousand)| == DrawBound
    decreases if failRatePerThousand < 0 then 0 else failRatePerThousand
  {
    var rate := failRatePerThousand;
    if rate <= 0 {
      assert FiringDraws(rate) == {};
    } else if rate > DrawBound {
      FiringDrawCount(DrawBound);
      assert FiringDraws(rate) == FiringDraws(DrawBound);
    } else {
      FiringDrawCount(rate - 1);
      assert FiringDraws(rate) == FiringDraws(rate - 1) + {rate - 1};
      assert rate - 1 !in FiringDraws(rate - 1);
    }
  }

  /** The outcome of evaluating the failure flag: None when the evaluation
      itself failed, which counts as the default `false`. */
  function FlagEnabled(evaluation: Option<bool>): (enabled: bool)
    ensures enabled <==> evaluation == Some(true)
  {
    match evaluation
    case Some(value) => value
    case None => false
  }

  /** The flag gate: fails only the sentinel product, and only while the
      flag is enabled. For any other id the flag plays no part. */
  function CheckProductFailure(id: string, flag: Option<bool>): (fail: bool)
    ensures fail <==> id == SentinelId && flag == Some(true)
  {
    if id != SentinelId then false else FlagEnabled(flag)
  }

  /** Ids other than the sentinel get the same answer whatever the flag. */
  lemma GateIgnoresFlagForOtherIds(id: string, f1: Option<bool>, f2: Option<bool>)
    requires id != SentinelId
    ensures CheckProductFailure(id, f1) == CheckProductFailure(id, f2) == false
  {
  }
}
