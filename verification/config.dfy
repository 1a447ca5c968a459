/** Start-up configuration of the fault injector: the random failure rate
    per thousand calls, read once from an optional setting. */
module Config {
  import opened Optional

  const DefaultFailRatePerThousand: int := 5

  /** The failure rate for the setting value `setting` (empty when the
      setting is absent), where `atoi` is the integer parser. An empty or
      unparsable setting leaves the default in force; a parsable one is
      taken as is, without any range check. */
  function FailRatePerThousand(setting: string, atoi: string -> Option<int>): (rate: int)
    ensures setting == "" ==> rate == DefaultFailRatePerThousand
    ensures setting != "" && atoi(setting).None? ==> rate == DefaultFailRatePerThousand
    ensures setting != "" && atoi(setting).Some? ==> rate == atoi(setting).value
  {
    if setting == "" then
      DefaultFailRatePerThousand
    else
      match atoi(setting)
      case None => DefaultFailRatePerThousand
      case Some(n) => n
  }

  /** The rate is the default or the parsed value of a non-empty setting. */
  lemma FailRateOrigin(setting: string, atoi: string -> Option<int>)
    ensures var rate := FailRatePerThousand(setting, atoi);
            rate == DefaultFailRatePerThousand || (setting != "" && atoi(setting) == Some(rate))
  {
  }
}
