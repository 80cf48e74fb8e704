/** The plan catalogue as metering reads it: allowances and overage rates per metric. */
module Plans {
  import opened Wrappers

  datatype Metric = VoiceMinute | SmsSegment | LlmToken | TtsCharacter

  /** Iterating the enumeration visits the metrics in this order. */
  const ALL_METRICS: seq<Metric> := [VoiceMinute, SmsSegment, LlmToken, TtsCharacter]

  function MetricIndex(metric: Metric): (i: nat)
    ensures i < |ALL_METRICS| && ALL_METRICS[i] == metric
  {
    match metric
    case VoiceMinute => 0
    case SmsSegment => 1
    case LlmToken => 2
    case TtsCharacter => 3
  }

  function MetricValue(metric: Metric): (s: string)
    ensures s != [] && ':' !in s
  {
    match metric
    case VoiceMinute => "voice_minute"
    case SmsSegment => "sms_segment"
    case LlmToken => "llm_token"
    case TtsCharacter => "tts_character"
  }

  lemma MetricValueInjective(a: Metric, b: Metric)
    requires MetricValue(a) == MetricValue(b)
    ensures a == b
  {
  }

  /** The columns of a plan row that billing decisions depend on. */
  datatype Plan = Plan(
    includedVoiceMinutes: int,
    includedSmsSegments: int,
    includedLlmTokens: int,
    includedTtsCharacters: int,
    voiceRate: int,
    smsRate: int,
    llmRate: int,
    ttsRate: int,
    overageEnabled: bool)

  /** Voice is recorded in seconds while the plan is written, and overage billed, in minutes. */
  function UnitsPerIncluded(metric: Metric): int {
    if metric == VoiceMinute then 60 else 1
  }

  function IncludedField(plan: Plan, metric: Metric): int {
    match metric
    case VoiceMinute => plan.includedVoiceMinutes
    case SmsSegment => plan.includedSmsSegments
    case LlmToken => plan.includedLlmTokens
    case TtsCharacter => plan.includedTtsCharacters
  }

  /** The allowance in the metric's smallest unit; nothing for a missing plan. */
  function IncludedUnits(plan: Option<Plan>, metric: Metric): int {
    match plan
    case None => 0
    case Some(p) => IncludedField(p, metric) * UnitsPerIncluded(metric)
  }

  function OverageRate(plan: Option<Plan>, metric: Metric): int {
    match plan
    case None => 0
    case Some(p) =>
      match metric
      case VoiceMinute => p.voiceRate
      case SmsSegment => p.smsRate
      case LlmToken => p.llmRate
      case TtsCharacter => p.ttsRate
  }

  /** Each metric has its own columns; only voice is written in minutes and counted in seconds. No plan includes nothing. */
  lemma ColumnsByMetric(p: Plan, metric: Metric)
    ensures
      var allowances := [60 * p.includedVoiceMinutes, p.includedSmsSegments, p.includedLlmTokens, p.includedTtsCharacters];
      var prices := [p.voiceRate, p.smsRate, p.llmRate, p.ttsRate];
      forall i | 0 <= i < 4 && [VoiceMinute, SmsSegment, LlmToken, TtsCharacter][i] == metric ::
        IncludedUnits(Some(p), metric) == allowances[i] && OverageRate(Some(p), metric) == prices[i]
    ensures IncludedUnits(None, metric) == 0 && OverageRate(None, metric) == 0
  {
  }
}
