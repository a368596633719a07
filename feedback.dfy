/** The reaction to a newly logged crashout (services/geminiService.ts):
    either the fixed per-category fallback or the post-processed reply of the
    remote text generator. */
module Feedback {
  import opened Types

  /** The fallback quote for a string that is not one of the seven labels. */
  const UnknownCategoryQuote := "The chaos is off the charts."

  /** The quote used when a parsed reply has no usable `funnyQuote`. */
  const MissingQuote := "The chaos is palpable."

  /** The drama level used when a parsed reply has no numeric `dramaLevel`. */
  const MissingDrama := 5

  /** A reaction: a one-line quote and a drama level. */
  datatype Reaction = Reaction(funnyQuote: string, dramaLevel: int)

  /** The fields of a parsed reply. A field that is absent, or is not of the
      type the code tests for, is `None`. */
  datatype ReactionPayload = ReactionPayload(funnyQuote: Option<string>, dramaLevel: Option<int>)

  /** The entry of the fallback table for each category. Every entry is
      truthy, so the `||` default never replaces it, and none is one of the
      two default quotes. */
  function TableQuote(c: Category): (q: string)
    ensures q != "" && q != UnknownCategoryQuote && q != MissingQuote
  {
    match c
    case Academics => "The library is closed, but the tears are forever."
    case LoveLife => "It's giving \"situationship\" energy."
    case AnnoyingPeople => "The audacity is actually impressive."
    case Family => "Family drama? Groundbreaking."
    case StressOverthinking => "Brain is currently buffering..."
    case SillyRandom => "The chaos is unmatched, honestly."
    case Other => "The vibes are... not vibing."
  }

  /** `fallbackQuotes[category] || 'The chaos is off the charts.'`: the table
      is looked up by label, and every entry of the table is non-empty. */
  function FallbackQuote(category: string): (q: string)
    ensures q != ""
  {
    match CategoryOfLabel(category)
    case Some(c) => TableQuote(c)
    case None => UnknownCategoryQuote
  }

  /** Each of the seven labels finds its own entry of the table. */
  lemma FallbackQuoteOfLabel(c: Category)
    ensures FallbackQuote(Label(c)) == TableQuote(c)
  {
    LabelRoundTrip(c);
  }

  /** The quote for an unknown category is used exactly for the strings that
      are not one of the seven labels: no entry of the table is that quote. */
  lemma FallbackQuoteUnknown(category: string)
    ensures FallbackQuote(category) == UnknownCategoryQuote <==> forall c: Category :: Label(c) != category
  {
    match CategoryOfLabel(category)
    case Some(c) =>
      assert TableQuote(c) != UnknownCategoryQuote;
    case None =>
  }

  /** Different categories have different fallback quotes. */
  lemma FallbackQuotesDistinct(c: Category, d: Category)
    requires c != d
    ensures TableQuote(c) != TableQuote(d)
  {
  }

  /** `Math.floor(r * 10) + 1` for the value `r` of `Math.random()`, which lies
      in [0, 1). */
  function FallbackDrama(r: real): (d: int)
    requires 0.0 <= r < 1.0
    ensures 1 <= d <= 10
    ensures (d - 1) as real <= r * 10.0 < d as real
  {
    (r * 10.0).Floor + 1
  }

  /** Every level from 1 to 10 is reachable by the random fallback. */
  lemma FallbackDramaCoversRange(d: int)
    requires 1 <= d <= 10
    ensures FallbackDrama((d - 1) as real / 10.0) == d
  {
    var r := (d - 1) as real / 10.0;
    assert r * 10.0 == (d - 1) as real;
  }

  /** `getLocalFallbackResponse(category)` with `random` the value drawn from
      `Math.random()`. */
  function LocalFallback(category: string, random: real): (r: Reaction)
    requires 0.0 <= random < 1.0
    ensures r.funnyQuote == FallbackQuote(category)
    ensures r.dramaLevel == FallbackDrama(random)
  {
    Reaction(FallbackQuote(category), FallbackDrama(random))
  }

  /** `Math.min(10, Math.max(1, x))`. */
  function ClampDrama(x: int): (d: int)
    ensures 1 <= d <= 10
    ensures 1 <= x <= 10 ==> d == x
    ensures x < 1 ==> d == 1
    ensures x > 10 ==> d == 10
  {
    if x < 1 then 1 else if x > 10 then 10 else x
  }

  /** Clamping is idempotent: a clamped level is left as it is. */
  lemma ClampIdempotent(x: int)
    ensures ClampDrama(ClampDrama(x)) == ClampDrama(x)
  {
  }

  /** The reaction built from a parsed reply: an empty or missing quote gives
      the default quote, a non-numeric level gives 5, a numeric one is clamped. */
  function FromPayload(p: ReactionPayload): (r: Reaction)
    ensures r.funnyQuote != ""
    ensures 1 <= r.dramaLevel <= 10
    ensures p.funnyQuote.Some? && p.funnyQuote.value != "" ==> r.funnyQuote == p.funnyQuote.value
    ensures p.funnyQuote.None? || p.funnyQuote.value == "" ==> r.funnyQuote == MissingQuote
    ensures p.dramaLevel.None? ==> r.dramaLevel == MissingDrama
    ensures p.dramaLevel.Some? ==> r.dramaLevel == ClampDrama(p.dramaLevel.value)
  {
    var quote := match p.funnyQuote
      case Some(q) => if q != "" then q else MissingQuote
      case None => MissingQuote;
    var level := match p.dramaLevel
      case Some(x) => ClampDrama(x)
      case None => MissingDrama;
    Reaction(quote, level)
  }

  /** `getAIFeedback(description, category)`. `apiKey` is the configured key,
      `reply` what the remote generator does when it is asked, and `random`
      the value `Math.random()` would draw for the fallback. The description
      only shapes the remote prompt, which `reply` stands for. */
  function GetAIFeedback(apiKey: string, category: string, reply: Reply<ReactionPayload>, random: real): (r: Reaction)
    requires 0.0 <= random < 1.0
    ensures r.funnyQuote != ""
    ensures 1 <= r.dramaLevel <= 10
    ensures apiKey == "" ==> r == LocalFallback(category, random)
    ensures apiKey != "" && !reply.Parsed? ==> r == LocalFallback(category, random)
    ensures apiKey != "" && reply.Parsed? ==> r == FromPayload(reply.payload)
  {
    if apiKey == "" then LocalFallback(category, random)
    else
      match reply
      case Parsed(p) => FromPayload(p)
      case _ => LocalFallback(category, random)
  }

  /** Without a key nothing is asked: the reaction is the same whatever the
      remote generator would have replied. */
  lemma NoKeyIgnoresReply(category: string, a: Reply<ReactionPayload>, b: Reply<ReactionPayload>, random: real)
    requires 0.0 <= random < 1.0
    ensures GetAIFeedback("", category, a, random) == GetAIFeedback("", category, b, random)
  {
  }

  /** A failed call and an unparsable reply end alike, in the category
      fallback; neither is passed on to the caller. */
  lemma FailuresFallBack(apiKey: string, category: string, random: real)
    requires 0.0 <= random < 1.0
    ensures GetAIFeedback(apiKey, category, CallFailed, random) == LocalFallback(category, random)
    ensures GetAIFeedback(apiKey, category, Unparsable, random) == LocalFallback(category, random)
  {
  }

  /** A parsed reply with an in-range level keeps its level, and a parsed reply
      with a non-empty quote keeps its quote. */
  lemma ParsedKeepsValidFields(apiKey: string, category: string, q: string, x: int, random: real)
    requires apiKey != "" && q != "" && 1 <= x <= 10 && 0.0 <= random < 1.0
    ensures GetAIFeedback(apiKey, category, Parsed(ReactionPayload(Some(q), Some(x))), random) == Reaction(q, x)
  {
  }
}
