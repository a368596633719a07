/** The monthly recap (`generateWrapped` in services/geminiService.ts): the
    aggregates computed from the history, and the recap built from them and
    from the reply of the remote text generator. */
module Recap {
  import opened Types
  import JsString
  import Ranking

  /** The top category of an empty history. */
  const NoTopCategory := Other

  /** The second category of a history with fewer than two categories. */
  const NoSecondCategory := SillyRandom

  /** The most active day of an empty history. */
  const UnknownDay := "Unknown Day"

  /** The score used when the parsed reply's `chaosScore` is missing or 0. */
  const MissingChaosScore := 88

  /** The fixed recap used when the reply cannot be parsed. */
  const FallbackChaosScore := 99
  const FallbackHeadline := "You really did that, huh?"
  const FallbackStatSuffix := " total moments of pure chaos."
  const FallbackClosingLine := "Your aura is actually terrifying right now."

  /** The fields of a parsed recap reply; a missing or zero `chaosScore` is
      `None` or `Some(0)`. */
  datatype NarrativePayload = NarrativePayload(
    headline: string,
    statLines: seq<string>,
    closingLine: string,
    chaosScore: Option<int>)

  /** The four values computed locally before the remote call. */
  datatype Aggregates = Aggregates(
    total: nat,
    topCategory: Category,
    secondTopCategory: Category,
    mostActiveDay: string)

  /** How the recap's promise settles: with the recap, or rejected because
      the remote call failed (that call is not guarded by a `try`). */
  datatype WrappedOutcome = Wrapped(stats: WrappedStats) | Rejected

  /** The categories of the history, in history order. */
  function CategoriesOf(history: seq<Crashout>): (cs: seq<Category>)
    ensures |cs| == |history|
    ensures forall i :: 0 <= i < |history| ==> cs[i] == history[i].category
  {
    seq(|history|, i requires 0 <= i < |history| => history[i].category)
  }

  /** The weekday names of the entries' timestamps, in history order;
      `weekdayOf` stands for the locale's `toLocaleDateString` conversion. */
  function DaysOf(history: seq<Crashout>, weekdayOf: int -> string): (ds: seq<string>)
    ensures |ds| == |history|
    ensures forall i :: 0 <= i < |history| ==> ds[i] == weekdayOf(history[i].timestamp)
  {
    seq(|history|, i requires 0 <= i < |history| => weekdayOf(history[i].timestamp))
  }

  /** `sortedCategories[0] || 'Other'`: the default stands in for a missing
      or falsy label, and since no label is empty, only for a missing one. */
  function TopOf(ranked: seq<Category>): (c: Category)
    ensures ranked != [] ==> c == ranked[0]
    ensures ranked == [] ==> c == NoTopCategory
  {
    if |ranked| > 0 && Label(ranked[0]) != "" then ranked[0] else NoTopCategory
  }

  /** `sortedCategories[1] || 'Silly / Random'`, with the same reading. */
  function SecondOf(ranked: seq<Category>): (c: Category)
    ensures |ranked| > 1 ==> c == ranked[1]
    ensures |ranked| <= 1 ==> c == NoSecondCategory
  {
    if |ranked| > 1 && Label(ranked[1]) != "" then ranked[1] else NoSecondCategory
  }

  /** `sorted[0]?.[0] || 'Unknown Day'`: an empty day name is falsy too, so
      the day is never empty. */
  function DayOf(ranked: seq<string>): (d: string)
    ensures d != ""
    ensures d == UnknownDay || (ranked != [] && d == ranked[0])
    ensures ranked != [] && ranked[0] != "" ==> d == ranked[0]
  {
    if |ranked| > 0 && ranked[0] != "" then ranked[0] else UnknownDay
  }

  /** The aggregates of the history: the total is its length, and an empty
      history gets the three defaults. */
  function Aggregate(history: seq<Crashout>, weekdayOf: int -> string): (a: Aggregates)
    ensures a.total == |history|
    ensures history == [] ==>
              a.topCategory == NoTopCategory && a.secondTopCategory == NoSecondCategory && a.mostActiveDay == UnknownDay
  {
    assert history == [] ==> CategoriesOf(history) == [] && DaysOf(history, weekdayOf) == [];
    Aggregates(
      |history|,
      TopOf(Ranking.Ranking(CategoriesOf(history))),
      SecondOf(Ranking.Ranking(CategoriesOf(history))),
      DayOf(Ranking.Ranking(DaysOf(history, weekdayOf))))
  }

  /** The recap built from the aggregates and the remote reply. */
  function Narrate(a: Aggregates, reply: Reply<NarrativePayload>): (o: WrappedOutcome)
    ensures o.Rejected? <==> reply.CallFailed?
    ensures o.Wrapped? ==> var s := o.stats;
              && s.totalCrashouts == a.total
              && s.topCategory == a.topCategory
              && s.secondTopCategory == a.secondTopCategory
              && s.mostActiveDay == a.mostActiveDay
  {
    match reply
    case CallFailed => Rejected
    case Unparsable =>
      Wrapped(WrappedStats(
        a.total, a.topCategory, a.secondTopCategory, a.mostActiveDay,
        FallbackChaosScore, FallbackHeadline,
        [JsString.NatToString(a.total) + FallbackStatSuffix],
        FallbackClosingLine))
    case Parsed(p) =>
      var score := match p.chaosScore
        case Some(x) => if x != 0 then x else MissingChaosScore
        case None => MissingChaosScore;
      Wrapped(WrappedStats(
        a.total, a.topCategory, a.secondTopCategory, a.mostActiveDay,
        score, p.headline, p.statLines, p.closingLine))
  }

  /** `generateWrapped(history)`: tally and rank the categories and the
      weekdays, then build the recap from the reply. */
  method GenerateWrapped(history: seq<Crashout>, weekdayOf: int -> string, reply: Reply<NarrativePayload>)
    returns (o: WrappedOutcome)
    ensures o == Narrate(Aggregate(history, weekdayOf), reply)
  {
    var total := |history|;
    var categories := Ranking.RankKeys(CategoriesOf(history));
    var topCategory := if |categories| > 0 then categories[0] else NoTopCategory;
    var secondTopCategory := if |categories| > 1 then categories[1] else NoSecondCategory;
    var days := Ranking.RankKeys(DaysOf(history, weekdayOf));
    var mostActiveDay := if |days| > 0 && days[0] != "" then days[0] else UnknownDay;
    o := Narrate(Aggregates(total, topCategory, secondTopCategory, mostActiveDay), reply);
  }

  /** The top category of a non-empty history occurs in it at least as often
      as any category, and among equally frequent categories it is the one
      that occurs first; an empty history gets 'Other'. */
  lemma TopCategoryIsMostFrequent(history: seq<Crashout>, weekdayOf: int -> string)
    ensures var cs := CategoriesOf(history);
            var top := Aggregate(history, weekdayOf).topCategory;
            && (history == [] ==> top == NoTopCategory)
            && (history != [] ==>
                  && top in cs
                  && (forall c :: Ranking.Count(cs, c) <= Ranking.Count(cs, top))
                  && (forall c :: c in cs && c != top && Ranking.Count(cs, c) == Ranking.Count(cs, top) ==>
                        Ranking.FirstIndex(cs, top) < Ranking.FirstIndex(cs, c)))
  {
    var cs := CategoriesOf(history);
    if history != [] {
      Ranking.RankingHead(cs);
    } else {
      assert Ranking.FirstSeen(cs) == [];
    }
  }

  /** With at least two distinct categories, the second category differs
      from the top one, occurs in the history at least as often as any other
      category but the top one, and wins its ties by first occurrence; with
      fewer, it is 'Silly / Random'. */
  lemma SecondCategoryIsRunnerUp(history: seq<Crashout>, weekdayOf: int -> string)
    ensures var cs := CategoriesOf(history);
            var a := Aggregate(history, weekdayOf);
            var top, second := a.topCategory, a.secondTopCategory;
            && (|Ranking.FirstSeen(cs)| < 2 ==> second == NoSecondCategory)
            && (|Ranking.FirstSeen(cs)| >= 2 ==>
                  && second in cs && second != top
                  && (forall c :: c != top ==> Ranking.Count(cs, c) <= Ranking.Count(cs, second))
                  && (forall c :: c in cs && c != top && c != second && Ranking.Count(cs, c) == Ranking.Count(cs, second) ==>
                        Ranking.FirstIndex(cs, second) < Ranking.FirstIndex(cs, c)))
  {
    var cs := CategoriesOf(history);
    if |Ranking.FirstSeen(cs)| >= 2 {
      Ranking.RankingSecond(cs);
    }
  }

  /** A non-empty history in a single category has that category on top and
      'Silly / Random' second, even when the single category is 'Silly /
      Random' itself. */
  lemma SingleCategoryHasDefaultSecond(history: seq<Crashout>, c: Category, weekdayOf: int -> string)
    requires history != [] && forall i :: 0 <= i < |history| ==> history[i].category == c
    ensures Aggregate(history, weekdayOf).topCategory == c
    ensures Aggregate(history, weekdayOf).secondTopCategory == NoSecondCategory
  {
    var cs := CategoriesOf(history);
    Ranking.FirstSeenOfOneKey(cs, c);
    Ranking.RankingHead(cs);
  }

  /** `day` is a name of `ds` that occurs at least as often as any other, and
      among the names that occur as often it is the one that occurs first. */
  ghost predicate Busiest(ds: seq<string>, day: string)
  {
    && day in ds
    && (forall d :: Ranking.Count(ds, d) <= Ranking.Count(ds, day))
    && (forall d :: d in ds && d != day && Ranking.Count(ds, d) == Ranking.Count(ds, day) ==>
          Ranking.FirstIndex(ds, day) < Ranking.FirstIndex(ds, d))
  }

  /** The most active day of a non-empty history whose weekday names are all
      non-empty is a busiest weekday, the first one in history order among
      equally busy days; any day other than 'Unknown Day' is one; an empty
      history has 'Unknown Day'. */
  lemma MostActiveDayIsBusiest(history: seq<Crashout>, weekdayOf: int -> string)
    ensures var ds := DaysOf(history, weekdayOf);
            var day := Aggregate(history, weekdayOf).mostActiveDay;
            && (history == [] ==> day == UnknownDay)
            && (history != [] && (forall i :: 0 <= i < |history| ==> weekdayOf(history[i].timestamp) != "") ==>
                  Busiest(ds, day))
            && (day != UnknownDay ==> Busiest(ds, day))
  {
    var ds := DaysOf(history, weekdayOf);
    var day := Aggregate(history, weekdayOf).mostActiveDay;
    if history != [] {
      Ranking.RankingHead(ds);
      var top := Ranking.Ranking(ds)[0];
      assert Busiest(ds, top);
      assert day == DayOf(Ranking.Ranking(ds));
      if forall i :: 0 <= i < |history| ==> weekdayOf(history[i].timestamp) != "" {
        var i :| 0 <= i < |ds| && ds[i] == top;
        assert top != "";
      }
    } else {
      assert Ranking.FirstSeen(ds) == [];
    }
  }

  /** The total is the length of the history, and the per-category counts
      add up to it. */
  lemma CategoryCountsSumToTotal(history: seq<Crashout>, weekdayOf: int -> string)
    ensures var cs := CategoriesOf(history);
            Ranking.TotalCount(Ranking.Tallied(Ranking.FirstSeen(cs), cs)) == Aggregate(history, weekdayOf).total == |history|
  {
    Ranking.CountsSumToLength(CategoriesOf(history));
  }

  /** An unparsable reply gives the fixed recap, whose only stat line starts
      with the total in decimal, and that number reads back as the total. */
  lemma FallbackRecap(a: Aggregates)
    ensures Narrate(a, Unparsable).Wrapped?
    ensures var s := Narrate(a, Unparsable).stats;
            && s.chaosScore == FallbackChaosScore
            && s.headline == FallbackHeadline
            && s.closingLine == FallbackClosingLine
            && |s.statLines| == 1
            && exists digits ::
                 && JsString.IsDigits(digits) && digits != []
                 && s.statLines[0] == digits + FallbackStatSuffix
                 && (digits[0] == '0' ==> a.total == 0)
                 && JsString.DecimalValue(digits) == a.total
  {
    JsString.DecimalRoundTrip(a.total);
    var digits := JsString.NatToString(a.total);
    assert Narrate(a, Unparsable).stats.statLines[0] == digits + FallbackStatSuffix;
  }

  /** A parsed reply's score is kept unless it is missing or 0, which give 88;
      its texts are kept as they are. */
  lemma ParsedRecap(a: Aggregates, p: NarrativePayload)
    ensures Narrate(a, Parsed(p)).Wrapped?
    ensures var s := Narrate(a, Parsed(p)).stats;
            && (p.chaosScore.Some? && p.chaosScore.value != 0 ==> s.chaosScore == p.chaosScore.value)
            && (p.chaosScore.None? || p.chaosScore == Some(0) ==> s.chaosScore == MissingChaosScore)
            && s.headline == p.headline && s.statLines == p.statLines && s.closingLine == p.closingLine
  {
  }
}
