/** Laws of the pair score: which boundaries decide it, how it grows, and what it is worth. */
module PairScoreLaws {
  import opened EventIdentity
  import opened PairScore

  ghost predicate TitlesInRange(text: Text) { forall a, b :: 0.0 <= text.titleSimilarity(a, b) <= 1.0 }

  lemma DisjointIff(a: set<string>, b: set<string>)
    ensures a * b == {} <==> a !! b
  {
    if a !! b {
      forall x ensures x !in a * b {}
      assert a * b == {};
    } else {
      var x :| x in a && x in b;
      assert x in a * b;
    }
  }

  // ----- regions -------------------------------------------------------------------------

  /** A ministry's one country counts as the region; otherwise the report's own region does. */
  ghost predicate LocatedIn(i: Item, region: string) {
    if exists c :: i.countries == {c} && c != "" then i.countries == {region} else region == i.region
  }

  lemma RegionIsLocated(i: Item, region: string)
    ensures RegionOf(i) == region <==> LocatedIn(i, region)
  {
    if |i.countries| == 1 {
      var x := FinanceRegion(i);
      assert x in i.countries;
      forall y | y in i.countries ensures y == x { SingletonElement(i.countries, x, y); }
      assert i.countries == {x};
    }
  }

  /** Regions go together when one is unknown or global, when they are equal, or inside East Asia or North America.
      */
  lemma RegionsGoTogetherIff(a: string, b: string)
    ensures RegionCompatible(a, b) <==>
      || a in {"", "GLOBAL"} || b in {"", "GLOBAL"} || a == b
      || (a in {"CN", "JP", "EAST_ASIA"} && b in {"CN", "JP", "EAST_ASIA"})
      || (a in {"US", "NORTH_AMERICA"} && b in {"US", "NORTH_AMERICA"})
  {
    assert "EAST_ASIA"[0] != "NORTH_AMERICA"[0] && "CN"[0] != "JP"[0] && "US"[0] != "CN"[0];
  }

  // ----- boundaries ----------------------------------------------------------------------

  /** The two reports tell of one decision of a known bank. */
  ghost predicate OneDecision(l: Item, r: Item, window: int, text: Text) {
    && l.semantic.Some? && r.semantic.Some? && Distance(l.publishedAt, r.publishedAt) <= window
    && Compatible(l.semantic.value, r.semantic.value, l.publishedAt, r.publishedAt, text.calendar)
  }

  ghost predicate Injects(i: Item) { "action_capital_injection" in i.actions }

  /** Everything two reports must respect to be joined without a common verified occurrence. */
  ghost predicate Admitted(l: Item, r: Item, window: int, text: Text) {
    && WithinBoundaries(l, r, window, text)
    && (Injects(l) != Injects(r) ==> text.titleSimilarity(l, r) >= 0.72)
    && (OneDecision(l, r, window, text) || l.topic == r.topic || l.topic == "general" || r.topic == "general"
        || (!(l.entities !! r.entities) && (l.reaction || r.reaction)))
    && (OneDecision(l, r, window, text) || RegionCompatible(RegionOf(l), RegionOf(r))
        || text.titleSimilarity(l, r) >= 0.88)
  }

  lemma BaseIsBounded(l: Item, r: Item, window: int, title: real)
    requires 0.0 <= title
    ensures BaseScore(l, r, window, title) >= 0.35 * title
    ensures RegionCompatible(RegionOf(l), RegionOf(r)) ==> BaseScore(l, r, window, title) >= 0.10
  {
    OverlapIsPositive(l.numbers, r.numbers);
    OverlapIsPositive(l.entities, r.entities);
    assert TimeScore(l, r, window) >= 0.0;
  }

  lemma OverlapIsPositive(a: set<string>, b: set<string>)
    ensures Overlap(a, b) >= 0.0
  {
  }

  lemma BaseIsPositive(l: Item, r: Item, window: int, text: Text)
    requires TitlesInRange(text)
    requires RegionCompatible(RegionOf(l), RegionOf(r)) || text.titleSimilarity(l, r) >= 0.88
    ensures BaseScore(l, r, window, text.titleSimilarity(l, r)) > 0.0
  {
    BaseIsBounded(l, r, window, text.titleSimilarity(l, r));
  }

  /** The score is positive exactly for a common verified occurrence and for reports that respect every boundary. */
  lemma ScoreIsPositiveIff(l: Item, r: Item, window: int, text: Text)
    requires TitlesInRange(text)
    ensures ScorePair(l, r, window, text).value > 0.0 <==> SameOccurrence(l, r) || Admitted(l, r, window, text)
  {
    if RegionCompatible(RegionOf(l), RegionOf(r)) || text.titleSimilarity(l, r) >= 0.88 {
      BaseIsPositive(l, r, window, text);
    }
    DisjointIff(l.entities, r.entities);
    DisjointIff(RateActions(l), RateActions(r));
  }

  // ----- the worth of a pair -------------------------------------------------------------

  /** The share that two sets have in common. */
  function Common(a: set<string>, b: set<string>): real {
    if a + b == {} then 0.0 else |a * b| as real / |a + b| as real
  }

  function NumbersInCommon(l: Item, r: Item): real {
    if l.numbers == {} && r.numbers == {} then 0.5 else Common(l.numbers, r.numbers)
  }

  function Closeness(l: Item, r: Item, window: int): real
    requires window >= 1
  {
    if Distance(l.publishedAt, r.publishedAt) >= window then 0.0
    else 1.0 - Distance(l.publishedAt, r.publishedAt) as real / window as real
  }

  /** What the words, entities, times, numbers and regions of two reports are worth together. */
  function Worth(l: Item, r: Item, window: int, title: real): real
    requires window >= 1
  {
    (35.0 * title + 25.0 * Common(l.entities, r.entities) + 15.0 * Closeness(l, r, window)
     + 15.0 * NumbersInCommon(l, r) + if RegionCompatible(RegionOf(l), RegionOf(r)) then 10.0 else 0.0) / 100.0
  }

  /** What a reviewed term in common is worth when both act alike or one only reacts. */
  function TermWorth(l: Item, r: Item, window: int): real
    requires window >= 1
  {
    (42.0 + 28.0 * Common(l.entities, r.entities) + 12.0 * Closeness(l, r, window)
     + 10.0 * NumbersInCommon(l, r) + if RegionCompatible(RegionOf(l), RegionOf(r)) then 10.0 else 0.0) / 100.0
  }

  predicate ShareTerm(l: Item, r: Item) {
    !(l.canonical !! r.canonical) && (!(l.actions !! r.actions) || l.reaction || r.reaction)
  }

  lemma OverlapIsCommon(a: set<string>, b: set<string>)
    ensures Overlap(a, b) == Common(a, b)
  {
    if a + b == {} {
      assert |a * b| == 0 by { assert a * b == {}; }
    } else {
      var x :| x in a + b;
      assert |a + b| >= 1;
    }
  }

  lemma Fraction(n: int, d: int)
    requires n >= 0 && d >= 1
    ensures n as real / d as real >= 1.0 <==> n >= d
  {
    assert n as real == (n as real / d as real) * d as real;
  }

  lemma TimeIsClose(l: Item, r: Item, window: int)
    requires window >= 1
    ensures TimeScore(l, r, window) == Closeness(l, r, window)
  {
    Fraction(Distance(l.publishedAt, r.publishedAt), window);
  }

  lemma BaseIsWorth(l: Item, r: Item, window: int, title: real)
    requires window >= 1
    ensures var term := TermWorth(l, r, window);
      BaseScore(l, r, window, title) ==
        if ShareTerm(l, r) then MaxReal(Worth(l, r, window, title), if term < 0.92 then term else 0.92)
        else Worth(l, r, window, title)
  {
    OverlapIsCommon(l.entities, r.entities);
    OverlapIsCommon(l.numbers, r.numbers);
    TimeIsClose(l, r, window);
    DisjointIff(l.canonical, r.canonical);
    DisjointIff(l.actions, r.actions);
  }

  lemma AdmittedScore(l: Item, r: Item, window: int, text: Text)
    requires Admitted(l, r, window, text) && TitlesInRange(text)
    ensures var base := BaseScore(l, r, window, text.titleSimilarity(l, r));
      var v := if OneDecision(l, r, window, text) then MaxReal(base, 0.96) else base;
      ScorePair(l, r, window, text).value == if v < 1.0 then v else 1.0
  {
    DisjointIff(l.entities, r.entities);
    DisjointIff(RateActions(l), RateActions(r));
  }

  /** Reports that respect every boundary score their worth, with reviewed terms in common up to 0.92 if that is
      more, one decision of a bank at least 0.96, and never more than 1. */
  lemma ScoreIsWorth(l: Item, r: Item, window: int, text: Text)
    requires window >= 1 && TitlesInRange(text) && Admitted(l, r, window, text)
    ensures var worth, term := Worth(l, r, window, text.titleSimilarity(l, r)), TermWorth(l, r, window);
      var value := ScorePair(l, r, window, text).value;
      && (value == worth || value == term || value == 0.92 || value == 0.96 || value == 1.0)
      && (worth <= 1.0 ==> value >= worth)
      && (ShareTerm(l, r) && term <= 0.92 ==> value >= term)
      && (ShareTerm(l, r) && term >= 0.92 ==> value >= 0.92)
      && (OneDecision(l, r, window, text) ==> value >= 0.96)
      && (value > worth ==> ShareTerm(l, r) || OneDecision(l, r, window, text))
      && (value > 0.92 && value > worth ==> OneDecision(l, r, window, text))
      && (value > 0.96 ==> worth >= value)
  {
    AdmittedScore(l, r, window, text);
    BaseIsWorth(l, r, window, text.titleSimilarity(l, r));
  }

  lemma CommonWithSelf(a: set<string>)
    requires a != {}
    ensures Common(a, a) == 1.0
  {
    assert a * a == a && a + a == a;
    var x :| x in a;
    assert |a| >= 1;
  }

  /** A report with entities and numbers matches its own copy fully: the weights add up to one. */
  lemma CopyScoresOne(i: Item, window: int, text: Text)
    requires window >= 1 && TitlesInRange(text) && text.titleSimilarity(i, i) == 1.0
    requires !i.genericTitle && |i.countries| <= 1 && (i.ministry ==> i.countries != {})
    requires i.entities != {} && i.numbers != {}
    ensures ScorePair(i, i, window, text).value == 1.0
  {
    if i.occurrence.None? {
      CommonWithSelf(i.entities);
      CommonWithSelf(i.numbers);
      assert Admitted(i, i, window, text);
      ScoreIsWorth(i, i, window, text);
    }
  }

  // ----- order and growth ----------------------------------------------------------------

  lemma BaseIsSymmetric(l: Item, r: Item, window: int, title: real)
    ensures BaseScore(l, r, window, title) == BaseScore(r, l, window, title)
  {
    assert l.entities * r.entities == r.entities * l.entities && l.entities + r.entities == r.entities + l.entities;
    assert l.numbers * r.numbers == r.numbers * l.numbers && l.numbers + r.numbers == r.numbers + l.numbers;
    assert l.actions * r.actions == r.actions * l.actions && l.canonical * r.canonical == r.canonical * l.canonical;
  }

  lemma ContradictionIsSymmetric(l: Item, r: Item, title: real)
    ensures Contradictory(l, r, title) == Contradictory(r, l, title)
  {
    assert l.entities * r.entities == r.entities * l.entities && l.entities + r.entities == r.entities + l.entities;
    assert l.numbers * r.numbers == r.numbers * l.numbers;
  }

  /** With a text comparison that does not depend on the order, neither does the score. */
  lemma ScoreIsSymmetric(l: Item, r: Item, window: int, text: Text)
    requires text.titleSimilarity(l, r) == text.titleSimilarity(r, l)
    ensures ScorePair(l, r, window, text) == ScorePair(r, l, window, text)
  {
    var title := text.titleSimilarity(l, r);
    BaseIsSymmetric(l, r, window, title);
    ContradictionIsSymmetric(l, r, title);
    assert SharedSemantic(l, r, window, text) == SharedSemantic(r, l, window, text);
    assert l.entities * r.entities == r.entities * l.entities;
    assert RateActions(l) * RateActions(r) == RateActions(r) * RateActions(l);
  }

  /** More similar titles never score lower. */
  lemma CloserTitlesScoreHigher(l: Item, r: Item, window: int, a: Text, b: Text)
    requires a.calendar == b.calendar && a.titleSimilarity(l, r) <= b.titleSimilarity(l, r)
    requires TitlesInRange(a) && TitlesInRange(b)
    ensures ScorePair(l, r, window, a).value <= ScorePair(l, r, window, b).value
  {
    if ScorePair(l, r, window, a).value > 0.0 {
      ScoreIsPositiveIff(l, r, window, a);
      if !SameOccurrence(l, r) {
        AdmittedScore(l, r, window, a);
        AdmittedScore(l, r, window, b);
      }
    } else {
      ScoreIsPositiveIff(l, r, window, b);
      ScoreIsNeverNegative(l, r, window, b);
    }
  }

  lemma ScoreIsNeverNegative(l: Item, r: Item, window: int, text: Text)
    requires TitlesInRange(text)
    ensures ScorePair(l, r, window, text).value >= 0.0
  {
    BaseIsBounded(l, r, window, text.titleSimilarity(l, r));
  }

  /** Reports that are joined contradict each other exactly when both name figures, none in common, under similar
      titles and about some of the same entities; with a common verified occurrence they never do. */
  lemma JoinedContradictIff(l: Item, r: Item, window: int, text: Text)
    requires TitlesInRange(text) && ScorePair(l, r, window, text).value > 0.0
    ensures ScorePair(l, r, window, text).contradictory <==>
      && !SameOccurrence(l, r) && l.numbers != {} && r.numbers != {} && l.numbers !! r.numbers
      && text.titleSimilarity(l, r) >= 0.55 && Common(l.entities, r.entities) >= 0.2
  {
    OverlapIsCommon(l.entities, r.entities);
    DisjointIff(l.numbers, r.numbers);
  }
}
