/** The deterministic similarity of two reports. What regular expressions and normalisation read
    from the text are fields of `Item`; the title comparison is a parameter. Scores are reals. */
module PairScore {
  import opened Ordering
  import opened EventIdentity

  datatype Item = Item(
    reportId: int,              // hash of the external identity, ordered as its text is
    id: int,                    // observation id, 0 when absent
    blankTitle: bool,
    genericTitle: bool,
    publishedAt: int,
    topic: string,
    region: string,             // upper case
    ministry: bool,             // names a finance ministry
    countries: set<string>,     // countries of that ministry
    entities: set<string>,
    numbers: set<string>,
    actions: set<string>,       // reviewed action terms
    canonical: set<string>,     // all reviewed terms
    reaction: bool,             // social source or market-reaction wording
    occurrence: Option<Occurrence>,
    semantic: Option<Semantic>,
    sourceId: string,
    publisher: string,          // trimmed and lower case
    evidence: real)             // durable triage score of this report

  /** What the scorer takes from outside: the text comparison and the civil calendar. */
  datatype Text = Text(titleSimilarity: (Item, Item) -> real, calendar: Calendar)

  datatype Score = Score(value: real, contradictory: bool)

  function MaxReal(a: real, b: real): real { if a < b then b else a }
  function MinReal(a: real, b: real): real { if a < b then a else b }
  function AtLeastOne(n: nat): nat { if n < 1 then 1 else n }

  function Overlap(a: set<string>, b: set<string>): real {
    |a * b| as real / AtLeastOne(|a + b|) as real
  }

  lemma SingletonElement(s: set<string>, x: string, y: string)
    requires |s| == 1 && x in s && y in s
    ensures x == y
  {
    assert |s - {x}| == 0;
    assert y !in s - {x};
  }

  function FinanceRegion(i: Item): string {
    if |i.countries| == 1 then
      assert i.countries != {};
      assert forall c, d :: c in i.countries && d in i.countries ==> c == d by {
        forall c, d | c in i.countries && d in i.countries ensures c == d { SingletonElement(i.countries, c, d); }
      }
      var c :| c in i.countries; c
    else ""
  }

  function RegionOf(i: Item): string {
    if FinanceRegion(i) != "" then FinanceRegion(i) else i.region
  }

  function Family(region: string): string {
    if region == "CN" || region == "JP" then "EAST_ASIA"
    else if region == "US" then "NORTH_AMERICA"
    else region
  }

  predicate RegionCompatible(left: string, right: string) {
    || left == "" || right == "" || left == right || left == "GLOBAL" || right == "GLOBAL"
    || Family(left) == Family(right)
  }

  function RateActions(i: Item): set<string> {
    set a | a in i.actions && "action_rate_" <= a
  }

  function TimeScore(left: Item, right: Item, window: int): real {
    MaxReal(0.0, 1.0 - Distance(left.publishedAt,
      right.publishedAt) as real / (if window < 1 then 1 else window) as real)
  }

  predicate SharedSemantic(left: Item, right: Item, window: int, text: Text) {
    && left.semantic.Some? && right.semantic.Some?
    && Compatible(left.semantic.value, right.semantic.value, left.publishedAt, right.publishedAt, text.calendar)
    && Distance(left.publishedAt, right.publishedAt) <= window
  }

  /** The weighted similarity before the last boundary checks. */
  function BaseScore(left: Item, right: Item, window: int, title: real): real {
    var numbers := if left.numbers == {} && right.numbers == {} then 0.5 else Overlap(left.numbers, right.numbers);
    var region := if RegionCompatible(RegionOf(left), RegionOf(right)) then 1.0 else 0.0;
    var time := TimeScore(left, right, window);
    var base := 0.35 * title + 0.25 * Overlap(left.entities, right.entities) + 0.15 * time + 0.15 * numbers
                + 0.10 * region;
    if left.canonical * right.canonical != {} && (left.actions * right.actions != {} || left.reaction || right.reaction)
    then MaxReal(base, MinReal(0.92, 0.42 + 0.28 * Overlap(left.entities, right.entities) + 0.12 * time
                                     + 0.10 * region + 0.10 * numbers))
    else base
  }

  predicate Contradictory(left: Item, right: Item, title: real) {
    && left.numbers != {} && right.numbers != {} && left.numbers * right.numbers == {}
    && title >= 0.55 && Overlap(left.entities, right.entities) >= 0.2
  }

  function ScorePair(left: Item, right: Item, window: int, text: Text): Score {
    var match_ := OccurrencesCompatible(left.occurrence, right.occurrence);
    if match_ == Some(false) then Score(0.0, false)
    else if match_ == Some(true) then Score(1.0, false)
    else if Distance(left.publishedAt, right.publishedAt) > window then Score(0.0, false)
    else if left.genericTitle || right.genericTitle then Score(0.0, false)
    else if |left.countries| > 1 || |right.countries| > 1 then Score(0.0, false)
    else if left.ministry && right.ministry
            && (left.countries == {} || right.countries == {} || left.countries != right.countries)
              then Score(0.0, false)
    else
      var title := text.titleSimilarity(left, right);
      var base := BaseScore(left, right, window, title);
      if RateActions(left) != {} && RateActions(right) != {} && RateActions(left) * RateActions(right) == {}
        then Score(0.0, false)
      else if ("action_capital_injection" in left.actions) != ("action_capital_injection" in right.actions)
        && title < 0.72
      then Score(0.0, false)
      else
        var shared := SharedSemantic(left, right, window, text);
        if !shared && left.semantic.Some? && right.semantic.Some? then Score(0.0, false)
        else if !shared && left.topic != right.topic && left.topic != "general" && right.topic != "general"
                && (left.entities * right.entities == {} || !(left.reaction || right.reaction)) then Score(0.0, false)
        else
          var contradictory := Contradictory(left, right, title);
          if !shared && !RegionCompatible(RegionOf(left), RegionOf(right)) && title < 0.88
            then Score(0.0, contradictory)
          else Score(MinReal(1.0, if shared then MaxReal(base, 0.96) else base), contradictory)
  }

  predicate SameOccurrence(left: Item, right: Item) {
    OccurrencesCompatible(left.occurrence, right.occurrence) == Some(true)
  }

  /** What two reports without a common occurrence must respect to be joined at all. */
  ghost predicate WithinBoundaries(left: Item, right: Item, window: int, text: Text) {
    && (left.occurrence.None? || right.occurrence.None?)
    && Distance(left.publishedAt, right.publishedAt) <= window
    && !left.genericTitle && !right.genericTitle
    && |left.countries| <= 1 && |right.countries| <= 1
    && (left.ministry && right.ministry ==> left.countries == right.countries != {})
    && !(RateActions(left) != {} && RateActions(right) != {} && RateActions(left) !! RateActions(right))
    && (left.semantic.Some? && right.semantic.Some? ==>
          Compatible(left.semantic.value, right.semantic.value, left.publishedAt, right.publishedAt, text.calendar))
  }

  /** A positive score means a shared verified occurrence or no boundary crossed. */
  lemma PositiveScore(left: Item, right: Item, window: int, text: Text)
    requires ScorePair(left, right, window, text).value > 0.0
    ensures SameOccurrence(left, right) || WithinBoundaries(left, right, window, text)
    ensures ScorePair(left, right, window, text).value <= 1.0
  {
  }
}
