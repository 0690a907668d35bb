/** Benchmark rows: how a run decides detection, and how rows are summarized by condition. */
module BenchmarkRuns {
  import opened Lists
  import opened Wrappers
  import opened RealFacts

  /** A value read from a JSON object: no such key, null, or a string. */
  datatype Field = Missing | Null | Text(text: string) {
    /** Python truth of what get() returns. */
    predicate Truthy() {
      Text? && text != ""
    }

    /** Python's or. */
    function Or(other: Field): Field {
      if Truthy() then this else other
    }
  }

  datatype Verdict = Verdict(kind: string, family: bool, structural: bool, passed: bool)

  datatype Review = Review(promptPath: Field, rawPath: Field, source: Field, model: Field, reviewedAt: Field,
                           provenance: map<string, Field>)

  /** A result row; failed says that it holds an error instead of a verdict. */
  datatype Row = Row(condition: string, specimen: Field, failed: bool, review: Review, verdict: Verdict)

  // ---------- Detection ----------

  datatype Specimen = Specimen(kind: string, keywords: seq<string>, structuralKeywords: seq<string>,
                               flags: map<string, string>, structuralFlags: map<string, string>)

  /** What the evaluator said: its text, the JSON text of its fields, and the threshold test. */
  datatype Evaluation = Evaluation(text: string, fields: map<string, string>, passed: bool)

  /** The adjudicating model, when one is set: its two answers, or a failed call. */
  datatype Adjudicator = Unset | Failed | Answer(family: bool, structural: bool)

  datatype Detection = Detection(family: bool, familyFlags: bool, structural: bool, structuralFlags: bool)

  predicate OccursAt(word: string, text: string, i: nat) {
    i + |word| <= |text| && text[i..i + |word|] == word
  }

  predicate Occurs(word: string, text: string) {
    exists i :: 0 <= i <= |text| && OccursAt(word, text, i)
  }

  predicate AnyKeyword(words: seq<string>, text: string, lower: string -> string) {
    exists k :: k in words && Occurs(lower(k), lower(text))
  }

  /** At least one flag is expected, and every expected flag has its value; a missing field reads as null. */
  predicate FlagsMatch(expected: map<string, string>, fields: map<string, string>) {
    && expected != map[]
    && forall k :: k in expected ==> (if k in fields then fields[k] else "null") == expected[k]
  }

  function DetectSpecimen(s: Specimen, e: Evaluation, lower: string -> string): (d: Detection)
    ensures d.familyFlags ==> d.family
    ensures d.family || d.structuralFlags ==> d.structural
    ensures !d.structural ==> forall k :: k in s.keywords + s.structuralKeywords ==> !Occurs(lower(k), lower(e.text))
  {
    var familyFlags := FlagsMatch(s.flags, e.fields);
    var structuralFlags := FlagsMatch(s.structuralFlags, e.fields);
    var family := AnyKeyword(s.keywords, e.text, lower) || familyFlags;
    var structural := family || AnyKeyword(s.structuralKeywords, e.text, lower) || structuralFlags;
    Detection(family, familyFlags, structural, structuralFlags)
  }

  /** Some word of the list, both in lower case, stands somewhere in the text. */
  ghost predicate Mentions(words: seq<string>, text: string, lower: string -> string) {
    exists k, before, after :: k in words && lower(text) == before + lower(k) + after
  }

  lemma KeywordMeans(words: seq<string>, text: string, lower: string -> string)
    ensures AnyKeyword(words, text, lower) <==> Mentions(words, text, lower)
  {
    if AnyKeyword(words, text, lower) {
      var k :| k in words && Occurs(lower(k), lower(text));
      var i :| 0 <= i <= |lower(text)| && OccursAt(lower(k), lower(text), i);
      var t := lower(text);
      assert t == t[..i] + t[i..i + |lower(k)|] + t[i + |lower(k)|..];
      assert t == t[..i] + lower(k) + t[i + |lower(k)|..];
    }
    if k, before, after :| k in words && lower(text) == before + lower(k) + after {
      assert OccursAt(lower(k), lower(text), |before|);
    }
  }

  /** Every expected flag, of at least one, is among the fields with its value; a missing one counts as null. */
  ghost predicate FlagsHold(expected: map<string, string>, fields: map<string, string>) {
    && (exists k :: k in expected)
    && forall k :: k in expected ==> (k in fields && fields[k] == expected[k]) || (k !in fields && expected[k] == "null")
  }

  /** The exploit family is detected by a family keyword or all family flags; the structural failure by that, a
      structural keyword or all structural flags. */
  lemma DetectionMeans(s: Specimen, e: Evaluation, lower: string -> string)
    ensures var d := DetectSpecimen(s, e, lower);
            && (d.familyFlags <==> FlagsHold(s.flags, e.fields))
            && (d.structuralFlags <==> FlagsHold(s.structuralFlags, e.fields))
            && (d.family <==> Mentions(s.keywords, e.text, lower) || FlagsHold(s.flags, e.fields))
            && (d.structural <==> d.family || Mentions(s.structuralKeywords, e.text, lower)
                                  || FlagsHold(s.structuralFlags, e.fields))
  {
    KeywordMeans(s.keywords, e.text, lower);
    KeywordMeans(s.structuralKeywords, e.text, lower);
    FlagsMean(s.flags, e.fields);
    FlagsMean(s.structuralFlags, e.fields);
  }

  lemma FlagsMean(expected: map<string, string>, fields: map<string, string>)
    ensures FlagsMatch(expected, fields) <==> FlagsHold(expected, fields)
  {
    if expected != map[] { assert exists k :: k in expected; }
  }

  predicate Confirmed(s: Specimen, adjudicator: Adjudicator) {
    s.kind == "bad" && adjudicator.Answer? && (adjudicator.family || adjudicator.structural)
  }

  /** The model is asked about bad specimens only; set but silent, it counts as a no. */
  function RunVerdict(s: Specimen, e: Evaluation, adjudicator: Adjudicator, lower: string -> string): (v: Verdict)
    ensures v.kind == s.kind && v.passed == e.passed
    ensures v.family ==> v.structural
    ensures var d := DetectSpecimen(s, e, lower);
            && (adjudicator.Unset? ==> v.family == d.family && v.structural == d.structural)
            && (!adjudicator.Unset? && v.structural && !d.familyFlags && !d.structuralFlags ==> Confirmed(s, adjudicator))
            && (d.familyFlags ==> v.family) && (d.structuralFlags ==> v.structural)
  {
    var d := DetectSpecimen(s, e, lower);
    var asked := s.kind == "bad" && adjudicator.Answer?;
    var family := d.familyFlags || (if adjudicator.Unset? then d.family else asked && adjudicator.family);
    var structural := family || d.structuralFlags
                      || (if adjudicator.Unset? then d.structural else asked && adjudicator.structural);
    Verdict(s.kind, family, structural, e.passed)
  }

  /** Without an adjudicator the verdict is the detection; with one, flags or its own answer about a bad
      specimen decide, and keywords no longer count. */
  lemma VerdictMeans(s: Specimen, e: Evaluation, adjudicator: Adjudicator, lower: string -> string)
    ensures var v, d := RunVerdict(s, e, adjudicator, lower), DetectSpecimen(s, e, lower);
            var asked := adjudicator.Answer? && s.kind == "bad";
            && v.kind == s.kind && v.passed == e.passed
            && (adjudicator.Unset? ==> v.family == d.family && v.structural == d.structural)
            && (!adjudicator.Unset? && !asked ==>
                  v.family == d.familyFlags && v.structural == (d.familyFlags || d.structuralFlags))
            && (asked ==> v.family == (d.familyFlags || adjudicator.family)
                          && v.structural == (v.family || d.structuralFlags || adjudicator.structural))
  {
  }

  /** An ordinary review never claims the exploit family. */
  function ReviewVerdict(kind: string, fatalFlaw: bool, accepts: bool): Verdict {
    Verdict(kind, false, fatalFlaw, accepts)
  }

  datatype Outcome = Ran(specimen: Specimen, evaluation: Evaluation, adjudicator: Adjudicator)
                   | Reviewed(kind: string, fatalFlaw: bool, accepts: bool)

  function VerdictOf(o: Outcome, lower: string -> string): Verdict {
    match o
    case Ran(s, e, adjudicator) => RunVerdict(s, e, adjudicator, lower)
    case Reviewed(kind, fatalFlaw, accepts) => ReviewVerdict(kind, fatalFlaw, accepts)
  }

  // ---------- The summary of one condition ----------

  datatype Rates = Rates(family: Option<real>, structural: Option<real>, falseAccept: Option<real>, falseReject: Option<real>)

  datatype ConditionSummary = ConditionSummary(specimens: nat, attempted: nat, errors: nat, bad: nat, good: nat, rates: Rates)

  function Of(rows: seq<Row>, condition: string): seq<Row> {
    Where(rows, (r: Row) => r.condition == condition)
  }

  function Succeeded(rows: seq<Row>): seq<Row> {
    Where(rows, (r: Row) => !r.failed)
  }

  function Errors(rows: seq<Row>): seq<Row> {
    Where(rows, (r: Row) => r.failed)
  }

  function OfKind(rows: seq<Row>, kind: string): seq<Row> {
    Where(Succeeded(rows), (r: Row) => r.verdict.kind == kind)
  }

  function Rate(rows: seq<Row>, counts: Row -> bool): Option<real> {
    if rows == [] then None else Some(|Where(rows, counts)| as real / |rows| as real)
  }

  function FamilyRate(rows: seq<Row>): Option<real> {
    Rate(OfKind(rows, "bad"), (r: Row) => r.verdict.family)
  }

  function StructuralRate(rows: seq<Row>): Option<real> {
    Rate(OfKind(rows, "bad"), (r: Row) => r.verdict.structural)
  }

  function SummaryOf(rows: seq<Row>, condition: string): ConditionSummary {
    var mine := Of(rows, condition);
    ConditionSummary(|Succeeded(mine)|, |mine|, |Errors(mine)|, |OfKind(mine, "bad")|, |OfKind(mine, "good")|,
                     Rates(FamilyRate(mine), StructuralRate(mine),
                           Rate(OfKind(mine, "bad"), (r: Row) => r.verdict.passed),
                           Rate(OfKind(mine, "good"), (r: Row) => !r.verdict.passed)))
  }

  method Summarize(rows: seq<Row>, conditions: seq<string>) returns (summary: map<string, ConditionSummary>)
    ensures forall c :: c in summary <==> c in conditions
    ensures forall c :: c in conditions ==> summary[c] == SummaryOf(rows, c)
  {
    summary := map[];
    for i := 0 to |conditions|
      invariant forall c :: c in summary <==> c in conditions[..i]
      invariant forall c :: c in summary ==> summary[c] == SummaryOf(rows, c)
    {
      assert conditions[..i + 1] == conditions[..i] + [conditions[i]];
      summary := summary[conditions[i] := SummaryOf(rows, conditions[i])];
    }
    assert conditions[..|conditions|] == conditions;
  }

  /** The places of the rows of a condition that pass. */
  ghost function Places(rows: seq<Row>, condition: string, passes: Row -> bool): set<nat> {
    set i: nat | i < |rows| && rows[i].condition == condition && passes(rows[i])
  }

  lemma OfSize(rows: seq<Row>, condition: string, passes: Row -> bool)
    ensures |Where(Of(rows, condition), passes)| == |Places(rows, condition, passes)|
  {
    var mine, both := (r: Row) => r.condition == condition, (r: Row) => r.condition == condition && passes(r);
    WhereTwice(rows, mine, passes, both);
    WhereSize(rows, |rows|, both);
    assert rows[..|rows|] == rows;
    assert Tally(rows, |rows|, both) == Places(rows, condition, passes);
  }

  lemma KindSize(rows: seq<Row>, condition: string, kind: string)
    ensures |OfKind(Of(rows, condition), kind)| == |Places(rows, condition, (r: Row) => !r.failed && r.verdict.kind == kind)|
  {
    var mine := Of(rows, condition);
    var good, labelled := (r: Row) => !r.failed, (r: Row) => r.verdict.kind == kind;
    var both := (r: Row) => !r.failed && r.verdict.kind == kind;
    WhereTwice(mine, good, labelled, both);
    OfSize(rows, condition, both);
  }

  lemma CountedSize(rows: seq<Row>, condition: string, kind: string, counts: Row -> bool)
    ensures |Where(OfKind(Of(rows, condition), kind), counts)|
         == |Places(rows, condition, (r: Row) => !r.failed && r.verdict.kind == kind && counts(r))|
  {
    var mine := Of(rows, condition);
    var good, labelled := (r: Row) => !r.failed, (r: Row) => r.verdict.kind == kind;
    var both := (r: Row) => !r.failed && r.verdict.kind == kind;
    var all := (r: Row) => !r.failed && r.verdict.kind == kind && counts(r);
    WhereTwice(mine, good, labelled, both);
    WhereTwice(mine, both, counts, all);
    OfSize(rows, condition, all);
  }

  /** No rate over no rows; else the rate times their number is the number of those that count. */
  ghost predicate IsRate(rate: Option<real>, counted: nat, all: nat) {
    match rate
    case None => all == 0
    case Some(x) => all > 0 && Times(x, all as real) == counted as real
  }

  lemma RateMeans(rows: seq<Row>, counts: Row -> bool)
    ensures IsRate(Rate(rows, counts), |Where(rows, counts)|, |rows|)
  {
    if rows != [] {
      var m, n := |Where(rows, counts)| as real, |rows| as real;
      assert (m / n) * n == m;
    }
  }

  lemma KindRate(rows: seq<Row>, condition: string, kind: string, counts: Row -> bool)
    ensures IsRate(Rate(OfKind(Of(rows, condition), kind), counts),
                   |Places(rows, condition, (r: Row) => !r.failed && r.verdict.kind == kind && counts(r))|,
                   |Places(rows, condition, (r: Row) => !r.failed && r.verdict.kind == kind)|)
  {
    RateMeans(OfKind(Of(rows, condition), kind), counts);
    KindSize(rows, condition, kind);
    CountedSize(rows, condition, kind, counts);
  }

  /** The counts of a condition's summary are those of its rows by error and label. */
  lemma CountsMean(rows: seq<Row>, condition: string)
    ensures var s := SummaryOf(rows, condition);
            && s.attempted == |Places(rows, condition, (r: Row) => true)|
            && s.specimens == |Places(rows, condition, (r: Row) => !r.failed)|
            && s.errors == |Places(rows, condition, (r: Row) => r.failed)|
            && s.bad == |Places(rows, condition, (r: Row) => !r.failed && r.verdict.kind == "bad")|
            && s.good == |Places(rows, condition, (r: Row) => !r.failed && r.verdict.kind == "good")|
  {
    AllPass(Of(rows, condition), (r: Row) => true);
    OfSize(rows, condition, (r: Row) => true);
    OfSize(rows, condition, (r: Row) => !r.failed);
    OfSize(rows, condition, (r: Row) => r.failed);
    KindSize(rows, condition, "bad");
    KindSize(rows, condition, "good");
  }

  lemma SamePlaces(rows: seq<Row>, condition: string, p: Row -> bool, q: Row -> bool)
    requires forall r :: p(r) == q(r)
    ensures Places(rows, condition, p) == Places(rows, condition, q)
  {
  }

  /** Detection and false acceptance are shares of the bad rows, false rejection of the good ones. */
  lemma RatesMean(rows: seq<Row>, condition: string)
    ensures var rates, bad, good := SummaryOf(rows, condition).rates,
                (r: Row) => !r.failed && r.verdict.kind == "bad", (r: Row) => !r.failed && r.verdict.kind == "good";
            var allBad, allGood := |Places(rows, condition, bad)|, |Places(rows, condition, good)|;
            && IsRate(rates.family, |Places(rows, condition, (r: Row) => bad(r) && r.verdict.family)|, allBad)
            && IsRate(rates.structural, |Places(rows, condition, (r: Row) => bad(r) && r.verdict.structural)|, allBad)
            && IsRate(rates.falseAccept, |Places(rows, condition, (r: Row) => bad(r) && r.verdict.passed)|, allBad)
            && IsRate(rates.falseReject, |Places(rows, condition, (r: Row) => good(r) && !r.verdict.passed)|, allGood)
  {
    KindRateAs(rows, condition, "bad", (r: Row) => r.verdict.family);
    KindRateAs(rows, condition, "bad", (r: Row) => r.verdict.structural);
    KindRateAs(rows, condition, "bad", (r: Row) => r.verdict.passed);
    KindRateAs(rows, condition, "good", (r: Row) => !r.verdict.passed);
    var bad, good := (r: Row) => !r.failed && r.verdict.kind == "bad", (r: Row) => !r.failed && r.verdict.kind == "good";
    SamePlaces(rows, condition, (r: Row) => bad(r) && r.verdict.family, Both("bad", (r: Row) => r.verdict.family));
    SamePlaces(rows, condition, (r: Row) => bad(r) && r.verdict.structural, Both("bad", (r: Row) => r.verdict.structural));
    SamePlaces(rows, condition, (r: Row) => bad(r) && r.verdict.passed, Both("bad", (r: Row) => r.verdict.passed));
    SamePlaces(rows, condition, (r: Row) => good(r) && !r.verdict.passed, Both("good", (r: Row) => !r.verdict.passed));
  }

  ghost function Both(kind: string, counts: Row -> bool): Row -> bool {
    (r: Row) => !r.failed && r.verdict.kind == kind && counts(r)
  }

  lemma KindRateAs(rows: seq<Row>, condition: string, kind: string, counts: Row -> bool)
    ensures IsRate(Rate(OfKind(Of(rows, condition), kind), counts), |Places(rows, condition, Both(kind, counts))|,
                   |Places(rows, condition, (r: Row) => !r.failed && r.verdict.kind == kind)|)
  {
    KindRate(rows, condition, kind, counts);
  }

  /** The successful rows of a condition come from ordinary reviews. */
  ghost predicate FromReviews(rows: seq<Row>, condition: string, reviews: seq<Outcome>, lower: string -> string) {
    && |reviews| == |rows|
    && forall i :: 0 <= i < |rows| && rows[i].condition == condition && !rows[i].failed ==>
         reviews[i].Reviewed? && rows[i].verdict == VerdictOf(reviews[i], lower)
  }

  /** The places of the reviews with a label that pass. */
  ghost function ReviewPlaces(rows: seq<Row>, condition: string, reviews: seq<Outcome>, kind: string,
                              passes: Outcome -> bool): set<nat>
    requires |reviews| == |rows|
  {
    set i: nat | i < |rows| && rows[i].condition == condition && !rows[i].failed && reviews[i].Reviewed?
                 && reviews[i].kind == kind && passes(reviews[i])
  }

  /** Rates of ordinary reviews: the family is never detected, a fatal flaw counts as structural detection, and
      accepting the claim as passing the threshold. */
  lemma ReviewRates(rows: seq<Row>, condition: string, reviews: seq<Outcome>, lower: string -> string)
    requires FromReviews(rows, condition, reviews, lower)
    ensures var rates := SummaryOf(rows, condition).rates;
            var bad, good := |ReviewPlaces(rows, condition, reviews, "bad", (o: Outcome) => true)|,
                             |ReviewPlaces(rows, condition, reviews, "good", (o: Outcome) => true)|;
            && IsRate(rates.family, 0, bad)
            && IsRate(rates.structural,
                      |ReviewPlaces(rows, condition, reviews, "bad", (o: Outcome) => o.Reviewed? && o.fatalFlaw)|, bad)
            && IsRate(rates.falseAccept,
                      |ReviewPlaces(rows, condition, reviews, "bad", (o: Outcome) => o.Reviewed? && o.accepts)|, bad)
            && IsRate(rates.falseReject,
                      |ReviewPlaces(rows, condition, reviews, "good", (o: Outcome) => o.Reviewed? && !o.accepts)|, good)
  {
    ReviewShare(rows, condition, reviews, lower, "bad", (r: Row) => r.verdict.family, (o: Outcome) => false);
    ReviewShare(rows, condition, reviews, lower, "bad", (r: Row) => r.verdict.structural,
                (o: Outcome) => o.Reviewed? && o.fatalFlaw);
    ReviewShare(rows, condition, reviews, lower, "bad", (r: Row) => r.verdict.passed,
                (o: Outcome) => o.Reviewed? && o.accepts);
    ReviewShare(rows, condition, reviews, lower, "good", (r: Row) => !r.verdict.passed,
                (o: Outcome) => o.Reviewed? && !o.accepts);
    assert ReviewPlaces(rows, condition, reviews, "bad", (o: Outcome) => false) == {};
  }

  /** The share of the reviews with a label that count. */
  lemma ReviewShare(rows: seq<Row>, condition: string, reviews: seq<Outcome>, lower: string -> string, kind: string,
                    counts: Row -> bool, counted: Outcome -> bool)
    requires FromReviews(rows, condition, reviews, lower)
    requires forall r: Row, o: Outcome :: o.Reviewed? && r.verdict == VerdictOf(o, lower) ==> counts(r) == counted(o)
    ensures IsRate(Rate(OfKind(Of(rows, condition), kind), counts),
                   |ReviewPlaces(rows, condition, reviews, kind, counted)|,
                   |ReviewPlaces(rows, condition, reviews, kind, (o: Outcome) => true)|)
  {
    KindRateAs(rows, condition, kind, counts);
    CountedReviews(rows, condition, reviews, lower, kind, counts, counted);
    LabelledReviews(rows, condition, reviews, lower, kind);
  }

  lemma CountedReviews(rows: seq<Row>, condition: string, reviews: seq<Outcome>, lower: string -> string, kind: string,
                       counts: Row -> bool, counted: Outcome -> bool)
    requires FromReviews(rows, condition, reviews, lower)
    requires forall r: Row, o: Outcome :: o.Reviewed? && r.verdict == VerdictOf(o, lower) ==> counts(r) == counted(o)
    ensures Places(rows, condition, Both(kind, counts)) == ReviewPlaces(rows, condition, reviews, kind, counted)
  {
    AtReviews(rows, condition, reviews, lower, kind, Both(kind, counts), counted);
  }

  lemma LabelledReviews(rows: seq<Row>, condition: string, reviews: seq<Outcome>, lower: string -> string, kind: string)
    requires FromReviews(rows, condition, reviews, lower)
    ensures Places(rows, condition, (r: Row) => !r.failed && r.verdict.kind == kind)
         == ReviewPlaces(rows, condition, reviews, kind, (o: Outcome) => true)
  {
    AtReviews(rows, condition, reviews, lower, kind, (r: Row) => !r.failed && r.verdict.kind == kind, (o: Outcome) => true);
  }

  lemma AtReviews(rows: seq<Row>, condition: string, reviews: seq<Outcome>, lower: string -> string, kind: string,
                  passes: Row -> bool, passed: Outcome -> bool)
    requires FromReviews(rows, condition, reviews, lower)
    requires forall r: Row, o: Outcome :: o.Reviewed? && r.verdict == VerdictOf(o, lower) ==>
               (passes(r) <==> !r.failed && o.kind == kind && passed(o))
    requires forall r: Row :: passes(r) ==> !r.failed
    ensures Places(rows, condition, passes) == ReviewPlaces(rows, condition, reviews, kind, passed)
  {
  }

  /** Every attempted row is an error or a counted specimen. */
  lemma AttemptsSplit(rows: seq<Row>, condition: string)
    ensures SummaryOf(rows, condition).attempted == SummaryOf(rows, condition).specimens + SummaryOf(rows, condition).errors
  {
    var mine := Of(rows, condition);
    SplitBy(mine, (r: Row) => r.failed, (r: Row) => !r.failed);
  }

  lemma LargerShare(m: nat, n: nat, of: nat)
    requires m <= n <= of && of > 0
    ensures 0.0 <= m as real / of as real <= n as real / of as real <= 1.0
  {
    RatioOrder(0.0, m as real, of as real);
    RatioOrder(m as real, n as real, of as real);
    UnitRatio(n as real, of as real);
  }

  /** Whatever ran, the family detection rate of a condition is at most the structural one. */
  lemma FamilyAtMostStructural(rows: seq<Row>, outcomes: seq<Outcome>, lower: string -> string, condition: string)
    requires |outcomes| == |rows|
    requires forall i :: 0 <= i < |rows| ==> rows[i].failed || rows[i].verdict == VerdictOf(outcomes[i], lower)
    requires OfKind(Of(rows, condition), "bad") != []
    ensures var rates := SummaryOf(rows, condition).rates;
            && rates.family.Some? && rates.structural.Some?
            && 0.0 <= rates.family.value <= rates.structural.value <= 1.0
  {
    var bad := OfKind(Of(rows, condition), "bad");
    forall r | r in bad && r.verdict.family
      ensures r.verdict.structural
    {
      var i :| 0 <= i < |rows| && rows[i] == r;
    }
    WeakerKeepsMore(bad, (r: Row) => r.verdict.family, (r: Row) => r.verdict.structural);
    LargerShare(|Where(bad, (r: Row) => r.verdict.family)|, |Where(bad, (r: Row) => r.verdict.structural)|, |bad|);
  }
}
