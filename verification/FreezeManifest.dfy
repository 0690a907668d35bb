/** The fail-closed decision to promote ordinary-review results to the frozen suite. */
module FreezeManifest {
  import opened BenchmarkRuns
  import opened Lists
  import opened Wrappers

  const ORDINARY_REVIEW := "D_ordinary_review"

  // ---------- The ids of the source run ----------

  datatype SourceRow = NotARow | SourceRow(failed: bool, id: Option<string>)

  datatype SourceResults = NotFound | NotAList | Listed(rows: seq<SourceRow>)

  datatype Failure = NoResults | ResultsNotAList | NoIds | MixedSources | NullPath | PromptIsDirectory | NoSpecimenKey

  method SourceRunSpecimenIds(results: SourceResults) returns (ids: Result<seq<string>, Failure>)
    ensures results.NotFound? ==> ids == Err(NoResults)
    ensures results.NotAList? ==> ids == Err(ResultsNotAList)
    ensures results.Listed? && ids.Err? ==> ids.error == NoIds && forall id :: SourceRow(false, Some(id)) !in results.rows
    ensures ids.Ok? ==> results.Listed? && ids.value != [] && Distinct(ids.value)
    ensures ids.Ok? ==> forall id :: id in ids.value <==> SourceRow(false, Some(id)) in results.rows
  {
    if results.NotFound? { return Err(NoResults); }
    if results.NotAList? { return Err(ResultsNotAList); }
    var found: seq<string>, rows := [], results.rows;
    for i := 0 to |rows|
      invariant Distinct(found)
      invariant forall id :: id in found <==> SourceRow(false, Some(id)) in rows[..i]
    {
      assert rows[..i + 1] == rows[..i] + [rows[i]];
      if rows[i].SourceRow? && !rows[i].failed && rows[i].id.Some? {
        if rows[i].id.value !in found { found := found + [rows[i].id.value]; }
      }
    }
    assert rows[..|rows|] == rows;
    if found == [] { return Err(NoIds); }
    ids := Ok(found);
  }

  // ---------- What one row proves about itself ----------

  /** The text of each file, and the directories other than the working directory. */
  datatype Disk = Disk(files: map<string, string>, directories: set<string>)

  /** An absent or empty path is the working directory. */
  function PathOf(f: Field): string {
    if f.Truthy() then f.text else "."
  }

  predicate IsDirectory(d: Disk, path: string) {
    path == "." || (path !in d.files && path in d.directories)
  }

  predicate Exists(d: Disk, path: string) {
    path in d.files || IsDirectory(d, path)
  }

  function Got(r: Review, key: string): Field {
    if key in r.provenance then r.provenance[key] else Missing
  }

  function Provider(r: Review): Field {
    Got(r, "provider_runtime").Or(Got(r, "provider")).Or(Got(r, "runtime")).Or(r.source)
  }

  function Model(r: Review): Field {
    Got(r, "model").Or(r.model)
  }

  function ReviewedAt(r: Review): Field {
    Got(r, "timestamp").Or(Got(r, "reviewed_at")).Or(Got(r, "created_at")).Or(r.reviewedAt)
  }

  /** f is the first usable one of the candidates, and the last of them if none is usable. */
  predicate PicksFirst(f: Field, candidates: seq<Field>)
    requires candidates != []
  {
    if f.Truthy() then
      exists i :: 0 <= i < |candidates| && candidates[i] == f && forall j :: 0 <= j < i ==> !candidates[j].Truthy()
    else
      f == candidates[|candidates| - 1] && forall j :: 0 <= j < |candidates| ==> !candidates[j].Truthy()
  }

  /** Imported provenance is preferred, key by key, to what the row says itself. */
  lemma ProvenanceFirst(r: Review)
    ensures PicksFirst(Model(r), [Got(r, "model"), r.model])
    ensures PicksFirst(ReviewedAt(r), [Got(r, "timestamp"), Got(r, "reviewed_at"), Got(r, "created_at"), r.reviewedAt])
    ensures PicksFirst(Provider(r), [Got(r, "provider_runtime"), Got(r, "provider"), Got(r, "runtime"), r.source])
  {
    var models := [Got(r, "model"), r.model];
    var times := [Got(r, "timestamp"), Got(r, "reviewed_at"), Got(r, "created_at"), r.reviewedAt];
    var providers := [Got(r, "provider_runtime"), Got(r, "provider"), Got(r, "runtime"), r.source];
    assert models[0] == Got(r, "model") && models[1] == r.model;
    assert times[0] == Got(r, "timestamp") && times[1] == Got(r, "reviewed_at");
    assert times[2] == Got(r, "created_at") && times[3] == r.reviewedAt;
    assert providers[0] == Got(r, "provider_runtime") && providers[1] == Got(r, "provider");
    assert providers[2] == Got(r, "runtime") && providers[3] == r.source;
  }

  datatype Defect = NoPrompt | NoRawReview | NoModel | NoTimestamp | NoProvider

  datatype Blocker = Unbound | MissingIds(ids: set<string>) | ExtraIds(ids: set<string>) | ErrorRows(count: nat)
                   | Provenance(defect: Defect, specimen: Field) | CountMismatch

  function When(fails: bool, blocker: Blocker): seq<Blocker> {
    if fails then [blocker] else []
  }

  function Defects(row: Row, d: Disk): seq<Blocker> {
    When(!Exists(d, PathOf(row.review.promptPath)), Provenance(NoPrompt, row.specimen))
    + When(!Exists(d, PathOf(row.review.rawPath)), Provenance(NoRawReview, row.specimen))
    + When(!Model(row.review).Truthy(), Provenance(NoModel, row.specimen))
    + When(!ReviewedAt(row.review).Truthy(), Provenance(NoTimestamp, row.specimen))
    + When(!Provider(row.review).Truthy(), Provenance(NoProvider, row.specimen))
  }

  function AllDefects(rows: seq<Row>, d: Disk): seq<Blocker> {
    if rows == [] then [] else AllDefects(rows[..|rows| - 1], d) + Defects(rows[|rows| - 1], d)
  }

  /** The exception that a row raises: a null path, a directory read as a prompt, no specimen key. */
  function Raised(row: Row, d: Disk): Option<Failure> {
    if row.review.promptPath.Null? || row.review.rawPath.Null? then Some(NullPath)
    else if IsDirectory(d, PathOf(row.review.promptPath)) then Some(PromptIsDirectory)
    else if row.specimen.Missing? then Some(NoSpecimenKey)
    else None
  }

  /** Sources are sorted, which fails on a mixture of absent ones and strings. */
  predicate Mixed(rows: seq<Row>) {
    && (exists r :: r in rows && r.review.source.Text?)
    && (exists r :: r in rows && !r.review.source.Text?)
  }

  /** The rows before the first that raises are through. */
  predicate Through(rows: seq<Row>, d: Disk) {
    forall r :: r in rows ==> Raised(r, d) == None
  }

  // ---------- The manifest ----------

  datatype RowManifest = RowManifest(specimen: Field, promptDigest: Option<string>, model: Field, reviewedAt: Field,
                                     provider: Field)

  datatype Manifest = Manifest(selected: seq<string>, expected: seq<string>, errorCount: nat, rows: seq<RowManifest>,
                               promptDigests: map<Field, string>, blockers: seq<Blocker>, canPromote: bool)

  function Ids(rows: seq<Row>): seq<string> {
    if rows == [] then []
    else (if rows[0].specimen.Truthy() then [rows[0].specimen.text] else []) + Ids(rows[1..])
  }

  function Expected(sourceIds: seq<string>, rows: seq<Row>): seq<string> {
    if sourceIds == [] then Ids(rows) else sourceIds
  }

  function SetOf(ids: seq<string>): set<string> {
    set id | id in ids
  }

  function BlockersOf(selected: seq<string>, expected: seq<string>, errors: nat, failures: seq<Blocker>,
                      specimens: Option<nat>, bound: bool): seq<Blocker> {
    var missing, extra := SetOf(expected) - SetOf(selected), SetOf(selected) - SetOf(expected);
    When(!bound, Unbound) + When(missing != {}, MissingIds(missing)) + When(extra != {}, ExtraIds(extra))
    + When(errors > 0, ErrorRows(errors)) + failures + When(specimens != Some(|expected|), CountMismatch)
  }

  function Blockers(rows: seq<Row>, specimens: Option<nat>, bound: bool, sourceIds: seq<string>, d: Disk): seq<Blocker> {
    var mine := Of(rows, ORDINARY_REVIEW);
    BlockersOf(Ids(mine), Expected(sourceIds, mine), |Errors(mine)|, AllDefects(Succeeded(mine), d), specimens, bound)
  }

  function PromptDigest(row: Row, d: Disk, digest: string -> string): Option<string> {
    var path := PathOf(row.review.promptPath);
    if path in d.files && !IsDirectory(d, path) then Some(digest(d.files[path])) else None
  }

  function Entry(row: Row, d: Disk, digest: string -> string): RowManifest {
    RowManifest(row.specimen, PromptDigest(row, d, digest), Model(row.review), ReviewedAt(row.review), Provider(row.review))
  }

  /** A specimen's digest is that of the last row that had a prompt for it. */
  predicate DigestsMatch(digests: map<Field, string>, rows: seq<Row>, d: Disk, digest: string -> string) {
    && (forall s :: s in digests ==> exists r :: r in rows && r.specimen == s && PromptDigest(r, d, digest).Some?)
    && forall i :: 0 <= i < |rows| && PromptDigest(rows[i], d, digest).Some? ==>
        && rows[i].specimen in digests
        && (digests[rows[i].specimen] == PromptDigest(rows[i], d, digest).value || Later(rows, i, d, digest))
  }

  /** A later row for the same specimen has a prompt too. */
  predicate Later(rows: seq<Row>, i: nat, d: Disk, digest: string -> string)
    requires i < |rows|
  {
    exists j :: i < j < |rows| && rows[j].specimen == rows[i].specimen && PromptDigest(rows[j], d, digest).Some?
  }

  lemma DigestAdded(digests: map<Field, string>, rows: seq<Row>, row: Row, d: Disk, digest: string -> string)
    requires DigestsMatch(digests, rows, d, digest)
    ensures var p := PromptDigest(row, d, digest);
            DigestsMatch(if p.Some? then digests[row.specimen := p.value] else digests, rows + [row], d, digest)
  {
    var p, more := PromptDigest(row, d, digest), rows + [row];
    var after := if p.Some? then digests[row.specimen := p.value] else digests;
    forall i | 0 <= i < |more| && PromptDigest(more[i], d, digest).Some?
      ensures more[i].specimen in after
      ensures after[more[i].specimen] == PromptDigest(more[i], d, digest).value || Later(more, i, d, digest)
    {
      if i < |rows| {
        assert more[i] == rows[i];
        if Later(rows, i, d, digest) {
          var j :| i < j < |rows| && rows[j].specimen == rows[i].specimen && PromptDigest(rows[j], d, digest).Some?;
          assert more[j] == rows[j];
        } else if p.Some? && row.specimen == rows[i].specimen {
          assert more[|rows|] == row;
        }
      }
    }
    forall s | s in after
      ensures exists r :: r in more && r.specimen == s && PromptDigest(r, d, digest).Some?
    {
      if s in digests {
        var r :| r in rows && r.specimen == s && PromptDigest(r, d, digest).Some?;
        assert r in more;
      } else {
        assert row in more;
      }
    }
  }

  /** What the rows gave, or the exception of the first that raised. */
  datatype Collected = Collected(rows: seq<RowManifest>, promptDigests: map<Field, string>, failures: seq<Blocker>)

  predicate Collects(c: Collected, rows: seq<Row>, d: Disk, digest: string -> string) {
    && Through(rows, d) && c.failures == AllDefects(rows, d) && |c.rows| == |rows|
    && (forall k :: 0 <= k < |rows| ==> c.rows[k] == Entry(rows[k], d, digest))
    && DigestsMatch(c.promptDigests, rows, d, digest)
  }

  predicate FirstRaised(rows: seq<Row>, d: Disk, failure: Failure) {
    exists i :: 0 <= i < |rows| && Through(rows[..i], d) && Raised(rows[i], d) == Some(failure)
  }

  function Extended(c: Collected, row: Row, d: Disk, digest: string -> string): Collected {
    var p := PromptDigest(row, d, digest);
    Collected(c.rows + [Entry(row, d, digest)],
              if p.Some? then c.promptDigests[row.specimen := p.value] else c.promptDigests,
              c.failures + Defects(row, d))
  }

  lemma RowCollected(c: Collected, before: seq<Row>, row: Row, d: Disk, digest: string -> string)
    requires Collects(c, before, d, digest) && Raised(row, d) == None
    ensures Collects(Extended(c, row, d, digest), before + [row], d, digest)
  {
    assert (before + [row])[..|before|] == before;
    DigestAdded(c.promptDigests, before, row, d, digest);
  }

  /** One pass of the loop over the successful rows. */
  method CollectRow(c: Collected, row: Row, d: Disk, digest: string -> string, ghost before: seq<Row>,
                    ghost after: seq<Row>)
    returns (r: Result<Collected, Failure>)
    requires Collects(c, before, d, digest) && after == before + [row]
    ensures r.Err? <==> Raised(row, d).Some?
    ensures r.Err? ==> Raised(row, d) == Some(r.error)
    ensures r.Ok? ==> Collects(r.value, after, d, digest)
  {
    if row.review.promptPath.Null? || row.review.rawPath.Null? { return Err(NullPath); }
    var prompt, promptDigest := PathOf(row.review.promptPath), None;
    var digests := c.promptDigests;
    if Exists(d, prompt) {
      if IsDirectory(d, prompt) { return Err(PromptIsDirectory); }
      promptDigest := Some(digest(d.files[prompt]));
      digests := digests[row.specimen := promptDigest.value];
    }
    if row.specimen.Missing? { return Err(NoSpecimenKey); }
    var entry := RowManifest(row.specimen, promptDigest, Model(row.review), ReviewedAt(row.review), Provider(row.review));
    r := Ok(Collected(c.rows + [entry], digests, c.failures + Defects(row, d)));
    RowCollected(c, before, row, d, digest);
  }

  lemma Next(rows: seq<Row>, i: nat)
    requires i < |rows|
    ensures rows[..i + 1] == rows[..i] + [rows[i]]
  {
  }

  lemma RaisedAt(c: Collected, rows: seq<Row>, i: nat, d: Disk, digest: string -> string, failure: Failure)
    requires i < |rows| && Collects(c, rows[..i], d, digest) && Raised(rows[i], d) == Some(failure)
    ensures FirstRaised(rows, d, failure)
  {
  }

  method CollectRows(rows: seq<Row>, d: Disk, digest: string -> string) returns (r: Result<Collected, Failure>)
    ensures r.Ok? ==> Collects(r.value, rows, d, digest)
    ensures r.Err? ==> FirstRaised(rows, d, r.error)
  {
    var c := Collected([], map[], []);
    for i := 0 to |rows|
      invariant Collects(c, rows[..i], d, digest)
    {
      Next(rows, i);
      r := CollectRow(c, rows[i], d, digest, rows[..i], rows[..i + 1]);
      if r.Err? {
        RaisedAt(c, rows, i, d, digest, r.error);
        return;
      }
      c := r.value;
    }
    assert rows[..|rows|] == rows;
    r := Ok(c);
  }

  function Specimens(summary: map<string, ConditionSummary>): Option<nat> {
    if ORDINARY_REVIEW in summary then Some(summary[ORDINARY_REVIEW].specimens) else None
  }

  method BuildFreezeManifest(rows: seq<Row>, summary: map<string, ConditionSummary>, sourceRun: string,
                             sourceIds: seq<string>, d: Disk, digest: string -> string)
    returns (r: Result<Manifest, Failure>)
    ensures var good := Succeeded(Of(rows, ORDINARY_REVIEW));
            && (r.Err? <==> Mixed(good) || !Through(good, d))
            && (r.Err? ==> if Mixed(good) then r.error == MixedSources else FirstRaised(good, d, r.error))
    ensures var mine := Of(rows, ORDINARY_REVIEW);
            r.Ok? ==>
              && r.value.selected == Ids(mine) && r.value.expected == Expected(sourceIds, mine)
              && r.value.errorCount == |Errors(mine)|
              && r.value.blockers == Blockers(rows, Specimens(summary), sourceRun != "", sourceIds, d)
              && r.value.canPromote == (r.value.blockers == [])
              && Collects(Collected(r.value.rows, r.value.promptDigests, AllDefects(Succeeded(mine), d)), Succeeded(mine), d, digest)
  {
    var mine := Of(rows, ORDINARY_REVIEW);
    var errors, good := Errors(mine), Succeeded(mine);
    var selected := Ids(mine);
    var expected := if sourceIds == [] then selected else sourceIds;
    if Mixed(good) { return Err(MixedSources); }
    var c := CollectRows(good, d, digest);
    if c.Err? { return Err(c.error); }
    var blockers := BlockersOf(selected, expected, |errors|, c.value.failures, Specimens(summary), sourceRun != "");
    r := Ok(Manifest(selected, expected, |errors|, c.value.rows, c.value.promptDigests, blockers, blockers == []));
  }

  // ---------- When promotion is possible ----------

  predicate Documented(row: Row, d: Disk) {
    && Exists(d, PathOf(row.review.promptPath)) && Exists(d, PathOf(row.review.rawPath))
    && Model(row.review).Truthy() && ReviewedAt(row.review).Truthy() && Provider(row.review).Truthy()
  }

  /** Every row is for one of the ids, no two for the same one, and every id has its row. */
  predicate OneRowEach(rows: seq<Row>, ids: seq<string>) {
    && (forall r :: r in rows ==> r.specimen.Text? && r.specimen.text in ids)
    && (forall i, j :: 0 <= i < j < |rows| ==> rows[i].specimen != rows[j].specimen)
    && (forall id :: id in ids ==> exists r :: r in rows && r.specimen == Text(id))
  }

  lemma RowDefectsIff(row: Row, d: Disk)
    ensures Defects(row, d) == [] <==> Documented(row, d)
  {
  }

  lemma {:induction false} NoDefectsIff(rows: seq<Row>, d: Disk)
    ensures AllDefects(rows, d) == [] <==> forall r :: r in rows ==> Documented(r, d)
    decreases |rows|
  {
    if rows != [] {
      var init, last := rows[..|rows| - 1], rows[|rows| - 1];
      assert rows == init + [last];
      NoDefectsIff(init, d);
      RowDefectsIff(last, d);
      EmptyTogether(AllDefects(init, d), Defects(last, d));
      assert forall r :: r in rows <==> r in init || r == last;
    }
  }

  lemma EmptyTogether<T>(a: seq<T>, b: seq<T>)
    ensures a + b == [] <==> a == [] && b == []
  {
  }

  lemma {:induction false} IdsMeaning(rows: seq<Row>)
    ensures |Ids(rows)| <= |rows|
    ensures forall id :: id in Ids(rows) <==> id != "" && exists r :: r in rows && r.specimen == Text(id)
    ensures |Ids(rows)| == |rows| <==> forall r :: r in rows ==> r.specimen.Truthy()
    ensures |Ids(rows)| == |rows| ==> forall i :: 0 <= i < |rows| ==> Text(Ids(rows)[i]) == rows[i].specimen
  {
    if rows != [] {
      assert rows == [rows[0]] + rows[1..];
      IdsMeaning(rows[1..]);
    }
  }

  lemma SameIdsMatchRows(rows: seq<Row>, ids: seq<string>)
    requires Distinct(ids) && |rows| == |ids| && SetOf(Ids(rows)) == SetOf(ids)
    ensures OneRowEach(rows, ids) && "" !in ids
  {
    var own := Ids(rows);
    IdsMeaning(rows);
    SizeOfDistinct(ids, SetOf(ids));
    SizeOfList(own, SetOf(own));
    assert forall id :: id in ids <==> id in own by {
      assert forall id :: id in ids <==> id in SetOf(ids);
      assert forall id :: id in own <==> id in SetOf(own);
    }
    forall i | 0 <= i < |rows|
      ensures rows[i].specimen == Text(own[i]) && own[i] in ids
    {
      assert own[i] in own;
    }
  }

  lemma MatchedRowsShareIds(rows: seq<Row>, ids: seq<string>)
    requires Distinct(ids) && OneRowEach(rows, ids) && "" !in ids
    ensures |rows| == |ids| && SetOf(Ids(rows)) == SetOf(ids)
  {
    var own := Ids(rows);
    IdsMeaning(rows);
    assert forall r :: r in rows ==> r.specimen.Truthy();
    forall i, j | 0 <= i < j < |own|
      ensures own[i] != own[j]
    {
      assert Text(own[i]) == rows[i].specimen && Text(own[j]) == rows[j].specimen;
    }
    assert forall id :: id in own <==> id in ids;
    SizeOfDistinct(own, SetOf(ids));
    SizeOfDistinct(ids, SetOf(ids));
  }

  /** The pigeonhole: as many rows as ids and the same sets of ids make a bijection. */
  lemma OneRowEachIff(rows: seq<Row>, ids: seq<string>)
    requires Distinct(ids)
    ensures |rows| == |ids| && SetOf(Ids(rows)) == SetOf(ids) <==> OneRowEach(rows, ids) && "" !in ids
  {
    if |rows| == |ids| && SetOf(Ids(rows)) == SetOf(ids) { SameIdsMatchRows(rows, ids); }
    if OneRowEach(rows, ids) && "" !in ids { MatchedRowsShareIds(rows, ids); }
  }

  lemma NoErrorsIff(rows: seq<Row>)
    ensures Errors(rows) == [] <==> forall r :: r in rows ==> !r.failed
    ensures Errors(rows) == [] ==> Succeeded(rows) == rows
  {
    if Errors(rows) == [] {
      assert forall r :: r in rows && r.failed ==> r in Errors(rows);
      AllPass(rows, (r: Row) => !r.failed);
    } else {
      var r := Errors(rows)[0];
      assert r in Errors(rows);
    }
  }

  /** Blockers are empty when no part of the decision objects. */
  lemma NoBlockersIff(rows: seq<Row>, specimens: Option<nat>, bound: bool, sourceIds: seq<string>, d: Disk)
    ensures var mine := Of(rows, ORDINARY_REVIEW);
            Blockers(rows, specimens, bound, sourceIds, d) == []
            <==> bound && SetOf(Ids(mine)) == SetOf(Expected(sourceIds, mine)) && Errors(mine) == []
                 && AllDefects(Succeeded(mine), d) == [] && specimens == Some(|Expected(sourceIds, mine)|)
  {
    var mine := Of(rows, ORDINARY_REVIEW);
    var selected, expected := SetOf(Ids(mine)), SetOf(Expected(sourceIds, mine));
    assert selected == expected <==> expected - selected == {} && selected - expected == {};
  }

  /** With the summary of the same rows and the source run's ids, promotion is allowed exactly
      when the run is bound and its ordinary-review rows are error-free, documented and in
      bijection with the ids. */
  lemma PromotableIff(rows: seq<Row>, bound: bool, sourceIds: seq<string>, d: Disk)
    requires Distinct(sourceIds) && sourceIds != []
    ensures var mine := Of(rows, ORDINARY_REVIEW);
            Blockers(rows, Some(SummaryOf(rows, ORDINARY_REVIEW).specimens), bound, sourceIds, d) == []
            <==> bound && OneRowEach(mine, sourceIds) && "" !in sourceIds
                 && forall r :: r in mine ==> !r.failed && Documented(r, d)
  {
    var mine := Of(rows, ORDINARY_REVIEW);
    NoBlockersIff(rows, Some(SummaryOf(rows, ORDINARY_REVIEW).specimens), bound, sourceIds, d);
    NoErrorsIff(mine);
    NoDefectsIff(Succeeded(mine), d);
    OneRowEachIff(mine, sourceIds);
  }

  /** Without source ids the rows are compared with themselves: repeated specimens pass. */
  lemma WithoutSourceIds(rows: seq<Row>, bound: bool, d: Disk)
    ensures var mine := Of(rows, ORDINARY_REVIEW);
            Blockers(rows, Some(SummaryOf(rows, ORDINARY_REVIEW).specimens), bound, [], d) == []
            <==> bound && forall r :: r in mine ==> r.specimen.Truthy() && !r.failed && Documented(r, d)
  {
    var mine := Of(rows, ORDINARY_REVIEW);
    NoBlockersIff(rows, Some(SummaryOf(rows, ORDINARY_REVIEW).specimens), bound, [], d);
    NoErrorsIff(mine);
    NoDefectsIff(Succeeded(mine), d);
    IdsMeaning(mine);
  }

  /** The source run names no specimen: no readable list of rows, or none that names one. */
  ghost predicate NoSourceIds(results: SourceResults) {
    results.Listed? ==> forall id :: SourceRow(false, Some(id)) !in results.rows
  }

  function SourceFailure(results: SourceResults): Failure {
    match results case NotFound => NoResults case NotAList => ResultsNotAList case Listed(_) => NoIds
  }

  /** The end of a benchmark run that includes the ordinary reviews: summary and manifest of the
      same rows, with the source run's ids when one is given. */
  method FreezeRun(rows: seq<Row>, conditions: seq<string>, sourceRun: string, results: SourceResults, d: Disk,
                   digest: string -> string)
    returns (ids: seq<string>, r: Result<Manifest, Failure>)
    requires ORDINARY_REVIEW in conditions
    ensures var good := Succeeded(Of(rows, ORDINARY_REVIEW));
            && (r.Err? <==> (sourceRun != "" && NoSourceIds(results)) || Mixed(good) || !Through(good, d))
            && (r.Err? ==> if sourceRun != "" && NoSourceIds(results) then r.error == SourceFailure(results)
                           else if Mixed(good) then r.error == MixedSources
                           else FirstRaised(good, d, r.error))
    ensures r.Ok? && sourceRun != "" ==>
              results.Listed? && Distinct(ids) && forall id :: id in ids <==> SourceRow(false, Some(id)) in results.rows
    ensures var mine := Of(rows, ORDINARY_REVIEW);
            r.Ok? ==> (r.value.canPromote <==>
                        && sourceRun != "" && OneRowEach(mine, ids) && "" !in ids
                        && forall row :: row in mine ==> !row.failed && Documented(row, d))
  {
    ids := [];
    if sourceRun != "" {
      var source := SourceRunSpecimenIds(results);
      if source.Err? { return ids, Err(source.error); }
      ids := source.value;
      assert ids[0] in ids;
    }
    var summary := Summarize(rows, conditions);
    r := BuildFreezeManifest(rows, summary, sourceRun, ids, d, digest);
    if ids == [] {
      WithoutSourceIds(rows, sourceRun != "", d);
    } else {
      PromotableIff(rows, sourceRun != "", ids, d);
    }
  }

  // ---------- The raw review of a promoted row ----------

  predicate HasRawReview(row: Row, d: Disk) {
    && row.review.rawPath.Truthy() && row.review.rawPath.text in d.files
    && !IsDirectory(d, row.review.rawPath.text)
  }

  /** A promoted row has its raw review exactly when its path is not a directory, which an absent path is. */
  lemma RawReviewIff(rows: seq<Row>, specimens: Option<nat>, sourceIds: seq<string>, d: Disk)
    requires Blockers(rows, specimens, true, sourceIds, d) == []
    ensures forall r :: r in Of(rows, ORDINARY_REVIEW) ==>
              (HasRawReview(r, d) <==> !IsDirectory(d, PathOf(r.review.rawPath)))
  {
    NoBlockersIff(rows, specimens, true, sourceIds, d);
    NoErrorsIff(Of(rows, ORDINARY_REVIEW));
    NoDefectsIff(Succeeded(Of(rows, ORDINARY_REVIEW)), d);
  }

  /** The manifest function, given a row that names no raw review at all, promotes it. */
  lemma AbsentRawReviewIsPromoted()
    ensures var review := Review(Text("prompt.txt"), Missing, Text("imported"), Text("m"), Text("now"), map[]);
            var row := Row(ORDINARY_REVIEW, Text("s1"), false, review, ReviewVerdict("bad", true, false));
            var d := Disk(map["prompt.txt" := "review this"], {});
            && Blockers([row], Some(SummaryOf([row], ORDINARY_REVIEW).specimens), true, ["s1"], d) == []
            && Raised(row, d) == None && !HasRawReview(row, d)
  {
    var review := Review(Text("prompt.txt"), Missing, Text("imported"), Text("m"), Text("now"), map[]);
    var row := Row(ORDINARY_REVIEW, Text("s1"), false, review, ReviewVerdict("bad", true, false));
    var d := Disk(map["prompt.txt" := "review this"], {});
    OneOrdinaryRow(row, d);
    assert Documented(row, d);
  }

  lemma OneOrdinaryRow(row: Row, d: Disk)
    requires row.condition == ORDINARY_REVIEW && row.specimen == Text("s1") && !row.failed
    ensures Blockers([row], Some(SummaryOf([row], ORDINARY_REVIEW).specimens), true, ["s1"], d) == [] <==>
              Documented(row, d)
  {
    assert Of([row], ORDINARY_REVIEW) == [row];
    PromotableIff([row], true, ["s1"], d);
  }
}
