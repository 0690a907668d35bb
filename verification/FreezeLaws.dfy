/** The freeze decision in terms of the rows, the ids and the files alone. */
module FreezeLaws {
  import opened BenchmarkRuns
  import opened FreezeManifest
  import opened Lists
  import opened Wrappers

  /** A string that is not empty. */
  predicate Given(f: Field) {
    f.Text? && f.text != ""
  }

  // ---------- One row ----------

  /** A path that is not given is the working directory. */
  predicate OnDisk(path: Field, d: Disk) {
    !Given(path) || path.text == "." || path.text in d.files || path.text in d.directories
  }

  predicate Imported(r: Review, key: string) {
    key in r.provenance && Given(r.provenance[key])
  }

  predicate Lacks(row: Row, d: Disk, defect: Defect) {
    var r := row.review;
    match defect
    case NoPrompt => !OnDisk(r.promptPath, d)
    case NoRawReview => !OnDisk(r.rawPath, d)
    case NoModel => !Imported(r, "model") && !Given(r.model)
    case NoTimestamp =>
      !Imported(r, "timestamp") && !Imported(r, "reviewed_at") && !Imported(r, "created_at") && !Given(r.reviewedAt)
    case NoProvider =>
      !Imported(r, "provider_runtime") && !Imported(r, "provider") && !Imported(r, "runtime") && !Given(r.source)
  }

  /** The kinds of blocker in the order of the list, the kinds of defect among them. */
  function Place(b: Blocker): nat {
    match b
    case Unbound => 0
    case MissingIds(_) => 1
    case ExtraIds(_) => 2
    case ErrorRows(_) => 3
    case Provenance(NoPrompt, _) => 4
    case Provenance(NoRawReview, _) => 5
    case Provenance(NoModel, _) => 6
    case Provenance(NoTimestamp, _) => 7
    case Provenance(NoProvider, _) => 8
    case CountMismatch => 9
  }

  /** Each kind once at most, in order. */
  predicate Rising(bs: seq<Blocker>) {
    forall i, j :: 0 <= i < j < |bs| ==> Place(bs[i]) < Place(bs[j])
  }

  lemma RisesOn(a: seq<Blocker>, fails: bool, b: Blocker)
    requires Rising(a) && forall x :: x in a ==> Place(x) < Place(b)
    ensures Rising(a + When(fails, b))
  {
  }

  lemma FourRise(c0: bool, b0: Blocker, c1: bool, b1: Blocker, c2: bool, b2: Blocker, c3: bool, b3: Blocker)
    requires Place(b0) < Place(b1) < Place(b2) < Place(b3)
    ensures var all := When(c0, b0) + When(c1, b1) + When(c2, b2) + When(c3, b3);
            Rising(all) && forall x :: x in all ==> Place(x) <= Place(b3)
  {
    var a1 := When(c0, b0);
    RisesOn(a1, c1, b1);
    var a2 := a1 + When(c1, b1);
    RisesOn(a2, c2, b2);
    RisesOn(a2 + When(c2, b2), c3, b3);
  }

  lemma FourAmong(c0: bool, b0: Blocker, c1: bool, b1: Blocker, c2: bool, b2: Blocker, c3: bool, b3: Blocker, x: Blocker)
    ensures x in When(c0, b0) + When(c1, b1) + When(c2, b2) + When(c3, b3) <==>
              (c0 && x == b0) || (c1 && x == b1) || (c2 && x == b2) || (c3 && x == b3)
  {
  }

  /** The tests that record a defect. */
  lemma EachDefect(row: Row, d: Disk)
    ensures Exists(d, PathOf(row.review.promptPath)) <==> !Lacks(row, d, NoPrompt)
    ensures Exists(d, PathOf(row.review.rawPath)) <==> !Lacks(row, d, NoRawReview)
    ensures Model(row.review).Truthy() <==> !Lacks(row, d, NoModel)
    ensures ReviewedAt(row.review).Truthy() <==> !Lacks(row, d, NoTimestamp)
    ensures Provider(row.review).Truthy() <==> !Lacks(row, d, NoProvider)
  {
  }

  function FirstFour(row: Row, d: Disk): seq<Blocker> {
    var s := row.specimen;
    When(Lacks(row, d, NoPrompt), Provenance(NoPrompt, s)) + When(Lacks(row, d, NoRawReview), Provenance(NoRawReview, s))
    + When(Lacks(row, d, NoModel), Provenance(NoModel, s)) + When(Lacks(row, d, NoTimestamp), Provenance(NoTimestamp, s))
  }

  lemma DefectsSplit(row: Row, d: Disk)
    ensures Defects(row, d) == FirstFour(row, d) + When(Lacks(row, d, NoProvider), Provenance(NoProvider, row.specimen))
  {
    EachDefect(row, d);
  }

  /** A row's defects are what it lacks, under its specimen. */
  lemma DefectsMean(row: Row, d: Disk, x: Blocker)
    ensures x in Defects(row, d) <==> x.Provenance? && x.specimen == row.specimen && Lacks(row, d, x.defect)
  {
    var s := row.specimen;
    DefectsSplit(row, d);
    FourAmong(Lacks(row, d, NoPrompt), Provenance(NoPrompt, s), Lacks(row, d, NoRawReview), Provenance(NoRawReview, s),
              Lacks(row, d, NoModel), Provenance(NoModel, s), Lacks(row, d, NoTimestamp), Provenance(NoTimestamp, s), x);
  }

  /** Each defect is recorded once, prompt before raw review before model, time and provider. */
  lemma DefectsRise(row: Row, d: Disk)
    ensures Rising(Defects(row, d))
  {
    var s := row.specimen;
    DefectsSplit(row, d);
    FourRise(Lacks(row, d, NoPrompt), Provenance(NoPrompt, s), Lacks(row, d, NoRawReview), Provenance(NoRawReview, s),
             Lacks(row, d, NoModel), Provenance(NoModel, s), Lacks(row, d, NoTimestamp), Provenance(NoTimestamp, s));
    RisesOn(FirstFour(row, d), Lacks(row, d, NoProvider), Provenance(NoProvider, s));
  }

  /** The defects of several rows follow each other in the order of the rows. */
  lemma {:induction false} DefectsInOrder(a: seq<Row>, b: seq<Row>, d: Disk)
    ensures AllDefects(a + b, d) == AllDefects(a, d) + AllDefects(b, d)
  {
    if b == [] {
      assert a + b == a;
    } else {
      var init, last := b[..|b| - 1], b[|b| - 1];
      assert (a + b)[..|a + b| - 1] == a + init;
      DefectsInOrder(a, init, d);
      Regroup(AllDefects(a, d), AllDefects(init, d), Defects(last, d));
    }
  }

  lemma Regroup<T>(a: seq<T>, b: seq<T>, c: seq<T>)
    ensures a + b + c == a + (b + c)
  {
  }

  predicate NullPath(row: Row) {
    row.review.promptPath == Null || row.review.rawPath == Null
  }

  predicate PromptDirectory(row: Row, d: Disk) {
    var path := row.review.promptPath;
    !Given(path) || path.text == "." || (path.text !in d.files && path.text in d.directories)
  }

  /** A row raises for a null path, then for a prompt path that is a directory, then for having no specimen id. */
  lemma RaisedMeans(row: Row, d: Disk)
    ensures Raised(row, d) == Some(Failure.NullPath) <==> NullPath(row)
    ensures Raised(row, d) == Some(PromptIsDirectory) <==> !NullPath(row) && PromptDirectory(row, d)
    ensures Raised(row, d) == Some(NoSpecimenKey) <==> !NullPath(row) && !PromptDirectory(row, d) && row.specimen == Missing
    ensures Raised(row, d) == None <==> !NullPath(row) && !PromptDirectory(row, d) && row.specimen != Missing
  {
  }

  predicate PromptFile(row: Row, d: Disk, path: string) {
    row.review.promptPath == Text(path) && path != "" && path != "." && path in d.files
  }

  /** An entry has the row's specimen, the digest of the prompt file if there is one, and for model, time and provider
      the first usable candidate. */
  lemma EntryMeans(row: Row, d: Disk, digest: string -> string)
    ensures var e, r := Entry(row, d, digest), row.review;
            && e.specimen == row.specimen
            && (forall path :: PromptFile(row, d, path) ==> e.promptDigest == Some(digest(d.files[path])))
            && ((forall path :: !PromptFile(row, d, path)) ==> e.promptDigest == None)
            && PicksFirst(e.model, [Got(r, "model"), r.model])
            && PicksFirst(e.reviewedAt, [Got(r, "timestamp"), Got(r, "reviewed_at"), Got(r, "created_at"), r.reviewedAt])
            && PicksFirst(e.provider, [Got(r, "provider_runtime"), Got(r, "provider"), Got(r, "runtime"), r.source])
  {
    ProvenanceFirst(row.review);
    if PromptDigest(row, d, digest).Some? {
      assert PromptFile(row, d, row.review.promptPath.text);
    }
  }

  // ---------- The blockers ----------

  predicate Selected(rows: seq<Row>, id: string) {
    id != "" && exists r :: r in rows && r.condition == "D_ordinary_review" && r.specimen == Text(id)
  }

  /** Without source ids the selected ones are the expected ones. */
  predicate Wanted(rows: seq<Row>, sourceIds: seq<string>, id: string) {
    if sourceIds == [] then Selected(rows, id) else id in sourceIds
  }

  ghost function WantedCount(rows: seq<Row>, sourceIds: seq<string>): nat {
    if sourceIds == [] then |Places(rows, "D_ordinary_review", (r: Row) => Given(r.specimen))| else |sourceIds|
  }

  lemma SelectedMeans(rows: seq<Row>, sourceIds: seq<string>)
    ensures var mine := Of(rows, ORDINARY_REVIEW);
            && (forall id :: id in Ids(mine) <==> Selected(rows, id))
            && (forall id :: id in Expected(sourceIds, mine) <==> Wanted(rows, sourceIds, id))
  {
    var mine := Of(rows, ORDINARY_REVIEW);
    IdsMeaning(mine);
    forall id ensures id in Ids(mine) <==> Selected(rows, id) { }
  }

  lemma {:induction false} IdCount(rows: seq<Row>)
    ensures |Ids(rows)| == |Where(rows, (r: Row) => Given(r.specimen))|
  {
    if rows != [] { IdCount(rows[1..]); }
  }

  lemma ExpectedCount(rows: seq<Row>, sourceIds: seq<string>)
    ensures |Expected(sourceIds, Of(rows, ORDINARY_REVIEW))| == WantedCount(rows, sourceIds)
  {
    IdCount(Of(rows, ORDINARY_REVIEW));
    OfSize(rows, ORDINARY_REVIEW, (r: Row) => Given(r.specimen));
  }

  lemma {:induction false} DefectAmong(rows: seq<Row>, d: Disk, b: Blocker)
    ensures b in AllDefects(rows, d) <==> exists r :: r in rows && b in Defects(r, d)
  {
    if rows != [] {
      var init, last := rows[..|rows| - 1], rows[|rows| - 1];
      assert rows == init + [last];
      DefectAmong(init, d, b);
    }
  }

  /** What objects to a promotion: no source run; ids wanted and not selected, or selected and not wanted; rows with
      errors; what a successful row lacks; a summary of another size than wanted. */
  ghost predicate Objects(rows: seq<Row>, specimens: Option<nat>, bound: bool, sourceIds: seq<string>, d: Disk, x: Blocker) {
    match x
    case Unbound => !bound
    case MissingIds(ids) => ids != {} && forall id :: id in ids <==> Wanted(rows, sourceIds, id) && !Selected(rows, id)
    case ExtraIds(ids) => ids != {} && forall id :: id in ids <==> Selected(rows, id) && !Wanted(rows, sourceIds, id)
    case ErrorRows(n) => n > 0 && n == |Places(rows, "D_ordinary_review", (r: Row) => r.failed)|
    case Provenance(defect, specimen) =>
      exists r :: r in rows && r.condition == "D_ordinary_review" && !r.failed && r.specimen == specimen && Lacks(r, d, defect)
    case CountMismatch => specimens != Some(WantedCount(rows, sourceIds))
  }

  /** The parts that Blockers is made of. */
  datatype Parts = Parts(missing: set<string>, extra: set<string>, errors: nat, failures: seq<Blocker>, expected: nat)

  ghost function PartsOf(rows: seq<Row>, sourceIds: seq<string>, d: Disk): Parts {
    var mine := Of(rows, ORDINARY_REVIEW);
    var selected, expected := SetOf(Ids(mine)), SetOf(Expected(sourceIds, mine));
    Parts(expected - selected, selected - expected, |Errors(mine)|, AllDefects(Succeeded(mine), d), |Expected(sourceIds, mine)|)
  }

  ghost function Leading(p: Parts, bound: bool): seq<Blocker> {
    When(!bound, Unbound) + When(p.missing != {}, MissingIds(p.missing)) + When(p.extra != {}, ExtraIds(p.extra))
    + When(p.errors > 0, ErrorRows(p.errors))
  }

  ghost function Listing(p: Parts, specimens: Option<nat>, bound: bool): seq<Blocker> {
    Leading(p, bound) + p.failures + When(specimens != Some(p.expected), CountMismatch)
  }

  lemma BlockersListed(rows: seq<Row>, specimens: Option<nat>, bound: bool, sourceIds: seq<string>, d: Disk)
    ensures Blockers(rows, specimens, bound, sourceIds, d) == Listing(PartsOf(rows, sourceIds, d), specimens, bound)
  {
  }

  lemma AmongListing(p: Parts, specimens: Option<nat>, bound: bool, x: Blocker)
    requires x in p.failures ==> x.Provenance?
    ensures x in Listing(p, specimens, bound) <==>
              match x
              case Unbound => !bound
              case MissingIds(ids) => ids != {} && ids == p.missing
              case ExtraIds(ids) => ids != {} && ids == p.extra
              case ErrorRows(n) => n > 0 && n == p.errors
              case Provenance(_, _) => x in p.failures
              case CountMismatch => specimens != Some(p.expected)
  {
    FourAmong(!bound, Unbound, p.missing != {}, MissingIds(p.missing), p.extra != {}, ExtraIds(p.extra),
              p.errors > 0, ErrorRows(p.errors), x);
  }

  lemma PartsMean(rows: seq<Row>, sourceIds: seq<string>, d: Disk)
    ensures var p := PartsOf(rows, sourceIds, d);
            && (forall id :: id in p.missing <==> Wanted(rows, sourceIds, id) && !Selected(rows, id))
            && (forall id :: id in p.extra <==> Selected(rows, id) && !Wanted(rows, sourceIds, id))
            && p.errors == |Places(rows, "D_ordinary_review", (r: Row) => r.failed)|
            && p.expected == WantedCount(rows, sourceIds)
  {
    SelectedMeans(rows, sourceIds);
    ExpectedCount(rows, sourceIds);
    OfSize(rows, ORDINARY_REVIEW, (r: Row) => r.failed);
  }

  lemma FailureMeans(rows: seq<Row>, d: Disk, x: Blocker)
    ensures x in AllDefects(Succeeded(Of(rows, ORDINARY_REVIEW)), d) <==>
              x.Provenance? && exists r :: r in rows && r.condition == "D_ordinary_review" && !r.failed
                                           && r.specimen == x.specimen && Lacks(r, d, x.defect)
  {
    var good := Succeeded(Of(rows, ORDINARY_REVIEW));
    DefectAmong(good, d, x);
    forall r | r in good
      ensures x in Defects(r, d) <==> x.Provenance? && x.specimen == r.specimen && Lacks(r, d, x.defect)
    {
      DefectsMean(r, d, x);
    }
  }

  lemma ListingMeans(p: Parts, rows: seq<Row>, specimens: Option<nat>, bound: bool, sourceIds: seq<string>, d: Disk, x: Blocker)
    requires forall id :: id in p.missing <==> Wanted(rows, sourceIds, id) && !Selected(rows, id)
    requires forall id :: id in p.extra <==> Selected(rows, id) && !Wanted(rows, sourceIds, id)
    requires p.errors == |Places(rows, "D_ordinary_review", (r: Row) => r.failed)|
    requires p.expected == WantedCount(rows, sourceIds)
    requires x in p.failures <==>
               x.Provenance? && exists r :: r in rows && r.condition == "D_ordinary_review" && !r.failed
                                            && r.specimen == x.specimen && Lacks(r, d, x.defect)
    ensures x in Listing(p, specimens, bound) <==> Objects(rows, specimens, bound, sourceIds, d, x)
  {
    AmongListing(p, specimens, bound, x);
    match x
    case MissingIds(ids) => assert ids == p.missing <==> forall id :: id in ids <==> id in p.missing;
    case ExtraIds(ids) => assert ids == p.extra <==> forall id :: id in ids <==> id in p.extra;
    case _ =>
  }

  /** The blockers are exactly what objects. */
  lemma BlockersMean(rows: seq<Row>, specimens: Option<nat>, bound: bool, sourceIds: seq<string>, d: Disk, x: Blocker)
    ensures x in Blockers(rows, specimens, bound, sourceIds, d) <==> Objects(rows, specimens, bound, sourceIds, d, x)
  {
    BlockersListed(rows, specimens, bound, sourceIds, d);
    FailureMeans(rows, d, x);
    PartsMean(rows, sourceIds, d);
    ListingMeans(PartsOf(rows, sourceIds, d), rows, specimens, bound, sourceIds, d, x);
  }

  /** The defects stand together: the kinds before them come first, the size of the summary last. */
  predicate ByKind(bs: seq<Blocker>) {
    forall i, j :: 0 <= i < j < |bs| ==> Place(bs[i]) < Place(bs[j]) || (bs[i].Provenance? && bs[j].Provenance?)
  }

  lemma DefectsFollow(a: seq<Blocker>, failures: seq<Blocker>)
    requires ByKind(a) && forall b :: b in a ==> Place(b) < 4
    requires forall b :: b in failures ==> b.Provenance?
    ensures ByKind(a + failures)
  {
    var all := a + failures;
    forall i, j | 0 <= i < j < |all|
      ensures Place(all[i]) < Place(all[j]) || (all[i].Provenance? && all[j].Provenance?)
    {
      if j < |a| {
        assert all[i] == a[i] && all[j] == a[j];
      } else {
        assert all[j] in failures && (all[i] in a || all[i] in failures);
      }
    }
  }

  lemma MismatchFollows(a: seq<Blocker>, fails: bool)
    requires ByKind(a) && forall b :: b in a ==> Place(b) < 9
    ensures ByKind(a + When(fails, CountMismatch))
  {
  }

  lemma ListingByKind(p: Parts, specimens: Option<nat>, bound: bool)
    requires forall x :: x in p.failures ==> x.Provenance?
    ensures ByKind(Listing(p, specimens, bound))
  {
    FourRise(!bound, Unbound, p.missing != {}, MissingIds(p.missing), p.extra != {}, ExtraIds(p.extra),
             p.errors > 0, ErrorRows(p.errors));
    DefectsFollow(Leading(p, bound), p.failures);
    MismatchFollows(Leading(p, bound) + p.failures, specimens != Some(p.expected));
  }

  /** The blockers stand in the order of their kinds. */
  lemma BlockersByKind(rows: seq<Row>, specimens: Option<nat>, bound: bool, sourceIds: seq<string>, d: Disk)
    ensures ByKind(Blockers(rows, specimens, bound, sourceIds, d))
  {
    BlockersListed(rows, specimens, bound, sourceIds, d);
    forall x | x in AllDefects(Succeeded(Of(rows, ORDINARY_REVIEW)), d) ensures x.Provenance? {
      FailureMeans(rows, d, x);
    }
    ListingByKind(PartsOf(rows, sourceIds, d), specimens, bound);
  }

  /** A documented row lacks nothing. */
  lemma DocumentedMeans(row: Row, d: Disk)
    ensures Documented(row, d) <==> forall defect :: !Lacks(row, d, defect)
  {
    EachDefect(row, d);
    assert (forall defect :: !Lacks(row, d, defect)) <==>
      !Lacks(row, d, NoPrompt) && !Lacks(row, d, NoRawReview) && !Lacks(row, d, NoModel) && !Lacks(row, d, NoTimestamp)
      && !Lacks(row, d, NoProvider);
  }
}
