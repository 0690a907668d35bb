/** Promoting hypothesis bundles: snapshot the root into the active bundle, then switch. */
module Promotion {
  import opened Lists
  import opened Wrappers

  /** Bundle names are never empty; an empty command-line name counts as no name. */
  type Name = s: string | s != "" witness "root"

  /** The two files that a bundle or the project root may hold. */
  datatype Content = Content(thesis: Option<string>, testModel: Option<string>)

  /** The active-bundle file: missing, not valid JSON, without a usable name, or a name. */
  datatype Marker = Absent | Corrupt | Unnamed | Named(name: Name)

  datatype Disk = Disk(root: Content, bundles: map<Name, Content>, marker: Marker)

  datatype Failure = MissingBundle | MissingThesis | BadMarker | MissingAssumed

  // ---------- What each command does to the disk ----------

  predicate MatchesRoot(d: Disk, name: Name)
    requires name in d.bundles
  {
    && d.root.thesis.Some? && d.bundles[name].thesis == d.root.thesis
    && d.bundles[name].testModel == d.root.testModel
  }

  function Matching(d: Disk): set<Name> {
    set name | name in d.bundles && MatchesRoot(d, name)
  }

  /** The only bundle equal to the root, if exactly one is. */
  ghost function Inferred(d: Disk): Option<Name> {
    if |Matching(d)| == 1 then
      var name :| name in Matching(d);
      Some(name)
    else None
  }

  ghost function Loaded(d: Disk): Result<Option<Name>, Failure> {
    match d.marker
    case Absent => Ok(Inferred(d))
    case Named(name) => Ok(Some(name))
    case _ => Err(BadMarker)
  }

  /** A root without a thesis leaves the bundle's thesis alone; the test model always follows. */
  function Snapshot(d: Disk, name: Name): Disk {
    if name !in d.bundles then d
    else
      var thesis := if d.root.thesis.Some? then d.root.thesis else d.bundles[name].thesis;
      d.(bundles := d.bundles[name := Content(thesis, d.root.testModel)])
  }

  function Switch(d: Disk, name: Name): Disk
    requires name in d.bundles
  {
    d.(root := d.bundles[name], marker := Named(name))
  }

  ghost function Active(d: Disk, assumed: Option<Name>): Result<Option<Name>, Failure> {
    match Loaded(d)
    case Err(f) => Err(f)
    case Ok(active) =>
      if assumed.None? then Ok(active)
      else if assumed.value in d.bundles then Ok(assumed)
      else Err(MissingAssumed)
  }

  ghost function Promote(d: Disk, name: Name, snapshot: bool, assumed: Option<Name>): Result<Disk, Failure> {
    if name !in d.bundles then Err(MissingBundle)
    else if d.bundles[name].thesis.None? then Err(MissingThesis)
    else match Active(d, assumed)
      case Err(f) => Err(f)
      case Ok(active) =>
        Ok(Switch(if snapshot && active.Some? then Snapshot(d, active.value) else d, name))
  }

  predicate EqualsRoot(d: Disk, name: Name) {
    d.root.thesis != None && name in d.bundles && d.bundles[name] == d.root
  }

  /** The bundle that the root belongs to: the assumed one, else the marked one, else, with no marker file, the only
      bundle equal to the root. */
  ghost predicate IsHome(d: Disk, assumed: Option<Name>, home: Name) {
    if assumed.Some? then assumed.value == home
    else if d.marker.Named? then d.marker.name == home
    else EqualsRoot(d, home) && forall n :: EqualsRoot(d, n) ==> n == home
  }

  /** The marker file is looked at even when a bundle is assumed. */
  predicate Readable(m: Marker) {
    m == Absent || m.Named?
  }

  /** Why a promotion fails, the first reason that applies. */
  predicate Fails(d: Disk, name: Name, assumed: Option<Name>, f: Failure) {
    match f
    case MissingBundle => name !in d.bundles
    case MissingThesis => name in d.bundles && d.bundles[name].thesis == None
    case BadMarker => name in d.bundles && d.bundles[name].thesis != None && !Readable(d.marker)
    case MissingAssumed =>
      && name in d.bundles && d.bundles[name].thesis != None && Readable(d.marker)
      && assumed.Some? && assumed.value !in d.bundles
  }

  lemma HomeIsActive(d: Disk, assumed: Option<Name>, home: Name)
    requires Active(d, assumed).Ok? && (d.marker == Absent || d.marker.Named?)
    ensures Active(d, assumed).value == Some(home) <==> IsHome(d, assumed, home)
  {
    if assumed.None? && d.marker == Absent {
      assert forall n :: n in Matching(d) <==> EqualsRoot(d, n);
      if |Matching(d)| == 1 {
        OnlyMember(Matching(d), Inferred(d).value);
      } else {
        assert IsHome(d, assumed, home) ==> Matching(d) == {home};
      }
    }
  }

  lemma OnlyMember(names: set<Name>, name: Name)
    requires |names| == 1 && name in names
    ensures forall n :: n in names ==> n == name
  {
    assert |names - {name}| == 0;
    assert names == (names - {name}) + {name};
  }

  /** A promotion fails for the first reason that applies.  Otherwise the root becomes a copy of the named bundle, as
      it then is, and is marked with its name; and only a snapshot changes a bundle, the root's own: the root's test
      model goes into it and, if the root has one, its thesis. */
  lemma PromoteMeans(d: Disk, name: Name, snapshot: bool, assumed: Option<Name>)
    ensures forall f :: Promote(d, name, snapshot, assumed) == Err(f) <==> Fails(d, name, assumed, f)
    ensures Promote(d, name, snapshot, assumed).Ok? ==>
              var after := Promote(d, name, snapshot, assumed).value;
              && after.bundles.Keys == d.bundles.Keys && name in d.bundles
              && after.marker == Named(name) && after.root == after.bundles[name]
              && forall n :: n in d.bundles ==>
                   if snapshot && IsHome(d, assumed, n) then
                     && after.bundles[n].testModel == d.root.testModel
                     && after.bundles[n].thesis == (if d.root.thesis != None then d.root.thesis else d.bundles[n].thesis)
                   else after.bundles[n] == d.bundles[n]
  {
    if Promote(d, name, snapshot, assumed).Ok? {
      forall n | n in d.bundles
        ensures Active(d, assumed).value == Some(n) <==> IsHome(d, assumed, n)
      {
        HomeIsActive(d, assumed, n);
      }
    }
  }

  // ---------- The commands as they run ----------

  class Project {
    var root: Content
    var bundles: map<Name, Content>
    var marker: Marker

    function View(): Disk
      reads this
    {
      Disk(root, bundles, marker)
    }

    method InferActive() returns (active: Option<Name>)
      ensures active == Inferred(View())
    {
      var matches: seq<Name>, rest := [], bundles.Keys;
      while rest != {}
        invariant rest <= bundles.Keys
        invariant forall n :: n in matches <==> n in Matching(View()) && n !in rest
        invariant Distinct(matches)
        decreases rest
      {
        var name :| name in rest;
        if MatchesRoot(View(), name) { matches := matches + [name]; }
        rest := rest - {name};
      }
      CountMatches(matches, Matching(View()));
      active := if |matches| == 1 then Some(matches[0]) else None;
    }

    method SnapshotRoot(name: Name)
      modifies this`bundles
      ensures View() == Snapshot(old(View()), name)
    {
      if name !in bundles { return; }
      if root.thesis.Some? { bundles := bundles[name := bundles[name].(thesis := root.thesis)]; }
      bundles := bundles[name := bundles[name].(testModel := root.testModel)];
    }

    method PromoteBundle(name: Name, snapshot: bool, assumed: Option<Name>) returns (failure: Option<Failure>)
      modifies this
      ensures match Promote(old(View()), name, snapshot, assumed)
              case Ok(after) => failure == None && View() == after
              case Err(f) => failure == Some(f) && View() == old(View())
    {
      if name !in bundles { return Some(MissingBundle); }
      if bundles[name].thesis == None { return Some(MissingThesis); }
      var active: Option<Name> := None;
      match marker {
        case Absent => active := InferActive();
        case Named(n) => active := Some(n);
        case _ => return Some(BadMarker);
      }
      if assumed.Some? {
        if assumed.value !in bundles { return Some(MissingAssumed); }
        active := assumed;
      }
      if snapshot && active.Some? { SnapshotRoot(active.value); }
      root := root.(thesis := bundles[name].thesis);
      root := root.(testModel := bundles[name].testModel);
      marker := Named(name);
      failure := None;
    }
  }

  lemma CountMatches(s: seq<Name>, names: set<Name>)
    requires Distinct(s) && forall n :: n in s <==> n in names
    ensures |s| == |names|
    ensures |s| == 1 ==> forall n :: n in names ==> n == s[0]
  {
    SizeOfDistinct(s, names);
  }

  // ---------- The disk as a map of bundles with a cursor ----------

  /** The bundles with the active entry replaced by what the root holds. */
  function Abstract(d: Disk, active: Name): map<Name, Content>
    requires active in d.bundles
  {
    d.bundles[active := d.root]
  }

  /** Switching away from an active bundle keeps the abstract bundles exactly when the root has
      a thesis or the bundle has none to keep; the root then holds the target's entry. */
  lemma SwitchKeepsIff(d: Disk, name: Name, assumed: Option<Name>, active: Name)
    requires Active(d, assumed) == Ok(Some(active)) && active in d.bundles
    requires Promote(d, name, true, assumed).Ok?
    ensures var after := Promote(d, name, true, assumed).value;
            && after.marker == Named(name) && name in after.bundles && after.root == after.bundles[name]
            && (Abstract(after, name) == Abstract(d, active) <==> d.root.thesis.Some? || d.bundles[active].thesis.None?)
            && (d.root.thesis.Some? ==> after.root == Abstract(d, active)[name])
  {
    var after := Promote(d, name, true, assumed).value;
    assert after.bundles == Snapshot(d, active).bundles;
    assert Abstract(after, name) == after.bundles;
    assert after.bundles[active].thesis == if d.root.thesis.Some? then d.root.thesis else d.bundles[active].thesis;
    if Abstract(after, name) == Abstract(d, active) {
      assert after.bundles[active] == d.root;
    }
  }

  /** A root without a thesis: the old one stays in the active bundle, beside the new test model. */
  lemma ThesislessRootIsMixed()
    ensures var a, b := Content(Some("old"), None), Content(Some("other"), None);
            var d := Disk(Content(None, Some("new")), map["a" := a, "b" := b], Named("a"));
            && Promote(d, "b", true, None).Ok?
            && Promote(d, "b", true, None).value.bundles["a"] == Content(Some("old"), Some("new"))
            && Abstract(Promote(d, "b", true, None).value, "b") != Abstract(d, "a")
  {
    var a, b := Content(Some("old"), None), Content(Some("other"), None);
    var d := Disk(Content(None, Some("new")), map["a" := a, "b" := b], Named("a"));
    SwitchKeepsIff(d, "b", None, "a");
  }

  /** A snapshot into an inferred active bundle changes nothing. */
  lemma InferredSnapshotIsIdle(d: Disk)
    requires Inferred(d).Some?
    ensures Inferred(d).value in d.bundles && Snapshot(d, Inferred(d).value) == d
  {
    var name := Inferred(d).value;
    assert name in Matching(d);
    assert d.bundles[name] == d.root;
  }

  predicate Holds(d: Disk, content: Content) {
    exists name :: name in d.bundles && d.bundles[name] == content
  }

  /** What the root held before a promotion survives in some bundle exactly when it was
      saved into an existing bundle or equalled one already. */
  lemma RootSurvivesIff(d: Disk, name: Name, snapshot: bool, assumed: Option<Name>)
    requires Promote(d, name, snapshot, assumed).Ok? && d.root.thesis.Some?
    ensures var active := Active(d, assumed).value;
            var saved := snapshot && active.Some? && active.value in d.bundles;
            Holds(Promote(d, name, snapshot, assumed).value, d.root) <==> saved || Holds(d, d.root)
  {
    var active, after := Active(d, assumed).value, Promote(d, name, snapshot, assumed).value;
    if snapshot && active.Some? && active.value in d.bundles {
      assert after.bundles[active.value] == d.root;
    } else {
      assert after.bundles == d.bundles;
    }
  }

  // ---------- Runs refine the map with a cursor ----------

  datatype Command = Edit(content: Content) | SwitchTo(name: Name)

  /** A marked active bundle and a root with a thesis. */
  predicate Synced(d: Disk) {
    d.marker.Named? && d.marker.name in d.bundles && d.root.thesis.Some?
  }

  ghost predicate Usable(c: Command) {
    c.Edit? ==> c.content.thesis.Some?
  }

  ghost function Execute(d: Disk, c: Command): Disk {
    match c
    case Edit(content) => d.(root := content)
    case SwitchTo(name) =>
      match Promote(d, name, true, None)
      case Ok(after) => after
      case Err(_) => d
  }

  datatype Shelf = Shelf(bundles: map<Name, Content>, cursor: Name)

  function ShelfOf(d: Disk): Shelf
    requires Synced(d)
  {
    Shelf(Abstract(d, d.marker.name), d.marker.name)
  }

  function OnShelf(s: Shelf, c: Command): Shelf {
    match c
    case Edit(content) => s.(bundles := s.bundles[s.cursor := content])
    case SwitchTo(name) => if name in s.bundles && s.bundles[name].thesis.Some? then s.(cursor := name) else s
  }

  /** One command on the disk is the same command on the shelf. */
  lemma ExecuteRefines(d: Disk, c: Command)
    requires Synced(d) && Usable(c)
    ensures Synced(Execute(d, c)) && ShelfOf(Execute(d, c)) == OnShelf(ShelfOf(d), c)
  {
    match c
    case Edit(content) =>
      assert d.bundles[d.marker.name := content] == Abstract(d, d.marker.name)[d.marker.name := content];
    case SwitchTo(name) =>
      if Promote(d, name, true, None).Ok? { SwitchKeepsIff(d, name, None, d.marker.name); }
  }

  ghost function ExecuteAll(d: Disk, cs: seq<Command>): Disk
    decreases |cs|
  {
    if cs == [] then d else ExecuteAll(Execute(d, cs[0]), cs[1..])
  }

  function AllOnShelf(s: Shelf, cs: seq<Command>): Shelf
    decreases |cs|
  {
    if cs == [] then s else AllOnShelf(OnShelf(s, cs[0]), cs[1..])
  }

  /** Any run of edits and switches keeps every bundle's latest edit. */
  lemma {:induction false} RunRefines(d: Disk, cs: seq<Command>)
    requires Synced(d) && forall c :: c in cs ==> Usable(c)
    ensures Synced(ExecuteAll(d, cs)) && ShelfOf(ExecuteAll(d, cs)) == AllOnShelf(ShelfOf(d), cs)
    decreases |cs|
  {
    if cs != [] {
      ExecuteRefines(d, cs[0]);
      RunRefines(Execute(d, cs[0]), cs[1..]);
    }
  }

  /** Edit, switch away, switch back: the edit is in the root again. */
  lemma EditSurvivesRoundTrip(d: Disk, content: Content, other: Name)
    requires Synced(d) && content.thesis.Some? && other in d.bundles && d.bundles[other].thesis.Some?
    ensures var home := d.marker.name;
            ExecuteAll(d, [Edit(content), SwitchTo(other), SwitchTo(home)]).root == content
  {
    var cs := [Edit(content), SwitchTo(other), SwitchTo(d.marker.name)];
    RunRefines(d, cs);
    assert cs[1..] == [SwitchTo(other), SwitchTo(d.marker.name)] && cs[1..][1..] == [SwitchTo(d.marker.name)];
    var start := ShelfOf(d);
    var edited := OnShelf(start, cs[0]);
    var away := OnShelf(edited, cs[1]);
    var back := OnShelf(away, cs[2]);
    assert AllOnShelf(start, cs) == AllOnShelf(edited, cs[1..]) == AllOnShelf(away, cs[1..][1..]) == back;
    assert back.cursor == d.marker.name && back.bundles[back.cursor] == content;
  }
}
