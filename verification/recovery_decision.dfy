/** The recovery decision, drawn from the page families that directories and archives hold. */
module RecoveryDecision {
  import opened Foundations
  import opened Sorting
  import opened RecoveryInventory
  import opened RecoverySources

  datatype Decision = NoCandidate | CandidateFound | Ambiguous

  function DecideInventory(ids: set<Identity>): Decision {
    if ids == {} then NoCandidate else if |ids| == 1 then CandidateFound else Ambiguous
  }

  /** A place page files were found in; archives may be unsafe or the excluded one, and then contribute nothing. */
  datatype Source = DirectorySource(id: Option<Identity>) | ArchiveSource(usable: bool, ids: set<Identity>)

  function SourceIds(s: Source): set<Identity> {
    match s
    case DirectorySource(id) => if id.Some? then {id.value} else {}
    case ArchiveSource(usable, ids) => if usable then ids else {}
  }

  ghost function AllIds(ss: seq<Source>): set<Identity> {
    set i, id | 0 <= i < |ss| && id in SourceIds(ss[i]) :: id
  }

  method BuildInventory(sources: seq<Source>) returns (d: Decision, ids: set<Identity>)
    ensures ids == AllIds(sources) && d == DecideInventory(ids)
  {
    ids := {};
    for i := 0 to |sources|
      invariant ids == AllIds(sources[..i])
    {
      assert sources[..i + 1] == sources[..i] + [sources[i]];
      AllIdsAppend(sources[..i], sources[i]);
      ids := ids + SourceIds(sources[i]);
    }
    assert sources[..|sources|] == sources;
    d := DecideInventory(ids);
  }

  lemma AllIdsAppend(ss: seq<Source>, s: Source)
    ensures AllIds(ss + [s]) == AllIds(ss) + SourceIds(s)
  {
    var all := ss + [s];
    forall id ensures id in AllIds(all) <==> id in AllIds(ss) + SourceIds(s) {
      if id in AllIds(ss) { var i :| 0 <= i < |ss| && id in SourceIds(ss[i]); assert all[i] == ss[i]; }
      if id in SourceIds(s) { assert all[|ss|] == s; }
    }
  }

  /** The decision counts distinct families, not sources: a further source of families already known changes nothing. */
  lemma RepeatedSourcesDoNotCount(ss: seq<Source>, s: Source)
    requires SourceIds(s) <= AllIds(ss)
    ensures DecideInventory(AllIds(ss + [s])) == DecideInventory(AllIds(ss))
    ensures DecideInventory(AllIds(ss)) == CandidateFound <==> exists id :: AllIds(ss) == {id}
  {
    AllIdsAppend(ss, s);
    assert AllIds(ss) + SourceIds(s) == AllIds(ss);
    var ids := AllIds(ss);
    if |ids| == 1 { var id :| id in ids; assert ids == {id} + (ids - {id}); assert |ids - {id}| == 0; }
    if id :| ids == {id} { assert |ids| == 1; }
  }

  // ----- from what is on disk to the decision -----

  /** A page-images directory with its two listings, or an archive whose members have been read: whether it is the
    * excluded archive, whether all its members are safe, and its groups of page members. */
  datatype RawSource =
    | RawDirectory(current: seq<Entry>, preview: seq<Entry>)
    | RawArchive(isA21: bool, membersSafe: bool, groups: seq<Group>)

  /** The page files of a listing. */
  function FilesOf(es: seq<Entry>): PageFiles {
    if es == [] then map[]
    else
      var last := es[|es| - 1];
      var before := FilesOf(es[..|es| - 1]);
      if PageNumber(last.name).Some? then before[PageNumber(last.name).value := last.data] else before
  }

  lemma {:induction false} FilesAreListed(es: seq<Entry>)
    requires UniqueNames(es)
    ensures Lists(es, FilesOf(es))
  {
    hide PageNumber;
    if es != [] {
      var n := |es| - 1;
      FilesAreListed(es[..n]);
      if PageNumber(es[n].name).Some? { OtherPages(es, n); }
      ListsOneMore(es, FilesOf(es[..n]));
    }
  }

  /** The last entry names a page that no earlier entry names. */
  lemma OtherPages(es: seq<Entry>, n: nat)
    requires UniqueNames(es) && n < |es| && PageNumber(es[n].name).Some?
    ensures forall i | 0 <= i < n :: PageNumber(es[i].name) != PageNumber(es[n].name)
  {
    hide PageNumber;
    forall i | 0 <= i < n ensures PageNumber(es[i].name) != PageNumber(es[n].name) {
      if PageNumber(es[i].name) == PageNumber(es[n].name) { PageNames(es[i].name, es[n].name); }
    }
  }

  lemma ListsOneMore(es: seq<Entry>, before: PageFiles)
    requires es != [] && Lists(es[..|es| - 1], before)
    requires PageNumber(es[|es| - 1].name).Some?
             ==> forall i | 0 <= i < |es| - 1 :: PageNumber(es[i].name) != PageNumber(es[|es| - 1].name)
    ensures var last := es[|es| - 1];
            Lists(es, if PageNumber(last.name).Some? then before[PageNumber(last.name).value := last.data] else before)
  {
    hide PageNumber;
    var n := |es| - 1;
    var number := PageNumber(es[n].name);
    var files := if number.Some? then before[number.value := es[n].data] else before;
    forall p ensures p in files <==> exists i | 0 <= i < |es| :: PageNumber(es[i].name) == Some(p) {
      if p in before {
        var i :| 0 <= i < n && PageNumber(es[..n][i].name) == Some(p);
        assert es[i] == es[..n][i];
      }
      if i :| 0 <= i < |es| && PageNumber(es[i].name) == Some(p) {
        if i < n { assert es[..n][i] == es[i]; }
      }
    }
    forall i | 0 <= i < |es| && PageNumber(es[i].name).Some? ensures files[PageNumber(es[i].name).value] == es[i].data {
      if i < n { assert es[..n][i] == es[i]; }
    }
  }

  ghost predicate Readable(s: RawSource) {
    s.RawDirectory? ==> UniqueNames(s.current) && UniqueNames(s.preview)
  }

  /** The source is one that counts, and f is a complete family in it. */
  ghost predicate HoldsFamily(s: RawSource, f: PageFamily) {
    && FamilyComplete(f)
    && match s
       case RawDirectory(current, preview) => f == PageFamily(FilesOf(current), FilesOf(preview))
       case RawArchive(isA21, safe, gs) =>
         !isA21 && safe && BudgetUsed(gs) <= MAX_HASHED && exists i | 0 <= i < |gs| :: f == AsFamily(gs[i])
  }

  ghost predicate HoldsIdentity(s: RawSource, id: Identity) {
    exists f :: HoldsFamily(s, f) && FamilyIdentity(f) == Some(id)
  }

  lemma IdentityMeansComplete(f: PageFamily)
    ensures FamilyIdentity(f).Some? <==> FamilyComplete(f)
  {
  }

  /** Reads one source. */
  method ReadSource(s: RawSource) returns (r: Source)
    requires Readable(s)
    ensures forall id :: id in SourceIds(r) <==> HoldsIdentity(s, id)
  {
    hide FamilyIdentity, FamilyComplete, BudgetUsed, AsFamily, FilesOf, Lists;
    match s
    case RawDirectory(current, preview) =>
      ghost var f := PageFamily(FilesOf(current), FilesOf(preview));
      FilesAreListed(current);
      FilesAreListed(preview);
      var id := CollectDirectory(current, preview, f);
      IdentityMeansComplete(f);
      r := DirectorySource(id);
      forall x ensures x in SourceIds(r) <==> HoldsIdentity(s, x) {
        if x in SourceIds(r) { assert HoldsFamily(s, f); }
      }
    case RawArchive(isA21, safe, gs) =>
      if isA21 || !safe {
        r := ArchiveSource(false, {});
      } else {
        var ids, hashed := ArchiveIdentities(gs);
        r := if ids.Some? then ArchiveSource(true, ids.value) else ArchiveSource(false, {});
        ArchiveHolds(s, if ids.Some? then ids.value else {});
      }
  }

  lemma ArchiveHolds(s: RawSource, ids: set<Identity>)
    requires s.RawArchive? && !s.isA21 && s.membersSafe
    requires if BudgetUsed(s.groups) <= MAX_HASHED
             then forall id ::
                    id in ids <==> exists i | 0 <= i < |s.groups| :: FamilyIdentity(AsFamily(s.groups[i])) == Some(id)
             else ids == {}
    ensures forall id :: id in ids <==> HoldsIdentity(s, id)
  {
    hide FamilyIdentity, FamilyComplete, BudgetUsed, AsFamily;
    forall id ensures id in ids <==> HoldsIdentity(s, id) {
      if id in ids {
        var i :| 0 <= i < |s.groups| && FamilyIdentity(AsFamily(s.groups[i])) == Some(id);
        IdentityMeansComplete(AsFamily(s.groups[i]));
        assert HoldsFamily(s, AsFamily(s.groups[i]));
      }
    }
  }

  /** f is a complete family in some source that counts. */
  ghost predicate Found(ss: seq<RawSource>, f: PageFamily) {
    exists i | 0 <= i < |ss| :: HoldsFamily(ss[i], f)
  }

  /** The decision counts families by their pages: none, one and the same everywhere, or two that differ. */
  lemma DecisionByFamilies(ss: seq<RawSource>, ids: set<Identity>)
    requires forall id :: id in ids <==> exists i | 0 <= i < |ss| :: HoldsIdentity(ss[i], id)
    ensures DecideInventory(ids) == NoCandidate <==> forall f :: !Found(ss, f)
    ensures DecideInventory(ids) == CandidateFound
            <==> (exists f :: Found(ss, f)) && forall f, g | Found(ss, f) && Found(ss, g) :: f == g
    ensures DecideInventory(ids) == Ambiguous <==> exists f, g | Found(ss, f) && Found(ss, g) :: f != g
  {
    hide FamilyIdentity, FamilyComplete, HoldsFamily;
    forall f | Found(ss, f) ensures FamilyIdentity(f).Some? && FamilyIdentity(f).value in ids {
      FoundIdentity(ss, ids, f);
    }
    forall id | id in ids ensures exists f :: Found(ss, f) && FamilyIdentity(f) == Some(id) {
      var i :| 0 <= i < |ss| && HoldsIdentity(ss[i], id);
      var f :| HoldsFamily(ss[i], f) && FamilyIdentity(f) == Some(id);
      assert Found(ss, f);
    }
    forall f, g | Found(ss, f) && Found(ss, g) ensures FamilyIdentity(f) == FamilyIdentity(g) <==> f == g {
      FoundComplete(ss, f);
      FoundComplete(ss, g);
      IdentityIsContent(f, g);
    }
    if ids != {} {
      var x :| x in ids;
      var f :| Found(ss, f) && FamilyIdentity(f) == Some(x);
      if ids == {x} {
        assert |ids| == 1;
      } else {
        var y := OtherMember(ids, x);
        var g :| Found(ss, g) && FamilyIdentity(g) == Some(y);
        assert f != g;
      }
    }
  }

  lemma OtherMember(ids: set<Identity>, x: Identity) returns (y: Identity)
    requires x in ids && ids != {x}
    ensures y in ids && y != x && |ids| > 1
  {
    y :| y in ids && y != x;
    SubsetSize({x, y}, ids);
  }

  lemma FoundComplete(ss: seq<RawSource>, f: PageFamily)
    requires Found(ss, f)
    ensures FamilyComplete(f)
  {
  }

  lemma FoundIdentity(ss: seq<RawSource>, ids: set<Identity>, f: PageFamily)
    requires Found(ss, f) && forall id :: id in ids <==> exists i | 0 <= i < |ss| :: HoldsIdentity(ss[i], id)
    ensures FamilyIdentity(f).Some? && FamilyIdentity(f).value in ids
  {
    hide FamilyIdentity, FamilyComplete;
    FoundComplete(ss, f);
    IdentityMeansComplete(f);
    var i :| 0 <= i < |ss| && HoldsFamily(ss[i], f);
    assert HoldsIdentity(ss[i], FamilyIdentity(f).value);
  }

  /** End to end: directories and archives are read, and a candidate is reported exactly when some usable source holds a
    * complete family and all complete families in usable sources have the same pages. */
  method RecoveryInventoryOf(ss: seq<RawSource>) returns (d: Decision, ids: set<Identity>)
    requires forall i | 0 <= i < |ss| :: Readable(ss[i])
    ensures forall id :: id in ids <==> exists i | 0 <= i < |ss| :: HoldsIdentity(ss[i], id)
    ensures d == NoCandidate <==> forall f :: !Found(ss, f)
    ensures d == CandidateFound <==> (exists f :: Found(ss, f)) && forall f, g | Found(ss, f) && Found(ss, g) :: f == g
    ensures d == Ambiguous <==> exists f, g | Found(ss, f) && Found(ss, g) :: f != g
  {
    hide HoldsIdentity, Readable, DecideInventory, SourceIds, Found;
    var sources: seq<Source> := [];
    for i := 0 to |ss|
      invariant |sources| == i
      invariant forall j, id | 0 <= j < i :: id in SourceIds(sources[j]) <==> HoldsIdentity(ss[j], id)
    {
      var s := ReadSource(ss[i]);
      sources := sources + [s];
    }
    d, ids := BuildInventory(sources);
    forall id ensures id in ids <==> exists i | 0 <= i < |ss| :: HoldsIdentity(ss[i], id) {
      if id in ids { var i :| 0 <= i < |sources| && id in SourceIds(sources[i]); assert HoldsIdentity(ss[i], id); }
      if i :| 0 <= i < |ss| && HoldsIdentity(ss[i], id) { assert id in SourceIds(sources[i]); }
    }
    DecisionByFamilies(ss, ids);
  }
}
