/** Complete page families found in directories and archives, within the hashing budget, and the inventory decision. */
module RecoverySources {
  import opened Foundations
  import opened Sorting
  import opened PageNumbers
  import opened RecoveryInventory

  // ----- one side of a directory -----

  /** The state of a directory scan after the first i entries in name order. */
  ghost predicate Scanned(s: Side, es: seq<Entry>, i: nat, matched: seq<nat>, rows: seq<PageRow>, clean: bool)
    requires i <= |es|
  {
    && Increasing(matched)
    && (clean <==> forall j | 0 <= j < i && PageNumber(es[j].name).Some? ::
                     es[j].data.Some? && ValidImage(es[j].data.value))
    && (forall p :: p in matched <==> exists j | 0 <= j < i :: ValidPage(es[j], p))
    && |rows| == |matched|
    && (forall k | 0 <= k < |matched| ::
          exists j | 0 <= j < i :: ValidPage(es[j], matched[k]) && rows[k] == RowFor(s, matched[k], es[j].data.value))
  }

  ghost predicate ValidPage(e: Entry, p: nat) {
    PageNumber(e.name) == Some(p) && e.data.Some? && ValidImage(e.data.value)
  }

  lemma LaterPagesAreLarger(es: seq<Entry>, i: nat, p: nat)
    requires i < |es| && UniqueNames(es) && IsSorted(es, EntryLe) && PageNumber(es[i].name) == Some(p)
    ensures forall j | 0 <= j < i && PageNumber(es[j].name).Some? :: PageNumber(es[j].name).value < p
  {
    hide PageNumber;
    forall j | 0 <= j < i && PageNumber(es[j].name).Some? ensures PageNumber(es[j].name).value < p {
      PageNames(es[j].name, es[i].name);
      assert EntryLe(es[j], es[i]) && es[j].name != es[i].name;
    }
  }

  lemma ScanValid(s: Side, es: seq<Entry>, i: nat, matched: seq<nat>, rows: seq<PageRow>, clean: bool, p: nat)
    requires i < |es| && UniqueNames(es) && IsSorted(es, EntryLe)
    requires Scanned(s, es, i, matched, rows, clean) && ValidPage(es[i], p)
    ensures Scanned(s, es, i + 1, matched + [p], rows + [RowFor(s, p, es[i].data.value)], clean)
  {
    hide PageNumber, ValidImage;
    LaterPagesAreLarger(es, i, p);
    IncreasingAppend(matched, p);
    var m, r := matched + [p], rows + [RowFor(s, p, es[i].data.value)];
    forall q ensures q in m <==> exists j | 0 <= j < i + 1 :: ValidPage(es[j], q) {
      if q in matched { var j :| 0 <= j < i && ValidPage(es[j], q); }
    }
    forall k | 0 <= k < |m|
      ensures exists j | 0 <= j < i + 1 :: ValidPage(es[j], m[k]) && r[k] == RowFor(s, m[k], es[j].data.value)
    {
      if k < |matched| {
        var j :| 0 <= j < i && ValidPage(es[j], matched[k]) && rows[k] == RowFor(s, matched[k], es[j].data.value);
      } else {
        assert ValidPage(es[i], m[k]);
      }
    }
  }

  lemma ScanOther(s: Side, es: seq<Entry>, i: nat, matched: seq<nat>, rows: seq<PageRow>, clean: bool)
    requires i < |es| && Scanned(s, es, i, matched, rows, clean)
    requires PageNumber(es[i].name).None? || es[i].data.None? || !ValidImage(es[i].data.value)
    ensures Scanned(s, es, i + 1, matched, rows, clean && PageNumber(es[i].name).None?)
  {
    hide PageNumber, ValidImage;
    forall k | 0 <= k < |matched|
      ensures exists j | 0 <= j < i + 1 ::
                ValidPage(es[j], matched[k]) && rows[k] == RowFor(s, matched[k], es[j].data.value)
    {
      var j :| 0 <= j < i && ValidPage(es[j], matched[k]) && rows[k] == RowFor(s, matched[k], es[j].data.value);
    }
  }

  lemma ScanStart(s: Side, es: seq<Entry>)
    ensures Scanned(s, es, 0, [], [], true)
  {
  }

  lemma ListedPage(es: seq<Entry>, files: PageFiles, p: nat) returns (j: nat)
    requires Lists(es, files) && p in files
    ensures j < |es| && PageNumber(es[j].name) == Some(p) && files[p] == es[j].data
  {
    hide PageNumber;
    j :| 0 <= j < |es| && PageNumber(es[j].name) == Some(p);
  }

  /** The pages matched by a clean scan are the pages present; on a complete side every scan is clean. */
  lemma CleanScan(s: Side, es: seq<Entry>, files: PageFiles, matched: seq<nat>, rows: seq<PageRow>, clean: bool)
    requires Lists(es, files) && Scanned(s, es, |es|, matched, rows, clean)
    ensures forall p | p in matched :: p in files && files[p].Some? && ValidImage(files[p].value)
    ensures clean ==> forall p | p in files :: p in matched
    ensures (forall p | p in files :: files[p].Some? && ValidImage(files[p].value)) ==> clean
  {
    hide PageNumber, ValidImage;
    forall p | p in matched ensures p in files && files[p].Some? && ValidImage(files[p].value) {
      var j :| 0 <= j < |es| && ValidPage(es[j], p);
      assert PageNumber(es[j].name) == Some(p);
    }
    if clean {
      forall p | p in files ensures p in matched {
        var j := ListedPage(es, files, p);
        assert ValidPage(es[j], p);
      }
    }
    if forall p | p in files :: files[p].Some? && ValidImage(files[p].value) {
      forall j | 0 <= j < |es| && PageNumber(es[j].name).Some?
        ensures es[j].data.Some? && ValidImage(es[j].data.value)
      {
        assert PageNumber(es[j].name).value in files;
      }
    }
  }

  /** A finished scan is clean and matched exactly 1..n iff the side is complete; its rows are then the side's rows. */
  lemma ScanFinished(s: Side, es: seq<Entry>, files: PageFiles, matched: seq<nat>, rows: seq<PageRow>, clean: bool)
    requires Lists(es, files) && Scanned(s, es, |es|, matched, rows, clean)
    ensures (clean && matched == Pages(SideSize(s))) <==> SideComplete(s, files)
    ensures SideComplete(s, files) ==> rows == SideRows(s, files, SideSize(s))
  {
    hide PageNumber, ValidImage, Pages, Lists, ValidPage;
    var n := SideSize(s);
    PagesMembers(n);
    CleanScan(s, es, files, matched, rows, clean);
    if clean && matched == Pages(n) {
      forall p ensures p in files <==> 1 <= p <= n {
        assert p in files ==> p in matched;
        assert p in matched <==> p in Pages(n);
      }
    }
    if SideComplete(s, files) {
      forall p: nat ensures p in matched <==> p in Pages(n) { assert p in files <==> p in Pages(n); }
      IncreasingUnique(matched, Pages(n));
      ScannedRows(s, es, files, matched, rows, clean);
    }
  }

  lemma ScannedRows(s: Side, es: seq<Entry>, files: PageFiles, matched: seq<nat>, rows: seq<PageRow>, clean: bool)
    requires Lists(es, files) && Scanned(s, es, |es|, matched, rows, clean)
    requires SideComplete(s, files) && matched == Pages(SideSize(s))
    ensures rows == SideRows(s, files, SideSize(s))
  {
    hide PageNumber, ValidImage, Pages;
    forall k | 0 <= k < SideSize(s) ensures rows[k] == SideRows(s, files, SideSize(s))[k] {
      var j :| 0 <= j < |es| && ValidPage(es[j], matched[k]) && rows[k] == RowFor(s, matched[k], es[j].data.value);
      assert matched[k] == k + 1;
      assert PageNumber(es[j].name) == Some(k + 1);
    }
  }

  lemma PagesMembers(n: nat)
    ensures Increasing(Pages(n)) && forall p: nat :: p in Pages(n) <==> 1 <= p <= n
  {
    forall p: nat | 1 <= p <= n ensures p in Pages(n) { assert Pages(n)[p - 1] == p; }
  }

  /** Scans one side's directory in name order, checking every page file. */
  method ScanSide(s: Side, listing: seq<Entry>, ghost files: PageFiles) returns (complete: bool, rows: seq<PageRow>)
    requires UniqueNames(listing) && Lists(listing, files)
    ensures complete <==> SideComplete(s, files)
    ensures complete ==> rows == SideRows(s, files, SideSize(s))
  {
    hide PageNumber, ValidImage, Pages, Lists, SideComplete, Scanned, Sort, RowFor, IsSorted, UniqueNames;
    var es := Sort(listing, EntryLe);
    SortedListing(listing, es, files);
    var matched: seq<nat>, clean := [], true;
    rows := [];
    ScanStart(s, es);
    for i := 0 to |es|
      invariant Scanned(s, es, i, matched, rows, clean)
    {
      var page := PageNumber(es[i].name);
      if page.Some? && es[i].data.Some? && ValidImage(es[i].data.value) {
        ScanValid(s, es, i, matched, rows, clean, page.value);
        matched := matched + [page.value];
        rows := rows + [RowFor(s, page.value, es[i].data.value)];
      } else {
        ScanOther(s, es, i, matched, rows, clean);
        clean := clean && page.None?;
      }
    }
    ScanFinished(s, es, files, matched, rows, clean);
    complete := clean && matched == Pages(SideSize(s));
  }

  lemma SortedListing(listing: seq<Entry>, es: seq<Entry>, files: PageFiles)
    requires es == Sort(listing, EntryLe) && UniqueNames(listing) && Lists(listing, files)
    ensures UniqueNames(es) && Lists(es, files) && IsSorted(es, EntryLe)
  {
    hide PageNumber, Sort;
    EntryOrder(listing);
    SortMembers(listing, EntryLe);
    UniqueNamesPermuted(listing, es);
    forall p ensures p in files <==> exists i | 0 <= i < |es| :: PageNumber(es[i].name) == Some(p) {
      if i :| 0 <= i < |listing| && PageNumber(listing[i].name) == Some(p) { var j := IndexOf(es, listing[i]); }
      if i :| 0 <= i < |es| && PageNumber(es[i].name) == Some(p) { var j := IndexOf(listing, es[i]); }
    }
    forall i | 0 <= i < |es| && PageNumber(es[i].name).Some? ensures files[PageNumber(es[i].name).value] == es[i].data {
      var j := IndexOf(listing, es[i]);
    }
  }

  lemma EntryOrder(listing: seq<Entry>)
    ensures IsSorted(Sort(listing, EntryLe), EntryLe)
  {
    StrLeIsPreorder();
    SortSorted(listing, EntryLe);
  }

  function NameOf(e: Entry): string { e.name }

  lemma UniqueNamesPermuted(a: seq<Entry>, b: seq<Entry>)
    requires UniqueNames(a) && multiset(a) == multiset(b)
    ensures UniqueNames(b)
  {
    var x, y := Map(a, NameOf), Map(b, NameOf);
    assert NoDup(x);
    MapPermuted(a, b, NameOf);
    NoDupPermuted(x, y);
    forall i, j | 0 <= i < j < |b| ensures b[i].name != b[j].name { assert y[i] != y[j]; }
  }

  /** A directory family: both sides scanned; its identity, if complete, is that of its page files. */
  method CollectDirectory(current: seq<Entry>, preview: seq<Entry>, ghost f: PageFamily) returns (id: Option<Identity>)
    requires UniqueNames(current) && UniqueNames(preview) && Lists(current, f.current) && Lists(preview, f.preview)
    ensures id == FamilyIdentity(f)
  {
    hide SideComplete, Lists, SideRows;
    var a, x := ScanSide(CurrentSide, current, f.current);
    var b, y := ScanSide(PreviewSide, preview, f.preview);
    id := if a && b then Some(Sha(x + y)) else None;
  }

  // ----- an archive -----

  /** Page members of one archive group, by number; an archive holds regular files only. */
  datatype Group = Group(current: map<nat, Bytes>, preview: map<nat, Bytes>)

  function AsFiles(m: map<nat, Bytes>): PageFiles {
    map p | p in m :: Some(m[p])
  }

  ghost function AsFamily(g: Group): PageFamily {
    PageFamily(AsFiles(g.current), AsFiles(g.preview))
  }

  predicate HasAllPages(m: map<nat, Bytes>, n: nat) {
    |m| == n && forall p | 1 <= p <= n :: p in m
  }

  /** The right number of pages, with 1..n among them, means exactly the pages 1..n. */
  lemma AllPages(m: map<nat, Bytes>, n: nat)
    ensures HasAllPages(m, n) <==> forall p :: p in m <==> 1 <= p <= n
    ensures forall p :: p in AsFiles(m) <==> p in m
  {
    var want := Range(n);
    if HasAllPages(m, n) {
      assert want <= m.Keys;
      assert m.Keys == want + (m.Keys - want);
      assert |m.Keys - want| == 0;
    }
    if forall p :: p in m <==> 1 <= p <= n {
      assert m.Keys == want;
    }
  }

  function SizeUpTo(m: map<nat, Bytes>, n: nat): nat
    requires forall p | 1 <= p <= n :: p in m
  {
    if n == 0 then 0 else SizeUpTo(m, n - 1) + |m[n]|
  }

  /** Hashes pages 1..n of a side until one is not a valid image, counting the bytes read. */
  method HashSide(s: Side, m: map<nat, Bytes>, n: nat) returns (ok: bool, rows: seq<PageRow>, hashed: nat)
    requires n == SideSize(s) && HasAllPages(m, n)
    ensures ok <==> SideComplete(s, AsFiles(m))
    ensures ok ==> rows == SideRows(s, AsFiles(m), n)
    ensures hashed <= SizeUpTo(m, n)
  {
    hide ValidImage;
    AllPages(m, n);
    rows, hashed := [], 0;
    for p := 1 to n + 1
      invariant forall q | 1 <= q < p :: ValidImage(m[q])
      invariant |rows| == p - 1 && forall i | 0 <= i < |rows| :: rows[i] == RowFor(s, i + 1, m[i + 1])
      invariant hashed == SizeUpTo(m, p - 1)
    {
      SizeGrows(m, p, n);
      if !ValidImage(m[p]) {
        assert AsFiles(m)[p] == Some(m[p]);
        return false, rows, hashed + |m[p]|;
      }
      rows := rows + [RowFor(s, p, m[p])];
      hashed := hashed + |m[p]|;
    }
    ok := true;
  }

  lemma {:induction false} SizeGrows(m: map<nat, Bytes>, p: nat, n: nat)
    requires p <= n && forall q | 1 <= q <= n :: q in m
    ensures SizeUpTo(m, p) <= SizeUpTo(m, n)
  {
    if p < n { SizeGrows(m, p, n - 1); }
  }

  predicate IsCandidate(g: Group) {
    HasAllPages(g.current, 49) && HasAllPages(g.preview, 41)
  }

  function CandidateBytes(g: Group): nat
    requires IsCandidate(g)
  {
    SizeUpTo(g.current, 49) + SizeUpTo(g.preview, 41)
  }

  /** Budgeted bytes of the candidate groups among the first ones. */
  function BudgetUsed(gs: seq<Group>): nat {
    if gs == [] then 0 else
      var g := gs[|gs| - 1];
      BudgetUsed(gs[..|gs| - 1]) + if IsCandidate(g) then CandidateBytes(g) else 0
  }

  method HashGroup(g: Group) returns (id: Option<Identity>, hashed: nat)
    requires IsCandidate(g)
    ensures id == FamilyIdentity(AsFamily(g))
    ensures hashed <= CandidateBytes(g)
  {
    hide SideComplete, HasAllPages, SizeUpTo, SideRows, AsFiles;
    hashed := 0;
    var a, x, h := HashSide(CurrentSide, g.current, 49);
    if !a { return None, h; }
    var b, y, k := HashSide(PreviewSide, g.preview, 41);
    if !b { return None, h + k; }
    return Some(Sha(x + y)), h + k;
  }

  /** The identities in an archive's groups, or None when their pages exceed the hashing budget; the bytes hashed
      never exceed it. */
  method ArchiveIdentities(gs: seq<Group>) returns (r: Option<set<Identity>>, hashed: nat)
    ensures hashed <= MAX_HASHED
    ensures r.Some? <==> BudgetUsed(gs) <= MAX_HASHED
    ensures r.Some? ==>
              forall id :: id in r.value <==> exists i | 0 <= i < |gs| :: FamilyIdentity(AsFamily(gs[i])) == Some(id)
  {
    hide FamilyIdentity, IsCandidate, CandidateBytes, BudgetUsed, AsFamily;
    NoBudgetUsed(gs);
    var ids: set<Identity>, used := {}, 0;
    hashed := 0;
    for i := 0 to |gs|
      invariant used == BudgetUsed(gs[..i]) <= MAX_HASHED && hashed <= used
      invariant forall id :: id in ids <==> exists j | 0 <= j < i :: FamilyIdentity(AsFamily(gs[j])) == Some(id)
    {
      BudgetStep(gs, i);
      NotCandidate(gs[i]);
      if IsCandidate(gs[i]) {
        if CandidateBytes(gs[i]) > MAX_HASHED - used { return None, hashed; }
        used := used + CandidateBytes(gs[i]);
        var id, h := HashGroup(gs[i]);
        hashed := hashed + h;
        if id.Some? { ids := ids + {id.value}; }
      }
    }
    assert gs[..|gs|] == gs;
    r := Some(ids);
  }

  lemma NoBudgetUsed(gs: seq<Group>)
    ensures BudgetUsed(gs[..0]) == 0
  {
  }

  lemma BudgetStep(gs: seq<Group>, i: nat)
    requires i < |gs|
    ensures BudgetUsed(gs[..i + 1]) == BudgetUsed(gs[..i]) + if IsCandidate(gs[i]) then CandidateBytes(gs[i]) else 0
    ensures BudgetUsed(gs[..i + 1]) <= BudgetUsed(gs)
  {
    hide IsCandidate, CandidateBytes;
    assert gs[..i + 1][..i] == gs[..i];
    BudgetGrows(gs, i + 1);
  }

  lemma {:induction false} BudgetGrows(gs: seq<Group>, i: nat)
    requires i <= |gs|
    ensures BudgetUsed(gs[..i]) <= BudgetUsed(gs)
  {
    if i < |gs| {
      BudgetGrows(gs[..|gs| - 1], i);
      assert gs[..|gs| - 1][..i] == gs[..i];
    } else {
      assert gs[..i] == gs;
    }
  }

  /** Groups without all pages have no identity, so skipping them loses nothing. */
  lemma NotCandidate(g: Group)
    ensures !IsCandidate(g) ==> FamilyIdentity(AsFamily(g)).None?
  {
    AllPages(g.current, 49);
    AllPages(g.preview, 41);
  }

  /** The same page files have the same identity whether they lie in a directory or in an archive. */
  lemma DirectoryEqualsArchive(f: PageFamily, g: Group)
    requires FamilyComplete(f) && FamilyComplete(AsFamily(g))
    ensures FamilyIdentity(f) == FamilyIdentity(AsFamily(g))
            <==> SamePages(f.current, g.current) && SamePages(f.preview, g.preview)
  {
    hide ValidImage, FamilyIdentity;
    IdentityIsContent(f, AsFamily(g));
    assert f.current == AsFiles(g.current) <==> SamePages(f.current, g.current);
    assert f.preview == AsFiles(g.preview) <==> SamePages(f.preview, g.preview);
  }

  /** Every page of the directory side has the archive member's bytes. */
  ghost predicate SamePages(files: PageFiles, m: map<nat, Bytes>) {
    forall p | p in files :: p in m && files[p] == Some(m[p])
  }
}
