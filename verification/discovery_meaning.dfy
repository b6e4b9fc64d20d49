/** Which backup requests and inventories are accepted, and in what order the sources are listed, said of paths and
  * texts. */
module DiscoveryMeaning {
  import opened Sorting
  import opened Formats
  import opened BackupDiscovery
  import Report = DiscoveryReport
  import GateResults

  // ----- the request -----

  ghost predicate IsInputId(s: string) {
    && 1 <= |s| <= 64 && ('0' <= s[0] <= '9' || 'a' <= s[0] <= 'z')
    && forall c | c in s :: '0' <= c <= '9' || 'a' <= c <= 'z' || c == '.' || c == '_' || c == '-'
  }

  /** A directory that is neither the top, nor the home directories, nor the state directory itself. */
  ghost predicate IsBackupRoot(kind: Path -> Kind, p: Path) {
    && kind(p) == Directory && p != [] && p != ["home"] && p != ["home", "andris"]
    && p != ["home", "andris", ".local", "state", "hermes-deals", "aldi-perfect-shadow"]
  }

  /** The last name of the path ends so. */
  ghost predicate IsNamed(p: Path, ending: string) {
    exists dir, stem :: p == dir + [stem + ending]
  }

  /** A compressed archive outside the state directory. */
  ghost predicate IsBackupFile(kind: Path -> Kind, p: Path) {
    && kind(p) == RegularFile
    && !(["home", "andris", ".local", "state", "hermes-deals", "aldi-perfect-shadow"] <= p)
    && (IsNamed(p, ".tar.gz") || IsNamed(p, ".tgz"))
  }

  /** Nothing lies in both directories. */
  ghost predicate ShareNothing(a: Path, b: Path) {
    forall x :: !(Within(x, a) && Within(x, b))
  }

  ghost predicate IsGoodRequest(kind: Path -> Kind, r: Request) {
    && (r.versionTwo || r.files == []) && 1 <= |r.roots| + |r.files| <= 8
    && (forall i | 0 <= i < |r.roots| :: IsInputId(r.roots[i].id) && IsBackupRoot(kind, r.roots[i].path))
    && (forall i | 0 <= i < |r.files| :: IsInputId(r.files[i].id) && IsBackupFile(kind, r.files[i].path))
    && (forall i, j | 0 <= i < j < |r.roots| :: r.roots[i].id != r.roots[j].id)
    && (forall i, j | 0 <= i < j < |r.files| :: r.files[i].id != r.files[j].id)
    && (forall i, j | 0 <= i < |r.roots| && 0 <= j < |r.files| :: r.roots[i].id != r.files[j].id)
    && (forall i, j | 0 <= i < j < |r.roots| :: ShareNothing(r.roots[i].path, r.roots[j].path))
    && (forall i, j | 0 <= i < j < |r.files| :: r.files[i].path != r.files[j].path)
    && forall i, j | 0 <= i < |r.files| && 0 <= j < |r.roots| :: !(r.roots[j].path <= r.files[i].path)
  }

  lemma InputIdIff(s: string)
    ensures IsInputId(s) <==> ValidInputId(s)
  {
    if IsInputId(s) { assert forall i | 0 <= i < |s| :: s[i] in s; }
  }

  lemma EndingIff(s: string, ending: string)
    ensures EndsWith(s, ending) <==> exists stem :: s == stem + ending
  {
    if EndsWith(s, ending) { assert s == s[..|s| - |ending|] + ending; }
    if stem :| s == stem + ending { assert s[|stem|..] == ending; }
  }

  lemma LastName(p: Path, ending: string)
    ensures IsNamed(p, ending) <==> p != [] && EndsWith(p[|p| - 1], ending)
  {
    hide EndsWith;
    if p != [] {
      EndingIff(p[|p| - 1], ending);
      assert p == p[..|p| - 1] + [p[|p| - 1]];
    }
    if dir, stem :| p == dir + [stem + ending] { assert p[|p| - 1] == stem + ending; }
  }

  lemma BackupFileIff(kind: Path -> Kind, p: Path)
    ensures IsBackupFile(kind, p) <==> FilePathOk(kind, p)
  {
    hide EndsWith, IsNamed;
    LastName(p, ".tar.gz");
    LastName(p, ".tgz");
    if STATE_ROOT <= p { ProperPrefix(STATE_ROOT, p); }
  }

  lemma BackupRootIff(kind: Path -> Kind, p: Path)
    ensures IsBackupRoot(kind, p) <==> RootPathOk(kind, p)
  {
  }

  lemma ShareNothingIff(a: Path, b: Path)
    ensures ShareNothing(a, b) <==> Apart(a, b)
  {
    ApartIffDisjoint(a, b);
  }

  lemma IdsApart(a: seq<Input>, b: seq<Input>)
    ensures NoDup(Map(a + b, IdOf)) <==>
            && (forall i, j | 0 <= i < j < |a| :: a[i].id != a[j].id)
            && (forall i, j | 0 <= i < j < |b| :: b[i].id != b[j].id)
            && forall i, j | 0 <= i < |a| && 0 <= j < |b| :: a[i].id != b[j].id
  {
    var ids := Map(a + b, IdOf);
    assert forall i | 0 <= i < |a| :: ids[i] == a[i].id;
    assert forall i | |a| <= i < |ids| :: ids[i] == b[i - |a|].id;
    if NoDup(ids) {
      forall i, j | 0 <= i < j < |b| ensures b[i].id != b[j].id { assert ids[|a| + i] != ids[|a| + j]; }
      forall i, j | 0 <= i < |a| && 0 <= j < |b| ensures a[i].id != b[j].id { assert ids[i] != ids[|a| + j]; }
    }
  }

  lemma RootsIff(kind: Path -> Kind, r: Request)
    ensures RootsOk(kind, r) <==>
            && (forall i | 0 <= i < |r.roots| :: IsInputId(r.roots[i].id) && IsBackupRoot(kind, r.roots[i].path))
            && forall i, j | 0 <= i < j < |r.roots| :: ShareNothing(r.roots[i].path, r.roots[j].path)
  {
    hide IsInputId, ValidInputId, IsBackupRoot, RootPathOk, ShareNothing, Apart;
    forall s ensures IsInputId(s) <==> ValidInputId(s) { InputIdIff(s); }
    forall p ensures IsBackupRoot(kind, p) <==> RootPathOk(kind, p) { BackupRootIff(kind, p); }
    forall a, b ensures ShareNothing(a, b) <==> Apart(a, b) { ShareNothingIff(a, b); }
  }

  lemma FilesIff(kind: Path -> Kind, r: Request)
    requires RootsOk(kind, r)
    ensures FilesOk(kind, r) <==>
            && (forall i | 0 <= i < |r.files| :: IsInputId(r.files[i].id) && IsBackupFile(kind, r.files[i].path))
            && (forall i, j | 0 <= i < j < |r.files| :: r.files[i].path != r.files[j].path)
            && forall i, j | 0 <= i < |r.files| && 0 <= j < |r.roots| :: !(r.roots[j].path <= r.files[i].path)
  {
    hide IsInputId, ValidInputId, IsBackupFile, FilePathOk, RootPathOk, Apart;
    forall s ensures IsInputId(s) <==> ValidInputId(s) { InputIdIff(s); }
    forall p ensures IsBackupFile(kind, p) <==> FilePathOk(kind, p) { BackupFileIff(kind, p); }
    forall i, j | 0 <= i < |r.files| && 0 <= j < |r.roots| && FilePathOk(kind, r.files[i].path)
      ensures Below(r.files[i].path, r.roots[j].path) <==> r.roots[j].path <= r.files[i].path
    {
      FileIsNoRoot(kind, r.files[i].path, r.roots[j].path);
    }
  }

  lemma FileIsNoRoot(kind: Path -> Kind, file: Path, root: Path)
    requires FilePathOk(kind, file) && RootPathOk(kind, root)
    ensures Below(file, root) <==> root <= file
  {
    hide EndsWith, TooBroad;
    if root <= file { ProperPrefix(root, file); }
  }

  /** A request is accepted exactly when it is good. */
  lemma RequestIff(kind: Path -> Kind, r: Request)
    ensures RequestOk(kind, r) <==> IsGoodRequest(kind, r)
  {
    hide RootsOk, FilesOk, IsInputId, IsBackupRoot, IsBackupFile, ShareNothing, NoDup;
    IdsApart(r.roots, r.files);
    RootsIff(kind, r);
    if RootsOk(kind, r) { FilesIff(kind, r); }
  }

  /** The inputs are handed on by increasing ID. */
  lemma InputsInOrder(inputs: seq<Input>)
    ensures var s := Sort(inputs, InputLe); forall i, j | 0 <= i < j < |s| :: StrLe(s[i].id, s[j].id)
  {
    hide StrLe;
    StrLeIsPreorder();
    assert IsPreorder(InputLe);
    SortSorted(inputs, InputLe);
    var s := Sort(inputs, InputLe);
    forall i, j | 0 <= i < j < |s| ensures StrLe(s[i].id, s[j].id) { assert InputLe(s[i], s[j]); }
  }

  // ----- the inventories -----

  /** The text begins with a slash. */
  ghost predicate IsAbsolute(s: string) {
    exists rest :: s == "/" + rest
  }

  ghost predicate IsHex64(s: string) {
    |s| == 64 && forall c | c in s :: '0' <= c <= '9' || 'a' <= c <= 'f'
  }

  /** Identities are digests, and no absolute path shows anywhere. */
  ghost predicate IsSanitised(r: Report.Report) {
    match r
    case RootReport(_, stateRoot, details, found) =>
      && stateRoot == "." && (forall s :: Report.HasText(details, s) ==> !IsAbsolute(s))
      && forall f | f in found :: IsHex64(f.identity) && !IsAbsolute(f.source)
    case FileReport(_, a) =>
      && a.path != "" && a.path != "." && a.path != ".." && (forall c | c in a.path :: c != '/')
      && (a.sha.Some? ==> IsHex64(a.sha.value)) && (a.unsafeReason.Some? ==> !IsAbsolute(a.unsafeReason.value))
      && forall x | x in a.identities :: IsHex64(x)
  }

  lemma AbsoluteIff(s: string)
    ensures IsAbsolute(s) <==> Report.Absolute(s)
  {
    if Report.Absolute(s) { assert s == "/" + s[1..]; }
  }

  lemma HexIff(s: string)
    ensures IsHex64(s) <==> IsSha256(s)
  {
    if IsHex64(s) { assert forall i | 0 <= i < |s| :: s[i] in s; }
  }

  lemma DetailsIff(v: GateResults.Value)
    ensures (forall s :: Report.HasText(v, s) ==> !IsAbsolute(s)) <==> !Report.ContainsAbsolutePath(v)
  {
    hide IsAbsolute, Report.Absolute;
    Report.AbsolutePathIffText(v);
    forall s ensures IsAbsolute(s) <==> Report.Absolute(s) { AbsoluteIff(s); }
  }

  lemma FoundIff(found: seq<Report.Found>)
    ensures (forall f | f in found :: IsHex64(f.identity) && !IsAbsolute(f.source)) <==>
            forall i | 0 <= i < |found| :: Report.SourceOk(found[i])
  {
    hide IsAbsolute, Report.Absolute, IsHex64, IsSha256;
    forall s ensures IsAbsolute(s) <==> Report.Absolute(s) { AbsoluteIff(s); }
    forall s ensures IsHex64(s) <==> IsSha256(s) { HexIff(s); }
    if forall f | f in found :: IsHex64(f.identity) && !IsAbsolute(f.source) {
      forall i | 0 <= i < |found| ensures Report.SourceOk(found[i]) { assert found[i] in found; }
    }
    if forall i | 0 <= i < |found| :: Report.SourceOk(found[i]) {
      forall f | f in found ensures IsHex64(f.identity) && !IsAbsolute(f.source) { var i := IndexOf(found, f); }
    }
  }

  /** A report is taken exactly when it is sanitised. */
  lemma ReportIff(r: Report.Report)
    ensures Report.ReportOk(r) <==> IsSanitised(r)
  {
    hide IsAbsolute, Report.Absolute, IsHex64, IsSha256, Report.SourceOk, Report.ContainsAbsolutePath;
    forall s ensures IsAbsolute(s) <==> Report.Absolute(s) { AbsoluteIff(s); }
    forall s ensures IsHex64(s) <==> IsSha256(s) { HexIff(s); }
    match r
    case RootReport(_, _, details, found) =>
      DetailsIff(details);
      FoundIff(found);
    case FileReport(_, a) =>
  }

  // ----- the list of sources -----

  /** One family in one input, by what was found where. */
  ghost predicate IsSourceIn(row: Report.SourceRow, r: Report.Report) {
    match r
    case RootReport(id, _, _, found) =>
      && row.inputId == id && !row.fromFile
      && Report.Found(row.fromArchive, row.source, row.identity) in found
    case FileReport(id, a) =>
      && a.safe && !a.isA21 && row.inputId == id && row.fromFile && row.fromArchive && row.source == a.path
      && row.identity in a.identities
  }

  lemma RowsAre(r: Report.Report, sorted: set<string> -> seq<string>, row: Report.SourceRow)
    requires Report.ListsSets(sorted)
    ensures row in Report.RowsOf(r, sorted) <==> IsSourceIn(row, r)
  {
    var rows := Report.RowsOf(r, sorted);
    match r
    case RootReport(id, _, _, found) =>
      if row in rows { var i := IndexOf(rows, row); assert found[i] in found; }
      if IsSourceIn(row, r) {
        var i := IndexOf(found, Report.Found(row.fromArchive, row.source, row.identity));
        assert rows[i] == row;
      }
    case FileReport(id, a) =>
      var order := sorted(a.identities);
      if row in rows { var i := IndexOf(rows, row); assert order[i] in order; }
      if IsSourceIn(row, r) {
        var i := IndexOf(order, row.identity);
        assert rows[i] == row;
      }
  }

  /** The list of sources holds what some input holds, and nothing else. */
  lemma {:induction false} SourcesListed(rs: seq<Report.Report>, sorted: set<string> -> seq<string>,
                                         row: Report.SourceRow)
    requires Report.ListsSets(sorted)
    ensures row in Report.AllRows(rs, sorted) <==> exists r | r in rs :: IsSourceIn(row, r)
  {
    hide Report.RowsOf, IsSourceIn, Report.ListsSets;
    if rs != [] {
      var n := |rs| - 1;
      SourcesListed(rs[..n], sorted, row);
      RowsAre(rs[n], sorted, row);
      assert rs == rs[..n] + [rs[n]];
      forall r ensures r in rs <==> r in rs[..n] || r == rs[n] {}
    }
  }

  /** Identity, then files before roots, then the input, then archives before directories, then the place. */
  ghost predicate ListedBefore(a: Report.SourceRow, b: Report.SourceRow) {
    && StrLe(a.identity, b.identity)
    && (a.identity == b.identity ==>
          || (a.fromFile && !b.fromFile)
          || (a.fromFile == b.fromFile
              && StrLe(a.inputId, b.inputId)
              && (a.inputId == b.inputId ==>
                    || (a.fromArchive && !b.fromArchive)
                    || (a.fromArchive == b.fromArchive && StrLe(a.source, b.source)))))
  }

  lemma OrderRead(a: Report.SourceRow, b: Report.SourceRow)
    ensures Report.SourceRowLe(a, b) <==> ListedBefore(a, b)
  {
    StrLeTotal(a.identity, a.identity);
    StrLeTotal(a.inputId, a.inputId);
  }
}
