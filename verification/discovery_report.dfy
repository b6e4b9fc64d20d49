/** What the inventories of the accepted backup inputs hold, and the decision drawn from it. */
module DiscoveryReport {
  import opened Foundations
  import opened Sorting
  import opened Formats
  import GateResults

  // ----- sanitised inventories -----

  predicate Absolute(s: string) {
    s != [] && s[0] == '/'
  }

  /** Some text anywhere in the value is an absolute path. */
  predicate ContainsAbsolutePath(v: GateResults.Value) {
    match v
    case Text(s) => Absolute(s)
    case List(items) => exists i | 0 <= i < |items| :: ContainsAbsolutePath(items[i])
    case Object(fields) => exists k | k in fields.Keys :: ContainsAbsolutePath(fields[k])
    case _ => false
  }

  /** s is a text in the value, at any depth; keys do not count. */
  ghost predicate HasText(v: GateResults.Value, s: string) {
    match v
    case Text(t) => t == s
    case List(items) => exists i | 0 <= i < |items| :: HasText(items[i], s)
    case Object(fields) => exists k | k in fields.Keys :: HasText(fields[k], s)
    case _ => false
  }

  lemma {:induction false} AbsolutePathIffText(v: GateResults.Value)
    ensures ContainsAbsolutePath(v) <==> exists s :: HasText(v, s) && Absolute(s)
  {
    hide Absolute;
    match v
    case Text(s) => assert HasText(v, s);
    case List(items) =>
      forall i | 0 <= i < |items|
        ensures ContainsAbsolutePath(items[i]) <==> exists s :: HasText(items[i], s) && Absolute(s)
      {
        AbsolutePathIffText(items[i]);
      }
      if i :| 0 <= i < |items| && ContainsAbsolutePath(items[i]) {
        var s :| HasText(items[i], s) && Absolute(s);
        assert HasText(v, s);
      }
    case Object(fields) =>
      forall k | k in fields.Keys
        ensures ContainsAbsolutePath(fields[k]) <==> exists s :: HasText(fields[k], s) && Absolute(s)
      {
        AbsolutePathIffText(fields[k]);
      }
      if k :| k in fields.Keys && ContainsAbsolutePath(fields[k]) {
        var s :| HasText(fields[k], s) && Absolute(s);
        assert HasText(v, s);
      }
    case _ =>
  }

  /** A complete page family found in a root; the identity is the text of its digest. */
  datatype Found = Found(fromArchive: bool, source: string, identity: string)

  datatype Archive = Archive(path: string, sha: Option<string>, isA21: bool, safe: bool, unsafeReason: Option<string>,
                             identities: set<string>)

  /** The inventory of each accepted root and of each accepted file, in the order they are visited; `details` is what
    * the report shows of a root's inventory. */
  datatype Report =
    | RootReport(id: string, stateRoot: string, details: GateResults.Value, found: seq<Found>)
    | FileReport(id: string, archive: Archive)

  datatype SourceRow = SourceRow(inputId: string, fromFile: bool, fromArchive: bool, source: string, identity: string)

  predicate SourceOk(f: Found) {
    IsSha256(f.identity) && !Absolute(f.source)
  }

  /** A bare file name. */
  predicate ArchivePathOk(path: string) {
    path != "" && path != "." && path != ".." && '/' !in path
  }

  predicate ArchiveOk(a: Archive) {
    && ArchivePathOk(a.path)
    && (a.sha.Some? ==> IsSha256(a.sha.value))
    && (a.unsafeReason.Some? ==> !Absolute(a.unsafeReason.value))
    && forall x | x in a.identities :: IsSha256(x)
  }

  predicate ReportOk(r: Report) {
    match r
    case RootReport(_, stateRoot, details, found) =>
      && stateRoot == "." && !ContainsAbsolutePath(details)
      && forall i | 0 <= i < |found| :: SourceOk(found[i])
    case FileReport(_, a) => ArchiveOk(a)
  }

  // ----- source rows -----

  function RootRow(id: string, f: Found): SourceRow {
    SourceRow(id, false, f.fromArchive, f.source, f.identity)
  }

  function RootRows(id: string, found: seq<Found>): (rows: seq<SourceRow>)
    ensures |rows| == |found| && forall i | 0 <= i < |rows| :: rows[i] == RootRow(id, found[i])
  {
    seq(|found|, i requires 0 <= i < |found| => RootRow(id, found[i]))
  }

  function FileRows(id: string, a: Archive, order: seq<string>): (rows: seq<SourceRow>)
    ensures |rows| == |order| && forall i | 0 <= i < |rows| :: rows[i] == SourceRow(id, true, true, a.path, order[i])
  {
    seq(|order|, i requires 0 <= i < |order| => SourceRow(id, true, true, a.path, order[i]))
  }

  /** The rows one input contributes; the A2.1 archive and unsafe archives contribute none. */
  function RowsOf(r: Report, sorted: set<string> -> seq<string>): seq<SourceRow> {
    match r
    case RootReport(id, _, _, found) => RootRows(id, found)
    case FileReport(id, a) => if a.isA21 || !a.safe then [] else FileRows(id, a, sorted(a.identities))
  }

  function AllRows(rs: seq<Report>, sorted: set<string> -> seq<string>): seq<SourceRow> {
    if rs == [] then [] else AllRows(rs[..|rs| - 1], sorted) + RowsOf(rs[|rs| - 1], sorted)
  }

  function IdentityOf(row: SourceRow): string {
    row.identity
  }

  /** Identity, files before roots, input, archives before directories, source. */
  predicate SourceRowLe(a: SourceRow, b: SourceRow) {
    if a.identity != b.identity then StrLe(a.identity, b.identity)
    else if a.fromFile != b.fromFile then a.fromFile
    else if a.inputId != b.inputId then StrLe(a.inputId, b.inputId)
    else if a.fromArchive != b.fromArchive then a.fromArchive
    else StrLe(a.source, b.source)
  }

  lemma SourceRowLeIsPreorder()
    ensures IsPreorder(SourceRowLe)
  {
    hide StrLe;
    StrLeIsPreorder();
    forall a, b: SourceRow ensures SourceRowLe(a, b) || SourceRowLe(b, a) {}
    forall a, b, c: SourceRow | SourceRowLe(a, b) && SourceRowLe(b, c) ensures SourceRowLe(a, c) {
      BetweenEqual(a.identity, b.identity);
      BetweenEqual(a.inputId, b.inputId);
    }
  }

  lemma BetweenEqual(a: string, b: string)
    ensures StrLe(a, b) && StrLe(b, a) ==> a == b
  {
    if StrLe(a, b) && StrLe(b, a) { StrLeAntisymmetric(a, b); }
  }

  /** Identities contributed by one input. */
  ghost function IdentitiesOf(r: Report): set<string> {
    match r
    case RootReport(_, _, _, found) => set f | f in found :: f.identity
    case FileReport(_, a) => if a.isA21 || !a.safe then {} else a.identities
  }

  ghost function AllIdentities(rs: seq<Report>): set<string> {
    if rs == [] then {} else AllIdentities(rs[..|rs| - 1]) + IdentitiesOf(rs[|rs| - 1])
  }

  ghost predicate ListsSets(sorted: set<string> -> seq<string>) {
    forall s: set<string>, x: string :: x in sorted(s) <==> x in s
  }

  /** The identities named by an input's rows are the identities it contributes. */
  lemma RowsNameInput(r: Report, sorted: set<string> -> seq<string>, x: string)
    requires ListsSets(sorted)
    ensures x in Map(RowsOf(r, sorted), IdentityOf) <==> x in IdentitiesOf(r)
  {
    var names := Map(RowsOf(r, sorted), IdentityOf);
    match r
    case RootReport(id, _, _, found) =>
      if x in names { var i := IndexOf(names, x); assert found[i] in found; }
      if f :| f in found && f.identity == x { var i := IndexOf(found, f); assert names[i] == x; }
    case FileReport(id, a) =>
      if !a.isA21 && a.safe {
        assert names == sorted(a.identities);
      }
  }

  /** Rows and identities name each other: no identity without a source, no source without its identity. */
  lemma {:induction false} RowsNameIdentities(rs: seq<Report>, sorted: set<string> -> seq<string>, x: string)
    requires ListsSets(sorted)
    ensures x in Map(AllRows(rs, sorted), IdentityOf) <==> x in AllIdentities(rs)
  {
    hide RowsOf, IdentitiesOf;
    if rs != [] {
      var n := |rs| - 1;
      RowsNameIdentities(rs[..n], sorted, x);
      RowsNameInput(rs[n], sorted, x);
      assert Map(AllRows(rs, sorted), IdentityOf)
          == Map(AllRows(rs[..n], sorted), IdentityOf) + Map(RowsOf(rs[n], sorted), IdentityOf);
    }
  }

  // ----- the discovery as it runs -----

  datatype Decision = NoCandidate | ReadyForIrrecoverable | PlausibleCandidate | AmbiguousCandidates

  function Decide(identities: set<string>, complete: bool): Decision {
    if |identities| > 1 then AmbiguousCandidates
    else if |identities| == 1 then PlausibleCandidate
    else if complete then ReadyForIrrecoverable
    else NoCandidate
  }

  method AppendFound(id: string, found: seq<Found>, rows: seq<SourceRow>, identities: set<string>)
    returns (ok: bool, rows': seq<SourceRow>, identities': set<string>)
    ensures ok <==> forall i | 0 <= i < |found| :: SourceOk(found[i])
    ensures ok ==> rows' == rows + RootRows(id, found) && identities' == identities + (set f | f in found :: f.identity)
  {
    hide SourceOk, RootRow;
    rows', identities' := rows, identities;
    ghost var all := RootRows(id, found);
    for i := 0 to |found|
      invariant forall j | 0 <= j < i :: SourceOk(found[j])
      invariant identities' == identities + (set f | f in found[..i] :: f.identity)
      invariant rows' == rows + all[..i]
    {
      if !SourceOk(found[i]) { return false, rows', identities'; }
      assert found[..i + 1] == found[..i] + [found[i]];
      rows', identities' := rows' + [RootRow(id, found[i])], identities' + {found[i].identity};
    }
    assert found[..|found|] == found && all[..|found|] == all;
    ok := true;
  }

  method AppendArchive(id: string, a: Archive, order: seq<string>, rows: seq<SourceRow>, identities: set<string>)
    returns (rows': seq<SourceRow>, identities': set<string>)
    requires forall x :: x in order <==> x in a.identities
    ensures rows' == rows + FileRows(id, a, order) && identities' == identities + a.identities
  {
    rows', identities' := rows, identities;
    ghost var all := FileRows(id, a, order);
    for i := 0 to |order|
      invariant identities' == identities + (set x | x in order[..i])
      invariant rows' == rows + all[..i]
    {
      assert order[..i + 1] == order[..i] + [order[i]];
      rows', identities' := rows' + [SourceRow(id, true, true, a.path, order[i])], identities' + {order[i]};
    }
    assert order[..|order|] == order && all[..|order|] == all;
  }

  lemma NothingYet(sorted: set<string> -> seq<string>)
    ensures AllRows([], sorted) == [] && AllIdentities([]) == {}
  {
  }

  lemma ReportsGrow(reports: seq<Report>, i: nat, sorted: set<string> -> seq<string>)
    requires i < |reports|
    ensures AllRows(reports[..i + 1], sorted) == AllRows(reports[..i], sorted) + RowsOf(reports[i], sorted)
    ensures AllIdentities(reports[..i + 1]) == AllIdentities(reports[..i]) + IdentitiesOf(reports[i])
  {
    assert reports[..i + 1][..i] == reports[..i];
  }

  /** One input: its report must pass, and its rows and identities are added. */
  method AddReport(r: Report, sorted: set<string> -> seq<string>, rows: seq<SourceRow>, identities: set<string>)
    returns (ok: bool, rows': seq<SourceRow>, identities': set<string>)
    requires ListsSets(sorted)
    ensures ok <==> ReportOk(r)
    ensures ok ==> rows' == rows + RowsOf(r, sorted) && identities' == identities + IdentitiesOf(r)
  {
    hide SourceOk, ContainsAbsolutePath, ArchiveOk;
    ok, rows', identities' := false, rows, identities;
    match r
    case RootReport(id, stateRoot, details, found) =>
      if stateRoot != "." || ContainsAbsolutePath(details) { return; }
      ok, rows', identities' := AppendFound(id, found, rows, identities);
    case FileReport(id, a) =>
      if !ArchiveOk(a) { return; }
      ok := true;
      if !a.isA21 && a.safe { rows', identities' := AppendArchive(id, a, sorted(a.identities), rows, identities); }
  }

  /** `build_discovery`: `sorted` lists an archive's identities in order. */
  method BuildDiscovery(reports: seq<Report>, complete: bool, sorted: set<string> -> seq<string>)
    returns (ok: bool, rows: seq<SourceRow>, identities: set<string>, decision: Decision)
    requires ListsSets(sorted)
    ensures ok <==> forall i | 0 <= i < |reports| :: ReportOk(reports[i])
    ensures ok ==> rows == Sort(AllRows(reports, sorted), SourceRowLe) && IsSorted(rows, SourceRowLe)
    ensures ok ==> identities == AllIdentities(reports) && decision == Decide(identities, complete)
  {
    hide ReportOk, RowsOf, IdentitiesOf, AllRows, AllIdentities, SourceRowLe, ListsSets;
    rows, identities, decision := [], {}, NoCandidate;
    NothingYet(sorted);
    for i := 0 to |reports|
      invariant forall j | 0 <= j < i :: ReportOk(reports[j])
      invariant rows == AllRows(reports[..i], sorted) && identities == AllIdentities(reports[..i])
    {
      ReportsGrow(reports, i, sorted);
      ok, rows, identities := AddReport(reports[i], sorted, rows, identities);
      if !ok { return; }
    }
    assert reports[..|reports|] == reports;
    SourceRowLeIsPreorder();
    SortSorted(rows, SourceRowLe);
    rows := Sort(rows, SourceRowLe);
    ok := true;
    decision := Decide(identities, complete);
  }

  // ----- the decision -----

  ghost predicate Holds(rs: seq<Report>, x: string) {
    exists r | r in rs :: x in IdentitiesOf(r)
  }

  lemma {:induction false} IdentityMembers(rs: seq<Report>, x: string)
    ensures x in AllIdentities(rs) <==> Holds(rs, x)
  {
    hide IdentitiesOf;
    if rs != [] {
      var n := |rs| - 1;
      IdentityMembers(rs[..n], x);
      assert rs == rs[..n] + [rs[n]];
      forall r ensures r in rs <==> r in rs[..n] || r == rs[n] {}
    }
  }

  /** Two discoveries whose inputs hold the same identities decide alike: how many copies there are, of which kind, in
    * which input and in what order does not matter. */
  lemma DecisionFromUnion(rs: seq<Report>, rs': seq<Report>, complete: bool)
    requires forall x :: Holds(rs, x) <==> Holds(rs', x)
    ensures Decide(AllIdentities(rs), complete) == Decide(AllIdentities(rs'), complete)
  {
    hide Holds, AllIdentities;
    forall x ensures x in AllIdentities(rs) <==> x in AllIdentities(rs') {
      IdentityMembers(rs, x);
      IdentityMembers(rs', x);
    }
    assert AllIdentities(rs) == AllIdentities(rs');
  }

  /** The four decisions are four situations: two different identities, one, or none with and without a complete set. */
  lemma DecisionMeaning(identities: set<string>, complete: bool)
    ensures Decide(identities, complete) == AmbiguousCandidates
            <==> exists x, y | x in identities && y in identities :: x != y
    ensures Decide(identities, complete) == PlausibleCandidate <==> exists x :: identities == {x}
    ensures Decide(identities, complete) == ReadyForIrrecoverable <==> identities == {} && complete
    ensures Decide(identities, complete) == NoCandidate <==> identities == {} && !complete
  {
    if identities != {} {
      var x :| x in identities;
      var rest := identities - {x};
      if rest != {} {
        var y :| y in rest;
        assert |identities| == |rest| + 1 && |rest| == |rest - {y}| + 1;
      } else {
        assert identities == {x};
      }
    }
  }
}
