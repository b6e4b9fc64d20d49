/** EDEKA candidate lists: validation, and adding the source cards that carry no offer. */
module EdekaAccounting {
  import opened Foundations
  import opened Sorting
  import opened Formats
  import opened EdekaManifest

  const STRATEGY: string := "edeka_candidate_provenance_v1"

  datatype Route = Automatic | Review | Excluded | Unsupported(name: string)

  datatype Row = Row(id: string, binding: Binding, page: int, cardId: string, route: Route, ambiguous: bool,
                     complete: bool)

  /** A candidate list with its manifest; `snapshotId` belongs to its live evidence. */
  datatype Payload = Payload(schemaVersion: int, strategy: string, manifest: Manifest, rows: seq<Row>, flags: Flags,
                             snapshotId: string)

  function IdOf(r: Row): string {
    r.id
  }

  function RouteOf(r: Row): Route {
    r.route
  }

  predicate RowLe(a: Row, b: Row) {
    StrLe(a.id, b.id)
  }

  /** How many rows take a route. */
  ghost function RouteCount(rows: seq<Row>, route: Route): nat {
    multiset(Map(rows, RouteOf))[route]
  }

  function Dialog(id: string): string {
    "dialog-angebot-" + id
  }

  // ----- validating a list of candidates -----

  lemma NoKeys<S>(f: S -> string)
    ensures Map([], f) == [] && NoDup<string>([])
  {
  }

  /** A key met again breaks uniqueness of all keys. */
  lemma Repeated<S>(s: seq<S>, i: nat, f: S -> string)
    requires i < |s| && f(s[i]) in Map(s[..i], f)
    ensures !NoDup(Map(s, f))
  {
    assert Map(s, f)[..i] == Map(s[..i], f);
    RepeatedKey(Map(s, f), i);
  }

  predicate RowValid(r: Row, b: Binding) {
    && NonBlank(r.id) && r.binding == b && r.page >= 1 && NonBlank(r.cardId)
    && !r.route.Unsupported?
    && (r.ambiguous ==> r.route == Review)
    && (r.route == Automatic ==> r.complete)
  }

  ghost predicate ProvenanceOk(rows: seq<Row>, b: Binding) {
    (forall i | 0 <= i < |rows| :: RowValid(rows[i], b)) && NoDup(Map(rows, IdOf))
  }

  lemma CountGrows(rows: seq<Row>, i: nat)
    requires i < |rows|
    ensures forall route ::
            RouteCount(rows[..i + 1], route) == RouteCount(rows[..i], route) + (if rows[i].route == route then 1 else 0)
  {
    MapGrows(rows, i, RouteOf);
  }

  /** The loop over the rows. */
  method ValidateRows(rows: seq<Row>, b: Binding) returns (ok: bool, counts: map<Route, nat>)
    ensures ok <==> ProvenanceOk(rows, b)
    ensures ok ==> forall route :: (if route in counts then counts[route] else 0) == RouteCount(rows, route)
  {
    hide RowValid, RouteCount;
    var seen: set<string> := {};
    counts := map[];
    NoRows();
    for i := 0 to |rows|
      invariant forall j | 0 <= j < i :: RowValid(rows[j], b)
      invariant NoDup(Map(rows[..i], IdOf)) && forall id :: id in seen <==> id in Map(rows[..i], IdOf)
      invariant forall route :: (if route in counts then counts[route] else 0) == RouteCount(rows[..i], route)
    {
      var r := rows[i];
      MapGrows(rows, i, IdOf);
      if r.id in seen {
        Repeated(rows, i, IdOf);
        return false, counts;
      }
      if !RowValid(r, b) { return false, counts; }
      NoDupAppend(Map(rows[..i], IdOf), r.id);
      seen := seen + {r.id};
      CountGrows(rows, i);
      counts := counts[r.route := (if r.route in counts then counts[r.route] else 0) + 1];
    }
    assert rows[..|rows|] == rows;
    ok := true;
  }

  ghost predicate PayloadOk(p: Payload, day: string -> Option<int>) {
    && p.schemaVersion == 1 && p.strategy == STRATEGY
    && ManifestOk(p.manifest, day) && ShadowReady(p.manifest.state)
    && ProvenanceOk(p.rows, BindingOf(p.manifest))
    && p.flags == NO_WRITES
  }

  method ValidateProvenance(p: Payload, day: string -> Option<int>) returns (ok: bool, counts: map<Route, nat>)
    ensures ok <==> PayloadOk(p, day)
    ensures ok ==> forall route :: (if route in counts then counts[route] else 0) == RouteCount(p.rows, route)
  {
    hide ManifestOk, ShadowReady, ProvenanceOk, RouteCount;
    counts := map[];
    if p.schemaVersion != 1 || p.strategy != STRATEGY { return false, counts; }
    if !ManifestOk(p.manifest, day) || !ShadowReady(p.manifest.state) { return false, counts; }
    ok, counts := ValidateRows(p.rows, BindingOf(p.manifest));
    if p.flags != NO_WRITES { ok := false; }
  }

  lemma NoRows()
    ensures forall route :: RouteCount([], route) == 0
  {
  }

  // ----- adding the excluded source cards -----

  datatype ExcludedCard = ExcludedCard(id: string, dialog: string, route: string, reason: string)

  /** The report over all source cards, with the snapshot, files and parser it was made from. */
  datatype Accounting = Accounting(sourceCards: int, parsedOffers: int, excluded: int, complete: bool, loss: bool,
                                   snapshotId: string, manifestSha: string, rawSha: Option<string>,
                                   parser: Option<string>, cards: seq<ExcludedCard>)

  function CardIdOf(c: ExcludedCard): string {
    c.id
  }

  predicate CardOk(c: ExcludedCard) {
    c.id != "" && c.dialog == Dialog(c.id) && c.route == "excluded" && c.reason != ""
  }

  function ExcludedRow(b: Binding, c: ExcludedCard): Row {
    Row(c.id, b, 1, c.dialog, Excluded, false, true)
  }

  function ExcludedRows(b: Binding, cards: seq<ExcludedCard>): (rows: seq<Row>)
    ensures |rows| == |cards| && forall i | 0 <= i < |cards| :: rows[i] == ExcludedRow(b, cards[i])
  {
    seq(|cards|, i requires 0 <= i < |cards| => ExcludedRow(b, cards[i]))
  }

  /** The accounting was made from the files of this payload. */
  predicate BoundTo(a: Accounting, p: Payload) {
    && a.snapshotId == p.snapshotId
    && a.manifestSha == p.manifest.manifestSha
    && a.rawSha == Some(p.manifest.sourceSha)
    && a.parser == Some(p.manifest.parser)
  }

  ghost predicate CountsOk(base: seq<Row>, a: Accounting) {
    && a.sourceCards == a.parsedOffers + a.excluded && a.complete && !a.loss
    && NoDup(Map(base, IdOf)) && "None" !in Map(base, IdOf) && |base| == a.parsedOffers
    && ExclusionsOk(base, a.cards) && |a.cards| == a.excluded
  }

  /** What the accounting must satisfy before the combined list is validated. */
  ghost predicate AccountingOk(base: Payload, a: Accounting) {
    CountsOk(base.rows, a) && BoundTo(a, base)
  }

  function Combined(base: seq<Row>, b: Binding, a: Accounting): seq<Row> {
    Sort(base + ExcludedRows(b, a.cards), RowLe)
  }

  function Accounted(base: Payload, a: Accounting): Payload {
    base.(rows := Combined(base.rows, BindingOf(base.manifest), a))
  }

  /** Accepted when the accounting holds, the combined list validates, and the two counts taken from it agree. */
  ghost predicate AugmentOk(base: Payload, a: Accounting, day: string -> Option<int>) {
    && AccountingOk(base, a)
    && PayloadOk(Accounted(base, a), day)
    && |Accounted(base, a).rows| == a.sourceCards
    && RouteCount(Accounted(base, a).rows, Excluded) == a.excluded
  }

  ghost predicate ExclusionsOk(base: seq<Row>, cards: seq<ExcludedCard>) {
    && (forall i | 0 <= i < |cards| :: CardOk(cards[i]) && cards[i].id !in Map(base, IdOf))
    && NoDup(Map(cards, CardIdOf))
  }

  /** The loop over the exclusions: none may repeat a parsed ID or another exclusion. */
  method AppendExclusions(base: seq<Row>, b: Binding, cards: seq<ExcludedCard>, parsedIds: set<string>)
    returns (ok: bool, rows: seq<Row>, excludedIds: set<string>)
    requires forall id :: id in parsedIds <==> id in Map(base, IdOf)
    ensures ok <==> ExclusionsOk(base, cards)
    ensures ok ==> rows == base + ExcludedRows(b, cards) && |excludedIds| == |cards|
  {
    hide CardOk, NoDup, ExcludedRow, ExcludedRows, ExclusionsOk;
    rows := base;
    excludedIds := {};
    ghost var all, keys := ExcludedRows(b, cards), Map(cards, CardIdOf);
    NoKeys(CardIdOf);
    for i := 0 to |cards|
      invariant forall j | 0 <= j < i :: CardOk(cards[j]) && keys[j] !in parsedIds
      invariant NoDup(keys[..i]) && forall id :: id in excludedIds <==> id in keys[..i]
      invariant rows == base + all[..i]
    {
      var c := cards[i];
      assert keys[i] == c.id;
      if c.id in excludedIds || c.id in parsedIds || !CardOk(c) {
        NotExcludable(base, cards, i);
        return false, rows, excludedIds;
      }
      NoDupAppend(keys[..i], c.id);
      assert keys[..i + 1] == keys[..i] + [c.id];
      excludedIds := excludedIds + {c.id};
      GrowTail(base, all, i);
      ExcludedAt(b, cards, i);
      rows := rows + [ExcludedRow(b, c)];
    }
    assert keys[..|cards|] == keys && all[..|cards|] == all;
    Excludable(base, cards, parsedIds);
    DistinctTest(keys);
    assert excludedIds == (set id | id in keys);
    ok := true;
  }

  lemma NotExcludable(base: seq<Row>, cards: seq<ExcludedCard>, i: nat)
    requires i < |cards|
    requires || !CardOk(cards[i]) || cards[i].id in Map(base, IdOf)
             || cards[i].id in Map(cards, CardIdOf)[..i]
    ensures !ExclusionsOk(base, cards)
  {
    hide CardOk;
    if cards[i].id in Map(cards, CardIdOf)[..i] { RepeatedKey(Map(cards, CardIdOf), i); }
  }

  lemma Excludable(base: seq<Row>, cards: seq<ExcludedCard>, parsedIds: set<string>)
    requires forall id :: id in parsedIds <==> id in Map(base, IdOf)
    requires forall i | 0 <= i < |cards| :: CardOk(cards[i]) && Map(cards, CardIdOf)[i] !in parsedIds
    requires NoDup(Map(cards, CardIdOf))
    ensures ExclusionsOk(base, cards)
  {
    hide CardOk;
    assert forall i | 0 <= i < |cards| :: Map(cards, CardIdOf)[i] == cards[i].id;
  }

  lemma ExcludedAt(b: Binding, cards: seq<ExcludedCard>, i: nat)
    requires i < |cards|
    ensures ExcludedRows(b, cards)[i] == ExcludedRow(b, cards[i])
  {
  }

  lemma GrowTail<T>(front: seq<T>, all: seq<T>, i: nat)
    requires i < |all|
    ensures front + all[..i] + [all[i]] == front + all[..i + 1]
  {
  }

  method Augment(base: Payload, a: Accounting, day: string -> Option<int>) returns (r: Option<Payload>)
    ensures r == if AugmentOk(base, a, day) then Some(Accounted(base, a)) else None
  {
    hide PayloadOk, ExclusionsOk, RowLe, RouteCount, NoDup, BoundTo;
    if a.sourceCards != a.parsedOffers + a.excluded || !a.complete || a.loss { return None; }
    var parsedIds := set id | id in Map(base.rows, IdOf);
    DistinctTest(Map(base.rows, IdOf));
    if |parsedIds| != |base.rows| || "None" in parsedIds { return None; }
    if |parsedIds| != a.parsedOffers || !BoundTo(a, base) { return None; }
    var disjoint, rows, excludedIds := AppendExclusions(base.rows, BindingOf(base.manifest), a.cards, parsedIds);
    if !disjoint || |excludedIds| != a.excluded { return None; }
    rows := Sort(rows, RowLe);
    var payload := base.(rows := rows);
    var valid, counts := ValidateProvenance(payload, day);
    if !valid { return None; }
    if |rows| != a.sourceCards { return None; }
    if (if Excluded in counts then counts[Excluded] else 0) != a.excluded { return None; }
    r := Some(payload);
  }
}
