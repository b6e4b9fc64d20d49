/** EDEKA accounting conserves source cards: parsed and excluded IDs are disjoint and together make up the whole. */
module EdekaConservation {
  import opened Foundations
  import opened Sorting
  import opened Formats
  import opened EdekaManifest
  import opened EdekaAccounting
  import opened EdekaJoin

  function NormRoute(n: NormRow): Route {
    RouteFor(Strip(n.status))
  }

  /** The normalization rows with a given status. */
  function WithStatus(norm: seq<NormRow>, status: string): seq<NormRow> {
    Filter(norm, (n: NormRow) => Strip(n.status) == status)
  }

  function IdRoute(r: Row): (string, Route) {
    (r.id, r.route)
  }

  function NormIdRoute(n: NormRow): (string, Route) {
    (NormId(n), NormRoute(n))
  }

  function Second(p: (string, Route)): Route {
    p.1
  }

  lemma SameMultiset<T(!new)>(a: seq<T>, b: seq<T>)
    requires NoDup(a) && NoDup(b) && forall x :: x in a <==> x in b
    ensures multiset(a) == multiset(b)
  {
    NoDupCount(a);
    NoDupCount(b);
    forall x ensures multiset(a)[x] == multiset(b)[x] {
      assert x in multiset(a) <==> x in a;
      assert x in multiset(b) <==> x in b;
    }
  }

  lemma JoinedIds(rows: seq<Row>, b: Binding, norm: seq<NormRow>, db: seq<DbRow>)
    requires IsJoin(rows, b, norm, db)
    ensures Map(rows, IdOf) == Map(db, DbId)
    ensures forall i | 0 <= i < |rows| ::
              rows[i].binding == b && rows[i].page == 1 && rows[i].cardId == Dialog(rows[i].id) && rows[i].complete
              && (rows[i].route == Automatic || rows[i].route == Review)
              && rows[i].ambiguous == (rows[i].route == Review)
  {
    forall i | 0 <= i < |rows|
      ensures rows[i].id == DbId(db[i]) && rows[i].binding == b && rows[i].page == 1
              && rows[i].cardId == Dialog(rows[i].id) && rows[i].complete
              && (rows[i].route == Automatic || rows[i].route == Review)
              && rows[i].ambiguous == (rows[i].route == Review)
    {
      assert Joins(rows[i], b, norm, DbId(db[i]));
    }
  }

  /** Row pairs and normalization pairs are the same set of pairs, each without repetition. */
  lemma SamePairs(rows: seq<Row>, b: Binding, src: Source, norm: seq<NormRow>, db: seq<DbRow>, offerCount: nat)
    requires RowsMatch(src, norm, db, offerCount) && IsJoin(rows, b, norm, db)
    ensures multiset(Map(rows, IdRoute)) == multiset(Map(norm, NormIdRoute))
  {
    hide NormRowOk, DbRowOk, Joins, RouteFor;
    var xs, ys := Map(rows, IdRoute), Map(norm, NormIdRoute);
    JoinedIds(rows, b, norm, db);
    FinalSetCheckImplied(src, norm, db, offerCount);
    FirstsDistinct(xs, Map(rows, IdOf));
    FirstsDistinct(ys, Map(norm, NormId));
    forall p ensures p in xs <==> p in ys {
      if p in xs {
        var i := IndexOf(xs, p);
        var k := SourceRow(rows, b, norm, db, i);
        assert ys[k] == p;
      }
      if p in ys {
        var k := IndexOf(ys, p);
        assert Map(norm, NormId)[k] in Map(db, DbId);
        var i := IndexOf(Map(db, DbId), NormId(norm[k]));
        var k' := SourceRow(rows, b, norm, db, i);
        NoDupIndex(Map(norm, NormId), k, k');
        assert xs[i] == p;
      }
    }
    SameMultiset(xs, ys);
  }

  lemma SourceRow(rows: seq<Row>, b: Binding, norm: seq<NormRow>, db: seq<DbRow>, i: nat) returns (k: nat)
    requires IsJoin(rows, b, norm, db) && i < |rows|
    ensures k < |norm| && NormId(norm[k]) == DbId(db[i]) && IdRoute(rows[i]) == NormIdRoute(norm[k])
  {
    assert Joins(rows[i], b, norm, DbId(db[i]));
    k :| 0 <= k < |norm| && Strip(norm[k].id) == DbId(db[i]) && RoutedBy(rows[i], Strip(norm[k].status));
  }

  lemma FirstsDistinct(pairs: seq<(string, Route)>, ids: seq<string>)
    requires |pairs| == |ids| && NoDup(ids) && forall i | 0 <= i < |ids| :: pairs[i].0 == ids[i]
    ensures NoDup(pairs)
  {
    forall i, j | 0 <= i < j < |pairs| ensures pairs[i] != pairs[j] { assert ids[i] != ids[j]; }
  }

  lemma NoRowTakes(rows: seq<Row>, route: Route)
    requires forall i | 0 <= i < |rows| :: rows[i].route != route
    ensures RouteCount(rows, route) == 0
  {
    assert route !in Map(rows, RouteOf);
  }

  lemma {:induction false} StatusesCounted(norm: seq<NormRow>)
    requires forall i | 0 <= i < |norm| :: NormRowOk(norm[i])
    ensures multiset(Map(norm, NormRoute))[Automatic] == |WithStatus(norm, "resolved")|
    ensures multiset(Map(norm, NormRoute))[Review] == |WithStatus(norm, "review_required")|
  {
    hide Strip, NonBlank;
    if norm != [] {
      StatusesCounted(norm[1..]);
      assert Map(norm, NormRoute) == [NormRoute(norm[0])] + Map(norm[1..], NormRoute);
    }
  }

  /** The join routes as many offers automatically, and as many to review, as normalization says; the rows pass
    * validation as they are. */
  lemma JoinRoutes(rows: seq<Row>, b: Binding, src: Source, norm: seq<NormRow>, db: seq<DbRow>, offerCount: nat)
    requires RowsMatch(src, norm, db, offerCount) && IsJoin(rows, b, norm, db)
    ensures RouteCount(rows, Automatic) == |WithStatus(norm, "resolved")|
    ensures RouteCount(rows, Review) == |WithStatus(norm, "review_required")|
    ensures RouteCount(rows, Excluded) == 0
    ensures ProvenanceOk(rows, b)
  {
    StatusesCounted(norm);
    hide NormRowOk, DbRowOk, WithStatus, RouteFor, Strip, IsJoin, ProvenanceOk;
    SamePairs(rows, b, src, norm, db, offerCount);
    MapPermuted(Map(rows, IdRoute), Map(norm, NormIdRoute), Second);
    assert Map(Map(rows, IdRoute), Second) == Map(rows, RouteOf);
    assert Map(Map(norm, NormIdRoute), Second) == Map(norm, NormRoute);
    JoinedIds(rows, b, norm, db);
    NoRowTakes(rows, Excluded);
    JoinedRowsValid(rows, b, src, norm, db, offerCount);
  }

  lemma JoinedRowsValid(rows: seq<Row>, b: Binding, src: Source, norm: seq<NormRow>, db: seq<DbRow>, offerCount: nat)
    requires RowsMatch(src, norm, db, offerCount) && IsJoin(rows, b, norm, db)
    ensures ProvenanceOk(rows, b)
  {
    hide NormRowOk, Strip, Dialog, NoDup, Joins, SnapshotKey;
    JoinedIds(rows, b, norm, db);
    forall i | 0 <= i < |rows| ensures RowValid(rows[i], b) {
      assert Map(rows, IdOf)[i] == DbId(db[i]);
      StripIdempotent(db[i].id);
      DialogNonBlank(rows[i].id);
    }
  }

  lemma DialogNonBlank(id: string)
    ensures NonBlank(Dialog(id))
  {
    hide Strip, IsSpace;
    assert Dialog(id)[0] == 'd';
    LetterIsNoSpace();
    NonSpaceStart(Dialog(id));
  }

  // ----- the combined list -----

  lemma CombinedIds(base: seq<Row>, b: Binding, a: Accounting)
    ensures multiset(Map(Combined(base, b, a), IdOf)) == multiset(Map(base, IdOf)) + multiset(Map(a.cards, CardIdOf))
    ensures |Combined(base, b, a)| == |base| + |a.cards|
  {
    hide RowLe;
    var all := base + ExcludedRows(b, a.cards);
    MapPermuted(Combined(base, b, a), all, IdOf);
    assert Map(all, IdOf) == Map(base, IdOf) + Map(a.cards, CardIdOf);
  }

  lemma {:induction false} AllOneRoute(rows: seq<Row>, route: Route)
    requires forall r | r in rows :: r.route == route
    ensures RouteCount(rows, route) == |rows|
    ensures forall other | other != route :: RouteCount(rows, other) == 0
  {
    if rows == [] {
      NoRows();
    } else {
      var n := |rows| - 1;
      forall r | r in rows[..n] ensures r.route == route { assert r in rows; }
      AllOneRoute(rows[..n], route);
      CountGrows(rows, n);
      assert rows[..n + 1] == rows && rows[n] in rows;
    }
  }

  /** The exclusions raise the excluded count and no other. */
  lemma CombinedCounts(base: seq<Row>, b: Binding, a: Accounting, route: Route)
    ensures RouteCount(Combined(base, b, a), route) == RouteCount(base, route)
            + (if route == Excluded then |a.cards| else 0)
  {
    hide RowLe;
    var extra := ExcludedRows(b, a.cards);
    var all := base + extra;
    MapPermuted(Combined(base, b, a), all, RouteOf);
    assert Map(all, RouteOf) == Map(base, RouteOf) + Map(extra, RouteOf);
    AllOneRoute(extra, Excluded);
  }

  ghost predicate NoBlankExclusion(a: Accounting) {
    forall i | 0 <= i < |a.cards| :: NonBlank(a.cards[i].id)
  }

  lemma CombinedIdsDistinct(base: seq<Row>, b: Binding, a: Accounting)
    requires CountsOk(base, a)
    ensures NoDup(Map(Combined(base, b, a), IdOf))
  {
    hide CardOk;
    CombinedIds(base, b, a);
    var ids, more := Map(base, IdOf), Map(a.cards, CardIdOf);
    NoDupCount(ids);
    NoDupCount(more);
    NoDupCount(Map(Combined(base, b, a), IdOf));
    forall id ensures multiset(Map(Combined(base, b, a), IdOf))[id] <= 1 {
      if id in more {
        var i := IndexOf(more, id);
        assert a.cards[i].id !in ids;
        assert id !in multiset(ids);
      } else {
        assert id !in multiset(more);
      }
    }
  }

  /** After the accounting checks the combined list is valid exactly when the base list is and no exclusion ID is
    * blank. */
  lemma CombinedValidIff(base: seq<Row>, b: Binding, a: Accounting)
    requires CountsOk(base, a)
    ensures ProvenanceOk(Combined(base, b, a), b) <==> ProvenanceOk(base, b) && NoBlankExclusion(a)
  {
    hide NoDup, RowLe;
    var extra := ExcludedRows(b, a.cards);
    var all := Combined(base, b, a);
    CombinedIdsDistinct(base, b, a);
    SameMembers(all, base + extra);
    forall i | 0 <= i < |a.cards| ensures RowValid(extra[i], b) <==> NonBlank(a.cards[i].id) {
      assert CardOk(a.cards[i]);
      DialogNonBlank(a.cards[i].id);
    }
    ValidRows(all, base, extra, b);
  }

  lemma ValidRows(all: seq<Row>, base: seq<Row>, extra: seq<Row>, b: Binding)
    requires forall r :: r in all <==> r in base + extra
    ensures (forall i | 0 <= i < |all| :: RowValid(all[i], b))
            <==> (forall i | 0 <= i < |base| :: RowValid(base[i], b))
                 && (forall i | 0 <= i < |extra| :: RowValid(extra[i], b))
  {
    hide RowValid;
    assert forall r :: r in base + extra <==> r in base || r in extra;
    assert (forall i | 0 <= i < |all| :: RowValid(all[i], b)) <==> forall r | r in all :: RowValid(r, b);
    assert (forall i | 0 <= i < |base| :: RowValid(base[i], b)) <==> forall r | r in base :: RowValid(r, b);
    assert (forall i | 0 <= i < |extra| :: RowValid(extra[i], b)) <==> forall r | r in extra :: RowValid(r, b);
  }

  /** Of the two counts checked after validation the total can never disagree, and the excluded count disagrees exactly
    * when the base list already had an excluded candidate. */
  lemma PostChecksIff(base: seq<Row>, b: Binding, a: Accounting)
    requires CountsOk(base, a)
    ensures |Combined(base, b, a)| == a.sourceCards
    ensures RouteCount(Combined(base, b, a), Excluded) == a.excluded <==> RouteCount(base, Excluded) == 0
  {
    hide RouteCount, ExclusionsOk, NoDup;
    CombinedIds(base, b, a);
    CombinedCounts(base, b, a, Excluded);
  }

  /** The exact conditions under which the accounting is added. */
  lemma AugmentIff(base: Payload, a: Accounting, day: string -> Option<int>)
    ensures AugmentOk(base, a, day) <==>
            && AccountingOk(base, a) && PayloadOk(base, day)
            && NoBlankExclusion(a) && RouteCount(base.rows, Excluded) == 0
  {
    hide RouteCount, CountsOk, ProvenanceOk, NoBlankExclusion, Combined, BoundTo, ManifestOk, ShadowReady;
    if AccountingOk(base, a) {
      CombinedValidIff(base.rows, BindingOf(base.manifest), a);
      PostChecksIff(base.rows, BindingOf(base.manifest), a);
    }
  }

  lemma {:induction false} RoutesAddUp(rows: seq<Row>, b: Binding)
    requires forall r | r in rows :: RowValid(r, b)
    ensures RouteCount(rows, Automatic) + RouteCount(rows, Review) + RouteCount(rows, Excluded) == |rows|
  {
    hide RouteCount;
    if rows == [] {
      NoRows();
    } else {
      var n := |rows| - 1;
      forall r | r in rows[..n] ensures RowValid(r, b) { assert r in rows; }
      RoutesAddUp(rows[..n], b);
      CountGrows(rows, n);
      assert rows[..n + 1] == rows && rows[n] in rows;
    }
  }

  /** Nothing lost, nothing counted twice: the result's IDs are the disjoint union of parsed and excluded IDs, and its
    * route counts add up to the source cards. */
  lemma SourceCardsConserved(base: Payload, a: Accounting, day: string -> Option<int>)
    requires AugmentOk(base, a, day)
    ensures var all := Accounted(base, a).rows;
            && multiset(Map(all, IdOf)) == multiset(Map(base.rows, IdOf)) + multiset(Map(a.cards, CardIdOf))
            && NoDup(Map(all, IdOf))
            && RouteCount(all, Automatic) + RouteCount(all, Review) + RouteCount(all, Excluded) == a.sourceCards
  {
    hide RouteCount, ExclusionsOk, Combined, RowValid, ManifestOk, ShadowReady, BoundTo;
    var b := BindingOf(base.manifest);
    var all := Combined(base.rows, b, a);
    CombinedIds(base.rows, b, a);
    CombinedIdsDistinct(base.rows, b, a);
    forall r | r in all ensures RowValid(r, b) { var i := IndexOf(all, r); }
    RoutesAddUp(all, b);
  }

  /** From the raw inputs to the end: a joined list takes the accounting on exactly when the source's formats hold and
    * the accounting fits it; the last count check never fires, and each route's count is known from the inputs. */
  lemma EndToEnd(src: Source, report: Normalization, db: seq<DbRow>, offerCount: nat, rows: seq<Row>, a: Accounting,
                 day: string -> Option<int>)
    requires JoinOk(src, report, db, offerCount) && IsJoin(rows, BindingFor(src), report.rows, db)
    ensures var base := JoinedPayload(src, report.review, rows);
            AugmentOk(base, a, day) <==> FormatsOk(src, day) && AccountingOk(base, a) && NoBlankExclusion(a)
    ensures var all := Accounted(JoinedPayload(src, report.review, rows), a).rows;
            && RouteCount(all, Automatic) == |WithStatus(report.rows, "resolved")|
            && RouteCount(all, Review) == |WithStatus(report.rows, "review_required")|
            && RouteCount(all, Excluded) == |a.cards|
  {
    hide RouteCount, AccountingOk, ProvenanceOk, NoBlankExclusion, Combined, RowsMatch, IsJoin, AugmentOk;
    hide WithStatus, ManifestOk, ManifestFor, BindingFor, FormatsOk, ShadowReady, HeaderOk;
    var b := BindingFor(src);
    JoinRoutes(rows, b, src, report.rows, db, offerCount);
    JoinedManifestOk(src, report.review, day);
    AugmentIff(JoinedPayload(src, report.review, rows), a, day);
    CombinedCounts(rows, b, a, Automatic);
    CombinedCounts(rows, b, a, Review);
    CombinedCounts(rows, b, a, Excluded);
  }
}
