/** A parity report depends only on the rows and cards given, never on their order. */
module ParityOrder {
  import opened Foundations
  import opened Sorting
  import opened ParityModel
  import opened ParityRun

  function KeyOf(c: Candidate): string {
    c.offerKey
  }

  function IdOf(k: Card): string {
    k.id
  }

  function OfferKeyOf(o: Offer): string {
    OfferKey(o.page, o.offerId)
  }

  lemma UniqueOffersTail(rows: seq<Offer>)
    requires UniqueOffers(rows) && rows != []
    ensures UniqueOffers(rows[1..])
    ensures forall o | o in rows[1..] :: OfferKeyOf(o) != OfferKeyOf(rows[0])
  {
    var rest := rows[1..];
    forall i, j | 0 <= i < j < |rest|
      ensures OfferKey(rest[i].page, rest[i].offerId) != OfferKey(rest[j].page, rest[j].offerId)
    {
      assert rest[i] == rows[i + 1] && rest[j] == rows[j + 1];
    }
  }

  lemma NoDupPrepend<T>(x: T, s: seq<T>)
    requires NoDup(s) && x !in s
    ensures NoDup([x] + s)
  {
  }

  lemma {:induction false} FilteredKeysDistinct(rows: seq<Offer>)
    requires UniqueOffers(rows)
    ensures NoDup(Map(Views(rows), KeyOf))
  {
    hide Views;
    if rows == [] {
      NoViews();
    } else {
      var rest := rows[1..];
      UniqueOffersTail(rows);
      FilteredKeysDistinct(rest);
      ViewsHead(rows);
      var keys := Map(Views(rest), KeyOf);
      if IsTarget(rows[0]) {
        assert Map(Views(rows), KeyOf) == [OfferKeyOf(rows[0])] + keys;
        if OfferKeyOf(rows[0]) in keys {
          var i := IndexOf(keys, OfferKeyOf(rows[0]));
          var o := ViewSource(rest, Views(rest)[i]);
        }
        NoDupPrepend(OfferKeyOf(rows[0]), keys);
      }
    }
  }

  lemma ViewsHead(rows: seq<Offer>)
    requires rows != []
    ensures Views(rows) == (if IsTarget(rows[0]) then [View(rows[0])] else []) + Views(rows[1..])
  {
  }

  lemma ViewSource(rows: seq<Offer>, v: Candidate) returns (o: Offer)
    requires v in Views(rows)
    ensures o in rows && IsTarget(o) && v == View(o)
  {
    var i := IndexOf(Views(rows), v);
    o := Filter(rows, IsTarget)[i];
  }

  /** Target candidates have distinct keys, in any arrangement. */
  lemma CandidateKeysDistinct(rows: seq<Offer>)
    requires UniqueOffers(rows)
    ensures NoDup(Map(Candidates(rows), KeyOf))
  {
    FilteredKeysDistinct(rows);
    MapPermuted(Views(rows), Candidates(rows), KeyOf);
    NoDupPermuted(Map(Views(rows), KeyOf), Map(Candidates(rows), KeyOf));
  }

  lemma DistinctKeysIdentify(cands: seq<Candidate>)
    requires NoDup(Map(cands, KeyOf))
    ensures KeysIdentify(cands, CandidateLe)
  {
    forall x, y | x in cands && y in cands && CandidateLe(x, y) && CandidateLe(y, x) ensures x == y {
      StrLeAntisymmetric(x.offerKey, y.offerKey);
      var i := IndexOf(cands, x);
      var j := IndexOf(cands, y);
      var keys := Map(cands, KeyOf);
      NoDupIndex(keys, i, j);
    }
  }

  lemma CardsIdentified(cards: seq<Card>)
    requires UniqueCards(cards)
    ensures KeysIdentify(cards, CardLe)
  {
    forall x, y | x in cards && y in cards && CardLe(x, y) && CardLe(y, x) ensures x == y {
      StrLeAntisymmetric(x.id, y.id);
      var i := IndexOf(cards, x);
      var j := IndexOf(cards, y);
    }
  }

  lemma UniqueCardsPermuted(a: seq<Card>, b: seq<Card>)
    requires UniqueCards(a) && multiset(a) == multiset(b)
    ensures UniqueCards(b)
  {
    var ka, kb := Map(a, IdOf), Map(b, IdOf);
    assert NoDup(ka);
    MapPermuted(a, b, IdOf);
    NoDupPermuted(ka, kb);
    forall i, j | 0 <= i < j < |b| ensures b[i].id != b[j].id { assert kb[i] != kb[j]; }
  }

  lemma ViewsPermuted(rows: seq<Offer>, rows': seq<Offer>)
    requires multiset(rows) == multiset(rows')
    ensures multiset(Views(rows)) == multiset(Views(rows'))
  {
    FilterPermuted(rows, rows', IsTarget);
    MapPermuted(Filter(rows, IsTarget), Filter(rows', IsTarget), View);
  }

  lemma CandidatesPermuted(rows: seq<Offer>, rows': seq<Offer>)
    requires UniqueOffers(rows) && multiset(rows) == multiset(rows')
    ensures Candidates(rows) == Candidates(rows')
  {
    ViewsPermuted(rows, rows');
    FilteredKeysDistinct(rows);
    DistinctKeysIdentify(Views(rows));
    OrdersArePreorders();
    SortDeterministic(Views(rows), Views(rows'), CandidateLe);
  }

  /** Permuting the projection rows and the cards leaves the whole report unchanged. */
  lemma ParityDeterministic(rows: seq<Offer>, rows': seq<Offer>, cards: seq<Card>, cards': seq<Card>,
                            expected: Option<map<Status, nat>>)
    requires UniqueOffers(rows) && UniqueCards(cards)
    requires multiset(rows) == multiset(rows') && multiset(cards) == multiset(cards')
    ensures ParityReport(rows, cards, expected) == ParityReport(rows', cards', expected)
  {
    hide ReportOf, Candidates;
    CandidatesPermuted(rows, rows');
    CardsIdentified(cards);
    OrdersArePreorders();
    SortDeterministic(cards, cards', CardLe);
  }
}
