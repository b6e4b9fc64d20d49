/** The numbers and the order of the family summaries, said of the offers' tokens. */
module FamilyMeaning {
  import opened Foundations
  import opened Sorting
  import opened CardFamilies

  /** The token belongs to the family; a token without path or kind belongs to none. */
  ghost predicate IsOf(t: Token, f: Family) {
    t.fieldPath == f.fieldPath && t.kind == f.kind && t.fieldPath != "" && t.kind != ""
  }

  /** The offer's row i has a token of the family, and no later row of the offer does. */
  ghost predicate SpeaksLast(rows: seq<Row>, f: Family, offer: string, i: nat) {
    && i < |rows| && rows[i].objectId == offer && (exists t | t in rows[i].tokens :: IsOf(t, f))
    && forall j, t | i < j < |rows| && rows[j].objectId == offer && t in rows[j].tokens :: !IsOf(t, f)
  }

  ghost predicate HasToken(rows: seq<Row>, f: Family, offer: string) {
    exists i: nat :: SpeaksLast(rows, f, offer, i)
  }

  /** The family's tokens in the offer's last row that has any lead to the card. */
  ghost predicate LeadsTo(rows: seq<Row>, f: Family, offer: string, card: string) {
    exists i: nat, t :: SpeaksLast(rows, f, offer, i) && t in rows[i].tokens && IsOf(t, f) && card in t.cardKeys
  }

  ghost predicate IsBridged(rows: seq<Row>, f: Family, offer: string, card: string) {
    LeadsTo(rows, f, offer, card) && forall other :: LeadsTo(rows, f, offer, other) ==> other == card
  }

  // ----- the cards of an offer -----

  lemma {:induction false} CardsRead(ts: seq<Token>, f: Family, card: string)
    ensures card in CardsOf(ts, f) <==> exists t | t in ts :: IsOf(t, f) && card in t.cardKeys
  {
    if ts != [] {
      var n := |ts| - 1;
      CardsRead(ts[..n], f, card);
      assert ts == ts[..n] + [ts[n]];
      assert forall t :: t in ts <==> t in ts[..n] || t == ts[n];
      assert InFamily(ts[n], f) <==> IsOf(ts[n], f);
    }
  }

  lemma FamilyRead(r: Row, f: Family)
    ensures HasFamily(r, f) <==> exists t | t in r.tokens :: IsOf(t, f)
  {
    if i :| 0 <= i < |r.tokens| && InFamily(r.tokens[i], f) { assert r.tokens[i] in r.tokens; }
    if t :| t in r.tokens && IsOf(t, f) {
      var i := IndexOf(r.tokens, t);
      assert InFamily(r.tokens[i], f);
    }
  }

  lemma LastSpeaks(rows: seq<Row>, f: Family, offer: string, i: nat)
    requires rows != []
    ensures var n := |rows| - 1;
            SpeaksLast(rows, f, offer, i) <==>
            if rows[n].objectId == offer && HasFamily(rows[n], f) then i == n else SpeaksLast(rows[..n], f, offer, i)
  {
    hide IsOf, HasFamily;
    var n := |rows| - 1;
    FamilyRead(rows[n], f);
    if SpeaksLast(rows[..n], f, offer, i) && !(rows[n].objectId == offer && HasFamily(rows[n], f)) {
      forall j, t | i < j < |rows| && rows[j].objectId == offer && t in rows[j].tokens ensures !IsOf(t, f) {
        if j < n { assert rows[..n][j] == rows[j]; }
      }
    }
    if SpeaksLast(rows, f, offer, i) && i < n {
      forall j, t | i < j < n && rows[..n][j].objectId == offer && t in rows[..n][j].tokens ensures !IsOf(t, f) {
        assert rows[..n][j] == rows[j];
      }
    }
  }

  lemma {:induction false} OffersRead(rows: seq<Row>, f: Family, offer: string)
    ensures offer in CardsByOffer(rows, f) <==> HasToken(rows, f, offer)
    ensures forall i: nat | SpeaksLast(rows, f, offer, i) :: CardsByOffer(rows, f)[offer] == CardsOf(rows[i].tokens, f)
  {
    hide CardsOf, HasFamily, SpeaksLast;
    if rows == [] {
      NobodySpeaks(f, offer);
    } else {
      var n := |rows| - 1;
      OffersRead(rows[..n], f, offer);
      CardsStep(rows, f, offer);
      LastSpeaks(rows, f, offer, n);
      forall i: nat
        ensures SpeaksLast(rows, f, offer, i) <==>
                if rows[n].objectId == offer && HasFamily(rows[n], f) then i == n
                else SpeaksLast(rows[..n], f, offer, i)
        ensures SpeaksLast(rows[..n], f, offer, i) ==> i < n
      {
        LastSpeaks(rows, f, offer, i);
        SpeakerInRange(rows[..n], f, offer, i);
      }
      forall i: nat | SpeaksLast(rows, f, offer, i) ensures CardsByOffer(rows, f)[offer] == CardsOf(rows[i].tokens, f) {
        SpeakerInRange(rows, f, offer, i);
        assert i < n ==> rows[..n][i] == rows[i];
      }
    }
  }

  lemma CardsStep(rows: seq<Row>, f: Family, offer: string)
    requires rows != []
    ensures var n := |rows| - 1;
            var before := CardsByOffer(rows[..n], f);
            if rows[n].objectId == offer && HasFamily(rows[n], f)
            then offer in CardsByOffer(rows, f) && CardsByOffer(rows, f)[offer] == CardsOf(rows[n].tokens, f)
            else (offer in CardsByOffer(rows, f) <==> offer in before)
                 && (offer in before ==> CardsByOffer(rows, f)[offer] == before[offer])
  {
    hide HasFamily, CardsOf;
  }

  lemma NobodySpeaks(f: Family, offer: string)
    ensures forall i: nat :: !SpeaksLast([], f, offer, i)
  {
  }

  lemma SpeakerInRange(rows: seq<Row>, f: Family, offer: string, i: nat)
    ensures SpeaksLast(rows, f, offer, i) ==> i < |rows| && rows[i].objectId == offer
  {
  }

  /** The cards the summary sees for an offer are those its tokens lead to. */
  lemma CardsAre(rows: seq<Row>, f: Family, offer: string, card: string)
    ensures offer in CardsByOffer(rows, f) <==> HasToken(rows, f, offer)
    ensures offer in CardsByOffer(rows, f) && card in CardsByOffer(rows, f)[offer] <==> LeadsTo(rows, f, offer, card)
  {
    hide CardsByOffer, CardsOf, IsOf;
    OffersRead(rows, f, offer);
    if i: nat, t :| SpeaksLast(rows, f, offer, i) && t in rows[i].tokens && IsOf(t, f) && card in t.cardKeys {
      SpeakerInRange(rows, f, offer, i);
      CardsRead(rows[i].tokens, f, card);
    }
    if HasToken(rows, f, offer) {
      var i: nat :| SpeaksLast(rows, f, offer, i);
      SpeakerInRange(rows, f, offer, i);
      CardsRead(rows[i].tokens, f, card);
    }
  }

  // ----- the numbers -----

  ghost function OffersWithToken(rows: seq<Row>, f: Family): set<string> {
    set r | r in rows && HasToken(rows, f, r.objectId) :: r.objectId
  }

  ghost function OffersOnOneCard(rows: seq<Row>, f: Family): set<string> {
    set r | r in rows && (exists c :: IsBridged(rows, f, r.objectId, c)) :: r.objectId
  }

  ghost predicate IsTorn(rows: seq<Row>, f: Family, offer: string) {
    exists c, d :: c != d && LeadsTo(rows, f, offer, c) && LeadsTo(rows, f, offer, d)
  }

  ghost function OffersOnMoreCards(rows: seq<Row>, f: Family): set<string> {
    set r | r in rows && IsTorn(rows, f, r.objectId) :: r.objectId
  }

  /** Two offers have this card and no other. */
  ghost predicate IsShared(rows: seq<Row>, f: Family, card: string) {
    exists a, b :: a != b && IsBridged(rows, f, a, card) && IsBridged(rows, f, b, card)
  }

  ghost function SharedCards(rows: seq<Row>, f: Family): set<string> {
    set r, t, c | r in rows && t in r.tokens && c in t.cardKeys && IsShared(rows, f, c) :: c
  }

  /** The summary counts its family's offers by the cards they lead to; the share is rounded down. */
  ghost predicate Counts(s: Summary, rows: seq<Row>, selected: nat) {
    && OffersWithToken(rows, s.family) != {}
    && s.offersWithToken == |OffersWithToken(rows, s.family)|
    && s.bridged == |OffersOnOneCard(rows, s.family)|
    && s.ambiguous == |OffersOnMoreCards(rows, s.family)|
    && s.missing == selected - s.bridged - s.ambiguous
    && s.collisions == |SharedCards(rows, s.family)|
    && (if selected == 0 then s.coveragePpm == 0
        else s.coveragePpm * selected <= 1_000_000 * s.bridged < (s.coveragePpm + 1) * selected)
  }

  lemma SpeakerIsRow(rows: seq<Row>, f: Family, offer: string)
    requires HasToken(rows, f, offer)
    ensures exists r | r in rows :: r.objectId == offer
  {
    var i: nat :| SpeaksLast(rows, f, offer, i);
    assert rows[i] in rows;
  }

  lemma LeaderHasToken(rows: seq<Row>, f: Family, offer: string, card: string)
    requires LeadsTo(rows, f, offer, card)
    ensures HasToken(rows, f, offer)
    ensures exists r, t | r in rows && t in r.tokens :: card in t.cardKeys
  {
    var i: nat, t :| SpeaksLast(rows, f, offer, i) && t in rows[i].tokens && IsOf(t, f) && card in t.cardKeys;
    assert rows[i] in rows;
  }

  lemma OneMember(s: set<string>)
    ensures |s| == 1 <==> exists c :: s == {c}
  {
    if |s| == 1 { var c := Only(s); }
  }

  lemma MoreMembers(s: set<string>)
    ensures |s| > 1 <==> exists c, d :: c != d && c in s && d in s
  {
    if |s| > 1 { var a, b := TwoOf(s); }
    if c, d :| c != d && c in s && d in s {
      SubsetSize({c, d}, s);
      assert |{c, d}| == 2;
    }
  }

  lemma OnlyMember(s: set<string>, c: string)
    ensures s == {c} <==> c in s && forall d | d in s :: d == c
  {
  }

  lemma OfferCounted(rows: seq<Row>, f: Family, offer: string)
    ensures offer in CardsByOffer(rows, f) <==> offer in OffersWithToken(rows, f)
    ensures offer in Bridged(CardsByOffer(rows, f)) <==> offer in OffersOnOneCard(rows, f)
    ensures offer in Ambiguous(CardsByOffer(rows, f)) <==> offer in OffersOnMoreCards(rows, f)
    ensures forall c :: offer in Bridged(CardsByOffer(rows, f)) && CardsByOffer(rows, f)[offer] == {c}
                        <==> IsBridged(rows, f, offer, c)
  {
    hide CardsByOffer, HasToken, LeadsTo;
    var oc := CardsByOffer(rows, f);
    forall card
      ensures offer in oc <==> HasToken(rows, f, offer)
      ensures offer in oc && card in oc[offer] <==> LeadsTo(rows, f, offer, card)
    {
      CardsAre(rows, f, offer, card);
    }
    if HasToken(rows, f, offer) { SpeakerIsRow(rows, f, offer); }
    if offer in oc {
      OneMember(oc[offer]);
      MoreMembers(oc[offer]);
      forall c ensures oc[offer] == {c} <==> IsBridged(rows, f, offer, c) { OnlyMember(oc[offer], c); }
      if offer in Bridged(oc) {
        var c :| oc[offer] == {c};
        assert IsBridged(rows, f, offer, c);
      }
    }
    if c :| IsBridged(rows, f, offer, c) { assert offer in oc && oc[offer] == {c}; }
  }

  lemma CardsShared(rows: seq<Row>, f: Family)
    ensures Collisions(CardsByOffer(rows, f)) == SharedCards(rows, f)
  {
    hide CardsByOffer, IsBridged, OffersOnOneCard, OffersOnMoreCards, OffersWithToken, SharedCards, Collisions;
    var oc := CardsByOffer(rows, f);
    forall o, c ensures o in BridgedTo(oc, c) <==> IsBridged(rows, f, o, c) { OfferCounted(rows, f, o); }
    forall c ensures c in Collisions(oc) <==> c in SharedCards(rows, f) { CardShared(rows, f, c); }
  }

  lemma CardShared(rows: seq<Row>, f: Family, c: string)
    requires forall o :: o in BridgedTo(CardsByOffer(rows, f), c) <==> IsBridged(rows, f, o, c)
    ensures c in Collisions(CardsByOffer(rows, f)) <==> c in SharedCards(rows, f)
  {
    hide CardsByOffer, IsBridged;
    var oc := CardsByOffer(rows, f);
    MoreMembers(BridgedTo(oc, c));
    if IsShared(rows, f, c) {
      var a, b :| a != b && IsBridged(rows, f, a, c) && IsBridged(rows, f, b, c);
      assert a in BridgedTo(oc, c) && b in BridgedTo(oc, c);
      assert c in oc[a];
      BridgedIsListed(rows, f, a, c);
    }
  }

  lemma BridgedIsListed(rows: seq<Row>, f: Family, offer: string, card: string)
    requires IsBridged(rows, f, offer, card)
    ensures exists r, t | r in rows && t in r.tokens :: card in t.cardKeys
  {
    LeaderHasToken(rows, f, offer, card);
  }

  lemma RoundedDown(b: nat, n: nat, q: int)
    requires n > 0
    ensures q == b * 1_000_000 / n <==> q * n <= 1_000_000 * b < (q + 1) * n
  {
    var p := b * 1_000_000 / n;
    assert p * n <= b * 1_000_000 < p * n + n;
    assert (q + 1) * n == q * n + n;
    if q < p { MulLt(q, p, n); }
    if p < q { MulLt(p, q, n); }
  }

  lemma OccursIff(rows: seq<Row>, f: Family)
    ensures Occurs(rows, f) <==> OffersWithToken(rows, f) != {}
  {
    hide HasFamily, SpeaksLast;
    if n :| 0 <= n < |rows| && HasFamily(rows[n], f) {
      var i := LastSpeaker(rows, f, n);
      SpeakerInRange(rows, f, rows[n].objectId, i);
      assert HasToken(rows, f, rows[n].objectId) && rows[n] in rows;
      assert rows[n].objectId in OffersWithToken(rows, f);
    }
    if offer :| offer in OffersWithToken(rows, f) {
      var i: nat :| SpeaksLast(rows, f, offer, i);
      SpeakerSpeaks(rows, f, offer, i);
      assert HasFamily(rows[i], f);
    }
  }

  lemma SpeakerSpeaks(rows: seq<Row>, f: Family, offer: string, i: nat)
    requires SpeaksLast(rows, f, offer, i)
    ensures i < |rows| && HasFamily(rows[i], f)
  {
    FamilyRead(rows[i], f);
  }

  lemma LastSpeaker(rows: seq<Row>, f: Family, n: nat) returns (i: nat)
    requires n < |rows| && HasFamily(rows[n], f)
    ensures n <= i < |rows| && SpeaksLast(rows, f, rows[n].objectId, i)
    decreases |rows| - n
  {
    if j :| n < j < |rows| && rows[j].objectId == rows[n].objectId && HasFamily(rows[j], f) {
      i := LastSpeaker(rows, f, j);
    } else {
      i := n;
      FamilyRead(rows[n], f);
      forall j, t | n < j < |rows| && rows[j].objectId == rows[n].objectId && t in rows[j].tokens ensures !IsOf(t, f) {
        FamilyRead(rows[j], f);
      }
    }
  }

  /** A summary belongs to the list exactly when its numbers count the offers of a family that has any. */
  lemma SummaryIff(s: Summary, rows: seq<Row>, selected: nat)
    ensures IsSummary(s, rows, selected) <==> Counts(s, rows, selected)
  {
    hide CardsByOffer, Occurs, OffersWithToken, OffersOnOneCard, OffersOnMoreCards, SharedCards, Collisions;
    var f := s.family;
    var oc := CardsByOffer(rows, f);
    forall offer
      ensures offer in oc.Keys <==> offer in OffersWithToken(rows, f)
      ensures offer in Bridged(oc) <==> offer in OffersOnOneCard(rows, f)
      ensures offer in Ambiguous(oc) <==> offer in OffersOnMoreCards(rows, f)
    {
      OfferCounted(rows, f, offer);
    }
    assert oc.Keys == OffersWithToken(rows, f);
    assert Bridged(oc) == OffersOnOneCard(rows, f) && Ambiguous(oc) == OffersOnMoreCards(rows, f);
    CardsShared(rows, f);
    OccursIff(rows, f);
    OffersAccountedFor(f, oc, selected);
    if selected > 0 { RoundedDown(|Bridged(oc)|, selected, s.coveragePpm); }

  }

  // ----- the order, the cut and the decision -----

  /** More bridged offers, then fewer ambiguous ones, then fewer shared cards, then path and kind as text. */
  ghost predicate ComesFirst(a: Summary, b: Summary) {
    || a.bridged > b.bridged
    || (a.bridged == b.bridged && a.ambiguous < b.ambiguous)
    || (a.bridged == b.bridged && a.ambiguous == b.ambiguous && a.collisions < b.collisions)
    || (a.bridged == b.bridged && a.ambiguous == b.ambiguous && a.collisions == b.collisions
        && StrLe(a.family.fieldPath, b.family.fieldPath)
        && (a.family.fieldPath == b.family.fieldPath ==> StrLe(a.family.kind, b.family.kind)))
  }

  lemma OrderRead(a: Summary, b: Summary)
    ensures SummaryLe(a, b) <==> ComesFirst(a, b)
  {
    StrLeTotal(a.family.fieldPath, a.family.fieldPath);
  }

  /** The list of at most 96 summaries: what is on it counts, what counts is on it or comes after all of it. */
  lemma KeptRead(kept: seq<Summary>, rows: seq<Row>, selected: nat)
    requires IsSorted(kept, SummaryLe) && |kept| <= MAX_FAMILIES
    requires forall s | s in kept :: IsSummary(s, rows, selected)
    requires forall s | IsSummary(s, rows, selected) ::
               s in kept || (|kept| == MAX_FAMILIES && forall k | k in kept :: SummaryLe(k, s))
    ensures |kept| <= 96 && forall i, j | 0 <= i < j < |kept| :: ComesFirst(kept[i], kept[j])
    ensures forall s | s in kept :: Counts(s, rows, selected)
    ensures forall s | Counts(s, rows, selected) ::
              s in kept || (|kept| == 96 && forall k | k in kept :: ComesFirst(k, s))
  {
    hide SummaryLe, ComesFirst, Counts, IsSummary;
    forall s ensures IsSummary(s, rows, selected) <==> Counts(s, rows, selected) { SummaryIff(s, rows, selected); }
    forall a, b ensures SummaryLe(a, b) <==> ComesFirst(a, b) { OrderRead(a, b); }
  }

  /** The family leads every selected offer to one card, and no two to the same. */
  ghost predicate IsOneToOne(rows: seq<Row>, f: Family, offers: set<string>) {
    && (forall o | o in offers :: exists c :: IsBridged(rows, f, o, c))
    && forall a, b, c | a in offers && b in offers && IsBridged(rows, f, a, c) && IsBridged(rows, f, b, c) :: a == b
  }

  lemma NoneBridged(rows: seq<Row>, f: Family)
    ensures Bridged(CardsByOffer(rows, f)) == {} <==> forall o, c :: !IsBridged(rows, f, o, c)
  {
    hide CardsByOffer, IsBridged, OffersOnOneCard, OffersOnMoreCards, OffersWithToken;
    var oc := CardsByOffer(rows, f);
    forall o, c ensures o in oc && oc[o] == {c} <==> IsBridged(rows, f, o, c) { OfferCounted(rows, f, o); }
    if o :| o in Bridged(oc) {
      var c := Only(oc[o]);
      assert IsBridged(rows, f, o, c);
    }
    if o, c :| IsBridged(rows, f, o, c) { assert o in Bridged(oc); }
  }

  lemma ExactRead(rows: seq<Row>, f: Family, offers: set<string>)
    requires forall i | 0 <= i < |rows| :: rows[i].objectId in offers
    ensures IsExact(Summarise(f, CardsByOffer(rows, f), |offers|), |offers|) <==> IsOneToOne(rows, f, offers)
  {
    hide CardsByOffer, IsBridged, OffersOnOneCard, OffersOnMoreCards, OffersWithToken, IsExact, Summarise;
    var oc := CardsByOffer(rows, f);
    OffersStaySelected(rows, f, offers);
    ExactIsInjection(f, oc, offers);
    forall o, c ensures o in oc && oc[o] == {c} <==> IsBridged(rows, f, o, c) { OfferCounted(rows, f, o); }
    forall o ensures o in oc && |oc[o]| == 1 <==> exists c :: IsBridged(rows, f, o, c) {
      if o in oc { OneMember(oc[o]); }
    }
    if IsOneToOne(rows, f, offers) {
      forall a, b | a in offers && b in offers && a in oc && b in oc && oc[a] == oc[b] ensures a == b {
        var c :| IsBridged(rows, f, a, c);
        assert oc[b] == {c};
      }
    }
  }

  /** The two questions of the decision: is some family one-to-one, and is any offer bridged at all. */
  lemma DecisionRead(rows: seq<Row>, offers: set<string>)
    requires forall i | 0 <= i < |rows| :: rows[i].objectId in offers
    ensures (exists f :: Occurs(rows, f) && IsExact(Summarise(f, CardsByOffer(rows, f), |offers|), |offers|))
            <==> exists f :: OffersWithToken(rows, f) != {} && IsOneToOne(rows, f, offers)
    ensures (forall f :: Occurs(rows, f) ==> Bridged(CardsByOffer(rows, f)) == {})
            <==> forall f, o, c :: !IsBridged(rows, f, o, c)
  {
    hide CardsByOffer, Occurs, IsOneToOne, IsExact, Summarise, LeadsTo, HasToken;
    forall f
      ensures Occurs(rows, f) <==> OffersWithToken(rows, f) != {}
      ensures IsExact(Summarise(f, CardsByOffer(rows, f), |offers|), |offers|) <==> IsOneToOne(rows, f, offers)
      ensures Bridged(CardsByOffer(rows, f)) == {} <==> forall o, c :: !IsBridged(rows, f, o, c)
    {
      OccursIff(rows, f);
      ExactRead(rows, f, offers);
      NoneBridged(rows, f);
    }
    if f, o, c :| IsBridged(rows, f, o, c) {
      LeaderHasToken(rows, f, o, c);
      SpeakerIsRow(rows, f, o);
    }
  }
}
