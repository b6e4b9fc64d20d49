/** Exact rollover classification: which old flyer pages survive, move or disappear, by page content digest. */
module Rollover {
  import opened Sorting
  import opened PageNumbers

  datatype Pair = Pair(oldPage: nat, newPage: nat, digest: string)

  datatype Group = Group(digest: string, oldPages: seq<nat>, newPages: seq<nat>)

  datatype Classification = Classification(same: seq<Pair>, matched: nat, moved: seq<Pair>, oldOnly: seq<nat>,
                                           newOnly: seq<nat>, duplicates: seq<Group>)

  predicate NatLe(a: nat, b: nat) { a <= b }

  predicate OldPageLe(a: Pair, b: Pair) { a.oldPage <= b.oldPage }

  predicate PairLe(a: Pair, b: Pair) {
    a.oldPage < b.oldPage || (a.oldPage == b.oldPage && a.newPage <= b.newPage)
  }

  /** One-based page numbers carrying digest d, ascending. */
  function Positions(pages: seq<string>, d: string): seq<nat> {
    if pages == [] then [] else
      Positions(pages[..|pages| - 1], d) + if pages[|pages| - 1] == d then [|pages|] else []
  }

  /** The members of s that are, or are not, in t. */
  function Keep(s: seq<nat>, t: seq<nat>): seq<nat> {
    if s == [] then [] else (if s[0] in t then [s[0]] else []) + Keep(s[1..], t)
  }

  function Drop(s: seq<nat>, t: seq<nat>): (r: seq<nat>)
    ensures |Keep(s, t)| + |r| == |s|
  {
    if s == [] then [] else (if s[0] in t then [] else [s[0]]) + Drop(s[1..], t)
  }

  function Min(a: nat, b: nat): nat { if a <= b then a else b }

  function Zip(a: seq<nat>, b: seq<nat>, d: string): (r: seq<Pair>)
    ensures |r| == Min(|a|, |b|)
    ensures forall i | 0 <= i < |r| :: r[i] == Pair(a[i], b[i], d)
  {
    seq(Min(|a|, |b|), i requires 0 <= i < Min(|a|, |b|) => Pair(a[i], b[i], d))
  }

  // ----- what one digest contributes -----

  function SameOf(before: seq<string>, after: seq<string>, d: string): seq<Pair> {
    var common := Keep(Positions(before, d), Positions(after, d));
    Zip(common, common, d)
  }

  function OldLeft(before: seq<string>, after: seq<string>, d: string): seq<nat> {
    Drop(Positions(before, d), Positions(after, d))
  }

  function NewLeft(before: seq<string>, after: seq<string>, d: string): seq<nat> {
    Drop(Positions(after, d), Positions(before, d))
  }

  function Paired(before: seq<string>, after: seq<string>, d: string): (k: nat)
    ensures k <= |OldLeft(before, after, d)| && k <= |NewLeft(before, after, d)|
  {
    Min(|OldLeft(before, after, d)|, |NewLeft(before, after, d)|)
  }

  function MovedOf(before: seq<string>, after: seq<string>, d: string): seq<Pair> {
    Zip(OldLeft(before, after, d), NewLeft(before, after, d), d)
  }

  function OldOnlyOf(before: seq<string>, after: seq<string>, d: string): seq<nat> {
    OldLeft(before, after, d)[Paired(before, after, d)..]
  }

  function NewOnlyOf(before: seq<string>, after: seq<string>, d: string): seq<nat> {
    NewLeft(before, after, d)[Paired(before, after, d)..]
  }

  function DuplicatesOf(before: seq<string>, after: seq<string>, d: string): seq<Group> {
    var a, b := Positions(before, d), Positions(after, d);
    if |a| > 1 || |b| > 1 then [Group(d, a, b)] else []
  }

  // ----- all digests together -----

  function Flat<T>(ds: seq<string>, f: string -> seq<T>): seq<T> {
    if ds == [] then [] else Flat(ds[..|ds| - 1], f) + f(ds[|ds| - 1])
  }

  function SameFn(before: seq<string>, after: seq<string>): string -> seq<Pair> { d => SameOf(before, after, d) }
  function MovedFn(before: seq<string>, after: seq<string>): string -> seq<Pair> { d => MovedOf(before, after, d) }
  function OldOnlyFn(before: seq<string>, after: seq<string>): string -> seq<nat> { d => OldOnlyOf(before, after, d) }
  function NewOnlyFn(before: seq<string>, after: seq<string>): string -> seq<nat> { d => NewOnlyOf(before, after, d) }
  function DuplicatesFn(before: seq<string>, after: seq<string>): string -> seq<Group> {
    d => DuplicatesOf(before, after, d)
  }

  function Distinct(s: seq<string>): seq<string> {
    if s == [] then [] else
      var seen := Distinct(s[..|s| - 1]);
      seen + if s[|s| - 1] in seen then [] else [s[|s| - 1]]
  }

  /** The sorted union of the digests on either side. */
  function Digests(before: seq<string>, after: seq<string>): seq<string> {
    Sort(Distinct(before + after), StrLe)
  }

  function Classify(before: seq<string>, after: seq<string>): Classification {
    var ds := Digests(before, after);
    var same, moved := Flat(ds, SameFn(before, after)), Flat(ds, MovedFn(before, after));
    Classification(Sort(same, OldPageLe), |same| + |moved|, Sort(moved, PairLe),
                   Sort(Flat(ds, OldOnlyFn(before, after)), NatLe), Sort(Flat(ds, NewOnlyFn(before, after)), NatLe),
                   Flat(ds, DuplicatesFn(before, after)))
  }

  // ----- the classifier as it runs -----

  function At(index: map<string, seq<nat>>, d: string): seq<nat> {
    if d in index then index[d] else []
  }

  lemma PositionsStep(pages: seq<string>, i: nat)
    requires i < |pages|
    ensures forall d ::
              Positions(pages[..i + 1], d)
              == if pages[i] == d then Positions(pages[..i], d) + [i + 1] else Positions(pages[..i], d)
  {
    assert pages[..i + 1][..i] == pages[..i];
  }

  lemma NoPositions()
    ensures forall d :: Positions([], d) == []
  {
  }

  method IndexPages(pages: seq<string>) returns (index: map<string, seq<nat>>)
    ensures forall d :: At(index, d) == Positions(pages, d)
  {
    hide Positions;
    index := map[];
    NoPositions();
    for i := 0 to |pages|
      invariant forall d :: At(index, d) == Positions(pages[..i], d)
    {
      PositionsStep(pages, i);
      ghost var earlier := index;
      index := index[pages[i] := At(index, pages[i]) + [i + 1]];
      forall d ensures At(index, d) == Positions(pages[..i + 1], d) {
        assert At(earlier, d) == Positions(pages[..i], d);
      }
    }
    assert pages[..|pages|] == pages;
  }

  method SortedDigests(before: seq<string>, after: seq<string>) returns (ds: seq<string>)
    ensures ds == Digests(before, after)
  {
    var all := before + after;
    var seen: seq<string> := [];
    for i := 0 to |all|
      invariant seen == Distinct(all[..i])
    {
      assert all[..i + 1][..i] == all[..i];
      if all[i] !in seen { seen := seen + [all[i]]; }
    }
    assert all[..|all|] == all;
    ds := Sort(seen, StrLe);
  }

  /** Python's list.remove: takes out the first occurrence. */
  function RemoveFirst(s: seq<nat>, x: nat): seq<nat>
    requires x in s
  {
    if s[0] == x then s[1..] else [s[0]] + RemoveFirst(s[1..], x)
  }

  lemma {:induction false} DropOneMore(s: seq<nat>, t: seq<nat>, x: nat)
    requires Increasing(s) && x in s && x !in t
    ensures x in Drop(s, t) && RemoveFirst(Drop(s, t), x) == Drop(s, t + [x])
  {
    var rest := s[1..];
    assert s == [s[0]] + rest;
    IncreasingTail(s);
    if s[0] == x {
      DropSame(rest, t, t + [x]);
      assert Drop(s, t) == [x] + Drop(rest, t);
      assert Drop(s, t + [x]) == Drop(rest, t + [x]);
    } else {
      DropOneMore(rest, t, x);
      if s[0] in t {
        assert Drop(s, t) == Drop(rest, t) && Drop(s, t + [x]) == Drop(rest, t + [x]);
      } else {
        assert Drop(s, t) == [s[0]] + Drop(rest, t) && Drop(s, t + [x]) == [s[0]] + Drop(rest, t + [x]);
      }
    }
  }

  /** Drop depends only on which members of s are in the second list. */
  lemma {:induction false} DropSame(s: seq<nat>, t: seq<nat>, u: seq<nat>)
    requires forall y | y in s :: y in t <==> y in u
    ensures Drop(s, t) == Drop(s, u)
  {
    if s != [] {
      assert s[0] in s && forall y | y in s[1..] :: y in s;
      DropSame(s[1..], t, u);
    }
  }

  lemma {:induction false} DropNothing(s: seq<nat>)
    ensures Drop(s, []) == s
  {
    if s != [] { DropNothing(s[1..]); }
  }

  lemma {:induction false} KeepMembers(s: seq<nat>, t: seq<nat>)
    ensures forall x :: x in Keep(s, t) <==> x in s && x in t
    ensures forall x :: x in Drop(s, t) <==> x in s && x !in t
  {
    if s != [] {
      KeepMembers(s[1..], t);
      assert forall x :: x in s <==> x == s[0] || x in s[1..];
    }
  }

  lemma {:induction false} KeepDropMultiset(s: seq<nat>, t: seq<nat>)
    ensures multiset(s) == multiset(Keep(s, t)) + multiset(Drop(s, t))
  {
    if s != [] {
      KeepDropMultiset(s[1..], t);
      HeadTail(s);
    }
  }

  lemma {:induction false} KeepIncreasing(s: seq<nat>, t: seq<nat>)
    requires Increasing(s)
    ensures Increasing(Keep(s, t)) && Increasing(Drop(s, t))
  {
    if s != [] {
      IncreasingTail(s);
      KeepIncreasing(s[1..], t);
      KeepMembers(s[1..], t);
      IncreasingPrepend(s[0], Keep(s[1..], t));
      IncreasingPrepend(s[0], Drop(s[1..], t));
    }
  }

  lemma {:induction false} PositionsAre(pages: seq<string>, d: string)
    ensures Increasing(Positions(pages, d))
    ensures forall p: nat :: p in Positions(pages, d) <==> 1 <= p <= |pages| && pages[p - 1] == d
  {
    if pages != [] {
      var n := |pages| - 1;
      PositionsAre(pages[..n], d);
      forall p: nat ensures p in Positions(pages, d) <==> 1 <= p <= |pages| && pages[p - 1] == d {
        assert p in Positions(pages, d) <==> p in Positions(pages[..n], d) || (p == n + 1 && pages[n] == d);
        if 1 <= p <= n { assert pages[..n][p - 1] == pages[p - 1]; }
      }
      IncreasingAppend(Positions(pages[..n], d), n + 1);
    }
  }

  /** Takes the pages both sides share at the same position out of both lists, one by one. */
  method SplitCommon(oldPages: seq<nat>, newPages: seq<nat>) returns (common: seq<nat>, o: seq<nat>, n: seq<nat>)
    requires Increasing(oldPages) && Increasing(newPages)
    ensures common == Keep(oldPages, newPages)
    ensures o == Drop(oldPages, newPages) && n == Drop(newPages, oldPages)
  {
    hide Keep, Drop, RemoveFirst;
    common, o, n := Keep(oldPages, newPages), oldPages, newPages;
    KeepMembers(oldPages, newPages);
    KeepIncreasing(oldPages, newPages);
    DropNothing(oldPages);
    DropNothing(newPages);
    for i := 0 to |common|
      invariant o == Drop(oldPages, common[..i]) && n == Drop(newPages, common[..i])
    {
      assert common[i] in common && common[i] !in common[..i];
      assert common[..i + 1] == common[..i] + [common[i]];
      DropOneMore(oldPages, common[..i], common[i]);
      DropOneMore(newPages, common[..i], common[i]);
      o := RemoveFirst(o, common[i]);
      n := RemoveFirst(n, common[i]);
    }
    assert common[..|common|] == common;
    DropSame(oldPages, common, newPages);
    DropSame(newPages, common, oldPages);
  }

  /** The body of the loop over digests. */
  method ClassifyDigest(ghost before: seq<string>, ghost after: seq<string>, d: string, oldPages: seq<nat>,
                        newPages: seq<nat>)
    returns (same: seq<Pair>, moved: seq<Pair>, oldOnly: seq<nat>, newOnly: seq<nat>, dups: seq<Group>)
    requires oldPages == Positions(before, d) && newPages == Positions(after, d)
    ensures same == SameOf(before, after, d) && moved == MovedOf(before, after, d)
    ensures oldOnly == OldOnlyOf(before, after, d) && newOnly == NewOnlyOf(before, after, d)
    ensures dups == DuplicatesOf(before, after, d)
  {
    hide Positions, Keep, Drop;
    dups := if |oldPages| > 1 || |newPages| > 1 then [Group(d, oldPages, newPages)] else [];
    PositionsAre(before, d);
    PositionsAre(after, d);
    var common, o, n := SplitCommon(oldPages, newPages);
    var paired := Min(|o|, |n|);
    same := Zip(common, common, d);
    moved := Zip(o[..paired], n[..paired], d);
    oldOnly := o[paired..];
    newOnly := n[paired..];
  }

  method ClassifyRollover(before: seq<string>, after: seq<string>) returns (r: Classification)
    ensures r == Classify(before, after)
  {
    hide SameOf, MovedOf, OldOnlyOf, NewOnlyOf, DuplicatesOf, Positions, Sort, Digests;
    var oldBy := IndexPages(before);
    var newBy := IndexPages(after);
    var ds := SortedDigests(before, after);
    var same: seq<Pair>, moved: seq<Pair>, oldOnly: seq<nat>, newOnly: seq<nat>, dups: seq<Group> := [], [], [], [], [];
    var matched := 0;
    for i := 0 to |ds|
      invariant same == Flat(ds[..i], SameFn(before, after)) && moved == Flat(ds[..i], MovedFn(before, after))
      invariant oldOnly == Flat(ds[..i], OldOnlyFn(before, after)) && newOnly == Flat(ds[..i], NewOnlyFn(before, after))
      invariant dups == Flat(ds[..i], DuplicatesFn(before, after))
      invariant matched == |same| + |moved|
    {
      var s, m, o, n, g := ClassifyDigest(before, after, ds[i], At(oldBy, ds[i]), At(newBy, ds[i]));
      matched := matched + |s| + |m|;
      same, moved, oldOnly, newOnly, dups := same + s, moved + m, oldOnly + o, newOnly + n, dups + g;
      assert ds[..i + 1][..i] == ds[..i];
    }
    assert ds[..|ds|] == ds;
    r := Classification(Sort(same, OldPageLe), matched, Sort(moved, PairLe), Sort(oldOnly, NatLe), Sort(newOnly, NatLe),
                        dups);
  }
}
