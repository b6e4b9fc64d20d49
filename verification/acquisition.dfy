/** Page acquisition: flyer pages are requested in order until enough consecutive requests fail. */
module Acquisition {
  import opened Foundations
  import opened PageNumbers

  datatype AcquireError = Resumed(page: nat) | ZeroPages | BoundaryNotProven | SequenceGap

  /** Pages 1..n answered live and the next `need` pages did not. */
  ghost predicate EndsAfter(live: seq<bool>, n: nat, need: nat) {
    && n + need <= |live|
    && (forall i | 0 <= i < n :: live[i])
    && (forall i | n <= i < n + need :: !live[i])
  }

  /** Pages 1..n answered live and no later one did, however far the loop asks. */
  ghost predicate RunsDry(live: seq<bool>, n: nat) {
    n <= |live| && EndsAfter(live, n, |live| - n)
  }

  /** `live[i]` is whether page i+1 answers; the loop may ask for `maxPages + need` pages at most. A source is
      complete iff some n in 1..maxPages pages are live and the next `need` are not; the pages kept are then
      1..n, exactly n + need requests are made, and the closing gap check never fires. */
  method AcquireSource(live: seq<bool>, maxPages: nat, need: nat)
    returns (r: Result<seq<nat>, AcquireError>, requests: nat)
    requires need >= 1 && |live| == maxPages + need
    ensures r.Ok? <==> exists n :: 1 <= n <= maxPages && EndsAfter(live, n, need)
    ensures r.Ok? ==> r.value == Pages(|r.value|) && EndsAfter(live, |r.value|, need) && requests == |r.value| + need
    ensures r.Err? ==> !r.error.SequenceGap?
    ensures r == Err(ZeroPages) <==> EndsAfter(live, 0, need)
    ensures r == Err(BoundaryNotProven) <==> exists n :: maxPages < n && RunsDry(live, n)
    ensures r.Err? && r.error.Resumed?
            ==> 1 < r.error.page <= |live| && live[r.error.page - 1] && !live[r.error.page - 2]
    ensures requests <= maxPages + need
  {
    var pages: seq<nat>, terminal: seq<nat> := [], [];
    var consecutive, page := 0, 1;
    while page <= maxPages + need
      invariant 1 <= page <= maxPages + need + 1
      invariant pages == Pages(|pages|) && consecutive == |terminal| < need
      invariant |pages| + consecutive == page - 1
      invariant EndsAfter(live, |pages|, consecutive)
      decreases maxPages + need - page
    {
      if live[page - 1] {
        if consecutive > 0 {
          ResumedIsIncomplete(live, |pages|, consecutive, need);
          return Err(Resumed(page)), page;
        }
        pages := pages + [page];
      } else {
        consecutive := consecutive + 1;
        terminal := terminal + [page];
        assert EndsAfter(live, |pages|, consecutive);
        if consecutive >= need { break; }
      }
      page := page + 1;
    }
    requests := if page <= maxPages + need then page else page - 1;
    EndIsKnown(live, |pages|, consecutive, need);
    if pages == [] {
      return Err(ZeroPages), requests;
    }
    if |terminal| < need {
      assert RunsDry(live, |pages|);
      return Err(BoundaryNotProven), requests;
    }
    if pages != Pages(|pages|) {
      return Err(SequenceGap), requests;
    }
    return Ok(pages), requests;
  }

  /** The live prefix is unique once a dead page follows it. */
  lemma EndIsUnique(live: seq<bool>, n: nat, k: nat, m: nat, l: nat)
    requires EndsAfter(live, n, k) && EndsAfter(live, m, l)
    requires m < n ==> l >= 1
    requires n < m ==> k >= 1
    ensures m == n
  {
    if m < n { LiveAt(live, n, k, m); } else if n < m { LiveAt(live, m, l, n); }
  }

  lemma LiveAt(live: seq<bool>, n: nat, k: nat, i: nat)
    requires EndsAfter(live, n, k) && i < n
    ensures live[i]
  {
  }

  /** At most one page count can complete a source. */
  lemma PageCountIsUnique(live: seq<bool>, need: nat, n: nat, m: nat)
    requires need >= 1 && EndsAfter(live, n, need) && EndsAfter(live, m, need)
    ensures n == m
  {
    EndIsUnique(live, n, need, m, need);
  }

  /** After n live pages and k dead ones, with the loop over, n is the only page count left. */
  lemma EndIsKnown(live: seq<bool>, n: nat, k: nat, need: nat)
    requires EndsAfter(live, n, k) && need >= 1 && (k >= 1 || n == |live|)
    ensures forall m :: EndsAfter(live, m, need) ==> m == n
    ensures forall m :: RunsDry(live, m) ==> m == n
  {
    forall m: nat | EndsAfter(live, m, need) ensures m == n { EndIsUnique(live, n, k, m, need); }
    forall m: nat | RunsDry(live, m) ensures m == n { EndIsUnique(live, n, k, m, |live| - m); }
  }

  /** A page that answers after fewer failures than needed rules out every way of completing. */
  lemma ResumedIsIncomplete(live: seq<bool>, n: nat, k: nat, need: nat)
    requires EndsAfter(live, n, k) && 1 <= k < need && n + k < |live| && live[n + k]
    ensures forall m :: !EndsAfter(live, m, need)
    ensures forall m :: !RunsDry(live, m)
  {
    forall m: nat ensures !EndsAfter(live, m, need) {
      if EndsAfter(live, m, need) { EndIsUnique(live, n, k, m, need); }
    }
    forall m: nat ensures !RunsDry(live, m) {
      if RunsDry(live, m) { EndIsUnique(live, n, k, m, |live| - m); }
    }
  }
}
