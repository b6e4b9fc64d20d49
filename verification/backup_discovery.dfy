/** Explicit backup inputs as disjoint parts of the file tree, and the decision drawn from what they hold. */
module BackupDiscovery {
  import opened Sorting
  import opened Formats

  /** An absolute path as its components below the root directory. */
  type Path = seq<string>

  datatype Kind = Directory | RegularFile | Absent

  datatype Input = Input(id: string, path: Path)

  /** Version two adds the list of exact files; paths are resolved and free of links and parent steps. */
  datatype Request = Request(versionTwo: bool, complete: bool, roots: seq<Input>, files: seq<Input>)

  const MAX_INPUTS: nat := 8

  const STATE_ROOT: Path := ["home", "andris", ".local", "state", "hermes-deals", "aldi-perfect-shadow"]

  predicate ValidInputId(s: string) {
    1 <= |s| <= 64 && IsLowerOrDigit(s[0]) && forall i | 0 <= i < |s| :: IsLowerOrDigit(s[i]) || s[i] in "._-"
  }

  /** x lies strictly below d, Python's `d in x.parents`. */
  predicate Below(x: Path, d: Path) {
    d < x
  }

  predicate TooBroad(p: Path) {
    p == [] || p == ["home"] || p == ["home", "andris"]
  }

  predicate RootPathOk(kind: Path -> Kind, p: Path) {
    kind(p).Directory? && !TooBroad(p) && p != STATE_ROOT
  }

  predicate FilePathOk(kind: Path -> Kind, p: Path) {
    && kind(p).RegularFile? && p != []
    && (EndsWith(p[|p| - 1], ".tar.gz") || EndsWith(p[|p| - 1], ".tgz"))
    && p != STATE_ROOT && !Below(p, STATE_ROOT)
  }

  function IdOf(i: Input): string {
    i.id
  }

  predicate InputLe(a: Input, b: Input) {
    StrLe(a.id, b.id)
  }

  predicate Apart(a: Path, b: Path) {
    a != b && !Below(a, b) && !Below(b, a)
  }

  ghost predicate RootsOk(kind: Path -> Kind, r: Request) {
    && (forall i | 0 <= i < |r.roots| :: ValidInputId(r.roots[i].id) && RootPathOk(kind, r.roots[i].path))
    && (forall i, j | 0 <= i < j < |r.roots| :: Apart(r.roots[i].path, r.roots[j].path))
  }

  ghost predicate FilesOk(kind: Path -> Kind, r: Request) {
    && (forall i | 0 <= i < |r.files| :: ValidInputId(r.files[i].id) && FilePathOk(kind, r.files[i].path))
    && (forall i, j | 0 <= i < j < |r.files| :: r.files[i].path != r.files[j].path)
    && (forall i, j | 0 <= i < |r.files| && 0 <= j < |r.roots| :: !Below(r.files[i].path, r.roots[j].path))
  }

  ghost predicate RequestOk(kind: Path -> Kind, r: Request) {
    && (r.versionTwo || r.files == [])
    && 1 <= |r.roots| + |r.files| <= MAX_INPUTS
    && NoDup(Map(r.roots + r.files, IdOf))
    && RootsOk(kind, r) && FilesOk(kind, r)
  }

  // ----- validation as it runs -----

  /** The IDs of the first i inputs, roots before files. */
  ghost predicate IdsSeen(ids: set<string>, all: seq<Input>, i: nat)
    requires i <= |all|
  {
    NoDup(Map(all[..i], IdOf)) && forall s :: s in ids <==> s in Map(all[..i], IdOf)
  }

  lemma NothingSeen(all: seq<Input>)
    ensures IdsSeen({}, all, 0)
  {
  }

  lemma SeeOne(ids: set<string>, all: seq<Input>, i: nat)
    requires i < |all| && IdsSeen(ids, all, i)
    ensures all[i].id in ids ==> !NoDup(Map(all, IdOf))
    ensures all[i].id !in ids ==> IdsSeen(ids + {all[i].id}, all, i + 1)
  {
    var before := Map(all[..i], IdOf);
    assert Map(all[..i + 1], IdOf) == before + [all[i].id];
    NoDupAppend(before, all[i].id);
    if all[i].id in ids {
      var j := IndexOf(before, all[i].id);
      assert Map(all, IdOf)[j] == Map(all, IdOf)[i];
    }
  }

  method ReadRoots(kind: Path -> Kind, r: Request) returns (ok: bool, ids: set<string>)
    ensures ok ==> IdsSeen(ids, r.roots + r.files, |r.roots|)
    ensures ok ==> RootsOk(kind, r)
    ensures !ok ==> !RequestOk(kind, r)
  {
    hide ValidInputId, RootPathOk, FilePathOk, IdsSeen, NoDup;
    ghost var all := r.roots + r.files;
    ids := {};
    var resolved: set<Path> := {};
    NothingSeen(all);
    for i := 0 to |r.roots|
      invariant IdsSeen(ids, all, i)
      invariant forall p :: p in resolved <==> exists j | 0 <= j < i :: r.roots[j].path == p
      invariant forall j | 0 <= j < i :: ValidInputId(r.roots[j].id) && RootPathOk(kind, r.roots[j].path)
      invariant forall j, k | 0 <= j < k < i :: Apart(r.roots[j].path, r.roots[k].path)
    {
      var input := r.roots[i];
      assert all[i] == input;
      SeeOne(ids, all, i);
      if !ValidInputId(input.id) || input.id in ids { return false, ids; }
      ids := ids + {input.id};
      if !RootPathOk(kind, input.path) { return false, ids; }
      if input.path in resolved { return false, ids; }
      for j := 0 to i
        invariant forall k | 0 <= k < j :: Apart(r.roots[k].path, input.path)
      {
        if Below(r.roots[j].path, input.path) || Below(input.path, r.roots[j].path) { return false, ids; }
      }
      resolved := resolved + {input.path};
    }
    ok := true;
  }

  method ReadFiles(kind: Path -> Kind, r: Request, seen: set<string>) returns (ok: bool)
    requires IdsSeen(seen, r.roots + r.files, |r.roots|)
    ensures ok ==> NoDup(Map(r.roots + r.files, IdOf))
    ensures ok ==> FilesOk(kind, r)
    ensures !ok ==> !RequestOk(kind, r)
  {
    hide ValidInputId, RootPathOk, FilePathOk, IdsSeen, NoDup;
    ghost var all := r.roots + r.files;
    var ids := seen;
    var resolved: set<Path> := {};
    for i := 0 to |r.files|
      invariant IdsSeen(ids, all, |r.roots| + i)
      invariant forall p :: p in resolved <==> exists j | 0 <= j < i :: r.files[j].path == p
      invariant forall j | 0 <= j < i :: ValidInputId(r.files[j].id) && FilePathOk(kind, r.files[j].path)
      invariant forall j, k | 0 <= j < k < i :: r.files[j].path != r.files[k].path
      invariant forall j, k | 0 <= j < i && 0 <= k < |r.roots| :: !Below(r.files[j].path, r.roots[k].path)
    {
      var input := r.files[i];
      assert all[|r.roots| + i] == input;
      SeeOne(ids, all, |r.roots| + i);
      if !ValidInputId(input.id) || input.id in ids { return false; }
      ids := ids + {input.id};
      if !FilePathOk(kind, input.path) { return false; }
      if input.path in resolved { return false; }
      for j := 0 to |r.roots|
        invariant forall k | 0 <= k < j :: !Below(input.path, r.roots[k].path)
      {
        if Below(input.path, r.roots[j].path) { return false; }
      }
      resolved := resolved + {input.path};
    }
    AllSeen(ids, all);
    ok := true;
  }

  lemma AllSeen(ids: set<string>, all: seq<Input>)
    requires IdsSeen(ids, all, |all|)
    ensures NoDup(Map(all, IdOf))
  {
    assert all[..|all|] == all;
  }

  method ValidateRequest(kind: Path -> Kind, r: Request) returns (ok: bool, roots: seq<Input>, files: seq<Input>)
    ensures ok <==> RequestOk(kind, r)
    ensures ok ==> roots == Sort(r.roots, InputLe) && files == Sort(r.files, InputLe)
  {
    hide RootsOk, FilesOk, IdsSeen, NoDup, InputLe;
    roots, files := [], [];
    if !r.versionTwo && r.files != [] { return false, roots, files; }
    if |r.roots| + |r.files| == 0 || |r.roots| + |r.files| > MAX_INPUTS { return false, roots, files; }
    var good, ids := ReadRoots(kind, r);
    if !good { return false, roots, files; }
    ok := ReadFiles(kind, r, ids);
    if ok { roots, files := Sort(r.roots, InputLe), Sort(r.files, InputLe); }
  }

  // ----- disjoint parts of the tree -----

  /** x is d itself or lies below it. */
  predicate Within(x: Path, d: Path) {
    d <= x
  }

  lemma ProperPrefix(d: Path, x: Path)
    requires d <= x
    ensures d == x || d < x
  {
    assert x[..|x|] == x;
  }

  /** Two directories above the same path are comparable. */
  lemma PrefixesNest(a: Path, b: Path, x: Path)
    requires a <= x && b <= x
    ensures a == b || a < b || b < a
  {
    if |a| <= |b| {
      assert b[..|a|] == x[..|a|] == a;
      ProperPrefix(a, b);
    } else {
      assert a[..|b|] == x[..|b|] == b;
      ProperPrefix(b, a);
    }
  }

  /** The pairwise test on root paths says exactly that the two subtrees share no path. */
  lemma ApartIffDisjoint(a: Path, b: Path)
    ensures Apart(a, b) <==> forall x :: !(Within(x, a) && Within(x, b))
  {
    if Apart(a, b) {
      forall x ensures !(Within(x, a) && Within(x, b)) {
        if Within(x, a) && Within(x, b) { PrefixesNest(a, b, x); }
      }
    } else {
      assert Within(a, a) && Within(b, b);
      assert (Within(a, a) && Within(a, b)) || (Within(b, a) && Within(b, b));
    }
  }

  /** In an accepted request every path belongs to at most one input: roots are disjoint subtrees and no exact file
    * lies in any of them. */
  lemma InputsAreDisjoint(kind: Path -> Kind, r: Request, x: Path, i: nat, j: nat)
    requires RequestOk(kind, r)
    ensures i < |r.roots| && j < |r.roots| && Within(x, r.roots[i].path) && Within(x, r.roots[j].path) ==> i == j
    ensures i < |r.files| && j < |r.roots| ==> !Within(r.files[i].path, r.roots[j].path)
    ensures i < |r.files| && j < |r.files| && r.files[i].path == r.files[j].path ==> i == j
  {
    hide ValidInputId, NoDup;
    if i < |r.roots| && j < |r.roots| && i != j {
      ApartIffDisjoint(r.roots[i].path, r.roots[j].path);
    }
    if i < |r.files| && j < |r.roots| {
      assert kind(r.files[i].path) != kind(r.roots[j].path);
      if Within(r.files[i].path, r.roots[j].path) { ProperPrefix(r.roots[j].path, r.files[i].path); }
    }
  }
}
