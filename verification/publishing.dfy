/** The weekly bridge's output: files are written to a staging directory, which one rename publishes; any I/O
    step may fail, and a blocked receipt is tried when the real output cannot be written. */
module Publishing {
  import opened Foundations

  /** A JSON document, a manifest listing digests and file names, or what a failed write leaves behind. */
  datatype Content = Doc(body: string) | Manifest(lines: set<Line>) | Torn

  datatype Line = Line(digest: Sha<Content>, name: string)

  type Directory = map<string, Content>

  datatype Path = Output(name: string) | Staging(number: nat)

  type Tree = map<Path, Directory>

  const MANIFEST := "MANIFEST.sha256"

  function Lines(docs: Directory): set<Line> {
    set n | n in docs :: Line(Sha(docs[n]), n)
  }

  /** A complete output: the documents and a manifest of exactly these documents. */
  function Complete(docs: Directory): Directory {
    docs[MANIFEST := Manifest(Lines(docs))]
  }

  /** The manifest of a complete output lists every other file with its digest, and nothing else. */
  lemma ManifestListsExactly(docs: Directory, l: Line)
    requires MANIFEST !in docs
    ensures var d := Complete(docs);
            d[MANIFEST].Manifest?
              && (l in d[MANIFEST].lines <==> l.name in d && l.name != MANIFEST && l.digest == Sha(d[l.name]))
  {
  }

  lemma LineOf(docs: Directory, n: string, c: Content)
    ensures Line(Sha(c), n) in Lines(docs) <==> n in docs && docs[n] == c
  {
  }

  /** Equal manifests mean equal outputs: the digests pin down every file. */
  lemma ManifestDeterminesOutput(a: Directory, b: Directory)
    requires MANIFEST !in a && MANIFEST !in b && Complete(a)[MANIFEST] == Complete(b)[MANIFEST]
    ensures a == b
  {
    forall n ensures n in a <==> n in b {
      if n in a { LineOf(a, n, a[n]); LineOf(b, n, a[n]); }
      if n in b { LineOf(a, n, b[n]); LineOf(b, n, b[n]); }
    }
    forall n | n in a ensures a[n] == b[n] { LineOf(a, n, a[n]); LineOf(b, n, a[n]); }
  }

  // ----- the disk -----

  /** Everything that was there is still there, unchanged; only the output and staging directories may be new. */
  ghost predicate OnlyAdds(before: Tree, after: Tree, out: Path) {
    && (forall p | p in before :: p in after && after[p] == before[p])
    && (forall p | p in after && p !in before :: p == out || p.Staging?)
  }

  ghost predicate OnlyStageChanged(before: Tree, after: Tree, stage: Path) {
    after.Keys == before.Keys && forall p | p in before && p != stage :: after[p] == before[p]
  }

  lemma OnlyAddsTransitive(a: Tree, b: Tree, c: Tree, out: Path)
    requires OnlyAdds(a, b, out) && OnlyAdds(b, c, out)
    ensures OnlyAdds(a, c, out)
  {
  }

  ghost predicate NoFaults(faults: nat -> bool, start: nat, count: nat) {
    forall i: nat | start <= i < start + count :: !faults(i)
  }

  class Disk {
    var dirs: Tree
    var tick: nat
    var nextStage: nat
    /** Whether the i-th I/O step of the run fails, and whether a failing write leaves a torn file. */
    const faults: nat -> bool
    const tears: nat -> bool
    const parentOk: bool

    ghost predicate Valid()
      reads this
    {
      forall n: nat | Staging(n) in dirs :: n < nextStage
    }

    /** One I/O step. */
    method Step() returns (ok: bool)
      modifies this`tick
      ensures ok == !faults(old(tick)) && tick == old(tick) + 1
    {
      ok := !faults(tick);
      tick := tick + 1;
    }

    /** Refuses an existing output or an unsafe parent, then makes an empty staging directory beside the output. */
    method NewStage(out: Path) returns (r: Option<Path>)
      requires Valid()
      modifies this
      ensures Valid() && tick >= old(tick)
      ensures r.None? ==> dirs == old(dirs)
      ensures r.Some?
              ==> r.value == Staging(old(nextStage)) && r.value !in old(dirs) && dirs == old(dirs)[r.value := map[]]
      ensures r.Some? <==> out !in old(dirs) && parentOk && NoFaults(faults, old(tick), 3)
      ensures r.Some? ==> tick == old(tick) + 3
    {
      var ok := Step();
      if !ok || out in dirs { return None; }
      ok := Step();
      if !ok || !parentOk { return None; }
      ok := Step();
      if !ok { return None; }
      r := Some(Staging(nextStage));
      dirs := dirs[Staging(nextStage) := map[]];
      nextStage := nextStage + 1;
    }

    /** Writes one file of the stage; a failing write may leave a torn file in it. */
    method WriteFile(stage: Path, name: string, c: Content) returns (ok: bool)
      requires Valid() && stage in dirs
      modifies this`dirs, this`tick
      ensures Valid() && tick == old(tick) + 1 && ok == !faults(old(tick))
      ensures ok ==> dirs == old(dirs)[stage := old(dirs)[stage][name := c]]
      ensures OnlyStageChanged(old(dirs), dirs, stage)
    {
      var torn := tears(tick);
      ok := Step();
      var d := dirs[stage];
      if ok {
        d := d[name := c];
      } else if torn {
        d := d[name := Torn];
      }
      dirs := dirs[stage := d];
    }

    /** Reads a file of the stage back for its digest. */
    method FileDigest(stage: Path, name: string) returns (r: Option<Sha<Content>>)
      requires stage in dirs && name in dirs[stage]
      modifies this`tick
      ensures tick == old(tick) + 1
      ensures r == if faults(old(tick)) then None else Some(Sha(dirs[stage][name]))
    {
      var ok := Step();
      r := if ok then Some(Sha(dirs[stage][name])) else None;
    }

    /** One success file: written, then read back for its manifest line. */
    method WriteListed(stage: Path, name: string, c: Content) returns (line: Option<Line>)
      requires Valid() && stage in dirs
      modifies this`dirs, this`tick
      ensures Valid() && tick >= old(tick)
      ensures OnlyStageChanged(old(dirs), dirs, stage)
      ensures line.Some?
              ==> line.value == Line(Sha(c), name) && dirs == old(dirs)[stage := old(dirs)[stage][name := c]]
                  && tick == old(tick) + 2
      ensures line.Some? <==> NoFaults(faults, old(tick), 2)
    {
      var ok := WriteFile(stage, name, c);
      if !ok { return None; }
      var digest := FileDigest(stage, name);
      if digest.None? { return None; }
      line := Some(Line(digest.value, name));
    }

    /** The success files one by one, with the manifest lines collected on the way. */
    method WriteAllListed(stage: Path, names: seq<string>, docs: Directory) returns (lines: Option<set<Line>>)
      requires Valid() && stage in dirs && dirs[stage] == map[]
      requires forall n :: n in names <==> n in docs
      requires forall i, j | 0 <= i < j < |names| :: names[i] != names[j]
      modifies this`dirs, this`tick
      ensures Valid() && tick >= old(tick)
      ensures OnlyStageChanged(old(dirs), dirs, stage)
      ensures lines.Some?
              ==> dirs == old(dirs)[stage := docs] && tick == old(tick) + 2 * |names| && lines.value == Lines(docs)
      ensures lines.Some? <==> NoFaults(faults, old(tick), 2 * |names|)
    {
      hide Lines, WrittenSoFar, NoFaults;
      var collected: set<Line> := {};
      ghost var written: Directory := map[];
      NoLines();
      NothingWritten(names, docs);
      NoFaultsJoin(faults, tick, 0, 0);
      for i := 0 to |names|
        invariant Valid() && dirs == old(dirs)[stage := written]
        invariant tick == old(tick) + 2 * i && NoFaults(faults, old(tick), 2 * i)
        invariant WrittenSoFar(names, docs, i, written)
        invariant collected == Lines(written)
      {
        NoFaultsJoin(faults, old(tick), 2 * i, 2);
        var line := WriteListed(stage, names[i], docs[names[i]]);
        if line.None? {
          NoFaultsJoin(faults, old(tick), 2 * i + 2, 2 * |names| - 2 * i - 2);
          return None;
        }
        WriteNext(names, docs, i, written);
        AddLine(written, names[i], docs[names[i]]);
        collected := collected + {line.value};
        written := written[names[i] := docs[names[i]]];
      }
      AllWritten(names, docs, written);
      lines := Some(collected);
    }

    /** The success files, then the manifest of all of them. */
    method WriteSuccessFiles(stage: Path, names: seq<string>, docs: Directory) returns (ok: bool)
      requires Valid() && stage in dirs && dirs[stage] == map[]
      requires (forall n :: n in names <==> n in docs) && MANIFEST !in docs
      requires forall i, j | 0 <= i < j < |names| :: names[i] != names[j]
      modifies this`dirs, this`tick
      ensures Valid() && tick >= old(tick)
      ensures OnlyStageChanged(old(dirs), dirs, stage)
      ensures ok ==> dirs == old(dirs)[stage := Complete(docs)] && tick == old(tick) + 2 * |names| + 1
      ensures ok <==> NoFaults(faults, old(tick), 2 * |names| + 1)
    {
      hide Lines;
      var lines := WriteAllListed(stage, names, docs);
      if lines.None? { return false; }
      ok := WriteFile(stage, MANIFEST, Manifest(lines.value));
    }

    /** The receipt, read back for its digest, and its one-line manifest. */
    method WriteReceiptFiles(stage: Path, receipt: Content) returns (ok: bool)
      requires Valid() && stage in dirs && dirs[stage] == map[]
      modifies this`dirs, this`tick
      ensures Valid() && tick >= old(tick)
      ensures OnlyStageChanged(old(dirs), dirs, stage)
      ensures ok ==> dirs == old(dirs)[stage := Complete(Receipt(receipt))]
      ensures ok <==> NoFaults(faults, old(tick), 3)
      ensures ok ==> tick == old(tick) + 3
    {
      ok := WriteFile(stage, RECEIPT, receipt);
      if !ok { return; }
      var digest := FileDigest(stage, RECEIPT);
      if digest.None? { return false; }
      ok := WriteFile(stage, MANIFEST, Manifest({Line(digest.value, RECEIPT)}));
      if ok {
        assert Lines(Receipt(receipt)) == {Line(Sha(receipt), RECEIPT)};
        assert Complete(Receipt(receipt))
               == map[][RECEIPT := receipt][MANIFEST := Manifest({Line(Sha(receipt), RECEIPT)})];
      }
    }

    /** Publishes a stage by one rename, if the output still does not exist. */
    method PublishStage(stage: Path, out: Path) returns (ok: bool)
      requires Valid() && stage in dirs && stage != out && out.Output?
      modifies this`dirs, this`tick
      ensures Valid() && tick >= old(tick)
      ensures !ok ==> dirs == old(dirs)
      ensures ok ==> dirs == (old(dirs) - {stage})[out := old(dirs)[stage]]
      ensures ok <==> out !in old(dirs) && NoFaults(faults, old(tick), 2)
    {
      ok := Step();
      if !ok || out in dirs { return false; }
      ok := Step();
      if !ok { return false; }
      dirs := (dirs - {stage})[out := dirs[stage]];
    }

    /** Writes the whole success output, or publishes nothing. */
    method WriteOutputs(out: Path, names: seq<string>, docs: Directory) returns (ok: bool)
      requires Valid() && out.Output?
      requires (forall n :: n in names <==> n in docs) && MANIFEST !in docs
      requires forall i, j | 0 <= i < j < |names| :: names[i] != names[j]
      modifies this
      ensures Valid() && tick >= old(tick) && OnlyAdds(old(dirs), dirs, out)
      ensures !ok ==> (out in dirs <==> out in old(dirs))
      ensures ok ==> out !in old(dirs) && out in dirs && dirs[out] == Complete(docs)
      ensures ok <==> out !in old(dirs) && parentOk && NoFaults(faults, old(tick), 2 * |names| + 6)
    {
      var stage := NewStage(out);
      if stage.None? { return false; }
      ok := WriteSuccessFiles(stage.value, names, docs);
      if !ok { return; }
      ok := PublishStage(stage.value, out);
    }

    /** Writes the blocked receipt, or publishes nothing. */
    method WriteBlocked(out: Path, receipt: Content) returns (ok: bool)
      requires Valid() && out.Output?
      modifies this
      ensures Valid() && tick >= old(tick) && OnlyAdds(old(dirs), dirs, out)
      ensures !ok ==> (out in dirs <==> out in old(dirs))
      ensures ok ==> out !in old(dirs) && out in dirs && dirs[out] == Complete(Receipt(receipt))
      ensures ok <==> out !in old(dirs) && parentOk && NoFaults(faults, old(tick), 8)
    {
      var stage := NewStage(out);
      if stage.None? { return false; }
      ok := WriteReceiptFiles(stage.value, receipt);
      if !ok { return; }
      ok := PublishStage(stage.value, out);
    }
  }

  /** The files of the first i names. */
  ghost predicate WrittenSoFar(names: seq<string>, docs: Directory, i: nat, written: Directory) {
    && i <= |names|
    && (forall n :: n in written <==> exists j | 0 <= j < i :: names[j] == n)
    && (forall n | n in written :: n in docs && written[n] == docs[n])
  }

  lemma WriteNext(names: seq<string>, docs: Directory, i: nat, written: Directory)
    requires i < |names| && names[i] in docs && WrittenSoFar(names, docs, i, written)
    requires forall i, j | 0 <= i < j < |names| :: names[i] != names[j]
    ensures names[i] !in written && WrittenSoFar(names, docs, i + 1, written[names[i] := docs[names[i]]])
  {
  }

  lemma AllWritten(names: seq<string>, docs: Directory, written: Directory)
    requires WrittenSoFar(names, docs, |names|, written) && forall n :: n in names <==> n in docs
    ensures written == docs
  {
    forall n | n in docs ensures n in written { assert n in names; }
  }

  lemma NothingWritten(names: seq<string>, docs: Directory)
    ensures WrittenSoFar(names, docs, 0, map[])
  {
  }

  lemma NoFaultsJoin(faults: nat -> bool, start: nat, a: nat, b: nat)
    ensures NoFaults(faults, start, 0)
    ensures NoFaults(faults, start, a + b) <==> NoFaults(faults, start, a) && NoFaults(faults, start + a, b)
  {
  }

  lemma NoLines()
    ensures Lines(map[]) == {}
  {
  }

  lemma AddLine(docs: Directory, n: string, c: Content)
    requires n !in docs
    ensures Lines(docs[n := c]) == Lines(docs) + {Line(Sha(c), n)}
  {
    var more := docs[n := c];
    forall l ensures l in Lines(more) <==> l in Lines(docs) + {Line(Sha(c), n)} {
      LineOf(docs, l.name, l.digest.content);
      LineOf(more, l.name, l.digest.content);
    }
  }

  const RECEIPT := "sanitized-result.json"

  function Receipt(c: Content): Directory {
    map[RECEIPT := c]
  }

  // ----- the command's exit ladder -----

  /** How reading the arguments, importing the gates and running the bridge turned out. */
  datatype Run = BadArguments | ImportFailed | Blocked | Crashed | Accepted(names: seq<string>, docs: Directory)

  ghost predicate RunOk(run: Run) {
    run.Accepted? ==>
      && (forall n :: n in run.names <==> n in run.docs) && MANIFEST !in run.docs
      && (forall i, j | 0 <= i < j < |run.names| :: run.names[i] != run.names[j])
  }

  /** The receipt for a run that published no result. */
  function ReceiptFor(run: Run): Content {
    Doc(match run
        case BadArguments => ""
        case ImportFailed => "bridge_startup_import_failed"
        case Blocked => "bridge_validation_failed"
        case Crashed => "bridge_unexpected_exception"
        case Accepted(_, _) => "bridge_output_write_failed")
  }

  /** What a run may leave at the output path, by exit code. */
  ghost predicate Outcome(run: Run, before: Tree, after: Tree, out: Path, code: int) {
    var receipt := Complete(Receipt(ReceiptFor(run)));
    && OnlyAdds(before, after, out)
    && code in {0, 20, 21, 22, 23, 24}
    && (code == 0 ==> run.Accepted? && out !in before && out in after && after[out] == Complete(run.docs))
    && (code in {20, 21, 22} ==> out !in before && out in after && after[out] == receipt)
    && (code == 23
        ==> (run.BadArguments? && after == before)
            || (run.ImportFailed? && out !in before && out in after && after[out] == receipt))
    && (code == 24 ==> (out in after <==> out in before))
    && (code == 20 ==> run.Blocked?) && (code == 21 ==> run.Crashed?) && (code == 22 ==> run.Accepted?)
  }

  /** The exit ladder: success, or a receipt, or nothing, and never a partial output or a changed old one. */
  method RunCommand(disk: Disk, run: Run, out: Path) returns (code: int)
    requires disk.Valid() && out.Output? && RunOk(run)
    modifies disk
    ensures disk.Valid() && Outcome(run, old(disk.dirs), disk.dirs, out, code)
    ensures out in old(disk.dirs) && !run.BadArguments? ==> code == 24
    ensures code == 0 <==> run.Accepted? && out !in old(disk.dirs) && disk.parentOk
                           && NoFaults(disk.faults, old(disk.tick), 2 * |run.names| + 6)
    ensures code == 20 <==> run.Blocked? && out !in old(disk.dirs) && disk.parentOk
                            && NoFaults(disk.faults, old(disk.tick), 8)
    ensures code == 21 <==> run.Crashed? && out !in old(disk.dirs) && disk.parentOk
                            && NoFaults(disk.faults, old(disk.tick), 8)
    ensures code == 23 <==> run.BadArguments?
                            || (run.ImportFailed? && out !in old(disk.dirs) && disk.parentOk
                                && NoFaults(disk.faults, old(disk.tick), 8))
  {
    ghost var start := disk.dirs;
    if run.BadArguments? { return 23; }
    if run.Accepted? {
      var written := disk.WriteOutputs(out, run.names, run.docs);
      if written { return 0; }
    }
    ghost var middle := disk.dirs;
    var ok := disk.WriteBlocked(out, ReceiptFor(run));
    OnlyAddsTransitive(start, middle, disk.dirs, out);
    if !ok { return 24; }
    code := match run
      case ImportFailed => 23
      case Blocked => 20
      case Crashed => 21
      case Accepted(_, _) => 22
      case BadArguments => 23;
  }

  /** Whichever steps fail, a run ends with the full success set, with a receipt, or with nothing new at the output
    * path, and an output that was there before is as it was. */
  lemma OutcomeIsAllOrNothing(run: Run, before: Tree, after: Tree, out: Path, code: int)
    requires Outcome(run, before, after, out, code) && RunOk(run)
    ensures out in before ==> out in after && after[out] == before[out] && code !in {0, 20, 21, 22}
    ensures out !in before && out in after
            ==> exists docs: Directory :: MANIFEST !in docs && after[out] == Complete(docs)
    ensures out !in before && out in after && code != 0 ==> after[out].Keys == {RECEIPT, MANIFEST}
    ensures forall p | p in after && p !in before && p != out :: p.Staging?
  {
    var receipt := Receipt(ReceiptFor(run));
    assert MANIFEST !in receipt by { assert MANIFEST[0] != RECEIPT[0]; }
    if out !in before && out in after {
      var docs := if code == 0 then run.docs else receipt;
      assert after[out] == Complete(docs);
    }
  }

  /** The directory is a receipt with this reason: the result file and a manifest of its digest. */
  ghost predicate IsReceipt(d: Directory, reason: string) {
    && d.Keys == {"sanitized-result.json", "MANIFEST.sha256"}
    && d["sanitized-result.json"] == Doc(reason)
    && d["MANIFEST.sha256"] == Manifest({Line(Sha(Doc(reason)), "sanitized-result.json")})
  }

  lemma ReceiptRead(reason: string)
    ensures IsReceipt(Complete(Receipt(Doc(reason))), reason)
  {
    var d := Receipt(Doc(reason));
    assert MANIFEST !in d by { assert MANIFEST[0] != RECEIPT[0]; }
    NoLines();
    AddLine(map[], RECEIPT, Doc(reason));
    assert d == map[][RECEIPT := Doc(reason)];
  }

  /** Each exit code but the first and the last leaves a receipt with its own reason, or nothing for bad arguments. */
  lemma ReasonsByCode(run: Run, before: Tree, after: Tree, out: Path, code: int)
    requires Outcome(run, before, after, out, code)
    ensures code == 20 ==> out in after && IsReceipt(after[out], "bridge_validation_failed")
    ensures code == 21 ==> out in after && IsReceipt(after[out], "bridge_unexpected_exception")
    ensures code == 22 ==> out in after && IsReceipt(after[out], "bridge_output_write_failed")
    ensures code == 23 && run != BadArguments ==> out in after && IsReceipt(after[out], "bridge_startup_import_failed")
    ensures code == 23 && run == BadArguments ==> after == before
  {
    hide IsReceipt;
    ReceiptRead("bridge_validation_failed");
    ReceiptRead("bridge_unexpected_exception");
    ReceiptRead("bridge_output_write_failed");
    ReceiptRead("bridge_startup_import_failed");
  }
}
