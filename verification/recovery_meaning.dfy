/** Complete page families, their identities and the hashing budget, said of the bytes and the file names. */
module RecoveryMeaning {
  import opened Foundations
  import opened Sorting
  import opened RecoveryInventory
  import opened RecoverySources
  import opened RecoveryDecision

  // ----- page images -----

  ghost predicate StartsWith(data: Bytes, start: Bytes) {
    |data| >= |start| && forall i | 0 <= i < |start| :: data[i] == start[i]
  }

  /** The format by the file's first bytes; a WebP file carries its length between its two marks. */
  ghost predicate HasFormat(data: Bytes, f: Format) {
    match f
    case Jpeg => StartsWith(data, [0xff, 0xd8])
    case Png => StartsWith(data, [0x89, 0x50, 0x4e, 0x47, 0x0d, 0x0a, 0x1a, 0x0a])
    case Webp => StartsWith(data, [0x52, 0x49, 0x46, 0x46]) && |data| >= 12
                 && data[8] == 0x57 && data[9] == 0x45 && data[10] == 0x42 && data[11] == 0x50
  }

  /** Between ten thousand bytes and 32 MiB, of a known format. */
  ghost predicate IsPageImage(data: Bytes) {
    10_000 <= |data| <= 33_554_432 && exists f :: HasFormat(data, f)
  }

  lemma Starts(data: Bytes, start: Bytes)
    ensures StartsWith(data, start) <==> start <= data
  {
    if StartsWith(data, start) { assert data[..|start|] == start; }
  }

  lemma FormatsAreApart(data: Bytes, f: Format)
    ensures HasFormat(data, f) <==> ImageFormat(data) == Some(f)
  {
    Starts(data, JPEG_START);
    Starts(data, PNG_START);
    Starts(data, RIFF);
    if |data| >= 12 { assert data[8..12] == [data[8], data[9], data[10], data[11]]; }
    assert StartsWith(data, JPEG_START) ==> data[0] == 0xff;
    assert StartsWith(data, PNG_START) ==> data[0] == 0x89;
    assert StartsWith(data, RIFF) ==> data[0] == 0x52;
  }

  /** A file passes at its expected length exactly when it is a page image of that length; the result names its
    * digest and its one format. */
  lemma CheckedIffImage(data: Bytes, expected: int)
    ensures CheckWhole(data, expected).Some? <==> IsPageImage(data) && |data| == expected
    ensures CheckWhole(data, expected).Some? ==>
              CheckWhole(data, expected).value.0 == Sha(data)
              && forall f :: HasFormat(data, f) <==> f == CheckWhole(data, expected).value.1
  {
    hide ImageFormat, HasFormat;
    forall f ensures HasFormat(data, f) <==> ImageFormat(data) == Some(f) { FormatsAreApart(data, f); }
  }

  // ----- page families -----

  /** Pages 1 to n, no others, each a page image. */
  ghost predicate IsFullSide(files: PageFiles, n: nat) {
    && (forall p :: p in files <==> 1 <= p <= n)
    && forall p | p in files :: files[p].Some? && IsPageImage(files[p].value)
  }

  ghost predicate IsFullFamily(f: PageFamily) {
    IsFullSide(f.current, 49) && IsFullSide(f.preview, 41)
  }

  ghost predicate IsRowOf(r: PageRow, side: Side, page: nat, data: Bytes) {
    r.side == side && r.page == page && r.size == |data| && r.digest == Sha(data) && HasFormat(data, r.format)
  }

  lemma SideIff(s: Side, files: PageFiles)
    ensures SideComplete(s, files) <==> IsFullSide(files, SideSize(s))
  {
    hide CheckWhole, IsPageImage;
    forall p | p in files && files[p].Some?
      ensures ValidImage(files[p].value) <==> IsPageImage(files[p].value)
    {
      CheckedIffImage(files[p].value, |files[p].value|);
    }
  }

  lemma RowRead(s: Side, page: nat, data: Bytes)
    requires IsPageImage(data)
    ensures ValidImage(data) && IsRowOf(RowFor(s, page, data), s, page, data)
  {
    hide HasFormat, ImageFormat;
    CheckedIffImage(data, |data|);
    FormatsAreApart(data, ImageFormat(data).value);
  }

  /** Exactly the full families have an identity: a digest over their ninety page rows in order. */
  lemma IdentityRows(f: PageFamily)
    ensures FamilyIdentity(f).Some? <==> IsFullFamily(f)
    ensures IsFullFamily(f) ==>
              var rows := FamilyIdentity(f).value.content;
              && |rows| == 90
              && (forall p | 1 <= p <= 49 :: IsRowOf(rows[p - 1], CurrentSide, p, f.current[p].value))
              && forall p | 1 <= p <= 41 :: IsRowOf(rows[48 + p], PreviewSide, p, f.preview[p].value)
  {
    hide RowFor, IsRowOf, ValidImage, IsPageImage;
    SideIff(CurrentSide, f.current);
    SideIff(PreviewSide, f.preview);
    if IsFullFamily(f) {
      forall p | 1 <= p <= 49
        ensures ValidImage(f.current[p].value)
        ensures IsRowOf(RowFor(CurrentSide, p, f.current[p].value), CurrentSide, p, f.current[p].value)
      {
        RowRead(CurrentSide, p, f.current[p].value);
      }
      forall p | 1 <= p <= 41
        ensures ValidImage(f.preview[p].value)
        ensures IsRowOf(RowFor(PreviewSide, p, f.preview[p].value), PreviewSide, p, f.preview[p].value)
      {
        RowRead(PreviewSide, p, f.preview[p].value);
      }
    }
  }

  // ----- where families are found -----

  /** The entry is the file of that page. */
  ghost predicate IsPageFile(e: Entry, p: nat) {
    p < 1000 && e.name == "page-" + Pad3(p) + ".img"
  }

  /** The files are what the listing's page names say, and no more. */
  ghost predicate IsListingOf(es: seq<Entry>, files: PageFiles) {
    && (forall p | p in files :: exists e | e in es :: IsPageFile(e, p))
    && forall e, p | e in es && IsPageFile(e, p) :: p in files && files[p] == e.data
  }

  lemma PageFileIff(e: Entry, p: nat)
    ensures IsPageFile(e, p) <==> PageNumber(e.name) == Some(p)
  {
    hide Pad3, Parse3;
    if IsPageFile(e, p) {
      assert e.name[5..8] == Pad3(p) && e.name[8..] == ".img" && e.name[..5] == "page-";
      Pad3RoundTrip(p, "");
    }
    if PageNumber(e.name) == Some(p) {
      Parse3Bound(e.name[5..8]);
      Pad3RoundTrip(p, e.name[5..8]);
      assert e.name == e.name[..5] + e.name[5..8] + e.name[8..];
    }
  }

  lemma ListingIff(es: seq<Entry>, files: PageFiles)
    ensures IsListingOf(es, files) <==> Lists(es, files)
  {
    hide PageNumber, IsPageFile;
    forall e, p: nat ensures IsPageFile(e, p) <==> PageNumber(e.name) == Some(p) { PageFileIff(e, p); }
    if IsListingOf(es, files) {
      forall p ensures p in files <==> exists i | 0 <= i < |es| :: PageNumber(es[i].name) == Some(p) {
        if p in files {
          var e :| e in es && IsPageFile(e, p);
          var i := IndexOf(es, e);
        }
        if i :| 0 <= i < |es| && PageNumber(es[i].name) == Some(p) { assert es[i] in es && IsPageFile(es[i], p); }
      }
      forall i | 0 <= i < |es| && PageNumber(es[i].name).Some?
        ensures files[PageNumber(es[i].name).value] == es[i].data
      {
        assert es[i] in es && IsPageFile(es[i], PageNumber(es[i].name).value);
      }
    }
    if Lists(es, files) {
      forall p | p in files ensures exists e | e in es :: IsPageFile(e, p) {
        var i := ListedPage(es, files, p);
        assert es[i] in es && IsPageFile(es[i], p);
      }
      forall e, p | e in es && IsPageFile(e, p) ensures p in files && files[p] == e.data {
        var i := IndexOf(es, e);
        assert PageNumber(es[i].name) == Some(p);
      }
    }
  }

  /** The directory's page files are these. */
  lemma OneListing(es: seq<Entry>, files: PageFiles)
    requires UniqueNames(es)
    ensures IsListingOf(es, files) <==> files == FilesOf(es)
  {
    hide PageNumber, FilesOf;
    FilesAreListed(es);
    ListingIff(es, files);
    if Lists(es, files) {
      var g := FilesOf(es);
      forall p ensures p in files <==> p in g {}
      forall p | p in files ensures files[p] == g[p] { var i := ListedPage(es, files, p); }
    }
  }

  // ----- the hashing budget -----

  ghost predicate HasPages(m: map<nat, Bytes>, n: nat) {
    forall p :: p in m <==> 1 <= p <= n
  }

  /** Both sides have all their pages and no others, whatever the pages hold. */
  ghost predicate HasAllNinety(g: Group) {
    HasPages(g.current, 49) && HasPages(g.preview, 41)
  }

  ghost function PageBytes(m: map<nat, Bytes>, n: nat): Bytes
    requires HasPages(m, n)
  {
    Concat(seq(n, i requires 0 <= i < n => m[i + 1]))
  }

  lemma NothingConcat()
    ensures Concat([]) == []
  {
  }

  lemma ConcatLast(chunks: seq<Bytes>, b: Bytes)
    ensures |Concat(chunks + [b])| == |Concat(chunks)| + |b|
  {
    assert (chunks + [b])[..|chunks|] == chunks;
  }

  lemma SizeOfLast(m: map<nat, Bytes>, n: nat)
    requires forall p | 1 <= p <= n + 1 :: p in m
    ensures SizeUpTo(m, n + 1) == SizeUpTo(m, n) + |m[n + 1]|
  {
  }

  lemma {:induction false} SizesAreLengths(m: map<nat, Bytes>, chunks: seq<Bytes>)
    requires forall i | 0 <= i < |chunks| :: i + 1 in m && chunks[i] == m[i + 1]
    requires forall p | 1 <= p <= |chunks| :: p in m
    ensures SizeUpTo(m, |chunks|) == |Concat(chunks)|
  {
    hide Concat;
    assert Concat([]) == [] by { NothingConcat(); }
    if chunks != [] {
      var n := |chunks| - 1;
      SizesAreLengths(m, chunks[..n]);
      SizeOfLast(m, n);
      ConcatLast(chunks[..n], chunks[n]);
      assert chunks == chunks[..n] + [chunks[n]];
    }
  }

  lemma {:induction false} BudgetAdds(a: seq<Group>, b: seq<Group>)
    ensures BudgetUsed(a + b) == BudgetUsed(a) + BudgetUsed(b)
  {
    hide IsCandidate, CandidateBytes;
    if b == [] {
      assert a + b == a;
    } else {
      var n := |b| - 1;
      assert (a + b)[..|a| + n] == a + b[..n];
      BudgetAdds(a, b[..n]);
    }
  }

  /** The budget counts the bytes of all pages of the groups that have all ninety, and nothing of the others. */
  lemma BudgetOfGroup(g: Group)
    ensures HasAllNinety(g) ==> BudgetUsed([g]) == |PageBytes(g.current, 49)| + |PageBytes(g.preview, 41)|
    ensures !HasAllNinety(g) ==> BudgetUsed([g]) == 0
  {
    hide HasAllPages, SizeUpTo, Concat;
    AllPages(g.current, 49);
    AllPages(g.preview, 41);
    assert [g][..0] == [];
    assert BudgetUsed([]) == 0;
    assert BudgetUsed([g]) == if IsCandidate(g) then CandidateBytes(g) else 0;
    if HasAllNinety(g) {
      SizesAreLengths(g.current, seq(49, i requires 0 <= i < 49 => g.current[i + 1]));
      SizesAreLengths(g.preview, seq(41, i requires 0 <= i < 41 => g.preview[i + 1]));
    }
  }

  // ----- what counts -----

  /** The pages of an archive group, all regular files. */
  ghost predicate IsGroup(g: Group, f: PageFamily) {
    && (forall p :: p in f.current <==> p in g.current)
    && (forall p | p in f.current :: f.current[p] == Some(g.current[p]))
    && (forall p :: p in f.preview <==> p in g.preview)
    && (forall p | p in f.preview :: f.preview[p] == Some(g.preview[p]))
  }

  /** A full family of page images, listed by the directory, or a group of an archive that is safe, not excluded and
    * within the budget of one GiB. */
  ghost predicate IsHeld(s: RawSource, f: PageFamily) {
    && IsFullFamily(f)
    && match s
       case RawDirectory(current, preview) => IsListingOf(current, f.current) && IsListingOf(preview, f.preview)
       case RawArchive(isA21, safe, gs) =>
         !isA21 && safe && BudgetUsed(gs) <= 1_073_741_824 && exists g | g in gs :: IsGroup(g, f)
  }

  lemma GroupIff(g: Group, f: PageFamily)
    ensures IsGroup(g, f) <==> f == AsFamily(g)
  {
    if IsGroup(g, f) {
      assert f.current == AsFiles(g.current);
      assert f.preview == AsFiles(g.preview);
    }
  }

  lemma HeldIff(s: RawSource, f: PageFamily)
    requires Readable(s)
    ensures HoldsFamily(s, f) <==> IsHeld(s, f)
  {
    hide FilesOf, IsListingOf, IsGroup, AsFamily, IsFullSide, SideComplete, BudgetUsed;
    SideIff(CurrentSide, f.current);
    SideIff(PreviewSide, f.preview);
    match s
    case RawDirectory(current, preview) =>
      OneListing(current, f.current);
      OneListing(preview, f.preview);
    case RawArchive(isA21, safe, gs) =>
      forall g ensures IsGroup(g, f) <==> f == AsFamily(g) { GroupIff(g, f); }
      if i :| 0 <= i < |gs| && f == AsFamily(gs[i]) { assert gs[i] in gs; }
      if g :| g in gs && IsGroup(g, f) { var i := IndexOf(gs, g); }
  }

  /** The families found are the families held. */
  lemma FoundIff(ss: seq<RawSource>, f: PageFamily)
    requires forall i | 0 <= i < |ss| :: Readable(ss[i])
    ensures Found(ss, f) <==> exists i | 0 <= i < |ss| :: IsHeld(ss[i], f)
  {
    hide HoldsFamily, IsHeld, Readable;
    forall i | 0 <= i < |ss| ensures HoldsFamily(ss[i], f) <==> IsHeld(ss[i], f) { HeldIff(ss[i], f); }
  }
}
