/** The recovery inventory: streamed page images, complete page families in directories and archives, and the
  * decision. */
module RecoveryInventory {
  import opened Foundations
  import opened Sorting
  import opened ZeroPadding

  type Byte = b: int | 0 <= b < 256

  type Bytes = seq<Byte>

  datatype Format = Jpeg | Png | Webp

  const MIN_IMAGE := 10_000
  const MAX_IMAGE := 32 * 1024 * 1024
  const MAX_HASHED := 1024 * 1024 * 1024

  const JPEG_START: Bytes := [0xff, 0xd8]
  const PNG_START: Bytes := [0x89, 0x50, 0x4e, 0x47, 0x0d, 0x0a, 0x1a, 0x0a]
  const RIFF: Bytes := [0x52, 0x49, 0x46, 0x46]
  const WEBP: Bytes := [0x57, 0x45, 0x42, 0x50]

  function ImageFormat(prefix: Bytes): Option<Format> {
    if JPEG_START <= prefix then Some(Jpeg)
    else if PNG_START <= prefix then Some(Png)
    else if RIFF <= prefix && |prefix| >= 12 && prefix[8..12] == WEBP then Some(Webp)
    else None
  }

  function First12(data: Bytes): Bytes {
    if |data| <= 12 then data else data[..12]
  }

  /** Twelve bytes are enough to tell the format. */
  lemma FormatFromPrefix(data: Bytes)
    ensures ImageFormat(First12(data)) == ImageFormat(data)
  {
    if |data| > 12 {
      assert First12(data)[8..12] == data[8..12];
      PrefixOfPrefix(JPEG_START, data);
      PrefixOfPrefix(PNG_START, data);
      PrefixOfPrefix(RIFF, data);
    }
  }

  lemma PrefixOfPrefix(p: Bytes, data: Bytes)
    requires |p| <= 12 < |data|
    ensures p <= data[..12] <==> p <= data
  {
    assert data[..12][..|p|] == data[..|p|];
  }

  // ----- streaming -----

  function Concat(chunks: seq<Bytes>): Bytes {
    if chunks == [] then [] else Concat(chunks[..|chunks| - 1]) + chunks[|chunks| - 1]
  }

  /** What a reader gets: the chunks before the first empty one, which means end of file. */
  function ReadChunks(chunks: seq<Bytes>): (r: seq<Bytes>)
    ensures r <= chunks && (forall i | 0 <= i < |r| :: r[i] != []) && (r == chunks || chunks[|r|] == [])
  {
    if chunks == [] || chunks[0] == [] then [] else [chunks[0]] + ReadChunks(chunks[1..])
  }

  /** Checking a whole file at once: its digest and format, if its length is the expected one, in range, with a known
    * format. */
  function CheckWhole(data: Bytes, expected: int): Option<(Sha<Bytes>, Format)> {
    if expected < MIN_IMAGE || expected > MAX_IMAGE || |data| != expected then None
    else match ImageFormat(data) case None => None case Some(f) => Some((Sha(data), f))
  }

  lemma {:induction false} ConcatGrows(chunks: seq<Bytes>, i: nat)
    requires i <= |chunks|
    ensures |Concat(chunks[..i])| <= |Concat(chunks)|
  {
    if i < |chunks| {
      ConcatGrows(chunks[..|chunks| - 1], i);
      assert chunks[..|chunks| - 1][..i] == chunks[..i];
    } else {
      assert chunks[..i] == chunks;
    }
  }

  lemma PrefixStep(before: Bytes, chunk: Bytes)
    ensures First12(before + chunk) == if |First12(before)| < 12
              then First12(before)
                + (if |chunk| <= 12 - |First12(before)| then chunk else chunk[..12 - |First12(before)|])
              else First12(before)
  {
  }

  /** Streams chunks into a digest, keeping the first twelve bytes and a running total. For every way of chunking
      the bytes the result is that of checking the whole file. */
  method StreamImage(chunks: seq<Bytes>, expected: int) returns (r: Option<(Sha<Bytes>, Format)>)
    ensures r == CheckWhole(Concat(ReadChunks(chunks)), expected)
  {
    hide ImageFormat, First12, Concat;
    ghost var read := ReadChunks(chunks);
    if expected < MIN_IMAGE || expected > MAX_IMAGE { return None; }
    var hashed: Bytes, prefix: Bytes := [], [];
    var total, i := 0, 0;
    StartOfStream(read);
    while i < |chunks| && chunks[i] != []
      invariant 0 <= i <= |read|
      invariant hashed == Concat(read[..i]) && prefix == First12(hashed) && total == |hashed| <= expected
    {
      var chunk := chunks[i];
      ReadNext(chunks, i);
      ConcatGrows(read, i + 1);
      total := total + |chunk|;
      if total > expected || total > MAX_IMAGE { return None; }
      PrefixStep(hashed, chunk);
      if |prefix| < 12 {
        prefix := prefix + (if |chunk| <= 12 - |prefix| then chunk else chunk[..12 - |prefix|]);
      }
      hashed := hashed + chunk;
      i := i + 1;
    }
    EndOfStream(chunks, i);
    if total != expected { return None; }
    FormatFromPrefix(hashed);
    var format := ImageFormat(prefix);
    if format.None? { return None; }
    return Some((Sha(hashed), format.value));
  }

  lemma StartOfStream(read: seq<Bytes>)
    ensures Concat(read[..0]) == [] && First12([]) == []
  {
  }

  lemma ReadNext(chunks: seq<Bytes>, i: nat)
    requires i < |chunks| && i <= |ReadChunks(chunks)| && chunks[i] != []
    ensures i < |ReadChunks(chunks)| && ReadChunks(chunks)[i] == chunks[i]
    ensures Concat(ReadChunks(chunks)[..i + 1]) == Concat(ReadChunks(chunks)[..i]) + chunks[i]
  {
    assert ReadChunks(chunks)[..i + 1][..i] == ReadChunks(chunks)[..i];
  }

  lemma EndOfStream(chunks: seq<Bytes>, i: nat)
    requires i <= |ReadChunks(chunks)| && (i == |chunks| || (i < |chunks| && chunks[i] == []))
    ensures ReadChunks(chunks)[..i] == ReadChunks(chunks)
  {
  }

  lemma {:induction false} NonEmptyChunksAreRead(chunks: seq<Bytes>)
    requires forall i | 0 <= i < |chunks| :: chunks[i] != []
    ensures ReadChunks(chunks) == chunks
  {
    if chunks != [] {
      assert forall i | 0 <= i < |chunks[1..]| :: chunks[1..][i] == chunks[i + 1];
      NonEmptyChunksAreRead(chunks[1..]);
    }
  }

  /** Two ways of cutting the same bytes into non-empty chunks are checked alike. */
  lemma ChunkingIrrelevant(a: seq<Bytes>, b: seq<Bytes>, expected: int)
    requires (forall i | 0 <= i < |a| :: a[i] != []) && (forall i | 0 <= i < |b| :: b[i] != [])
             && Concat(a) == Concat(b)
    ensures CheckWhole(Concat(ReadChunks(a)), expected) == CheckWhole(Concat(ReadChunks(b)), expected)
            == CheckWhole(Concat(a), expected)
  {
    NonEmptyChunksAreRead(a);
    NonEmptyChunksAreRead(b);
  }

  // ----- complete page families -----

  datatype Side = CurrentSide | PreviewSide

  function SideSize(s: Side): nat {
    match s case CurrentSide => 49 case PreviewSide => 41
  }

  datatype PageRow = PageRow(side: Side, page: nat, size: nat, digest: Sha<Bytes>, format: Format)

  /** Page files of one side by page number; None where the entry is not a regular file. */
  type PageFiles = map<nat, Option<Bytes>>

  predicate ValidImage(data: Bytes) {
    CheckWhole(data, |data|).Some?
  }

  function RowFor(s: Side, page: nat, data: Bytes): PageRow
    requires ValidImage(data)
  {
    PageRow(s, page, |data|, Sha(data), ImageFormat(data).value)
  }

  ghost predicate SideComplete(s: Side, files: PageFiles) {
    && (forall p :: p in files <==> 1 <= p <= SideSize(s))
    && (forall p | p in files :: files[p].Some? && ValidImage(files[p].value))
  }

  ghost function SideRows(s: Side, files: PageFiles, n: nat): (r: seq<PageRow>)
    requires forall p | 1 <= p <= n :: p in files && files[p].Some? && ValidImage(files[p].value)
    ensures |r| == n && forall i | 0 <= i < n :: r[i] == RowFor(s, i + 1, files[i + 1].value)
  {
    seq(n, i requires 0 <= i < n => RowFor(s, i + 1, files[i + 1].value))
  }

  datatype PageFamily = PageFamily(current: PageFiles, preview: PageFiles)

  ghost predicate FamilyComplete(f: PageFamily) {
    SideComplete(CurrentSide, f.current) && SideComplete(PreviewSide, f.preview)
  }

  type Identity = Sha<seq<PageRow>>

  /** The identity of a page family, wherever it was found; incomplete families have none. */
  ghost function FamilyIdentity(f: PageFamily): Option<Identity> {
    if FamilyComplete(f) then
      Some(Sha(SideRows(CurrentSide, f.current, 49) + SideRows(PreviewSide, f.preview, 41)))
    else None
  }

  /** Families have the same identity exactly when every page has the same bytes. */
  lemma IdentityIsContent(f: PageFamily, g: PageFamily)
    requires FamilyComplete(f) && FamilyComplete(g)
    ensures FamilyIdentity(f) == FamilyIdentity(g) <==> f == g
  {
    hide ValidImage;
    if FamilyIdentity(f) == FamilyIdentity(g) {
      var a, b := SideRows(CurrentSide, f.current, 49), SideRows(PreviewSide, f.preview, 41);
      var c, d := SideRows(CurrentSide, g.current, 49), SideRows(PreviewSide, g.preview, 41);
      assert a + b == c + d;
      assert a == (a + b)[..49] && c == (c + d)[..49] && b == (a + b)[49..] && d == (c + d)[49..];
      SameRowsSamePages(CurrentSide, f.current, g.current);
      SameRowsSamePages(PreviewSide, f.preview, g.preview);
    }
  }

  lemma SameRowsSamePages(s: Side, x: PageFiles, y: PageFiles)
    requires SideComplete(s, x) && SideComplete(s, y)
    requires SideRows(s, x, SideSize(s)) == SideRows(s, y, SideSize(s))
    ensures x == y
  {
    hide ValidImage;
    forall p | p in x ensures p in y && x[p] == y[p] {
      assert SideRows(s, x, SideSize(s))[p - 1] == SideRows(s, y, SideSize(s))[p - 1];
      assert RowFor(s, p, x[p].value) == RowFor(s, p, y[p].value);
    }
  }

  // ----- a directory -----

  /** A directory entry; `data` is None for links and other special files. */
  datatype Entry = Entry(name: string, data: Option<Bytes>)

  /** The number in page-NNN.img. */
  function PageNumber(name: string): Option<nat> {
    if |name| == 12 && name[..5] == "page-" && name[8..] == ".img" then Parse3(name[5..8]) else None
  }

  predicate EntryLe(a: Entry, b: Entry) { StrLe(a.name, b.name) }

  ghost predicate UniqueNames(es: seq<Entry>) {
    forall i, j | 0 <= i < j < |es| :: es[i].name != es[j].name
  }

  ghost predicate Lists(es: seq<Entry>, files: PageFiles) {
    && (forall p :: p in files <==> exists i | 0 <= i < |es| :: PageNumber(es[i].name) == Some(p))
    && (forall i | 0 <= i < |es| && PageNumber(es[i].name).Some? :: files[PageNumber(es[i].name).value] == es[i].data)
  }

  lemma PageNames(a: string, b: string)
    requires PageNumber(a).Some? && PageNumber(b).Some?
    ensures StrLe(a, b) <==> PageNumber(a).value <= PageNumber(b).value
    ensures PageNumber(a) == PageNumber(b) <==> a == b
    ensures PageNumber(a).value < 1000
  {
    hide Parse3, Pad3, StrLe;
    var m, n := PageNumber(a).value, PageNumber(b).value;
    Parse3Bound(a[5..8]);
    Parse3Bound(b[5..8]);
    Pad3RoundTrip(m, a[5..8]);
    Pad3RoundTrip(n, b[5..8]);
    Pad3Order(m, n);
    assert a == "page-" + (Pad3(m) + ".img") && b == "page-" + (Pad3(n) + ".img");
    StrLePrefix("page-", "page-", Pad3(m) + ".img", Pad3(n) + ".img");
    StrLePrefix(Pad3(m), Pad3(n), ".img", ".img");
    SameStringOrdered(".img");
    SameStringOrdered(Pad3(m));
  }

  lemma Parse3Bound(s: string)
    ensures Parse3(s).Some? ==> Parse3(s).value < 1000
  {
  }

  lemma SameStringOrdered(s: string)
    ensures StrLe(s, s)
  {
    StrLeTotal(s, s);
  }
}
