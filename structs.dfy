/** The fixed on-disk records of a book: catalog headers and entries, subbook
    resource entries and the search-index page, as packed big-endian layouts. */
module Structs {
  import opened Common
  import opened Descriptors

  /** EB_SIZE_PAGE: one page of a subbook file. */
  const PageSize: nat := 2048
  const DirectoryNameLength: nat := 8    // EB_MAX_DIRECTORY_NAME_LENGTH
  const MaxFonts: nat := 4               // EB_MAX_FONTS
  const EpwingTitleLength: nat := 80     // EB_MAX_EPWING_TITLE_LENGTH

  // ---------------------------------------------------------------------
  // Packed layouts

  /** One field of a packed structure: its name and its width in bytes. */
  datatype Field = Field(name: string, size: nat)

  /** A structure: its class name, the size it must have on disk and its fields. */
  datatype Layout = Layout(name: string, sizeOnDisk: nat, fields: seq<Field>)

  /** The packed size of a field list (pack 1: no alignment gaps). */
  function FieldsSize(fs: seq<Field>): nat
  {
    if |fs| == 0 then 0 else fs[0].size + FieldsSize(fs[1..])
  }

  lemma {:induction false} FieldsSizeAppend(a: seq<Field>, b: seq<Field>)
    ensures FieldsSize(a + b) == FieldsSize(a) + FieldsSize(b)
  {
    if |a| > 0 {
      assert (a + b)[1..] == a[1..] + b;
      FieldsSizeAppend(a[1..], b);
    } else {
      assert a + b == b;
    }
  }

  lemma FieldsSizeCons(f: Field, fs: seq<Field>)
    ensures FieldsSize([f] + fs) == f.size + FieldsSize(fs)
  {
    assert ([f] + fs)[1..] == fs;
  }

  /** Byte offset of field i: the packed size of the fields before it. */
  function Offset(fs: seq<Field>, i: nat): nat
    requires i <= |fs|
  {
    FieldsSize(fs[..i])
  }

  /** Offsets advance by the width of each field; past the last field lies the packed size. */
  lemma OffsetStep(fs: seq<Field>, i: nat)
    requires i < |fs|
    ensures Offset(fs, 0) == 0 && Offset(fs, |fs|) == FieldsSize(fs)
    ensures Offset(fs, i + 1) == Offset(fs, i) + fs[i].size
  {
    assert fs[..0] == [] && fs[..|fs|] == fs;
    assert fs[..i + 1] == fs[..i] + [fs[i]];
    FieldsSizeAppend(fs[..i], [fs[i]]);
    assert [fs[i]][1..] == [];
  }

  /** A list of start positions that begins at 0 and grows by each field's width holds
      every field's offset, and ends at the packed size. */
  lemma {:induction false} StartsAgree(fs: seq<Field>, starts: seq<nat>, i: nat)
    requires |starts| == |fs| + 1 && starts[0] == 0
    requires forall k :: 0 <= k < |fs| ==> starts[k + 1] == starts[k] + fs[k].size
    requires i <= |fs|
    ensures Offset(fs, i) == starts[i]
    ensures FieldsSize(fs) == Offset(fs, |fs|)
  {
    assert fs[..|fs|] == fs;
    if i == 0 {
      assert fs[..0] == [];
    } else {
      StartsAgree(fs, starts, i - 1);
      OffsetStep(fs, i - 1);
    }
  }

  /** Field i lies inside the structure. */
  lemma FieldInside(fs: seq<Field>, i: nat)
    requires i < |fs|
    ensures Offset(fs, i) + fs[i].size <= FieldsSize(fs)
  {
    assert fs == fs[..i] + ([fs[i]] + fs[i + 1..]);
    FieldsSizeAppend(fs[..i], [fs[i]] + fs[i + 1..]);
    FieldsSizeAppend([fs[i]], fs[i + 1..]);
    assert ([fs[i]])[1..] == [];
  }

  /** The bytes of field i of a record held in `data`. */
  function FieldAt(fs: seq<Field>, data: seq<byte>, i: nat): (r: seq<byte>)
    requires i < |fs| && FieldsSize(fs) <= |data|
    ensures |r| == fs[i].size
    ensures Offset(fs, i) + |r| <= |data| && r == data[Offset(fs, i)..Offset(fs, i) + |r|]
  {
    FieldInside(fs, i);
    data[Offset(fs, i)..Offset(fs, i) + fs[i].size]
  }

  /** Python's `name[1:]`. */
  function DropFirst(s: string): string
  {
    if |s| == 0 then s else s[1..]
  }

  /** `_pad_structure`: append a padding field up to the declared size, renaming the class
      without its leading underscore; a structure larger than declared fails the self-check. */
  function PadStructure(st: Layout): (r: Result<Layout, Error>)
    ensures r.Success? <==> FieldsSize(st.fields) <= st.sizeOnDisk
    ensures r.Failure? ==> r.error == AssertionFailed
    ensures r.Success? ==> FieldsSize(r.value.fields) == st.sizeOnDisk
    ensures r.Success? ==> r.value.sizeOnDisk == st.sizeOnDisk
    ensures r.Success? ==> |st.fields| <= |r.value.fields| && r.value.fields[..|st.fields|] == st.fields
    ensures r.Success? && FieldsSize(st.fields) == st.sizeOnDisk ==> r.value == st
    ensures r.Success? && FieldsSize(st.fields) < st.sizeOnDisk ==>
              r.value.name == DropFirst(st.name) && |r.value.fields| == |st.fields| + 1
  {
    var size := FieldsSize(st.fields);
    if size > st.sizeOnDisk then Failure(AssertionFailed)
    else if size == st.sizeOnDisk then Success(st)
    else
      var padded := st.fields + [Field("__padding__", st.sizeOnDisk - size)];
      FieldsSizeAppend(st.fields, [Field("__padding__", st.sizeOnDisk - size)]);
      assert padded[..|st.fields|] == st.fields;
      Success(Layout(DropFirst(st.name), st.sizeOnDisk, padded))
  }

  // ---------------------------------------------------------------------
  // The raw layouts of the records

  const EbCatalogHeaderRaw := Layout("_EbCatalogHeader", 16, [Field("subbook_count", 2)])

  const EpwingCatalogHeaderRaw := Layout("_EpwingCatalogHeader", 16,
    [Field("subbook_count", 2), Field("epwing_version", 2), Field("_unknown0", 12)])

  const EpwingCatalogRaw := Layout("_EpwingCatalog", 164,
    [Field("head", 2), Field("_title", EpwingTitleLength), Field("_directory", DirectoryNameLength),
     Field("_filler0", 4), Field("index_page", 2), Field("_filler1", 4),
     Field("_wide_fonts", DirectoryNameLength * MaxFonts),
     Field("_narrow_fonts", DirectoryNameLength * MaxFonts)])

  const EbCatalogRaw := Layout("_EbCatalog", 164, [])

  const SubbookResourceRaw := Layout("_EpwingSubbookResource", 164,
    [Field("header", 3), Field("_valid", 1), Field("_text_filename", DirectoryNameLength),
     Field("_unknown0", 29), Field("_resource_types", 2), Field("_unknown1", 1),
     Field("_resource_path2", DirectoryNameLength), Field("_unknown2", 1),
     Field("_zio_codes", 3), Field("_resource_path1", DirectoryNameLength)])

  const SearchIndexFields :=
    [Field("index_id", 1), Field("_unknown0", 1), Field("start_page", 4), Field("_end_page", 4),
     Field("availability", 1), Field("_flags", 3), Field("_unknown1", 2)]

  /** `_max_indices`: how many 16-byte entries follow the 16-byte header in one page. */
  const MaxIndices: nat := PageSize / 16 - 1

  const SubbookIndicesRaw := Layout("_SubbookIndices", (MaxIndices + 1) * 16,
    [Field("_header", 1), Field("index_count", 1), Field("_unknown0", 2),
     Field("global_availability", 1), Field("_unknown1", 11),
     Field("search_methods", FieldsSize(SearchIndexFields) * MaxIndices)])

  /** A search-index entry: id, start page, page count, availability and flags at bytes 0, 2, 6, 10 and 11; 16 bytes in all. */
  lemma SearchIndexOffsets()
    ensures Offset(SearchIndexFields, 1) == 1
    ensures Offset(SearchIndexFields, 2) == 2
    ensures Offset(SearchIndexFields, 3) == 6
    ensures Offset(SearchIndexFields, 4) == 10
    ensures Offset(SearchIndexFields, 5) == 11
    ensures Offset(SearchIndexFields, 6) == 14
    ensures Offset(SearchIndexFields, 7) == 16
    ensures FieldsSize(SearchIndexFields) == 16
  {
    var f := SearchIndexFields;
    assert |f| == 7;
    OffsetStep(f, 0);
    assert Offset(f, 1) == 1;
    OffsetStep(f, 1);
    assert Offset(f, 2) == 2;
    OffsetStep(f, 2);
    assert Offset(f, 3) == 6;
    OffsetStep(f, 3);
    assert Offset(f, 4) == 10;
    OffsetStep(f, 4);
    assert Offset(f, 5) == 11;
    OffsetStep(f, 5);
    assert Offset(f, 6) == 14;
    OffsetStep(f, 6);
    assert Offset(f, 7) == 16;
  }

  /** The EB catalog header holds only the subbook count. */
  lemma EbCatalogHeaderOffsets()
    ensures Offset(EbCatalogHeaderRaw.fields, 1) == 2
    ensures FieldsSize(EbCatalogHeaderRaw.fields) == 2
  {
    var f := EbCatalogHeaderRaw.fields;
    assert |f| == 1;
    OffsetStep(f, 0);
    assert Offset(f, 1) == 2;
  }

  /** The EPWING catalog header: subbook count, version and twelve unknown bytes, 16 in all. */
  lemma EpwingCatalogHeaderOffsets()
    ensures Offset(EpwingCatalogHeaderRaw.fields, 1) == 2
    ensures Offset(EpwingCatalogHeaderRaw.fields, 2) == 4
    ensures Offset(EpwingCatalogHeaderRaw.fields, 3) == 16
    ensures FieldsSize(EpwingCatalogHeaderRaw.fields) == 16
  {
    var f := EpwingCatalogHeaderRaw.fields;
    assert |f| == 3;
    OffsetStep(f, 0);
    assert Offset(f, 1) == 2;
    OffsetStep(f, 1);
    assert Offset(f, 2) == 4;
    OffsetStep(f, 2);
    assert Offset(f, 3) == 16;
  }

  /** The EPWING catalog entry fields sum to exactly 164 bytes. */
  lemma EpwingCatalogOffsets()
    ensures Offset(EpwingCatalogRaw.fields, 1) == 2
    ensures Offset(EpwingCatalogRaw.fields, 2) == 82
    ensures Offset(EpwingCatalogRaw.fields, 3) == 90
    ensures Offset(EpwingCatalogRaw.fields, 4) == 94
    ensures Offset(EpwingCatalogRaw.fields, 5) == 96
    ensures Offset(EpwingCatalogRaw.fields, 6) == 100
    ensures Offset(EpwingCatalogRaw.fields, 7) == 132
    ensures Offset(EpwingCatalogRaw.fields, 8) == 164
    ensures FieldsSize(EpwingCatalogRaw.fields) == 164
  {
    var f := EpwingCatalogRaw.fields;
    assert |f| == 8;
    OffsetStep(f, 0);
    assert Offset(f, 1) == 2;
    OffsetStep(f, 1);
    assert Offset(f, 2) == 82;
    OffsetStep(f, 2);
    assert Offset(f, 3) == 90;
    OffsetStep(f, 3);
    assert Offset(f, 4) == 94;
    OffsetStep(f, 4);
    assert Offset(f, 5) == 96;
    OffsetStep(f, 5);
    assert Offset(f, 6) == 100;
    OffsetStep(f, 6);
    assert Offset(f, 7) == 132;
    OffsetStep(f, 7);
    assert Offset(f, 8) == 164;
  }

  /** The subbook resource fields take 64 of the 164 bytes on disk. */
  lemma SubbookResourceOffsets()
    ensures Offset(SubbookResourceRaw.fields, 1) == 3
    ensures Offset(SubbookResourceRaw.fields, 2) == 4
    ensures Offset(SubbookResourceRaw.fields, 3) == 12
    ensures Offset(SubbookResourceRaw.fields, 4) == 41
    ensures Offset(SubbookResourceRaw.fields, 5) == 43
    ensures Offset(SubbookResourceRaw.fields, 6) == 44
    ensures Offset(SubbookResourceRaw.fields, 7) == 52
    ensures Offset(SubbookResourceRaw.fields, 8) == 53
    ensures Offset(SubbookResourceRaw.fields, 9) == 56
    ensures Offset(SubbookResourceRaw.fields, 10) == 64
    ensures FieldsSize(SubbookResourceRaw.fields) == 64
  {
    var f := SubbookResourceRaw.fields;
    assert |f| == 10;
    OffsetStep(f, 0);
    assert Offset(f, 1) == 3;
    OffsetStep(f, 1);
    assert Offset(f, 2) == 4;
    OffsetStep(f, 2);
    assert Offset(f, 3) == 12;
    OffsetStep(f, 3);
    assert Offset(f, 4) == 41;
    OffsetStep(f, 4);
    assert Offset(f, 5) == 43;
    OffsetStep(f, 5);
    assert Offset(f, 6) == 44;
    OffsetStep(f, 6);
    assert Offset(f, 7) == 52;
    OffsetStep(f, 7);
    assert Offset(f, 8) == 53;
    OffsetStep(f, 8);
    assert Offset(f, 9) == 56;
    OffsetStep(f, 9);
    assert Offset(f, 10) == 64;
  }

  /** The index table: a 16-byte header, then 127 entries, one page in all. */
  lemma SubbookIndicesOffsets()
    ensures Offset(SubbookIndicesRaw.fields, 1) == 1
    ensures Offset(SubbookIndicesRaw.fields, 3) == 4
    ensures Offset(SubbookIndicesRaw.fields, 5) == 16
    ensures SubbookIndicesRaw.fields[5].size == 16 * MaxIndices == 2032
    ensures FieldsSize(SubbookIndicesRaw.fields) == 2048 == PageSize
  {
    SearchIndexOffsets();
    var x := SubbookIndicesRaw.fields;
    assert |x| == 6 && x[5].size == 2032;
    OffsetStep(x, 0);
    assert Offset(x, 1) == 1;
    OffsetStep(x, 1);
    OffsetStep(x, 2);
    assert Offset(x, 3) == 4;
    OffsetStep(x, 3);
    OffsetStep(x, 4);
    assert Offset(x, 5) == 16;
    OffsetStep(x, 5);
  }

  /** Every record passes the padding self-check and then has exactly its declared size:
      the headers 16 bytes, the catalog and resource entries 164 and the index table one page. */
  lemma LayoutSizes()
    ensures PadStructure(EbCatalogHeaderRaw).Success? && PadStructure(EbCatalogHeaderRaw).value.name == "EbCatalogHeader"
    ensures PadStructure(EpwingCatalogHeaderRaw) == Success(EpwingCatalogHeaderRaw)
    ensures PadStructure(EpwingCatalogRaw) == Success(EpwingCatalogRaw)
    ensures PadStructure(EbCatalogRaw).Success? && PadStructure(EbCatalogRaw).value.name == "EbCatalog"
    ensures PadStructure(SubbookResourceRaw).Success? && PadStructure(SubbookResourceRaw).value.name == "EpwingSubbookResource"
    ensures PadStructure(SubbookIndicesRaw) == Success(SubbookIndicesRaw)
  {
    EbCatalogHeaderOffsets();
    EpwingCatalogHeaderOffsets();
    EpwingCatalogOffsets();
    SubbookResourceOffsets();
    SubbookIndicesOffsets();
  }

  // ---------------------------------------------------------------------
  // Fixed-width arrays

  lemma MulFacts(i: nat, k: nat, n: nat)
    requires i < k
    ensures i * n + n <= k * n
    ensures k * n - n == (k - 1) * n
    ensures i > 0 ==> n + (i - 1) * n == i * n
  {
    assert (i + 1) * n <= k * n;
  }

  /** The k elements of a ctypes array of n-byte elements. */
  function Chunks(bs: seq<byte>, n: nat, k: nat): (r: seq<seq<byte>>)
    requires |bs| == k * n
    ensures |r| == k
  {
    if k == 0 then []
    else
      MulFacts(0, k, n);
      [bs[..n]] + Chunks(bs[n..], n, k - 1)
  }

  /** Element i of the array is the i-th run of n bytes. */
  lemma {:induction false} ChunkAt(bs: seq<byte>, n: nat, k: nat, i: nat)
    requires |bs| == k * n && i < k
    ensures i * n + n <= |bs| && Chunks(bs, n, k)[i] == bs[i * n..i * n + n]
  {
    MulFacts(i, k, n);
    MulFacts(0, k, n);
    if i > 0 {
      var tail := bs[n..];
      ChunkAt(tail, n, k - 1, i - 1);
      var a := (i - 1) * n;
      assert Chunks(bs, n, k)[i] == Chunks(tail, n, k - 1)[i - 1] == tail[a..a + n];
      assert tail[a..a + n] == bs[n + a..n + a + n];
    }
  }

  // ---------------------------------------------------------------------
  // Search-index entries and the index table

  /** One entry of the search-index table (SubbookSearchIndex). */
  datatype SearchIndex = SearchIndex(indexId: byte, startPage: nat, endPageRaw: nat, availability: byte, flags: nat)
  {
    /** The last page of the index: the start page plus the stored count, minus one. */
    function EndPage(): (p: int)
      ensures p == startPage + endPageRaw - 1
      ensures endPageRaw > 0 ==> p >= startPage
    {
      startPage + endPageRaw - 1
    }
  }

  /** Read one 16-byte search-index entry: the bytes of each field as the layout places them. */
  function ParseSearchIndex(e: seq<byte>): (r: SearchIndex)
    requires |e| == 16
    ensures r.indexId == e[0]
    ensures r.startPage == BigEndian(e[2..6]) && r.endPageRaw == BigEndian(e[6..10])
    ensures r.availability == e[10]
    ensures r.flags == Uint24(e[11..14])
  {
    SearchIndex(e[0], BigEndian(e[2..6]), BigEndian(e[6..10]), e[10], Uint24(e[11..14]))
  }

  /** The slices read by `ParseSearchIndex` are the fields of the search-index layout. */
  lemma SearchIndexFieldsAt(e: seq<byte>)
    requires |e| == 16
    ensures FieldsSize(SearchIndexFields) == |e|
    ensures FieldAt(SearchIndexFields, e, 0) == e[0..1]
    ensures FieldAt(SearchIndexFields, e, 2) == e[2..6]
    ensures FieldAt(SearchIndexFields, e, 3) == e[6..10]
    ensures FieldAt(SearchIndexFields, e, 4) == e[10..11]
    ensures FieldAt(SearchIndexFields, e, 5) == e[11..14]
  {
    SearchIndexOffsets();
  }

  /** The index table of a subbook (SubbookIndices), read from one page. */
  datatype SubbookIndices = SubbookIndices(indexCount: byte, globalAvailability: byte, searchMethods: seq<SearchIndex>)

  function ParseSubbookIndices(page: seq<byte>): (r: SubbookIndices)
    requires |page| == PageSize
    ensures r.indexCount == page[1] && r.globalAvailability == page[4]
    ensures |r.searchMethods| == MaxIndices
    ensures forall i :: 0 <= i < MaxIndices ==>
              r.searchMethods[i] == ParseSearchIndex(page[16 + 16 * i..32 + 16 * i])
  {
    var x := SubbookIndicesRaw.fields;
    SubbookIndicesOffsets();
    var table := FieldAt(x, page, 5);
    var entries := Chunks(table, 16, MaxIndices);
    SubbookEntriesAt(page);
    SubbookIndices(FieldAt(x, page, 1)[0], FieldAt(x, page, 3)[0],
                   seq(|entries|, i requires 0 <= i < |entries| => ParseSearchIndex(entries[i])))
  }

  /** Entry i of the index table is the i-th run of 16 bytes after the page's header. */
  lemma SubbookEntriesAt(page: seq<byte>)
    requires |page| == PageSize
    ensures FieldsSize(SubbookIndicesRaw.fields) <= |page|
    ensures |FieldAt(SubbookIndicesRaw.fields, page, 5)| == 16 * MaxIndices
    ensures forall i :: 0 <= i < MaxIndices ==>
              Chunks(FieldAt(SubbookIndicesRaw.fields, page, 5), 16, MaxIndices)[i] == page[16 + 16 * i..32 + 16 * i]
  {
    SubbookIndicesOffsets();
    var table := FieldAt(SubbookIndicesRaw.fields, page, 5);
    assert table == page[16..2048];
    var entries := Chunks(table, 16, MaxIndices);
    forall i | 0 <= i < |entries| ensures entries[i] == page[16 + 16 * i..32 + 16 * i] {
      EntryAt(page, table, i);
    }
  }

  /** One entry of the index table. */
  lemma EntryAt(page: seq<byte>, table: seq<byte>, i: nat)
    requires |page| == PageSize && table == page[16..2048] && i < MaxIndices
    ensures Chunks(table, 16, MaxIndices)[i] == page[16 + 16 * i..32 + 16 * i]
  {
    ChunkAt(table, 16, MaxIndices, i);
    assert i * 16 == 16 * i && i * 16 + 16 <= |table|;
    SliceOfSlice(page, 16, 2048, i * 16, i * 16 + 16);
  }

  // ---------------------------------------------------------------------
  // Catalog headers and entries

  /** The header before the catalog entries. */
  datatype CatalogHeader = CatalogHeader(subbookCount: nat, epwingVersion: nat)

  function ParseEpwingCatalogHeader(h: seq<byte>): (r: CatalogHeader)
    requires |h| == 16
    ensures r.subbookCount == BigEndian(h[0..2]) && r.epwingVersion == BigEndian(h[2..4])
  {
    var f := EpwingCatalogHeaderRaw.fields;
    EpwingCatalogHeaderOffsets();
    CatalogHeader(BigEndian(FieldAt(f, h, 0)), BigEndian(FieldAt(f, h, 1)))
  }

  /** A catalog entry of an EPWING book; the title stays raw since its encoding is the book's. */
  datatype EpwingCatalog = EpwingCatalog(
    head: nat, titleBytes: seq<byte>, directory: string, indexPage: nat,
    wideFonts: seq<string>, narrowFonts: seq<string>)
  {
    /** `title`: decoded with the book's encoding and stripped. */
    function Title(decoder: Decoder): (r: Result<string, Error>)
      ensures r == EncodedString(titleBytes, true, decoder)
    {
      EncodedString(titleBytes, true, decoder)
    }
  }

  /** The Latin-1 string of a field, stripped (Latin-1 decoding never fails). */
  function Latin1Field(field: seq<byte>): (s: string)
    ensures EncodedString(field, true, Latin1Decode) == Success(s)
  {
    EncodedString(field, true, Latin1Decode).value
  }

  /** The non-empty Latin-1 names of an array of 8-byte directory names. */
  function Latin1Names(field: seq<byte>): (names: seq<string>)
    requires |field| == DirectoryNameLength * MaxFonts
    ensures EncodedStringArray(Chunks(field, DirectoryNameLength, MaxFonts), true, true, Latin1Decode) == Success(names)
  {
    EncodedStringArray(Chunks(field, DirectoryNameLength, MaxFonts), true, true, Latin1Decode).value
  }

  function ParseEpwingCatalog(e: seq<byte>): (r: EpwingCatalog)
    requires |e| == 164
    ensures r.head == BigEndian(e[0..2]) && r.titleBytes == e[2..82]
    ensures r.directory == Latin1Field(e[82..90]) && r.indexPage == BigEndian(e[94..96])
    ensures r.wideFonts == Latin1Names(e[100..132]) && r.narrowFonts == Latin1Names(e[132..164])
  {
    var f := EpwingCatalogRaw.fields;
    EpwingCatalogFieldsAt(e);
    EpwingCatalog(BigEndian(FieldAt(f, e, 0)), FieldAt(f, e, 1), Latin1Field(FieldAt(f, e, 2)),
                  BigEndian(FieldAt(f, e, 4)), Latin1Names(FieldAt(f, e, 6)), Latin1Names(FieldAt(f, e, 7)))
  }

  /** The fields of a catalog entry sit at the offsets of its layout. */
  lemma EpwingCatalogFieldsAt(e: seq<byte>)
    requires |e| == 164
    ensures FieldsSize(EpwingCatalogRaw.fields) <= |e|
    ensures FieldAt(EpwingCatalogRaw.fields, e, 0) == e[0..2] && FieldAt(EpwingCatalogRaw.fields, e, 1) == e[2..82]
    ensures FieldAt(EpwingCatalogRaw.fields, e, 2) == e[82..90] && FieldAt(EpwingCatalogRaw.fields, e, 4) == e[94..96]
    ensures FieldAt(EpwingCatalogRaw.fields, e, 6) == e[100..132] && FieldAt(EpwingCatalogRaw.fields, e, 7) == e[132..164]
  {
    EpwingCatalogOffsets();
  }

  /** `info_dict` of an EB (not EPWING) catalog is not implemented. */
  function EbCatalogInfo(): (r: Result<seq<string>, Error>)
    ensures r == Failure(NotImplemented)
  {
    Failure(NotImplemented)
  }

  /** A slice of a slice is a slice of the whole. */
  lemma SliceOfSlice(s: seq<byte>, lo: nat, hi: nat, i: nat, j: nat)
    requires lo <= hi <= |s| && i <= j <= hi - lo
    ensures s[lo..hi][i..j] == s[lo + i..lo + j]
  {
    assert forall k :: 0 <= k < j - i ==> s[lo..hi][i..j][k] == s[lo + i + k];
  }

  // ---------------------------------------------------------------------
  // Subbook resource entries

  datatype ResourceKind = Sound | Graphic
  datatype ZioKind = Plain | EpwingZio | Epwing6Zio

  /** `_get_resource_type`: the low two bits name the kind of a resource. */
  function ResourceType(v: byte): (r: Option<ResourceKind>)
    ensures r == Some(Sound) <==> v as int % 4 == 1
    ensures r == Some(Graphic) <==> v as int % 4 == 2
    ensures r.None? <==> v as int % 4 == 0 || v as int % 4 == 3
  {
    var low := v as int % 4;
    if low == 1 then Some(Sound) else if low == 2 then Some(Graphic) else None
  }

  /** `zio_types`: the compression scheme of one of the subbook's files. */
  function ZioType(code: byte): (r: Option<ZioKind>)
    ensures r == Some(Plain) <==> code == 0x00
    ensures r == Some(EpwingZio) <==> code == 0x11
    ensures r == Some(Epwing6Zio) <==> code == 0x12
    ensures r.None? <==> code !in {0x00, 0x11, 0x12}
  {
    if code == 0x00 then Some(Plain)
    else if code == 0x11 then Some(EpwingZio)
    else if code == 0x12 then Some(Epwing6Zio)
    else None
  }

  /** One resource of a subbook: its kind, its path and the compression of its file. */
  datatype Resource = Resource(kind: ResourceKind, path: string, zio: Option<ZioKind>)

  /** A subbook resource entry of an EPWING catalog. */
  datatype SubbookResource = SubbookResource(
    valid: byte, textFilename: string, resourceTypes: seq<Option<ResourceKind>>,
    resourcePath1: string, resourcePath2: string, zioTypes: seq<Option<ZioKind>>)
  {
    /** `is_valid`: the valid byte is set and the third zio code is a known one. */
    predicate IsValid()
    {
      valid != 0 && |zioTypes| == 3 && zioTypes[2].Some?
    }

    function ResourcePaths(): seq<string>
    {
      [resourcePath1, resourcePath2]
    }

    /** `resources`: the zipped kinds, paths and compressions whose kind is known. */
    function Resources(): seq<Resource>
    {
      ZipKnown(resourceTypes, ResourcePaths(), zioTypes)
    }
  }

  function ParseSubbookResource(e: seq<byte>): (r: SubbookResource)
    requires |e| == 164
    ensures r.valid == e[3] && r.textFilename == Latin1Field(e[4..12])
    ensures r.resourceTypes == [ResourceType(e[41]), ResourceType(e[42])]
    ensures r.resourcePath2 == Latin1Field(e[44..52]) && r.resourcePath1 == Latin1Field(e[56..64])
    ensures r.zioTypes == [ZioType(e[53]), ZioType(e[54]), ZioType(e[55])]
    ensures r.IsValid() <==> e[3] != 0 && e[55] in {0x00, 0x11, 0x12}
  {
    var f := SubbookResourceRaw.fields;
    SubbookResourceFieldsAt(e);
    var types := FieldAt(f, e, 4);
    var zio := FieldAt(f, e, 8);
    SubbookResource(FieldAt(f, e, 1)[0], Latin1Field(FieldAt(f, e, 2)),
                    [ResourceType(types[0]), ResourceType(types[1])],
                    Latin1Field(FieldAt(f, e, 9)), Latin1Field(FieldAt(f, e, 6)),
                    [ZioType(zio[0]), ZioType(zio[1]), ZioType(zio[2])])
  }

  /** The fields of a subbook resource entry sit at the offsets of its layout. */
  lemma SubbookResourceFieldsAt(e: seq<byte>)
    requires |e| == 164
    ensures FieldsSize(SubbookResourceRaw.fields) <= |e|
    ensures FieldAt(SubbookResourceRaw.fields, e, 1) == e[3..4] && FieldAt(SubbookResourceRaw.fields, e, 2) == e[4..12]
    ensures FieldAt(SubbookResourceRaw.fields, e, 4) == e[41..43] && FieldAt(SubbookResourceRaw.fields, e, 6) == e[44..52]
    ensures FieldAt(SubbookResourceRaw.fields, e, 8) == e[53..56] && FieldAt(SubbookResourceRaw.fields, e, 9) == e[56..64]
  {
    SubbookResourceOffsets();
  }

  /** Python's `zip` of the three lists (as long as the shortest), keeping the entries of known kind. */
  function ZipKnown(types: seq<Option<ResourceKind>>, paths: seq<string>, zios: seq<Option<ZioKind>>)
    : (r: seq<Resource>)
    ensures |r| <= |types| && |r| <= |paths| && |r| <= |zios|
  {
    if |types| == 0 || |paths| == 0 || |zios| == 0 then []
    else
      (if types[0].Some? then [Resource(types[0].value, paths[0], zios[0])] else [])
      + ZipKnown(types[1..], paths[1..], zios[1..])
  }

  /** The resource entry of position i, if its kind is known. */
  function KeepKnown(res: SubbookResource, i: nat): seq<Resource>
    requires i < |res.resourceTypes| && i < 2 && i < |res.zioTypes|
  {
    if res.resourceTypes[i].Some? then [Resource(res.resourceTypes[i].value, res.ResourcePaths()[i], res.zioTypes[i])]
    else []
  }

  /** With two kinds, two paths and three compressions, the zip stops after two entries:
      the resources are the first entry if its kind is known, then the second if its is. */
  lemma ResourcesExplicit(res: SubbookResource)
    requires |res.resourceTypes| == 2 && |res.zioTypes| == 3
    ensures res.Resources() == KeepKnown(res, 0) + KeepKnown(res, 1)
    ensures |res.Resources()| <= 2
  {
    var t, p, z := res.resourceTypes, res.ResourcePaths(), res.zioTypes;
    assert ZipKnown(t[1..][1..], p[1..][1..], z[1..][1..]) == [];
    assert ZipKnown(t[1..], p[1..], z[1..]) == KeepKnown(res, 1);
    assert ZipKnown(t, p, z) == KeepKnown(res, 0) + ZipKnown(t[1..], p[1..], z[1..]);
  }
}
