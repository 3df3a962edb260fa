/** The text of a subbook: the page arithmetic of the text file, the search methods read
    from the subbook's index page, and the reader that turns the escape-coded text stream
    into a tree of sections. */
module Text {
  import opened Common
  import opened Structs
  import opened TextStructs
  import opened TextSections
  import Codec
  import Book

  // ---------------------------------------------------------------------
  // Pages

  /** `_seek_page`: the byte position of an offset within a page; pages count from 1. */
  function SeekPosition(page: int, offset: int): (pos: int)
    ensures page >= 1 && offset >= 0 ==> pos >= 0
    ensures page == 0 && offset < PageSize ==> pos < 0
  {
    (page - 1) * PageSize + offset
  }

  /** A position within the file determines the page and the offset it came from. */
  lemma SeekPageInverse(page: nat, offset: nat)
    requires page >= 1 && offset < PageSize
    ensures SeekPosition(page, offset) / PageSize == page - 1
    ensures SeekPosition(page, offset) % PageSize == offset
    ensures SeekPosition(page + 1, offset) == SeekPosition(page, offset) + PageSize
  {
    var p := SeekPosition(page, offset);
    DivModUnique(p, page - 1, offset);
  }

  lemma DivModUnique(x: int, q: int, r: int)
    requires 0 <= r < PageSize && x == q * PageSize + r
    ensures x / PageSize == q && x % PageSize == r
  {
  }

  // ---------------------------------------------------------------------
  // The style policy of a search method

  const StyleConvert: nat := 0
  const StyleAsis: nat := 1
  const StyleDelete: nat := 2

  function Pow2(n: nat): (p: nat)
    ensures p >= 1
  {
    if n == 0 then 1 else 2 * Pow2(n - 1)
  }

  /** The two flag bits starting at bit `shift` (`(flags & (3 << shift)) >> shift`). */
  function FlagPair(flags: nat, shift: nat): (v: nat)
    ensures v < 4
  {
    (flags / Pow2(shift)) % 4
  }

  lemma DivModAny(x: int, d: int, q: int, r: int)
    requires d > 0 && 0 <= r < d && x == q * d + r
    ensures x / d == q && x % d == r
  {
    var q0 := x / d;
    var r0 := x % d;
    assert (q - q0) * d == r0 - r;
    if q > q0 {
      assert (q - q0) * d >= d by { MulAtLeast(q - q0, d); }
    } else if q < q0 {
      assert (q0 - q) * d >= d by { MulAtLeast(q0 - q, d); }
    }
  }

  lemma MulAtLeast(a: int, d: int)
    requires a >= 1 && d > 0
    ensures a * d >= d
  {
  }

  /** FlagPair recovers the two bits stored at `shift`, whatever lies above and below them. */
  lemma FlagPairDigits(x: nat, high: nat, v: nat, low: nat, shift: nat)
    requires v < 4 && low < Pow2(shift) && x == (4 * high + v) * Pow2(shift) + low
    ensures FlagPair(x, shift) == v
  {
    var p := Pow2(shift);
    DivModAny(x, p, 4 * high + v, low);
    DivModAny(4 * high + v, 4, high, v);
  }

  /** A global availability above 2 counts as 0. */
  function NormalizeGlobal(g: byte): (r: byte)
    ensures r <= 2
    ensures g <= 2 ==> r == g
    ensures g > 2 ==> r == 0
  {
    if g > 2 then 0 else g
  }

  /** Rule (a): the styles come from the entry's flags. */
  predicate FromFlags(glob: byte, availability: byte)
  {
    (glob == 0 && availability == 2) || glob == 2
  }

  /** Spaces are kept in a Latin-1 book and in the alphabet indices, deleted otherwise. */
  function SpaceStyle(enc: Encoding, id: byte): (s: nat)
    ensures s == StyleAsis <==> enc == Latin1 || id == 0x72 || id == 0x92
    ensures s != StyleAsis ==> s == StyleDelete
  {
    if enc == Latin1 || id == 0x72 || id == 0x92 then StyleAsis else StyleDelete
  }

  /** Rule (a): each style is a pair of flag bits, except the mark, which is deleted when its
      bits are 0 and kept otherwise. */
  function FlagStyles(flags: nat, space: nat): (st: Book.Styles)
  {
    Book.Styles(FlagPair(flags, 22), FlagPair(flags, 20),
                if FlagPair(flags, 18) == 0 then StyleDelete else StyleAsis,
                FlagPair(flags, 16), FlagPair(flags, 14), FlagPair(flags, 12),
                FlagPair(flags, 10), FlagPair(flags, 8), FlagPair(flags, 6), space)
  }

  /** Rule (b), the kana indices: everything converted, marks deleted. */
  function KanaStyles(space: nat): (st: Book.Styles)
  {
    Book.Styles(StyleConvert, StyleConvert, StyleDelete, StyleConvert, StyleConvert,
                StyleConvert, StyleConvert, StyleConvert, StyleConvert, space)
  }

  /** Rule (c), any other index: everything as is, except that lower case is converted. */
  function AsisStyles(space: nat): (st: Book.Styles)
  {
    Book.Styles(StyleAsis, StyleConvert, StyleAsis, StyleAsis, StyleAsis,
                StyleAsis, StyleAsis, StyleAsis, StyleAsis, space)
  }

  /** The styles of a search method as intended: rule (a) when the availability says so,
      rule (b) for the kana indices 0x70 and 0x90, rule (c) otherwise; the space style in
      every case. */
  function Policy(glob: byte, m: SearchIndex, enc: Encoding): (st: Book.Styles)
    ensures st.space == SpaceStyle(enc, m.indexId)
    ensures FromFlags(NormalizeGlobal(glob), m.availability) ==> st == FlagStyles(m.flags, st.space)
    ensures !FromFlags(NormalizeGlobal(glob), m.availability) && (m.indexId == 0x70 || m.indexId == 0x90) ==>
              st == KanaStyles(st.space)
    ensures !FromFlags(NormalizeGlobal(glob), m.availability) && m.indexId != 0x70 && m.indexId != 0x90 ==>
              st == AsisStyles(st.space)
  {
    var g := NormalizeGlobal(glob);
    var space := SpaceStyle(enc, m.indexId);
    if FromFlags(g, m.availability) then FlagStyles(m.flags, space)
    else if m.indexId == 0x70 || m.indexId == 0x90 then KanaStyles(space)
    else AsisStyles(space)
  }

  /** The styles as written: the test for 0x90 structs an attribute of the search dict under
      construction, which has none, so every entry outside rule (a) whose id is not 0x70
      raises. */
  function PolicyAsWritten(glob: byte, m: SearchIndex, enc: Encoding): (r: Result<Book.Styles, Error>)
    ensures r.Success? <==> FromFlags(NormalizeGlobal(glob), m.availability) || m.indexId == 0x70
    ensures r.Failure? ==> r.error == AttributeError
  {
    var g := NormalizeGlobal(glob);
    var space := SpaceStyle(enc, m.indexId);
    if FromFlags(g, m.availability) then Success(FlagStyles(m.flags, space))
    else if m.indexId == 0x70 then Success(KanaStyles(space))
    else Failure(AttributeError)
  }

  /** Where the code as written gets through, it agrees with the intended policy. */
  lemma PolicyAsWrittenAgrees(glob: byte, m: SearchIndex, enc: Encoding)
    ensures PolicyAsWritten(glob, m, enc).Success? ==> PolicyAsWritten(glob, m, enc).value == Policy(glob, m, enc)
  {
  }

  /** A text index (id 0x00) with no availability raises as written, but has the rule (c)
      styles by intent; so does the kana word index 0x90. */
  lemma PolicyAttributeLookup()
    ensures PolicyAsWritten(0, SearchIndex(0x00, 1, 1, 0, 0), JisX0208) == Failure(AttributeError)
    ensures Policy(0, SearchIndex(0x00, 1, 1, 0, 0), JisX0208) == AsisStyles(StyleDelete)
    ensures PolicyAsWritten(0, SearchIndex(0x90, 1, 1, 0, 0), JisX0208) == Failure(AttributeError)
    ensures Policy(0, SearchIndex(0x90, 1, 1, 0, 0), JisX0208) == KanaStyles(StyleDelete)
  {
  }

  /** The policy cannot tell a global availability above 2 from 0. */
  lemma GlobalAboveTwo(glob: byte, m: SearchIndex, enc: Encoding)
    requires glob > 2
    ensures Policy(glob, m, enc) == Policy(0, m, enc)
  {
  }

  /** Under rule (a) every style but the mark is the pair of flag bits stored for it; the
      mark is kept exactly when its bits are not 0; the low six bits play no part. */
  lemma FlagStylesRead(k: nat, lo: nat, ma: nat, lv: nat, dc: nat, cs: nat, sv: nat, vc: nat, ps: nat, low: nat, space: nat)
    requires k < 4 && lo < 4 && ma < 4 && lv < 4 && dc < 4 && cs < 4 && sv < 4 && vc < 4 && ps < 4 && low < 64
    ensures FlagStyles(k * 4194304 + lo * 1048576 + ma * 262144 + lv * 65536 + dc * 16384 + cs * 4096 + sv * 1024 + vc * 256 + ps * 64 + low, space) ==
              Book.Styles(k, lo, if ma == 0 then StyleDelete else StyleAsis, lv, dc, cs, sv, vc, ps, space)
  {
    PowersOfTwo();
    var flags := k * 4194304 + lo * 1048576 + ma * 262144 + lv * 65536 + dc * 16384 + cs * 4096 + sv * 1024 + vc * 256 + ps * 64 + low;
    FlagPairDigits(flags, 0, k, lo * 1048576 + ma * 262144 + lv * 65536 + dc * 16384 + cs * 4096 + sv * 1024 + vc * 256 + ps * 64 + low, 22);
    FlagPairDigits(flags, k, lo, ma * 262144 + lv * 65536 + dc * 16384 + cs * 4096 + sv * 1024 + vc * 256 + ps * 64 + low, 20);
    FlagPairDigits(flags, k * 4 + lo, ma, lv * 65536 + dc * 16384 + cs * 4096 + sv * 1024 + vc * 256 + ps * 64 + low, 18);
    FlagPairDigits(flags, k * 16 + lo * 4 + ma, lv, dc * 16384 + cs * 4096 + sv * 1024 + vc * 256 + ps * 64 + low, 16);
    FlagPairDigits(flags, k * 64 + lo * 16 + ma * 4 + lv, dc, cs * 4096 + sv * 1024 + vc * 256 + ps * 64 + low, 14);
    FlagPairDigits(flags, k * 256 + lo * 64 + ma * 16 + lv * 4 + dc, cs, sv * 1024 + vc * 256 + ps * 64 + low, 12);
    FlagPairDigits(flags, k * 1024 + lo * 256 + ma * 64 + lv * 16 + dc * 4 + cs, sv, vc * 256 + ps * 64 + low, 10);
    FlagPairDigits(flags, k * 4096 + lo * 1024 + ma * 256 + lv * 64 + dc * 16 + cs * 4 + sv, vc, ps * 64 + low, 8);
    FlagPairDigits(flags, k * 16384 + lo * 4096 + ma * 1024 + lv * 256 + dc * 64 + cs * 16 + sv * 4 + vc, ps, low, 6);
  }

  lemma PowersOfTwo()
    ensures Pow2(6) == 64 && Pow2(8) == 256 && Pow2(10) == 1024 && Pow2(12) == 4096 && Pow2(14) == 16384
    ensures Pow2(16) == 65536 && Pow2(18) == 262144 && Pow2(20) == 1048576 && Pow2(22) == 4194304
  {
    assert Pow2(1) == 2;
    assert Pow2(2) == 4;
    assert Pow2(3) == 8;
    assert Pow2(4) == 16;
    assert Pow2(5) == 32;
    assert Pow2(6) == 64;
    assert Pow2(7) == 128;
    assert Pow2(8) == 256;
    assert Pow2(9) == 512;
    assert Pow2(10) == 1024;
    assert Pow2(11) == 2048;
    assert Pow2(12) == 4096;
    assert Pow2(13) == 8192;
    assert Pow2(14) == 16384;
    assert Pow2(15) == 32768;
    assert Pow2(16) == 65536;
    assert Pow2(17) == 131072;
    assert Pow2(18) == 262144;
    assert Pow2(19) == 524288;
    assert Pow2(20) == 1048576;
    assert Pow2(21) == 2097152;
    assert Pow2(22) == 4194304;
  }

  // ---------------------------------------------------------------------
  // Loading the search methods of the index page

  /** `_search_types`: the search type each known index id registers as. */
  function SearchTypeOf(id: byte): (t: Option<Book.SearchType>)
  {
    match id
    case 0x00 => Some(Book.Named("text"))
    case 0x01 => Some(Book.Named("menu"))
    case 0x02 => Some(Book.Named("copyright"))
    case 0x10 => Some(Book.Named("image_menu"))
    case 0x70 => Some(Book.Named("endword_kana"))
    case 0x71 => Some(Book.Named("endword_asis"))
    case 0x72 => Some(Book.Named("endword_alphabet"))
    case 0x80 => Some(Book.Named("keyword"))
    case 0x81 => Some(Book.Named("cross"))
    case 0x90 => Some(Book.Named("word_kana"))
    case 0x91 => Some(Book.Named("word_asis"))
    case 0x92 => Some(Book.Named("word_alphabet"))
    case 0xd8 => Some(Book.Named("sound"))
    case 0xff => Some(Book.Named("multi"))
    case 0x21 => Some(Book.Typed("eb", "sebxa_zip", Book.StrSub("text")))
    case 0x22 => Some(Book.Typed("eb", "sebxa_zip", Book.StrSub("index")))
    case 0xf1 => Some(Book.Typed("eb", "wide_font", Book.IntSub(0)))
    case 0xf2 => Some(Book.Typed("eb", "narrow_font", Book.IntSub(0)))
    case 0xf3 => Some(Book.Typed("eb", "wide_font", Book.IntSub(1)))
    case 0xf4 => Some(Book.Typed("eb", "narrow_font", Book.IntSub(1)))
    case 0xf5 => Some(Book.Typed("eb", "wide_font", Book.IntSub(2)))
    case 0xf6 => Some(Book.Typed("eb", "narrow_font", Book.IntSub(2)))
    case 0xf7 => Some(Book.Typed("eb", "wide_font", Book.IntSub(3)))
    case 0xf8 => Some(Book.Typed("eb", "narrow_font", Book.IntSub(3)))
    case 0x16 => Some(Book.Typed("epwing", "search_title_page", Book.NoSub))
    case _ => None
  }

  /** The index page as `readinto` fills a fresh structure: the bytes of the page that the
      file has, and zeros past its end. */
  function IndexPage(data: seq<byte>, indexPage: nat): (page: seq<byte>)
    requires indexPage >= 1
    ensures |page| == PageSize
    ensures forall i :: 0 <= i < PageSize && SeekPosition(indexPage, 0) + i < |data| ==>
              page[i] == data[SeekPosition(indexPage, 0) + i]
    ensures forall i :: 0 <= i < PageSize && SeekPosition(indexPage, 0) + i >= |data| ==> page[i] == 0
  {
    var start := SeekPosition(indexPage, 0);
    seq(PageSize, i requires 0 <= i < PageSize => if start + i < |data| then data[start + i] else 0)
  }

  /** The entries the loop visits: the first `index_count` of the 127 in the table. */
  function IndexMethods(ind: SubbookIndices): (ms: seq<SearchIndex>)
    ensures |ms| == Min(ind.indexCount as int, |ind.searchMethods|)
    ensures ms == ind.searchMethods[..|ms|]
  {
    ind.searchMethods[..Min(ind.indexCount as int, |ind.searchMethods|)]
  }

  /** The search a method registers: its page range and its styles. */
  function MethodSearch(m: SearchIndex, glob: byte, enc: Encoding): (s: Book.Search)
    ensures s.startPage == m.startPage && s.endPage == m.EndPage()
    ensures s.styles == Policy(glob, m, enc)
  {
    Book.Search(m.startPage, m.EndPage(), Policy(glob, m, enc))
  }

  /** The loop of `_load_indices` on a table: every entry must end no earlier than it starts;
      an entry with a known id is set in the table, an unknown id is passed over. */
  function RegisterMethods(t: Book.SearchTable, ms: seq<SearchIndex>, glob: byte, enc: Encoding, bookType: string): (r: Result<Book.SearchTable, Error>)
    decreases |ms|
  {
    if |ms| == 0 then Success(t)
    else if ms[0].startPage > ms[0].EndPage() then Failure(AssertionFailed)
    else match SearchTypeOf(ms[0].indexId)
      case None => RegisterMethods(t, ms[1..], glob, enc, bookType)
      case Some(k) =>
        match Book.SetSearch(t, k, MethodSearch(ms[0], glob, enc), bookType)
        case Failure(e) => Failure(e)
        case Success(t1) => RegisterMethods(t1, ms[1..], glob, enc, bookType)
  }

  /** `_load_indices`: read the index table from the index page, count a global
      availability above 2 as 0, start from an empty table and register the listed entries. */
  function LoadIndices(data: seq<byte>, indexPage: nat, enc: Encoding, bookType: string): (r: Result<Book.SearchTable, Error>)
    requires indexPage >= 1
  {
    var (ms, glob) := IndexEntries(data, indexPage);
    RegisterMethods(map[], ms, glob, enc, bookType)
  }

  /** The entries the loop visits and the global availability it uses. */
  function IndexEntries(data: seq<byte>, indexPage: nat): (r: (seq<SearchIndex>, byte))
    requires indexPage >= 1
    ensures |r.0| <= MaxIndices && r.1 <= 2
  {
    var ind := ParseSubbookIndices(IndexPage(data, indexPage));
    (IndexMethods(ind), NormalizeGlobal(ind.globalAvailability))
  }

  /** Every search of a table covers a page range that does not run backwards. */
  ghost predicate RangesOrdered(t: Book.SearchTable)
  {
    forall k :: k in t ==>
      (t[k].One? ==> t[k].search.startPage <= t[k].search.endPage) &&
      (t[k].Many? ==> forall j :: 0 <= j < |t[k].searches| ==> t[k].searches[j].startPage <= t[k].searches[j].endPage)
  }

  lemma SetSearchOrdered(t: Book.SearchTable, key: Book.SearchType, s: Book.Search, bookType: string)
    requires RangesOrdered(t) && s.startPage <= s.endPage
    requires Book.SetSearch(t, key, s, bookType).Success?
    ensures RangesOrdered(Book.SetSearch(t, key, s, bookType).value)
  {
    var r := Book.SetSearch(t, key, s, bookType).value;
    forall k | k in r && r[k].Many?
      ensures forall j :: 0 <= j < |r[k].searches| ==> r[k].searches[j].startPage <= r[k].searches[j].endPage
    {
      if k in t && r[k] != t[k] {
        assert k == Book.NameKey(Book.MultiName);
        assert t[k].Many? && r[k].searches == t[k].searches + [s];
      }
    }
  }

  /** The assertion of the loop carries over to the table: every registered search has an
      ordered page range. */
  lemma {:induction false} RegisterMethodsOrdered(t: Book.SearchTable, ms: seq<SearchIndex>, glob: byte, enc: Encoding, bookType: string)
    requires RangesOrdered(t)
    ensures RegisterMethods(t, ms, glob, enc, bookType).Success? ==> RangesOrdered(RegisterMethods(t, ms, glob, enc, bookType).value)
    decreases |ms|
  {
    if |ms| > 0 && ms[0].startPage <= ms[0].EndPage() {
      match SearchTypeOf(ms[0].indexId)
      case None => RegisterMethodsOrdered(t, ms[1..], glob, enc, bookType);
      case Some(k) =>
        var s := MethodSearch(ms[0], glob, enc);
        if Book.SetSearch(t, k, s, bookType).Success? {
          SetSearchOrdered(t, k, s, bookType);
          RegisterMethodsOrdered(Book.SetSearch(t, k, s, bookType).value, ms[1..], glob, enc, bookType);
        }
    }
  }

  /** The loaded table only holds ordered ranges. */
  lemma LoadIndicesOrdered(data: seq<byte>, indexPage: nat, enc: Encoding, bookType: string)
    requires indexPage >= 1
    ensures LoadIndices(data, indexPage, enc, bookType).Success? ==> RangesOrdered(LoadIndices(data, indexPage, enc, bookType).value)
  {
    var (ms, glob) := IndexEntries(data, indexPage);
    RegisterMethodsOrdered(map[], ms, glob, enc, bookType);
  }

  /** An entry whose id has no search type leaves no trace in the table. */
  lemma UnknownIdSkipped(t: Book.SearchTable, m: SearchIndex, ms: seq<SearchIndex>, glob: byte, enc: Encoding, bookType: string)
    requires SearchTypeOf(m.indexId).None? && m.startPage <= m.EndPage()
    ensures RegisterMethods(t, [m] + ms, glob, enc, bookType) == RegisterMethods(t, ms, glob, enc, bookType)
  {
    assert ([m] + ms)[1..] == ms;
  }

  /** An entry whose stored page count is 0 ends before it starts and stops the loading. */
  lemma EmptyRangeFails(t: Book.SearchTable, m: SearchIndex, ms: seq<SearchIndex>, glob: byte, enc: Encoding, bookType: string)
    requires m.endPageRaw == 0
    ensures RegisterMethods(t, [m] + ms, glob, enc, bookType) == Failure(AssertionFailed)
  {
  }

  /** `_load_indices` run against a subbook: the search table is reset and then filled entry
      by entry through the subbook's `_set_search`. */
  method LoadIndicesInto(sb: Book.Subbook, data: seq<byte>, enc: Encoding) returns (r: Result<(), Error>)
    requires sb.indexPage >= 1
    modifies sb
    ensures var spec := LoadIndices(data, sb.indexPage, enc, sb.bookType);
            (spec.Success? ==> r.Success? && sb.searches == spec.value) &&
            (spec.Failure? ==> r == Failure(spec.error))
  {
    var (ms, glob) := IndexEntries(data, sb.indexPage);
    sb.ResetSearches();
    r := RegisterInto(sb, ms, glob, enc);
  }

  /** The loop of `_load_indices` over the listed entries. */
  method RegisterInto(sb: Book.Subbook, ms: seq<SearchIndex>, glob: byte, enc: Encoding) returns (r: Result<(), Error>)
    modifies sb
    ensures var spec := RegisterMethods(old(sb.searches), ms, glob, enc, sb.bookType);
            (spec.Success? ==> r.Success? && sb.searches == spec.value) &&
            (spec.Failure? ==> r == Failure(spec.error))
  {
    var i := 0;
    while i < |ms|
      invariant 0 <= i <= |ms|
      invariant RegisterMethods(sb.searches, ms[i..], glob, enc, sb.bookType) == RegisterMethods(old(sb.searches), ms, glob, enc, sb.bookType)
    {
      var m := ms[i];
      assert ms[i..][0] == m && ms[i..][1..] == ms[i + 1..];
      if m.startPage > m.EndPage() {
        return Failure(AssertionFailed);
      }
      var st := SearchTypeOf(m.indexId);
      if st.Some? {
        var res := sb.SetSearchMethod(st.value, MethodSearch(m, glob, enc));
        if res.Failure? {
          return res;
        }
      }
      i := i + 1;
    }
    r := Success(());
  }

  /** Where `read` starts: a location cannot be sought (the text has no `seek`), a search
      starts at the first page of its method (a missing method raises, and so does the list
      of 'multi' methods), and otherwise the text is read from where the file stands. */
  function ReadStart(location: bool, search: Option<Book.TableKey>, t: Book.SearchTable, current: nat): (r: Result<nat, Error>)
    ensures location ==> r == Failure(AttributeError)
    ensures !location && search.None? ==> r == Success(current)
    ensures !location && search.Some? && search.value !in t ==> r == Failure(KeyError)
    ensures !location && search.Some? && search.value in t && t[search.value].Many? ==> r == Failure(TypeError)
    ensures !location && search.Some? && search.value in t && t[search.value].One? ==>
              (r.Success? <==> t[search.value].search.startPage >= 1)
    ensures r.Success? && search.Some? && !location ==>
              r.value == SeekPosition(t[search.value].search.startPage, 0) && r.value % PageSize == 0
  {
    if location then Failure(AttributeError)
    else if search.None? then Success(current)
    else if search.value !in t then Failure(KeyError)
    else match t[search.value]
      case Many(_) => Failure(TypeError)
      case One(s) =>
        if s.startPage == 0 then Failure(SeekError)
        else
          SeekPageInverse(s.startPage, 0);
          Success(SeekPosition(s.startPage, 0))
  }

  // ---------------------------------------------------------------------
  // The reader: what it builds

  /** A structure the reader read for a section or a directive: its layout and its bytes. */
  datatype StructRead = StructRead(payload: Payload, bytes: seq<byte>)

  /** What the reader builds: runs of decoded text, sections with their children and the
      structures read for them, and directives with their constant attributes and the
      structure read for them. The `info` dictionary of an item is `InfoOf` its structures. */
  datatype Item =
    | Run(text: string)
    | Node(name: SectionName, data: seq<Item>, structs: seq<StructRead>)
    | Mark(name: SectionName, attrs: map<string, Value>, structs: seq<StructRead>)

  /** An open section on the reader's stack: its name, its children so far and the
      structures read for it. */
  datatype Frame = Frame(name: SectionName, data: seq<Item>, structs: seq<StructRead>)

  /** The information one structure carries. */
  function StructInfo(s: StructRead): map<string, Value>
  {
    if |s.bytes| == PayloadSize(s.payload) then PayloadInfo(s.payload, s.bytes) else map[]
  }

  /** The information of several structures read in turn: each later structure adds its
      keys and overrides the values of keys already present. */
  function Merged(structs: seq<StructRead>): map<string, Value>
  {
    if |structs| == 0 then map[] else Merged(structs[..|structs| - 1]) + StructInfo(structs[|structs| - 1])
  }

  /** An item's `info`: absent when no structure was read for it. */
  function InfoOf(structs: seq<StructRead>): (m: Option<map<string, Value>>)
    ensures m.None? <==> structs == []
  {
    if |structs| == 0 then None else Some(Merged(structs))
  }

  /** What a read works on and does not change: the bytes of the text file, the book's
      encoding and kind, the options of `read`, the appendix stop code (a header and the
      code compared with it), whether the unit at a position is an escape code, and the two
      character tables. */
  datatype Env = Env(
    data: seq<byte>,
    encoding: Encoding,
    isEpwing: bool,
    convertNarrow: bool,
    bySection: bool,
    appendixStop: Option<(Header, seq<byte>)>,
    nextIsCode: nat -> bool,
    jis: Codec.Charmap,
    gb: seq<byte> -> Option<string>)

  /** The reader's state (`TextContext` and the file position): the position, the stack of
      open sections, the count of characters emitted, the armed skip code, the automatic
      stop code, the gaiji flag and the sections handed out so far. */
  datatype Reader = Reader(
    pos: nat,
    stack: seq<Frame>,
    printable: nat,
    skip: Option<byte>,
    autoStop: Option<seq<byte>>,
    gaiji: bool,
    sections: seq<Item>)

  /** How a read ends: a hard stop, the end of the data, or an exception. */
  datatype Halt = HardStopped | EndOfData | Raised(error: Error)

  /** The result of reading one unit. */
  datatype Outcome = Continue(next: Reader) | Stop(halt: Halt)

  /** A fresh context reading from a position. */
  function Initial(start: nat): (r: Reader)
    ensures r.pos == start && r.stack == [] && r.printable == 0 && r.sections == []
    ensures r.skip.None? && r.autoStop.None? && !r.gaiji
  {
    Reader(start, [], 0, None, None, false, [])
  }

  /** `section_names`: the names of the open sections, outermost first. */
  function Names(stack: seq<Frame>): (ns: seq<SectionName>)
    ensures |ns| == |stack|
    ensures forall k :: 0 <= k < |stack| ==> ns[k] == stack[k].name
  {
    if |stack| == 0 then [] else Names(stack[..|stack| - 1]) + [stack[|stack| - 1].name]
  }

  /** The children of a section with no two text runs next to each other. */
  predicate Coalesced(data: seq<Item>)
  {
    forall i :: 0 < i < |data| ==> !(data[i].Run? && data[i - 1].Run?)
  }

  /** An item whose sections, at every depth, have coalesced children. */
  predicate Tidy(it: Item)
    decreases it
  {
    match it
    case Node(_, data, _) => Coalesced(data) && forall i :: 0 <= i < |data| ==> Tidy(data[i])
    case _ => true
  }

  predicate TidyAll(data: seq<Item>)
  {
    forall i :: 0 <= i < |data| ==> Tidy(data[i])
  }

  /** The reader keeps every open section and every handed-out section tidy. */
  predicate TidyReader(r: Reader)
  {
    TidyStack(r.stack) && TidyAll(r.sections)
  }

  predicate TidyFrame(f: Frame)
  {
    Coalesced(f.data) && TidyAll(f.data)
  }

  predicate TidyStack(stack: seq<Frame>)
  {
    forall k :: 0 <= k < |stack| ==> TidyFrame(stack[k])
  }

  /** The text of the runs among some items, in order. */
  function Texts(data: seq<Item>): (t: string)
  {
    if |data| == 0 then ""
    else Texts(data[..|data| - 1]) + (if data[|data| - 1].Run? then data[|data| - 1].text else "")
  }

  /** The items that are not text runs, in order. */
  function Others(data: seq<Item>): (o: seq<Item>)
  {
    if |data| == 0 then []
    else Others(data[..|data| - 1]) + (if data[|data| - 1].Run? then [] else [data[|data| - 1]])
  }

  /** Add decoded text to a section's children: a trailing run grows, otherwise a new run
      starts. */
  function AddText(data: seq<Item>, ch: string): (d: seq<Item>)
  {
    if |data| > 0 && data[|data| - 1].Run? then data[..|data| - 1] + [Run(data[|data| - 1].text + ch)]
    else data + [Run(ch)]
  }

  /** Adding text extends the runs' text by exactly that text and leaves every other child
      in place. */
  lemma AddTextJoins(data: seq<Item>, ch: string)
    ensures Texts(AddText(data, ch)) == Texts(data) + ch
    ensures Others(AddText(data, ch)) == Others(data)
    ensures |AddText(data, ch)| == |data| || |AddText(data, ch)| == |data| + 1
  {
    var d := AddText(data, ch);
    if |data| > 0 && data[|data| - 1].Run? {
      assert d[..|d| - 1] == data[..|data| - 1];
    } else {
      assert d[..|d| - 1] == data;
    }
  }

  /** Adding text keeps the runs coalesced and the sections among the children tidy. */
  lemma AddTextTidy(data: seq<Item>, ch: string)
    requires Coalesced(data) && TidyAll(data)
    ensures Coalesced(AddText(data, ch)) && TidyAll(AddText(data, ch))
  {
    var d := AddText(data, ch);
    var n := |data|;
    if n > 0 && data[n - 1].Run? {
      assert |d| == n && forall i :: 0 <= i < n - 1 ==> d[i] == data[i];
    } else {
      assert |d| == n + 1 && forall i :: 0 <= i < n ==> d[i] == data[i];
    }
  }

  /** Appending an item that is not a run adds it to the other children and no text. */
  lemma AppendOther(data: seq<Item>, it: Item)
    requires !it.Run?
    ensures Texts(data + [it]) == Texts(data)
    ensures Others(data + [it]) == Others(data) + [it]
    ensures Coalesced(data) ==> Coalesced(data + [it])
  {
    assert (data + [it])[..|data|] == data;
  }

  /** Put an item last among the children of the innermost open section; with no open
      section it goes nowhere. */
  function AppendToTop(stack: seq<Frame>, it: Item): (s: seq<Frame>)
    ensures |s| == |stack|
    ensures Names(s) == Names(stack)
    ensures |stack| > 0 ==> s[..|s| - 1] == stack[..|stack| - 1] && s[|s| - 1].structs == stack[|stack| - 1].structs
    ensures |stack| > 0 ==> s[|s| - 1].data == stack[|stack| - 1].data + [it]
  {
    if |stack| == 0 then stack
    else
      var top := stack[|stack| - 1];
      stack[..|stack| - 1] + [top.(data := top.data + [it])]
  }

  /** Add decoded text to the innermost open section. */
  function TextToTop(stack: seq<Frame>, ch: string): (s: seq<Frame>)
    requires |stack| > 0
    ensures |s| == |stack| && Names(s) == Names(stack)
    ensures s[..|s| - 1] == stack[..|stack| - 1] && s[|s| - 1].structs == stack[|stack| - 1].structs
    ensures s[|s| - 1].data == AddText(stack[|stack| - 1].data, ch)
  {
    var top := stack[|stack| - 1];
    var s := stack[..|stack| - 1] + [top.(data := AddText(top.data, ch))];
    assert Names(s) == Names(stack);
    s
  }

  // ---------------------------------------------------------------------
  // The reader: characters

  /** What reading a character unit gives: optional text and the next position, or an error
      of a codec. */
  datatype CharResult = CharRead(text: Option<string>, next: nat) | CharFailed(error: Error)

  /** The ISO 8859-1 code bytes that stand for one character each. */
  predicate Latin1Printable(b: byte)
  {
    (0x20 <= b < 0x7F) || 0xA0 <= b
  }

  /** A byte in the JIS X 0208 row and cell range 0x21..0x7E. */
  predicate JisByte(b: byte)
  {
    0x20 < b < 0x7F
  }

  /** A byte in the high range 0xA1..0xFE. */
  predicate HighByte(b: byte)
  {
    0xA0 < b < 0xFF
  }

  /** A two-byte unit in one of the ranges a wide character is taken from. */
  predicate WideCharacter(hd: Header)
  {
    (JisByte(hd.code1) && (JisByte(hd.code2) || HighByte(hd.code2))) || (HighByte(hd.code1) && JisByte(hd.code2))
  }

  /** `_read_character` on the unit at u, as intended: the unit's two code bytes are what
      the JIS X 0208 and GB 2312 decoders are given. */
  function ReadCharacter(env: Env, skip: Option<byte>, narrowOpen: bool, hd: Header, u: nat): (c: CharResult)
    ensures c.CharRead? ==> c.next == (if env.encoding == Latin1 && Latin1Printable(hd.code1) then u + 1 else u + 2)
    ensures skip.Some? ==> c.CharRead? && c.text.None?
    ensures env.encoding == Latin1 && skip.None? ==> c.CharRead? && c.text == Some([hd.code1 as int as char])
    ensures env.encoding != Latin1 && skip.None? && JisByte(hd.code1) && JisByte(hd.code2) ==>
              match Codec.Decode(env.jis, [hd.code1, hd.code2])
              case Success(v) => c == CharRead(Some(v.0), u + 2)
              case Failure(e) => c == CharFailed(e)
    ensures env.encoding != Latin1 && skip.None? && JisByte(hd.code1) && HighByte(hd.code2) ==>
              match env.gb([hd.code1, hd.code2])
              case Some(t) => c == CharRead(Some(t), u + 2)
              case None => c == CharFailed(ValueError)
    ensures env.encoding != Latin1 && skip.None? && HighByte(hd.code1) && JisByte(hd.code2) ==>
              c == CharRead(Some(if narrowOpen then "<local_narrow?>" else "<local_wide?>"), u + 2)
    ensures env.encoding != Latin1 && !WideCharacter(hd) ==> c == CharRead(None, u + 2)
  {
    if env.encoding == Latin1 then
      var next := if Latin1Printable(hd.code1) then u + 1 else u + 2;
      CharRead(if skip.None? then Some([hd.code1 as int as char]) else None, next)
    else if skip.Some? then CharRead(None, u + 2)
    else if JisByte(hd.code1) && JisByte(hd.code2) then
      match Codec.Decode(env.jis, [hd.code1, hd.code2])
      case Success(v) => CharRead(Some(v.0), u + 2)
      case Failure(e) => CharFailed(e)
    else if JisByte(hd.code1) && HighByte(hd.code2) then
      match env.gb([hd.code1, hd.code2])
      case Some(t) => CharRead(Some(t), u + 2)
      case None => CharFailed(ValueError)
    else if HighByte(hd.code1) && JisByte(hd.code2) then
      CharRead(Some(if narrowOpen then "<local_narrow?>" else "<local_wide?>"), u + 2)
    else CharRead(None, u + 2)
  }

  /** `_read_character` as written: in a JIS X 0208 book with no skip code armed, the
      unit's `code_bytes` is looked up before any range test, and a text header has no
      such member, so every such unit raises AttributeError. */
  function ReadCharacterAsWritten(env: Env, skip: Option<byte>, narrowOpen: bool, hd: Header, u: nat): (c: CharResult)
    ensures env.encoding != Latin1 && skip.None? ==> c == CharFailed(AttributeError)
    ensures c.CharRead? ==> c == ReadCharacter(env, skip, narrowOpen, hd, u)
    ensures env.encoding == Latin1 || skip.Some? ==> c.CharRead?
  {
    if env.encoding != Latin1 && skip.None? then CharFailed(AttributeError)
    else ReadCharacter(env, skip, narrowOpen, hd, u)
  }

  /** Units the intended reading turns into a placeholder or into nothing raise as
      written: a high first byte, or a pair outside the wide ranges, in a JIS X 0208 book. */
  lemma CodeBytesMissing(env: Env, narrowOpen: bool, hd: Header, u: nat)
    requires env.encoding != Latin1 && !JisByte(hd.code1)
    ensures ReadCharacterAsWritten(env, None, narrowOpen, hd, u) == CharFailed(AttributeError)
    ensures ReadCharacter(env, None, narrowOpen, hd, u).CharRead?
  {
  }

  /** A JIS X 0208 pair decodes as intended whenever the table maps it, and raises as
      written: the unit 30 21 of a JIS X 0208 book. */
  lemma CodeBytesJisPair(env: Env, u: nat)
    requires env.encoding == JisX0208 && Codec.Decode(env.jis, [0x30, 0x21]).Success?
    ensures ReadCharacterAsWritten(env, None, false, Header(0x30, 0x21), u) == CharFailed(AttributeError)
    ensures ReadCharacter(env, None, false, Header(0x30, 0x21), u) ==
            CharRead(Some(Codec.Decode(env.jis, [0x30, 0x21]).value.0), u + 2)
  {
  }

  // ---------------------------------------------------------------------
  // The reader: escape sequences

  /** `check_stop_code` on the code a keyword carries: with no stop code in the appendix,
      the unit must be the keyword start and the code the automatic stop code; otherwise
      the unit and the code must be the appendix's. */
  function CheckStopCode(appendixStop: Option<(Header, seq<byte>)>, hd: Header, code: seq<byte>, autoStop: Option<seq<byte>>): (b: bool)
  {
    match appendixStop
    case None => hd.IsSection() && hd.code2 == KeywordCode && autoStop == Some(code)
    case Some(stop) => stop == (hd, code)
  }

  /** The outcome of calling a handler's hook for the unit at the reader's position: the
      position after its structure, the structure read, the handler's effect and
      the bytes to skip afterwards. */
  datatype HookCall =
    | Called(after: nat, structs: seq<StructRead>, effect: Effect, skip: nat)
    | HookFailed(halt: Halt)

  /** Every structure is at least four bytes long. */
  lemma PayloadAtLeastFour(p: Payload)
    ensures PayloadSize(p) >= 4
  {
  }

  /** Only a keyword start may set the automatic stop code, and only while none is set. */
  lemma AutoStopWhenUnset(h: HandlerKind, phase: Phase, bs: seq<byte>, ctx: HandlerContext)
    requires HookOf(h, phase).Success?
    requires HookOf(h, phase).value.payload.Some? ==> |bs| == PayloadSize(HookOf(h, phase).value.payload.value)
    ensures HandlerEffect(h, phase, bs, ctx).setAutoStop.Some? ==> ctx.autoStop.None? && phase == StartPhase
  {
    if h == KeywordH && phase == StartPhase {
      var e := KeywordEffect(ctx, KeywordStopCode(bs));
      assert HandlerEffect(h, phase, bs, ctx) == e;
    }
  }

  /** Call the hook of handler hk for the current unit: the structure is read from the start
      of the unit, and the handler sees the state of the reader. */
  function CallHook(env: Env, r: Reader, hd: Header, hk: HandlerKind, phase: Phase): (c: HookCall)
    ensures HookOf(hk, phase).Failure? ==> c == HookFailed(Raised(HookOf(hk, phase).error))
    ensures c.HookFailed? ==> c.halt == EndOfData || c.halt.Raised?
    ensures c.Called? ==> HookOf(hk, phase).Success? && c.skip == HookOf(hk, phase).value.skip
    ensures c.Called? && HookOf(hk, phase).value.payload.None? ==> c.after == r.pos + 2 && c.structs == []
    ensures c.Called? && HookOf(hk, phase).value.payload.Some? ==>
              c.after == r.pos + PayloadSize(HookOf(hk, phase).value.payload.value) && c.after <= |env.data| &&
              c.structs == [StructRead(HookOf(hk, phase).value.payload.value, env.data[r.pos..c.after])]
    ensures c.Called? ==> c.after >= r.pos + 2
    ensures c.Called? && c.effect.signal != HardStop ==> c.after + c.effect.seek >= r.pos + 2
    ensures c.Called? ==> (c.effect.signal == HardStop <==> hk == TextH && phase == EndPhase)
    ensures c.Called? && c.effect.signal == SoftStop ==> hk == KeywordH && phase == StartPhase
    ensures c.Called? && c.effect.setAutoStop.Some? ==> r.autoStop.None?
  {
    match HookOf(hk, phase)
    case Failure(e) => HookFailed(Raised(e))
    case Success(hook) =>
      var u := r.pos;
      match hook.payload
      case None =>
        var ctx := HandlerContext(env.isEpwing, env.encoding, env.nextIsCode(u + 2), r.printable, true,
                                  CheckStopCode(env.appendixStop, hd, [], r.autoStop), r.autoStop);
        AutoStopWhenUnset(hk, phase, [], ctx);
        Called(u + 2, [], HandlerEffect(hk, phase, [], ctx), hook.skip)
      case Some(p) =>
        var size := PayloadSize(p);
        PayloadAtLeastFour(p);
        if u + size > |env.data| then HookFailed(EndOfData)
        else
          var bs := env.data[u..u + size];
          var code := if p == KeywordP then KeywordStopCode(bs) else [];
          var ctx := HandlerContext(env.isEpwing, env.encoding, env.nextIsCode(u + size), r.printable, true,
                                    CheckStopCode(env.appendixStop, hd, code, r.autoStop), r.autoStop);
          AutoStopWhenUnset(hk, phase, bs, ctx);
          Called(u + size, [StructRead(p, bs)], HandlerEffect(hk, phase, bs, ctx), hook.skip)
  }

  /** What the reader does once a hook returns: stops and raised exceptions end the read,
      a soft stop leaves the position after the structure, and otherwise the handler's seek
      and the hook's skip apply and the handler's marks are kept. */
  function Conclude(r: Reader, after: nat, e: Effect, skip: nat): (o: Outcome)
    requires e.signal != HardStop ==> after + e.seek >= 0
    ensures o.Stop? <==> !(e.signal == Proceed || e.signal == SoftStop)
    ensures e.signal == HardStop ==> o == Stop(HardStopped)
    ensures e.signal == SkipSection ==> o == Stop(Raised(SkipRaised))
    ensures e.signal.Raise? ==> o == Stop(Raised(e.signal.error))
    ensures o.Continue? ==>
              o.next.stack == r.stack && o.next.printable == r.printable &&
              o.next.skip == r.skip && o.next.sections == r.sections
    ensures e.signal == SoftStop ==> o == Continue(r.(pos := after))
    ensures e.signal == Proceed ==>
              o.next.pos == after + e.seek + skip &&
              o.next.autoStop == (if e.setAutoStop.Some? then e.setAutoStop else r.autoStop) &&
              o.next.gaiji == (r.gaiji || e.markGaiji)
  {
    match e.signal
    case HardStop => Stop(HardStopped)
    case SkipSection => Stop(Raised(SkipRaised))
    case Raise(err) => Stop(Raised(err))
    case SoftStop => Continue(r.(pos := after))
    case Proceed =>
      Continue(r.(pos := after + e.seek + skip,
                  autoStop := if e.setAutoStop.Some? then e.setAutoStop else r.autoStop,
                  gaiji := r.gaiji || e.markGaiji))
  }

  /** `dict.update` on optional information: new keys are added and keys already present
      take the new value. */
  function MergeInfo(before: Option<map<string, Value>>, read: Option<map<string, Value>>): (m: Option<map<string, Value>>)
    ensures read.None? ==> m == before
    ensures read.Some? ==> m.Some? && m.value.Keys == read.value.Keys + (if before.Some? then before.value.Keys else {})
    ensures read.Some? ==> forall k :: k in read.value ==> m.value[k] == read.value[k]
    ensures read.Some? && before.Some? ==> forall k :: k in before.value && k !in read.value ==> m.value[k] == before.value[k]
  {
    match read
    case None => before
    case Some(n) => if before.Some? then Some(before.value + n) else Some(n)
  }

  /** Reading one more structure for an item updates its information as `dict.update`
      does: a section's end structure updates what its start structure gave. */
  lemma InfoOfAppend(structs: seq<StructRead>, s: StructRead)
    ensures InfoOf(structs + [s]) == MergeInfo(InfoOf(structs), Some(StructInfo(s)))
  {
    assert (structs + [s])[..|structs|] == structs;
    if structs == [] {
      assert Merged([]) + StructInfo(s) == StructInfo(s);
    }
  }

  /** The information of a section whose only structure is a keyword start's: its automatic
      stop code. */
  lemma KeywordReadInfo(bs: seq<byte>)
    requires |bs| == 4
    ensures InfoOf([StructRead(KeywordP, bs)]) == Some(map["auto_stop_code" := BytesV(bs[2..4])])
  {
    var s := StructRead(KeywordP, bs);
    assert PayloadSize(KeywordP) == 4;
    assert StructInfo(s) == KeywordInfo(bs);
    assert [s][..0] == [];
    assert map[] + StructInfo(s) == StructInfo(s);
    assert Merged([s]) == Merged([]) + StructInfo(s);
  }

  /** Hand out a finished section: it becomes the last child of the section around it, and
      with `by='section'` it is yielded when its end ran to completion. */
  function Close(env: Env, r: Reader, node: Item, completed: bool): (n: Reader)
  {
    r.(stack := AppendToTop(r.stack, node),
       sections := if completed && env.bySection then r.sections + [node] else r.sections)
  }

  /** What one unit can change: the position advances, sections handed out are kept and at
      most one is added, at most one character is counted, the stack grows or shrinks by at
      most one section, a set automatic stop code stays and a set gaiji flag stays set. */
  predicate Framed(r: Reader, n: Reader)
  {
    n.pos > r.pos &&
    r.sections <= n.sections && |n.sections| <= |r.sections| + 1 &&
    (n.printable == r.printable || n.printable == r.printable + 1) &&
    |r.stack| - 1 <= |n.stack| <= |r.stack| + 1 &&
    (r.autoStop.Some? ==> n.autoStop == r.autoStop) &&
    (r.gaiji ==> n.gaiji)
  }

  /** `_read_section` for a start token. */
  function StartSection(env: Env, r: Reader, hd: Header, name: SectionName): (o: Outcome)
    ensures o.Continue? ==> Framed(r, o.next)
  {
    if name == NarrowName && env.convertNarrow then Continue(r.(pos := r.pos + 2))
    else
      match HandlerOf(name)
      case None => Continue(r.(pos := r.pos + 2, stack := r.stack + [Frame(name, [], [])]))
      case Some(hk) => StartHook(env, r, hd, name, hk)
  }

  /** A start token whose handler has a hook: the new section is pushed with the structure
      the hook read, then the handler's effect applies. */
  function StartHook(env: Env, r: Reader, hd: Header, name: SectionName, hk: HandlerKind): (o: Outcome)
    ensures o.Continue? ==> Framed(r, o.next)
    ensures o.Continue? ==>
              |o.next.stack| == |r.stack| + 1 && o.next.stack[..|r.stack|] == r.stack &&
              o.next.stack[|r.stack|].name == name && o.next.stack[|r.stack|].data == [] &&
              o.next.sections == r.sections && o.next.printable == r.printable && o.next.skip == r.skip
  {
    match CallHook(env, r, hd, hk, StartPhase)
    case HookFailed(h) => Stop(h)
    case Called(after, structs, e, skip) =>
      var pushed := r.stack + [Frame(name, [], structs)];
      assert pushed[..|r.stack|] == r.stack;
      Conclude(r.(stack := pushed), after, e, skip)
  }

  /** `_read_section` for an end token. */
  function EndSection(env: Env, r: Reader, hd: Header, name: SectionName): (o: Outcome)
    ensures o.Continue? ==> Framed(r, o.next)
  {
    if name == NarrowName && env.convertNarrow then Continue(r.(pos := r.pos + 2))
    else if |r.stack| == 0 || r.stack[|r.stack| - 1].name != name then Stop(Raised(AssertionFailed))
    else EndMatched(env, r, hd, name)
  }

  /** The end of the innermost section, whose name the end token matches. */
  function EndMatched(env: Env, r: Reader, hd: Header, name: SectionName): (o: Outcome)
    requires |r.stack| > 0 && r.stack[|r.stack| - 1].name == name
    ensures o.Continue? ==> Framed(r, o.next)
  {
    var top := r.stack[|r.stack| - 1];
    match HandlerOf(name)
    case None => Continue(Close(env, r.(pos := r.pos + 2, stack := r.stack[..|r.stack| - 1]), Node(name, top.data, top.structs), true))
    case Some(hk) => EndHook(env, r, hd, hk)
  }

  /** The end of the innermost section when its handler has an end hook. */
  function EndHook(env: Env, r: Reader, hd: Header, hk: HandlerKind): (o: Outcome)
    requires |r.stack| > 0
    ensures o.Continue? ==> Framed(r, o.next)
  {
    match CallHook(env, r, hd, hk, EndPhase)
    case HookFailed(h) => Stop(h)
    case Called(after, structs, e, skip) => EndConclude(env, r, after, structs, e, skip)
  }

  /** Once the end hook returned: the innermost section is popped, the reader goes on as the
      handler says, and the section, with its end structure, is attached to its parent and
      handed out if the end ran to completion. */
  function EndConclude(env: Env, r: Reader, after: nat, structs: seq<StructRead>, e: Effect, skip: nat): (o: Outcome)
    requires |r.stack| > 0 && (e.signal != HardStop ==> after + e.seek >= 0)
    ensures o.Continue? ==> o.next.stack == AppendToTop(r.stack[..|r.stack| - 1], EndNode(r, structs))
  {
    var node := EndNode(r, structs);
    match Conclude(r.(stack := r.stack[..|r.stack| - 1]), after, e, skip)
    case Stop(h) => Stop(h)
    case Continue(n) => Continue(Close(env, n, node, e.signal == Proceed))
  }

  /** The innermost section, closed with some more structures. */
  function EndNode(r: Reader, structs: seq<StructRead>): (it: Item)
    requires |r.stack| > 0
    ensures it.Node? && it.name == r.stack[|r.stack| - 1].name && it.data == r.stack[|r.stack| - 1].data
  {
    var top := r.stack[|r.stack| - 1];
    Node(top.name, top.data, top.structs + structs)
  }

  /** `_read_section` for a directive. */
  function DirectiveUnit(env: Env, r: Reader, hd: Header, name: SectionName, attrs: map<string, Value>): (o: Outcome)
    ensures o.Continue? ==> Framed(r, o.next)
  {
    match HandlerOf(name)
    case None => Continue(r.(pos := r.pos + 2, stack := AppendToTop(r.stack, Mark(name, attrs, []))))
    case Some(hk) => DirectiveHook(env, r, hd, name, attrs, hk)
  }

  /** A directive whose handler has a hook. */
  function DirectiveHook(env: Env, r: Reader, hd: Header, name: SectionName, attrs: map<string, Value>, hk: HandlerKind): (o: Outcome)
    ensures o.Continue? ==> Framed(r, o.next)
  {
    match CallHook(env, r, hd, hk, DirectivePhase)
    case HookFailed(h) => Stop(h)
    case Called(after, structs, e, skip) =>
      Conclude(r.(stack := AppendToTop(r.stack, Mark(name, attrs, structs))), after, e, skip)
  }

  /** A registered escape code. */
  function TokenUnit(env: Env, r: Reader, hd: Header, t: Token): (o: Outcome)
    ensures o.Continue? ==> Framed(r, o.next)
  {
    match t
    case Start(name) => StartSection(env, r, hd, name)
    case End(name) => EndSection(env, r, hd, name)
    case Directive(name, attrs) => DirectiveUnit(env, r, hd, name, attrs)
    case SkipCode(_, _) => Stop(Raised(NotImplemented))
  }

  /** A character unit inside a section. */
  function CharacterUnit(env: Env, r: Reader, hd: Header): (o: Outcome)
    requires |r.stack| > 0
    ensures o.Continue? ==> Framed(r, o.next)
    ensures o.Stop? ==> o.halt.Raised?
  {
    match ReadCharacter(env, r.skip, NarrowName in Names(r.stack), hd, r.pos)
    case CharFailed(e) => Stop(Raised(e))
    case CharRead(text, next) =>
      if text.None? then Continue(r.(pos := next))
      else Continue(r.(pos := next, printable := r.printable + 1, stack := TextToTop(r.stack, text.value)))
  }

  /** One pass of the loop of `read`: the two-byte unit at the position, if there is one. */
  function Step(env: Env, r: Reader): (o: Outcome)
    ensures o.Continue? ==> o.next.pos > r.pos
  {
    if r.pos + 2 > |env.data| then Stop(EndOfData)
    else UnitAt(env, r, HeaderAt(env, r))
  }

  /** The unit with header hd: an escape code, or else a unit of text. */
  function UnitAt(env: Env, r: Reader, hd: Header): (o: Outcome)
    ensures o.Continue? ==> Framed(r, o.next)
  {
    if hd.IsSection() then EscapeUnit(env, r, hd) else PlainUnit(env, r, hd)
  }

  /** An escape code: one with no registered meaning only disarms an equal skip code. */
  function EscapeUnit(env: Env, r: Reader, hd: Header): (o: Outcome)
    ensures o.Continue? ==> Framed(r, o.next)
  {
    match Section(hd.code2)
    case None => Continue(r.(pos := r.pos + 2, skip := if r.skip == Some(hd.code2) then None else r.skip))
    case Some(t) => TokenUnit(env, r, hd, t)
  }

  /** A unit of text: outside every section it is passed over, inside it is a character. */
  function PlainUnit(env: Env, r: Reader, hd: Header): (o: Outcome)
    ensures o.Continue? ==> Framed(r, o.next)
    ensures o.Stop? ==> o.halt.Raised?
  {
    if |r.stack| == 0 then Continue(r.(pos := r.pos + 2)) else CharacterUnit(env, r, hd)
  }

  /** The loop of `read`, run until it stops: how it stopped and the state it had reached. */
  function Loop(env: Env, r: Reader): (res: (Halt, Reader))
    decreases |env.data| - r.pos
  {
    match Step(env, r)
    case Stop(h) => (h, r)
    case Continue(n) => Loop(env, n)
  }

  // ---------------------------------------------------------------------
  // Properties of the reader

  /** The header of the unit at the reader's position. */
  function HeaderAt(env: Env, r: Reader): (hd: Header)
    requires r.pos + 2 <= |env.data|
    ensures hd.code1 == env.data[r.pos] && hd.code2 == env.data[r.pos + 1]
  {
    Header(env.data[r.pos], env.data[r.pos + 1])
  }

  /** A unit outside every section is passed over and changes nothing else. */
  lemma OutsideSectionsInert(env: Env, r: Reader)
    requires r.pos + 2 <= |env.data| && !HeaderAt(env, r).IsSection() && |r.stack| == 0
    ensures Step(env, r) == Continue(r.(pos := r.pos + 2))
  {
  }

  /** An escape code with no registered meaning disarms the skip code it equals, and does
      nothing else. */
  lemma UnregisteredCodeDisarms(env: Env, r: Reader)
    requires r.pos + 2 <= |env.data| && HeaderAt(env, r).IsSection() && Section(HeaderAt(env, r).code2).None?
    ensures Step(env, r).Continue?
    ensures Step(env, r).next == r.(pos := r.pos + 2, skip := if r.skip == Some(env.data[r.pos + 1]) then None else r.skip)
  {
  }

  /** A character unit inside a section: at most one character is emitted, the count of
      printable characters rises by one exactly when it is, the text of the innermost
      section grows by that character and nothing else changes; while a skip code is armed
      nothing is emitted. */
  lemma CharacterCounted(env: Env, r: Reader)
    requires r.pos + 2 <= |env.data| && !HeaderAt(env, r).IsSection() && |r.stack| > 0
    requires Step(env, r).Continue?
    ensures var c := ReadCharacter(env, r.skip, NarrowName in Names(r.stack), HeaderAt(env, r), r.pos);
            var n := Step(env, r).next;
            var k := |r.stack| - 1;
            c.CharRead? && n.pos == c.next &&
            (n.printable == r.printable + 1 <==> c.text.Some?) &&
            (c.text.None? ==> n == r.(pos := c.next)) &&
            (c.text.Some? ==>
               n == r.(pos := c.next, printable := r.printable + 1, stack := n.stack) &&
               Names(n.stack) == Names(r.stack) && n.stack[..k] == r.stack[..k] && n.stack[k].structs == r.stack[k].structs &&
               Texts(n.stack[k].data) == Texts(r.stack[k].data) + c.text.value &&
               Others(n.stack[k].data) == Others(r.stack[k].data))
    ensures r.skip.Some? ==> Step(env, r).next == r.(pos := Step(env, r).next.pos)
  {
    var k := |r.stack| - 1;
    var c := ReadCharacter(env, r.skip, NarrowName in Names(r.stack), HeaderAt(env, r), r.pos);
    if c.CharRead? && c.text.Some? {
      AddTextJoins(r.stack[k].data, c.text.value);
    }
  }

  /** A start token opens a section: a new, empty section goes on top of the stack, below
      it nothing changes, and nothing is handed out. A narrow start is ignored when narrow
      text is converted. */
  lemma StartPushes(env: Env, r: Reader, hd: Header, name: SectionName)
    requires StartSection(env, r, hd, name).Continue?
    ensures var n := StartSection(env, r, hd, name).next;
            if name == NarrowName && env.convertNarrow then n == r.(pos := r.pos + 2)
            else
              |n.stack| == |r.stack| + 1 && n.stack[..|r.stack|] == r.stack &&
              n.stack[|r.stack|].name == name && n.stack[|r.stack|].data == [] &&
              Names(n.stack) == Names(r.stack) + [name] &&
              n.sections == r.sections && n.printable == r.printable && n.skip == r.skip
  {
    var n := StartSection(env, r, hd, name).next;
    if !(name == NarrowName && env.convertNarrow) {
      if HandlerOf(name).Some? {
        assert StartSection(env, r, hd, name) == StartHook(env, r, hd, name, HandlerOf(name).value);
      } else {
        assert n.stack == r.stack + [Frame(name, [], [])];
        assert n.stack[..|r.stack|] == r.stack;
      }
      assert Names(n.stack)[..|r.stack|] == Names(r.stack);
    }
  }

  /** An end token whose name is not the innermost open section's is a malformed text. */
  lemma EndMismatchFails(env: Env, r: Reader, hd: Header, name: SectionName)
    requires !(name == NarrowName && env.convertNarrow)
    ensures EndSection(env, r, hd, name) == Stop(Raised(AssertionFailed)) <==>
              |r.stack| == 0 || r.stack[|r.stack| - 1].name != name
  {
  }

  /** An end token closes the innermost open section: it leaves the stack, becomes the last
      child of the section around it with the children it gathered, and is handed out when
      reading by section; nothing else on the stack changes. */
  lemma EndPops(env: Env, r: Reader, hd: Header, name: SectionName)
    requires EndSection(env, r, hd, name).Continue?
    requires !(name == NarrowName && env.convertNarrow)
    ensures |r.stack| > 0 && r.stack[|r.stack| - 1].name == name
    ensures var n := EndSection(env, r, hd, name).next;
            var k := |r.stack| - 1;
            var node := Node(name, r.stack[k].data, NodeStructs(env, r, hd, name));
            n.stack == AppendToTop(r.stack[..k], node) &&
            Names(n.stack) == Names(r.stack)[..k] &&
            n.sections == (if env.bySection then r.sections + [node] else r.sections) &&
            n.printable == r.printable && n.skip == r.skip
  {
    var k := |r.stack| - 1;
    assert Names(r.stack[..k]) == Names(r.stack)[..k];
    if HandlerOf(name).Some? {
      EndHookPops(env, r, hd, HandlerOf(name).value);
    }
  }

  /** The same, through a handler's end hook. */
  lemma EndHookPops(env: Env, r: Reader, hd: Header, hk: HandlerKind)
    requires |r.stack| > 0 && EndHook(env, r, hd, hk).Continue?
    ensures var n := EndHook(env, r, hd, hk).next;
            var k := |r.stack| - 1;
            var node := Node(r.stack[k].name, r.stack[k].data, EndStructs(env, r, hd, hk));
            n.stack == AppendToTop(r.stack[..k], node) &&
            n.sections == (if env.bySection then r.sections + [node] else r.sections) &&
            n.printable == r.printable && n.skip == r.skip
  {
    var c := CallHook(env, r, hd, hk, EndPhase);
    assert c.Called?;
    assert EndHook(env, r, hd, hk) == EndConclude(env, r, c.after, c.structs, c.effect, c.skip);
    assert EndStructs(env, r, hd, hk) == r.stack[|r.stack| - 1].structs + c.structs;
  }

  /** The structures of a closed section: its start's, then its end's. */
  function NodeStructs(env: Env, r: Reader, hd: Header, name: SectionName): (m: seq<StructRead>)
    requires |r.stack| > 0
  {
    match HandlerOf(name)
    case None => r.stack[|r.stack| - 1].structs
    case Some(hk) => EndStructs(env, r, hd, hk)
  }

  /** The structures of a section closed through an end hook. */
  function EndStructs(env: Env, r: Reader, hd: Header, hk: HandlerKind): (m: seq<StructRead>)
    requires |r.stack| > 0
  {
    var before := r.stack[|r.stack| - 1].structs;
    match CallHook(env, r, hd, hk, EndPhase)
    case HookFailed(_) => before
    case Called(_, structs, _, _) => before + structs
  }

  /** A directive becomes the last child of the innermost open section and opens nothing. */
  lemma DirectiveAppends(env: Env, r: Reader, hd: Header, name: SectionName, attrs: map<string, Value>)
    requires DirectiveUnit(env, r, hd, name, attrs).Continue?
    ensures var n := DirectiveUnit(env, r, hd, name, attrs).next;
            n.stack == AppendToTop(r.stack, Mark(name, attrs, MarkStructs(env, r, hd, name))) &&
            Names(n.stack) == Names(r.stack) &&
            n.sections == r.sections && n.printable == r.printable && n.skip == r.skip
  {
  }

  /** The structure of a directive, if it has one. */
  function MarkStructs(env: Env, r: Reader, hd: Header, name: SectionName): (m: seq<StructRead>)
  {
    match HandlerOf(name)
    case None => []
    case Some(hk) =>
      match CallHook(env, r, hd, hk, DirectivePhase)
      case HookFailed(_) => []
      case Called(_, structs, _, _) => structs
  }

  /** When narrow text is converted, the narrow tokens only move the position. */
  lemma NarrowIgnored(env: Env, r: Reader, hd: Header)
    requires env.convertNarrow
    ensures StartSection(env, r, hd, NarrowName) == Continue(r.(pos := r.pos + 2))
    ensures EndSection(env, r, hd, NarrowName) == Continue(r.(pos := r.pos + 2))
  {
  }

  /** The handler of the text section is the only handler that stops hard, at its end. */
  lemma TextHandlerOnly(name: SectionName)
    ensures HandlerOf(name) == Some(TextH) <==> name == TextName
  {
    HandlerNameKey();
  }

  /** An end token stops hard exactly when it closes an open text section. */
  lemma EndHardStops(env: Env, r: Reader, hd: Header, name: SectionName)
    ensures EndSection(env, r, hd, name) == Stop(HardStopped) <==>
              |r.stack| > 0 && r.stack[|r.stack| - 1].name == name && name == TextName
  {
    TextHandlerOnly(name);
  }

  /** Start tokens and directives never stop hard. */
  lemma OnlyEndsHardStop(env: Env, r: Reader, hd: Header, name: SectionName, attrs: map<string, Value>)
    ensures StartSection(env, r, hd, name) != Stop(HardStopped)
    ensures DirectiveUnit(env, r, hd, name, attrs) != Stop(HardStopped)
  {
    match HandlerOf(name)
    case None =>
    case Some(hk) =>
      if !(name == NarrowName && env.convertNarrow) {
        assert StartSection(env, r, hd, name) == StartHook(env, r, hd, name, hk);
      }
      assert DirectiveUnit(env, r, hd, name, attrs) == DirectiveHook(env, r, hd, name, attrs, hk);
      HooksNotHard(env, r, hd, name, attrs, hk);
  }

  /** Neither a start hook nor a directive hook stops hard. */
  lemma HooksNotHard(env: Env, r: Reader, hd: Header, name: SectionName, attrs: map<string, Value>, hk: HandlerKind)
    ensures StartHook(env, r, hd, name, hk) != Stop(HardStopped)
    ensures DirectiveHook(env, r, hd, name, attrs, hk) != Stop(HardStopped)
  {
    StartHookNotHard(env, r, hd, name, hk);
    DirectiveHookNotHard(env, r, hd, name, attrs, hk);
  }

  /** A start hook never stops hard. */
  lemma StartHookNotHard(env: Env, r: Reader, hd: Header, name: SectionName, hk: HandlerKind)
    ensures StartHook(env, r, hd, name, hk) != Stop(HardStopped)
  {
    var c := CallHook(env, r, hd, hk, StartPhase);
    if c.Called? {
      assert c.effect.signal != HardStop;
    }
  }

  /** A directive hook never stops hard. */
  lemma DirectiveHookNotHard(env: Env, r: Reader, hd: Header, name: SectionName, attrs: map<string, Value>, hk: HandlerKind)
    ensures DirectiveHook(env, r, hd, name, attrs, hk) != Stop(HardStopped)
  {
    var d := CallHook(env, r, hd, hk, DirectivePhase);
    if d.Called? {
      assert d.effect.signal != HardStop;
    }
  }

  /** A read stops hard exactly at the end token of an open text section. */
  lemma TextEndHardStops(env: Env, r: Reader)
    ensures Step(env, r) == Stop(HardStopped) <==>
              r.pos + 2 <= |env.data| && HeaderAt(env, r).IsSection() &&
              Section(env.data[r.pos + 1]) == Some(End(TextName)) &&
              |r.stack| > 0 && r.stack[|r.stack| - 1].name == TextName
  {
    if r.pos + 2 <= |env.data| {
      var hd := HeaderAt(env, r);
      assert Step(env, r) == UnitAt(env, r, hd);
      if !hd.IsSection() {
        assert Step(env, r) == PlainUnit(env, r, hd);
      } else if Section(hd.code2).Some? {
        var t := Section(hd.code2).value;
        assert Step(env, r) == TokenUnit(env, r, hd, t);
        TokenHardStops(env, r, hd, t);
      } else {
        assert Step(env, r) == EscapeUnit(env, r, hd);
      }
    }
  }

  /** A registered escape code stops hard exactly when it is the end token of an open text
      section. */
  lemma TokenHardStops(env: Env, r: Reader, hd: Header, t: Token)
    ensures TokenUnit(env, r, hd, t) == Stop(HardStopped) <==>
              t == End(TextName) && |r.stack| > 0 && r.stack[|r.stack| - 1].name == TextName
  {
    match t
    case End(name) => EndHardStops(env, r, hd, name);
    case Start(name) => OnlyEndsHardStop(env, r, hd, name, map[]);
    case Directive(name, attrs) => OnlyEndsHardStop(env, r, hd, name, attrs);
    case SkipCode(_, _) =>
  }

  /** A keyword start reads its four-byte structure and opens a keyword section. After
      printable text, a unit that passes the stop-code check stops softly and leaves the
      automatic stop code alone; otherwise the first keyword's code becomes the automatic
      stop code and later keywords keep it. */
  lemma KeywordStart(env: Env, r: Reader, hd: Header)
    requires r.pos + 4 <= |env.data|
    ensures var bs := env.data[r.pos..r.pos + 4];
            var code := KeywordStopCode(bs);
            var stops := r.printable > 0 && CheckStopCode(env.appendixStop, hd, code, r.autoStop);
            StartSection(env, r, hd, KeywordName) ==
              Continue(r.(pos := r.pos + 4,
                          stack := r.stack + [Frame(KeywordName, [], [StructRead(KeywordP, bs)])],
                          autoStop := if !stops && r.autoStop.None? then Some(code) else r.autoStop))
  {
    var bs := env.data[r.pos..r.pos + 4];
    StartThroughHook(env, r, hd, KeywordName, KeywordH);
    KeywordCall(env, r, hd);
  }

  /** A start token whose handler is known is read through that handler's start hook. */
  lemma StartThroughHook(env: Env, r: Reader, hd: Header, name: SectionName, hk: HandlerKind)
    requires HandlerOf(name) == Some(hk) && name != NarrowName
    ensures StartSection(env, r, hd, name) == StartHook(env, r, hd, name, hk)
  { }

  /** The keyword's start hook reads its four-byte structure and applies the keyword effect. */
  lemma KeywordCall(env: Env, r: Reader, hd: Header)
    requires r.pos + 4 <= |env.data|
    ensures var bs := env.data[r.pos..r.pos + 4];
            var c := CallHook(env, r, hd, KeywordH, StartPhase);
            var ctx := HandlerContext(env.isEpwing, env.encoding, env.nextIsCode(r.pos + 4), r.printable, true,
                                      CheckStopCode(env.appendixStop, hd, KeywordStopCode(bs), r.autoStop), r.autoStop);
            c.Called? && c.after == r.pos + 4 && c.structs == [StructRead(KeywordP, bs)] && c.skip == 0 &&
            c.effect == KeywordEffect(ctx, KeywordStopCode(bs))
  {
    assert HookOf(KeywordH, StartPhase).Success? && HookOf(KeywordH, StartPhase).value == Hook(Some(KeywordP), 0);
    assert PayloadSize(KeywordP) == 4;
  }

  /** With no stop code in the appendix, a keyword start whose code is the automatic stop
      code stops softly once text has been emitted. */
  lemma RepeatedKeywordStops(env: Env, r: Reader)
    requires env.appendixStop.None? && r.printable > 0
    requires r.pos + 4 <= |env.data| && HeaderAt(env, r) == Header(SectionCode, KeywordCode)
    requires r.autoStop == Some(KeywordStopCode(env.data[r.pos..r.pos + 4]))
    ensures StartSection(env, r, HeaderAt(env, r), KeywordName).Continue?
    ensures StartSection(env, r, HeaderAt(env, r), KeywordName).next.autoStop == r.autoStop
    ensures StartSection(env, r, HeaderAt(env, r), KeywordName).next.pos == r.pos + 4
  {
    KeywordStart(env, r, HeaderAt(env, r));
  }

  // ---------------------------------------------------------------------
  // The reader keeps its sections tidy

  /** Closing a tidy frame gives a tidy section. */
  lemma CloseTidy(f: Frame, structs: seq<StructRead>)
    requires TidyFrame(f)
    ensures Tidy(Node(f.name, f.data, structs))
  {
  }

  /** Appending an item that is not a run to the innermost section keeps the stack tidy. */
  lemma AppendToTopTidy(stack: seq<Frame>, it: Item)
    requires TidyStack(stack) && Tidy(it) && !it.Run?
    ensures TidyStack(AppendToTop(stack, it))
  {
    if |stack| > 0 {
      var s := AppendToTop(stack, it);
      var k := |stack| - 1;
      assert forall j :: 0 <= j < k ==> s[j] == stack[j];
      TidyFrameAppend(stack[k], it);
      assert s[k] == stack[k].(data := stack[k].data + [it]);
    }
  }

  /** Appending an item that is not a run to a tidy section keeps it tidy. */
  lemma TidyFrameAppend(f: Frame, it: Item)
    requires TidyFrame(f) && Tidy(it) && !it.Run?
    ensures TidyFrame(f.(data := f.data + [it]))
  {
    AppendOther(f.data, it);
    var d := f.data + [it];
    assert forall i :: 0 <= i < |f.data| ==> d[i] == f.data[i];
  }

  /** Text added to the innermost section keeps the stack tidy. */
  lemma TextToTopTidy(stack: seq<Frame>, ch: string)
    requires |stack| > 0 && TidyStack(stack)
    ensures TidyStack(TextToTop(stack, ch))
  {
    var s := TextToTop(stack, ch);
    var k := |stack| - 1;
    AddTextTidy(stack[k].data, ch);
    assert forall j :: 0 <= j < k ==> s[j] == stack[j];
  }

  /** A start token keeps the reader tidy. */
  lemma StartTidy(env: Env, r: Reader, hd: Header, name: SectionName)
    requires TidyReader(r) && StartSection(env, r, hd, name).Continue?
    ensures TidyReader(StartSection(env, r, hd, name).next)
  {
    StartPushes(env, r, hd, name);
    var n := StartSection(env, r, hd, name).next;
    if !(name == NarrowName && env.convertNarrow) {
      forall k | 0 <= k < |n.stack|
        ensures TidyFrame(n.stack[k])
      {
        if k < |r.stack| {
          assert n.stack[k] == n.stack[..|r.stack|][k];
        }
      }
    }
  }

  /** Closing the innermost section keeps the reader tidy. */
  lemma PopTidy(r: Reader, n: Reader, structs: seq<StructRead>)
    requires TidyReader(r) && |r.stack| > 0
    requires var k := |r.stack| - 1;
             var node := Node(r.stack[k].name, r.stack[k].data, structs);
             n.stack == AppendToTop(r.stack[..k], node) &&
             (n.sections == r.sections || n.sections == r.sections + [node])
    ensures TidyReader(n)
  {
    var k := |r.stack| - 1;
    var node := Node(r.stack[k].name, r.stack[k].data, structs);
    CloseTidy(r.stack[k], structs);
    var rest := r.stack[..k];
    assert forall j :: 0 <= j < k ==> rest[j] == r.stack[j];
    AppendToTopTidy(rest, node);
    var ss := r.sections + [node];
    assert forall i :: 0 <= i < |r.sections| ==> ss[i] == r.sections[i];
  }

  /** An end token keeps the reader tidy. */
  lemma EndTidy(env: Env, r: Reader, hd: Header, name: SectionName)
    requires TidyReader(r) && EndSection(env, r, hd, name).Continue?
    ensures TidyReader(EndSection(env, r, hd, name).next)
  {
    if !(name == NarrowName && env.convertNarrow) {
      EndPops(env, r, hd, name);
      PopTidy(r, EndSection(env, r, hd, name).next, NodeStructs(env, r, hd, name));
    }
  }

  /** A directive keeps the reader tidy. */
  lemma DirectiveTidy(env: Env, r: Reader, hd: Header, name: SectionName, attrs: map<string, Value>)
    requires TidyReader(r) && DirectiveUnit(env, r, hd, name, attrs).Continue?
    ensures TidyReader(DirectiveUnit(env, r, hd, name, attrs).next)
  {
    DirectiveAppends(env, r, hd, name, attrs);
    AppendToTopTidy(r.stack, Mark(name, attrs, MarkStructs(env, r, hd, name)));
  }

  /** Every unit keeps the reader tidy: no section, open or handed out, ever holds two text
      runs next to each other. */
  lemma StepTidy(env: Env, r: Reader)
    requires TidyReader(r) && Step(env, r).Continue?
    ensures TidyReader(Step(env, r).next)
  {
    var hd := HeaderAt(env, r);
    if hd.IsSection() {
      if Section(hd.code2).Some? {
        match Section(hd.code2).value
        case Start(name) => StartTidy(env, r, hd, name);
        case End(name) => EndTidy(env, r, hd, name);
        case Directive(name, attrs) => DirectiveTidy(env, r, hd, name, attrs);
        case SkipCode(_, _) =>
      }
    } else if |r.stack| > 0 {
      var c := ReadCharacter(env, r.skip, NarrowName in Names(r.stack), hd, r.pos);
      if c.CharRead? && c.text.Some? {
        TextToTopTidy(r.stack, c.text.value);
      }
    }
  }

  // ---------------------------------------------------------------------
  // The whole read

  /** What a read keeps from an earlier state to a later one: the position never goes back,
      handed-out sections stay handed out in order, the count of characters only grows, a
      set automatic stop code and a set gaiji flag stay. */
  predicate Extends(r: Reader, n: Reader)
  {
    n.pos >= r.pos &&
    r.sections <= n.sections &&
    n.printable >= r.printable &&
    (r.autoStop.Some? ==> n.autoStop == r.autoStop) &&
    (r.gaiji ==> n.gaiji)
  }

  /** A read ends in a state where the next unit stops it, with that unit's reason. */
  lemma {:induction false} LoopStops(env: Env, r: Reader)
    ensures Step(env, Loop(env, r).1) == Stop(Loop(env, r).0)
    decreases |env.data| - r.pos
  {
    match Step(env, r)
    case Stop(_) =>
    case Continue(n) => LoopStops(env, n);
  }

  /** Everything a single unit keeps, the whole read keeps. */
  lemma {:induction false} LoopExtends(env: Env, r: Reader)
    ensures Extends(r, Loop(env, r).1)
    decreases |env.data| - r.pos
  {
    match Step(env, r)
    case Stop(_) =>
    case Continue(n) =>
      LoopExtends(env, n);
  }

  /** A read that starts tidy ends tidy: every section it hands out has coalesced text at
      every depth. */
  lemma {:induction false} LoopTidy(env: Env, r: Reader)
    requires TidyReader(r)
    ensures TidyReader(Loop(env, r).1)
    decreases |env.data| - r.pos
  {
    match Step(env, r)
    case Stop(_) =>
    case Continue(n) =>
      StepTidy(env, r);
      LoopTidy(env, n);
  }

  /** `read` from a position: how it ends and the sections it yields; the sections are
      tidy and the read ends where the next unit stops it. */
  function Read(env: Env, start: nat): (res: (Halt, seq<Item>))
    ensures TidyAll(res.1)
    ensures Step(env, Loop(env, Initial(start)).1) == Stop(res.0)
  {
    LoopTidy(env, Initial(start));
    LoopStops(env, Initial(start));
    var (h, last) := Loop(env, Initial(start));
    (h, last.sections)
  }

  // ---------------------------------------------------------------------
  // A text section read to its end

  /** An ISO 8859-1 book whose text is 1F 02 'A' 'B' 1F 03: a text start, two letters of
      one byte each and a text end. */
  predicate LetterBook(env: Env)
  {
    env.data == [0x1F, 0x02, 0x41, 0x42, 0x1F, 0x03] && env.encoding == Latin1
  }

  /** The text start pushes an empty text section and reads no structure. */
  lemma LetterBookOpens(env: Env)
    requires LetterBook(env)
    ensures Step(env, Initial(0)) == Continue(Reader(2, [Frame(TextName, [], [])], 0, None, None, false, []))
  {
    var r := Initial(0);
    var hd := HeaderAt(env, r);
    SectionOfExplicit(0x02);
    assert hd.IsSection() && Section(hd.code2) == Some(Start(TextName));
    var c := CallHook(env, r, hd, TextH, StartPhase);
    assert c == Called(2, [], NoEffect, 0);
  }

  /** Inside a section and with no skip code armed, a printable ISO 8859-1 byte is one
      character: the reader moves one byte on, counts it and adds it to the innermost
      section's text. */
  lemma Latin1Letter(env: Env, r: Reader)
    requires env.encoding == Latin1 && r.pos + 2 <= |env.data| && |r.stack| > 0 && r.skip.None?
    requires env.data[r.pos] != SectionCode && Latin1Printable(env.data[r.pos])
    ensures Step(env, r) ==
            Continue(r.(pos := r.pos + 1, printable := r.printable + 1,
                        stack := TextToTop(r.stack, [env.data[r.pos] as int as char])))
  {
    var hd := HeaderAt(env, r);
    assert Step(env, r) == CharacterUnit(env, r, hd);
  }

  /** The first letter is one byte of text and opens a run. */
  lemma LetterBookFirst(env: Env, r: Reader)
    requires LetterBook(env) && r == Reader(2, [Frame(TextName, [], [])], 0, None, None, false, [])
    ensures Step(env, r) == Continue(Reader(3, [Frame(TextName, [Run("A")], [])], 1, None, None, false, []))
  {
    assert [env.data[2] as int as char] == "A";
    assert TextToTop(r.stack, "A") == [Frame(TextName, [Run("A")], [])] by {
      assert r.stack[..0] == [] && AddText([], "A") == [Run("A")];
    }
    Latin1Letter(env, r);
  }

  /** The second letter is one byte of text and joins the run. */
  lemma LetterBookSecond(env: Env, r: Reader)
    requires LetterBook(env) && r == Reader(3, [Frame(TextName, [Run("A")], [])], 1, None, None, false, [])
    ensures Step(env, r) == Continue(Reader(4, [Frame(TextName, [Run("AB")], [])], 2, None, None, false, []))
  {
    assert [env.data[3] as int as char] == "B";
    assert TextToTop(r.stack, "B") == [Frame(TextName, [Run("AB")], [])] by {
      assert [Run("A")][..0] == [] && "A" + "B" == "AB";
      assert r.stack[..0] == [] && AddText([Run("A")], "B") == [Run("AB")];
    }
    Latin1Letter(env, r);
  }

  /** The text end stops the read hard while the text section is still open: the section
      holding "AB" stays on the stack and nothing is handed out, by section or otherwise. */
  lemma {:induction false} LetterBookRead(env: Env)
    requires LetterBook(env)
    ensures Loop(env, Initial(0)) == (HardStopped, Reader(4, [Frame(TextName, [Run("AB")], [])], 2, None, None, false, []))
    ensures Read(env, 0) == (HardStopped, [])
  {
    var r1 := Reader(2, [Frame(TextName, [], [])], 0, None, None, false, []);
    var r2 := Reader(3, [Frame(TextName, [Run("A")], [])], 1, None, None, false, []);
    var r3 := Reader(4, [Frame(TextName, [Run("AB")], [])], 2, None, None, false, []);
    LetterBookOpens(env);
    LetterBookFirst(env, r1);
    LetterBookSecond(env, r2);
    SectionOfExplicit(0x03);
    TextEndHardStops(env, r3);
    assert Step(env, r3) == Stop(HardStopped);
    assert Loop(env, r3) == (HardStopped, r3);
    assert Loop(env, r2) == Loop(env, r3);
    assert Loop(env, r1) == Loop(env, r2);
    assert Loop(env, Initial(0)) == Loop(env, r1);
  }

  // ---------------------------------------------------------------------
  // The reader as the source runs it: a context updated in place

  /** A stop as an outcome; no stop means the reader goes on from its new state. */
  function AsOutcome(h: Option<Halt>, r: Reader): (o: Outcome)
    ensures o.Stop? <==> h.Some?
  {
    if h.Some? then Stop(h.value) else Continue(r)
  }

  /** The text reader of `read`: the file position and the `TextContext` fields it updates as
      it goes. */
  class TextReader {
    const env: Env
    var pos: nat
    var stack: seq<Frame>
    var printable: nat
    var skip: Option<byte>
    var autoStop: Option<seq<byte>>
    var gaiji: bool
    var sections: seq<Item>

    /** The reader's fields as a state of the model. */
    function State(): Reader
      reads this
    {
      Reader(pos, stack, printable, skip, autoStop, gaiji, sections)
    }

    constructor (env: Env, start: nat)
      ensures this.env == env && State() == Initial(start)
    {
      this.env := env;
      pos := start;
      stack := [];
      printable := 0;
      skip := None;
      autoStop := None;
      gaiji := false;
      sections := [];
    }

    /** The end of a handler call: stops end the read, otherwise the position moves and the
        handler's marks are kept. */
    method Finish(after: nat, e: Effect, skipBytes: nat) returns (h: Option<Halt>)
      requires e.signal != HardStop ==> after + e.seek >= 0
      modifies this
      ensures Conclude(old(State()), after, e, skipBytes) == AsOutcome(h, State())
      ensures sections == old(sections)
    {
      match e.signal
      case HardStop =>
        return Some(HardStopped);
      case SkipSection =>
        return Some(Raised(SkipRaised));
      case Raise(err) =>
        return Some(Raised(err));
      case SoftStop =>
        pos := after;
        return None;
      case Proceed =>
        pos := after + e.seek + skipBytes;
        if e.setAutoStop.Some? {
          autoStop := e.setAutoStop;
        }
        gaiji := gaiji || e.markGaiji;
        return None;
    }

    /** `_read_section` for a start token: the new section is pushed, then its handler runs. */
    method OpenSection(hd: Header, name: SectionName) returns (h: Option<Halt>)
      modifies this
      ensures StartSection(env, old(State()), hd, name) == AsOutcome(h, State())
      ensures h.Some? ==> sections == old(sections)
    {
      if name == NarrowName && env.convertNarrow {
        pos := pos + 2;
        return None;
      }
      var hk := HandlerOf(name);
      if hk.None? {
        stack := stack + [Frame(name, [], [])];
        pos := pos + 2;
        return None;
      }
      h := OpenWithHook(hd, name, hk.value);
    }

    /** A start token whose handler has a hook. */
    method OpenWithHook(hd: Header, name: SectionName, hk: HandlerKind) returns (h: Option<Halt>)
      modifies this
      ensures StartHook(env, old(State()), hd, name, hk) == AsOutcome(h, State())
      ensures h.Some? ==> sections == old(sections)
    {
      var c := CallHook(env, State(), hd, hk, StartPhase);
      if c.HookFailed? {
        return Some(c.halt);
      }
      stack := stack + [Frame(name, [], c.structs)];
      h := Finish(c.after, c.effect, c.skip);
    }

    /** `_read_section` for an end token: the innermost section must be the one named; it is
        popped, its handler runs, and it is attached to its parent and handed out. */
    method CloseSection(hd: Header, name: SectionName) returns (h: Option<Halt>)
      modifies this
      ensures EndSection(env, old(State()), hd, name) == AsOutcome(h, State())
      ensures h.Some? ==> sections == old(sections)
    {
      ghost var r := State();
      if name == NarrowName && env.convertNarrow {
        assert EndSection(env, r, hd, name) == Continue(r.(pos := r.pos + 2));
        pos := pos + 2;
        return None;
      }
      if |stack| == 0 || stack[|stack| - 1].name != name {
        assert EndSection(env, r, hd, name) == Stop(Raised(AssertionFailed));
        return Some(Raised(AssertionFailed));
      }
      assert EndSection(env, r, hd, name) == EndMatched(env, r, hd, name);
      h := CloseMatched(hd, name);
    }

    /** The end of the innermost section, once its name is known to match. */
    method CloseMatched(hd: Header, name: SectionName) returns (h: Option<Halt>)
      requires |stack| > 0 && stack[|stack| - 1].name == name
      modifies this
      ensures EndMatched(env, old(State()), hd, name) == AsOutcome(h, State())
      ensures h.Some? ==> sections == old(sections)
    {
      ghost var r := State();
      var hk := HandlerOf(name);
      if hk.Some? {
        assert EndMatched(env, r, hd, name) == EndHook(env, r, hd, hk.value);
        h := CloseWithHook(hd, hk.value);
      } else {
        CloseQuietly();
        h := None;
        assert EndMatched(env, r, hd, name) == Continue(State());
      }
    }

    /** The end of the innermost section when it has no handler. */
    method CloseQuietly()
      requires |stack| > 0
      modifies this
      ensures var r := old(State());
              var top := r.stack[|r.stack| - 1];
              State() == Close(env, r.(pos := r.pos + 2, stack := r.stack[..|r.stack| - 1]), Node(top.name, top.data, top.structs), true)
    {
      var top := stack[|stack| - 1];
      stack := stack[..|stack| - 1];
      pos := pos + 2;
      var node := Node(top.name, top.data, top.structs);
      stack := AppendToTop(stack, node);
      if env.bySection {
        sections := sections + [node];
      }
    }

    /** The end of the innermost section through its handler's end hook. */
    method CloseWithHook(hd: Header, hk: HandlerKind) returns (h: Option<Halt>)
      requires |stack| > 0
      modifies this
      ensures EndHook(env, old(State()), hd, hk) == AsOutcome(h, State())
      ensures h.Some? ==> sections == old(sections)
    {
      var c := CallHook(env, State(), hd, hk, EndPhase);
      if c.HookFailed? {
        return Some(c.halt);
      }
      h := FinishEnd(c.after, c.structs, c.effect, c.skip);
    }

    /** Once the end hook returned: the section is popped, the read goes on as the handler
        says, and the section is attached to its parent and handed out. */
    method FinishEnd(after: nat, structs: seq<StructRead>, e: Effect, skipBytes: nat) returns (h: Option<Halt>)
      requires |stack| > 0 && (e.signal != HardStop ==> after + e.seek >= 0)
      modifies this
      ensures EndConclude(env, old(State()), after, structs, e, skipBytes) == AsOutcome(h, State())
      ensures h.Some? ==> sections == old(sections)
    {
      ghost var r := State();
      var node := Node(stack[|stack| - 1].name, stack[|stack| - 1].data, stack[|stack| - 1].structs + structs);
      assert node == EndNode(r, structs);
      stack := stack[..|stack| - 1];
      h := Finish(after, e, skipBytes);
      if h.Some? {
        return;
      }
      stack := AppendToTop(stack, node);
      if e.signal == Proceed && env.bySection {
        sections := sections + [node];
      }
    }

    /** `_read_section` for a directive: it is attached to the innermost section and its
        handler runs. */
    method PlaceDirective(hd: Header, name: SectionName, attrs: map<string, Value>) returns (h: Option<Halt>)
      modifies this
      ensures DirectiveUnit(env, old(State()), hd, name, attrs) == AsOutcome(h, State())
      ensures h.Some? ==> sections == old(sections)
    {
      var hk := HandlerOf(name);
      if hk.None? {
        stack := AppendToTop(stack, Mark(name, attrs, []));
        pos := pos + 2;
        return None;
      }
      h := DirectiveWithHook(hd, name, attrs, hk.value);
    }

    /** A directive whose handler has a hook. */
    method DirectiveWithHook(hd: Header, name: SectionName, attrs: map<string, Value>, hk: HandlerKind) returns (h: Option<Halt>)
      modifies this
      ensures DirectiveHook(env, old(State()), hd, name, attrs, hk) == AsOutcome(h, State())
      ensures h.Some? ==> sections == old(sections)
    {
      var c := CallHook(env, State(), hd, hk, DirectivePhase);
      if c.HookFailed? {
        return Some(c.halt);
      }
      stack := AppendToTop(stack, Mark(name, attrs, c.structs));
      h := Finish(c.after, c.effect, c.skip);
    }

    /** A character unit inside a section: the character is counted and joined to the text
        run that ends the innermost section, or starts a new run. */
    method EmitCharacter(hd: Header) returns (h: Option<Halt>)
      requires |stack| > 0
      modifies this
      ensures CharacterUnit(env, old(State()), hd) == AsOutcome(h, State())
      ensures h.Some? ==> sections == old(sections)
    {
      ghost var r := State();
      var c := ReadCharacter(env, skip, NarrowName in Names(stack), hd, pos);
      if c.CharFailed? {
        assert CharacterUnit(env, r, hd) == Stop(Raised(c.error));
        return Some(Raised(c.error));
      }
      if c.text.Some? {
        assert CharacterUnit(env, r, hd) ==
                 Continue(r.(pos := c.next, printable := r.printable + 1, stack := TextToTop(r.stack, c.text.value)));
        AddCharacter(c.text.value);
      } else {
        assert CharacterUnit(env, r, hd) == Continue(r.(pos := c.next));
      }
      pos := c.next;
      h := None;
    }

    /** Count a decoded character and join it to the text of the innermost section. */
    method AddCharacter(ch: string)
      requires |stack| > 0
      modifies this
      ensures stack == TextToTop(old(stack), ch) && printable == old(printable) + 1
      ensures pos == old(pos) && skip == old(skip) && autoStop == old(autoStop)
      ensures gaiji == old(gaiji) && sections == old(sections)
    {
      printable := printable + 1;
      var k := |stack| - 1;
      var top := stack[k];
      var data := top.data;
      if |data| > 0 && data[|data| - 1].Run? {
        data := data[..|data| - 1] + [Run(data[|data| - 1].text + ch)];
      } else {
        data := data + [Run(ch)];
      }
      stack := stack[..k] + [top.(data := data)];
    }

    /** One pass of the loop of `read`. */
    method ReadUnit() returns (h: Option<Halt>)
      modifies this
      ensures Step(env, old(State())) == AsOutcome(h, State())
      ensures h.Some? ==> sections == old(sections)
    {
      if pos + 2 > |env.data| {
        return Some(EndOfData);
      }
      h := ReadAt(HeaderAt(env, State()));
    }

    /** The unit with header hd. */
    method ReadAt(hd: Header) returns (h: Option<Halt>)
      modifies this
      ensures UnitAt(env, old(State()), hd) == AsOutcome(h, State())
      ensures h.Some? ==> sections == old(sections)
    {
      if hd.IsSection() {
        h := ReadEscape(hd);
      } else {
        h := ReadPlain(hd);
      }
    }

    /** An escape code. */
    method ReadEscape(hd: Header) returns (h: Option<Halt>)
      modifies this
      ensures EscapeUnit(env, old(State()), hd) == AsOutcome(h, State())
      ensures h.Some? ==> sections == old(sections)
    {
      var t := Section(hd.code2);
      if t.None? {
        if skip == Some(hd.code2) {
          skip := None;
        }
        pos := pos + 2;
        return None;
      }
      h := ReadToken(hd, t.value);
    }

    /** A unit of text. */
    method ReadPlain(hd: Header) returns (h: Option<Halt>)
      modifies this
      ensures PlainUnit(env, old(State()), hd) == AsOutcome(h, State())
      ensures h.Some? ==> sections == old(sections)
    {
      if |stack| == 0 {
        pos := pos + 2;
        return None;
      }
      h := EmitCharacter(hd);
    }

    /** A registered escape code. */
    method ReadToken(hd: Header, t: Token) returns (h: Option<Halt>)
      modifies this
      ensures TokenUnit(env, old(State()), hd, t) == AsOutcome(h, State())
      ensures h.Some? ==> sections == old(sections)
    {
      match t
      case Start(name) =>
        h := OpenSection(hd, name);
      case End(name) =>
        h := CloseSection(hd, name);
      case Directive(name, attrs) =>
        h := PlaceDirective(hd, name, attrs);
      case SkipCode(_, _) =>
        h := Some(Raised(NotImplemented));
    }

    /** The loop of `read`, until a unit stops it. */
    method ReadAll() returns (h: Halt)
      modifies this
      ensures h == Loop(env, old(State())).0 && sections == Loop(env, old(State())).1.sections
    {
      while true
        invariant Loop(env, State()) == Loop(env, old(State()))
        decreases |env.data| - pos
      {
        var o := ReadUnit();
        if o.Some? {
          return o.value;
        }
      }
    }
  }

  /** `read`: find where to start, then read and collect the sections it yields. */
  method ReadText(env: Env, location: bool, search: Option<Book.TableKey>, t: Book.SearchTable, current: nat)
    returns (r: Result<(Halt, seq<Item>), Error>)
    ensures ReadStart(location, search, t, current).Failure? ==> r == Failure(ReadStart(location, search, t, current).error)
    ensures ReadStart(location, search, t, current).Success? ==> r == Success(Read(env, ReadStart(location, search, t, current).value))
  {
    var start := ReadStart(location, search, t, current);
    if start.Failure? {
      return Failure(start.error);
    }
    var reader := new TextReader(env, start.value);
    var h := reader.ReadAll();
    r := Success((h, reader.sections));
  }
}

