/** A book and its subbooks: the search table a subbook keeps for the search methods its
    index page lists, the guard on reading a subbook's text, the choice of the book's
    encoding from its language file and the construction of the subbooks a catalog lists. */
module Book {
  import opened Common
  import Zio

  // ---------------------------------------------------------------------
  // Searches

  /** The style codes of a search: 0 convert, 1 as is, 2 delete (or reversed convert);
      flags copied from an index entry may also hold 3. */
  datatype Styles = Styles(
    katakana: nat,
    lower: nat,
    mark: nat,
    longVowel: nat,
    doubleConsonant: nat,
    contractedSound: nat,
    smallVowel: nat,
    voicedConsonant: nat,
    pSound: nat,
    space: nat)

  /** One search method: its page range and its styles. */
  datatype Search = Search(startPage: nat, endPage: int, styles: Styles)

  /** The third part of a typed search type: none, a number or a name. */
  datatype SubKey = NoSub | IntSub(n: nat) | StrSub(s: string)

  /** A search type: a plain name, or a (book type, key, sub-key) triple that only counts
      for books of that type. */
  datatype SearchType = Named(name: string) | Typed(bookType: string, key: string, subkey: SubKey)

  /** A key of the search table: a name, or a name paired with a sub-key. */
  datatype TableKey = NameKey(name: string) | PairKey(key: string, subkey: SubKey)

  /** An entry of the search table: one search, or the list the 'multi' searches collect. */
  datatype Entry = One(search: Search) | Many(searches: seq<Search>)

  type SearchTable = map<TableKey, Entry>

  const MultiName := "multi"
  const SebxaName := "sebxa_zip"

  /** The table key a typed search is stored under: the key itself without a sub-key, the
      pair otherwise. */
  function TypedKey(key: string, subkey: SubKey): (k: TableKey)
    ensures subkey == NoSub <==> k == NameKey(key)
    ensures subkey != NoSub <==> k == PairKey(key, subkey)
  {
    if subkey == NoSub then NameKey(key) else PairKey(key, subkey)
  }

  /** `_set_search` on a table. A 'multi' search is appended to the 'multi' list (a single
      search under that name cannot be appended to); any other name is overwritten. A typed
      search is ignored unless the book type matches; a matching 'sebxa_zip' search reaches
      for the subbook's text, which is not assigned while the indices are being loaded. */
  function SetSearch(t: SearchTable, key: SearchType, s: Search, bookType: string): (r: Result<SearchTable, Error>)
    ensures key.Named? && key.name != MultiName ==> r == Success(t[NameKey(key.name) := One(s)])
    ensures key == Named(MultiName) && NameKey(MultiName) !in t ==> r == Success(t[NameKey(MultiName) := Many([s])])
    ensures key == Named(MultiName) && NameKey(MultiName) in t && t[NameKey(MultiName)].Many? ==>
              r == Success(t[NameKey(MultiName) := Many(t[NameKey(MultiName)].searches + [s])])
    ensures key == Named(MultiName) && NameKey(MultiName) in t && t[NameKey(MultiName)].One? ==>
              r == Failure(AttributeError)
    ensures key.Typed? && key.bookType != bookType ==> r == Success(t)
    ensures key.Typed? && key.bookType == bookType && key.key == SebxaName ==> r == Failure(AttributeError)
    ensures key.Typed? && key.bookType == bookType && key.key != SebxaName ==>
              r == Success(t[TypedKey(key.key, key.subkey) := One(s)])
  {
    match key
    case Named(name) =>
      if name != MultiName then Success(t[NameKey(name) := One(s)])
      else if NameKey(MultiName) !in t then Success(t[NameKey(MultiName) := Many([s])])
      else if t[NameKey(MultiName)].Many? then Success(t[NameKey(MultiName) := Many(t[NameKey(MultiName)].searches + [s])])
      else Failure(AttributeError)
    case Typed(required, k, sub) =>
      if required != bookType then Success(t)
      else if k == SebxaName then Failure(AttributeError)
      else Success(t[TypedKey(k, sub) := One(s)])
  }

  /** The key a successful `SetSearch` writes, if any. */
  function WrittenKey(key: SearchType, bookType: string): Option<TableKey>
  {
    match key
    case Named(name) => Some(NameKey(name))
    case Typed(required, k, sub) => if required == bookType then Some(TypedKey(k, sub)) else None
  }

  /** Setting a search changes no entry other than the one its key names. */
  lemma SetSearchFrame(t: SearchTable, key: SearchType, s: Search, bookType: string, other: TableKey)
    requires SetSearch(t, key, s, bookType).Success?
    requires WrittenKey(key, bookType) != Some(other)
    ensures other in SetSearch(t, key, s, bookType).value <==> other in t
    ensures other in t ==> SetSearch(t, key, s, bookType).value[other] == t[other]
  {
  }

  /** Setting the searches of a list one after the other; the first failure ends it. */
  function SetAll(t: SearchTable, key: SearchType, ss: seq<Search>, bookType: string): Result<SearchTable, Error>
    decreases |ss|
  {
    if |ss| == 0 then Success(t)
    else match SetSearch(t, key, ss[0], bookType)
      case Failure(e) => Failure(e)
      case Success(t1) => SetAll(t1, key, ss[1..], bookType)
  }

  /** 'multi' searches collect in the order they are set. */
  lemma {:induction false} MultiAccumulates(t: SearchTable, prior: seq<Search>, ss: seq<Search>, bookType: string)
    requires NameKey(MultiName) in t && t[NameKey(MultiName)] == Many(prior)
    ensures SetAll(t, Named(MultiName), ss, bookType).Success?
    ensures SetAll(t, Named(MultiName), ss, bookType).value == t[NameKey(MultiName) := Many(prior + ss)]
    decreases |ss|
  {
    if |ss| > 0 {
      var t1 := t[NameKey(MultiName) := Many(prior + [ss[0]])];
      assert SetSearch(t, Named(MultiName), ss[0], bookType) == Success(t1);
      MultiAccumulates(t1, prior + [ss[0]], ss[1..], bookType);
      assert prior + [ss[0]] + ss[1..] == prior + ss;
      assert t1[NameKey(MultiName) := Many(prior + ss)] == t[NameKey(MultiName) := Many(prior + ss)];
    } else {
      assert prior + ss == prior;
    }
  }

  /** Any other name keeps only the last search set under it. */
  lemma {:induction false} NamedOverwrites(t: SearchTable, name: string, ss: seq<Search>, bookType: string)
    requires name != MultiName && |ss| > 0
    ensures SetAll(t, Named(name), ss, bookType).Success?
    ensures SetAll(t, Named(name), ss, bookType).value == t[NameKey(name) := One(ss[|ss| - 1])]
    decreases |ss|
  {
    var t1 := t[NameKey(name) := One(ss[0])];
    assert SetSearch(t, Named(name), ss[0], bookType) == Success(t1);
    if |ss| > 1 {
      NamedOverwrites(t1, name, ss[1..], bookType);
      assert ss[1..][|ss[1..]| - 1] == ss[|ss| - 1];
      assert t1[NameKey(name) := One(ss[|ss| - 1])] == t[NameKey(name) := One(ss[|ss| - 1])];
    } else {
      assert SetAll(t1, Named(name), ss[1..], bookType) == Success(t1);
    }
  }

  // ---------------------------------------------------------------------
  // Subbooks

  /** What a subbook holds as its text: none (the subbook only has stream data), an
      attribute that was never assigned (no text file was named), or a text. */
  datatype TextState = NoText | Unset | HasText

  /** The text a new subbook ends up with: none when the index page is 0, a text when a text
      file is named, otherwise nothing is assigned at all. */
  function InitialText(indexPage: nat, hasTextFile: bool): (t: TextState)
    ensures t == NoText <==> indexPage == 0
    ensures t == HasText <==> indexPage != 0 && hasTextFile
  {
    if indexPage == 0 then NoText else if hasTextFile then HasText else Unset
  }

  /** The guard of `Subbook.read`: no text is refused; an unassigned text cannot be looked up. */
  function ReadGuard(t: TextState): (r: Result<(), Error>)
    ensures r.Success? <==> t == HasText
    ensures t == NoText ==> r == Failure(ValueError)
    ensures t == Unset ==> r == Failure(AttributeError)
  {
    match t
    case NoText => Failure(ValueError)
    case Unset => Failure(AttributeError)
    case HasText => Success(())
  }

  /** A subbook with only stream data cannot be read, whatever else the catalog names. */
  lemma StreamDataOnlyUnreadable(indexPage: nat, hasTextFile: bool)
    ensures indexPage == 0 <==> ReadGuard(InitialText(indexPage, hasTextFile)) == Failure(ValueError)
  {
  }

  /** The state of a subbook the text reader uses: its index page, the type of its book,
      its text and its search table. */
  class Subbook {
    const indexPage: nat
    const bookType: string
    const text: TextState
    var searches: SearchTable
    var multiCount: nat

    /** `stream_data_only`: the subbook has no index page; it then has no text either. */
    predicate StreamDataOnly()
    {
      indexPage == 0
    }

    constructor (indexPage: nat, bookType: string, hasTextFile: bool)
      ensures this.indexPage == indexPage && this.bookType == bookType
      ensures text == InitialText(indexPage, hasTextFile)
      ensures StreamDataOnly() ==> text == NoText
      ensures searches == map[] && multiCount == 0
    {
      this.indexPage := indexPage;
      this.bookType := bookType;
      text := InitialText(indexPage, hasTextFile);
      searches := map[];
      multiCount := 0;
    }

    /** `_reset_searches`: an empty table and a multi count of 0. */
    method ResetSearches()
      modifies this
      ensures searches == map[] && multiCount == 0
    {
      multiCount := 0;
      searches := map[];
    }

    /** `_set_search`: the table becomes the one `SetSearch` gives; on an error it is left
        as it was. */
    method SetSearchMethod(key: SearchType, s: Search) returns (r: Result<(), Error>)
      modifies this
      ensures var p := SetSearch(old(searches), key, s, bookType);
              (p.Success? ==> r.Success? && searches == p.value) &&
              (p.Failure? ==> r == Failure(p.error) && searches == old(searches))
      ensures multiCount == old(multiCount)
    {
      match key
      case Named(name) =>
        if name == MultiName {
          var prior: seq<Search> := [];
          if NameKey(MultiName) in searches {
            var e := searches[NameKey(MultiName)];
            if e.One? {
              return Failure(AttributeError);
            }
            prior := e.searches;
          }
          assert prior == [] ==> prior + [s] == [s];
          searches := searches[NameKey(MultiName) := Many(prior + [s])];
          return Success(());
        }
        searches := searches[NameKey(name) := One(s)];
        r := Success(());
      case Typed(required, k, sub) =>
        if required == bookType {
          if k == SebxaName {
            return Failure(AttributeError);
          }
          searches := searches[TypedKey(k, sub) := One(s)];
        }
        r := Success(());
    }

    /** `read`: reading goes ahead only when the subbook has a text. */
    method Read() returns (r: Result<(), Error>)
      ensures r == ReadGuard(text)
    {
      if text == NoText {
        return Failure(ValueError);
      }
      if text == Unset {
        return Failure(AttributeError);
      }
      r := Success(());
    }
  }

  // ---------------------------------------------------------------------
  // Books

  /** The encoding assumed when a book has no language file. */
  const DefaultEncoding := JisX0208

  /** The encoding `_load_language` settles on: the default without a language file, the
      one the file names otherwise; an unreadable or unknown code raises. */
  function LanguageOf(file: Option<seq<byte>>): (r: Result<Encoding, Error>)
    ensures file.None? ==> r == Success(DefaultEncoding)
    ensures file.Some? ==> r == Zio.LanguageEncoding(file.value)
  {
    if file.None? then Success(DefaultEncoding) else Zio.LanguageEncoding(file.value)
  }

  /** `_load_language` as written: the language file's code is looked up as a one-element
      tuple, so only a book without a language file gets an encoding. */
  function LanguageOfAsWritten(file: Option<seq<byte>>): (r: Result<Encoding, Error>)
    ensures r.Success? <==> file.None?
    ensures r.Success? ==> r == LanguageOf(file)
    ensures file.Some? && |file.value| >= 2 ==> r == Failure(CharCodeUnsupported)
  {
    if file.None? then Success(DefaultEncoding) else Zio.LanguageEncodingAsWritten(file.value)
  }

  /** Every language file naming a supported code is refused as written and read as
      intended. */
  lemma LanguageFileRefused(file: seq<byte>)
    requires |file| >= 2 && file[0] == 0 && 1 <= file[1] <= 3
    ensures LanguageOfAsWritten(Some(file)) == Failure(CharCodeUnsupported)
    ensures LanguageOf(Some(file)).Success?
  {
    LanguageChoices(file);
  }

  /** Every encoding a language file can name is reachable, and the absent file gives
      JIS X 0208. */
  lemma LanguageChoices(file: seq<byte>)
    requires |file| >= 2
    ensures file[0] == 0 && file[1] == 1 ==> LanguageOf(Some(file)) == Success(Latin1)
    ensures file[0] == 0 && file[1] == 2 ==> LanguageOf(Some(file)) == LanguageOf(None)
    ensures file[0] == 0 && file[1] == 3 ==> LanguageOf(Some(file)) == Success(JisX0208Gb2312)
    ensures file[0] != 0 ==> LanguageOf(Some(file)) == Failure(CharCodeUnsupported)
  {
    assert file[0] != 0 ==> 256 * file[0] as nat + file[1] as nat >= 256;
  }

  /** The subbooks of a catalog: each is built on its own, and one whose construction fails
      leaves an empty slot. */
  function BuildSubbooks<I, S>(infos: seq<I>, create: (nat, I) -> Result<S, Error>): (r: seq<Option<S>>)
    ensures |r| == |infos|
    ensures forall i :: 0 <= i < |infos| ==> (r[i].None? <==> create(i, infos[i]).Failure?)
    ensures forall i :: 0 <= i < |infos| && r[i].Some? ==> r[i].value == create(i, infos[i]).value
  {
    seq(|infos|, i requires 0 <= i < |infos| => if create(i, infos[i]).Success? then Some(create(i, infos[i]).value) else None)
  }

  /** Changing how one subbook is built affects no other slot. */
  lemma FailureIsolated<I, S>(infos: seq<I>, create: (nat, I) -> Result<S, Error>, create2: (nat, I) -> Result<S, Error>, j: nat)
    requires forall i :: 0 <= i < |infos| && i != j ==> create(i, infos[i]) == create2(i, infos[i])
    ensures forall i :: 0 <= i < |infos| && i != j ==> BuildSubbooks(infos, create)[i] == BuildSubbooks(infos, create2)[i]
  {
    var a := BuildSubbooks(infos, create);
    var b := BuildSubbooks(infos, create2);
    forall i | 0 <= i < |infos| && i != j
      ensures a[i] == b[i]
    {
      assert create(i, infos[i]) == create2(i, infos[i]);
    }
  }

  /** `_load_catalog`: a missing catalog file raises; otherwise every listed subbook is
      built in turn. */
  function LoadCatalog<I, S>(catalog: Result<seq<I>, Error>, create: (nat, I) -> Result<S, Error>): (r: Result<seq<Option<S>>, Error>)
    ensures catalog.Failure? ==> r == Failure(catalog.error)
    ensures catalog.Success? ==> r.Success? && |r.value| == |catalog.value|
    ensures catalog.Success? ==> r.value == BuildSubbooks(catalog.value, create)
  {
    match catalog
    case Failure(e) => Failure(e)
    case Success(infos) => Success(BuildSubbooks(infos, create))
  }

  /** The book: its encoding, and its type as the catalog gives it. */
  class BookInfo {
    var encoding: Encoding
    const bookType: string

    constructor (bookType: string)
      ensures this.bookType == bookType && encoding == DefaultEncoding
    {
      this.bookType := bookType;
      encoding := DefaultEncoding;
    }

    predicate IsEpwing()
    {
      bookType == "epwing"
    }

    predicate IsEb()
    {
      bookType == "eb"
    }

    /** `_load_language`: set the encoding the language file names, or the default when there
        is no language file; a file that cannot be decoded raises and sets nothing. */
    method LoadLanguage(file: Option<seq<byte>>) returns (r: Result<(), Error>)
      modifies this
      ensures LanguageOf(file).Success? ==> r.Success? && encoding == LanguageOf(file).value
      ensures LanguageOf(file).Failure? ==> r == Failure(LanguageOf(file).error) && encoding == old(encoding)
    {
      if file.None? {
        encoding := DefaultEncoding;
        return Success(());
      }
      var e := Zio.LanguageEncoding(file.value);
      if e.Failure? {
        return Failure(e.error);
      }
      encoding := e.value;
      r := Success(());
    }
  }
}
