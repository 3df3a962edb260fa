/** The file layer: the two file back ends and their cursors, the table of file-name
    extensions they serve, the candidate names tried when a file is opened, and the
    language file that names a book's character code. */
module Zio {
  import opened Common

  // ---------------------------------------------------------------------
  // Extensions and the handler table

  /** The file classes: plain files and ebzip-compressed files. */
  datatype FileClass = PlainClass | EbzipClass

  /** `_EXTENSIONS_` of each class. */
  function Extensions(c: FileClass): seq<string>
  {
    match c
    case PlainClass => [".org", ""]
    case EbzipClass => [".ebz"]
  }

  /** Lower-casing of one character, for ASCII letters only. */
  function LowerChar(c: char): (l: char)
    ensures 'A' <= c <= 'Z' ==> l as int == c as int + 32
    ensures !('A' <= c <= 'Z') ==> l == c
  {
    if 'A' <= c <= 'Z' then (c as int + 32) as char else c
  }

  function Lower(s: string): (l: string)
    ensures |l| == |s|
    ensures forall i :: 0 <= i < |s| ==> l[i] == LowerChar(s[i])
  {
    seq(|s|, i requires 0 <= i < |s| => LowerChar(s[i]))
  }

  /** The handler table as a dict: the keys in insertion order and the class of each. */
  datatype Handlers = Handlers(order: seq<string>, classes: map<string, FileClass>)
  {
    /** The order lists every key of the dict exactly once. */
    ghost predicate Valid()
    {
      (forall e :: e in classes <==> e in order) &&
      (forall i, j :: 0 <= i < j < |order| ==> order[i] != order[j])
    }
  }

  /** `_ZioHandlers[ext.lower()] = class_` for each listed extension in turn: a new key goes
      to the end of the order, an existing key keeps its place and gets the new class. */
  function RegisterKeys(t: Handlers, exts: seq<string>, c: FileClass): (r: Handlers)
    decreases |exts|
  {
    if |exts| == 0 then t
    else
      var k := Lower(exts[0]);
      var order := if k in t.classes then t.order else t.order + [k];
      RegisterKeys(Handlers(order, t.classes[k := c]), exts[1..], c)
  }

  /** Registering keeps every key listed once and keeps the existing keys in their places. */
  lemma {:induction false} RegisterKeysValid(t: Handlers, exts: seq<string>, c: FileClass)
    requires t.Valid()
    ensures RegisterKeys(t, exts, c).Valid()
    ensures t.order <= RegisterKeys(t, exts, c).order
    ensures t.classes.Keys <= RegisterKeys(t, exts, c).classes.Keys
    decreases |exts|
  {
    if |exts| > 0 {
      var k := Lower(exts[0]);
      var order := if k in t.classes then t.order else t.order + [k];
      var next := Handlers(order, t.classes[k := c]);
      assert next.Valid();
      RegisterKeysValid(next, exts[1..], c);
    }
  }

  /** The table the module builds at import: plain files for ".org" and no extension,
      ebzip files for ".ebz", in that order. */
  function DefaultHandlers(): Handlers
  {
    RegisterKeys(RegisterKeys(Handlers([], map[]), Extensions(PlainClass), PlainClass), Extensions(EbzipClass), EbzipClass)
  }

  lemma DefaultHandlersContents()
    ensures DefaultHandlers().order == [".org", "", ".ebz"]
    ensures DefaultHandlers().classes == map[".org" := PlainClass, "" := PlainClass, ".ebz" := EbzipClass]
    ensures DefaultHandlers().Valid()
  {
    PlainTable();
    EbzipTable();
  }

  /** The plain class's extensions go in first, in their listed order. */
  lemma PlainTable()
    ensures RegisterKeys(Handlers([], map[]), Extensions(PlainClass), PlainClass) ==
              Handlers([".org", ""], map[".org" := PlainClass, "" := PlainClass])
  {
    assert Lower(".org") == ".org";
    assert Lower("") == "";
    assert [".org", ""][1..] == [""];
  }

  /** The ebzip class's extension then goes last. */
  lemma EbzipTable()
    ensures RegisterKeys(Handlers([".org", ""], map[".org" := PlainClass, "" := PlainClass]), Extensions(EbzipClass), EbzipClass) ==
              Handlers([".org", "", ".ebz"], map[".org" := PlainClass, "" := PlainClass, ".ebz" := EbzipClass])
  {
    assert Lower(".ebz") == ".ebz";
  }

  /** `_ZioHandlers`, filled by `_register_zio_handler`. */
  class HandlerTable {
    var table: Handlers

    constructor ()
      ensures table == Handlers([], map[]) && table.Valid()
    {
      table := Handlers([], map[]);
    }

    /** `_register_zio_handler`: enter every extension of the class, lower-cased. */
    method Register(c: FileClass)
      modifies this
      requires table.Valid()
      ensures table == RegisterKeys(old(table), Extensions(c), c)
      ensures table.Valid()
    {
      var exts := Extensions(c);
      var i := 0;
      while i < |exts|
        invariant 0 <= i <= |exts|
        invariant RegisterKeys(table, exts[i..], c) == RegisterKeys(old(table), exts, c)
      {
        assert exts[i..][1..] == exts[i + 1..];
        var k := Lower(exts[i]);
        if k !in table.classes {
          table := Handlers(table.order + [k], table.classes[k := c]);
        } else {
          table := Handlers(table.order, table.classes[k := c]);
        }
        i := i + 1;
      }
      assert exts[i..] == [];
      RegisterKeysValid(old(table), exts, c);
    }
  }

  // ---------------------------------------------------------------------
  // Opening a file by name

  /** The candidate file names for a name: the name with each registered extension
      appended, in the table's order, each with the class that reads it. */
  function Candidates(name: string, t: Handlers): (r: seq<(string, FileClass)>)
    requires t.Valid()
    ensures |r| == |t.order|
    ensures forall i :: 0 <= i < |r| ==> r[i] == (name + t.order[i], t.classes[t.order[i]])
  {
    seq(|t.order|, i requires 0 <= i < |t.order| => (name + t.order[i], t.classes[t.order[i]]))
  }

  /** The default table tries the name with ".org", then the bare name, then with ".ebz". */
  lemma DefaultCandidates(name: string)
    ensures DefaultHandlers().Valid()
    ensures Candidates(name, DefaultHandlers()) ==
            [(name + ".org", PlainClass), (name + "", PlainClass), (name + ".ebz", EbzipClass)]
  {
    DefaultHandlersContents();
  }

  /** The index of the first candidate whose lower-cased name is in the directory listing. */
  function FirstListed(cands: seq<(string, FileClass)>, listing: map<string, string>): (r: Option<nat>)
    ensures r.None? <==> forall i :: 0 <= i < |cands| ==> Lower(cands[i].0) !in listing
    ensures r.Some? ==> r.value < |cands| && Lower(cands[r.value].0) in listing
    ensures r.Some? ==> forall i :: 0 <= i < r.value ==> Lower(cands[i].0) !in listing
  {
    if |cands| == 0 then None
    else if Lower(cands[0].0) in listing then Some(0)
    else
      var rest := FirstListed(cands[1..], listing);
      assert forall i :: 1 <= i < |cands| ==> cands[1..][i - 1] == cands[i];
      if rest.None? then None else Some(rest.value + 1)
  }

  /** `open_zio_file` for one name: the first candidate present in the listing (a map from
      lower-cased names to the names on disk) opens with its class; none present raises. */
  function OpenName(name: string, t: Handlers, listing: map<string, string>): (r: Result<(string, FileClass), Error>)
    requires t.Valid()
    ensures r.Failure? <==> forall i :: 0 <= i < |t.order| ==> Lower(name + t.order[i]) !in listing
    ensures r.Failure? ==> r.error == FileNotFound
    ensures r.Success? ==> r.value.0 in listing.Values
    ensures forall k :: 0 <= k < |t.order| && Lower(name + t.order[k]) in listing &&
                        (forall j :: 0 <= j < k ==> Lower(name + t.order[j]) !in listing) ==>
              r == Success((listing[Lower(name + t.order[k])], t.classes[t.order[k]]))
  {
    var cands := Candidates(name, t);
    match FirstListed(cands, listing)
    case None => Failure(FileNotFound)
    case Some(k) =>
      assert t.order[k] in t.classes;
      Success((listing[Lower(cands[k].0)], cands[k].1))
  }

  /** The loop of `open_zio_file` over the candidates. */
  method FindCandidate(name: string, t: Handlers, listing: map<string, string>) returns (r: Result<(string, FileClass), Error>)
    requires t.Valid()
    ensures r == OpenName(name, t, listing)
  {
    var fns := Candidates(name, t);
    var i := 0;
    while i < |fns|
      invariant 0 <= i <= |fns|
      invariant forall j :: 0 <= j < i ==> Lower(fns[j].0) !in listing
    {
      var lower := Lower(fns[i].0);
      if lower in listing {
        assert FirstListed(fns, listing) == Some(i);
        return Success((listing[lower], fns[i].1));
      }
      i := i + 1;
    }
    r := Failure(FileNotFound);
  }

  /** `open_zio_file` for a list of names as written: the handler of the first name's
      failure raises at once, so only the first name is ever tried; an empty list reaches
      the candidate loop with no candidates bound. */
  function OpenNamesAsWritten(names: seq<string>, t: Handlers, listing: map<string, string>): (r: Result<(string, FileClass), Error>)
    requires t.Valid()
    ensures |names| == 0 ==> r == Failure(UnboundLocal)
    ensures |names| > 0 ==> r == OpenName(names[0], t, listing)
  {
    if |names| == 0 then Failure(UnboundLocal)
    else
      match OpenName(names[0], t, listing)
      case Failure(_) => Failure(FileNotFound)
      case Success(v) => Success(v)
  }

  /** The index of the first successful attempt. */
  function FirstSuccess<T>(rs: seq<Result<T, Error>>): (r: Option<nat>)
    ensures r.None? <==> forall k :: 0 <= k < |rs| ==> rs[k].Failure?
    ensures r.Some? ==> r.value < |rs| && rs[r.value].Success?
    ensures r.Some? ==> forall k :: 0 <= k < r.value ==> rs[k].Failure?
  {
    if |rs| == 0 then None
    else if rs[0].Success? then Some(0)
    else
      var rest := FirstSuccess(rs[1..]);
      assert forall k :: 1 <= k < |rs| ==> rs[1..][k - 1] == rs[k];
      if rest.None? then None else Some(rest.value + 1)
  }

  /** The attempt to open each name of a list. */
  function Attempts(names: seq<string>, t: Handlers, listing: map<string, string>): (rs: seq<Result<(string, FileClass), Error>>)
    requires t.Valid()
    ensures |rs| == |names|
    ensures forall k :: 0 <= k < |names| ==> rs[k] == OpenName(names[k], t, listing)
  {
    seq(|names|, k requires 0 <= k < |names| => OpenName(names[k], t, listing))
  }

  /** `open_zio_file` for a list of names as intended: the first name that opens, and a
      missing file only when no name opens. */
  function OpenNames(names: seq<string>, t: Handlers, listing: map<string, string>): (r: Result<(string, FileClass), Error>)
    requires t.Valid()
    ensures r.Failure? <==> forall k :: 0 <= k < |names| ==> Attempts(names, t, listing)[k].Failure?
    ensures r.Failure? ==> r.error == FileNotFound
    ensures r.Success? ==>
              exists k :: (0 <= k < |names| && r == Attempts(names, t, listing)[k] &&
                           forall j :: 0 <= j < k ==> Attempts(names, t, listing)[j].Failure?)
  {
    var rs := Attempts(names, t, listing);
    match FirstSuccess(rs)
    case None => Failure(FileNotFound)
    case Some(k) => rs[k]
  }

  /** When the first name is missing and the second is present, the list fails as written
      but opens the second name as intended. */
  lemma OnlyFirstNameTried(names: seq<string>, t: Handlers, listing: map<string, string>)
    requires t.Valid()
    requires |names| >= 2
    requires OpenName(names[0], t, listing).Failure? && OpenName(names[1], t, listing).Success?
    ensures OpenNamesAsWritten(names, t, listing) == Failure(FileNotFound)
    ensures OpenNames(names, t, listing) == OpenName(names[1], t, listing)
  {
    var rs := Attempts(names, t, listing);
    assert FirstSuccess(rs) == Some(1);
  }

  // ---------------------------------------------------------------------
  // The ebzip back end's cursor

  /** `ZioEbzipFile`: only the cursor is implemented. */
  class EbzipFile {
    var pos: int
    var fileSize: int

    constructor ()
      ensures pos == 0 && fileSize == 0
    {
      pos := 0;
      fileSize := 0;
    }

    method SeekStart(p: int)
      modifies this
      ensures pos == p && fileSize == old(fileSize)
    {
      pos := p;
    }

    method SeekCur(delta: int)
      modifies this
      ensures pos == old(pos) + delta && fileSize == old(fileSize)
    {
      pos := pos + delta;
    }

    /** `seek_end` moves the cursor back from the recorded size, then raises. */
    method SeekEnd(p: int) returns (r: Result<(), Error>)
      modifies this
      ensures pos == fileSize - p && fileSize == old(fileSize)
      ensures r == Failure(NotImplemented)
    {
      pos := fileSize - p;
      r := Failure(NotImplemented);
    }
  }

  // ---------------------------------------------------------------------
  // The plain back end

  /** The bytes a read of n bytes at pos obtains from a file holding data. */
  function ReadAt(data: seq<byte>, pos: nat, n: nat): (r: seq<byte>)
    ensures pos >= |data| ==> r == []
    ensures pos < |data| ==> |r| == Min(n, |data| - pos) && r == data[pos..pos + |r|]
  {
    if pos >= |data| then [] else data[pos..pos + Min(n, |data| - pos)]
  }

  /** The cursor after `readinto` of an n-byte structure at pos followed, when not
      advancing, by the step back of the structure's full size; None when that step
      would go before the start of the file. */
  function ReadIntoEnd(data: seq<byte>, pos: nat, n: nat, advance: bool): (r: Option<nat>)
    ensures advance ==> r == Some(pos + |ReadAt(data, pos, n)|)
    ensures !advance ==> (r.Some? <==> pos + |ReadAt(data, pos, n)| >= n)
    ensures !advance && r.Some? ==> r.value == pos + |ReadAt(data, pos, n)| - n
  {
    var got := |ReadAt(data, pos, n)|;
    if advance then Some(pos + got)
    else if pos + got >= n then Some(pos + got - n) else None
  }

  /** Reading without advancing restores the cursor only when the whole structure was
      read: after a short read near the end of the file the cursor lands before its start. */
  lemma ReadIntoRestores(data: seq<byte>, pos: nat, n: nat)
    ensures ReadIntoEnd(data, pos, n, false) == Some(pos) <==> n == 0 || pos + n <= |data|
  {
  }

  /** A 4-byte structure read without advancing at byte 10 of a 12-byte file leaves the
      cursor at byte 8. */
  lemma PeekShortRead()
    ensures ReadIntoEnd(seq(12, i => 0 as byte), 10, 4, false) == Some(8)
  {
  }

  /** `ZioPlainFile`: the file's bytes, the cursor, and whether the file is open. */
  class PlainFile {
    const data: seq<byte>
    var pos: nat
    var isOpen: bool

    constructor (contents: seq<byte>)
      ensures data == contents && pos == 0 && !isOpen
    {
      data := contents;
      pos := 0;
      isOpen := false;
    }

    /** `open`: a file already open stays as it is; otherwise it opens at the start. */
    method Open()
      modifies this
      ensures isOpen
      ensures pos == (if old(isOpen) then old(pos) else 0)
    {
      if !isOpen {
        isOpen := true;
        pos := 0;
      }
    }

    /** `seek_start`: a closed file has no handle to seek; a negative position is refused. */
    method SeekStart(p: int) returns (r: Result<(), Error>)
      modifies this
      ensures !old(isOpen) ==> r == Failure(AttributeError) && pos == old(pos)
      ensures old(isOpen) && p < 0 ==> r == Failure(SeekError) && pos == old(pos)
      ensures old(isOpen) && p >= 0 ==> r == Success(()) && pos == p
      ensures isOpen == old(isOpen)
    {
      if !isOpen {
        return Failure(AttributeError);
      }
      if p < 0 {
        return Failure(SeekError);
      }
      pos := p;
      r := Success(());
    }

    /** `seek_cur`: move the cursor by delta, refusing to go before the start. */
    method SeekCur(delta: int) returns (r: Result<(), Error>)
      modifies this
      ensures !old(isOpen) ==> r == Failure(AttributeError) && pos == old(pos)
      ensures old(isOpen) && old(pos) + delta < 0 ==> r == Failure(SeekError) && pos == old(pos)
      ensures old(isOpen) && old(pos) + delta >= 0 ==> r == Success(()) && pos == old(pos) + delta
      ensures isOpen == old(isOpen)
    {
      if !isOpen {
        return Failure(AttributeError);
      }
      if pos + delta < 0 {
        return Failure(SeekError);
      }
      pos := pos + delta;
      r := Success(());
    }

    /** `readinto` of an n-byte structure: open on first use, read what is there, and, when
        not advancing, step back by the structure's size. */
    method ReadInto(n: nat, advance: bool) returns (r: Result<seq<byte>, Error>)
      modifies this
      ensures isOpen
      ensures var start := if old(isOpen) then old(pos) else 0;
              var end := ReadIntoEnd(data, start, n, advance);
              (end.Some? ==> r == Success(ReadAt(data, start, n)) && pos == end.value) &&
              (end.None? ==> r == Failure(SeekError) && pos == start + |ReadAt(data, start, n)|)
    {
      Open();
      var got := ReadAt(data, pos, n);
      pos := pos + |got|;
      if advance {
        return Success(got);
      }
      var s := SeekCur(-(n as int));
      if s.Failure? {
        return Failure(SeekError);
      }
      r := Success(got);
    }

    /** Reading without advancing as intended: step back by the bytes actually read, so the
        cursor is where it was. */
    method Peek(n: nat) returns (r: seq<byte>)
      modifies this
      ensures isOpen
      ensures r == ReadAt(data, if old(isOpen) then old(pos) else 0, n)
      ensures pos == (if old(isOpen) then old(pos) else 0)
    {
      Open();
      r := ReadAt(data, pos, n);
    }

    /** `read`: open on first use and read up to n bytes. */
    method Read(n: nat) returns (r: seq<byte>)
      modifies this
      ensures isOpen
      ensures var start := if old(isOpen) then old(pos) else 0;
              r == ReadAt(data, start, n) && pos == start + |r|
    {
      Open();
      r := ReadAt(data, pos, n);
      pos := pos + |r|;
    }
  }

  // ---------------------------------------------------------------------
  // The language file

  /** `ZioLanguage.code_to_encoding`. */
  function CodeToEncoding(code: nat): (r: Result<Encoding, Error>)
    ensures r.Success? <==> 1 <= code <= 3
    ensures code == 1 ==> r == Success(Latin1)
    ensures code == 2 ==> r == Success(JisX0208)
    ensures code == 3 ==> r == Success(JisX0208Gb2312)
    ensures r.Failure? ==> r.error == CharCodeUnsupported
  {
    if code == 1 then Success(Latin1)
    else if code == 2 then Success(JisX0208)
    else if code == 3 then Success(JisX0208Gb2312)
    else Failure(CharCodeUnsupported)
  }

  /** The language file as written: `read_ushort` hands back the one-element tuple that
      `struct.unpack` returns, and a tuple is no key of the code table, so every file whose
      first two bytes can be read names an unsupported code. */
  function LanguageEncodingAsWritten(file: seq<byte>): (r: Result<Encoding, Error>)
    ensures |file| < 2 ==> r == Failure(StructError)
    ensures |file| >= 2 ==> r == Failure(CharCodeUnsupported)
  {
    if |file| < 2 then Failure(StructError) else Failure(CharCodeUnsupported)
  }

  /** The language file as intended: the first two bytes, big-endian, are the character code. */
  function LanguageEncoding(file: seq<byte>): (r: Result<Encoding, Error>)
    ensures |file| < 2 ==> r == Failure(StructError)
    ensures |file| >= 2 ==> r == CodeToEncoding(256 * file[0] as nat + file[1] as nat)
  {
    if |file| < 2 then Failure(StructError)
    else
      BigEndianPair(file[0], file[1]);
      assert file[..2] == [file[0], file[1]];
      CodeToEncoding(BigEndian(file[..2]))
  }

  /** A file starting 00 02 is a JIS X 0208 book, which the code as written rejects. */
  lemma LanguageTupleKey()
    ensures LanguageEncodingAsWritten([0, 2]) == Failure(CharCodeUnsupported)
    ensures LanguageEncoding([0, 2]) == Success(JisX0208)
  {
  }
}
