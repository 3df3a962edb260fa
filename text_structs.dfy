/** The two-byte unit every text structure starts with, and the generic views a text
    structure offers: whether it is an escape sequence, its `info` and its `_args`. */
module TextStructs {
  import opened Common
  import opened Structs

  /** The lead byte of every escape sequence. */
  const SectionCode: byte := 0x1F

  /** The header layout: code1 then code2, one byte each. */
  const HeaderFields := [Field("code1", 1), Field("code2", 1)]
  const HeaderSizeOnDisk: nat := 2

  /** The two bytes of a text unit. */
  datatype Header = Header(code1: byte, code2: byte)
  {
    /** `is_section`, read as the comparison it computes (the source defines it as a method,
        so the loop's bare test of it is always true; the comparison is its evident intent). */
    predicate IsSection()
    {
      code1 == SectionCode
    }

    /** The unit as two bytes, in stream order. */
    function CodeBytes(): (bs: seq<byte>)
      ensures |bs| == 2 && bs[0] == code1 && bs[1] == code2
    {
      [code1, code2]
    }
  }

  /** The header sits at offsets 0 and 1 and is exactly two bytes. */
  lemma HeaderLayout()
    ensures PadStructure(Layout("TextStruct", HeaderSizeOnDisk, HeaderFields)) ==
            Success(Layout("TextStruct", HeaderSizeOnDisk, HeaderFields))
    ensures Offset(HeaderFields, 1) == 1 && FieldsSize(HeaderFields) == 2
  {
    OffsetStep(HeaderFields, 0);
    OffsetStep(HeaderFields, 1);
  }

  /** Read a header from the first two bytes of a unit through its layout. */
  function ParseHeader(bs: seq<byte>): (h: Header)
    requires |bs| >= 2
    ensures h.code1 == bs[0] && h.code2 == bs[1]
    ensures h.CodeBytes() == bs[..2]
  {
    HeaderLayout();
    Header(FieldAt(HeaderFields, bs, 0)[0], FieldAt(HeaderFields, bs, 1)[0])
  }

  /** Values a structure's attributes can take. */
  datatype Value =
    | IntV(i: int)
    | BoolV(b: bool)
    | StrV(s: string)
    | BytesV(bytes: seq<byte>)
    | PairV(first: byte, second: byte)
    | DictV(entries: map<string, string>)

  /** `info`: no keys (None or empty) give the empty map; otherwise every key maps to its
      attribute, and a missing attribute raises. */
  function Info(keys: Option<seq<string>>, attr: string -> Option<Value>): (r: Result<map<string, Value>, Error>)
    ensures (keys.None? || keys.value == []) ==> r == Success(map[])
    ensures keys.Some? && keys.value != [] ==>
              (r.Success? <==> forall i :: 0 <= i < |keys.value| ==> attr(keys.value[i]).Some?)
    ensures r.Success? && keys.Some? ==> r.value.Keys == set k | k in keys.value
    ensures r.Success? && keys.Some? ==> forall k :: k in keys.value ==> r.value[k] == attr(k).value
    ensures r.Failure? ==> r.error == AttributeError
  {
    if keys.None? || keys.value == [] then Success(map[])
    else if forall i :: 0 <= i < |keys.value| ==> attr(keys.value[i]).Some? then
      Success(map k | k in keys.value :: attr(k).value)
    else Failure(AttributeError)
  }

  /** The first n >= start with no attribute `arg<n>`. */
  function FirstMissing(argNumbers: set<nat>, start: nat): (n: nat)
    ensures n >= start && n !in argNumbers
    ensures forall i :: start <= i < n ==> i in argNumbers
    decreases |set x | x in argNumbers && x >= start|
  {
    if start !in argNumbers then start
    else
      ghost var big := set x | x in argNumbers && x >= start;
      ghost var small := set x | x in argNumbers && x >= start + 1;
      assert small == big - {start};
      FirstMissing(argNumbers, start + 1)
  }

  /** The probing loop of `_args`: count up from arg1 while the structure has that attribute.
      `argNumbers` holds the n for which the structure defines `arg<n>`. */
  method CountArgs(argNumbers: set<nat>) returns (argi: nat)
    ensures argi >= 1 && argi !in argNumbers
    ensures forall i :: 1 <= i < argi ==> i in argNumbers
    ensures argi == FirstMissing(argNumbers, 1)
  {
    argi := 1;
    ghost var remaining := set x | x in argNumbers && x >= argi;
    while argi in argNumbers
      invariant argi >= 1
      invariant forall i :: 1 <= i < argi ==> i in argNumbers
      invariant remaining == set x | x in argNumbers && x >= argi
      invariant FirstMissing(argNumbers, argi) == FirstMissing(argNumbers, 1)
      decreases |remaining|
    {
      ghost var next := set x | x in argNumbers && x >= argi + 1;
      assert next == remaining - {argi};
      argi := argi + 1;
      remaining := next;
    }
  }

  /** `_args`: the code pair, then arg1 .. arg<argi - 1> in index order, then the extra arguments. */
  function Args(h: Header, argi: nat, argValue: nat -> Value, extra: seq<Value>): (r: seq<Value>)
    requires argi >= 1
    ensures |r| == argi + |extra|
    ensures r[0] == PairV(h.code1, h.code2)
    ensures forall i :: 1 <= i < argi ==> r[i] == argValue(i)
    ensures forall j :: 0 <= j < |extra| ==> r[argi + j] == extra[j]
  {
    [PairV(h.code1, h.code2)] + seq(argi - 1, i requires 0 <= i < argi - 1 => argValue(i + 1)) + extra
  }
}
