/** The escape-code registry of the text stream: the table from the second byte of an
    escape sequence (after the lead byte 0x1F) to the token it stands for, the skip codes,
    the handlers registered for token names, the layouts of the payloads that follow some
    escape sequences and the effect each handler has on the reader. */
module TextSections {
  import opened Common
  import opened Descriptors
  import opened Structs
  import opened TextStructs

  // ---------------------------------------------------------------------
  // Tokens

  /** The names tokens and handlers are keyed by (the strings of the source, one constructor
      each). */
  datatype SectionName =
    | TextName | NarrowName | SubscriptName | SetIndentName | NewlineName | UnicodeName
    | SuperscriptName | NoNewlineName | EmphasisName | GaijiName | MonoGraphicRefName
    | MpegName | InlineGraphicName | KeywordName | ReferenceName | CandidateName
    | MonoGraphicName | GraphicBlockName | WaveSoundName | PagedReferenceName
    | ImagePageName | GraphicName | ClickableName | EbSoundName | DecorationName
    | SkipCodeName

  /** What an escape code stands for: the start or end of a named section, a directive
      (with the constant information attached to it), or a skip code with its key. */
  datatype Token =
    | Start(name: SectionName)
    | End(name: SectionName)
    | Directive(name: SectionName, info: map<string, Value>)
    | SkipCode(code: byte, key: nat)
  {
    /** The name the handler table is consulted with. */
    function Name(): SectionName
    {
      if SkipCode? then SkipCodeName else name
    }
  }

  datatype Tag = StartTag | EndTag

  /** `_name_key`: end tokens are keyed as ends, everything else as a start. */
  function NameKey(t: Token): (k: (Tag, SectionName))
    ensures k.1 == t.Name()
    ensures k.0 == EndTag <==> t.End?
  {
    if t.End? then (EndTag, t.Name()) else (StartTag, t.Name())
  }

  /** The information the newline directive carries. */
  const NewlineInfo: map<string, Value> := map["context" := DictV(map["text_status" := "soft_stop"])]

  /** The explicitly listed entries of the `sections` table. */
  function ExplicitSection(c: byte): (t: Option<Token>)
  {
    match c
    case 0x02 => Some(Start(TextName))
    case 0x03 => Some(End(TextName))
    case 0x04 => Some(Start(NarrowName))
    case 0x05 => Some(End(NarrowName))
    case 0x06 => Some(Start(SubscriptName))
    case 0x07 => Some(End(SubscriptName))
    case 0x09 => Some(Directive(SetIndentName, map[]))
    case 0x0a => Some(Directive(NewlineName, NewlineInfo))
    case 0x0b => Some(Start(UnicodeName))
    case 0x0c => Some(End(UnicodeName))
    case 0x0e => Some(Start(SuperscriptName))
    case 0x0f => Some(End(SuperscriptName))
    case 0x10 => Some(Start(NoNewlineName))
    case 0x11 => Some(End(NoNewlineName))
    case 0x12 => Some(Start(EmphasisName))
    case 0x13 => Some(End(EmphasisName))
    case 0x1a => Some(Directive(EmphasisName, map[]))
    case 0x1b => Some(Directive(EmphasisName, map[]))
    case 0x1e => Some(Directive(EmphasisName, map[]))
    case 0x1f => Some(Directive(EmphasisName, map[]))
    case 0x1c => Some(Start(GaijiName))
    case 0x1d => Some(End(GaijiName))
    case 0x32 => Some(Start(MonoGraphicRefName))
    case 0x39 => Some(Start(MpegName))
    case 0x3c => Some(Start(InlineGraphicName))
    case 0x41 => Some(Start(KeywordName))
    case 0x42 => Some(Start(ReferenceName))
    case 0x43 => Some(Start(CandidateName))
    case 0x44 => Some(Start(MonoGraphicName))
    case 0x45 => Some(Start(GraphicBlockName))
    case 0x4a => Some(Start(WaveSoundName))
    case 0x4b => Some(Start(PagedReferenceName))
    case 0x4c => Some(Start(ImagePageName))
    case 0x4d => Some(Start(GraphicName))
    case 0x4f => Some(Start(ClickableName))
    case 0x52 => Some(End(MonoGraphicRefName))
    case 0x53 => Some(End(EbSoundName))
    case 0x59 => Some(End(MpegName))
    case 0x5c => Some(End(InlineGraphicName))
    case 0x61 => Some(End(KeywordName))
    case 0x62 => Some(End(ReferenceName))
    case 0x63 => Some(End(CandidateName))
    case 0x64 => Some(End(MonoGraphicName))
    case 0x6a => Some(End(WaveSoundName))
    case 0x6b => Some(End(PagedReferenceName))
    case 0x6c => Some(End(ImagePageName))
    case 0x6d => Some(End(GraphicName))
    case 0x6f => Some(End(ClickableName))
    case 0xe0 => Some(Start(DecorationName))
    case 0xe1 => Some(End(DecorationName))
    case _ => None
  }

  /** The explicitly listed codes in the order the table lists them. */
  const ExplicitOrder: seq<byte> :=
    [0x02, 0x03, 0x04, 0x05, 0x06, 0x07, 0x09, 0x0a, 0x0b, 0x0c, 0x0e, 0x0f, 0x10, 0x11, 0x12,
     0x13, 0x1a, 0x1b, 0x1e, 0x1f, 0x1c, 0x1d, 0x32, 0x39, 0x3c] +
    [0x41, 0x42, 0x43, 0x44, 0x45, 0x4a, 0x4b, 0x4c, 0x4d, 0x4f, 0x52, 0x53, 0x59, 0x5c, 0x61,
     0x62, 0x63, 0x64, 0x6a, 0x6b, 0x6c, 0x6d, 0x6f, 0xe0, 0xe1]

  /** The listed codes are exactly the codes with an explicit entry. */
  lemma ExplicitKeys()
    ensures forall i :: 0 <= i < |ExplicitOrder| ==> ExplicitSection(ExplicitOrder[i]).Some?
    ensures forall c :: ExplicitSection(c).Some? ==> c in ExplicitOrder
  {
  }

  /** The explicit entries as a map (the `sections` dict before the skip codes are added). */
  function ExplicitTable(): (t: map<byte, Token>)
    ensures forall c :: c in t <==> ExplicitSection(c).Some?
    ensures forall c :: c in t ==> t[c] == ExplicitSection(c).value
  {
    ExplicitKeys();
    map c | c in ExplicitOrder :: ExplicitSection(c).value
  }

  // ---------------------------------------------------------------------
  // Skip codes

  /** The `skip_codes` list. */
  const SkipCodes: seq<byte> :=
    [0x14, 0x35, 0x36, 0x37, 0x38, 0x3a, 0x3b, 0x3d, 0x3e, 0x3f, 0x49, 0x4e,
     0x70, 0x71, 0x72, 0x73, 0x74, 0x75, 0x76, 0x77, 0x78, 0x79, 0x7a, 0x7b, 0x7c, 0x7d, 0x7e, 0x7f] +
    [0x80, 0x81, 0x82, 0x83, 0x84, 0x85, 0x86, 0x87, 0x88, 0x89, 0x8a, 0x8b, 0x8c, 0x8d, 0x8e, 0x8f,
     0xe4, 0xe6, 0xe8, 0xea, 0xec, 0xee, 0xf0, 0xf2, 0xf4, 0xf6, 0xf8, 0xfa, 0xfc, 0xfe]

  /** `SkipCode.__init__`: the key that ends a skipped stretch. */
  function SkipKey(code: byte): (k: nat)
    ensures code == 0x14 ==> k == 0x15
    ensures 0xe4 <= code <= 0xfe ==> k == code as nat + 1
    ensures code != 0x14 && !(0xe4 <= code <= 0xfe) ==> k == code as nat + 0x20
  {
    if code == 0x14 then 0x15
    else if 0xe4 <= code <= 0xfe then code as nat + 1
    else code as nat + 0x20
  }

  /** The code ranges the skip-code list is drawn from. */
  predicate SkipRange(c: byte)
  {
    c == 0x14 || 0x35 <= c <= 0x38 || c == 0x3a || c == 0x3b || 0x3d <= c <= 0x3f ||
    c == 0x49 || c == 0x4e || 0x70 <= c <= 0x8f || (0xe4 <= c <= 0xfe && c % 2 == 0)
  }

  lemma SkipCodesInRange()
    ensures forall i :: 0 <= i < |SkipCodes| ==> SkipRange(SkipCodes[i])
  {
  }

  lemma SkipCodesAscending()
    ensures forall i :: 0 <= i < |SkipCodes| - 1 ==> SkipCodes[i] < SkipCodes[i + 1]
  {
  }

  /** No code of the skip ranges has an explicit entry. */
  lemma SkipRangeFree()
    ensures forall c :: SkipRange(c) ==> ExplicitSection(c).None?
  {
  }

  /** A code with an explicit entry is not a skip code. */
  lemma ExplicitNotSkip(c: byte)
    requires ExplicitSection(c).Some?
    ensures c !in SkipCodes
  {
    SkipCodesInRange();
    SkipRangeFree();
  }

  /** A sequence that ascends step by step ascends throughout. */
  lemma {:induction false} AscendingPairs(s: seq<byte>, i: nat, j: nat)
    requires forall k :: 0 <= k < |s| - 1 ==> s[k] < s[k + 1]
    requires i < j < |s|
    ensures s[i] < s[j]
  {
    if j > i + 1 {
      AscendingPairs(s, i, j - 1);
    }
  }

  /** The skip codes are pairwise distinct and none of them is among the explicit codes. */
  lemma SkipCodesDisjoint()
    ensures forall i, j :: 0 <= i < j < |SkipCodes| ==> SkipCodes[i] != SkipCodes[j]
    ensures forall i :: 0 <= i < |SkipCodes| ==> SkipCodes[i] !in ExplicitOrder
  {
    SkipCodesInRange();
    SkipCodesAscending();
    SkipRangeFree();
    ExplicitKeys();
    forall i, j | 0 <= i < j < |SkipCodes|
      ensures SkipCodes[i] != SkipCodes[j]
    {
      AscendingPairs(SkipCodes, i, j);
    }
  }

  // ---------------------------------------------------------------------
  // The table after the skip codes are registered

  /** Python dict assignment of a key to the insertion order: a new key goes to the end. */
  function AppendNew(order: seq<byte>, xs: seq<byte>): (r: seq<byte>)
    ensures forall c :: c in r <==> c in order || c in xs
    ensures |order| <= |r| && r[..|order|] == order
    decreases |xs|
  {
    if |xs| == 0 then order
    else
      var next := if xs[0] in order then order else order + [xs[0]];
      var r := AppendNew(next, xs[1..]);
      assert r[..|next|][..|order|] == r[..|order|];
      assert forall c :: c in xs <==> c == xs[0] || c in xs[1..];
      r
  }

  /** The table after `sections[c] = SkipCode(c)` for every listed code, in order. */
  function AssignSkips(t: map<byte, Token>, xs: seq<byte>): (r: map<byte, Token>)
    ensures forall c :: c in r <==> c in t || c in xs
    ensures forall c :: c in xs ==> r[c] == SkipCode(c, SkipKey(c))
    ensures forall c :: c in t && c !in xs ==> r[c] == t[c]
    decreases |xs|
  {
    if |xs| == 0 then t
    else
      assert forall c :: c in xs <==> c == xs[0] || c in xs[1..];
      AssignSkips(t[xs[0] := SkipCode(xs[0], SkipKey(xs[0]))], xs[1..])
  }

  /** The entry of the finished table for a code. */
  function Section(c: byte): (t: Option<Token>)
    ensures c in SkipCodes ==> t == Some(SkipCode(c, SkipKey(c)))
    ensures c !in SkipCodes ==> t == ExplicitSection(c)
  {
    if c in SkipCodes then Some(SkipCode(c, SkipKey(c))) else ExplicitSection(c)
  }

  /** The insertion order of the finished table. */
  function SectionOrder(): seq<byte>
  {
    AppendNew(ExplicitOrder, SkipCodes)
  }

  /** Appending keys that are new and distinct puts each of them at the end, in order. */
  lemma {:induction false} AppendNewFresh(order: seq<byte>, xs: seq<byte>)
    requires forall i :: 0 <= i < |xs| ==> xs[i] !in order
    requires forall i, j :: 0 <= i < j < |xs| ==> xs[i] != xs[j]
    ensures AppendNew(order, xs) == order + xs
    decreases |xs|
  {
    if |xs| > 0 {
      FreshTail(order, xs);
      AppendNewFresh(order + [xs[0]], xs[1..]);
      ConsAppend(order, xs);
    }
  }

  /** Appending the first key, then the others, appends them all. */
  lemma ConsAppend(order: seq<byte>, xs: seq<byte>)
    requires |xs| > 0
    ensures order + [xs[0]] + xs[1..] == order + xs
  {
    assert [xs[0]] + xs[1..] == xs;
  }

  /** After the first of some new and distinct keys is appended, the others are still new
      and distinct. */
  lemma FreshTail(order: seq<byte>, xs: seq<byte>)
    requires |xs| > 0
    requires forall i :: 0 <= i < |xs| ==> xs[i] !in order
    requires forall i, j :: 0 <= i < j < |xs| ==> xs[i] != xs[j]
    ensures forall i :: 0 <= i < |xs[1..]| ==> xs[1..][i] !in order + [xs[0]]
    ensures forall i, j :: 0 <= i < j < |xs[1..]| ==> xs[1..][i] != xs[1..][j]
    ensures AppendNew(order, xs) == AppendNew(order + [xs[0]], xs[1..])
  {
    assert xs[0] !in order;
    var rest := xs[1..];
    forall i | 0 <= i < |rest|
      ensures rest[i] !in order + [xs[0]]
    {
      assert rest[i] == xs[i + 1] && xs[i + 1] != xs[0] && xs[i + 1] !in order;
    }
    forall i, j | 0 <= i < j < |rest|
      ensures rest[i] != rest[j]
    {
      assert rest[i] == xs[i + 1] && rest[j] == xs[j + 1];
    }
  }

  /** Registering the skip codes appends every listed code to the table order, after the
      explicit codes and in list order. */
  lemma SkipOrder()
    ensures SectionOrder() == ExplicitOrder + SkipCodes
  {
    SkipCodesDisjoint();
    AppendNewFresh(ExplicitOrder, SkipCodes);
  }

  /** The registry built at import holds, code for code, the tokens of `Section`, and
      every explicit entry is unchanged. */
  lemma RegistryTable(c: byte)
    ensures c in AssignSkips(ExplicitTable(), SkipCodes) <==> Section(c).Some?
    ensures c in AssignSkips(ExplicitTable(), SkipCodes) ==> AssignSkips(ExplicitTable(), SkipCodes)[c] == Section(c).value
    ensures c in ExplicitTable() ==> AssignSkips(ExplicitTable(), SkipCodes)[c] == ExplicitTable()[c]
  {
    if ExplicitSection(c).Some? {
      ExplicitNotSkip(c);
    }
  }

  /** Every code with an explicit entry keeps it in the finished table. */
  lemma SectionOfExplicit(c: byte)
    requires ExplicitSection(c).Some?
    ensures Section(c) == ExplicitSection(c)
  {
    ExplicitNotSkip(c);
  }

  /** `_get_section_name_dict()`: every token's name key mapped to its code; when two
      codes share a key, the later one in table order wins. */
  function NameDict(order: seq<byte>): (d: map<(Tag, SectionName), byte>)
    ensures forall k :: k in d ==> d[k] in order && Section(d[k]).Some? && NameKey(Section(d[k]).value) == k
    ensures forall c :: c in order && Section(c).Some? ==> NameKey(Section(c).value) in d
    decreases |order|
  {
    if |order| == 0 then map[]
    else
      var last := order[|order| - 1];
      var d := NameDict(order[..|order| - 1]);
      assert forall c :: c in order <==> c == last || c in order[..|order| - 1];
      if Section(last).Some? then d[NameKey(Section(last).value) := last] else d
  }

  /** No token but the one at 0x41 starts a keyword section. */
  lemma KeywordOnly(c: byte)
    ensures Section(c).Some? && NameKey(Section(c).value) == (StartTag, KeywordName) ==> c == 0x41
  {
    if c !in SkipCodes {
      assert Section(c) == ExplicitSection(c);
    }
  }

  /** The name dict of the finished table sends the keyword start to 0x41. */
  lemma KeywordStartCode()
    ensures (StartTag, KeywordName) in NameDict(SectionOrder())
    ensures NameDict(SectionOrder())[(StartTag, KeywordName)] == KeywordCode
  {
    SkipOrder();
    assert ExplicitOrder[25] == 0x41;
    assert (ExplicitOrder + SkipCodes)[25] == 0x41;
    KeywordKeyIn(SectionOrder());
  }

  /** Any order holding 0x41 sends the keyword start to it in its name dict. */
  lemma KeywordKeyIn(order: seq<byte>)
    requires 0x41 in order
    ensures (StartTag, KeywordName) in NameDict(order)
    ensures NameDict(order)[(StartTag, KeywordName)] == 0x41
  {
    SectionOfExplicit(0x41);
    assert NameKey(Section(0x41).value) == (StartTag, KeywordName);
    var v := NameDict(order)[(StartTag, KeywordName)];
    KeywordOnly(v);
  }

  /** The code the keyword handler receives as its `start_code`. */
  const KeywordCode: byte := 0x41

  // ---------------------------------------------------------------------
  // Handlers

  /** The handler classes the module registers, one per key. */
  datatype HandlerKind =
    | TextH | SetIndentH | EmphasisH | GaijiH | MonoGraphicH | MonoGraphicRefH | MpegH
    | KeywordH | ReferenceH | CandidateH | GraphicBlockH | WaveSoundH | PagedReferenceH
    | ImagePageH | GraphicH | InlineGraphicH | ClickableH | EbSoundH | DecorationH

  /** The key each handler class is registered under. */
  function HandlerKey(h: HandlerKind): SectionName
  {
    match h
    case TextH => TextName
    case SetIndentH => SetIndentName
    case EmphasisH => EmphasisName
    case GaijiH => GaijiName
    case MonoGraphicH => MonoGraphicName
    case MonoGraphicRefH => MonoGraphicRefName
    case MpegH => MpegName
    case KeywordH => KeywordName
    case ReferenceH => ReferenceName
    case CandidateH => CandidateName
    case GraphicBlockH => GraphicBlockName
    case WaveSoundH => WaveSoundName
    case PagedReferenceH => PagedReferenceName
    case ImagePageH => ImagePageName
    case GraphicH => GraphicName
    case InlineGraphicH => InlineGraphicName
    case ClickableH => ClickableName
    case EbSoundH => EbSoundName
    case DecorationH => DecorationName
  }

  /** The `handlers` dict once every handler is registered. */
  function HandlerOf(name: SectionName): (r: Option<HandlerKind>)
  {
    match name
    case TextName => Some(TextH)
    case SetIndentName => Some(SetIndentH)
    case EmphasisName => Some(EmphasisH)
    case GaijiName => Some(GaijiH)
    case MonoGraphicName => Some(MonoGraphicH)
    case MonoGraphicRefName => Some(MonoGraphicRefH)
    case MpegName => Some(MpegH)
    case KeywordName => Some(KeywordH)
    case ReferenceName => Some(ReferenceH)
    case CandidateName => Some(CandidateH)
    case GraphicBlockName => Some(GraphicBlockH)
    case WaveSoundName => Some(WaveSoundH)
    case PagedReferenceName => Some(PagedReferenceH)
    case ImagePageName => Some(ImagePageH)
    case GraphicName => Some(GraphicH)
    case InlineGraphicName => Some(InlineGraphicH)
    case ClickableName => Some(ClickableH)
    case EbSoundName => Some(EbSoundH)
    case DecorationName => Some(DecorationH)
    case _ => None
  }

  /** Looking a handler up by its own key finds it, and a name that finds a handler is that
      handler's key: no two handlers share a key. */
  lemma HandlerKeyRoundTrip()
    ensures forall h :: HandlerOf(HandlerKey(h)) == Some(h)
    ensures forall name :: HandlerOf(name).Some? ==> HandlerKey(HandlerOf(name).value) == name
  {
    HandlerNameKey();
  }

  lemma HandlerNameKey()
    ensures forall name :: HandlerOf(name).Some? ==> HandlerKey(HandlerOf(name).value) == name
  {
  }

  /** The names no handler is registered for. */
  lemma UnhandledNames(name: SectionName)
    ensures HandlerOf(name).None? <==>
              name in {NarrowName, SubscriptName, NewlineName, UnicodeName, SuperscriptName, NoNewlineName, SkipCodeName}
  {
  }

  /** The two handlers derived from the directive handler class; all others handle sections. */
  predicate IsDirectiveHandler(h: HandlerKind)
  {
    h == SetIndentH || h == EmphasisH
  }

  /** The order in which the module registers its handlers. */
  const RegistrationOrder: seq<HandlerKind> :=
    [TextH, SetIndentH, EmphasisH, GaijiH, MonoGraphicH, MonoGraphicRefH, MpegH, KeywordH,
     ReferenceH, CandidateH, GraphicBlockH, WaveSoundH, PagedReferenceH, ImagePageH, GraphicH,
     InlineGraphicH, ClickableH, EbSoundH, DecorationH]

  /** The position of each handler class in the registration order. */
  function RegistrationIndex(h: HandlerKind): (j: nat)
    ensures j < |RegistrationOrder| && RegistrationOrder[j] == h
  {
    match h
    case TextH => 0
    case SetIndentH => 1
    case EmphasisH => 2
    case GaijiH => 3
    case MonoGraphicH => 4
    case MonoGraphicRefH => 5
    case MpegH => 6
    case KeywordH => 7
    case ReferenceH => 8
    case CandidateH => 9
    case GraphicBlockH => 10
    case WaveSoundH => 11
    case PagedReferenceH => 12
    case ImagePageH => 13
    case GraphicH => 14
    case InlineGraphicH => 15
    case ClickableH => 16
    case EbSoundH => 17
    case DecorationH => 18
  }

  /** Each handler class is registered once: its position names it. */
  lemma RegistrationOnce()
    ensures forall i :: 0 <= i < |RegistrationOrder| ==> RegistrationIndex(RegistrationOrder[i]) == i
  {
  }

  /** The module's handler registry (`handlers`) and the codes `register_handler` gives the
      handler classes. */
  class HandlerRegistry {
    var handlers: map<SectionName, HandlerKind>
    var startCodes: map<HandlerKind, byte>

    constructor ()
      ensures handlers == map[] && startCodes == map[]
    {
      handlers := map[];
      startCodes := map[];
    }

    /** `register_handler(key, replace)` applied to a handler class, with `nameCodes` the
        name dict of the token table: a key already taken raises unless replacing;
        otherwise the class gets the code of its start token (no handler class derives from
        the section-end class), when the dict has one, and is entered under the key. */
    method Register(key: SectionName, h: HandlerKind, replace: bool, nameCodes: map<(Tag, SectionName), byte>)
      returns (r: Result<(), Error>)
      modifies this
      ensures key in old(handlers) && !replace ==>
                r == Failure(KeyError) && handlers == old(handlers) && startCodes == old(startCodes)
      ensures !(key in old(handlers) && !replace) ==>
                r == Success(()) && handlers == old(handlers)[key := h] &&
                startCodes == (if (StartTag, key) in nameCodes then old(startCodes)[h := nameCodes[(StartTag, key)]]
                               else old(startCodes))
    {
      if key in handlers && !replace {
        return Failure(KeyError);
      }
      if (StartTag, key) in nameCodes {
        startCodes := startCodes[h := nameCodes[(StartTag, key)]];
      }
      handlers := handlers[key := h];
      r := Success(());
    }

    /** The registrations the module performs at import, in source order: none raises,
        afterwards the registry is `HandlerOf`, and the keyword handler has the code the
        dict gives the keyword start. */
    method RegisterAll(nameCodes: map<(Tag, SectionName), byte>)
      modifies this
      requires handlers == map[]
      ensures forall name :: name in handlers <==> HandlerOf(name).Some?
      ensures forall name :: name in handlers ==> Some(handlers[name]) == HandlerOf(name)
      ensures (StartTag, KeywordName) in nameCodes ==>
                KeywordH in startCodes && startCodes[KeywordH] == nameCodes[(StartTag, KeywordName)]
    {
      RegistrationOnce();
      HandlerKeyRoundTrip();
      var i := 0;
      while i < |RegistrationOrder|
        invariant 0 <= i <= |RegistrationOrder|
        invariant forall name :: name in handlers <==> HandlerOf(name).Some? && RegistrationIndex(HandlerOf(name).value) < i
        invariant forall name :: name in handlers ==> Some(handlers[name]) == HandlerOf(name)
        invariant i > 7 && (StartTag, KeywordName) in nameCodes ==>
                    KeywordH in startCodes && startCodes[KeywordH] == nameCodes[(StartTag, KeywordName)]
      {
        var h := RegistrationOrder[i];
        var ok := Register(HandlerKey(h), h, false, nameCodes);
        i := i + 1;
      }
    }
  }

  // ---------------------------------------------------------------------
  // Payload layouts

  /** The structures read after some escape sequences. */
  datatype Payload =
    | PageOffsetP | SetIndentP | MonoGraphicP | MpegP | KeywordP | ReferenceP
    | GraphicBlockP | WaveSoundP | GraphicP | ClickableP | DecorationP

  /** Each payload layout: the two header bytes, then its own fields. */
  function PayloadLayout(p: Payload): (l: Layout)
  {
    match p
    case PageOffsetP => Layout("PageOffsetStruct", 8,
      [Field("code1", 1), Field("code2", 1), Field("_page", 4), Field("_offset", 2)])
    case SetIndentP => Layout("SetIndentHandler.struct", 4,
      [Field("code1", 1), Field("code2", 1), Field("indent", 2)])
    case MonoGraphicP => Layout("MonoGraphicSection.start_struct", 12,
      [Field("code1", 1), Field("code2", 1), Field("_unknown", 2), Field("_width", 4), Field("_height", 4)])
    case MpegP => Layout("MPEGSection.start_struct", 46,
      [Field("code1", 1), Field("code2", 1), Field("_unknown0", 4), Field("_unknown1", 16), Field("arg2", 4),
       Field("arg3", 4), Field("arg4", 4), Field("arg5", 4), Field("_unknown2", 8)])
    case KeywordP => Layout("KeywordSection.start_struct", 4,
      [Field("code1", 1), Field("code2", 1), Field("auto_stop_code", 2)])
    case ReferenceP => Layout("ReferenceSection.start_struct", 4,
      [Field("code1", 1), Field("code2", 1), Field("arg_check", 1), Field("unknown", 1)])
    case GraphicBlockP => Layout("GraphicBlockSection.start_struct", 4,
      [Field("code1", 1), Field("code2", 1), Field("_arg1", 2)])
    case WaveSoundP => Layout("WaveSoundSection.start_struct", 18,
      [Field("code1", 1), Field("code2", 1), Field("arg1", 4), Field("_start_page", 4), Field("_start_offset", 2),
       Field("_end_page", 4), Field("_end_offset", 2)])
    case GraphicP => Layout("GraphicSection.start_struct", 20,
      [Field("code1", 1), Field("code2", 1), Field("_type_info", 2), Field("_unknown", 10), Field("_page", 4),
       Field("_offset", 2)])
    case ClickableP => Layout("ClickableSection.start_struct", 34,
      [Field("code1", 1), Field("code2", 1), Field("_unknown0", 6), Field("_x", 2), Field("_y", 2),
       Field("_width", 2), Field("_height", 2), Field("_unknown1", 12), Field("_page", 4), Field("_offset", 2)])
    case DecorationP => Layout("EBDecoration.start_struct", 4,
      [Field("code1", 1), Field("code2", 1), Field("decoration_code", 2)])
  }

  /** Every payload extends the text-structure header. */
  lemma PayloadHeader(p: Payload)
    ensures |PayloadLayout(p).fields| >= 3 && PayloadLayout(p).fields[..2] == HeaderFields
  {
  }

  /** The size of each payload. */
  function PayloadSize(p: Payload): nat
  {
    PayloadLayout(p).sizeOnDisk
  }

  /** The byte position at which each field of a payload starts, and where the last ends. */
  function PayloadStarts(p: Payload): seq<nat>
  {
    match p
    case PageOffsetP => [0, 1, 2, 6, 8]
    case SetIndentP => [0, 1, 2, 4]
    case MonoGraphicP => [0, 1, 2, 4, 8, 12]
    case MpegP => [0, 1, 2, 6, 22, 26, 30, 34, 38, 46]
    case KeywordP => [0, 1, 2, 4]
    case ReferenceP => [0, 1, 2, 3, 4]
    case GraphicBlockP => [0, 1, 2, 4]
    case WaveSoundP => [0, 1, 2, 6, 10, 12, 16, 18]
    case GraphicP => [0, 1, 2, 4, 14, 18, 20]
    case ClickableP => [0, 1, 2, 8, 10, 12, 14, 16, 28, 32, 34]
    case DecorationP => [0, 1, 2, 4]
  }

  /** The listed positions grow by each field's width, from 0 to the declared size. */
  predicate StartsFit(fs: seq<Field>, starts: seq<nat>, size: nat)
  {
    |starts| == |fs| + 1 && starts[0] == 0 && starts[|fs|] == size &&
    forall k :: 0 <= k < |fs| ==> starts[k + 1] == starts[k] + fs[k].size
  }

  lemma PayloadStartsFit(p: Payload)
    ensures StartsFit(PayloadLayout(p).fields, PayloadStarts(p), PayloadSize(p))
  {
    if p in {MpegP, WaveSoundP, GraphicP, ClickableP} {
      LongPayloadStartsFit(p);
    }
  }

  lemma LongPayloadStartsFit(p: Payload)
    requires p in {MpegP, WaveSoundP, GraphicP, ClickableP}
    ensures StartsFit(PayloadLayout(p).fields, PayloadStarts(p), PayloadSize(p))
  {
  }

  /** The size self-check of `_check_handlers`: every payload, header included, packs to
      exactly its declared size, and its fields lie at the listed positions. */
  lemma PayloadOffsets(p: Payload)
    ensures |PayloadStarts(p)| == |PayloadLayout(p).fields| + 1
    ensures forall i :: 0 <= i <= |PayloadLayout(p).fields| ==> Offset(PayloadLayout(p).fields, i) == PayloadStarts(p)[i]
    ensures FieldsSize(PayloadLayout(p).fields) == PayloadSize(p)
    ensures PayloadSize(p) >= 4
  {
    var fs := PayloadLayout(p).fields;
    var starts := PayloadStarts(p);
    PayloadStartsFit(p);
    forall i | 0 <= i <= |fs|
      ensures Offset(fs, i) == starts[i]
    {
      StartsAgree(fs, starts, i);
    }
    StartsAgree(fs, starts, |fs|);
  }

  /** The bytes of field i of a payload held in bs. */
  function PayloadField(p: Payload, bs: seq<byte>, i: nat): (r: seq<byte>)
    requires |bs| == PayloadSize(p) && i < |PayloadLayout(p).fields|
    ensures |PayloadStarts(p)| == |PayloadLayout(p).fields| + 1
    ensures PayloadStarts(p)[i] <= PayloadStarts(p)[i + 1] <= |bs|
    ensures r == bs[PayloadStarts(p)[i]..PayloadStarts(p)[i + 1]]
  {
    PayloadOffsets(p);
    OffsetStep(PayloadLayout(p).fields, i);
    FieldAt(PayloadLayout(p).fields, bs, i)
  }

  // ---------------------------------------------------------------------
  // Payload attributes

  /** `is_leaf` of a page/offset pair: both zero. */
  function IsLeaf(page: nat, offset: nat): (b: bool)
    ensures b <==> page == 0 && offset == 0
  {
    page == 0 && offset == 0
  }

  /** `image_type`: a zero high byte of the type word marks a bitmap, anything else JPEG. */
  function ImageType(typeInfo: nat): (t: string)
    ensures t == "bmp" <==> typeInfo / 256 == 0
    ensures t != "bmp" ==> t == "jpeg"
  {
    if typeInfo / 256 == 0 then "bmp" else "jpeg"
  }

  /** `decoration_type`: code 1 is italic, 3 bold, any other code unknown. */
  function DecorationType(code: nat): (t: string)
    ensures code == 1 <==> t == "italic"
    ensures code == 3 <==> t == "bold"
    ensures code != 1 && code != 3 <==> t == "unknown"
  {
    if code == 1 then "italic" else if code == 3 then "bold" else "unknown"
  }

  /** The page and offset of a page/offset payload, BCD-coded in bytes 2-5 and 6-7. */
  function PageOffsetOf(bs: seq<byte>): (r: (nat, nat))
    requires |bs| == PayloadSize(PageOffsetP)
    ensures r == (BcdValue(bs[2..6]), BcdValue(bs[6..8]))
  {
    (BcdValue(PayloadField(PageOffsetP, bs, 2)), BcdValue(PayloadField(PageOffsetP, bs, 3)))
  }

  /** The width and height of a monochrome graphic, BCD-coded in bytes 4-7 and 8-11. */
  function MonoGraphicSize(bs: seq<byte>): (r: (nat, nat))
    requires |bs| == PayloadSize(MonoGraphicP)
    ensures r == (BcdValue(bs[4..8]), BcdValue(bs[8..12]))
  {
    (BcdValue(PayloadField(MonoGraphicP, bs, 3)), BcdValue(PayloadField(MonoGraphicP, bs, 4)))
  }

  /** The stop code a keyword announces, bytes 2 and 3. */
  function KeywordStopCode(bs: seq<byte>): (r: seq<byte>)
    requires |bs| == PayloadSize(KeywordP)
    ensures r == bs[2..4]
  {
    PayloadField(KeywordP, bs, 2)
  }

  /** The argument byte of a reference: the byte after the escape code. */
  function ReferenceArg(bs: seq<byte>): (r: byte)
    requires |bs| == PayloadSize(ReferenceP)
    ensures r == bs[2]
  {
    PayloadField(ReferenceP, bs, 2)[0]
  }

  /** The graphic-block check: the byte after the escape code is not another escape lead. */
  function GraphicBlockCheck(bs: seq<byte>): (r: bool)
    requires |bs| == PayloadSize(GraphicBlockP)
    ensures r <==> bs[2] != SectionCode
  {
    PayloadField(GraphicBlockP, bs, 2)[0] != SectionCode
  }

  /** The big-endian 16-bit word of a graphic's type or a decoration's code, bytes 2 and 3. */
  function CodeWord(p: Payload, bs: seq<byte>): (r: nat)
    requires p == GraphicP || p == DecorationP || p == SetIndentP
    requires |bs| == PayloadSize(p)
    ensures r == 256 * bs[2] as nat + bs[3] as nat
  {
    var w := PayloadField(p, bs, 2);
    assert w == [bs[2], bs[3]];
    BigEndianPair(bs[2], bs[3]);
    BigEndian(w)
  }

  /** `info` of a page/offset payload: the page, the offset and whether both are zero. */
  function PageOffsetInfo(bs: seq<byte>): (info: map<string, Value>)
    requires |bs| == PayloadSize(PageOffsetP)
    ensures info.Keys == {"page", "offset", "is_leaf"}
    ensures info["page"] == IntV(BcdValue(bs[2..6])) && info["offset"] == IntV(BcdValue(bs[6..8]))
    ensures info["is_leaf"] == BoolV(BcdValue(bs[2..6]) == 0 && BcdValue(bs[6..8]) == 0)
  {
    var (page, offset) := PageOffsetOf(bs);
    map["page" := IntV(page), "offset" := IntV(offset), "is_leaf" := BoolV(IsLeaf(page, offset))]
  }

  /** `info` of a graphic payload: page, offset and image type. */
  function GraphicInfo(bs: seq<byte>): (info: map<string, Value>)
    requires |bs| == PayloadSize(GraphicP)
    ensures info.Keys == {"page", "offset", "image_type"}
    ensures info["page"] == IntV(BcdValue(bs[14..18])) && info["offset"] == IntV(BcdValue(bs[18..20]))
    ensures info["image_type"] == StrV(if bs[2] == 0 then "bmp" else "jpeg")
  {
    var t := CodeWord(GraphicP, bs);
    assert t / 256 == bs[2] as nat;
    map["page" := IntV(BcdValue(PayloadField(GraphicP, bs, 4))), "offset" := IntV(BcdValue(PayloadField(GraphicP, bs, 5))),
        "image_type" := StrV(ImageType(t))]
  }

  /** `info` of a wave-sound payload: the BCD start and end positions. */
  function WaveSoundInfo(bs: seq<byte>): (info: map<string, Value>)
    requires |bs| == PayloadSize(WaveSoundP)
    ensures info.Keys == {"start_page", "start_offset", "end_page", "end_offset"}
    ensures info["start_page"] == IntV(BcdValue(bs[6..10])) && info["start_offset"] == IntV(BcdValue(bs[10..12]))
    ensures info["end_page"] == IntV(BcdValue(bs[12..16])) && info["end_offset"] == IntV(BcdValue(bs[16..18]))
  {
    map["start_page" := IntV(BcdValue(PayloadField(WaveSoundP, bs, 3))),
        "start_offset" := IntV(BcdValue(PayloadField(WaveSoundP, bs, 4))),
        "end_page" := IntV(BcdValue(PayloadField(WaveSoundP, bs, 5))),
        "end_offset" := IntV(BcdValue(PayloadField(WaveSoundP, bs, 6)))]
  }

  /** `info` of a decoration payload: the style its code word names. */
  function DecorationInfo(bs: seq<byte>): (info: map<string, Value>)
    requires |bs| == PayloadSize(DecorationP)
    ensures info.Keys == {"decoration_type"}
    ensures bs[2] == 0 && bs[3] == 1 ==> info["decoration_type"] == StrV("italic")
    ensures bs[2] == 0 && bs[3] == 3 ==> info["decoration_type"] == StrV("bold")
    ensures !(bs[2] == 0 && (bs[3] == 1 || bs[3] == 3)) ==> info["decoration_type"] == StrV("unknown")
  {
    map["decoration_type" := StrV(DecorationType(CodeWord(DecorationP, bs)))]
  }

  /** `SetIndent.info`: the indent is the big-endian word after the escape code. */
  function SetIndentInfo(bs: seq<byte>): (info: map<string, Value>)
    requires |bs| == PayloadSize(SetIndentP)
    ensures info == map["indent" := IntV(256 * bs[2] as int + bs[3] as int)]
  {
    map["indent" := IntV(CodeWord(SetIndentP, bs))]
  }

  /** `MonoGraphic.info`: width and height, each four BCD bytes. */
  function MonoGraphicInfo(bs: seq<byte>): (info: map<string, Value>)
    requires |bs| == PayloadSize(MonoGraphicP)
    ensures info == map["width" := IntV(BcdValue(bs[4..8])), "height" := IntV(BcdValue(bs[8..12]))]
  {
    var (w, h) := MonoGraphicSize(bs);
    map["width" := IntV(w), "height" := IntV(h)]
  }

  /** `Keyword.info`: the two bytes of the automatic stop code. */
  function KeywordInfo(bs: seq<byte>): (info: map<string, Value>)
    requires |bs| == PayloadSize(KeywordP)
    ensures info == map["auto_stop_code" := BytesV(bs[2..4])]
  {
    map["auto_stop_code" := BytesV(KeywordStopCode(bs))]
  }

  /** `Reference.info`: the single argument byte. */
  function ReferenceInfo(bs: seq<byte>): (info: map<string, Value>)
    requires |bs| == PayloadSize(ReferenceP)
    ensures info == map["arg_check" := IntV(bs[2] as int)]
  {
    map["arg_check" := IntV(ReferenceArg(bs) as int)]
  }

  /** `GraphicBlock.info`: whether the argument is not an escape code, and the argument
      as two BCD bytes. */
  function GraphicBlockInfo(bs: seq<byte>): (info: map<string, Value>)
    requires |bs| == PayloadSize(GraphicBlockP)
    ensures info == map["arg_check" := BoolV(bs[2] != SectionCode), "arg1" := IntV(BcdValue(bs[2..4]))]
  {
    map["arg_check" := BoolV(GraphicBlockCheck(bs)), "arg1" := IntV(BcdValue(PayloadField(GraphicBlockP, bs, 2)))]
  }

  /** `info` of each payload: the attributes its `_info_keys_` names, from the bytes they
      occupy; the MPEG and clickable payloads list none. */
  function PayloadInfo(p: Payload, bs: seq<byte>): (info: map<string, Value>)
    requires |bs| == PayloadSize(p)
    ensures p == MpegP || p == ClickableP ==> info == map[]
  {
    match p
    case PageOffsetP => PageOffsetInfo(bs)
    case SetIndentP => SetIndentInfo(bs)
    case MonoGraphicP => MonoGraphicInfo(bs)
    case MpegP => map[]
    case KeywordP => KeywordInfo(bs)
    case ReferenceP => ReferenceInfo(bs)
    case GraphicBlockP => GraphicBlockInfo(bs)
    case WaveSoundP => WaveSoundInfo(bs)
    case GraphicP => GraphicInfo(bs)
    case ClickableP => map[]
    case DecorationP => DecorationInfo(bs)
  }

  // ---------------------------------------------------------------------
  // What the reader does with a token's handler

  /** The payload a handler's start reads (`start_struct`). */
  function StartPayload(h: HandlerKind): Option<Payload>
  {
    match h
    case MonoGraphicH => Some(MonoGraphicP)
    case MpegH => Some(MpegP)
    case KeywordH => Some(KeywordP)
    case ReferenceH => Some(ReferenceP)
    case GraphicBlockH => Some(GraphicBlockP)
    case WaveSoundH => Some(WaveSoundP)
    case PagedReferenceH => Some(PageOffsetP)
    case GraphicH => Some(GraphicP)
    case InlineGraphicH => Some(GraphicP)
    case ClickableH => Some(ClickableP)
    case DecorationH => Some(DecorationP)
    case _ => None
  }

  /** The payload a handler's end reads (`end_struct`). */
  function EndPayload(h: HandlerKind): Option<Payload>
  {
    match h
    case MonoGraphicH => Some(PageOffsetP)
    case MonoGraphicRefH => Some(PageOffsetP)
    case ReferenceH => Some(PageOffsetP)
    case CandidateH => Some(PageOffsetP)
    case _ => None
  }

  /** The payload a directive handler reads (`struct`). */
  function DirectivePayload(h: HandlerKind): Option<Payload>
  {
    if h == SetIndentH then Some(SetIndentP) else None
  }

  /** The bytes skipped after a handler's start (`start_skip`). */
  function StartSkip(h: HandlerKind): nat
  {
    if h == ImagePageH then 2 else if h == EbSoundH then 8 else 0
  }

  /** Which of a handler's hooks a token calls. */
  datatype Phase = StartPhase | EndPhase | DirectivePhase

  /** The phase a token's handler is called in; skip codes have none. */
  function PhaseOf(t: Token): Option<Phase>
  {
    match t
    case Start(_) => Some(StartPhase)
    case End(_) => Some(EndPhase)
    case Directive(_, _) => Some(DirectivePhase)
    case SkipCode(_, _) => None
  }

  /** The structure a hook reads and the bytes skipped after it. */
  datatype Hook = Hook(payload: Option<Payload>, skip: nat)

  /** The hook of a handler for a phase: a section handler has no directive structure and
      a directive handler no start or end structure, so asking for one raises. */
  function HookOf(h: HandlerKind, phase: Phase): (r: Result<Hook, Error>)
    ensures r.Failure? <==> (IsDirectiveHandler(h) == !phase.DirectivePhase?)
    ensures r.Failure? ==> r.error == AttributeError
    ensures r.Success? && phase == StartPhase ==> r.value == Hook(StartPayload(h), StartSkip(h))
    ensures r.Success? && phase == EndPhase ==> r.value == Hook(EndPayload(h), 0)
    ensures r.Success? && phase == DirectivePhase ==> r.value == Hook(DirectivePayload(h), 0)
  {
    if IsDirectiveHandler(h) then
      if phase == DirectivePhase then Success(Hook(DirectivePayload(h), 0)) else Failure(AttributeError)
    else if phase == StartPhase then Success(Hook(StartPayload(h), StartSkip(h)))
    else if phase == EndPhase then Success(Hook(EndPayload(h), 0))
    else Failure(AttributeError)
  }

  /** The emphasis start and end tokens get the emphasis directive handler. */
  lemma EmphasisSections()
    ensures Section(0x12) == Some(Start(EmphasisName)) && Section(0x13) == Some(End(EmphasisName))
    ensures HandlerOf(EmphasisName) == Some(EmphasisH)
  {
    SectionOfExplicit(0x12);
    SectionOfExplicit(0x13);
  }

  /** The emphasis handler has no start or end structure, so both section hooks raise, and
      its directive hook reads nothing. */
  lemma EmphasisHooksRaise()
    ensures HookOf(EmphasisH, StartPhase).Failure? && HookOf(EmphasisH, StartPhase).error == AttributeError
    ensures HookOf(EmphasisH, EndPhase).Failure? && HookOf(EmphasisH, EndPhase).error == AttributeError
    ensures HookOf(EmphasisH, DirectivePhase).Success? && HookOf(EmphasisH, DirectivePhase).value == Hook(None, 0)
  {
    EmphasisHooks();
  }

  /** The emphasis handler is a directive handler without a structure. */
  lemma EmphasisHooks()
    ensures IsDirectiveHandler(EmphasisH) && DirectivePayload(EmphasisH) == None
  { }

  /** The outcome of a handler call for the reader. */
  datatype Signal =
    | Proceed
    | SoftStop
    | HardStop
    | SkipSection
    | Raise(error: Error)

  /** What a handler call does: the signal it ends with, the relative seek it performs, a
      new automatic stop code and whether it marks the gaiji flag. */
  datatype Effect = Effect(signal: Signal, seek: int, setAutoStop: Option<seq<byte>>, markGaiji: bool)

  const NoEffect := Effect(Proceed, 0, None, false)

  /** The parts of the reader's state a handler consults. `nextIsCode` says whether the two
      bytes after the current unit are 0x1F00 or more; `stopMatch` is the stop-code test. */
  datatype HandlerContext = HandlerContext(
    isEpwing: bool,
    encoding: Encoding,
    nextIsCode: bool,
    printableCount: nat,
    isMainText: bool,
    stopMatch: bool,
    autoStop: Option<seq<byte>>)

  /** `check_next_eb`: an EB book whose next unit is an escape code stays put, every other
      book skips 4 bytes. */
  function CheckNextEb(ctx: HandlerContext): (e: Effect)
    ensures e.signal == Proceed && e.setAutoStop.None? && !e.markGaiji
    ensures e.seek == 0 <==> !ctx.isEpwing && ctx.nextIsCode
    ensures e.seek != 0 ==> e.seek == 4
  {
    if !ctx.isEpwing && ctx.nextIsCode then NoEffect else Effect(Proceed, 4, None, false)
  }

  /** The gaiji start and end: a JIS X 0208 + GB 2312 book marks the gaiji flag, any other
      checks the next unit. */
  function GaijiEffect(ctx: HandlerContext): (e: Effect)
    ensures ctx.encoding == JisX0208Gb2312 ==> e == Effect(Proceed, 0, None, true)
    ensures ctx.encoding != JisX0208Gb2312 ==> e == CheckNextEb(ctx)
  {
    if ctx.encoding == JisX0208Gb2312 then Effect(Proceed, 0, None, true) else CheckNextEb(ctx)
  }

  /** The keyword start: in main text after printable output, a stop-code match stops
      softly; otherwise the keyword's code becomes the automatic stop code unless one is set. */
  function KeywordEffect(ctx: HandlerContext, code: seq<byte>): (e: Effect)
    ensures e.seek == 0 && !e.markGaiji
    ensures e.signal == SoftStop <==> ctx.printableCount > 0 && ctx.isMainText && ctx.stopMatch
    ensures e.signal != SoftStop ==> e.signal == Proceed
    ensures e.signal == Proceed ==> e.setAutoStop == (if ctx.autoStop.None? then Some(code) else None)
    ensures e.signal == SoftStop ==> e.setAutoStop.None?
  {
    if ctx.printableCount > 0 && ctx.isMainText && ctx.stopMatch then Effect(SoftStop, 0, None, false)
    else Effect(Proceed, 0, if ctx.autoStop.None? then Some(code) else None, false)
  }

  /** The decoration start: an EB book steps back over a byte 2 that is an escape lead or more. */
  function DecorationEffect(ctx: HandlerContext, byteTwo: byte): (e: Effect)
    ensures e.signal == Proceed && e.setAutoStop.None? && !e.markGaiji
    ensures e.seek == -2 <==> !ctx.isEpwing && byteTwo >= SectionCode
    ensures e.seek != -2 ==> e.seek == 0
  {
    if !ctx.isEpwing && byteTwo >= SectionCode then Effect(Proceed, -2, None, false) else NoEffect
  }

  /** The monochrome graphic start: a zero width or height discards the section. */
  function MonoGraphicEffect(bs: seq<byte>): (e: Effect)
    requires |bs| == PayloadSize(MonoGraphicP)
    ensures e.signal == SkipSection <==> BcdValue(bs[4..8]) == 0 || BcdValue(bs[8..12]) == 0
    ensures e.signal != SkipSection ==> e == NoEffect
    ensures e.seek == 0 && e.setAutoStop.None? && !e.markGaiji
  {
    var (w, h) := MonoGraphicSize(bs);
    if w == 0 || h == 0 then Effect(SkipSection, 0, None, false) else NoEffect
  }

  /** The reference start: a nonzero argument byte is not part of the structure, so the
      reader steps back over it and the byte after. */
  function ReferenceEffect(bs: seq<byte>): (e: Effect)
    requires |bs| == PayloadSize(ReferenceP)
    ensures e.signal == Proceed && e.setAutoStop.None? && !e.markGaiji
    ensures e.seek == -2 <==> bs[2] != 0
    ensures e.seek != -2 ==> e.seek == 0
  {
    if ReferenceArg(bs) != 0 then Effect(Proceed, -2, None, false) else NoEffect
  }

  /** The graphic block start: when the byte after the escape code is another escape lead,
      the reader steps back over the two bytes it read too many. */
  function GraphicBlockEffect(bs: seq<byte>): (e: Effect)
    requires |bs| == PayloadSize(GraphicBlockP)
    ensures e.signal == Proceed && e.setAutoStop.None? && !e.markGaiji
    ensures e.seek == -2 <==> bs[2] == SectionCode
    ensures e.seek != -2 ==> e.seek == 0
  {
    if !GraphicBlockCheck(bs) then Effect(Proceed, -2, None, false) else NoEffect
  }

  /** The effect of calling a handler's hook with the structure bytes it read. */
  function HandlerEffect(h: HandlerKind, phase: Phase, bs: seq<byte>, ctx: HandlerContext): (e: Effect)
    requires HookOf(h, phase).Success?
    requires HookOf(h, phase).value.payload.Some? ==> |bs| == PayloadSize(HookOf(h, phase).value.payload.value)
    ensures e.signal == HardStop <==> h == TextH && phase == EndPhase
    ensures e.signal == SoftStop ==> h == KeywordH && phase == StartPhase
    ensures e.signal == SkipSection ==> h == MonoGraphicH && phase == StartPhase
    ensures e.signal.Raise? ==> h == PagedReferenceH && phase == StartPhase
    ensures e.setAutoStop.Some? ==> h == KeywordH
    ensures e.markGaiji ==> h == GaijiH
    ensures e.seek >= -2
    ensures e.seek < 0 && e.signal != HardStop ==> HookOf(h, phase).value.payload.Some?
  {
    match h
    case TextH => if phase == EndPhase then Effect(HardStop, -2, None, false) else NoEffect
    case GaijiH => GaijiEffect(ctx)
    case MonoGraphicH => if phase == StartPhase then MonoGraphicEffect(bs) else NoEffect
    case KeywordH => if phase == StartPhase then KeywordEffect(ctx, KeywordStopCode(bs)) else NoEffect
    case ReferenceH => if phase == StartPhase then ReferenceEffect(bs) else NoEffect
    case GraphicBlockH => if phase == StartPhase then GraphicBlockEffect(bs) else NoEffect
    case PagedReferenceH => if phase == StartPhase then Effect(Raise(AttributeError), 0, None, false) else NoEffect
    case DecorationH => if phase == StartPhase then DecorationEffect(ctx, PayloadField(DecorationP, bs, 2)[0]) else NoEffect
    case EmphasisH => CheckNextEb(ctx)
    case _ => NoEffect
  }

  // ---------------------------------------------------------------------
  // The registry of tokens

  /** The handler lookup `update_handlers` performs for a token name. */
  function AttachedHandler(handlers: map<SectionName, HandlerKind>, name: SectionName): (r: Option<HandlerKind>)
    ensures r.Some? <==> name in handlers
    ensures r.Some? ==> r.value == handlers[name]
  {
    if name in handlers then Some(handlers[name]) else None
  }

  /** Every structure a handler can read (`[start_struct, end_struct]` or `[struct]`). */
  function HandlerStructs(h: HandlerKind): (ps: seq<Option<Payload>>)
    ensures IsDirectiveHandler(h) ==> ps == [DirectivePayload(h)]
    ensures !IsDirectiveHandler(h) ==> ps == [StartPayload(h), EndPayload(h)]
  {
    if IsDirectiveHandler(h) then [DirectivePayload(h)] else [StartPayload(h), EndPayload(h)]
  }

  /** The layouts of a list of optional structures. */
  function Layouts(ps: seq<Option<Payload>>): (ls: seq<Option<Layout>>)
    ensures |ls| == |ps|
    ensures forall k :: 0 <= k < |ps| ==> ls[k] == (if ps[k].Some? then Some(PayloadLayout(ps[k].value)) else None)
  {
    if |ps| == 0 then [] else [if ps[0].Some? then Some(PayloadLayout(ps[0].value)) else None] + Layouts(ps[1..])
  }

  /** The size assertion for one structure: its fields pack to its declared size. */
  predicate Sized(l: Layout)
  {
    FieldsSize(l.fields) == l.sizeOnDisk
  }

  /** The size assertion holds for every structure of a list. */
  predicate AllSized(ls: seq<Option<Layout>>)
  {
    forall k :: 0 <= k < |ls| && ls[k].Some? ==> Sized(ls[k].value)
  }

  /** The size assertion holds for every structure of the handler. */
  predicate StructsSized(h: HandlerKind)
  {
    AllSized(Layouts(HandlerStructs(h)))
  }

  /** Every handler passes the size check. */
  lemma AllStructsSized(h: HandlerKind)
    ensures StructsSized(h)
  {
    var ps := HandlerStructs(h);
    var ls := Layouts(ps);
    forall k | 0 <= k < |ls| && ls[k].Some?
      ensures Sized(ls[k].value)
    {
      PayloadOffsets(ps[k].value);
    }
  }

  /** The inner loop of `_check_handlers`: assert the size of each structure of one
      handler, stopping at the first mismatch. */
  method CheckStructs(h: HandlerKind) returns (ok: bool)
    ensures ok <==> StructsSized(h)
  {
    var ls := Layouts(HandlerStructs(h));
    var j := 0;
    while j < |ls|
      invariant 0 <= j <= |ls|
      invariant forall k :: 0 <= k < j && ls[k].Some? ==> Sized(ls[k].value)
    {
      if ls[j].Some? && !Sized(ls[j].value) {
        return false;
      }
      j := j + 1;
    }
    ok := true;
  }

  /** The outer loop of `_check_handlers`: check the handler attached to each code, in
      table order, stopping at the first failure. */
  method CheckAttached(ord: seq<byte>, att: map<byte, Option<HandlerKind>>) returns (ok: bool)
    requires forall k :: 0 <= k < |ord| ==> ord[k] in att
    ensures ok <==> forall k :: 0 <= k < |ord| && att[ord[k]].Some? ==> StructsSized(att[ord[k]].value)
  {
    var i := 0;
    ghost var passed: set<HandlerKind> := {};
    while i < |ord|
      invariant 0 <= i <= |ord|
      invariant forall h :: h in passed ==> StructsSized(h)
      invariant forall k :: 0 <= k < i && att[ord[k]].Some? ==> att[ord[k]].value in passed
    {
      var h := att[ord[i]];
      if h.Some? {
        ok := CheckStructs(h.value);
        if !ok {
          return;
        }
        passed := passed + {h.value};
      }
      i := i + 1;
    }
    ok := true;
  }

  /** The `sections` dict: codes in insertion order, their tokens and, once
      `update_handlers` has run, the handler attached to each. */
  class SectionRegistry {
    var order: seq<byte>
    var table: map<byte, Token>
    var attached: map<byte, Option<HandlerKind>>

    /** The order holds exactly the keys of the table. */
    predicate Valid()
      reads this
    {
      forall c :: c in table <==> c in order
    }

    /** The table as the module literal lists it; no handler is attached yet. */
    constructor ()
      ensures Valid()
      ensures order == ExplicitOrder && table == ExplicitTable() && attached == map[]
    {
      ExplicitKeys();
      order := ExplicitOrder;
      table := ExplicitTable();
      attached := map[];
    }

    /** The loop that enters a skip-code token for every listed skip code (it runs over
        `SkipCodes`). */
    method RegisterSkipCodes(codes: seq<byte>)
      modifies this
      requires Valid()
      ensures Valid()
      ensures order == AppendNew(old(order), codes)
      ensures table == AssignSkips(old(table), codes)
      ensures attached == old(attached)
    {
      var i := 0;
      while i < |codes|
        invariant 0 <= i <= |codes|
        invariant Valid()
        invariant AppendNew(order, codes[i..]) == AppendNew(old(order), codes)
        invariant AssignSkips(table, codes[i..]) == AssignSkips(old(table), codes)
        invariant attached == old(attached)
      {
        var c := codes[i];
        assert codes[i..][1..] == codes[i + 1..];
        if c !in table {
          order := order + [c];
        }
        table := table[c := SkipCode(c, SkipKey(c))];
        i := i + 1;
      }
      assert codes[i..] == [];
    }

    /** `update_handlers`: attach to every token the handler registered under its name, or
        none. */
    method UpdateHandlers(handlers: map<SectionName, HandlerKind>)
      modifies this
      requires Valid()
      ensures Valid() && order == old(order) && table == old(table)
      ensures attached.Keys == table.Keys
      ensures forall c :: c in table ==> attached[c] == AttachedHandler(handlers, table[c].Name())
    {
      var i := 0;
      attached := map[];
      while i < |order|
        invariant 0 <= i <= |order|
        invariant Valid() && order == old(order) && table == old(table)
        invariant forall c :: c in attached <==> c in order[..i]
        invariant forall c :: c in attached ==> c in table && attached[c] == AttachedHandler(handlers, table[c].Name())
      {
        var c := order[i];
        attached := attached[c := AttachedHandler(handlers, table[c].Name())];
        assert order[..i + 1] == order[..i] + [c];
        i := i + 1;
      }
      assert order[..i] == order;
    }

    /** `_check_handlers`: attach the handlers, then assert the size of every structure of
        every attached handler; the check fails on the first mismatch. */
    method CheckHandlers(handlers: map<SectionName, HandlerKind>) returns (r: Result<(), Error>)
      modifies this
      requires Valid()
      ensures Valid() && order == old(order) && table == old(table)
      ensures forall c :: c in table ==> c in attached && attached[c] == AttachedHandler(handlers, table[c].Name())
      ensures r.Success? <==> forall c :: c in table && attached[c].Some? ==> StructsSized(attached[c].value)
      ensures r.Failure? ==> r.error == AssertionFailed
    {
      UpdateHandlers(handlers);
      assert forall k :: 0 <= k < |order| ==> order[k] in attached;
      var ok := CheckAttached(order, attached);
      if !ok {
        var k :| 0 <= k < |order| && attached[order[k]].Some? && !StructsSized(attached[order[k]].value);
        assert order[k] in table;
        return Failure(AssertionFailed);
      }
      forall c | c in table && attached[c].Some?
        ensures StructsSized(attached[c].value)
      {
        var k :| 0 <= k < |order| && order[k] == c;
      }
      r := Success(());
    }
  }
}
