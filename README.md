# EB/EPWING text decoder, modelled in Dafny

This project models the decoding core of `pyepwing`, a reader for EB and EPWING
electronic dictionaries (the CD-ROM dictionary formats of JIS X 4081). A dictionary disc
holds a catalog of subbooks. Each subbook has a text file made of 2048-byte pages. Its
index page lists the search methods, and its text is a stream of 2-byte units. A unit
whose first byte is the escape byte 0x1F stands for the start or end of a section, or for
a directive. Every other unit is a character, in ISO 8859-1, JIS X 0208 or GB 2312
depending on the book.

Each source file of the core is one module:

- `common.dfy` (`Common`): bytes, `Option`/`Result`, the book encodings, the error kinds
  the source raises, and big-endian numbers.
- `descriptors.dfy` (`Descriptors`): the field descriptors of `eb/descriptors.py`. They
  cover NUL-terminated strings, string arrays, 24-bit big-endian integers and BCD numbers,
  with BCD encoding as the round-trip partner.
- `structs.dfy` (`Structs`): the on-disk records of `eb/structs.py`. It has the
  padding/size check, the catalog headers and entries, the subbook resource record with
  its derived fields, the search-index entry and the index page.
- `text_structs.dfy` (`TextStructs`): the 2-byte unit header and the `info`/`_args`
  views of `eb/text_structs.py`.
- `text_sections.dfy` (`TextSections`): the escape-code registry of
  `eb/text_sections.py`. It holds the token table, the skip codes, the handler registry,
  the payload layouts, each handler's effect on the reader and the size check.
- `text.dfy` (`Text`): `eb/text.py`. It covers page seeking, the search-style policy
  derived from the index page, character decoding and the section reader. The reader is
  a pure step function `Step`/`Loop`/`Read` over a `Reader` state. The class `TextReader`
  keeps that state in fields, and each of its methods is proved equal to the step
  function it implements.
- `codec.dfy` (`Codec`): the charmap codec of `eb/encodings/codec.py` and its registry.
- `string_util.dfy` (`StringUtil`): the wide/narrow character tables of
  `eb/string_util.py` and their lazily built cache.
- `zio.dfy` (`Zio`): `eb/zio.py`. It has the extension handler table, candidate file
  names, the plain and ebzip file cursors, and the language file's character code.
- `book.dfy` (`Book`): `eb/book.py`. It has the subbook search table, the read guard, the
  language default and per-subbook failure isolation.

The character tables (JIS X 0208, GB 2312, Unicode character names) are parameters. The
reader's "next unit is an escape code" probe, the appendix stop code and the file
contents are fields of the reader's environment `Text.Env`.

## Model

| member | source | states |
|---|---|---|
| Common.BigEndianBound | eb/structs.py:218-231 | a big-endian field of n bytes is below 256^n, so every multi-byte count or page number fits its width |
| Common.BigEndianPair | eb/zio.py:114-115 | a 2-byte big-endian value is 256 * first + second |
| Descriptors.TrimAtNul | eb/descriptors.py:13-21 | the result is the longest prefix free of 0 bytes; when shorter than the input, the next byte is the terminating 0 |
| Descriptors.Latin1Decode | eb/descriptors.py:13-21 | ISO 8859-1 decoding never fails and maps each byte to the character with the same code |
| Descriptors.LeadingSpaces | eb/descriptors.py:46-52 | counts exactly the run of white space at the start of the string |
| Descriptors.TrailingEnd | eb/descriptors.py:46-52 | marks exactly where the run of white space at the end of the string begins |
| Descriptors.Strip | eb/descriptors.py:46-52 | the result is a contiguous slice of the input starting after the leading white space and followed only by white space, neither end is white space, and an all-space string strips to empty |
| Descriptors.EncodedString | eb/descriptors.py:35-52 | fails exactly when decoding the bytes before the first NUL fails; otherwise the decoded value, stripped iff `strip` |
| Descriptors.DecodeAll | eb/descriptors.py:63-79 | succeeds iff every element decodes, and then holds the decoded elements in order |
| Descriptors.NonEmpty | eb/descriptors.py:75-79 | keeps every non-empty element exactly as often as it occurs, and no empty one |
| Descriptors.NonEmptyAppend | eb/descriptors.py:75-79 | the filter keeps the order: filtering a concatenation concatenates the filtered parts |
| Descriptors.NonEmptyKeepsAll | eb/descriptors.py:75-79 | a list without empty strings passes unchanged |
| Descriptors.EncodedStringArray | eb/descriptors.py:55-79 | decodes each element in order and, when asked, drops the empty results; fails iff some element fails |
| Descriptors.Uint24 | eb/descriptors.py:82-88 | for the field bytes b2, b1, b0 in order, the value is b2 * 65536 + b1 * 256 + b0 and lies below 2^24 |
| Descriptors.Bcd | eb/descriptors.py:91-121 | only 2- and 4-byte fields are accepted; any other length is an assertion failure |
| Descriptors.Nibbles | eb/descriptors.py:104-121 | every byte yields two digits |
| Descriptors.BcdEncode | eb/descriptors.py:91-121 | the encoding has exactly the requested number of bytes |
| Descriptors.BcdIsDigitsValue | eb/descriptors.py:104-121 | the nibble-weighted sum of the source (weights 1000..1 or 10^7..1) is the decimal value of the nibble string |
| Descriptors.BcdBound | eb/descriptors.py:91-121 | a field of valid BCD digits is below 100^n, so 0..9999 or 0..99999999 |
| Descriptors.BcdEncodeDecode | eb/descriptors.py:91-121 | encoding a value below 100^n gives valid BCD that decodes back to the value |
| Descriptors.BcdDecodeEncode | eb/descriptors.py:91-121 | decoding valid BCD and re-encoding it gives back the same bytes |
| Descriptors.BcdRoundTrip | eb/descriptors.py:91-121 | for 2- and 4-byte fields of valid digits, `bcd` is in range and BCD encoding inverts it |
| Structs.FieldsSizeAppend | eb/structs.py:35-52 | the size of a concatenation of field lists is the sum of their sizes |
| Structs.OffsetStep | eb/structs.py:35-52 | the first field starts at 0, each field starts where the previous one ends, and the last ends at the record size |
| Structs.StartsAgree | eb/structs.py:35-52 | any table of start offsets built field by field is exactly the layout's offsets |
| Structs.FieldInside | eb/structs.py:35-52 | every field lies within the record |
| Structs.FieldAt | eb/structs.py:35-52 | reading a field yields exactly the bytes at its offset, of its size |
| Structs.PadStructure | eb/structs.py:35-52 | succeeds iff the declared size is at least the fields' size; the padded layout keeps the fields as a prefix and its size equals the declared size |
| Structs.SearchIndexOffsets | eb/structs.py:218-231 | a search-index entry places index_id at 0, start page at 2, end page at 6, availability at 10 and flags at 11, 16 bytes in all |
| Structs.EbCatalogHeaderOffsets | eb/structs.py:55-63 | the EB catalog header's fields occupy 2 bytes before padding |
| Structs.EpwingCatalogHeaderOffsets | eb/structs.py:66-76 | the EPWING catalog header's fields take 2 + 2 + 12 = 16 bytes |
| Structs.EpwingCatalogOffsets | eb/structs.py:89-104 | the EPWING catalog entry's fields sum to 2+80+8+4+2+4+32+32 = 164 bytes, at the offsets listed |
| Structs.SubbookResourceOffsets | eb/structs.py:140-157 | the subbook resource record places its fields at the listed offsets, and they take 64 bytes; the 164-byte record size comes from `Structs.LayoutSizes` |
| Structs.SubbookIndicesOffsets | eb/structs.py:238-254 | the index page is a 16-byte header plus 127 entries of 16 bytes: 2048 bytes, one page |
| Structs.LayoutSizes | eb/structs.py:55-254 | padding every record layout succeeds, and each padded record has its declared size |
| Structs.Chunks | eb/structs.py:238-254 | splitting an array field yields the declared number of elements |
| Structs.ChunkAt | eb/structs.py:238-254 | element i of an array field is the i-th slice of its element size |
| Structs.ParseSearchIndex | eb/structs.py:218-235 | each field of a search-index entry is read from its own byte range, with the flags as a 24-bit number |
| Structs.SearchIndexFieldsAt | eb/structs.py:218-231 | the byte ranges ParseSearchIndex reads are exactly the layout's fields |
| Structs.ParseSubbookIndices | eb/structs.py:238-254 | the index page yields the index count, the global availability and 127 entries, entry i from bytes 16+16i .. 32+16i |
| Structs.SubbookEntriesAt | eb/structs.py:238-254 | the entry table field splits into exactly those 16-byte entries |
| Structs.ParseEpwingCatalogHeader | eb/structs.py:66-76 | the subbook count and EPWING version are the two leading big-endian shorts |
| Structs.Latin1Field | eb/structs.py:184-186 | a directory-name field is the stripped ISO 8859-1 string before its first NUL |
| Structs.Latin1Names | eb/structs.py:89-104 | a font-name array is the stripped, non-empty names of its four 8-byte elements |
| Structs.ParseEpwingCatalog | eb/structs.py:89-120 | each catalog field is decoded from its own byte range, the strings through the descriptors above |
| Structs.EpwingCatalogFieldsAt | eb/structs.py:89-104 | those byte ranges are exactly the layout's fields |
| Structs.EbCatalogInfo | eb/structs.py:123-137 | the EB catalog's `info_dict` is not implemented and raises |
| Structs.ResourceType | eb/structs.py:163-168 | the low two bits select the resource kind: 1 sound, 2 graphic, otherwise none |
| Structs.ZioType | eb/structs.py:175-182 | 0x00 is plain, 0x11 EPWING, 0x12 EPWING6, anything else none |
| Structs.ParseSubbookResource | eb/structs.py:140-191 | the record's valid flag, file names, resource types and zio types are read from their own fields |
| Structs.SubbookResourceFieldsAt | eb/structs.py:140-157 | those byte ranges are exactly the layout's fields |
| Structs.ZipKnown | eb/structs.py:193-202 | zipping types, paths and zio types is no longer than any of them |
| Structs.ResourcesExplicit | eb/structs.py:193-202 | `resources` is the two type/path/zio triples, in order, each kept only when its type is known, so at most two |
| TextStructs.HeaderLayout | eb/text_structs.py:7-15 | the unit header is exactly 2 bytes, code1 at 0 then code2 at 1 |
| TextStructs.ParseHeader | eb/text_structs.py:7-15 | the header holds the unit's two bytes in order |
| TextStructs.Info | eb/text_structs.py:35-42 | empty when there are no info keys; otherwise succeeds iff every key has a value, and then has exactly those keys with their values |
| TextStructs.FirstMissing | eb/text_structs.py:17-33 | the first argument number not present, with all earlier numbers present |
| TextStructs.CountArgs | eb/text_structs.py:17-33 | the scanning loop stops at the first missing argument number after 1 |
| TextStructs.Args | eb/text_structs.py:17-33 | `(code1, code2)` first, then arg1..argN in index order, then the extra arguments |
| TextSections.NameKey | eb/text_sections.py:279-287 | end tokens are keyed as ends, every other token as a start, under the token's name |
| TextSections.ExplicitKeys | eb/text_sections.py:194-253 | the listed order holds exactly the codes with an explicit table entry |
| TextSections.ExplicitTable | eb/text_sections.py:194-253 | the table's keys are exactly the explicit codes, each mapped to its token |
| TextSections.SkipKey | eb/text_sections.py:176-191 | the terminator key is 0x15 for 0x14, code+1 for 0xE4..0xFE, and code+0x20 otherwise |
| TextSections.SkipCodesInRange | eb/text_sections.py:256-268 | every skip code lies in the skip ranges |
| TextSections.SkipCodesAscending | eb/text_sections.py:256-268 | the skip-code list is strictly ascending |
| TextSections.SkipRangeFree | eb/text_sections.py:194-268 | no code of the skip ranges has an explicit entry |
| TextSections.ExplicitNotSkip | eb/text_sections.py:194-268 | an explicitly assigned code is never a skip code |
| TextSections.SkipCodesDisjoint | eb/text_sections.py:256-268 | the skip codes are pairwise distinct and disjoint from the explicit codes |
| TextSections.AppendNew | eb/text_sections.py:271-273 | dict insertion keeps the old key order as a prefix and adds exactly the new keys |
| TextSections.AssignSkips | eb/text_sections.py:271-273 | the registration loop maps each listed code to its skip token and leaves every other entry unchanged |
| TextSections.Section | eb/text_sections.py:194-273 | a skip code's entry is its skip token; any other code keeps its explicit entry |
| TextSections.SkipOrder | eb/text_sections.py:271-273 | after registration the table order is the explicit codes followed by the skip codes, in list order |
| TextSections.RegistryTable | eb/text_sections.py:194-273 | the table built at import holds exactly the tokens of `Section`, and no explicit entry changes |
| TextSections.SectionOfExplicit | eb/text_sections.py:194-273 | every explicit entry survives the skip-code registration |
| TextSections.NameDict | eb/text_sections.py:279-287 | every name key maps to a code in the table whose token has that key, and every token's key is present |
| TextSections.KeywordOnly | eb/text_sections.py:194-253 | 0x41 is the only code whose token starts a keyword |
| TextSections.KeywordStartCode | eb/text_sections.py:279-318 | the name dict of the finished table sends the keyword start to 0x41 |
| TextSections.HandlerKeyRoundTrip | eb/text_sections.py:290-318 | each handler is found under its own key, and no two handlers share a key |
| TextSections.UnhandledNames | eb/text_sections.py:321-618 | exactly narrow, subscript, newline, unicode, superscript, no-newline and skip codes have no handler |
| TextSections.RegistrationIndex | eb/text_sections.py:321-618 | each handler class has its place in the registration order |
| TextSections.RegistrationOnce | eb/text_sections.py:321-618 | each handler class is registered exactly once |
| TextSections.HandlerRegistry.Register | eb/text_sections.py:290-318 | a taken key without `replace` raises and changes nothing; otherwise the key is bound and the class gets its start token's code when the name dict has one |
| TextSections.HandlerRegistry.RegisterAll | eb/text_sections.py:321-618 | the module's registrations never raise, leave the registry equal to `HandlerOf`, and give the keyword handler the keyword start code |
| TextSections.PayloadHeader | eb/text_sections.py:41-55 | every payload structure begins with the 2-byte unit header |
| TextSections.PayloadStartsFit | eb/text_sections.py:633-656 | the start offsets listed for each payload follow its field sizes |
| TextSections.PayloadOffsets | eb/text_sections.py:633-656 | each payload's fields add up to its declared size: page/offset 8, keyword/reference/graphic-block/decoration 4, mono graphic 12, MPEG 46, wave sound 18, graphic 20, clickable 34 |
| TextSections.PayloadField | eb/text_sections.py:41-55 | a payload field is the slice between its start offsets |
| TextSections.IsLeaf | eb/text_sections.py:53-55 | `is_leaf` holds iff page and offset are both 0 |
| TextSections.ImageType | eb/text_sections.py:556-561 | the image is bmp iff the high byte of type_info is 0, else jpeg |
| TextSections.DecorationType | eb/text_sections.py:609-613 | code 1 is italic, 3 is bold, anything else unknown |
| TextSections.PageOffsetOf | eb/text_sections.py:41-55 | page is the BCD value of 4 bytes and offset of the next 2 |
| TextSections.MonoGraphicSize | eb/text_sections.py:372-388 | width and height are the BCD values of their 4-byte fields |
| TextSections.KeywordStopCode | eb/text_sections.py:432-441 | the keyword's automatic stop code is the two bytes after the header |
| TextSections.GraphicBlockCheck | eb/text_sections.py:478-492 | `arg_check` holds iff the byte after the header is not the escape byte |
| TextSections.CodeWord | eb/text_sections.py:540-618 | a 2-byte code field is read big-endian |
| TextSections.PageOffsetInfo | eb/text_sections.py:41-55 | the info has exactly page, offset and is_leaf, with is_leaf true iff both are 0 |
| TextSections.GraphicInfo | eb/text_sections.py:540-561 | the info has exactly page, offset and image_type, the type taken from the high byte of type_info |
| TextSections.WaveSoundInfo | eb/text_sections.py:501-520 | the info has exactly the BCD start/end pages and offsets |
| TextSections.DecorationInfo | eb/text_sections.py:600-618 | the info's decoration type is italic for code 1, bold for 3 and unknown otherwise |
| TextSections.SetIndentInfo | eb/text_sections.py:329-347 | the info is the 2-byte indent |
| TextSections.MonoGraphicInfo | eb/text_sections.py:372-391 | the info is the BCD width and height |
| TextSections.KeywordInfo | eb/text_sections.py:432-449 | the info is the 2-byte automatic stop code |
| TextSections.ReferenceInfo | eb/text_sections.py:453-468 | the info is the arg_check byte |
| TextSections.GraphicBlockInfo | eb/text_sections.py:478-497 | the info is arg_check (next byte not the escape byte) and arg1 |
| TextSections.PayloadInfo | eb/text_sections.py:404-591 | the MPEG and clickable structures declare no info keys |
| TextSections.HookOf | eb/text_sections.py:151-174 | a section handler has start and end hooks and a directive handler only its directive hook; asking for a missing one raises AttributeError; each hook reads its declared structure and skips its declared bytes |
| TextSections.EmphasisSections | eb/text_sections.py:194-253 | the emphasis start and end codes are registered to the emphasis handler |
| TextSections.EmphasisHooksRaise | eb/text_sections.py:350-354 | the emphasis handler is a directive handler, so its section hooks raise and its directive hook reads nothing |
| TextSections.CheckNextEb | eb/text.py:86-91 | an EB book whose next unit is an escape code stays put; every other book skips 4 bytes |
| TextSections.GaijiEffect | eb/text_sections.py:357-368 | a GB 2312 book marks the gaiji flag; any other book calls the next-unit check |
| TextSections.KeywordEffect | eb/text_sections.py:442-449 | soft-stops iff characters were read, the text is main text and the stop code matches; otherwise sets the automatic stop code only when it is unset |
| TextSections.DecorationEffect | eb/text_sections.py:615-618 | on a non-EPWING book a following byte at or above the escape byte rewinds 2 bytes; otherwise nothing moves |
| TextSections.MonoGraphicEffect | eb/text_sections.py:389-391 | skips the section iff width or height is 0, and does nothing else |
| TextSections.ReferenceEffect | eb/text_sections.py:465-468 | rewinds 2 bytes iff arg_check is non-zero |
| TextSections.GraphicBlockEffect | eb/text_sections.py:494-497 | rewinds 2 bytes iff the byte after the header is the escape byte |
| TextSections.HandlerEffect | eb/text_sections.py:321-618 | only the text end hard-stops, only a keyword start soft-stops, only a mono-graphic start skips, only a paged-reference start raises, only keywords set the stop code, only gaiji marks the flag, and rewinds are at most 2 bytes |
| TextSections.AttachedHandler | eb/text_sections.py:621-630 | a token gets the handler registered under its name, or none |
| TextSections.HandlerStructs | eb/text_sections.py:633-656 | a directive handler is checked on its one structure, a section handler on its start and end structures |
| TextSections.Layouts | eb/text_sections.py:633-656 | each structure is checked through its own layout |
| TextSections.AllStructsSized | eb/text_sections.py:633-656 | every handler passes the size check |
| TextSections.CheckStructs | eb/text_sections.py:640-656 | the inner loop accepts a handler iff all its structures pack to their declared sizes |
| TextSections.CheckAttached | eb/text_sections.py:633-656 | the outer loop accepts iff every attached handler passes |
| TextSections.SectionRegistry.constructor | eb/text_sections.py:194-253 | the table starts as the explicit entries in listed order |
| TextSections.SectionRegistry.RegisterSkipCodes | eb/text_sections.py:271-273 | the loop's new order and table are `AppendNew` and `AssignSkips` of the old ones |
| TextSections.SectionRegistry.UpdateHandlers | eb/text_sections.py:621-630 | every table entry gets the handler registered under its token's name; table and order are unchanged |
| TextSections.SectionRegistry.CheckHandlers | eb/text_sections.py:633-656 | attaches the handlers, then succeeds iff every attached handler passes the size check |
| Text.SeekPosition | eb/text.py:150-154 | the page/offset position is non-negative from page 1 on; page 0 gives a negative position |
| Text.SeekPageInverse | eb/text.py:150-154 | page and offset are recovered from the position as (pos div 2048) + 1 and pos mod 2048; the next page is 2048 bytes further |
| Text.ReadStart | eb/text.py:452-458 | a location raises (the reader has no `seek`); a search seeks to the first byte of its start page, raising for a missing key, a multi entry or page 0; otherwise reading continues where it is |
| Text.FlagPair | eb/text.py:201-214 | a 2-bit style field of the flags is below 4 |
| Text.FlagPairDigits | eb/text.py:201-214 | the field at a given shift is exactly the 2-bit digit placed there |
| Text.FlagStylesRead | eb/text.py:201-214 | rule (a) takes katakana, lower, long vowel, double consonant, contracted sound, small vowel, voiced consonant and p-sound from bits 23-22 .. 7-6, and mark is delete iff bits 19-18 are 0, whatever the low six bits hold |
| Text.NormalizeGlobal | eb/text.py:177-182 | a global availability above 2 becomes 0; any other is kept |
| Text.SpaceStyle | eb/text.py:236-239 | space is as-is iff the book is ISO 8859-1 or the index id is 0x72 or 0x92, else delete |
| Text.Policy | eb/text.py:201-239 | rule (a) reads the styles from the flags; otherwise ids 0x70/0x90 convert everything but delete marks, and any other id keeps everything as-is but converts lower case; space by `SpaceStyle` |
| Text.PolicyAsWritten | eb/text.py:215 | as written, every entry outside rule (a) whose id is not 0x70 raises AttributeError |
| Text.PolicyAsWrittenAgrees | eb/text.py:201-239 | wherever the code as written succeeds it computes `Policy` |
| Text.PolicyAttributeLookup | eb/text.py:215-234 | concrete entries (ids 0x00 and 0x90) on which the code raises while `Policy` gives the intended styles |
| Text.GlobalAboveTwo | eb/text.py:177-182 | any global availability above 2 gives the same policy as 0 |
| Text.IndexPage | eb/text.py:164-174 | the index page is the 2048 bytes at the start of the index page, zero beyond the end of the file |
| Text.IndexMethods | eb/text.py:186 | the methods read are the first `index_count` entries, at most 127 |
| Text.MethodSearch | eb/text.py:195-239 | a search records the start page, the end page and the policy's styles |
| Text.IndexEntries | eb/text.py:164-186 | the index page gives at most 127 methods and a normalised global availability of at most 2 |
| Text.SetSearchOrdered | eb/text.py:195-246 | registering a search whose start page is not after its end page keeps every table entry's range ordered |
| Text.RegisterMethodsOrdered | eb/text.py:188-246 | a successful registration loop leaves every range in the table ordered |
| Text.LoadIndicesOrdered | eb/text.py:164-248 | after a successful index load every registered search has start page <= end page |
| Text.UnknownIdSkipped | eb/text.py:241-246 | an entry whose id is not a known search type is not registered |
| Text.EmptyRangeFails | eb/text.py:195 | an entry with end-page field 0 fails the range assertion and stops the load |
| Text.LoadIndicesInto | eb/text.py:164-248 | the imperative load leaves the subbook's search table equal to `LoadIndices`, or raises its error |
| Text.RegisterInto | eb/text.py:185-246 | the registration loop over the methods equals `RegisterMethods` on the table it started from |
| Text.InfoOf | eb/text.py:399-411 | a node gets an info dict iff some structure was read for it |
| Text.Initial | eb/text.py:460-472 | a read starts at its start position with no open section, no characters, no skip code, no stop code and nothing yielded |
| Text.AddTextJoins | eb/text.py:509-513 | adding a character extends the node's text by it and leaves its other children unchanged |
| Text.AddTextTidy | eb/text.py:509-513 | adding a character never leaves two text runs side by side |
| Text.AppendOther | eb/text.py:348-349 | appending a child node keeps the text and adds the node to the other children |
| Text.AppendToTop | eb/text.py:348-349 | appending to the innermost open node changes only that node's data |
| Text.TextToTop | eb/text.py:501-513 | a character goes into the innermost open node and only there |
| Text.ReadCharacter | eb/text.py:283-323 | as intended, with the unit's two bytes standing for `code_bytes`: with a skip code set nothing is emitted; ISO 8859-1 printable bytes take 1 byte and other units 2; JIS pairs decode through JIS X 0208 and high second bytes through GB 2312; a high first byte gives the local narrow or wide placeholder; other JIS-book units give nothing |
| Text.ReadCharacterAsWritten | eb/text.py:295-300 | as written, every unit of a JIS X 0208 book read with no skip code raises AttributeError; every other case agrees with the intended reading |
| Text.CodeBytesMissing | eb/text.py:295-323 | a placeholder or empty unit of a JIS X 0208 book raises as written and is read as intended |
| Text.CodeBytesJisPair | eb/text.py:295-303 | the unit 30 21 of a JIS X 0208 book raises as written and decodes through the table as intended |
| Text.AutoStopWhenUnset | eb/text_sections.py:442-449 | a handler sets the automatic stop code only when none is set and only in a keyword start |
| Text.CallHook | eb/text.py:399-417 | a missing hook raises; otherwise the structure is read from the unit's position, the effect is the handler's, and only the text end hard-stops |
| Text.Conclude | eb/text.py:413-417 | a hard stop, skip or raise ends the read; a soft stop leaves the position after the structure; otherwise the handler's seek and the skip bytes are applied and the stop code and gaiji flag are updated |
| Text.MergeInfo | eb/text.py:407-411 | a structure's info is merged into the node's info, the new values winning |
| Text.InfoOfAppend | eb/text.py:407-411 | reading one more structure merges its info into the node's |
| Text.KeywordReadInfo | eb/text.py:399-411 | a keyword node's info is its automatic stop code |
| Text.StartSection | eb/text.py:341-358 | a start token that continues keeps everything outside the innermost node (`Framed`) |
| Text.StartHook | eb/text.py:341-358 | a start with a handler pushes exactly one new empty node named by the token and yields nothing |
| Text.EndSection | eb/text.py:360-379 | an end token that continues only touches the innermost node |
| Text.EndMatched | eb/text.py:369-379 | ending the matching innermost node only touches the stack's top |
| Text.EndHook | eb/text.py:373-379 | an end with a handler only touches the stack's top |
| Text.EndConclude | eb/text.py:370-379 | the popped node is appended to its parent's data |
| Text.EndNode | eb/text.py:370-374 | the popped node keeps the innermost node's name and children |
| Text.DirectiveUnit | eb/text.py:381-394 | a directive that continues keeps the stack's shape |
| Text.DirectiveHook | eb/text.py:381-394 | a directive with a handler keeps the stack's shape |
| Text.TokenUnit | eb/text.py:341-397 | dispatching a token keeps the stack's shape outside the innermost node |
| Text.CharacterUnit | eb/text.py:501-513 | a character unit only touches the innermost node, and can only fail by raising |
| Text.Step | eb/text.py:474-513 | every unit that continues moves the position forward |
| Text.UnitAt | eb/text.py:474-513 | one unit changes nothing outside the innermost node |
| Text.EscapeUnit | eb/text.py:477-496 | an escape unit changes nothing outside the innermost node |
| Text.PlainUnit | eb/text.py:498-513 | a plain unit changes nothing outside the innermost node, and can only fail by raising |
| Text.HeaderAt | eb/text.py:474-476 | the header is the two bytes at the reader's position |
| Text.OutsideSectionsInert | eb/text.py:498-500 | a plain unit outside every section only advances the position |
| Text.UnregisteredCodeDisarms | eb/text.py:480-483 | an escape code with no table entry advances and clears the skip code iff it equals it |
| Text.CharacterCounted | eb/text.py:501-513 | the character count rises by exactly 1 iff a character was emitted; the character joins the innermost node's text; with a skip code set the unit only advances |
| Text.StartPushes | eb/text.py:341-358 | a start pushes a new empty node named by the token, leaving the rest of the stack, except a narrow start when narrow conversion is on, which only advances |
| Text.EndMismatchFails | eb/text.py:364-367 | an end raises an assertion failure iff no section is open or the innermost one has another name |
| Text.EndPops | eb/text.py:360-379 | a successful end found its own name on top, pops that node into its parent and yields it |
| Text.EndHookPops | eb/text.py:370-379 | an end with a handler pops the innermost node with the structures it read |
| Text.DirectiveAppends | eb/text.py:381-394 | a directive appends its mark to the innermost node without pushing |
| Text.NarrowIgnored | eb/text.py:343-362 | with narrow conversion on, narrow starts and ends only advance the position |
| Text.TextHandlerOnly | eb/text_sections.py:322-325 | the text handler is registered for the text section only |
| Text.EndHardStops | eb/text.py:487-489 | an end hard-stops iff it closes an open text section |
| Text.OnlyEndsHardStop | eb/text.py:341-394 | starts and directives never hard-stop |
| Text.HooksNotHard | eb/text.py:341-394 | start and directive hooks never hard-stop |
| Text.TextEndHardStops | eb/text.py:477-492 | a unit hard-stops the read iff it is the text end code closing an open text section |
| Text.TokenHardStops | eb/text.py:477-492 | a token hard-stops iff it is the text end and the innermost open section is text |
| Text.KeywordStart | eb/text_sections.py:442-449 | a keyword start pushes the keyword node with its 4-byte structure and records the stop code only when none is set and no stop occurred |
| Text.StartThroughHook | eb/text.py:352-358 | a start whose name has a handler goes through that handler's start hook |
| Text.KeywordCall | eb/text_sections.py:442-449 | the keyword hook reads its 4-byte structure and applies `KeywordEffect` with the stop-code test |
| Text.RepeatedKeywordStops | eb/text_sections.py:442-449 | once the stop code is set, a keyword carrying it after some characters soft-stops without changing the stop code |
| Text.CloseTidy | eb/text.py:370-374 | a tidy open node closes into a tidy node |
| Text.AppendToTopTidy | eb/text.py:348-349 | appending a tidy node keeps the stack tidy |
| Text.TextToTopTidy | eb/text.py:509-513 | adding a character keeps the stack tidy |
| Text.StartTidy | eb/text.py:341-358 | starts keep the reader tidy |
| Text.PopTidy | eb/text.py:370-379 | popping keeps the reader tidy and the yielded sections tidy |
| Text.EndTidy | eb/text.py:360-379 | ends keep the reader tidy |
| Text.DirectiveTidy | eb/text.py:381-394 | directives keep the reader tidy |
| Text.StepTidy | eb/text.py:474-513 | every unit keeps text runs coalesced throughout the tree |
| Text.LoopStops | eb/text.py:474-513 | the loop ends exactly at the unit that stops it, with that unit's reason |
| Text.LoopExtends | eb/text.py:474-513 | over a whole read the position never goes back, yielded sections stay in order, the count only grows, and a set stop code stays |
| Text.LoopTidy | eb/text.py:474-513 | the whole read keeps every text run coalesced |
| Text.Read | eb/text.py:452-513 | a read yields tidy sections and stops at the unit that stops the loop |
| Text.LetterBookOpens | eb/text.py:474-486 | on the stream 1F 02 'A' 'B' 1F 03 the text start pushes an empty text section and moves two bytes on |
| Text.Latin1Letter | eb/text.py:498-513 | inside a section with no skip code armed, a printable ISO 8859-1 byte moves the reader one byte on, counts one character and adds that character to the innermost section's text |
| Text.LetterBookFirst | eb/text.py:498-513 | on the same stream the letter 'A' opens the text run "A" and counts one character |
| Text.LetterBookSecond | eb/text.py:498-513 | the letter 'B' joins that run, giving "AB", and counts a second character |
| Text.LetterBookRead | eb/text.py:474-490 | the read stops hard at the text end and yields nothing |
| Text.AsOutcome | eb/text.py:474-513 | the class's halt value is a stop iff it is present |
| Text.TextReader.constructor | eb/text.py:460-472 | the reader's fields start as `Initial` |
| Text.TextReader.Finish | eb/text.py:413-417 | applying a handler's effect to the fields equals `Conclude` |
| Text.TextReader.OpenSection | eb/text.py:341-358 | equals `StartSection` on the fields |
| Text.TextReader.OpenWithHook | eb/text.py:341-358 | equals `StartHook` on the fields |
| Text.TextReader.CloseSection | eb/text.py:360-379 | equals `EndSection` on the fields |
| Text.TextReader.CloseMatched | eb/text.py:369-379 | equals `EndMatched` on the fields |
| Text.TextReader.CloseQuietly | eb/text.py:370-374 | an end without a handler pops the top node into its parent and yields it |
| Text.TextReader.CloseWithHook | eb/text.py:373-379 | equals `EndHook` on the fields |
| Text.TextReader.FinishEnd | eb/text.py:370-379 | equals `EndConclude` on the fields |
| Text.TextReader.PlaceDirective | eb/text.py:381-394 | equals `DirectiveUnit` on the fields |
| Text.TextReader.DirectiveWithHook | eb/text.py:381-394 | equals `DirectiveHook` on the fields |
| Text.TextReader.EmitCharacter | eb/text.py:501-513 | equals `CharacterUnit` on the fields |
| Text.TextReader.AddCharacter | eb/text.py:505-513 | the character joins the innermost node's text and the count rises by 1; nothing else changes |
| Text.TextReader.ReadUnit | eb/text.py:474-513 | one pass of the loop equals `Step` |
| Text.TextReader.ReadAt | eb/text.py:477-513 | equals `UnitAt` on the fields |
| Text.TextReader.ReadEscape | eb/text.py:477-496 | equals `EscapeUnit` on the fields |
| Text.TextReader.ReadPlain | eb/text.py:498-513 | equals `PlainUnit` on the fields |
| Text.TextReader.ReadToken | eb/text.py:341-397 | equals `TokenUnit` on the fields |
| Text.TextReader.ReadAll | eb/text.py:474-513 | the while loop returns `Loop`'s halt and yields its sections |
| Text.ReadText | eb/text.py:452-513 | `read` fails as `ReadStart` does, or yields exactly `Read` from the start position |
| Codec.UnitAt | eb/encodings/codec.py:21-24 | a code unit is a 16-bit value |
| Codec.Units | eb/encodings/codec.py:21-24 | the input yields len/2 units, unit i being 256 * in[2i] + in[2i+1] |
| Codec.Decode | eb/encodings/codec.py:21-24 | odd input fails to unpack; otherwise succeeds iff every unit is mapped, returning the mapped strings in order and 0 as second component, and a missing unit raises KeyError |
| Codec.Encode | eb/encodings/codec.py:18-19 | encoding is not supported |
| Codec.LookupAppend | eb/encodings/codec.py:21-24 | looking up a concatenation concatenates the lookups |
| Codec.LookupLength | eb/encodings/codec.py:21-24 | with one-character entries the output has one character per unit |
| Codec.UnitsAppend | eb/encodings/codec.py:21-24 | unpacking a concatenation of even inputs concatenates the units |
| Codec.DecodeAppend | eb/encodings/codec.py:21-24 | decoding is compositional over even-length inputs |
| Codec.DecodeLength | eb/encodings/codec.py:22-24 | with one-character entries the output has len(input)/2 characters |
| Codec.Registered | eb/encodings/codec.py:46-53 | registration adds exactly the missing names, never changes a registered codec, and gives each new name the codec of its first listing |
| Codec.RegisteredIdempotent | eb/encodings/codec.py:46-53 | registering twice is registering once |
| Codec.RegisteredNoop | eb/encodings/codec.py:46-53 | registering names already present changes nothing |
| Codec.CodecRegistry.Register | eb/encodings/codec.py:46-53 | the registration loop leaves the registry equal to `Registered` |
| Codec.CodecRegistry.Find | eb/encodings/codec.py:34-43 | an unregistered name finds nothing; a registered name finds its codec |
| StringUtil.UpperChar | eb/string_util.py:16-47 | ASCII lower-case letters are upper-cased, other characters kept |
| StringUtil.Upper | eb/string_util.py:16-47 | upper-casing works character by character and keeps the length |
| StringUtil.HalfName | eb/string_util.py:16-47 | a name starting with FULLWIDTH loses that prefix; any other gets HALFWIDTH prepended |
| StringUtil.HalfNameOfFull | eb/string_util.py:16-47 | the full-width prefix is removed exactly |
| StringUtil.HalfNameOfOther | eb/string_util.py:16-47 | a name starting with a non-letter is prefixed with HALFWIDTH |
| StringUtil.CodePoint | eb/string_util.py:16-47 | every code point of the plane except the surrogates is a character with that code |
| StringUtil.ScanStep | eb/string_util.py:33-47 | a character whose half-width name is found enters both tables at once; any other leaves them unchanged |
| StringUtil.ScanPaired | eb/string_util.py:16-47 | after every step of the scan, every narrow-to-wide entry maps back to its key under wide-to-narrow |
| StringUtil.StepPaired | eb/string_util.py:43-44 | one scan step keeps the tables paired |
| StringUtil.MapChars | eb/string_util.py:50-63 | each mapped character is replaced, others kept, and the length is preserved |
| StringUtil.NarrowWideRoundTrip | eb/string_util.py:66-78 | converting to wide then back to narrow is the identity on strings of narrow or unmapped characters |
| StringUtil.NarrowIdentity | eb/string_util.py:50-55 | strings with no wide characters are unchanged by `to_narrow` |
| StringUtil.WidthCache.InitCache | eb/string_util.py:16-47 | the imperative scan fills the cache with the tables of the pure scan, paired |
| StringUtil.WidthCache.ToNarrow | eb/string_util.py:50-55 | builds the cache only when it is still empty, then maps through wide-to-narrow |
| StringUtil.WidthCache.ToWide | eb/string_util.py:58-63 | builds the cache only when it is still empty, then maps through narrow-to-wide |
| Zio.LowerChar | eb/zio.py:148-150 | ASCII upper-case letters are lower-cased, other characters kept |
| Zio.Lower | eb/zio.py:148-150 | lower-casing works character by character and keeps the length |
| Zio.RegisterKeysValid | eb/zio.py:148-150 | registering extensions keeps the table consistent and never drops a key |
| Zio.DefaultHandlersContents | eb/zio.py:144-154 | the module's table maps '.org' and '' to plain files and '.ebz' to ebzip, in that order |
| Zio.PlainTable | eb/zio.py:152 | registering the plain class adds '.org' and '' |
| Zio.EbzipTable | eb/zio.py:153 | registering the ebzip class then adds '.ebz' |
| Zio.HandlerTable.Register | eb/zio.py:148-150 | the loop over a class's extensions equals `RegisterKeys` and keeps the table consistent |
| Zio.Candidates | eb/zio.py:158-160 | the candidates are name + extension for every registered extension, in table order, with its class |
| Zio.DefaultCandidates | eb/zio.py:158-160 | with the module's table the candidates are name.org, name and name.ebz |
| Zio.FirstListed | eb/zio.py:175-182 | finds the first candidate present in the directory listing, ignoring case, or none |
| Zio.OpenName | eb/zio.py:157-187 | fails with file-not-found iff no candidate is listed; otherwise opens the first listed candidate in table order, with that extension's class |
| Zio.FindCandidate | eb/zio.py:175-187 | the search loop equals `OpenName` |
| Zio.OpenNamesAsWritten | eb/zio.py:161-168 | as written, an empty list raises UnboundLocalError and any other list tries only its first name |
| Zio.FirstSuccess | eb/zio.py:161-168 | finds the first success in a list of attempts, or none |
| Zio.Attempts | eb/zio.py:161-168 | attempt k opens name k |
| Zio.OpenNames | eb/zio.py:161-168 | fails iff every name fails; otherwise returns the first name that opens |
| Zio.OnlyFirstNameTried | eb/zio.py:161-168 | when the first name is missing and the second present, the code raises while the intended search opens the second |
| Zio.EbzipFile.SeekStart | eb/zio.py:133-134 | the cursor is set to the position |
| Zio.EbzipFile.SeekCur | eb/zio.py:136-137 | the cursor moves by the delta |
| Zio.EbzipFile.SeekEnd | eb/zio.py:139-141 | the cursor is set relative to the file size, then the call raises NotImplementedError |
| Zio.ReadAt | eb/zio.py:105-109 | a read returns the bytes from the position, as many as asked or as remain |
| Zio.ReadIntoEnd | eb/zio.py:94-103 | advancing leaves the position after the bytes read; not advancing seeks back the full structure size |
| Zio.ReadIntoRestores | eb/zio.py:94-103 | `readinto(advance=False)` leaves the position unchanged iff the read was complete |
| Zio.PeekShortRead | eb/zio.py:100-103 | a 4-byte peek at position 10 of a 12-byte file ends at position 8 |
| Zio.PlainFile.Open | eb/zio.py:33-38 | opening positions a closed file at 0 and leaves an open one alone |
| Zio.PlainFile.SeekStart | eb/zio.py:80-83 | an open file moves to the position; a negative position raises; a closed file raises |
| Zio.PlainFile.SeekCur | eb/zio.py:85-86 | an open file moves by the delta unless that is negative |
| Zio.PlainFile.ReadInto | eb/zio.py:94-103 | opens the file if needed, reads into the structure, and sets the position as `ReadIntoEnd` says |
| Zio.PlainFile.Peek | eb/zio.py:100-103 | as intended, a read that does not advance returns the bytes and keeps the position, even after a short read |
| Zio.PlainFile.Read | eb/zio.py:105-109 | opens the file if needed and returns the next bytes, advancing past them |
| Zio.CodeToEncoding | eb/zio.py:210-223 | code 1 is ISO 8859-1, 2 JIS X 0208 and 3 JIS X 0208 + GB 2312; any other code raises CharCodeUnsupportedError |
| Zio.LanguageEncodingAsWritten | eb/zio.py:218-223 | as written, every language file of at least 2 bytes raises CharCodeUnsupportedError |
| Zio.LanguageEncoding | eb/zio.py:215-223 | the language file's first big-endian short selects the encoding; a short file fails to unpack |
| Zio.LanguageTupleKey | eb/zio.py:218-223 | code 2 is refused by the code as written and accepted by the intended lookup |
| Book.TypedKey | eb/book.py:81-93 | a key without subkey is the key itself; with a subkey it is the pair |
| Book.SetSearch | eb/book.py:70-93 | named keys other than multi overwrite; multi appends to its list in order; typed keys are registered only when the book type matches |
| Book.SetSearchFrame | eb/book.py:70-93 | registering a search leaves every other table key unchanged |
| Book.MultiAccumulates | eb/book.py:73-79 | multi searches accumulate in insertion order |
| Book.NamedOverwrites | eb/book.py:73-79 | for any other name the last registration wins |
| Book.InitialText | eb/book.py:46-56 | a subbook has no text iff its index page is 0, and has text iff the index page is set and a text file exists |
| Book.ReadGuard | eb/book.py:99-103 | reading succeeds iff there is text; no text raises ValueError; an unset text raises AttributeError |
| Book.StreamDataOnlyUnreadable | eb/book.py:66-68 | a subbook is stream-data-only iff reading it raises ValueError |
| Book.Subbook.constructor | eb/book.py:24-56 | a new subbook records its index page and book type, has the text state `InitialText` and an empty search table |
| Book.Subbook.ResetSearches | eb/book.py:95-97 | the search table is emptied and the multi count is 0 |
| Book.Subbook.SetSearchMethod | eb/book.py:70-93 | updates the table as `SetSearch` or raises its error, leaving the table unchanged |
| Book.Subbook.Read | eb/book.py:99-103 | reading is refused exactly as `ReadGuard` says |
| Book.LanguageOf | eb/book.py:115-123 | as intended: a missing language file yields the default JIS X 0208; otherwise the file's code decides |
| Book.LanguageChoices | eb/book.py:107-123 | as intended, codes 1, 2 and 3 select ISO 8859-1, the default and JIS X 0208 + GB 2312; a high first byte is refused |
| Book.LanguageOfAsWritten | eb/book.py:115-123 | as written, only a book without a language file gets an encoding; a readable language file is always refused |
| Book.LanguageFileRefused | eb/book.py:115-123 | a language file naming code 1, 2 or 3 is refused as written and read as intended |
| Book.BuildSubbooks | eb/book.py:131-139 | one slot per catalog entry, empty exactly where constructing that subbook failed |
| Book.FailureIsolated | eb/book.py:131-139 | changing how one subbook is built changes no other slot |
| Book.LoadCatalog | eb/book.py:125-139 | a catalog error propagates; otherwise every entry gets a slot as `BuildSubbooks` says |
| Book.BookInfo.constructor | eb/book.py:109-113 | a new book starts with the default encoding |
| Book.BookInfo.LoadLanguage | eb/book.py:115-123 | as intended, a readable language file sets the encoding; a refused code raises and keeps the old encoding |

## Left out

- File access is not modelled: opening files, directory listing and case fixing. The
  directory listing is a parameter map from lower-cased names to names
  (`Zio.OpenName`). File contents are byte sequences held by the model.
- Catalog file reading and subbook construction beyond the rules above are I/O glue and
  are not modelled. The record layouts they use are in `Structs`.
- The ebzip backend is not modelled beyond its cursor, because it is a stub that raises
  NotImplementedError. The same holds for sebxa mode and for `get_byte`, `next_is_code`
  and `next_code`. The "next unit is an escape code" probe is the parameter
  `Text.Env.nextIsCode`. The decoration handler's byte 2 comes from its own structure,
  as its comment describes.
- The JIS X 0208 and GB 2312 tables and the Unicode character names are abstract
  parameters, because their contents are foreign data. `eb/bad_encodings.py` and
  `eb/encodings/make_encodings.py` are not part of this model.
- Logging, `print`, `pprint`, the `time.sleep` keyword counter and the `__str__`/`pprint`
  formatting of sections produce no result and are left out.
- Text.Read: the generator is modelled as a function that returns every yielded section
  at once, in yield order.
- Text.Read: section nodes are values, not shared dictionaries. A node is appended to its
  parent when it is closed. The source appends it when it opens. The order is the same,
  because children only arrive while a node is innermost. A node that is never closed is
  missing from its parent's data.
- Text.Step: at the end of the data the read halts with `EndOfData`. As written, a short
  `readinto` leaves the old header in place, and the loop would run forever.
- Text.CallHook: a handler's structure cut short by the end of the data also halts the
  read with `EndOfData`. As written, the short read fills only part of the cached
  structure instance, and the handler runs on the bytes left from an earlier unit.
- Text.TokenUnit: skip-code tokens raise NotImplementedError, as `_read_section` does.
  Nothing in the source ever sets the skip code; only the disarm rule clears it.
- Text.CheckStopCode: `KeywordSection.start` calls `check_stop_code()` without its
  argument. The model passes the keyword's own automatic stop code. The appendix stop
  code is the parameter `Text.Env.appendixStop`.
- `TextStruct.is_section` is a method, not a property, so `if header.is_section:` is
  always true as written. The model uses the intended test, code1 == 0x1F
  (`TextStructs.Header.IsSection`).
- `GraphicBlockSection.start_struct.arg_check` is a method. The model uses the value it
  computes (`TextSections.GraphicBlockCheck`). The extra `arg1` keyword that `start`
  would reject is ignored.
- `SetIndentHandler.start` does not parse: the call `print('stop code'` is never closed
  (eb/text_sections.py:339-340). As written, the whole `text_sections` module fails to
  compile, so nothing in it could be imported. The model reads the rest of the module as
  if that call were closed. The body of that `start` is not modelled: the directive reads its
  4-byte structure and does nothing else.
- Zio.LowerChar: lower-cases ASCII letters only. Python's `str.lower()` also lower-cases
  non-ASCII letters. The model does not capture file names or extensions with such
  letters.
- `_args` caches its result in a class attribute; the cache is left out.
- Fixed-width ctypes fields are read as unbounded numbers from their byte slices. Widths
  matter only through the byte counts, which the layout lemmas fix.
- `_load_indices` checks the index count before reading the page. That check reads a
  fresh, zeroed structure, so it is dead and left out. The slice to `index_count` is
  capped at 127 entries, as Python slicing caps it.

## Findings

| source | as written | input that shows it | evidently intended | confidence | as-written member | corrected member |
|---|---|---|---|---|---|---|
| eb/text.py:215 | reads `search.index_id`, but `search` is a dict, so AttributeError | an entry with id 0x90 (or any id but 0x70) when rule (a) does not apply, e.g. global 0, availability 1 | test `method.index_id == 0x90` | high, not executed | Text.PolicyAsWritten, Text.PolicyAttributeLookup | Text.Policy, Text.PolicyAsWrittenAgrees |
| eb/zio.py:218-219 | `read_ushort` returns a 1-tuple from `struct.unpack`, so the lookup in the int-keyed `code_to_encoding` always fails | a language file starting 0x00 0x02 | look up the unpacked integer | high, not executed | Zio.LanguageEncodingAsWritten, Zio.LanguageTupleKey, Book.LanguageOfAsWritten, Book.LanguageFileRefused | Zio.LanguageEncoding, Book.LanguageOf, Book.LanguageChoices, Book.BookInfo.LoadLanguage |
| eb/zio.py:161-168 | in a list of names, a missing first name raises at once instead of trying the next one | names [a, b] where only b exists | return the first name that opens; raise only when all fail | high, not executed | Zio.OpenNamesAsWritten, Zio.OnlyFirstNameTried | Zio.OpenNames |
| eb/text.py:300 | reads `header.code_bytes`, but a text header (`TextStruct`) has only `code1` and `code2`, so AttributeError | a JIS X 0208 book, one open section, no skip code, the unit 30 21 | take the unit's two code bytes | high, not executed | Text.ReadCharacterAsWritten, Text.CodeBytesMissing, Text.CodeBytesJisPair | Text.ReadCharacter |
| eb/zio.py:100-103 | a read that does not advance steps back the full structure size, even when fewer bytes were read | a 4-byte structure read without advancing at byte 10 of a 12-byte file: the cursor ends at 8 | step back by the bytes actually read, keeping the position | high, not executed | Zio.PlainFile.ReadInto, Zio.ReadIntoEnd, Zio.PeekShortRead | Zio.PlainFile.Peek |
