/** Field accessors of the binary overlay layer: NUL-terminated strings,
    arrays of them, 3-byte big-endian integers and binary-coded decimals. */
module Descriptors {
  import opened Common

  /** A text decoder for one encoding; it may refuse a byte string. */
  type Decoder = seq<byte> -> Result<string, Error>

  /** The bytes before the first zero byte, or all of them if there is none. */
  function TrimAtNul(value: seq<byte>): (r: seq<byte>)
    ensures |r| <= |value| && r == value[..|r|]
    ensures forall i :: 0 <= i < |r| ==> r[i] != 0
    ensures |r| < |value| ==> value[|r|] == 0
  {
    if |value| == 0 then []
    else if value[0] == 0 then []
    else [value[0]] + TrimAtNul(value[1..])
  }

  /** `decode`: cut at the first NUL, then decode with the given encoding. */
  function Decode(value: seq<byte>, decoder: Decoder): Result<string, Error>
  {
    decoder(TrimAtNul(value))
  }

  /** Latin-1 maps every byte to the code point of the same number. */
  function Latin1Decode(bs: seq<byte>): (r: Result<string, Error>)
    ensures r.Success? && |r.value| == |bs|
    ensures forall i :: 0 <= i < |bs| ==> r.value[i] as int == bs[i] as int
  {
    Success(seq(|bs|, i requires 0 <= i < |bs| => bs[i] as char))
  }

  /** The characters Python's str.strip() removes (str.isspace()). */
  predicate IsSpace(c: char)
  {
    var n := c as int;
    (0x09 <= n <= 0x0D) || (0x1C <= n <= 0x20) || n == 0x85 || n == 0xA0 || n == 0x1680
    || (0x2000 <= n <= 0x200A) || n == 0x2028 || n == 0x2029 || n == 0x202F || n == 0x205F
    || n == 0x3000
  }

  /** Number of leading whitespace characters. */
  function LeadingSpaces(s: string): (n: nat)
    ensures n <= |s|
    ensures forall i :: 0 <= i < n ==> IsSpace(s[i])
    ensures n < |s| ==> !IsSpace(s[n])
  {
    if |s| == 0 || !IsSpace(s[0]) then 0 else 1 + LeadingSpaces(s[1..])
  }

  /** Length of s once its trailing whitespace is removed. */
  function TrailingEnd(s: string): (n: nat)
    ensures n <= |s|
    ensures forall i :: n <= i < |s| ==> IsSpace(s[i])
    ensures n > 0 ==> !IsSpace(s[n - 1])
  {
    if |s| == 0 || !IsSpace(s[|s| - 1]) then |s| else TrailingEnd(s[..|s| - 1])
  }

  /** Python's str.strip(): remove whitespace at both ends. */
  function Strip(s: string): (r: string)
    ensures |r| <= |s|
    ensures r == [] || (!IsSpace(r[0]) && !IsSpace(r[|r| - 1]))
    ensures LeadingSpaces(s) + |r| <= |s| && r == s[LeadingSpaces(s)..LeadingSpaces(s) + |r|]
    ensures (forall i :: 0 <= i < |s| ==> IsSpace(s[i])) ==> r == []
    ensures forall i :: LeadingSpaces(s) + |r| <= i < |s| ==> IsSpace(s[i])
  {
    var a := LeadingSpaces(s);
    var b := TrailingEnd(s);
    if a == |s| then
      s[a..a]
    else
      assert a < b;
      s[a..b]
  }

  /** `encoded_string`: the decoded field, stripped when `strip` holds. */
  function EncodedString(value: seq<byte>, strip: bool, decoder: Decoder): (r: Result<string, Error>)
    ensures decoder(TrimAtNul(value)).Failure? <==> r.Failure?
    ensures r.Success? && !strip ==> r.value == decoder(TrimAtNul(value)).value
    ensures r.Success? && strip ==> r.value == Strip(decoder(TrimAtNul(value)).value)
  {
    match Decode(value, decoder)
    case Failure(e) => Failure(e)
    case Success(s) => Success(if strip then Strip(s) else s)
  }

  /** Decode every element in order; the first failure wins. */
  function DecodeAll(values: seq<seq<byte>>, strip: bool, decoder: Decoder): (r: Result<seq<string>, Error>)
    ensures r.Success? <==> forall i :: 0 <= i < |values| ==> EncodedString(values[i], strip, decoder).Success?
    ensures r.Success? ==> |r.value| == |values|
    ensures r.Success? ==> forall i :: 0 <= i < |values| ==> r.value[i] == EncodedString(values[i], strip, decoder).value
  {
    if |values| == 0 then Success([])
    else
      var head := EncodedString(values[0], strip, decoder);
      var tail := DecodeAll(values[1..], strip, decoder);
      assert forall i :: 1 <= i < |values| ==> values[i] == values[1..][i - 1];
      if head.Failure? then Failure(head.error)
      else if tail.Failure? then Failure(tail.error)
      else Success([head.value] + tail.value)
  }

  /** The non-empty strings of xs, in order. */
  function NonEmpty(xs: seq<string>): (r: seq<string>)
    ensures |r| <= |xs|
    ensures forall i :: 0 <= i < |r| ==> r[i] != [] && r[i] in xs
    ensures forall s :: s in xs && s != [] ==> s in r
    ensures forall s :: s != [] ==> multiset(r)[s] == multiset(xs)[s]
  {
    if |xs| == 0 then []
    else
      assert xs == [xs[0]] + xs[1..];
      if xs[0] == [] then NonEmpty(xs[1..])
      else [xs[0]] + NonEmpty(xs[1..])
  }

  /** Filtering keeps the order: the non-empty strings of a concatenation are those of
      each part, one after the other. */
  lemma {:induction false} NonEmptyAppend(a: seq<string>, b: seq<string>)
    ensures NonEmpty(a + b) == NonEmpty(a) + NonEmpty(b)
  {
    if |a| > 0 {
      assert (a + b)[1..] == a[1..] + b;
      NonEmptyAppend(a[1..], b);
    } else {
      assert a + b == b;
    }
  }

  /** A list with no empty string is kept whole. */
  lemma {:induction false} NonEmptyKeepsAll(xs: seq<string>)
    requires forall i :: 0 <= i < |xs| ==> xs[i] != []
    ensures NonEmpty(xs) == xs
  {
    if |xs| > 0 {
      NonEmptyKeepsAll(xs[1..]);
    }
  }

  /** `encoded_string_array`: every element decoded in order, the empty ones dropped by default. */
  function EncodedStringArray(values: seq<seq<byte>>, strip: bool, removeEmpty: bool, decoder: Decoder)
    : (r: Result<seq<string>, Error>)
    ensures r.Success? <==> DecodeAll(values, strip, decoder).Success?
    ensures r.Success? && !removeEmpty ==> r.value == DecodeAll(values, strip, decoder).value
    ensures r.Success? && removeEmpty ==> r.value == NonEmpty(DecodeAll(values, strip, decoder).value)
  {
    match DecodeAll(values, strip, decoder)
    case Failure(e) => Failure(e)
    case Success(all) => Success(if removeEmpty then NonEmpty(all) else all)
  }

  /** `uint24`: three big-endian bytes b2, b1, b0. */
  function Uint24(field: seq<byte>): (v: nat)
    requires |field| == 3
    ensures v == field[0] as nat * 65536 + field[1] as nat * 256 + field[2] as nat
    ensures v < 0x100_0000
  {
    var p2 := field[..2];
    var p1 := field[..1];
    assert p2[..1] == p1 && p1[..0] == [];
    assert BigEndian(p1) == field[0] as nat;
    assert BigEndian(p2) == field[0] as nat * 256 + field[1] as nat;
    BigEndian(field)
  }

  // ---------------------------------------------------------------------
  // Binary-coded decimal

  function Hi(b: byte): nat { (b as nat / 16) % 16 }
  function Lo(b: byte): nat { b as nat % 16 }

  /** `bcd`: only 2- and 4-byte fields are accepted; each nibble weighs a power of ten. */
  function Bcd(bs: seq<byte>): (r: Result<nat, Error>)
    ensures r.Success? <==> |bs| == 2 || |bs| == 4
  {
    if |bs| == 2 then
      Success(Hi(bs[0]) * 1000 + Lo(bs[0]) * 100 + Hi(bs[1]) * 10 + Lo(bs[1]))
    else if |bs| == 4 then
      Success(Hi(bs[0]) * 10000000 + Lo(bs[0]) * 1000000 + Hi(bs[1]) * 100000 + Lo(bs[1]) * 10000
              + Hi(bs[2]) * 1000 + Lo(bs[2]) * 100 + Hi(bs[3]) * 10 + Lo(bs[3]))
    else Failure(AssertionFailed)
  }

  /** The value of a BCD field of a width the record layout guarantees. */
  function BcdValue(bs: seq<byte>): nat
    requires |bs| == 2 || |bs| == 4
  {
    Bcd(bs).value
  }

  /** The nibbles of a byte string, most significant first. */
  function Nibbles(bs: seq<byte>): (ds: seq<nat>)
    ensures |ds| == 2 * |bs|
  {
    if |bs| == 0 then [] else Nibbles(bs[..|bs| - 1]) + [Hi(bs[|bs| - 1]), Lo(bs[|bs| - 1])]
  }

  /** The number a string of decimal digits denotes (digits above 9 keep their weight). */
  function DigitsValue(ds: seq<nat>): nat
  {
    if |ds| == 0 then 0 else DigitsValue(ds[..|ds| - 1]) * 10 + ds[|ds| - 1]
  }

  predicate ValidBcd(bs: seq<byte>)
  {
    forall i :: 0 <= i < |bs| ==> Hi(bs[i]) <= 9 && Lo(bs[i]) <= 9
  }

  function Pow100(n: nat): (p: nat)
    ensures p >= 1
  {
    if n == 0 then 1 else 100 * Pow100(n - 1)
  }

  /** The BCD encoding of v in n bytes (the inverse of `bcd` for v < 100^n). */
  function BcdEncode(v: nat, n: nat): (bs: seq<byte>)
    ensures |bs| == n
  {
    if n == 0 then [] else BcdEncode(v / 100, n - 1) + [(((v / 10) % 10) * 16 + v % 10) as byte]
  }

  lemma DigitsValueAppendPair(a: seq<nat>, x: nat, y: nat)
    ensures DigitsValue(a + [x, y]) == DigitsValue(a) * 100 + x * 10 + y
  {
    var s := a + [x, y];
    assert s[..|s| - 1] == a + [x];
    assert (a + [x])[..|a|] == a;
  }

  lemma NibblesAppend(p: seq<byte>, b: byte)
    ensures DigitsValue(Nibbles(p + [b])) == DigitsValue(Nibbles(p)) * 100 + Hi(b) * 10 + Lo(b)
  {
    assert (p + [b])[..|p|] == p;
    DigitsValueAppendPair(Nibbles(p), Hi(b), Lo(b));
  }

  lemma DigitsOfOne(b: byte)
    ensures DigitsValue(Nibbles([b])) == Hi(b) * 10 + Lo(b)
  {
    NibblesAppend([], b);
    assert [b] == [] + [b];
  }

  lemma Expand(h0: nat, l0: nat, h1: nat, l1: nat, h2: nat, l2: nat, h3: nat, l3: nat)
    ensures ((h0 * 10 + l0) * 100 + h1 * 10 + l1) == h0 * 1000 + l0 * 100 + h1 * 10 + l1
    ensures ((h0 * 1000 + l0 * 100 + h1 * 10 + l1) * 100 + h2 * 10 + l2) * 100 + h3 * 10 + l3
            == h0 * 10000000 + l0 * 1000000 + h1 * 100000 + l1 * 10000 + h2 * 1000 + l2 * 100 + h3 * 10 + l3
  {
  }

  lemma NibblesOfTwo(bs: seq<byte>)
    requires |bs| == 2
    ensures DigitsValue(Nibbles(bs)) == (Hi(bs[0]) * 10 + Lo(bs[0])) * 100 + Hi(bs[1]) * 10 + Lo(bs[1])
  {
    var p1 := [bs[0]];
    DigitsOfOne(bs[0]);
    NibblesAppend(p1, bs[1]);
    assert bs == p1 + [bs[1]];
  }

  lemma Bcd2IsDigitsValue(bs: seq<byte>)
    requires |bs| == 2
    ensures Bcd(bs).Success? && Bcd(bs).value == DigitsValue(Nibbles(bs))
  {
    NibblesOfTwo(bs);
    BcdOfTwo(bs);
  }

  /** The two-byte formula, grouped by byte. */
  lemma BcdOfTwo(bs: seq<byte>)
    requires |bs| == 2
    ensures Bcd(bs) == Success((Hi(bs[0]) * 10 + Lo(bs[0])) * 100 + Hi(bs[1]) * 10 + Lo(bs[1]))
  {
  }

  lemma Bcd4IsDigitsValue(bs: seq<byte>)
    requires |bs| == 4
    ensures Bcd(bs) == Success(DigitsValue(Nibbles(bs)))
  {
    var h0, l0, h1, l1 := Hi(bs[0]), Lo(bs[0]), Hi(bs[1]), Lo(bs[1]);
    var h2, l2, h3, l3 := Hi(bs[2]), Lo(bs[2]), Hi(bs[3]), Lo(bs[3]);
    var p2 := bs[..2];
    Bcd2IsDigitsValue(p2);
    var d2 := DigitsValue(Nibbles(p2));
    assert d2 == h0 * 1000 + l0 * 100 + h1 * 10 + l1;
    var p3 := p2 + [bs[2]];
    NibblesAppend(p2, bs[2]);
    NibblesAppend(p3, bs[3]);
    assert bs == p3 + [bs[3]];
    assert DigitsValue(Nibbles(bs)) == (d2 * 100 + h2 * 10 + l2) * 100 + h3 * 10 + l3;
    Expand(h0, l0, h1, l1, h2, l2, h3, l3);
  }

  /** The source's fixed-width formula is the nibble-weighted sum of the field. */
  lemma BcdIsDigitsValue(bs: seq<byte>)
    requires |bs| == 2 || |bs| == 4
    ensures Bcd(bs) == Success(DigitsValue(Nibbles(bs)))
  {
    if |bs| == 2 { Bcd2IsDigitsValue(bs); } else { Bcd4IsDigitsValue(bs); }
  }

  /** A valid BCD field lies below 100^n, so 0..9999 or 0..99999999. */
  lemma {:induction false} BcdBound(bs: seq<byte>)
    requires ValidBcd(bs)
    ensures DigitsValue(Nibbles(bs)) < Pow100(|bs|)
  {
    if |bs| > 0 {
      var p := bs[..|bs| - 1];
      var b := bs[|bs| - 1];
      assert bs == p + [b];
      assert ValidBcd(p) by {
        forall i | 0 <= i < |p| ensures Hi(p[i]) <= 9 && Lo(p[i]) <= 9 { assert p[i] == bs[i]; }
      }
      BcdBound(p);
      NibblesAppend(p, b);
      assert Hi(b) * 10 + Lo(b) <= 99;
    }
  }

  lemma EncodeDigit(v: nat)
    ensures Hi((((v / 10) % 10) * 16 + v % 10) as byte) == (v / 10) % 10
    ensures Lo((((v / 10) % 10) * 16 + v % 10) as byte) == v % 10
  {
    var h := (v / 10) % 10;
    var l := v % 10;
    assert (h * 16 + l) / 16 == h;
    assert (h * 16 + l) % 16 == l;
  }

  lemma ByteOfNibbles(b: byte)
    ensures Hi(b) * 16 + Lo(b) == b as int
  {
  }

  lemma SplitDecimal(w: nat, h: nat, l: nat)
    requires h <= 9 && l <= 9
    ensures (w * 100 + h * 10 + l) / 100 == w
    ensures ((w * 100 + h * 10 + l) / 10) % 10 == h
    ensures (w * 100 + h * 10 + l) % 10 == l
  {
    var v := w * 100 + h * 10 + l;
    assert v == (w * 10 + h) * 10 + l;
    assert v / 10 == w * 10 + h;
    assert (w * 10 + h) % 10 == h;
  }

  lemma DivMod100(v: nat)
    ensures v == (v / 100) * 100 + ((v / 10) % 10) * 10 + v % 10
  {
    var q := v / 100;
    var t := v / 10;
    assert v == t * 10 + v % 10;
    assert t == (t / 10) * 10 + t % 10;
    assert t / 10 == q;
  }

  /** Encoding then decoding a number that fits gives the number back. */
  lemma {:induction false} BcdEncodeDecode(v: nat, n: nat)
    requires v < Pow100(n)
    ensures ValidBcd(BcdEncode(v, n))
    ensures DigitsValue(Nibbles(BcdEncode(v, n))) == v
  {
    if n > 0 {
      var p := BcdEncode(v / 100, n - 1);
      var b := (((v / 10) % 10) * 16 + v % 10) as byte;
      assert BcdEncode(v, n) == p + [b];
      BcdEncodeDecode(v / 100, n - 1);
      EncodeDigit(v);
      NibblesAppend(p, b);
      DivMod100(v);
      forall i | 0 <= i < n ensures Hi((p + [b])[i]) <= 9 && Lo((p + [b])[i]) <= 9 {
        if i < n - 1 { assert (p + [b])[i] == p[i]; }
      }
    }
  }

  /** Decoding a valid BCD field then encoding it gives the field back. */
  lemma {:induction false} BcdDecodeEncode(bs: seq<byte>)
    requires ValidBcd(bs)
    ensures BcdEncode(DigitsValue(Nibbles(bs)), |bs|) == bs
  {
    if |bs| > 0 {
      var p := bs[..|bs| - 1];
      var b := bs[|bs| - 1];
      assert bs == p + [b];
      assert ValidBcd(p) by {
        forall i | 0 <= i < |p| ensures Hi(p[i]) <= 9 && Lo(p[i]) <= 9 { assert p[i] == bs[i]; }
      }
      BcdDecodeEncode(p);
      NibblesAppend(p, b);
      var w := DigitsValue(Nibbles(p));
      SplitDecimal(w, Hi(b), Lo(b));
      ByteOfNibbles(b);
    }
  }

  /** BCD round trip on the two field widths the decoder accepts. */
  lemma BcdRoundTrip(bs: seq<byte>)
    requires |bs| == 2 || |bs| == 4
    requires ValidBcd(bs)
    ensures Bcd(bs).value < Pow100(|bs|)
    ensures BcdEncode(Bcd(bs).value, |bs|) == bs
  {
    BcdIsDigitsValue(bs);
    BcdBound(bs);
    BcdDecodeEncode(bs);
  }
}
