/** The table-driven codec the decoder registers for JIS X 0208 text: big-endian 16-bit
    code units looked up one by one in a decode map. */
module Codec {
  import opened Common

  /** A charmap codec: the decode table from 16-bit code units to text. */
  datatype Charmap = Charmap(decodeMap: map<nat, string>)

  /** The big-endian 16-bit value of the k-th byte pair. */
  function UnitAt(input: seq<byte>, k: nat): (u: nat)
    requires 2 * k + 1 < |input|
    ensures u < 0x1_0000
  {
    256 * input[2 * k] as nat + input[2 * k + 1] as nat
  }

  /** The big-endian 16-bit units of an even-length byte string (`struct.unpack('>H...')`). */
  function Units(input: seq<byte>): (us: seq<nat>)
    requires |input| % 2 == 0
    ensures |us| == |input| / 2
    ensures forall k :: 0 <= k < |us| ==> us[k] == UnitAt(input, k)
  {
    if |input| == 0 then []
    else
      var rest := Units(input[2..]);
      assert forall k :: 0 <= k < |rest| ==> UnitAt(input[2..], k) == UnitAt(input, k + 1);
      [UnitAt(input, 0)] + rest
  }

  /** Every unit has an entry in the table. */
  predicate AllMapped(m: map<nat, string>, us: seq<nat>)
  {
    forall i :: 0 <= i < |us| ==> us[i] in m
  }

  /** The concatenation of the table entries of the units, in order. */
  function Lookup(m: map<nat, string>, us: seq<nat>): string
    requires forall i :: 0 <= i < |us| ==> us[i] in m
  {
    if |us| == 0 then "" else m[us[0]] + Lookup(m, us[1..])
  }

  /** `CharmapCodec.decode`: an odd length does not unpack and a unit missing from the table
      raises; otherwise the joined text and a consumed count of 0. */
  function Decode(codec: Charmap, input: seq<byte>): (r: Result<(string, nat), Error>)
    ensures |input| % 2 != 0 ==> r == Failure(StructError)
    ensures |input| % 2 == 0 ==> (r.Success? <==> AllMapped(codec.decodeMap, Units(input)))
    ensures r.Failure? && |input| % 2 == 0 ==> r.error == KeyError
    ensures r.Success? ==> r.value.1 == 0 && r.value.0 == Lookup(codec.decodeMap, Units(input))
  {
    if |input| % 2 != 0 then Failure(StructError)
    else
      var us := Units(input);
      if AllMapped(codec.decodeMap, us) then Success((Lookup(codec.decodeMap, us), 0))
      else Failure(KeyError)
  }

  /** `CharmapCodec.encode` is not implemented. */
  function Encode(codec: Charmap, input: string): (r: Result<(seq<byte>, nat), Error>)
    ensures r == Failure(NotImplemented)
  {
    Failure(NotImplemented)
  }

  /** Looking up units split in two is the concatenation of the two lookups. */
  lemma {:induction false} LookupAppend(m: map<nat, string>, a: seq<nat>, b: seq<nat>)
    requires forall i :: 0 <= i < |a| ==> a[i] in m
    requires forall i :: 0 <= i < |b| ==> b[i] in m
    ensures forall i :: 0 <= i < |a + b| ==> (a + b)[i] in m
    ensures Lookup(m, a + b) == Lookup(m, a) + Lookup(m, b)
  {
    if |a| > 0 {
      assert (a + b)[1..] == a[1..] + b;
      LookupAppend(m, a[1..], b);
    } else {
      assert a + b == b;
    }
  }

  /** A table of single characters yields one character per code unit. */
  lemma {:induction false} LookupLength(m: map<nat, string>, us: seq<nat>)
    requires forall i :: 0 <= i < |us| ==> us[i] in m && |m[us[i]]| == 1
    ensures |Lookup(m, us)| == |us|
  {
    if |us| > 0 {
      LookupLength(m, us[1..]);
    }
  }

  /** The units of two aligned pieces are the units of the first, then of the second. */
  lemma {:induction false} UnitsAppend(a: seq<byte>, b: seq<byte>)
    requires |a| % 2 == 0 && |b| % 2 == 0
    ensures Units(a + b) == Units(a) + Units(b)
  {
    if |a| == 0 {
      assert a + b == b;
    } else {
      var ab := a + b;
      assert ab[2..] == a[2..] + b;
      UnitsAppend(a[2..], b);
      assert UnitAt(ab, 0) == UnitAt(a, 0);
      assert Units(ab) == [UnitAt(ab, 0)] + Units(ab[2..]);
      assert Units(a) == [UnitAt(a, 0)] + Units(a[2..]);
    }
  }

  /** Decoding runs unit by unit: the decoding of two aligned pieces is the concatenation
      of their decodings, so each unit maps independently of its neighbours. */
  lemma DecodeAppend(codec: Charmap, a: seq<byte>, b: seq<byte>)
    requires |a| % 2 == 0 && |b| % 2 == 0
    requires Decode(codec, a).Success? && Decode(codec, b).Success?
    ensures Decode(codec, a + b).Success?
    ensures Decode(codec, a + b).value.0 == Decode(codec, a).value.0 + Decode(codec, b).value.0
  {
    UnitsAppend(a, b);
    LookupAppend(codec.decodeMap, Units(a), Units(b));
  }

  /** With a table of single characters the text has half as many characters as the input. */
  lemma DecodeLength(codec: Charmap, input: seq<byte>)
    requires Decode(codec, input).Success?
    requires forall u :: u in codec.decodeMap ==> |codec.decodeMap[u]| == 1
    ensures |Decode(codec, input).value.0| == |input| / 2
  {
    LookupLength(codec.decodeMap, Units(input));
  }

  /** The codec names the decoder knows how to build, with their tables. */
  datatype CodecEntry = CodecEntry(name: string, codec: Charmap)

  /** The names listed in a codec table. */
  function Names(info: seq<CodecEntry>): set<string>
  {
    if |info| == 0 then {} else {info[0].name} + Names(info[1..])
  }

  /** The registry after registering `info` into `codecs`: a name already present keeps its
      codec, a new name gets the codec of its first listing. */
  function Registered(codecs: map<string, Charmap>, info: seq<CodecEntry>): (r: map<string, Charmap>)
    ensures r.Keys == codecs.Keys + Names(info)
    ensures forall n :: n in codecs ==> r[n] == codecs[n]
    ensures forall i :: 0 <= i < |info| ==> info[i].name in r
    ensures forall i :: 0 <= i < |info| && info[i].name !in codecs && FirstListing(info, i) ==>
              r[info[i].name] == info[i].codec
    decreases |info|
  {
    if |info| == 0 then codecs
    else
      var next := if info[0].name in codecs then codecs else codecs[info[0].name := info[0].codec];
      var r := Registered(next, info[1..]);
      assert forall i :: 1 <= i < |info| ==> info[i] == info[1..][i - 1];
      assert forall i :: 1 <= i < |info| && FirstListing(info, i) ==> FirstListing(info[1..], i - 1) && info[i].name != info[0].name by {
        forall i | 1 <= i < |info| && FirstListing(info, i)
          ensures FirstListing(info[1..], i - 1) && info[i].name != info[0].name
        {
          assert forall j :: 0 <= j < i - 1 ==> info[1..][j] == info[j + 1];
        }
      }
      r
  }

  /** Entry i of a codec table is the first listing of its name. */
  predicate FirstListing(info: seq<CodecEntry>, i: nat)
    requires i < |info|
  {
    forall j :: 0 <= j < i ==> info[j].name != info[i].name
  }

  /** Registering is idempotent: a second registration of the same table changes nothing. */
  lemma {:induction false} RegisteredIdempotent(codecs: map<string, Charmap>, info: seq<CodecEntry>)
    ensures Registered(Registered(codecs, info), info) == Registered(codecs, info)
  {
    var once := Registered(codecs, info);
    RegisteredNoop(once, info);
  }

  /** Registering names that are all present already changes nothing. */
  lemma {:induction false} RegisteredNoop(codecs: map<string, Charmap>, info: seq<CodecEntry>)
    requires Names(info) <= codecs.Keys
    ensures Registered(codecs, info) == codecs
  {
    if |info| > 0 {
      RegisteredNoop(codecs, info[1..]);
    }
  }

  /** The process-wide codec table (`_codecs`). */
  class CodecRegistry {
    var codecs: map<string, Charmap>

    constructor ()
      ensures codecs == map[]
    {
      codecs := map[];
    }

    /** `register`: add a codec for every listed name not yet present. */
    method Register(info: seq<CodecEntry>)
      modifies this
      ensures codecs == Registered(old(codecs), info)
    {
      var i := 0;
      while i < |info|
        invariant 0 <= i <= |info|
        invariant Registered(codecs, info[i..]) == Registered(old(codecs), info)
      {
        assert info[i..][1..] == info[i + 1..];
        if info[i].name !in codecs {
          codecs := codecs[info[i].name := info[i].codec];
        }
        i := i + 1;
      }
      assert info[i..] == [];
    }

    /** `find_codecs`: the codec registered under the name, or none. */
    function Find(name: string): (r: Option<Charmap>)
      reads this
      ensures r.None? <==> name !in codecs
      ensures r.Some? ==> r.value == codecs[name]
    {
      if name in codecs then Some(codecs[name]) else None
    }
  }
}
