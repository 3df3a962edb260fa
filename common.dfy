/** Types shared by every part of the model: bytes, optional values, results,
    the book encodings and the errors the decoder can raise. */
module Common {

  newtype byte = x: int | 0 <= x < 256

  datatype Option<+T> = None | Some(value: T) {
    function GetOr(default: T): T {
      match this
      case Some(v) => v
      case None => default
    }
  }

  datatype Result<+R, +E> = Success(value: R) | Failure(error: E)

  /** The three character encodings a book may declare. */
  datatype Encoding = Latin1 | JisX0208 | JisX0208Gb2312

  /** The exceptions of the decoder, folded into one datatype. */
  datatype Error =
    | LayoutError            // a record's fields do not fit its declared size
    | MalformedSection       // an end token that does not close the innermost section
    | NotImplemented         // a code path the decoder leaves as a stub
    | AttributeError         // a lookup of a member the object does not have
    | KeyError               // a lookup of a key a table does not have
    | ValueError             // an argument a routine refuses
    | StructError            // a byte string whose length does not fit the unpack format
    | AssertionFailed        // a self-check of the decoder failed
    | SkipRaised             // a handler asked to discard its section and nobody caught it
    | CharCodeUnsupported    // a language file names an unknown character code
    | FileNotFound           // an expected file is absent
    | LookupError            // a codec name that is not registered
    | SeekError              // a seek to a position before the start of a file
    | UnboundLocal           // a local variable read before anything was assigned to it
    | TypeError              // an operation applied to a value of the wrong kind

  /** Big-endian unsigned value of a byte string. */
  function BigEndian(s: seq<byte>): (v: nat)
    ensures |s| == 0 ==> v == 0
  {
    if |s| == 0 then 0 else BigEndian(s[..|s| - 1]) * 256 + s[|s| - 1] as nat
  }

  function Pow256(n: nat): (p: nat)
    ensures p >= 1
  {
    if n == 0 then 1 else 256 * Pow256(n - 1)
  }

  /** A value read from n big-endian bytes fits in n bytes. */
  lemma {:induction false} BigEndianBound(s: seq<byte>)
    ensures BigEndian(s) < Pow256(|s|)
  {
    if |s| > 0 {
      BigEndianBound(s[..|s| - 1]);
    }
  }

  lemma BigEndianPair(a: byte, b: byte)
    ensures BigEndian([a, b]) == 256 * a as nat + b as nat
  {
    assert [a, b][..1] == [a];
    assert [a][..0] == [];
  }

  function Min(a: int, b: int): int { if a <= b then a else b }
}
