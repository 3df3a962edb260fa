/** Conversion between full-width and half-width forms of characters. The pairing is
    derived from the names in the Unicode character database: a character named
    "FULLWIDTH X" pairs with the character named "X", and a character named "X" pairs
    with the one named "HALFWIDTH X". The database itself is a parameter: `name` gives a
    code point's name, if it has one, and `lookup` the character with a given name. */
module StringUtil {
  import opened Common

  /** The number of code points the cache scans (the Basic Multilingual Plane). */
  const PlaneSize: nat := 0x1_0000

  const FullPrefix := "FULLWIDTH "
  const HalfPrefix := "HALFWIDTH "

  /** ASCII upper-casing of one character; character names use no other letters. */
  function UpperChar(c: char): (u: char)
    ensures 'a' <= c <= 'z' ==> u as int == c as int - 32
    ensures !('a' <= c <= 'z') ==> u == c
  {
    if 'a' <= c <= 'z' then (c as int - 32) as char else c
  }

  function Upper(s: string): (u: string)
    ensures |u| == |s|
    ensures forall i :: 0 <= i < |s| ==> u[i] == UpperChar(s[i])
  {
    seq(|s|, i requires 0 <= i < |s| => UpperChar(s[i]))
  }

  /** The name of the narrow partner of a character named `name`: the name without its
      "FULLWIDTH " prefix when it has one (tested case-insensitively), otherwise the name
      with "HALFWIDTH " put in front. */
  function HalfName(name: string): (h: string)
    ensures FullPrefix <= Upper(name) ==> h == name[|FullPrefix|..]
    ensures !(FullPrefix <= Upper(name)) ==> h == HalfPrefix + name
  {
    if FullPrefix <= Upper(name) then name[|FullPrefix|..] else HalfPrefix + name
  }

  /** A full-width name loses exactly its prefix, so prefixing it again gives the name back. */
  lemma HalfNameOfFull(x: string)
    ensures HalfName(FullPrefix + x) == x
  {
    var name := FullPrefix + x;
    assert Upper(name)[..|FullPrefix|] == FullPrefix;
    assert FullPrefix <= Upper(name);
    assert name[|FullPrefix|..] == x;
  }

  /** A name that does not start with a letter (upper or lower case) gains the prefix. */
  lemma HalfNameOfOther(name: string)
    requires |name| > 0 && !('A' <= name[0] <= 'Z') && !('a' <= name[0] <= 'z')
    ensures HalfName(name) == HalfPrefix + name
    ensures |HalfName(name)| == |name| + |HalfPrefix|
  {
    var u := Upper(name);
    assert u[0] == UpperChar(name[0]) && u[0] != FullPrefix[0];
  }

  /** The character with code point i, or None for the surrogate code points, which are no
      characters and have no name in the database. */
  function CodePoint(i: nat): (c: Option<char>)
    requires i < PlaneSize
    ensures c.Some? <==> !(0xD800 <= i < 0xE000)
    ensures c.Some? ==> c.value as int == i
  {
    if 0xD800 <= i < 0xE000 then None else Some(i as char)
  }

  /** The two tables of the cache. */
  datatype Tables = Tables(wideToNarrow: map<char, char>, narrowToWide: map<char, char>)

  /** One iteration of the scan of `_init_cache` for character c. */
  function ScanStep(t: Tables, c: char, name: char -> Option<string>, lookup: string -> Option<char>): (r: Tables)
    ensures name(c).None? || lookup(HalfName(name(c).value)).None? ==> r == t
    ensures name(c).Some? && lookup(HalfName(name(c).value)).Some? ==>
              var h := lookup(HalfName(name(c).value)).value;
              r == Tables(t.wideToNarrow[c := h], t.narrowToWide[h := c])
  {
    if name(c).None? then t
    else
      match lookup(HalfName(name(c).value))
      case None => t
      case Some(h) => Tables(t.wideToNarrow[c := h], t.narrowToWide[h := c])
  }

  /** The tables after scanning code points 0 .. n - 1 in order. */
  function ScanUpTo(n: nat, name: char -> Option<string>, lookup: string -> Option<char>): Tables
    requires n <= PlaneSize
  {
    if n == 0 then Tables(map[], map[])
    else
      var t := ScanUpTo(n - 1, name, lookup);
      match CodePoint(n - 1)
      case None => t
      case Some(c) => ScanStep(t, c, name, lookup)
  }

  /** The tables are partners: the narrow form of the wide partner of h is h again. */
  predicate Paired(t: Tables)
  {
    forall h :: h in t.narrowToWide ==> t.narrowToWide[h] in t.wideToNarrow && t.wideToNarrow[t.narrowToWide[h]] == h
  }

  /** Every table key read so far is a code point below n. */
  predicate ScannedBelow(t: Tables, n: nat)
  {
    forall w :: w in t.wideToNarrow ==> (w as int) < n
  }

  /** The scan keeps the tables paired at every step, although a later character with the
      same narrow partner replaces the earlier one in the narrow-to-wide table. */
  lemma {:induction false} ScanPaired(n: nat, name: char -> Option<string>, lookup: string -> Option<char>)
    requires n <= PlaneSize
    ensures Paired(ScanUpTo(n, name, lookup))
    ensures ScannedBelow(ScanUpTo(n, name, lookup), n)
  {
    if n > 0 {
      ScanPaired(n - 1, name, lookup);
      var t := ScanUpTo(n - 1, name, lookup);
      match CodePoint(n - 1)
      case None =>
      case Some(c) =>
        StepPaired(t, c, n - 1, name, lookup);
    }
  }

  lemma StepPaired(t: Tables, c: char, k: nat, name: char -> Option<string>, lookup: string -> Option<char>)
    requires Paired(t) && ScannedBelow(t, k) && c as int == k
    ensures Paired(ScanStep(t, c, name, lookup))
    ensures ScannedBelow(ScanStep(t, c, name, lookup), k + 1)
  {
    assert c !in t.wideToNarrow;
  }

  /** `''.join(table.get(ch, ch) for ch in s)`: every character with an entry is replaced
      by it, every other character is kept, and the length is unchanged. */
  function MapChars(m: map<char, char>, s: string): (r: string)
    ensures |r| == |s|
    ensures forall i :: 0 <= i < |s| ==> r[i] == (if s[i] in m then m[s[i]] else s[i])
  {
    if |s| == 0 then "" else [if s[0] in m then m[s[0]] else s[0]] + MapChars(m, s[1..])
  }

  /** Narrowing undoes widening for any string whose characters either have a wide
      partner or are not themselves wide characters. */
  lemma NarrowWideRoundTrip(t: Tables, s: string)
    requires Paired(t)
    requires forall i :: 0 <= i < |s| ==> s[i] in t.narrowToWide || s[i] !in t.wideToNarrow
    ensures MapChars(t.wideToNarrow, MapChars(t.narrowToWide, s)) == s
  {
    var w := MapChars(t.narrowToWide, s);
    var n := MapChars(t.wideToNarrow, w);
    forall i | 0 <= i < |s|
      ensures n[i] == s[i]
    {
      if s[i] in t.narrowToWide {
        assert w[i] == t.narrowToWide[s[i]];
      }
    }
  }

  /** A string without characters that have a narrow partner is its own narrow form. */
  lemma NarrowIdentity(t: Tables, s: string)
    requires forall i :: 0 <= i < |s| ==> s[i] !in t.wideToNarrow
    ensures MapChars(t.wideToNarrow, s) == s
  {
    var n := MapChars(t.wideToNarrow, s);
    assert forall i :: 0 <= i < |s| ==> n[i] == s[i];
  }

  /** The module-level cache (`_wide_to_narrow` and `_narrow_to_wide`), empty until first use. */
  class WidthCache {
    var wideToNarrow: Option<map<char, char>>
    var narrowToWide: Option<map<char, char>>

    constructor ()
      ensures wideToNarrow.None? && narrowToWide.None?
    {
      wideToNarrow := None;
      narrowToWide := None;
    }

    /** `_init_cache`: scan every code point of the Basic Multilingual Plane in order and
        record each character that has a partner, in both directions. */
    method InitCache(name: char -> Option<string>, lookup: string -> Option<char>)
      modifies this
      ensures wideToNarrow == Some(ScanUpTo(PlaneSize, name, lookup).wideToNarrow)
      ensures narrowToWide == Some(ScanUpTo(PlaneSize, name, lookup).narrowToWide)
      ensures Paired(Tables(wideToNarrow.value, narrowToWide.value))
    {
      var w2n: map<char, char> := map[];
      var n2w: map<char, char> := map[];
      var i := 0;
      while i < PlaneSize
        invariant 0 <= i <= PlaneSize
        invariant Tables(w2n, n2w) == ScanUpTo(i, name, lookup)
      {
        if !(0xD800 <= i < 0xE000) {
          var c := i as char;
          assert CodePoint(i) == Some(c);
          var nm := name(c);
          if nm.Some? {
            var half := lookup(HalfName(nm.value));
            if half.Some? {
              w2n := w2n[c := half.value];
              n2w := n2w[half.value := c];
            }
          }
        }
        i := i + 1;
      }
      ScanPaired(PlaneSize, name, lookup);
      wideToNarrow := Some(w2n);
      narrowToWide := Some(n2w);
    }

    /** `to_narrow`: fill the cache on first use, then narrow every character of s. */
    method ToNarrow(s: string, name: char -> Option<string>, lookup: string -> Option<char>) returns (r: string)
      modifies this
      ensures old(wideToNarrow).Some? ==> wideToNarrow == old(wideToNarrow) && narrowToWide == old(narrowToWide)
      ensures old(wideToNarrow).None? ==>
                wideToNarrow == Some(ScanUpTo(PlaneSize, name, lookup).wideToNarrow) &&
                narrowToWide == Some(ScanUpTo(PlaneSize, name, lookup).narrowToWide)
      ensures wideToNarrow.Some? && r == MapChars(wideToNarrow.value, s)
    {
      if wideToNarrow.None? {
        InitCache(name, lookup);
      }
      r := MapChars(wideToNarrow.value, s);
    }

    /** `to_wide`: fill the cache on first use, then widen every character of s. */
    method ToWide(s: string, name: char -> Option<string>, lookup: string -> Option<char>) returns (r: string)
      modifies this
      ensures old(narrowToWide).Some? ==> wideToNarrow == old(wideToNarrow) && narrowToWide == old(narrowToWide)
      ensures old(narrowToWide).None? ==>
                wideToNarrow == Some(ScanUpTo(PlaneSize, name, lookup).wideToNarrow) &&
                narrowToWide == Some(ScanUpTo(PlaneSize, name, lookup).narrowToWide)
      ensures narrowToWide.Some? && r == MapChars(narrowToWide.value, s)
    {
      if narrowToWide.None? {
        InitCache(name, lookup);
      }
      r := MapChars(narrowToWide.value, s);
    }
  }
}
