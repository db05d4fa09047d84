/**
 * PHP's built-in `trim($s)` with its default character list
 * " \t\n\r\0\x0B": strips those characters from both ends of a string.
 * PHP strings are byte strings; every character of the default list is
 * ASCII, so modelling a string as `seq<char>` changes nothing about which
 * characters are removed.
 */
module PhpString {

  /** The default character list of `trim`: space, tab, newline,
      carriage return, NUL and vertical tab. */
  predicate IsTrimChar(c: char) {
    c == ' ' || c == '\t' || c == '\n' || c == '\r' || c == '\0' || c == '\U{B}'
  }

  /** Every character of `s` is one that `trim` removes. */
  predicate AllTrimChars(s: string) {
    forall i :: 0 <= i < |s| ==> IsTrimChar(s[i])
  }

  /** `ltrim`: drops the longest prefix made of trim characters. */
  function TrimLeft(s: string): (r: string)
    ensures |r| <= |s| && r == s[|s| - |r|..]
    ensures forall i :: 0 <= i < |s| - |r| ==> IsTrimChar(s[i])
    ensures r != [] ==> !IsTrimChar(r[0])
  {
    if s != [] && IsTrimChar(s[0]) then
      var r := TrimLeft(s[1..]);
      assert s[1..][|s| - 1 - |r|..] == s[|s| - |r|..];
      r
    else s
  }

  /** `rtrim`: drops the longest suffix made of trim characters. */
  function TrimRight(s: string): (r: string)
    ensures |r| <= |s| && r == s[..|r|]
    ensures forall i :: |r| <= i < |s| ==> IsTrimChar(s[i])
    ensures r != [] ==> !IsTrimChar(r[|r| - 1])
  {
    if s != [] && IsTrimChar(s[|s| - 1]) then TrimRight(s[..|s| - 1]) else s
  }

  /** `trim`: both ends. The result neither starts nor ends with a trim
      character. */
  function Trim(s: string): (r: string)
    ensures |r| <= |s|
    ensures r != [] ==> !IsTrimChar(r[0]) && !IsTrimChar(r[|r| - 1])
  {
    TrimRight(TrimLeft(s))
  }

  /** What `trim` keeps is the middle of `s` between a prefix and a suffix
      made of trim characters only. */
  lemma TrimIsMiddle(s: string) returns (k: nat)
    ensures k + |Trim(s)| <= |s| && Trim(s) == s[k..k + |Trim(s)|]
    ensures forall i :: 0 <= i < k ==> IsTrimChar(s[i])
    ensures forall i :: k + |Trim(s)| <= i < |s| ==> IsTrimChar(s[i])
  {
    var t := TrimLeft(s);
    k := |s| - |t|;
    SliceOfSuffix(s, t, TrimRight(t), k);
  }

  /** A prefix `r` of the suffix `t` of `s` that starts at `k` is the slice
      of `s` from `k`, and what `t` has beyond `r` is what `s` has. */
  lemma SliceOfSuffix(s: string, t: string, r: string, k: nat)
    requires k <= |s| && t == s[k..] && |r| <= |t| && r == t[..|r|]
    requires forall i :: |r| <= i < |t| ==> IsTrimChar(t[i])
    ensures k + |r| <= |s| && r == s[k..k + |r|]
    ensures forall i :: k + |r| <= i < |s| ==> IsTrimChar(s[i])
  {
    forall i | k + |r| <= i < |s| ensures IsTrimChar(s[i]) {
      assert s[i] == t[i - k];
    }
  }

  /** `trim($s) === ''` exactly when `s` consists of trim characters only
      (the empty string included). */
  lemma TrimEmptyIff(s: string)
    ensures Trim(s) == [] <==> AllTrimChars(s)
  {
    var t := TrimLeft(s);
    if Trim(s) == [] {
      assert t == [];
    }
  }

  /** Trimming twice removes nothing more. */
  lemma TrimIdempotent(s: string)
    ensures Trim(Trim(s)) == Trim(s)
  {
    var r := Trim(s);
    if r != [] {
      assert TrimLeft(r) == r;
      assert TrimRight(r) == r;
    }
  }

  /** A string holding one character outside the trim list survives `trim`
      as a non-empty string. */
  lemma TrimKeepsSignificantChar(s: string, i: nat)
    requires i < |s| && !IsTrimChar(s[i])
    ensures Trim(s) != []
  {
    TrimEmptyIff(s);
  }
}
