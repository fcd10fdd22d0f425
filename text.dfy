/**
  The two string operations the transcript composer relies on: joining the
  collected segment texts with a single space (Python's `" ".join`) and
  removing leading and trailing whitespace (Python's `str.strip()` with no
  argument).
*/
module Text {

  /** The characters for which Python's `str.isspace()` holds. */
  const Whitespace: set<char> := {
    '\t', '\n', '\U{b}', '\U{c}', '\r', '\U{1c}', '\U{1d}', '\U{1e}', '\U{1f}', ' ',
    '\U{85}', '\U{a0}', '\U{1680}',
    '\U{2000}', '\U{2001}', '\U{2002}', '\U{2003}', '\U{2004}', '\U{2005}',
    '\U{2006}', '\U{2007}', '\U{2008}', '\U{2009}', '\U{200a}',
    '\U{2028}', '\U{2029}', '\U{202f}', '\U{205f}', '\U{3000}'
  }

  /** Python's `c.isspace()` for a single character. */
  predicate IsSpace(c: char) {
    c in Whitespace
  }

  /** Every character of `s` is whitespace (vacuously true of ""). */
  predicate AllSpace(s: string) {
    forall i :: 0 <= i < |s| ==> IsSpace(s[i])
  }

  /** The number of whitespace characters `s` starts with. */
  function LeadingSpaces(s: string): (n: nat)
    ensures n <= |s|
    ensures forall i :: 0 <= i < n ==> IsSpace(s[i])
    ensures n == |s| || !IsSpace(s[n])
  {
    if s != [] && IsSpace(s[0]) then 1 + LeadingSpaces(s[1..]) else 0
  }

  /** The number of whitespace characters `s` ends with. */
  function TrailingSpaces(s: string): (n: nat)
    ensures n <= |s|
    ensures forall i :: |s| - n <= i < |s| ==> IsSpace(s[i])
    ensures n == |s| || !IsSpace(s[|s| - 1 - n])
  {
    if s != [] && IsSpace(s[|s| - 1]) then 1 + TrailingSpaces(s[..|s| - 1]) else 0
  }

  /**
    Python's `s.strip()`: `s` with the whitespace at both ends removed,
    leading whitespace first and then trailing whitespace of what is left.
  */
  function Strip(s: string): (r: string)
    ensures r == [] <==> AllSpace(s)
  {
    var lead := LeadingSpaces(s);
    var rest := s[lead..];
    var r := rest[..|rest| - TrailingSpaces(rest)];
    assert r == [] ==> lead == |s|;
    r
  }

  /**
    What Strip keeps: the slice of `s` after its leading whitespace, with only
    whitespace after it.
  */
  lemma StripSlice(s: string)
    ensures LeadingSpaces(s) + |Strip(s)| <= |s|
    ensures Strip(s) == s[LeadingSpaces(s)..LeadingSpaces(s) + |Strip(s)|]
    ensures forall k :: 0 <= k < LeadingSpaces(s) ==> IsSpace(s[k])
    ensures forall k :: LeadingSpaces(s) + |Strip(s)| <= k < |s| ==> IsSpace(s[k])
  {
    var lead := LeadingSpaces(s);
    var rest := s[lead..];
    var r := Strip(s);
    assert r == rest[..|r|];
    forall k | lead + |r| <= k < |s| ensures IsSpace(s[k]) {
      assert s[k] == rest[k - lead];
    }
  }

  /** A non-empty result of Strip starts and ends with a non-space. */
  lemma StripEnds(s: string)
    ensures Strip(s) != [] ==> !IsSpace(Strip(s)[0]) && !IsSpace(Strip(s)[|Strip(s)| - 1])
  {
    var lead := LeadingSpaces(s);
    var rest := s[lead..];
    var r := Strip(s);
    if r != [] {
      assert r[0] == rest[0] == s[lead];
    }
  }

  /** A string that neither starts nor ends with whitespace is left as it is. */
  lemma StripUnchanged(s: string)
    requires s != [] ==> !IsSpace(s[0]) && !IsSpace(s[|s| - 1])
    ensures Strip(s) == s
  {
    assert LeadingSpaces(s) == 0;
    assert TrailingSpaces(s) == 0;
  }

  /** Python's `" ".join(parts)`: the parts in order, one space between neighbours. */
  function Join(parts: seq<string>): string {
    if |parts| == 0 then ""
    else if |parts| == 1 then parts[0]
    else parts[0] + " " + Join(parts[1..])
  }

  /** The joined string is all whitespace exactly when every part is. */
  lemma {:induction false} JoinAllSpace(parts: seq<string>)
    ensures AllSpace(Join(parts)) <==> forall k :: 0 <= k < |parts| ==> AllSpace(parts[k])
  {
    if |parts| > 1 {
      JoinAllSpace(parts[1..]);
      var rest := Join(parts[1..]);
      var j := parts[0] + " " + rest;
      assert Join(parts) == j;
      assert j[..|parts[0]|] == parts[0];
      assert j[|parts[0]| + 1..] == rest;
      if AllSpace(j) {
        forall k | 0 <= k < |parts| ensures AllSpace(parts[k]) {
          if k == 0 {
            forall c | 0 <= c < |parts[0]| ensures IsSpace(parts[0][c]) { assert j[c] == parts[0][c]; }
          } else {
            assert parts[1..][k - 1] == parts[k];
            forall c | 0 <= c < |rest| ensures IsSpace(rest[c]) { assert j[|parts[0]| + 1 + c] == rest[c]; }
          }
        }
      }
      if forall k :: 0 <= k < |parts| ==> AllSpace(parts[k]) {
        assert forall k :: 0 <= k < |parts| - 1 ==> parts[1..][k] == parts[k + 1];
        assert AllSpace(parts[0]);
        forall c | 0 <= c < |j| ensures IsSpace(j[c]) {
          if c < |parts[0]| {
            assert j[c] == parts[0][c];
          } else if c > |parts[0]| {
            assert j[c] == rest[c - |parts[0]| - 1];
          }
        }
      }
    }
  }

  /**
    Joining is the same as appending part after part with a space in front:
    the parts keep their order and are separated by exactly one space.
  */
  lemma {:induction false} JoinAppend(parts: seq<string>, p: string)
    requires parts != []
    ensures Join(parts + [p]) == Join(parts) + " " + p
  {
    if |parts| > 1 {
      JoinAppend(parts[1..], p);
      assert (parts + [p])[1..] == parts[1..] + [p];
    }
  }
}
