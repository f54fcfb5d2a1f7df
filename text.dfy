/**
 * The few Python string operations the relay relies on: `str.isspace`, `str.strip`,
 * `str.split`, `str.startswith` and the ASCII part of `str.lower`.
 */
module Text {

  /** Python's `str.isspace()` for one character: the Unicode whitespace set. */
  predicate IsSpace(c: char) {
    ('\t' <= c <= '\r') || ('\U{1C}' <= c <= ' ') || c == '\U{85}' || c == '\U{A0}'
    || c == '\U{1680}' || ('\U{2000}' <= c <= '\U{200A}') || c == '\U{2028}' || c == '\U{2029}'
    || c == '\U{202F}' || c == '\U{205F}' || c == '\U{3000}'
  }

  predicate AllSpace(s: string) {
    forall k :: 0 <= k < |s| ==> IsSpace(s[k])
  }

  /** `s.startswith(prefix)`: case-sensitive. */
  predicate StartsWith(s: string, prefix: string) {
    |prefix| <= |s| && s[..|prefix|] == prefix
  }

  /** `s.lstrip()`: `s` without the whitespace at its front. */
  function StripStart(s: string): (r: string)
    ensures |r| <= |s|
  {
    if s != [] && IsSpace(s[0]) then StripStart(s[1..]) else s
  }

  /** `s.rstrip()`: `s` without the whitespace at its back. */
  function StripEnd(s: string): (r: string)
    ensures |r| <= |s|
  {
    if s != [] && IsSpace(s[|s| - 1]) then StripEnd(s[..|s| - 1]) else s
  }

  /** `s.strip()`: `s` without its leading and trailing whitespace. */
  function Strip(s: string): (r: string)
    ensures |r| <= |s|
  {
    StripEnd(StripStart(s))
  }

  /** `lstrip` removes exactly the run of whitespace at the front. */
  lemma {:induction false} StripStartRemovesSpace(s: string)
    ensures var r := StripStart(s);
      r == s[|s| - |r|..] && AllSpace(s[..|s| - |r|]) && (r != [] ==> !IsSpace(r[0]))
    decreases |s|
  {
    if s != [] && IsSpace(s[0]) {
      StripStartRemovesSpace(s[1..]);
      var r := StripStart(s[1..]);
      assert s[..|s| - |r|] == [s[0]] + s[1..][..|s| - 1 - |r|];
    }
  }

  /** `rstrip` removes exactly the run of whitespace at the back. */
  lemma {:induction false} StripEndRemovesSpace(s: string)
    ensures var r := StripEnd(s);
      r == s[..|r|] && AllSpace(s[|r|..]) && (r != [] ==> !IsSpace(r[|r| - 1]))
    decreases |s|
  {
    if s != [] && IsSpace(s[|s| - 1]) {
      var t := s[..|s| - 1];
      StripEndRemovesSpace(t);
      var r := StripEnd(t);
      assert s[|r|..] == t[|r|..] + [s[|s| - 1]];
    }
  }

  /**
   * `strip` keeps the middle of `s`: what it cuts off at either end is whitespace,
   * and what it keeps neither starts nor ends with whitespace.
   */
  lemma StripKeepsMiddle(s: string)
    ensures var r := Strip(s); var i := |s| - |StripStart(s)|;
      i + |r| <= |s| && r == s[i..i + |r|]
      && AllSpace(s[..i]) && AllSpace(s[i + |r|..])
      && (r != [] ==> !IsSpace(r[0]) && !IsSpace(r[|r| - 1]))
  {
    StripIsSlice(s);
    StripCutsSpace(s);
    StripEndsOnText(s);
  }

  lemma StripIsSlice(s: string)
    ensures var r := Strip(s); var i := |s| - |StripStart(s)|;
      i + |r| <= |s| && r == s[i..i + |r|] && s[i + |r|..] == StripStart(s)[|r|..]
  {
    var t := StripStart(s);
    StripStartRemovesSpace(s);
    var r := StripEnd(t);
    StripEndRemovesSpace(t);
    SliceOfSuffix(s, |s| - |t|, t, r);
  }

  lemma StripCutsSpace(s: string)
    ensures var r := Strip(s); var i := |s| - |StripStart(s)|;
      i + |r| <= |s| && AllSpace(s[..i]) && AllSpace(s[i + |r|..])
  {
    var t := StripStart(s);
    StripStartRemovesSpace(s);
    StripEndRemovesSpace(t);
    StripIsSlice(s);
  }

  lemma StripEndsOnText(s: string)
    ensures var r := Strip(s); r != [] ==> !IsSpace(r[0]) && !IsSpace(r[|r| - 1])
  {
    var t := StripStart(s);
    StripStartRemovesSpace(s);
    var r := StripEnd(t);
    StripEndRemovesSpace(t);
    assert r != [] ==> r[0] == t[0];
  }

  /** A front part `r` of the suffix `t == s[i..]` is the slice of `s` that starts at `i`. */
  lemma SliceOfSuffix(s: string, i: nat, t: string, r: string)
    requires i <= |s| && t == s[i..] && |r| <= |t| && r == t[..|r|]
    ensures r == s[i..i + |r|] && s[i + |r|..] == t[|r|..]
  {
  }

  /** `s.strip()` is empty exactly when `s` is all whitespace. */
  lemma StripEmpty(s: string)
    ensures Strip(s) == [] <==> AllSpace(s)
  {
    StripKeepsMiddle(s);
    var i := |s| - |StripStart(s)|;
    if Strip(s) == [] {
      assert s == s[..i] + s[i..];
    } else {
      assert !IsSpace(s[i]);
    }
  }

  /** `strip` adds no character: one absent from `s` is absent from `s.strip()`. */
  lemma StripAvoids(s: string, c: char)
    requires c !in s
    ensures c !in Strip(s)
  {
    StripKeepsMiddle(s);
    var r := Strip(s);
    var i := |s| - |StripStart(s)|;
    forall k | 0 <= k < |r|
      ensures r[k] != c
    {
      assert r[k] == s[i + k];
    }
  }

  /** `s.split(sep)`: the pieces between occurrences of `sep`, in order, empty ones included. */
  function Split(s: string, sep: char): (parts: seq<string>)
    ensures |parts| >= 1
    ensures forall k :: 0 <= k < |parts| ==> sep !in parts[k]
    decreases |s|
  {
    if s == [] then [[]]
    else
      var rest := Split(s[1..], sep);
      if s[0] == sep then [[]] + rest
      else [[s[0]] + rest[0]] + rest[1..]
  }

  /** `sep.join(parts)`. */
  function Join(parts: seq<string>, sep: char): string
    decreases |parts|
  {
    if |parts| == 0 then []
    else if |parts| == 1 then parts[0]
    else parts[0] + [sep] + Join(parts[1..], sep)
  }

  /** A character other than the separator occurs in a join only if it occurs in a piece. */
  lemma {:induction false} JoinAvoids(parts: seq<string>, sep: char, c: char)
    requires c != sep && forall k :: 0 <= k < |parts| ==> c !in parts[k]
    ensures c !in Join(parts, sep)
    decreases |parts|
  {
    if |parts| > 1 {
      JoinAvoids(parts[1..], sep, c);
    }
  }

  /** Splitting loses nothing: joining the pieces with the separator gives back the text. */
  lemma {:induction false} JoinSplit(s: string, sep: char)
    ensures Join(Split(s, sep), sep) == s
    decreases |s|
  {
    if s != [] {
      var rest := Split(s[1..], sep);
      JoinSplit(s[1..], sep);
      assert s == [s[0]] + s[1..];
      if s[0] == sep {
        SplitAtSeparator(s[1..], sep);
        JoinEmptyFirst([[]] + rest, sep);
        assert ([[]] + rest)[1..] == rest;
      } else {
        SplitAtChar(s[0], s[1..], sep);
        var parts := [[s[0]] + rest[0]] + rest[1..];
        JoinFirstChar(parts, sep);
        assert parts[0][1..] == rest[0] && parts[1..] == rest[1..];
        assert [rest[0]] + rest[1..] == rest;
      }
    }
  }

  /** Splitting is exact: separator-free pieces joined by the separator split back into themselves. */
  lemma {:induction false} SplitJoin(parts: seq<string>, sep: char)
    requires |parts| >= 1
    requires forall k :: 0 <= k < |parts| ==> sep !in parts[k]
    ensures Split(Join(parts, sep), sep) == parts
    decreases |parts|, |parts[0]|
  {
    if |parts[0]| == 0 {
      if |parts| > 1 {
        SplitJoin(parts[1..], sep);
        JoinEmptyFirst(parts, sep);
        SplitAtSeparator(Join(parts[1..], sep), sep);
        assert parts == [[]] + parts[1..];
      }
    } else {
      var c := parts[0][0];
      var shorter := [parts[0][1..]] + parts[1..];
      ShorterClean(parts, sep);
      SplitJoin(shorter, sep);
      JoinFirstChar(parts, sep);
      SplitAtChar(c, Join(shorter, sep), sep);
      assert [c] + shorter[0] == parts[0];
      assert shorter[1..] == parts[1..];
      assert parts == [parts[0]] + parts[1..];
    }
  }

  lemma JoinEmptyFirst(parts: seq<string>, sep: char)
    requires |parts| > 1 && parts[0] == []
    ensures Join(parts, sep) == [sep] + Join(parts[1..], sep)
  {
  }

  lemma JoinFirstChar(parts: seq<string>, sep: char)
    requires |parts| >= 1 && parts[0] != []
    ensures Join(parts, sep) == [parts[0][0]] + Join([parts[0][1..]] + parts[1..], sep)
  {
    var shorter := [parts[0][1..]] + parts[1..];
    assert parts[0] == [parts[0][0]] + parts[0][1..];
    if |parts| > 1 {
      assert shorter[1..] == parts[1..];
    }
  }

  lemma ShorterClean(parts: seq<string>, sep: char)
    requires |parts| >= 1 && parts[0] != []
    requires forall k :: 0 <= k < |parts| ==> sep !in parts[k]
    ensures parts[0][0] != sep
    ensures var shorter := [parts[0][1..]] + parts[1..];
      |shorter| == |parts| && forall k :: 0 <= k < |shorter| ==> sep !in shorter[k]
  {
    assert parts[0][0] in parts[0];
    var shorter := [parts[0][1..]] + parts[1..];
    forall k | 0 <= k < |shorter| ensures sep !in shorter[k] {
      if k > 0 {
        assert shorter[k] == parts[k];
      } else {
        assert forall x :: x in parts[0][1..] ==> x in parts[0];
      }
    }
  }

  lemma SplitAtSeparator(s: string, sep: char)
    ensures Split([sep] + s, sep) == [[]] + Split(s, sep)
  {
    assert ([sep] + s)[1..] == s;
  }

  lemma SplitAtChar(c: char, s: string, sep: char)
    requires c != sep
    ensures Split([c] + s, sep) == [[c] + Split(s, sep)[0]] + Split(s, sep)[1..]
  {
    assert ([c] + s)[1..] == s;
  }

  /** Two separator-free texts with one separator between them split back into the two. */
  lemma SplitPair(a: string, b: string, sep: char)
    requires sep !in a && sep !in b
    ensures Split(a + [sep] + b, sep) == [a, b]
  {
    var parts := [a, b];
    assert forall k :: 0 <= k < |parts| ==> sep !in parts[k];
    assert Join(parts, sep) == a + [sep] + b;
    SplitJoin(parts, sep);
  }

  /** Joining four pieces puts the separator between each pair of neighbours. */
  lemma JoinFour(w: string, x: string, y: string, z: string, sep: char)
    ensures Join([w, x, y, z], sep) == w + [sep] + x + [sep] + y + [sep] + z
  {
    var parts := [w, x, y, z];
    assert parts[1..] == [x, y, z] && parts[1..][1..] == [y, z] && parts[1..][1..][1..] == [z];
    assert Join([y, z], sep) == y + [sep] + z;
    assert Join([x, y, z], sep) == x + [sep] + (y + [sep] + z);
    assert Join(parts, sep) == w + [sep] + (x + [sep] + (y + [sep] + z));
  }

  /** Python's `str.lower()` for one character, on the ASCII letters. */
  function LowerChar(c: char): char {
    if 'A' <= c <= 'Z' then (c as int + 32) as char else c
  }

  /** `s.lower()` on ASCII letters, every other character unchanged. */
  function Lower(s: string): string {
    seq(|s|, k requires 0 <= k < |s| => LowerChar(s[k]))
  }

  /** `s` spells the word "true" in any mix of upper and lower case. */
  predicate SpellsTrue(s: string) {
    |s| == 4 && s[0] in "tT" && s[1] in "rR" && s[2] in "uU" && s[3] in "eE"
  }

  /** `s.lower() == "true"` holds exactly for the case variants of "true". */
  lemma LowerIsTrue(s: string)
    ensures Lower(s) == "true" <==> SpellsTrue(s)
  {
    if Lower(s) == "true" {
      var l := Lower(s);
      assert |s| == |l| == 4;
      assert l[0] == 't' && l[1] == 'r' && l[2] == 'u' && l[3] == 'e';
      assert LowerChar(s[0]) == 't' && LowerChar(s[1]) == 'r';
      assert LowerChar(s[2]) == 'u' && LowerChar(s[3]) == 'e';
    }
    if SpellsTrue(s) {
      assert Lower(s)[0] == 't' && Lower(s)[1] == 'r' && Lower(s)[2] == 'u' && Lower(s)[3] == 'e';
    }
  }

  /** Stripping twice is stripping once. */
  lemma StripIdempotent(s: string)
    ensures Strip(Strip(s)) == Strip(s)
  {
    StripKeepsMiddle(s);
    var r := Strip(s);
    if r != [] {
      StripUnpadded(r);
    }
  }

  /** Text that neither starts nor ends with whitespace is left as it is. */
  lemma StripUnpadded(s: string)
    requires s != [] && !IsSpace(s[0]) && !IsSpace(s[|s| - 1])
    ensures Strip(s) == s
  {
  }
}
