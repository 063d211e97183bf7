/**
 * The handful of Python `str` operations the launcher relies on, on
 * `seq<char>`: `isspace`, `strip`, `lower`, `capitalize`, `startswith`,
 * `endswith`, the `in` substring test and `split` on one separator.
 * Case mapping covers ASCII letters only.
 */
module Strings {

  /** Python's `str.isspace()` on one character (the full Unicode list). */
  predicate IsSpace(c: char) {
    var k := c as int;
    k == 0x20 || 0x09 <= k <= 0x0D || 0x1C <= k <= 0x1F || k == 0x85 || k == 0xA0
    || k == 0x1680 || 0x2000 <= k <= 0x200A || k == 0x2028 || k == 0x2029
    || k == 0x202F || k == 0x205F || k == 0x3000
  }

  predicate AllSpace(s: string) {
    forall i :: 0 <= i < |s| ==> IsSpace(s[i])
  }

  /** No whitespace at either end: what `strip()` leaves behind. */
  predicate Trimmed(s: string) {
    s == [] || (!IsSpace(s[0]) && !IsSpace(s[|s| - 1]))
  }

  /** Drops leading whitespace; what it drops is all whitespace. */
  function LStrip(s: string): (r: string)
    ensures |r| <= |s| && r == s[|s| - |r|..]
    ensures forall i :: 0 <= i < |s| - |r| ==> IsSpace(s[i])
    ensures r == [] || !IsSpace(r[0])
  {
    if |s| > 0 && IsSpace(s[0]) then LStrip(s[1..]) else s
  }

  /** Drops trailing whitespace; what it drops is all whitespace. */
  function RStrip(s: string): (r: string)
    ensures |r| <= |s| && r == s[..|r|]
    ensures forall i :: |r| <= i < |s| ==> IsSpace(s[i])
    ensures r == [] || !IsSpace(r[|r| - 1])
  {
    if |s| > 0 && IsSpace(s[|s| - 1]) then RStrip(s[..|s| - 1]) else s
  }

  /** Python's `str.strip()` with no argument. */
  function Strip(s: string): (r: string)
    ensures |r| <= |s|
    ensures Trimmed(r)
  {
    RStrip(LStrip(s))
  }

  lemma {:induction false} LStripPadded(a: string, t: string)
    requires AllSpace(a)
    requires t == [] || !IsSpace(t[0])
    ensures LStrip(a + t) == t
  {
    if a != [] {
      assert (a + t)[1..] == a[1..] + t;
      LStripPadded(a[1..], t);
    }
  }

  lemma {:induction false} RStripPadded(t: string, b: string)
    requires AllSpace(b)
    requires t == [] || !IsSpace(t[|t| - 1])
    ensures RStrip(t + b) == t
  {
    if b != [] {
      assert (t + b)[..|t + b| - 1] == t + b[..|b| - 1];
      RStripPadded(t, b[..|b| - 1]);
    }
  }

  lemma {:induction false} LStripAllSpace(a: string)
    requires AllSpace(a)
    ensures LStrip(a) == []
  {
    if a != [] {
      LStripAllSpace(a[1..]);
    }
  }

  /** `strip()` removes exactly the whitespace around a trimmed text. */
  lemma StripPadded(a: string, t: string, b: string)
    requires AllSpace(a) && AllSpace(b) && Trimmed(t)
    ensures Strip(a + t + b) == t
  {
    if t == [] {
      assert a + t + b == a + b;
      LStripAllSpace(a + b);
    } else {
      assert a + t + b == a + (t + b);
      LStripPadded(a, t + b);
      RStripPadded(t, b);
    }
  }

  lemma StripTrailing(t: string, b: string)
    requires Trimmed(t) && AllSpace(b)
    ensures Strip(t + b) == t
  {
    StripPadded([], t, b);
    assert [] + t + b == t + b;
  }

  /** Whitespace added at the end does not change what `strip()` keeps. */
  lemma StripAppendSpace(s: string, b: string)
    requires AllSpace(b)
    ensures Strip(s + b) == Strip(s)
  {
    var l := LStrip(s);
    var r := RStrip(l);
    var a := s[..|s| - |l|];
    var c := l[|r|..];
    LStripSplit(s);
    RStripSplit(l);
    AllSpaceAppend(c, b);
    AppendAssoc(a, r, c);
    AppendAssoc(a + r, c, b);
    StripPadded(a, r, c + b);
  }

  lemma LStripSplit(s: string)
    ensures var a := s[..|s| - |LStrip(s)|]; AllSpace(a) && s == a + LStrip(s)
  {
    SplitSpace(s, 0, |s| - |LStrip(s)|);
  }

  lemma RStripSplit(l: string)
    ensures var c := l[|RStrip(l)|..]; AllSpace(c) && l == RStrip(l) + c
  {
    SplitSpace(l, |RStrip(l)|, |l|);
  }

  /** A stretch of whitespace cut out of `s`, and what is around it. */
  lemma SplitSpace(s: string, lo: nat, hi: nat)
    requires lo <= hi <= |s|
    requires forall i :: lo <= i < hi ==> IsSpace(s[i])
    ensures AllSpace(s[lo..hi])
    ensures s == s[..lo] + s[lo..hi] + s[hi..]
  {
    forall i | 0 <= i < hi - lo ensures IsSpace(s[lo..hi][i]) {
      assert s[lo..hi][i] == s[lo + i];
    }
  }

  lemma AllSpaceAppend(x: string, y: string)
    requires AllSpace(x) && AllSpace(y)
    ensures AllSpace(x + y)
  {
    forall i | 0 <= i < |x + y| ensures IsSpace((x + y)[i]) {
      if i >= |x| {
        assert (x + y)[i] == y[i - |x|];
      }
    }
  }

  /** `strip()` is idempotent. */
  lemma StripIdempotent(s: string)
    ensures Strip(Strip(s)) == Strip(s)
  {
    StripPadded([], Strip(s), []);
    assert [] + Strip(s) + [] == Strip(s);
  }

  function LowerChar(c: char): char {
    if 'A' <= c <= 'Z' then (c as int + 32) as char else c
  }

  function UpperChar(c: char): char {
    if 'a' <= c <= 'z' then (c as int - 32) as char else c
  }

  /** Python's `str.lower()` on ASCII letters. */
  function Lower(s: string): (r: string)
    ensures |r| == |s|
    ensures forall i :: 0 <= i < |s| ==> r[i] == LowerChar(s[i])
  {
    if s == [] then []
    else
      var r := [LowerChar(s[0])] + Lower(s[1..]);
      assert forall i :: 1 <= i < |s| ==> r[i] == Lower(s[1..])[i - 1];
      r
  }

  /** Python's `str.capitalize()`: first character upper case, all others lower. */
  function Capitalize(s: string): (r: string)
    ensures |r| == |s|
  {
    if s == [] then [] else [UpperChar(s[0])] + Lower(s[1..])
  }

  /** Capitalized text: no lower-case letter first, no upper-case letter after. */
  predicate IsCapitalized(s: string) {
    (s != [] ==> !('a' <= s[0] <= 'z'))
    && forall i :: 0 < i < |s| ==> !('A' <= s[i] <= 'Z')
  }

  /**
   * `capitalize()` yields capitalized text, changes only the case of
   * letters, and is the identity on capitalized text.
   */
  lemma CapitalizeShape(s: string)
    ensures IsCapitalized(Capitalize(s))
    ensures forall i :: 0 <= i < |s| ==> LowerChar(Capitalize(s)[i]) == LowerChar(s[i])
    ensures IsCapitalized(s) ==> Capitalize(s) == s
  {
    if s != [] {
      var r := Capitalize(s);
      CapitalizeChars(s);
      assert !('a' <= r[0] <= 'z');
      if IsCapitalized(s) {
        assert forall i :: 0 <= i < |s| ==> r[i] == s[i];
      }
    }
  }

  lemma CapitalizeChars(s: string)
    requires s != []
    ensures Capitalize(s)[0] == UpperChar(s[0])
    ensures forall i :: 0 < i < |s| ==> Capitalize(s)[i] == LowerChar(s[i])
  {
    var r := Capitalize(s);
    forall i | 0 < i < |s| ensures r[i] == LowerChar(s[i]) {
      assert r[i] == Lower(s[1..])[i - 1];
    }
  }

  predicate StartsWith(s: string, prefix: string) {
    |prefix| <= |s| && s[..|prefix|] == prefix
  }

  predicate EndsWith(s: string, suffix: string) {
    |suffix| <= |s| && s[|s| - |suffix|..] == suffix
  }

  /** Python's `sub in s` on strings. */
  predicate Contains(s: string, sub: string)
    decreases |s|
  {
    StartsWith(s, sub) || (|s| > 0 && Contains(s[1..], sub))
  }

  /** `sub` is the slice of `s` starting at `i`. */
  predicate OccursAt(s: string, sub: string, i: int) {
    0 <= i && i + |sub| <= |s| && s[i..i + |sub|] == sub
  }

  /** An occurrence of `sub` at any position makes `Contains` hold. */
  lemma {:induction false} ContainsAt(s: string, sub: string, i: nat)
    requires i + |sub| <= |s| && s[i..i + |sub|] == sub
    ensures Contains(s, sub)
    decreases i
  {
    if i > 0 {
      assert s[1..][i - 1..i - 1 + |sub|] == s[i..i + |sub|];
      ContainsAt(s[1..], sub, i - 1);
    }
  }

  /** `Contains` holds only when `sub` occurs at some position. */
  lemma {:induction false} ContainsOccurs(s: string, sub: string)
    requires Contains(s, sub)
    ensures exists i :: OccursAt(s, sub, i)
    decreases |s|
  {
    if StartsWith(s, sub) {
      assert OccursAt(s, sub, 0);
    } else {
      ContainsOccurs(s[1..], sub);
      var j :| OccursAt(s[1..], sub, j);
      assert s[1..][j..j + |sub|] == s[j + 1..j + 1 + |sub|];
      assert OccursAt(s, sub, j + 1);
    }
  }

  /** `Contains` holds exactly when `sub` occurs at some position of `s`. */
  lemma ContainsIff(s: string, sub: string)
    ensures Contains(s, sub) <==> exists i :: OccursAt(s, sub, i)
  {
    if Contains(s, sub) {
      ContainsOccurs(s, sub);
    }
    if exists i :: OccursAt(s, sub, i) {
      var i :| OccursAt(s, sub, i);
      ContainsAt(s, sub, i);
    }
  }

  /** Concatenation of sequences is associative. */
  lemma AppendAssoc<T>(a: seq<T>, b: seq<T>, c: seq<T>)
    ensures a + b + c == a + (b + c)
  {
  }

  /** Python's `str.split(sep)` with a one-character separator. */
  function Split(s: string, sep: char): (parts: seq<string>)
    ensures |parts| >= 1
    ensures forall k :: 0 <= k < |parts| ==> sep !in parts[k]
  {
    if s == [] then [[]]
    else
      var rest := Split(s[1..], sep);
      if s[0] == sep then [[]] + rest else [[s[0]] + rest[0]] + rest[1..]
  }

  /** Python's `sep.join(parts)`. */
  function Join(parts: seq<string>, sep: char): string
    requires |parts| >= 1
  {
    if |parts| == 1 then parts[0] else parts[0] + [sep] + Join(parts[1..], sep)
  }

  /** Joining the pieces of a split restores the string. */
  lemma {:induction false} JoinSplit(s: string, sep: char)
    ensures Join(Split(s, sep), sep) == s
  {
    if s != [] {
      var rest := Split(s[1..], sep);
      JoinSplit(s[1..], sep);
      if s[0] == sep {
        assert Split(s, sep)[1..] == rest;
      } else {
        var parts := Split(s, sep);
        if |rest| == 1 {
          assert parts == [[s[0]] + rest[0]];
        } else {
          assert parts[1..] == rest[1..];
          assert Join(rest, sep) == rest[0] + [sep] + Join(rest[1..], sep);
        }
      }
    }
  }

  lemma {:induction false} SplitSepFree(p: string, x: string, sep: char)
    requires sep !in p
    ensures Split(p + x, sep) == [p + Split(x, sep)[0]] + Split(x, sep)[1..]
  {
    if p != [] {
      assert (p + x)[1..] == p[1..] + x;
      SplitSepFree(p[1..], x, sep);
      assert [p[0]] + (p[1..] + Split(x, sep)[0]) == p + Split(x, sep)[0];
    } else {
      var sx := Split(x, sep);
      assert p + x == x;
      assert p + sx[0] == sx[0];
      assert sx == [sx[0]] + sx[1..];
    }
  }

  /** Splitting a join of separator-free pieces gives the pieces back. */
  lemma {:induction false} SplitJoin(parts: seq<string>, sep: char)
    requires |parts| >= 1
    requires forall k :: 0 <= k < |parts| ==> sep !in parts[k]
    ensures Split(Join(parts, sep), sep) == parts
  {
    if |parts| == 1 {
      SplitSepFree(parts[0], [], sep);
      assert parts[0] + [] == parts[0];
    } else {
      var tail := Join(parts[1..], sep);
      SplitJoin(parts[1..], sep);
      assert parts[0] + [sep] + tail == parts[0] + ([sep] + tail);
      SplitSepFree(parts[0], [sep] + tail, sep);
      assert ([sep] + tail)[1..] == tail;
      assert Split([sep] + tail, sep) == [[]] + parts[1..];
      assert parts[0] + [] == parts[0];
    }
  }

  /** Appending a non-separator character extends the last piece. */
  lemma {:induction false} SplitAppend(s: string, c: char, sep: char)
    requires c != sep
    ensures var p := Split(s, sep);
            Split(s + [c], sep) == p[..|p| - 1] + [p[|p| - 1] + [c]]
  {
    if s == [] {
      assert s + [c] == [c];
      assert [c][1..] == [];
      assert Split([c], sep) == [[c] + Split([], sep)[0]] + Split([], sep)[1..];
      assert Split([], sep) == [[]];
      assert [c] + [] == [c];
      assert Split([c], sep) == [[c]];
      assert Split(s, sep) == [[]];
      assert [] + [c] == [c];
    } else {
      assert (s + [c])[1..] == s[1..] + [c];
      SplitAppend(s[1..], c, sep);
      var rest := Split(s[1..], sep);
      if s[0] != sep && |rest| == 1 {
        assert [s[0]] + (rest[0] + [c]) == ([s[0]] + rest[0]) + [c];
      }
    }
  }

  /** `s.split(sep)[0]`: the text before the first separator. */
  function FirstPart(s: string, sep: char): (r: string)
    ensures sep !in r
  {
    Split(s, sep)[0]
  }

  /** The first part is the longest separator-free prefix. */
  lemma {:induction false} FirstPartIsPrefix(s: string, sep: char)
    ensures StartsWith(s, FirstPart(s, sep))
    ensures |FirstPart(s, sep)| == |s| || s[|FirstPart(s, sep)|] == sep
  {
    if s != [] && s[0] != sep {
      FirstPartIsPrefix(s[1..], sep);
    }
  }

  /** `s.rsplit(sep)[-1]`: the text after the last separator. */
  function LastPart(s: string, sep: char): (r: string)
    ensures sep !in r
  {
    var parts := Split(s, sep);
    parts[|parts| - 1]
  }

  /** The last part is a suffix of the string. */
  lemma {:induction false} LastPartIsSuffix(s: string, sep: char)
    ensures EndsWith(s, LastPart(s, sep))
  {
    if s != [] {
      var rest := Split(s[1..], sep);
      LastPartIsSuffix(s[1..], sep);
      if s[0] != sep && |rest| == 1 {
        JoinSplit(s[1..], sep);
        assert LastPart(s, sep) == [s[0]] + s[1..];
        assert [s[0]] + s[1..] == s;
      } else {
        assert LastPart(s, sep) == LastPart(s[1..], sep);
        assert s[1..][|s[1..]| - |LastPart(s, sep)|..] == s[|s| - |LastPart(s, sep)|..];
      }
    }
  }

  /** The last part is the longest: it is the whole string or starts right after a separator. */
  lemma {:induction false} LastPartMaximal(s: string, sep: char)
    ensures |LastPart(s, sep)| <= |s|
    ensures |LastPart(s, sep)| == |s| || s[|s| - |LastPart(s, sep)| - 1] == sep
  {
    if s != [] {
      var rest := Split(s[1..], sep);
      LastPartMaximal(s[1..], sep);
      if s[0] != sep && |rest| == 1 {
        JoinSplit(s[1..], sep);
        assert LastPart(s, sep) == [s[0]] + s[1..];
      } else {
        var n := |LastPart(s, sep)|;
        assert LastPart(s, sep) == LastPart(s[1..], sep);
        if n < |s| - 1 {
          assert s[1..][|s| - 1 - n - 1] == s[|s| - n - 1];
        } else if s[0] != sep {
          // the last part would be all of s[1..], which holds a separator
          LastPartIsSuffix(s[1..], sep);
          assert LastPart(s, sep) == s[1..];
          JoinSplit(s[1..], sep);
          assert false;
        }
      }
    }
  }

  /** The code points of a string: Python compares strings by these. */
  function Codes(s: string): (r: seq<int>)
    ensures |r| == |s|
    ensures forall i :: 0 <= i < |s| ==> r[i] == s[i] as int
  {
    seq(|s|, i requires 0 <= i < |s| => s[i] as int)
  }
}
