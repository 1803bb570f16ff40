/** The handful of JavaScript string operations the store relies on:
    `trim`, `toLowerCase`/`toUpperCase`, `includes`, `startsWith`, `split`
    and `join`. Strings are sequences of characters. */
module Text {

  /** The characters `String.prototype.trim` removes and the regular-expression
      class `\s` matches: the ECMAScript WhiteSpace and LineTerminator sets. */
  predicate IsSpace(c: char) {
    || c == '\t' || c == '\n' || c == '\U{000B}' || c == '\U{000C}' || c == '\r' || c == ' '
    || c == '\U{00A0}' || c == '\U{1680}' || ('\U{2000}' <= c <= '\U{200A}')
    || c == '\U{2028}' || c == '\U{2029}' || c == '\U{202F}' || c == '\U{205F}'
    || c == '\U{3000}' || c == '\U{FEFF}'
  }

  predicate AllSpace(s: string) {
    forall i :: 0 <= i < |s| ==> IsSpace(s[i])
  }

  /** The number of white-space characters at the front of `s`. */
  function LeadingSpaces(s: string): (k: nat)
    ensures k <= |s|
    ensures AllSpace(s[..k])
    ensures k < |s| ==> !IsSpace(s[k])
  {
    if |s| > 0 && IsSpace(s[0]) then
      var k' := LeadingSpaces(s[1..]);
      k' + 1
    else 0
  }

  /** The number of white-space characters at the back of `s`. */
  function TrailingSpaces(s: string): (k: nat)
    ensures k <= |s|
    ensures AllSpace(s[|s| - k..])
    ensures k < |s| ==> !IsSpace(s[|s| - k - 1])
  {
    if |s| > 0 && IsSpace(s[|s| - 1]) then
      var k' := TrailingSpaces(s[..|s| - 1]);
      k' + 1
    else 0
  }

  /** `String.prototype.trim`: `s` without its leading and trailing white space.
      The result is the piece of `s` that follows the leading white space, and
      what follows the result in `s` is white space too. */
  function Trim(s: string): (r: string)
    ensures |r| == 0 <==> AllSpace(s)
    ensures |r| > 0 ==> !IsSpace(r[0]) && !IsSpace(r[|r| - 1])
    ensures LeadingSpaces(s) + |r| <= |s|
    ensures r == s[LeadingSpaces(s)..LeadingSpaces(s) + |r|]
    ensures AllSpace(s[LeadingSpaces(s) + |r|..])
  {
    var a := LeadingSpaces(s);
    var rest := s[a..];
    var b := TrailingSpaces(rest);
    var r := rest[..|rest| - b];
    assert s[a + |r|..] == rest[|rest| - b..];
    assert |r| == 0 ==> s == s[..a] + rest[|rest| - b..];
    r
  }

  /** `s` has no white space at either end. */
  predicate Trimmed(s: string) {
    |s| == 0 || (!IsSpace(s[0]) && !IsSpace(s[|s| - 1]))
  }

  /** Trimming a trimmed string, with or without one blank in front, gives the
      string back. */
  lemma {:induction false} TrimPadded(x: string)
    requires Trimmed(x)
    ensures Trim(x) == x
    ensures Trim([' '] + x) == x
  {
    TrimOfTrimmedTail(x, 0);
    var s := [' '] + x;
    assert s[1..] == x;
    assert LeadingSpaces(s) == 1 + LeadingSpaces(x);
    TrimOfTrimmedTail(s, 1);
  }

  /** A string of `k` blanks followed by a trimmed string trims to the latter. */
  lemma {:induction false} TrimOfTrimmedTail(s: string, k: nat)
    requires k <= |s| && AllSpace(s[..k]) && Trimmed(s[k..])
    requires LeadingSpaces(s) == k || |s[k..]| == 0
    ensures Trim(s) == s[k..]
  {
    var r := Trim(s);
    var a := LeadingSpaces(s);
    if |s[k..]| == 0 {
      assert AllSpace(s) by {
        assert s == s[..k];
      }
      assert |r| == 0;
    } else {
      assert a == k;
      assert r == s[k..];
    }
  }

  /** `toLowerCase` on one character, for Basic Latin and Latin-1 Supplement. */
  function LowerChar(c: char): char {
    if 'A' <= c <= 'Z' || ('\U{00C0}' <= c <= '\U{00DE}' && c != '\U{00D7}') then
      (c as int + 32) as char
    else c
  }

  /** `toUpperCase` on one character, for Basic Latin and Latin-1 Supplement
      letters whose upper case is one Latin-1 character. */
  function UpperChar(c: char): char {
    if 'a' <= c <= 'z' || ('\U{00E0}' <= c <= '\U{00FE}' && c != '\U{00F7}') then
      (c as int - 32) as char
    else c
  }

  /** `String.prototype.toLowerCase`, character by character. */
  function Lower(s: string): (r: string)
    ensures |r| == |s|
    ensures forall i :: 0 <= i < |s| ==> r[i] == LowerChar(s[i])
  {
    seq(|s|, i requires 0 <= i < |s| => LowerChar(s[i]))
  }

  /** `String.prototype.toUpperCase`, character by character. */
  function Upper(s: string): (r: string)
    ensures |r| == |s|
    ensures forall i :: 0 <= i < |s| ==> r[i] == UpperChar(s[i])
  {
    seq(|s|, i requires 0 <= i < |s| => UpperChar(s[i]))
  }

  /** `s.substring(start, end)` for `start <= end`: positions past the end of
      `s` are clamped to its length. */
  function Substring(s: string, start: nat, end: nat): (r: string)
    requires start <= end
    ensures |r| == (if end <= |s| then end else |s|) - (if start <= |s| then start else |s|)
    ensures forall i :: 0 <= i < |r| ==> r[i] == s[start + i]
  {
    var a := if start <= |s| then start else |s|;
    var b := if end <= |s| then end else |s|;
    s[a..b]
  }

  /** `needle` sits in `hay` starting at index `i`. */
  ghost predicate PrefixAt(needle: string, hay: string, i: int) {
    0 <= i && i + |needle| <= |hay| && hay[i..i + |needle|] == needle
  }

  /** `needle` is a contiguous piece of `hay`. */
  ghost predicate Occurs(needle: string, hay: string) {
    exists i :: PrefixAt(needle, hay, i)
  }

  /** `String.prototype.startsWith`. */
  predicate StartsWith(s: string, prefix: string) {
    |prefix| <= |s| && s[..|prefix|] == prefix
  }

  /** `String.prototype.includes`, by scanning the start positions left to right. */
  predicate Includes(hay: string, needle: string)
    decreases |hay|
  {
    StartsWith(hay, needle) || (|hay| > 0 && Includes(hay[1..], needle))
  }

  /** The scan finds `needle` exactly when it occurs somewhere in `hay`. */
  lemma {:induction false} IncludesIsOccurs(hay: string, needle: string)
    ensures Includes(hay, needle) <==> Occurs(needle, hay)
    decreases |hay|
  {
    if StartsWith(hay, needle) {
      assert PrefixAt(needle, hay, 0);
    } else if |hay| > 0 {
      IncludesIsOccurs(hay[1..], needle);
      if Includes(hay[1..], needle) {
        var i :| PrefixAt(needle, hay[1..], i);
        assert hay[1..][i..i + |needle|] == hay[i + 1..i + 1 + |needle|];
        assert PrefixAt(needle, hay, i + 1);
      }
      if Occurs(needle, hay) {
        var i :| PrefixAt(needle, hay, i);
        assert i != 0;
        assert hay[1..][i - 1..i - 1 + |needle|] == hay[i..i + |needle|];
        assert PrefixAt(needle, hay[1..], i - 1);
      }
    }
  }

  /** The number of occurrences of `c` in `s`. */
  function CountChar(s: string, c: char): nat {
    if |s| == 0 then 0 else (if s[0] == c then 1 else 0) + CountChar(s[1..], c)
  }

  /** `s.split(sep)` for a one-character separator: the pieces between the
      separators, one more piece than there are separators, none containing
      the separator. */
  function Split(s: string, sep: char): (parts: seq<string>)
    ensures |parts| == CountChar(s, sep) + 1
    ensures forall i :: 0 <= i < |parts| ==> sep !in parts[i]
  {
    if |s| == 0 then [""]
    else
      var rest := Split(s[1..], sep);
      if s[0] == sep then [""] + rest
      else [[s[0]] + rest[0]] + rest[1..]
  }

  /** `parts.join(sep)` for a one-character separator. */
  function Join(parts: seq<string>, sep: char): string {
    if |parts| == 0 then ""
    else if |parts| == 1 then parts[0]
    else parts[0] + [sep] + Join(parts[1..], sep)
  }

  /** Joining the pieces of a split restores the original string. */
  lemma {:induction false} JoinSplit(s: string, sep: char)
    ensures Join(Split(s, sep), sep) == s
  {
    if |s| > 0 {
      var rest := Split(s[1..], sep);
      JoinSplit(s[1..], sep);
      if s[0] == sep {
        assert ([""] + rest)[1..] == rest;
        assert s == [sep] + s[1..];
      } else {
        var parts := [[s[0]] + rest[0]] + rest[1..];
        if |rest| == 1 {
          assert s == [s[0]] + s[1..];
        } else {
          assert parts[1..] == rest[1..];
          assert Join(rest, sep) == rest[0] + [sep] + Join(rest[1..], sep);
          assert s == [s[0]] + s[1..];
        }
      }
    }
  }

  /** Splitting a string that begins with a separator-free piece `a`. */
  lemma {:induction false} SplitAfterPiece(a: string, t: string, sep: char)
    requires sep !in a
    ensures var rest := Split(t, sep); Split(a + t, sep) == [a + rest[0]] + rest[1..]
  {
    if |a| > 0 {
      SplitAfterPiece(a[1..], t, sep);
      var rest := Split(t, sep);
      var inner := [a[1..] + rest[0]] + rest[1..];
      assert (a + t)[0] == a[0] && (a + t)[1..] == a[1..] + t;
      assert Split(a + t, sep) == [[a[0]] + inner[0]] + inner[1..];
      assert inner[1..] == rest[1..];
      assert [a[0]] + (a[1..] + rest[0]) == a + rest[0];
    } else {
      assert a + t == t;
      var rest := Split(t, sep);
      assert a + rest[0] == rest[0];
      assert rest == [rest[0]] + rest[1..];
    }
  }

  /** Splitting the join of separator-free pieces gives the pieces back. */
  lemma {:induction false} SplitJoin(parts: seq<string>, sep: char)
    requires |parts| > 0
    requires forall i :: 0 <= i < |parts| ==> sep !in parts[i]
    ensures Split(Join(parts, sep), sep) == parts
  {
    if |parts| == 1 {
      SplitAfterPiece(parts[0], "", sep);
      assert parts[0] + "" == parts[0];
    } else {
      var tail := Join(parts[1..], sep);
      SplitJoin(parts[1..], sep);
      SplitAfterPiece(parts[0], [sep] + tail, sep);
      assert ([sep] + tail)[1..] == tail;
      assert Split([sep] + tail, sep) == [""] + parts[1..];
      assert parts[0] + "" == parts[0];
      assert parts[0] + [sep] + tail == parts[0] + ([sep] + tail);
      assert parts == [parts[0]] + parts[1..];
    }
  }
}
