/**
 * The Python string operations that `is_merged` applies to the output of
 * `git branch --merged`: `str.splitlines`, `str.replace("*", "")` and `str.strip`.
 * Strings are sequences of Unicode scalar values, as Python's `str` is.
 */
module PyText {
  import Seqs

  /** The characters for which Python's `str.isspace()` holds. */
  predicate IsSpace(c: char) {
    ('\t' <= c <= '\r') || ('\U{1c}' <= c <= '\U{1f}') || c == ' ' || c == '\U{85}' || c == '\U{a0}'
    || c == '\U{1680}' || ('\U{2000}' <= c <= '\U{200a}') || c == '\U{2028}' || c == '\U{2029}'
    || c == '\U{202f}' || c == '\U{205f}' || c == '\U{3000}'
  }

  /** The characters at which Python's `str.splitlines()` ends a line ("\r\n" counts once). */
  predicate IsLineBoundary(c: char) {
    ('\n' <= c <= '\r') || ('\U{1c}' <= c <= '\U{1e}') || c == '\U{85}' || c == '\U{2028}' || c == '\U{2029}'
  }

  lemma LineBoundaryIsSpace(c: char)
    ensures IsLineBoundary(c) ==> IsSpace(c)
  {
  }

  predicate NoLineBoundary(s: string) {
    forall k :: 0 <= k < |s| ==> !IsLineBoundary(s[k])
  }

  /** The index of the first line boundary in `s`, or `|s|` when there is none. */
  function FirstBoundary(s: string): (i: nat)
    ensures i <= |s|
    ensures forall k :: 0 <= k < i ==> !IsLineBoundary(s[k])
    ensures i < |s| ==> IsLineBoundary(s[i])
  {
    if s == [] || IsLineBoundary(s[0]) then 0 else 1 + FirstBoundary(s[1..])
  }

  /**
   * Python's `s.splitlines()`: the lines of `s` without their terminators; a
   * terminator at the very end does not start another, empty, line.
   */
  function SplitLines(s: string): (lines: seq<string>)
    ensures forall k :: 0 <= k < |lines| ==> NoLineBoundary(lines[k])
    ensures s == [] <==> lines == []
    decreases |s|
  {
    if s == [] then []
    else
      var i := FirstBoundary(s);
      if i == |s| then [s]
      else
        var next := if s[i] == '\r' && i + 1 < |s| && s[i + 1] == '\n' then i + 2 else i + 1;
        [s[..i]] + SplitLines(s[next..])
  }

  /** `"\n".join(lines)`. */
  function JoinLines(lines: seq<string>): (s: string)
    ensures |lines| > 0 ==> lines[0] <= s
  {
    if |lines| == 0 then ""
    else if |lines| == 1 then lines[0]
    else lines[0] + "\n" + JoinLines(lines[1..])
  }

  /** A line without terminators, a "\n" and a non-empty rest split into the line and the rest's lines. */
  lemma SplitAfterLine(first: string, rest: string)
    requires NoLineBoundary(first) && rest != []
    ensures SplitLines(first + "\n" + rest) == [first] + SplitLines(rest)
  {
    var s := first + "\n" + rest;
    assert s[|first|] == '\n';
    assert forall k :: 0 <= k < |first| ==> s[k] == first[k];
    assert FirstBoundary(s) == |first|;
    assert s[..|first|] == first;
    assert s[|first| + 1..] == rest;
  }

  /** Splitting undoes joining, for non-empty lines without terminators. */
  lemma {:induction false} SplitJoin(lines: seq<string>)
    requires forall k :: 0 <= k < |lines| ==> lines[k] != [] && NoLineBoundary(lines[k])
    ensures SplitLines(JoinLines(lines)) == lines
  {
    if |lines| == 1 {
      assert FirstBoundary(lines[0]) == |lines[0]|;
    } else if |lines| > 1 {
      var rest := JoinLines(lines[1..]);
      assert rest != [] by { assert lines[1..][0] <= rest; }
      SplitAfterLine(lines[0], rest);
      SplitJoin(lines[1..]);
    }
  }

  /** Python's `s.lstrip()`: drops the longest all-whitespace prefix. */
  function StripLeading(s: string): (r: string)
    ensures |r| <= |s| && r == s[|s| - |r|..]
    ensures forall k :: 0 <= k < |s| - |r| ==> IsSpace(s[k])
    ensures r == [] || !IsSpace(r[0])
  {
    if s != [] && IsSpace(s[0]) then StripLeading(s[1..]) else s
  }

  /** Python's `s.rstrip()`: drops the longest all-whitespace suffix. */
  function StripTrailing(s: string): (r: string)
    ensures |r| <= |s| && r == s[..|r|]
    ensures forall k :: |r| <= k < |s| ==> IsSpace(s[k])
    ensures r == [] || !IsSpace(r[|r| - 1])
  {
    if s != [] && IsSpace(s[|s| - 1]) then StripTrailing(s[..|s| - 1]) else s
  }

  /** Python's `s.strip()`. */
  function Strip(s: string): string {
    StripTrailing(StripLeading(s))
  }

  /**
   * What `strip` leaves: a slice of the input with only whitespace cut from either
   * end and no whitespace left at either end; nothing of an all-whitespace input.
   */
  lemma StripIsSlice(s: string)
    ensures Strip(s) == [] ==> forall k :: 0 <= k < |s| ==> IsSpace(s[k])
    ensures Strip(s) != [] ==> !IsSpace(Strip(s)[0]) && !IsSpace(Strip(s)[|Strip(s)| - 1])
    ensures exists i :: (
      && 0 <= i <= |s| - |Strip(s)| && Strip(s) <= s[i..]
      && (forall k :: 0 <= k < i ==> IsSpace(s[k]))
      && (forall k :: i + |Strip(s)| <= k < |s| ==> IsSpace(s[k])))
  {
    var t := StripLeading(s);
    var r := StripTrailing(t);
    var i := |s| - |t|;
    assert t == s[i..];
    assert r <= s[i..];
    assert forall k :: 0 <= k < i ==> IsSpace(s[k]);
    assert forall k :: i + |r| <= k < |s| ==> IsSpace(s[k]) by {
      forall k | i + |r| <= k < |s| ensures IsSpace(s[k]) {
        assert s[k] == t[k - i];
      }
    }
  }

  /** Python's `s.replace("*", "")`. */
  function DropStars(s: string): (r: string)
    ensures '*' !in r
    ensures forall c :: c != '*' ==> multiset(r)[c] == multiset(s)[c]
    ensures Seqs.IsSubsequence(r, s)
  {
    Seqs.FilterIsSubsequence(c => c != '*', s);
    Seqs.FilterMembership(c => c != '*', s);
    Seqs.FilterCounts(c => c != '*', s);
    Seqs.Filter(c => c != '*', s)
  }

  /** What `is_merged` makes of one output line: `line.replace("*", "").strip()`. */
  function CleanLine(line: string): string {
    Strip(DropStars(line))
  }

  /** A name that survives `CleanLine` unchanged and cannot be mistaken for a marker. */
  predicate PlainName(name: string) {
    name != [] && '*' !in name && forall k :: 0 <= k < |name| ==> !IsSpace(name[k])
  }

  lemma PlainNameStrips(name: string)
    requires PlainName(name)
    ensures StripLeading(name) == name && StripTrailing(name) == name
    ensures StripLeading(" " + name) == name
  {
    assert (" " + name)[1..] == name;
  }

  lemma StarLineCleans(name: string)
    requires PlainName(name)
    ensures CleanLine("* " + name) == name
  {
    var keep := c => c != '*';
    Seqs.FilterKeepsAll(keep, name);
    Seqs.FilterAppend(keep, "* ", name);
    assert Seqs.Filter(keep, "* ") == " " by {
      assert "* "[1..] == " ";
      Seqs.FilterKeepsAll(keep, " ");
    }
    assert DropStars("* " + name) == " " + name;
    PlainNameStrips(name);
  }

  lemma SpaceLineCleans(name: string)
    requires PlainName(name)
    ensures CleanLine("  " + name) == name
  {
    var keep := c => c != '*';
    Seqs.FilterKeepsAll(keep, "  " + name);
    PlainNameStrips(name);
    assert StripLeading("  " + name) == name by {
      assert ("  " + name)[1..] == " " + name;
    }
  }

  lemma EdgesStrip(t: string)
    requires t != [] && !IsSpace(t[0]) && !IsSpace(t[|t| - 1])
    ensures Strip(t) == t
  {
    assert StripLeading(t) == t;
  }

  lemma PlusLineStays(name: string)
    requires PlainName(name)
    ensures CleanLine("+ " + name) == "+ " + name
  {
    var plus := "+ " + name;
    Seqs.FilterKeepsAll(c => c != '*', plus);
    assert DropStars(plus) == plus;
    assert plus[|plus| - 1] == name[|name| - 1];
    EdgesStrip(plus);
  }

  /** A marker of "* " or "  " in front of a plain name is cleaned away; "+ " is not. */
  lemma CleanMarkedLine(name: string)
    requires PlainName(name)
    ensures CleanLine("* " + name) == name
    ensures CleanLine("  " + name) == name
    ensures CleanLine("+ " + name) == "+ " + name
  {
    StarLineCleans(name);
    SpaceLineCleans(name);
    PlusLineStays(name);
  }
}
