/**
 * The Python string operations the benchmark scripts rely on, written out character
 * by character: str.isspace (also the `\s` class of `re` and what strip()
 * removes), rstrip/lstrip/strip, startswith/endswith, str.find and `in`,
 * str.splitlines and "\n".join.
 */
module Text {
  import opened Common

  /**
   * Python's str.isspace for one character: the Unicode whitespace
   * characters, written as ranges of code points.
   */
  predicate IsSpace(c: char) {
    || '\t' <= c <= '\r' || '\U{001C}' <= c <= ' '
    || c == '\U{0085}' || c == '\U{00A0}' || c == '\U{1680}'
    || '\U{2000}' <= c <= '\U{200A}' || c == '\U{2028}' || c == '\U{2029}'
    || c == '\U{202F}' || c == '\U{205F}' || c == '\U{3000}'
  }

  /**
   * The characters at which str.splitlines ends a line ("\r\n" ends one
   * line, not two).
   */
  predicate IsLineBreak(c: char) {
    || '\n' <= c <= '\r' || '\U{001C}' <= c <= '\U{001E}'
    || c == '\U{0085}' || c == '\U{2028}' || c == '\U{2029}'
  }

  predicate AllSpace(s: string) {
    forall i :: 0 <= i < |s| ==> IsSpace(s[i])
  }

  predicate NoLineBreak(s: string) {
    forall i :: 0 <= i < |s| ==> !IsLineBreak(s[i])
  }

  /** str.rstrip(): the longest prefix of s that does not end in whitespace. */
  function RStrip(s: string): string
  {
    if s == [] || !IsSpace(s[|s| - 1]) then s else RStrip(s[..|s| - 1])
  }

  /** rstrip removes exactly the trailing whitespace: what it drops is space, what it keeps does not end in space. */
  lemma {:induction false} RStripMeaning(s: string)
    ensures RStrip(s) <= s
    ensures RStrip(s) == [] || !IsSpace(RStrip(s)[|RStrip(s)| - 1])
    ensures AllSpace(s[|RStrip(s)|..])
  {
    if s != [] && IsSpace(s[|s| - 1]) {
      var t := s[..|s| - 1];
      RStripMeaning(t);
      var r := RStrip(t);
      assert s[|r|..] == t[|r|..] + [s[|s| - 1]];
    }
  }

  /** str.lstrip(): the longest suffix of s that does not start with whitespace. */
  function LStrip(s: string): string
  {
    if s == [] || !IsSpace(s[0]) then s else LStrip(s[1..])
  }

  /** lstrip removes exactly the leading whitespace. */
  lemma {:induction false} LStripMeaning(s: string)
    ensures |LStrip(s)| <= |s| && LStrip(s) == s[|s| - |LStrip(s)|..]
    ensures LStrip(s) == [] || !IsSpace(LStrip(s)[0])
    ensures AllSpace(s[..|s| - |LStrip(s)|])
  {
    if s != [] && IsSpace(s[0]) {
      var t := s[1..];
      LStripMeaning(t);
      var r := LStrip(t);
      assert s[..|s| - |r|] == [s[0]] + t[..|t| - |r|];
    }
  }

  /** str.strip(). */
  function Strip(s: string): string {
    LStrip(RStrip(s))
  }

  /** `if line.strip()` is false exactly for the lines made only of whitespace. */
  lemma StripEmptyIffAllSpace(s: string)
    ensures Strip(s) == [] <==> AllSpace(s)
  {
    var t := RStrip(s);
    RStripMeaning(s);
    LStripMeaning(t);
    if Strip(s) == [] {
      if t != [] {
        LStripKeepsLast(t);
      }
      assert s[|t|..] == s;
    }
  }

  /** A text that ends in a non-space character keeps a character under lstrip. */
  lemma {:induction false} LStripKeepsLast(s: string)
    requires s != [] && !IsSpace(s[|s| - 1])
    ensures LStrip(s) != []
  {
    if IsSpace(s[0]) {
      assert s[1..][|s| - 2] == s[|s| - 1];
      LStripKeepsLast(s[1..]);
    }
  }

  predicate StartsWith(s: string, p: string) {
    |p| <= |s| && s[..|p|] == p
  }

  predicate EndsWith(s: string, p: string) {
    |p| <= |s| && s[|s| - |p|..] == p
  }

  predicate OccursAt(s: string, p: string, i: nat) {
    i + |p| <= |s| && s[i..i + |p|] == p
  }

  /** str.find(p, from): the first position at or after `from` where p occurs. */
  function Find(s: string, p: string, from: nat): (r: Option<nat>)
    decreases |s| - from
    ensures r.Some? ==> from <= r.value && OccursAt(s, p, r.value)
  {
    if from + |p| > |s| then None
    else if OccursAt(s, p, from) then Some(from)
    else Find(s, p, from + 1)
  }

  /** str.find reports the first occurrence: none lies between `from` and it. */
  lemma {:induction false} FindMeaning(s: string, p: string, from: nat)
    decreases |s| - from
    ensures forall i :: from <= i && (Find(s, p, from).None? || i < Find(s, p, from).value) ==> !OccursAt(s, p, i)
  {
    if from + |p| <= |s| && s[from..from + |p|] != p {
      FindMeaning(s, p, from + 1);
    }
  }

  /** Python's `p in s` for strings. */
  predicate Contains(s: string, p: string) {
    Find(s, p, 0).Some?
  }

  lemma ContainsIffOccurs(s: string, p: string)
    ensures Contains(s, p) <==> exists i :: OccursAt(s, p, i)
  {
    FindMeaning(s, p, 0);
    if Contains(s, p) {
      assert OccursAt(s, p, Find(s, p, 0).value);
    }
  }

  /** An occurrence at k with none between `from` and k is the one str.find reports. */
  lemma FindIsFirst(s: string, p: string, from: nat, k: nat)
    requires from <= k && OccursAt(s, p, k)
    requires forall i :: from <= i < k ==> !OccursAt(s, p, i)
    ensures Find(s, p, from) == Some(k)
  {
    FindMeaning(s, p, from);
  }

  /** The index of the first line break at or after i, or |s| when there is none. */
  function LineEnd(s: string, i: nat): (e: nat)
    requires i <= |s|
    decreases |s| - i
    ensures i <= e <= |s|
    ensures e < |s| ==> IsLineBreak(s[e])
    ensures forall j :: i <= j < e ==> !IsLineBreak(s[j])
  {
    if i == |s| || IsLineBreak(s[i]) then i else LineEnd(s, i + 1)
  }

  /**
   * str.splitlines(): the lines of s without their terminators; a final
   * terminator does not open an empty last line, and "" has no lines.
   */
  function SplitLines(s: string): (lines: seq<string>)
    decreases |s|
    ensures forall l :: l in lines ==> NoLineBreak(l)
  {
    if s == [] then []
    else
      var e := LineEnd(s, 0);
      if e == |s| then [s]
      else
        var next := if s[e] == '\r' && e + 1 < |s| && s[e + 1] == '\n' then e + 2 else e + 1;
        [s[..e]] + SplitLines(s[next..])
  }

  /** "\n".join(lines). */
  function JoinLines(lines: seq<string>): string {
    if lines == [] then []
    else if |lines| == 1 then lines[0]
    else lines[0] + "\n" + JoinLines(lines[1..])
  }

  /**
   * Joining lines that hold no line break, the last of them non-empty, and
   * splitting the text again gives the same lines back.
   */
  lemma {:induction false} SplitLinesJoinLines(lines: seq<string>)
    requires forall l :: l in lines ==> NoLineBreak(l)
    requires lines == [] || lines[|lines| - 1] != []
    ensures SplitLines(JoinLines(lines)) == lines
  {
    if lines == [] {
    } else if |lines| == 1 {
      var l := lines[0];
      assert l in lines;
      assert LineEnd(l, 0) == |l|;
    } else {
      var l, rest := lines[0], JoinLines(lines[1..]);
      assert l in lines;
      var s := l + "\n" + rest;
      assert forall j :: 0 <= j < |l| ==> s[j] == l[j];
      assert s[|l|] == '\n';
      assert LineEnd(s, 0) == |l|;
      assert s[..|l|] == l;
      assert s[|l| + 1..] == rest;
      SplitLinesJoinLines(lines[1..]);
    }
  }
}
