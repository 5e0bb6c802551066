/**
 * The text helpers of benchmark_infer.py that turn a model's answer into
 * Verilog: get_code (the last ```verilog block after the last
 * "## Code Implementation" marker), get_code_wo_notes (the same, without
 * comments and blank lines) and extract_verilog (module header and body).
 *
 * The regular expressions are written out as left-to-right scans:
 *   re.findall(r"```verilog\s*(.*?)```", s, re.DOTALL)  is FindBlocks,
 *   re.sub(r"/\*.*?\*\/", "", s, flags=re.DOTALL)       is StripBlockComments,
 *   re.sub(r"//.*", "", s)                              is StripLineComments.
 */
module CodeExtract {
  import opened Common
  import opened Text

  const Marker: string := "## Code Implementation"
  const Opener: string := "```verilog"
  const Fence: string := "```"
  /** The two delimiters of a block comment, slash-star and star-slash. */
  const BlockOpen: string := "/*"
  const BlockClose: string := "*/"

  // ---------------------------------------------------------------------
  // s.split(p)[-1]

  /**
   * Where s.split(p)[-1] starts when the split scans from `from`: after the
   * last occurrence of p that a left-to-right search for non-overlapping
   * occurrences finds, or at `from` when there is none.
   */
  function LastPieceStart(s: string, p: string, from: nat): (start: nat)
    requires p != [] && from <= |s|
    decreases |s| - from
    ensures from <= start <= |s|
    ensures start == from || (|p| <= start && OccursAt(s, p, start - |p|))
    ensures forall i: nat :: start <= i ==> !OccursAt(s, p, i)
  {
    FindMeaning(s, p, from);
    match Find(s, p, from)
    case None => from
    case Some(i) => LastPieceStart(s, p, i + |p|)
  }

  /** s.split(p)[-1]: the text after the last occurrence of p, or all of s. */
  function AfterLast(s: string, p: string): string
    requires p != []
  {
    s[LastPieceStart(s, p, 0)..]
  }

  // ---------------------------------------------------------------------
  // re.findall(r"```verilog\s*(.*?)```", s, re.DOTALL)

  /** The end of the whitespace run starting at i (the greedy \s*). */
  function SkipSpace(s: string, i: nat): (j: nat)
    requires i <= |s|
    decreases |s| - i
    ensures i <= j <= |s|
  {
    if i == |s| || !IsSpace(s[i]) then i else SkipSpace(s, i + 1)
  }

  /** The greedy \s* takes the whole whitespace run and stops at the first other character. */
  lemma {:induction false} SkipSpaceMeaning(s: string, i: nat)
    requires i <= |s|
    decreases |s| - i
    ensures forall k :: i <= k < SkipSpace(s, i) ==> IsSpace(s[k])
    ensures SkipSpace(s, i) == |s| || !IsSpace(s[SkipSpace(s, i)])
  {
    if i < |s| && IsSpace(s[i]) {
      SkipSpaceMeaning(s, i + 1);
    }
  }

  /** One match of the fence pattern: opener at `open`, text from `start` up to the fence at `close`. */
  datatype Match = Match(open: nat, start: nat, close: nat) {
    /** Where the next search starts: just after the closing fence. */
    function After(): nat {
      close + |Fence|
    }
  }

  /**
   * The first match at or after `from`: the first opener, the whitespace
   * after it, and the first closing fence after that whitespace. If that
   * opener has no fence after it, no later one has either (FirstMatchExists).
   */
  function FirstMatch(s: string, from: nat): (r: Option<Match>)
    ensures r.Some? ==> from <= r.value.open && BlockAt(s, r.value.open, r.value.close)
    ensures r.Some? ==> r.value.start == SkipSpace(s, r.value.open + |Opener|) <= r.value.close <= |s|
    ensures r.Some? ==> forall i :: from <= i < r.value.open ==> !OccursAt(s, Opener, i)
  {
    FindMeaning(s, Opener, from);
    match Find(s, Opener, from)
    case None => None
    case Some(o) =>
      var w := SkipSpace(s, o + |Opener|);
      match Find(s, Fence, w)
      case None => None
      case Some(c) => Some(Match(o, w, c))
  }

  // The scan of findall, for any search function `first` that returns a
  // match at or after the position it is given: take the first match, go on
  // after its closing fence, stop when the search finds nothing.

  /** `first` finds matches at or after the position it is given, inside a text of length bound. */
  ghost predicate Forward(first: nat -> Option<Match>, bound: nat) {
    forall x: nat :: first(x).Some? ==> x <= first(x).value.open <= first(x).value.start <= first(x).value.close <= bound
  }

  /** Searching again from a match's own opener finds that match. */
  ghost predicate Reentrant(first: nat -> Option<Match>) {
    forall x: nat, m: Match {:trigger first(x), first(m.open)} :: first(x) == Some(m) ==> first(m.open) == Some(m)
  }

  /**
   * The matches the scan collects from `from` on. A match that lies outside
   * from..bound would end the scan; a Forward search never returns one.
   */
  function Chain(first: nat -> Option<Match>, bound: nat, from: nat): (ms: seq<Match>)
    decreases bound + |Fence| - from
    ensures forall i :: 0 <= i < |ms| ==> from <= ms[i].open <= ms[i].start <= ms[i].close <= bound
  {
    match first(from)
    case None => []
    case Some(m) =>
      if from <= m.open <= m.start <= m.close <= bound then [m] + Chain(first, bound, m.After()) else []
  }

  /**
   * The chain starts with the first search's match and each later match is
   * what the search finds after the previous closing fence.
   */
  lemma {:induction false} ChainLinks(first: nat -> Option<Match>, bound: nat, from: nat)
    requires Forward(first, bound)
    decreases bound - from
    ensures var ms := Chain(first, bound, from);
      && (ms == [] <==> first(from) == None)
      && (ms != [] ==> first(from) == Some(ms[0]))
      && forall i :: 0 <= i < |ms| - 1 ==> first(ms[i].After()) == Some(ms[i + 1])
  {
    if first(from).Some? {
      var m := first(from).value;
      var rest := Chain(first, bound, m.After());
      var ms := Chain(first, bound, from);
      assert ms == [m] + rest;
      ChainLinks(first, bound, m.After());
      forall i | 0 <= i < |ms| - 1 ensures first(ms[i].After()) == Some(ms[i + 1]) {
        if i > 0 {
          assert ms[i] == rest[i - 1] && ms[i + 1] == rest[i];
        }
      }
    }
  }

  /** Every match of the chain is found again from its own opener. */
  lemma {:induction false} ChainFoundAgain(first: nat -> Option<Match>, bound: nat, from: nat)
    requires Forward(first, bound) && Reentrant(first)
    decreases bound - from
    ensures var ms := Chain(first, bound, from);
      forall i :: 0 <= i < |ms| ==> first(ms[i].open) == Some(ms[i])
  {
    if first(from).Some? {
      var m := first(from).value;
      var ms := Chain(first, bound, from);
      ChainFoundAgain(first, bound, m.After());
      assert ms == [m] + Chain(first, bound, m.After());
      forall i | 0 <= i < |ms| ensures first(ms[i].open) == Some(ms[i]) {
        if i > 0 {
          assert ms[i] == Chain(first, bound, m.After())[i - 1];
        }
      }
    }
  }

  /** After the closing fence of the chain's last match the search finds nothing. */
  lemma {:induction false} ChainEnds(first: nat -> Option<Match>, bound: nat, from: nat)
    requires Forward(first, bound)
    decreases bound - from
    ensures var ms := Chain(first, bound, from);
      ms != [] ==> first(ms[|ms| - 1].After()) == None
  {
    if first(from).Some? {
      var m := first(from).value;
      var rest := Chain(first, bound, m.After());
      assert Chain(first, bound, from) == [m] + rest;
      ChainEnds(first, bound, m.After());
    }
  }

  /** The last match of the chain, if any. */
  function ChainLast(first: nat -> Option<Match>, bound: nat, from: nat): Option<Match> {
    var ms := Chain(first, bound, from);
    if ms == [] then None else Some(ms[|ms| - 1])
  }

  /** The chain's last match is found again from its opener, and the search ends after it. */
  lemma ChainLastMeaning(first: nat -> Option<Match>, bound: nat, from: nat)
    requires Forward(first, bound) && Reentrant(first) && first(from).Some?
    ensures ChainLast(first, bound, from).Some?
    ensures first(ChainLast(first, bound, from).value.open) == ChainLast(first, bound, from)
    ensures first(ChainLast(first, bound, from).value.After()) == None
  {
    ChainFoundAgain(first, bound, from);
    ChainEnds(first, bound, from);
  }

  /** FirstMatch as a search function. */
  function Searcher(s: string): nat -> Option<Match> {
    (x: nat) => FirstMatch(s, x)
  }

  /** FirstMatch searches forward and finds a match again from its opener. */
  lemma SearcherIsForward(s: string)
    ensures Forward(Searcher(s), |s|) && Reentrant(Searcher(s))
  {
    forall x: nat | FirstMatch(s, x).Some?
      ensures FirstMatch(s, FirstMatch(s, x).value.open) == FirstMatch(s, x)
    {
      FirstMatchAtOpen(s, x);
    }
  }

  /** The matches re.findall visits from `from` on, in order. */
  function Scan(s: string, from: nat): seq<Match> {
    Chain(Searcher(s), |s|, from)
  }

  /**
   * re.findall: the text of every match at or after `from`; the next search
   * starts after each match's fence. An opener with no fence after it ends
   * the search: no later opener can have one either.
   */
  function FindBlocks(s: string, from: nat): (blocks: seq<string>)
    ensures blocks == [] <==> FirstMatch(s, from).None?
  {
    var ms := Scan(s, from);
    seq(|ms|, i requires 0 <= i < |ms| => s[ms[i].start..ms[i].close])
  }

  /**
   * The scan of findall: empty exactly when the first search fails; else its
   * first match is the first search's, each next one is the search after the
   * previous closing fence, the search after the last one fails, and the
   * strings returned are the texts of these matches.
   */
  lemma ScanMeaning(s: string, from: nat)
    ensures var ms := Scan(s, from);
      && (ms == [] <==> FirstMatch(s, from) == None)
      && (ms != [] ==> FirstMatch(s, from) == Some(ms[0]))
      && (forall i :: 0 <= i < |ms| - 1 ==> FirstMatch(s, ms[i].After()) == Some(ms[i + 1]))
      && (ms != [] ==> FirstMatch(s, ms[|ms| - 1].After()) == None)
      && |FindBlocks(s, from)| == |ms|
      && forall i :: 0 <= i < |ms| ==> FindBlocks(s, from)[i] == s[ms[i].start..ms[i].close]
  {
    SearcherIsForward(s);
    ChainLinks(Searcher(s), |s|, from);
    ChainEnds(Searcher(s), |s|, from);
    forall x: nat ensures Searcher(s)(x) == FirstMatch(s, x) {
      SearcherAt(s, x);
    }
  }

  /** Some opener at or after `from` has a fence somewhere after it. */
  ghost predicate HasBlock(s: string, from: nat) {
    exists o: nat, c: nat :: from <= o && o + |Opener| <= c && OccursAt(s, Opener, o) && OccursAt(s, Fence, c)
  }

  /**
   * The match whose opener is at o and whose closing fence is at c: the
   * whitespace after the opener is skipped and the fence is the first one
   * after it.
   */
  predicate BlockAt(s: string, o: nat, c: nat) {
    OccursAt(s, Opener, o) && Find(s, Fence, SkipSpace(s, o + |Opener|)) == Some(c)
  }

  /** A backtick is never whitespace, so a fence cannot start inside a whitespace run. */
  lemma FenceNotInSpace(s: string, o: nat, c: nat)
    requires OccursAt(s, Opener, o) && o + |Opener| <= c && OccursAt(s, Fence, c)
    ensures SkipSpace(s, o + |Opener|) <= c
  {
    SkipSpaceMeaning(s, o + |Opener|);
    assert !IsSpace(s[c]) by {
      assert s[c] == s[c..c + |Fence|][0];
    }
  }

  /** There is a first match exactly when some opener has a fence after it. */
  lemma FirstMatchExists(s: string, from: nat)
    ensures FirstMatch(s, from).Some? <==> HasBlock(s, from)
  {
    FindMeaning(s, Opener, from);
    match Find(s, Opener, from)
    case None =>
    case Some(o) =>
      var w := SkipSpace(s, o + |Opener|);
      FindMeaning(s, Fence, w);
      match Find(s, Fence, w)
      case None =>
        forall o': nat, c: nat | from <= o' && o' + |Opener| <= c && OccursAt(s, Opener, o') && OccursAt(s, Fence, c)
          ensures false
        {
          FenceNotInSpace(s, o, c);
        }
      case Some(c) =>
        assert OccursAt(s, Fence, c);
  }

  /** With no first match there is no opener with a fence after it. */
  lemma NoBlockWithoutMatch(s: string, from: nat)
    requires FirstMatch(s, from) == None
    ensures !HasBlock(s, from)
  {
    FirstMatchExists(s, from);
  }

  /** findall returns nothing exactly when no opener has a fence after it. */
  lemma FindBlocksEmpty(s: string, from: nat)
    ensures FindBlocks(s, from) == [] <==> !HasBlock(s, from)
  {
    FirstMatchExists(s, from);
  }

  /** A match is also the first match searched for from its own opener. */
  lemma FirstMatchAtOpen(s: string, from: nat)
    requires FirstMatch(s, from).Some?
    ensures FirstMatch(s, FirstMatch(s, from).value.open) == FirstMatch(s, from)
  {
    var m := FirstMatch(s, from).value;
    assert OccursAt(s, Opener, m.open);
    assert Find(s, Opener, m.open) == Some(m.open);
    assert Find(s, Opener, from) == Some(m.open);
  }

  /** The last match at or after `from`, if any. */
  function LastMatch(s: string, from: nat): (r: Option<Match>)
    ensures r.Some? <==> FirstMatch(s, from).Some?
    ensures r.Some? ==> from <= r.value.open && r.value.start <= r.value.close <= |s|
  {
    ChainLast(Searcher(s), |s|, from)
  }

  /**
   * The last match is one the scan finds from its own opener, and no match
   * starts after its closing fence.
   */
  lemma LastMatchMeaning(s: string, from: nat)
    requires FirstMatch(s, from).Some?
    ensures from <= LastMatch(s, from).value.open
    ensures FirstMatch(s, LastMatch(s, from).value.open) == LastMatch(s, from)
    ensures FirstMatch(s, LastMatch(s, from).value.After()) == None
  {
    LastMatchFoundAgain(s, from);
    LastMatchEnds(s, from);
  }

  lemma LastMatchFoundAgain(s: string, from: nat)
    requires FirstMatch(s, from).Some?
    ensures FirstMatch(s, LastMatch(s, from).value.open) == LastMatch(s, from)
  {
    var o := LastMatch(s, from).value.open;
    assert Searcher(s)(o) == LastMatch(s, from) by {
      SearcherAt(s, from);
      SearcherIsForward(s);
      ChainLastMeaning(Searcher(s), |s|, from);
      LastMatchIsChainLast(s, from);
    }
    SearcherAt(s, o);
  }

  lemma LastMatchEnds(s: string, from: nat)
    requires FirstMatch(s, from).Some?
    ensures FirstMatch(s, LastMatch(s, from).value.After()) == None
  {
    var y := LastMatch(s, from).value.After();
    assert Searcher(s)(y) == None by {
      SearcherAt(s, from);
      SearcherIsForward(s);
      ChainLastMeaning(Searcher(s), |s|, from);
      LastMatchIsChainLast(s, from);
    }
    SearcherAt(s, y);
  }

  lemma SearcherAt(s: string, x: nat)
    ensures Searcher(s)(x) == FirstMatch(s, x)
  {
  }

  lemma LastMatchIsChainLast(s: string, from: nat)
    ensures LastMatch(s, from) == ChainLast(Searcher(s), |s|, from)
  {
  }

  /** The last match is a block: its text starts after the whitespace that follows its opener. */
  lemma LastMatchIsBlock(s: string, from: nat)
    requires FirstMatch(s, from).Some?
    ensures var m := LastMatch(s, from).value;
      BlockAt(s, m.open, m.close) && m.start == SkipSpace(s, m.open + |Opener|)
  {
    LastMatchFoundAgain(s, from);
  }

  /** No opener after the last match's closing fence has a fence after it. */
  lemma NoBlockAfterLast(s: string, from: nat)
    requires FirstMatch(s, from).Some?
    ensures !HasBlock(s, LastMatch(s, from).value.After())
  {
    LastMatchEnds(s, from);
    NoBlockWithoutMatch(s, LastMatch(s, from).value.After());
  }

  /** The last string findall returns is the text of the last match. */
  lemma LastBlockText(s: string, from: nat)
    requires FirstMatch(s, from).Some?
    ensures Last(FindBlocks(s, from)) == s[LastMatch(s, from).value.start..LastMatch(s, from).value.close]
  {
  }

  /**
   * When some opener has a fence after it, the last string findall returns
   * is the text of the scan's last match: a block after which no opener has
   * a fence after it.
   */
  lemma LastBlockOf(s: string)
    requires HasBlock(s, 0)
    ensures Scan(s, 0) != [] && FindBlocks(s, 0) != []
    ensures LastMatch(s, 0) == Some(Scan(s, 0)[|Scan(s, 0)| - 1])
    ensures var m := LastMatch(s, 0).value;
      && BlockAt(s, m.open, m.close) && m.start == SkipSpace(s, m.open + |Opener|)
      && Last(FindBlocks(s, 0)) == s[m.start..m.close]
      && !HasBlock(s, m.After())
  {
    FirstMatchExists(s, 0);
    LastMatchIsBlock(s, 0);
    LastBlockText(s, 0);
    NoBlockAfterLast(s, 0);
  }

  function Last(xs: seq<string>): string
    requires xs != []
  {
    xs[|xs| - 1]
  }

  // ---------------------------------------------------------------------
  // get_code

  /** get_code: the last block after the last marker, or that whole tail when it has none. */
  function GetCode(content: string): string {
    var tail := AfterLast(content, Marker);
    var blocks := FindBlocks(tail, 0);
    if blocks != [] then Last(blocks) else tail
  }

  /** A slice of a text in which p never occurs has no occurrence of p either. */
  lemma NoOccurrenceInSlice(s: string, p: string, a: nat, b: nat)
    requires a <= b <= |s| && forall i: nat :: a <= i ==> !OccursAt(s, p, i)
    ensures forall i: nat :: !OccursAt(s[a..b], p, i)
  {
    forall i: nat | OccursAt(s[a..b], p, i) ensures false {
      var u, v := s[a..b][i..i + |p|], s[a + i..a + i + |p|];
      forall k | 0 <= k < |p| ensures u[k] == v[k] {
      }
      assert u == v;
      assert OccursAt(s, p, a + i);
    }
  }

  /**
   * s.split(p)[-1] is the text after the last occurrence of p (all of s when
   * there is none), and p does not occur in it.
   */
  lemma AfterLastMeaning(s: string, p: string)
    requires p != []
    ensures var start := LastPieceStart(s, p, 0);
      && AfterLast(s, p) == s[start..]
      && (start == 0 || (|p| <= start && OccursAt(s, p, start - |p|)))
      && forall i: nat :: !OccursAt(AfterLast(s, p), p, i)
  {
    var start := LastPieceStart(s, p, 0);
    NoOccurrenceInSlice(s, p, start, |s|);
    assert s[start..|s|] == AfterLast(s, p);
  }

  /**
   * When no ```verilog opener in the tail after the last marker has a fence
   * after it, get_code returns that whole tail.
   */
  lemma GetCodeWithoutBlock(content: string)
    requires !HasBlock(AfterLast(content, Marker), 0)
    ensures GetCode(content) == AfterLast(content, Marker)
  {
    FindBlocksEmpty(AfterLast(content, Marker), 0);
  }

  /**
   * Otherwise get_code returns the text of the last match findall's scan of
   * that tail visits: from after its opener and the whitespace that follows
   * up to the first fence after that, with no complete block after it.
   */
  lemma GetCodeWithBlock(content: string)
    requires HasBlock(AfterLast(content, Marker), 0)
    ensures var tail := AfterLast(content, Marker);
      var ms := Scan(tail, 0);
      && ms != []
      && var m := ms[|ms| - 1];
        && BlockAt(tail, m.open, m.close) && m.start == SkipSpace(tail, m.open + |Opener|)
        && GetCode(content) == tail[m.start..m.close]
        && !HasBlock(tail, m.After())
  {
    LastBlockOf(AfterLast(content, Marker));
  }

  /** Either way the marker never occurs in what get_code returns. */
  lemma GetCodeHasNoMarker(content: string)
    ensures forall i: nat :: !OccursAt(GetCode(content), Marker, i)
  {
    var tail := AfterLast(content, Marker);
    AfterLastMeaning(content, Marker);
    FindBlocksEmpty(tail, 0);
    if HasBlock(tail, 0) {
      FirstMatchExists(tail, 0);
      LastBlockText(tail, 0);
      var m := LastMatch(tail, 0).value;
      NoOccurrenceInSlice(tail, Marker, m.start, m.close);
    }
  }

  // ---------------------------------------------------------------------
  // Comment removal.

  /**
   * re.sub(r"/\*.*?\*\/", "", s, flags=re.DOTALL): drop each BlockOpen up to
   * and including the first BlockClose after it. An opener with no closer
   * after it is kept, and so is everything after it.
   */
  function StripBlockComments(s: string): (r: string)
    decreases |s|
    ensures |r| <= |s|
  {
    match Find(s, "/*", 0)
    case None => s
    case Some(o) =>
      match Find(s, "*/", o + 2)
      case None => s
      case Some(c) => s[..o] + StripBlockComments(s[c + 2..])
  }

  /** A text without a comment opener comes back unchanged. */
  lemma StripBlockCommentsIdle(s: string)
    requires forall i: nat :: !OccursAt(s, "/*", i)
    ensures StripBlockComments(s) == s
  {
    assert Find(s, "/*", 0).None?;
  }

  /** The index of the first '\n' at or after i, or |s|: where `.` stops matching. */
  function NewlineFrom(s: string, i: nat): (e: nat)
    requires i <= |s|
    decreases |s| - i
    ensures i <= e <= |s| && (e == |s| || s[e] == '\n')
    ensures forall j :: i <= j < e ==> s[j] != '\n'
  {
    if i == |s| || s[i] == '\n' then i else NewlineFrom(s, i + 1)
  }

  /** The first '\n' at or after i is at e (or there is none and e is |s|). */
  lemma NewlineFromIs(s: string, i: nat, e: nat)
    requires i <= e <= |s| && (e == |s| || s[e] == '\n')
    requires forall j :: i <= j < e ==> s[j] != '\n'
    ensures NewlineFrom(s, i) == e
  {
  }

  /** re.sub(r"//.*", "", s): drop each "//" up to (not including) the next '\n'. */
  function StripLineComments(s: string): (r: string)
    decreases |s|
    ensures |r| <= |s|
  {
    match Find(s, "//", 0)
    case None => s
    case Some(o) =>
      var e := NewlineFrom(s, o + 2);
      s[..o] + StripLineComments(s[e..])
  }

  /**
   * A two-character pattern p after a text a in which it does not occur,
   * not even across a's end and the first character of p: p is first found
   * right after a, the search starting at `from` at or before a's start.
   */
  lemma FindAfter(pre: string, a: string, p: string, t: string)
    requires |p| == 2 && forall i: nat :: !OccursAt(a + p[..1], p, i)
    ensures Find(pre + a + p + t, p, |pre|) == Some(|pre| + |a|)
  {
    var s := pre + a + p + t;
    var k := |pre| + |a|;
    assert s[k..k + 2] == p;
    forall i | |pre| <= i < k ensures !OccursAt(s, p, i) {
      var j: nat := i - |pre|;
      assert (a + p[..1])[j..j + 2] == s[i..i + 2];
      assert !OccursAt(a + p[..1], p, j);
    }
    FindIsFirst(s, p, |pre|, k);
  }

  /** In x + b + c, with no '\n' in b and c empty or starting a line, `.` stops at c. */
  lemma NewlineAfter(x: string, b: string, c: string)
    requires forall j :: 0 <= j < |b| ==> b[j] != '\n'
    requires c == [] || c[0] == '\n'
    ensures NewlineFrom(x + b + c, |x|) == |x| + |b|
  {
    var s := x + b + c;
    forall j | |x| <= j < |x| + |b| ensures s[j] != '\n' {
      assert s[j] == b[j - |x|];
    }
    NewlineFromIs(s, |x|, |x| + |b|);
  }

  /**
   * One block comment, stated without searching: text a with no opener,
   * then BlockOpen, a body b with no closer, BlockClose, and a rest c. It is removed
   * and the search goes on in c.
   */
  lemma StripBlockCommentsSplice(a: string, b: string, c: string)
    requires forall i: nat :: !OccursAt(a + "/", "/*", i)
    requires forall i: nat :: !OccursAt(b + "*", "*/", i)
    ensures StripBlockComments(a + "/*" + b + "*/" + c) == a + StripBlockComments(c)
  {
    var s := a + "/*" + b + "*/" + c;
    assert "/*"[..1] == "/" && "*/"[..1] == "*";
    var none: string := [];
    assert none + a + "/*" + (b + "*/" + c) == s by {
      assert none + a == a;
      assert a + "/*" + (b + "*/" + c) == a + "/*" + b + "*/" + c;
    }
    FindAfter(none, a, "/*", b + "*/" + c);
    FindAfter(a + "/*", b, "*/", c);
    var k := |a| + 2 + |b|;
    assert s[..|a|] == a && s[k + 2..] == c;
  }

  /**
   * One line comment, stated without searching: text a with no "//", then
   * "//", a body b with no '\n', and a rest c that is empty or starts a new
   * line. The comment is removed and the line break kept.
   */
  lemma StripLineCommentsSplice(a: string, b: string, c: string)
    requires forall i: nat :: !OccursAt(a + "/", "//", i)
    requires forall j :: 0 <= j < |b| ==> b[j] != '\n'
    requires c == [] || c[0] == '\n'
    ensures StripLineComments(a + "//" + b + c) == a + StripLineComments(c)
  {
    var s := a + "//" + b + c;
    assert "//"[..1] == "/";
    var none: string := [];
    assert none + a + "//" + (b + c) == s by {
      assert none + a == a;
      assert a + "//" + (b + c) == a + "//" + b + c;
    }
    FindAfter(none, a, "//", b + c);
    NewlineAfter(a + "//", b, c);
    var e := |a| + 2 + |b|;
    assert a + "//" + b + c == s;
    StripLineCommentsAt(s, |a|, e);
    assert s[..|a|] == a && s[e..] == c;
  }

  /** The first comment of s starts at o and its line ends at e. */
  lemma StripLineCommentsAt(s: string, o: nat, e: nat)
    requires Find(s, "//", 0) == Some(o) && NewlineFrom(s, o + 2) == e
    ensures StripLineComments(s) == s[..o] + StripLineComments(s[e..])
  {
  }

  /** Line-comment removal leaves no "//" behind. */
  lemma {:induction false} StripLineCommentsNoMarker(s: string)
    decreases |s|
    ensures forall i: nat :: !OccursAt(StripLineComments(s), "//", i)
  {
    FindMeaning(s, "//", 0);
    match Find(s, "//", 0)
    case None =>
    case Some(o) =>
      var e := NewlineFrom(s, o + 2);
      var rest := StripLineComments(s[e..]);
      StripLineCommentsNoMarker(s[e..]);
      StartOfLineCommentsFree(s[e..]);
      NoOccurrenceInPrefix(s, "//", o);
      NoMarkerInJoin(s[..o], rest);
      assert StripLineComments(s) == s[..o] + rest;
  }

  /** A prefix that ends before the first occurrence of p holds no occurrence of p. */
  lemma NoOccurrenceInPrefix(s: string, p: string, o: nat)
    requires p != [] && o <= |s| && forall i :: 0 <= i < o ==> !OccursAt(s, p, i)
    ensures forall i: nat :: !OccursAt(s[..o], p, i)
  {
    forall i: nat ensures !OccursAt(s[..o], p, i) {
      if i + |p| <= o {
        assert !OccursAt(s, p, i);
        assert s[..o][i..i + |p|] == s[i..i + |p|];
      }
    }
  }

  /** Line-comment removal never removes a line break. */
  lemma {:induction false} StripLineCommentsKeepsNewlines(s: string)
    decreases |s|
    ensures multiset(StripLineComments(s))['\n'] == multiset(s)['\n']
  {
    match Find(s, "//", 0)
    case None =>
    case Some(o) =>
      var e := NewlineFrom(s, o + 2);
      var rest := StripLineComments(s[e..]);
      StripLineCommentsKeepsNewlines(s[e..]);
      assert OccursAt(s, "//", o);
      assert s[o] == s[o..o + 2][0] && s[o + 1] == s[o..o + 2][1];
      NewlinesKept(s, o, e, rest);
      assert StripLineComments(s) == s[..o] + rest;
  }

  /** Replacing s[o..] by a text with as many line breaks as s[e..] keeps the count of s. */
  lemma NewlinesKept(s: string, o: nat, e: nat, rest: string)
    requires o <= e <= |s| && forall j :: o <= j < e ==> s[j] != '\n'
    requires multiset(rest)['\n'] == multiset(s[e..])['\n']
    ensures multiset(s[..o] + rest)['\n'] == multiset(s)['\n']
  {
    NewlinesOfJoin(s[..o], rest);
    NewlinesOfJoin(s[..o], s[e..]);
    NewlinesOfSplit(s, o, e);
  }

  lemma NewlinesOfJoin(x: string, y: string)
    ensures multiset(x + y)['\n'] == multiset(x)['\n'] + multiset(y)['\n']
  {
    assert multiset(x + y) == multiset(x) + multiset(y);
  }

  /** Gluing a "//"-free text to one that is empty or starts a line makes no "//". */
  lemma NoMarkerInJoin(a: string, b: string)
    requires forall i: nat :: !OccursAt(a, "//", i)
    requires forall i: nat :: !OccursAt(b, "//", i)
    requires b == [] || b[0] == '\n'
    ensures forall i: nat :: !OccursAt(a + b, "//", i)
  {
    var r := a + b;
    forall i: nat ensures !OccursAt(r, "//", i) {
      if i + 2 <= |a| {
        assert a[i..i + 2] == r[i..i + 2];
        assert !OccursAt(a, "//", i);
      } else if i >= |a| && i + 2 <= |r| {
        var j: nat := i - |a|;
        assert b[j..j + 2] == r[i..i + 2];
        assert !OccursAt(b, "//", j);
      } else if i + 2 <= |r| {
        assert r[i + 1] == b[0] == '\n';
        assert r[i..i + 2][1] == '\n';
      }
    }
  }

  /** A text that is empty or starts a line keeps its first character, the '\n'. */
  lemma StartOfLineCommentsFree(s: string)
    requires s == [] || s[0] == '\n'
    ensures StripLineComments(s) == [] || StripLineComments(s)[0] == '\n'
  {
    if s != [] {
      match Find(s, "//", 0)
      case None =>
      case Some(o) =>
        assert (s[..o] + StripLineComments(NewlineFromRest(s, o)))[0] == s[0];
    }
  }

  function NewlineFromRest(s: string, o: nat): string
    requires o + 2 <= |s|
  {
    s[NewlineFrom(s, o + 2)..]
  }

  /** Cutting s[o..e] (no '\n' in it) loses no line break. */
  lemma NewlinesOfSplit(s: string, o: nat, e: nat)
    requires o <= e <= |s| && forall j :: o <= j < e ==> s[j] != '\n'
    ensures multiset(s[..o] + s[e..])['\n'] == multiset(s)['\n']
  {
    var mid := s[o..e];
    assert s == s[..o] + mid + s[e..];
    assert '\n' !in mid;
    assert multiset(mid)['\n'] == 0;
  }

  // ---------------------------------------------------------------------
  // get_code_wo_notes

  /** [line.rstrip() for line in lines if line.strip()] */
  function KeepLines(lines: seq<string>): (kept: seq<string>)
    ensures |kept| <= |lines|
  {
    if lines == [] then []
    else (if Strip(lines[0]) != [] then [RStrip(lines[0])] else []) + KeepLines(lines[1..])
  }

  /** A line get_code_wo_notes keeps: non-empty, not blank, not ending in whitespace. */
  predicate CleanLine(l: string) {
    l != [] && !IsSpace(l[|l| - 1]) && !AllSpace(l)
  }

  /** Every kept line is clean. */
  lemma {:induction false} KeepLinesClean(lines: seq<string>)
    ensures forall i :: 0 <= i < |KeepLines(lines)| ==> CleanLine(KeepLines(lines)[i])
  {
    if lines != [] {
      var l := lines[0];
      var rest := KeepLines(lines[1..]);
      KeepLinesClean(lines[1..]);
      if Strip(l) != [] {
        KeepRStrip(l);
        var kept := [RStrip(l)] + rest;
        assert KeepLines(lines) == kept;
        forall i | 0 <= i < |kept| ensures CleanLine(kept[i]) {
          if i > 0 { assert kept[i] == rest[i - 1]; }
        }
      } else {
        assert KeepLines(lines) == rest;
      }
    }
  }

  /** Keeping lines introduces no line break. */
  lemma {:induction false} KeepLinesNoBreak(lines: seq<string>)
    requires forall i :: 0 <= i < |lines| ==> NoLineBreak(lines[i])
    ensures forall i :: 0 <= i < |KeepLines(lines)| ==> NoLineBreak(KeepLines(lines)[i])
  {
    if lines != [] {
      var l := lines[0];
      var rest := KeepLines(lines[1..]);
      KeepLinesNoBreak(lines[1..]);
      if Strip(l) != [] {
        KeepRStrip(l);
        assert KeepLines(lines) == [RStrip(l)] + rest;
      } else {
        assert KeepLines(lines) == rest;
      }
    }
  }

  /** A line with some non-space keeps a non-empty, non-blank right-stripped form. */
  lemma KeepRStrip(l: string)
    requires Strip(l) != []
    ensures CleanLine(RStrip(l))
    ensures NoLineBreak(l) ==> NoLineBreak(RStrip(l))
  {
    StripEmptyIffAllSpace(l);
    RStripMeaning(l);
    var r := RStrip(l);
    assert !IsSpace(r[|r| - 1]);
  }

  /** get_code_wo_notes: get_code, then comments dropped, then blank lines dropped and trailing blanks cut. */
  function GetCodeWoNotes(content: string): string {
    JoinLines(KeepLines(SplitLines(StripLineComments(StripBlockComments(GetCode(content))))))
  }

  /**
   * The lines of get_code_wo_notes's result are the kept lines themselves:
   * none of them is empty or whitespace only, and none ends in whitespace.
   */
  lemma GetCodeWoNotesLines(content: string)
    ensures var lines := SplitLines(GetCodeWoNotes(content));
      && lines == KeepLines(SplitLines(StripLineComments(StripBlockComments(GetCode(content)))))
      && forall i :: 0 <= i < |lines| ==> CleanLine(lines[i]) && NoLineBreak(lines[i])
  {
    var split := SplitLines(StripLineComments(StripBlockComments(GetCode(content))));
    var kept := KeepLines(split);
    KeepLinesClean(split);
    assert forall i :: 0 <= i < |split| ==> split[i] in split;
    KeepLinesNoBreak(split);
    assert forall l :: l in kept ==> NoLineBreak(l);
    if kept != [] {
      assert CleanLine(kept[|kept| - 1]);
    }
    SplitLinesJoinLines(kept);
  }

  // ---------------------------------------------------------------------
  // extract_verilog

  /** The stripped line starts a module declaration. */
  predicate OpensModule(line: string) {
    StartsWith(Strip(line), "module")
  }

  /** The stripped line ends a port list. */
  predicate EndsPorts(line: string) {
    EndsWith(Strip(line), ");")
  }

  /** Line j completes the header: it ends a port list at or after the first module line. */
  ghost predicate CompletesHeader(lines: seq<string>, j: int) {
    0 <= j < |lines| && EndsPorts(lines[j]) && exists i :: 0 <= i <= j && OpensModule(lines[i])
  }

  /** The index of the first line at or after i that satisfies OpensModule, if any. */
  function FirstModuleLine(lines: seq<string>, i: nat): (r: Option<nat>)
    decreases |lines| - i
    ensures r.Some? ==> i <= r.value < |lines| && OpensModule(lines[r.value])
    ensures forall j :: i <= j < |lines| && (r.None? || j < r.value) ==> !OpensModule(lines[j])
  {
    if i >= |lines| then None
    else if OpensModule(lines[i]) then Some(i)
    else FirstModuleLine(lines, i + 1)
  }

  /** The index of the first line at or after i that satisfies EndsPorts, if any. */
  function FirstPortsEnd(lines: seq<string>, i: nat): (r: Option<nat>)
    decreases |lines| - i
    ensures r.Some? ==> i <= r.value < |lines| && EndsPorts(lines[r.value])
    ensures forall j :: i <= j < |lines| && (r.None? || j < r.value) ==> !EndsPorts(lines[j])
  {
    if i >= |lines| then None
    else if EndsPorts(lines[i]) then Some(i)
    else FirstPortsEnd(lines, i + 1)
  }

  /** How many lines go to the header: through the first port-list end at or after the first module line. */
  function HeaderLength(lines: seq<string>): nat {
    match FirstModuleLine(lines, 0)
    case None => |lines|
    case Some(m) =>
      match FirstPortsEnd(lines, m)
      case None => |lines|
      case Some(j) => j + 1
  }

  /**
   * The header is the shortest prefix whose last line completes it: no
   * earlier line does, the last one does whenever any line does, and when
   * none does, every line is header and the body is empty.
   */
  lemma HeaderLengthMeaning(lines: seq<string>)
    ensures HeaderLength(lines) <= |lines|
    ensures forall j :: 0 <= j < HeaderLength(lines) - 1 ==> !CompletesHeader(lines, j)
    ensures (exists j :: CompletesHeader(lines, j)) <==> 1 <= HeaderLength(lines) && CompletesHeader(lines, HeaderLength(lines) - 1)
    ensures HeaderLength(lines) < |lines| ==> CompletesHeader(lines, HeaderLength(lines) - 1)
  {
    var h := HeaderLength(lines);
    match FirstModuleLine(lines, 0)
    case None =>
    case Some(m) =>
      match FirstPortsEnd(lines, m)
      case None =>
        assert forall j :: !CompletesHeader(lines, j);
      case Some(e) =>
        assert CompletesHeader(lines, e);
        assert forall j :: 0 <= j < e ==> !CompletesHeader(lines, j);
  }

  /** The loop of extract_verilog over the lines, with its two flags. */
  method SplitHeaderLines(lines: seq<string>) returns (headerLines: seq<string>, remainingLines: seq<string>)
    ensures headerLines == lines[..HeaderLength(lines)]
    ensures remainingLines == lines[HeaderLength(lines)..]
  {
    headerLines := [];
    remainingLines := [];
    var inModule := false;
    var headerComplete := false;
    var i := 0;
    while i < |lines|
      invariant i <= |lines|
      invariant Scanned(lines, i, inModule, headerComplete, headerLines, remainingLines)
    {
      inModule, headerComplete, headerLines, remainingLines :=
        ScanLine(lines, i, inModule, headerComplete, headerLines, remainingLines);
      i := i + 1;
    }
    HeaderLengthMeaning(lines);
    if !headerComplete {
      HeaderUnfinished(lines);
    }
  }

  /**
   * The state of the scan after the first i lines: the flags say whether a
   * module line and a complete header have been seen, the header holds the
   * lines read up to the end of the header, and the body the lines after it.
   */
  predicate Scanned(lines: seq<string>, i: nat, inModule: bool, headerComplete: bool, headerLines: seq<string>, remainingLines: seq<string>)
    requires i <= |lines|
  {
    var h := HeaderLength(lines);
    && (inModule <==> ModuleSeen(lines, i))
    && (headerComplete <==> HeaderSeen(lines, i))
    && (headerComplete ==> h <= i && headerLines == lines[..h] && remainingLines == lines[h..i])
    && (!headerComplete ==> headerLines == lines[..i] && remainingLines == [])
  }

  /** One iteration of the loop: line i goes to the header while it is incomplete, to the body after. */
  method ScanLine(lines: seq<string>, i: nat, inModule: bool, headerComplete: bool, headerLines: seq<string>, remainingLines: seq<string>)
    returns (inModule': bool, headerComplete': bool, headerLines': seq<string>, remainingLines': seq<string>)
    requires i < |lines| && Scanned(lines, i, inModule, headerComplete, headerLines, remainingLines)
    ensures Scanned(lines, i + 1, inModule', headerComplete', headerLines', remainingLines')
  {
    var line := lines[i];
    ScanStep(lines, i);
    if !headerComplete {
      assert lines[..i + 1] == lines[..i] + [line];
      headerLines', remainingLines' := headerLines + [line], remainingLines;
      inModule', headerComplete' := ReadHeaderLine(line, inModule);
    } else {
      assert lines[HeaderLength(lines)..i + 1] == lines[HeaderLength(lines)..i] + [line];
      inModule', headerComplete' := inModule, headerComplete;
      headerLines', remainingLines' := headerLines, remainingLines + [line];
    }
  }

  /** The two flag updates for a line read while the header is incomplete. */
  method ReadHeaderLine(line: string, inModule: bool) returns (inModule': bool, headerComplete: bool)
    ensures inModule' <==> inModule || OpensModule(line)
    ensures headerComplete <==> inModule' && EndsPorts(line)
  {
    inModule' := inModule;
    if !inModule' && OpensModule(line) {
      inModule' := true;
    }
    headerComplete := false;
    if inModule' && EndsPorts(line) {
      headerComplete := true;
    }
  }

  /** A module line occurs among the first i lines. */
  predicate ModuleSeen(lines: seq<string>, i: nat) {
    FirstModuleLine(lines, 0).Some? && FirstModuleLine(lines, 0).value < i
  }

  /** The header is complete within the first i lines. */
  predicate HeaderSeen(lines: seq<string>, i: nat) {
    HeaderDone(lines) && HeaderLength(lines) <= i
  }

  /**
   * How the two flags move when line i is read: the module flag is raised
   * by the first module line, and the header becomes complete at the first
   * port-list end once the module flag is up, which is where the header ends.
   */
  lemma ScanStep(lines: seq<string>, i: nat)
    requires i < |lines|
    ensures ModuleSeen(lines, i + 1) <==> ModuleSeen(lines, i) || OpensModule(lines[i])
    ensures HeaderSeen(lines, i) ==> ModuleSeen(lines, i)
    ensures HeaderSeen(lines, i + 1) <==> HeaderSeen(lines, i) || (ModuleSeen(lines, i + 1) && EndsPorts(lines[i]))
    ensures HeaderSeen(lines, i + 1) && !HeaderSeen(lines, i) ==> HeaderLength(lines) == i + 1
  {
    match FirstModuleLine(lines, 0)
    case None =>
    case Some(m) =>
      if m <= i && EndsPorts(lines[i]) {
        var e := FirstPortsEnd(lines, m);
        assert e.Some? && e.value <= i;
      }
  }

  /** Without a complete header, every line is header. */
  lemma HeaderUnfinished(lines: seq<string>)
    requires !HeaderSeen(lines, |lines|)
    ensures HeaderLength(lines) == |lines|
  {
  }

  /** Some line completes the header (found by the scan). */
  predicate HeaderDone(lines: seq<string>) {
    FirstModuleLine(lines, 0).Some? && FirstPortsEnd(lines, FirstModuleLine(lines, 0).value).Some?
  }

  /** extract_verilog's (header, remaining) as values. */
  function SplitHeader(content: string): (string, string) {
    var lines := SplitLines(GetCode(content));
    var h := HeaderLength(lines);
    (JoinLines(lines[..h]), JoinLines(lines[h..]))
  }

  /** extract_verilog: get_code, split into lines, then the two-flag scan. */
  method ExtractVerilog(content: string) returns (header: string, remaining: string)
    ensures (header, remaining) == SplitHeader(content)
  {
    var code := GetCode(content);
    var lines := SplitLines(code);
    var headerLines, remainingLines := SplitHeaderLines(lines);
    header := JoinLines(headerLines);
    remaining := JoinLines(remainingLines);
  }
}
