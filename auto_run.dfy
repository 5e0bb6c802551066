/**
 * RTLLM/auto_run.py: the result tally of the RTLLM benchmark. For every
 * design, result_dic counts the repetitions whose build produced a simulator
 * (syntax_success) and those whose simulation also reported a pass
 * (func_success). The driver runs test_one_file once per existing directory
 * test_0, test_1, ..., then computes pass@k with cal_atk and the number of
 * designs that succeeded at least once.
 *
 * What one trial of one design does on disk (rewriting the makefile, make vcs,
 * make sim under exec_shell's timeout, reading output.txt, make clean) is
 * abstracted into an Outcome; the outcomes of one repetition are a Probe.
 */
module AutoRun {
  import opened Common
  import opened Text
  import opened Binomial
  import opened Estimator

  type Design = string

  /** result_dic[design]: the two counters. */
  datatype Tally = Tally(syntax: nat, func: nat)

  /**
   * What one trial of one design reports: whether the design folder has a
   * makefile, whether make vcs left a simv behind, whether exec_shell saw
   * make sim finish within its timeout (to_flag == 1), and the text of
   * output.txt.
   */
  datatype Outcome = Outcome(makefile: bool, simv: bool, finished: bool, output: string)

  /** The outcomes of one repetition, design by design. */
  type Probe = Design -> Outcome

  /** `"Pass" in output or "pass" in output`. */
  predicate PassMarker(output: string) {
    Contains(output, "Pass") || Contains(output, "pass")
  }

  /** The trial counts for syntax_success: the makefile is there and simv was built. */
  predicate Builds(o: Outcome) {
    o.makefile && o.simv
  }

  /** The trial counts for func_success: it builds, the simulation finished in time and reported a pass. */
  predicate Passes(o: Outcome) {
    Builds(o) && o.finished && PassMarker(o.output)
  }

  /** Lines 87-113 for one design: the counters after one trial. */
  function Fold(t: Tally, o: Outcome): Tally {
    if !o.makefile then t
    else if !o.simv then t
    else Tally(t.syntax + 1, if o.finished && PassMarker(o.output) then t.func + 1 else t.func)
  }

  /**
   * One trial raises syntax_success by one exactly when it builds and
   * func_success by one exactly when it passes, and nothing else; a design
   * without a makefile is untouched.
   */
  lemma FoldMeaning(t: Tally, o: Outcome)
    ensures Fold(t, o).syntax == t.syntax + (if Builds(o) then 1 else 0)
    ensures Fold(t, o).func == t.func + (if Passes(o) then 1 else 0)
    ensures !o.makefile ==> Fold(t, o) == t
  {
  }

  // ---------------------------------------------------------------------
  // The tallies as values.

  /** Lines 79-82: every listed design starts at (0, 0). */
  function Initial(names: seq<Design>): map<Design, Tally> {
    map d | d in names :: Tally(0, 0)
  }

  /** result_dic after test_one_file: the designs in `located` take one trial each, the others are untouched. */
  function Repeat(counts: map<Design, Tally>, located: seq<Design>, probe: Probe): map<Design, Tally> {
    map d | d in counts :: if d in located then Fold(counts[d], probe(d)) else counts[d]
  }

  /** result_dic after one test_one_file call per repetition, in order. */
  function After(names: seq<Design>, located: seq<Design>, probes: seq<Probe>): map<Design, Tally> {
    if probes == [] then Initial(names)
    else Repeat(After(names, located, probes[..|probes| - 1]), located, probes[|probes| - 1])
  }

  /** The number of repetitions in which design d builds. */
  function CountBuilds(d: Design, probes: seq<Probe>): nat {
    if probes == [] then 0
    else CountBuilds(d, probes[..|probes| - 1]) + (if Builds(probes[|probes| - 1](d)) then 1 else 0)
  }

  /** The number of repetitions in which design d passes. */
  function CountPasses(d: Design, probes: seq<Probe>): nat {
    if probes == [] then 0
    else CountPasses(d, probes[..|probes| - 1]) + (if Passes(probes[|probes| - 1](d)) then 1 else 0)
  }

  /** Passing needs building, and each repetition is one trial: passes <= builds <= repetitions. */
  lemma {:induction false} CountsBounded(d: Design, probes: seq<Probe>)
    ensures CountPasses(d, probes) <= CountBuilds(d, probes) <= |probes|
  {
    if probes != [] {
      CountsBounded(d, probes[..|probes| - 1]);
    }
  }

  /**
   * One test_one_file call: the keys stay the same; a located design's
   * syntax_success rises by exactly one when its trial builds, and its
   * func_success by exactly one when the trial passes; every counter rises
   * by at most one; designs that are not located, or have no makefile, keep
   * their counters.
   */
  lemma RepeatMeaning(counts: map<Design, Tally>, located: seq<Design>, probe: Probe)
    ensures var next := Repeat(counts, located, probe);
      && next.Keys == counts.Keys
      && forall d :: d in counts ==>
        && next[d].syntax == counts[d].syntax + (if d in located && Builds(probe(d)) then 1 else 0)
        && next[d].func == counts[d].func + (if d in located && Passes(probe(d)) then 1 else 0)
        && next[d].syntax <= counts[d].syntax + 1 && next[d].func <= counts[d].func + 1
        && (d !in located || !probe(d).makefile ==> next[d] == counts[d])
  {
    forall d | d in counts && d in located {
      FoldMeaning(counts[d], probe(d));
    }
  }

  /**
   * The tallies after any sequence of repetitions, in closed form: exactly
   * the listed designs have counters; a located design has counted its
   * builds and its passes; a design that is not located is still at (0, 0).
   */
  lemma {:induction false} AfterClosedForm(names: seq<Design>, located: seq<Design>, probes: seq<Probe>)
    ensures forall d :: d in After(names, located, probes) <==> d in names
    ensures forall d :: d in names ==>
      (After(names, located, probes)[d] ==
        if d in located then Tally(CountBuilds(d, probes), CountPasses(d, probes)) else Tally(0, 0))
  {
    if probes != [] {
      var front := probes[..|probes| - 1];
      AfterClosedForm(names, located, front);
      RepeatMeaning(After(names, located, front), located, probes[|probes| - 1]);
    }
  }

  /** The tally invariant: 0 <= func_success <= syntax_success <= n after n repetitions. */
  lemma TallyInvariant(names: seq<Design>, located: seq<Design>, probes: seq<Probe>)
    ensures forall d :: d in After(names, located, probes) ==>
      After(names, located, probes)[d].func <= After(names, located, probes)[d].syntax <= |probes|
  {
    AfterClosedForm(names, located, probes);
    forall d | d in names {
      CountsBounded(d, probes);
    }
  }

  /** One repetition keeps func_success <= syntax_success and raises the bound by one. */
  lemma RepeatKeepsBounds(counts: map<Design, Tally>, located: seq<Design>, probe: Probe, rounds: nat)
    requires forall d :: d in counts ==> counts[d].func <= counts[d].syntax <= rounds
    ensures var next := Repeat(counts, located, probe);
      && next.Keys == counts.Keys
      && forall d :: d in next ==> next[d].func <= next[d].syntax <= rounds + 1
  {
    RepeatMeaning(counts, located, probe);
  }

  /** Folding in one more design updates that design alone. */
  lemma RepeatExtend(counts: map<Design, Tally>, ds: seq<Design>, d: Design, probe: Probe)
    requires d in counts && d !in ds
    ensures Repeat(counts, ds + [d], probe) == Repeat(counts, ds, probe)[d := Fold(counts[d], probe(d))]
  {
    var a, b := Repeat(counts, ds + [d], probe), Repeat(counts, ds, probe)[d := Fold(counts[d], probe(d))];
    assert a.Keys == b.Keys;
    forall e | e in a ensures a[e] == b[e] {
      assert e in ds + [d] <==> e in ds || e == d;
    }
  }

  /** Two repetitions folded in either order give the same tallies. */
  lemma RepeatCommutes(counts: map<Design, Tally>, located: seq<Design>, p: Probe, q: Probe)
    ensures Repeat(Repeat(counts, located, p), located, q) == Repeat(Repeat(counts, located, q), located, p)
  {
    var a := Repeat(Repeat(counts, located, p), located, q);
    var b := Repeat(Repeat(counts, located, q), located, p);
    RepeatMeaning(counts, located, p);
    RepeatMeaning(counts, located, q);
    RepeatMeaning(Repeat(counts, located, p), located, q);
    RepeatMeaning(Repeat(counts, located, q), located, p);
    assert a.Keys == b.Keys;
    forall d | d in a ensures a[d] == b[d] {
    }
  }

  /** Swapping two neighbouring repetitions changes no tally. */
  lemma AfterSwap(names: seq<Design>, located: seq<Design>, front: seq<Probe>, p: Probe, q: Probe)
    ensures After(names, located, front + [p, q]) == After(names, located, front + [q, p])
  {
    assert (front + [p, q])[..|front| + 1] == front + [p];
    assert (front + [q, p])[..|front| + 1] == front + [q];
    assert (front + [p])[..|front|] == front;
    assert (front + [q])[..|front|] == front;
    RepeatCommutes(After(names, located, front), located, p, q);
  }

  // ---------------------------------------------------------------------
  // cal_atk, lines 28-44, as values.

  /** Which counter cal_atk reads. */
  datatype Criterion = Syntax | Func

  function Count(t: Tally, crit: Criterion): nat {
    match crit
    case Syntax => t.syntax
    case Func => t.func
  }

  /** The number of zero entries cal_atk appends to each list before averaging. */
  const Placeholders: nat := 1

  /** A pass@k figure: a number, or the NaN numpy makes of 0.0 / 0.0 when comb(n, k) is 0. */
  datatype Estimate = Value(v: real) | NaN

  function SumReal(xs: seq<real>): real {
    if xs == [] then 0.0 else SumReal(xs[..|xs| - 1]) + xs[|xs| - 1]
  }

  /** The per-design terms of cal_atk, in dict order. */
  function Terms(names: seq<Design>, counts: map<Design, Tally>, n: nat, k: nat, crit: Criterion): seq<real>
    requires k <= n && forall d :: d in names ==> d in counts
  {
    if names == [] then []
    else Terms(names[..|names| - 1], counts, n, k, crit) + [Term(n, Count(counts[names[|names| - 1]], crit), k)]
  }

  /**
   * The figure cal_atk prints for one criterion: the mean of the per-design
   * terms and Placeholders zeros; NaN when some design's term divides by
   * comb(n, k) == 0, that is k > n.
   */
  function CalAtKValue(names: seq<Design>, counts: map<Design, Tally>, n: nat, k: nat, crit: Criterion): Estimate
    requires forall d :: d in names ==> d in counts
  {
    if k > n then (if names == [] then Value(0.0) else NaN)
    else Value(SumReal(Terms(names, counts, n, k, crit)) / ((|names| + Placeholders) as real))
  }

  lemma TermsExtend(names: seq<Design>, counts: map<Design, Tally>, n: nat, k: nat, crit: Criterion, i: nat)
    requires k <= n && i < |names| && forall d :: d in names ==> d in counts
    ensures Terms(names[..i + 1], counts, n, k, crit) == Terms(names[..i], counts, n, k, crit) + [Term(n, Count(counts[names[i]], crit), k)]
  {
    assert names[..i + 1][..i] == names[..i];
  }

  lemma {:induction false} TermsMeaning(names: seq<Design>, counts: map<Design, Tally>, n: nat, k: nat, crit: Criterion)
    requires k <= n && forall d :: d in names ==> d in counts
    ensures |Terms(names, counts, n, k, crit)| == |names|
    ensures forall i :: 0 <= i < |names| ==> Terms(names, counts, n, k, crit)[i] == Term(n, Count(counts[names[i]], crit), k)
  {
    if names != [] {
      TermsMeaning(names[..|names| - 1], counts, n, k, crit);
    }
  }

  lemma {:induction false} SumRealBounds(xs: seq<real>)
    requires forall i :: 0 <= i < |xs| ==> 0.0 <= xs[i] <= 1.0
    ensures 0.0 <= SumReal(xs) <= |xs| as real
  {
    if xs != [] {
      SumRealBounds(xs[..|xs| - 1]);
    }
  }

  lemma {:induction false} SumRealConstant(xs: seq<real>, v: real)
    requires forall i :: 0 <= i < |xs| ==> xs[i] == v
    ensures SumReal(xs) == (|xs| as real) * v
  {
    if xs != [] {
      SumRealConstant(xs[..|xs| - 1], v);
    }
  }

  /** Appending zeros does not change the sum. */
  lemma {:induction false} SumRealZeros(xs: seq<real>, z: nat)
    ensures SumReal(xs + seq(z, _ => 0.0)) == SumReal(xs)
  {
    if z > 0 {
      var zs := seq(z, _ => 0.0);
      assert (xs + zs)[..|xs| + z - 1] == xs + seq(z - 1, _ => 0.0);
      SumRealZeros(xs, z - 1);
    } else {
      assert xs + seq(z, _ => 0.0) == xs;
    }
  }

  /** The figure is the mean of the collected terms with Placeholders zeros appended. */
  lemma MeanOfTerms(names: seq<Design>, counts: map<Design, Tally>, n: nat, k: nat, crit: Criterion, terms: seq<real>)
    requires forall d :: d in names ==> d in counts
    requires k <= n ==> terms == Terms(names, counts, n, k, crit)
    requires k > n ==> terms == [] && names == []
    ensures |terms + seq(Placeholders, _ => 0.0)| == |names| + Placeholders
    ensures CalAtKValue(names, counts, n, k, crit) ==
      Value(SumReal(terms + seq(Placeholders, _ => 0.0)) / ((|names| + Placeholders) as real))
  {
    if k <= n {
      TermsMeaning(names, counts, n, k, crit);
    }
    SumRealZeros(terms, Placeholders);
  }

  /**
   * With k <= n each cal_atk figure is a number in [0, D / (D + 1)] for D
   * designs: the appended zero keeps it below 1 even when every design
   * always succeeds. With k > n and at least one design it is NaN.
   */
  lemma CalAtKBounds(names: seq<Design>, counts: map<Design, Tally>, n: nat, k: nat, crit: Criterion)
    requires forall d :: d in names ==> d in counts
    ensures CalAtKValue(names, counts, n, k, crit).NaN? <==> k > n && names != []
    ensures k <= n ==>
      var v := CalAtKValue(names, counts, n, k, crit).v;
      0.0 <= v <= (|names| as real) / ((|names| + 1) as real)
  {
    if k <= n {
      var ts := Terms(names, counts, n, k, crit);
      TermsMeaning(names, counts, n, k, crit);
      forall i | 0 <= i < |ts| ensures 0.0 <= ts[i] <= 1.0 {
        TermInUnitInterval(n, Count(counts[names[i]], crit), k);
      }
      SumRealBounds(ts);
      var den := (|names| + 1) as real;
      assert SumReal(ts) / den <= (|names| as real) / den;
    }
  }

  /** No design ever succeeded: the figure is 0. */
  lemma CalAtKNoSuccess(names: seq<Design>, counts: map<Design, Tally>, n: nat, k: nat, crit: Criterion)
    requires k <= n && forall d :: d in names ==> d in counts && Count(counts[d], crit) == 0
    ensures CalAtKValue(names, counts, n, k, crit) == Value(0.0)
  {
    var ts := Terms(names, counts, n, k, crit);
    assert SumReal(ts) == 0.0 by {
      TermsMeaning(names, counts, n, k, crit);
      TermEdgeCases(n, k);
      forall i | 0 <= i < |ts| ensures ts[i] == 0.0 {
        var d := names[i];
        assert d in names && Count(counts[d], crit) == 0;
        assert ts[i] == Term(n, Count(counts[d], crit), k);
      }
      SumRealConstant(ts, 0.0);
    }
  }

  /** Every design succeeded in all n trials (k >= 1): the figure is D / (D + 1), not 1. */
  lemma CalAtKAllSucceed(names: seq<Design>, counts: map<Design, Tally>, n: nat, k: nat, crit: Criterion)
    requires 1 <= k <= n && forall d :: d in names ==> d in counts && Count(counts[d], crit) == n
    ensures CalAtKValue(names, counts, n, k, crit) == Value((|names| as real) / ((|names| + 1) as real))
  {
    var ts := Terms(names, counts, n, k, crit);
    assert SumReal(ts) == |names| as real by {
      TermsMeaning(names, counts, n, k, crit);
      TermEdgeCases(n, k);
      forall i | 0 <= i < |ts| ensures ts[i] == 1.0 {
        var d := names[i];
        assert d in names && Count(counts[d], crit) == n;
        assert ts[i] == Term(n, Count(counts[d], crit), k);
      }
      SumRealConstant(ts, 1.0);
    }
  }

  // ---------------------------------------------------------------------
  // The totals of lines 134-140, as values.

  /** The number of entries of names whose counter is non-zero. */
  function NonZero(names: seq<Design>, counts: map<Design, Tally>, crit: Criterion): nat
    requires forall d :: d in names ==> d in counts
  {
    if names == [] then 0
    else NonZero(names[..|names| - 1], counts, crit) + (if Count(counts[names[|names| - 1]], crit) != 0 then 1 else 0)
  }

  /**
   * Both totals are at most the number of designs, and when no design has
   * more functional than syntax successes, total_func_success is at most
   * total_syntax_success.
   */
  lemma {:induction false} TotalsBounded(names: seq<Design>, counts: map<Design, Tally>)
    requires forall d :: d in names ==> d in counts
    ensures NonZero(names, counts, Syntax) <= |names| && NonZero(names, counts, Func) <= |names|
    ensures (forall d :: d in names ==> counts[d].func <= counts[d].syntax) ==>
      NonZero(names, counts, Func) <= NonZero(names, counts, Syntax)
  {
    if names != [] {
      TotalsBounded(names[..|names| - 1], counts);
    }
  }

  lemma {:induction false} NonZeroBounded(names: seq<Design>, counts: map<Design, Tally>, crit: Criterion)
    requires forall d :: d in names ==> d in counts
    ensures NonZero(names, counts, crit) <= |names|
  {
    if names != [] {
      NonZeroBounded(names[..|names| - 1], counts, crit);
    }
  }

  /** A total counts exactly the designs that succeeded at least once: it is 0 when none did ... */
  lemma {:induction false} NonZeroNone(names: seq<Design>, counts: map<Design, Tally>, crit: Criterion)
    requires forall d :: d in names ==> d in counts
    ensures NonZero(names, counts, crit) == 0 <==> forall d :: d in names ==> Count(counts[d], crit) == 0
  {
    if names != [] {
      var front, last := names[..|names| - 1], names[|names| - 1];
      NonZeroNone(front, counts, crit);
      assert names == front + [last];
      assert forall d :: d in names <==> d in front || d == last;
    }
  }

  /** ... and the number of designs when all did. */
  lemma {:induction false} NonZeroAll(names: seq<Design>, counts: map<Design, Tally>, crit: Criterion)
    requires forall d :: d in names ==> d in counts
    ensures NonZero(names, counts, crit) == |names| <==> forall d :: d in names ==> Count(counts[d], crit) != 0
  {
    if names != [] {
      var front, last := names[..|names| - 1], names[|names| - 1];
      NonZeroAll(front, counts, crit);
      NonZeroBounded(front, counts, crit);
      assert names == front + [last];
      assert forall d :: d in names <==> d in front || d == last;
    }
  }

  // ---------------------------------------------------------------------
  // The repetition count.

  /** The directory numbers at or above i. */
  function Above(dirs: set<nat>, i: nat): set<nat> {
    set x | x in dirs && i <= x
  }

  /**
   * n is the number of consecutive directories test_0, test_1, ... before
   * the first missing one; there is only one such n.
   */
  lemma RepetitionCountUnique(dirs: set<nat>, n: nat, m: nat)
    requires (forall i :: 0 <= i < n ==> i in dirs) && n !in dirs
    requires (forall i :: 0 <= i < m ==> i in dirs) && m !in dirs
    ensures n == m
  {
  }

  /** The outcomes of the first n repetitions. */
  function Probes(trials: nat -> Probe, n: nat): (ps: seq<Probe>)
    ensures |ps| == n && forall i :: 0 <= i < n ==> ps[i] == trials(i)
  {
    seq(n, i requires 0 <= i => trials(i))
  }

  // ---------------------------------------------------------------------
  // result_dic itself.

  /** result_dic: one pair of counters per design, updated in place. */
  class ResultDic {
    /** design_name, in order; the dict's keys. */
    const names: seq<Design>
    var counts: map<Design, Tally>
    /** How many times test_one_file has run. */
    ghost var rounds: nat

    ghost predicate Valid()
      reads this
    {
      && (forall i, j :: 0 <= i < j < |names| ==> names[i] != names[j])
      && (forall d :: d in counts <==> d in names)
      && (forall d :: d in counts ==> counts[d].func <= counts[d].syntax <= rounds)
    }

    /** Lines 79-82. */
    constructor (designNames: seq<Design>)
      requires forall i, j :: 0 <= i < j < |designNames| ==> designNames[i] != designNames[j]
      ensures Valid() && names == designNames && rounds == 0
      ensures counts == Initial(designNames)
    {
      names := designNames;
      var m: map<Design, Tally> := map[];
      var i := 0;
      while i < |designNames|
        invariant i <= |designNames|
        invariant m == Initial(designNames[..i])
      {
        m := m[designNames[i] := Tally(0, 0)];
        i := i + 1;
      }
      assert designNames[..i] == designNames;
      counts := m;
      rounds := 0;
    }

    /**
     * test_one_file, lines 85-121: one trial for every located design, in
     * order. Each design's counters are touched only in its own iteration.
     */
    method TestOneFile(located: seq<Design>, probe: Probe)
      requires Valid()
      requires forall i, j :: 0 <= i < j < |located| ==> located[i] != located[j]
      requires forall d :: d in located ==> d in names
      modifies this
      ensures Valid() && rounds == old(rounds) + 1
      ensures counts == Repeat(old(counts), located, probe)
    {
      ghost var start, previous := counts, rounds;
      var i := 0;
      while i < |located|
        invariant i <= |located| && rounds == previous
        invariant counts == Repeat(start, located[..i], probe)
      {
        var design := located[i];
        var o := probe(design);
        assert design !in located[..i];
        RepeatExtend(start, located[..i], design, probe);
        assert located[..i + 1] == located[..i] + [design];
        var t := counts[design];
        if o.makefile {
          var simvGenerated := o.simv;
          if simvGenerated {
            t := t.(syntax := t.syntax + 1);
            if o.finished {
              if PassMarker(o.output) {
                t := t.(func := t.func + 1);
              }
            }
          }
        }
        assert t == Fold(start[design], o);
        counts := counts[design := t];
        i := i + 1;
      }
      assert located[..i] == located;
      rounds := rounds + 1;
      RepeatKeepsBounds(start, located, probe, previous);
    }

    /** One half of cal_atk: the list of terms for one counter, one zero appended, averaged. */
    method PassAtKOf(crit: Criterion, n: nat, k: nat) returns (r: Estimate)
      requires Valid()
      ensures r == CalAtKValue(names, counts, n, k, crit)
    {
      var sumList: seq<real> := [];
      var nan := false;
      var i := 0;
      while i < |names|
        invariant i <= |names|
        invariant nan <==> k > n && i > 0
        invariant k <= n ==> sumList == Terms(names[..i], counts, n, k, crit)
        invariant k > n ==> sumList == []
      {
        var c := Count(counts[names[i]], crit);
        var denominator := Comb(n, k);
        if denominator == 0 {
          nan := true;
        } else {
          var term := 1.0 - (SciComb(n - c, k) as real) / (denominator as real);
          assert term == Term(n, c, k);
          TermsExtend(names, counts, n, k, crit, i);
          sumList := sumList + [term];
        }
        i := i + 1;
      }
      if nan {
        return NaN;
      }
      assert names[..i] == names;
      MeanOfTerms(names, counts, n, k, crit, sumList);
      sumList := sumList + seq(Placeholders, _ => 0.0);
      r := Value(SumReal(sumList) / (|sumList| as real));
    }

    /** cal_atk(result_dic, n, k): the syntax figure and the functional figure. */
    method CalAtK(n: nat, k: nat) returns (syntaxPassK: Estimate, funcPassK: Estimate)
      requires Valid()
      ensures syntaxPassK == CalAtKValue(names, counts, n, k, Syntax)
      ensures funcPassK == CalAtKValue(names, counts, n, k, Func)
    {
      syntaxPassK := PassAtKOf(Syntax, n, k);
      funcPassK := PassAtKOf(Func, n, k);
    }

    /** Lines 134-140: how many designs succeeded at least once, by each criterion. */
    method Totals() returns (totalSyntax: nat, totalFunc: nat)
      requires Valid()
      ensures totalSyntax == NonZero(names, counts, Syntax)
      ensures totalFunc == NonZero(names, counts, Func)
      ensures totalFunc <= totalSyntax <= |names|
    {
      totalSyntax, totalFunc := 0, 0;
      var i := 0;
      while i < |names|
        invariant i <= |names|
        invariant totalSyntax == NonZero(names[..i], counts, Syntax)
        invariant totalFunc == NonZero(names[..i], counts, Func)
      {
        var item := names[i];
        if counts[item].syntax != 0 {
          totalSyntax := totalSyntax + 1;
        }
        if counts[item].func != 0 {
          totalFunc := totalFunc + 1;
        }
        assert names[..i + 1][..i] == names[..i];
        i := i + 1;
      }
      assert names[..i] == names;
      TotalsBounded(names, counts);
    }
  }

  // ---------------------------------------------------------------------
  // The script, lines 79-142.

  /**
   * The driver: a fresh result_dic, one test_one_file per directory
   * test_0, test_1, ... until one is missing, then cal_atk with k = 1 and
   * the totals. dirs are the numbers i for which test_i exists; trials(i)
   * are the outcomes of repetition i.
   */
  method Evaluate(names: seq<Design>, located: seq<Design>, dirs: set<nat>, trials: nat -> Probe)
    returns (n: nat, counts: map<Design, Tally>, syntaxPassK: Estimate, funcPassK: Estimate, totalSyntax: nat, totalFunc: nat)
    requires forall i, j :: 0 <= i < j < |names| ==> names[i] != names[j]
    requires forall i, j :: 0 <= i < j < |located| ==> located[i] != located[j]
    requires forall d :: d in located ==> d in names
    ensures (forall i :: 0 <= i < n ==> i in dirs) && n !in dirs
    ensures forall d :: d in counts <==> d in names
    ensures counts == After(names, located, Probes(trials, n))
    ensures forall d :: d in counts ==> counts[d].func <= counts[d].syntax <= n
    ensures syntaxPassK == CalAtKValue(names, counts, n, 1, Syntax)
    ensures funcPassK == CalAtKValue(names, counts, n, 1, Func)
    ensures totalSyntax == NonZero(names, counts, Syntax) && totalFunc == NonZero(names, counts, Func)
    ensures totalFunc <= totalSyntax <= |names|
  {
    var dic := new ResultDic(names);
    var fileId := 0;
    n := 0;
    while fileId in dirs
      invariant n == fileId == dic.rounds
      invariant dic.Valid() && dic.names == names
      invariant forall i :: 0 <= i < n ==> i in dirs
      invariant dic.counts == After(names, located, Probes(trials, n))
      decreases Above(dirs, fileId)
    {
      assert fileId in Above(dirs, fileId) && fileId !in Above(dirs, fileId + 1);
      assert Above(dirs, fileId + 1) <= Above(dirs, fileId);
      dic.TestOneFile(located, trials(fileId));
      assert Probes(trials, n + 1)[..n] == Probes(trials, n);
      n := n + 1;
      fileId := fileId + 1;
    }
    counts := dic.counts;
    syntaxPassK, funcPassK := dic.CalAtK(n, 1);
    totalSyntax, totalFunc := dic.Totals();
  }

  // ---------------------------------------------------------------------
  // Where test_one_file looks for a design's makefile.

  /** A directory, as its path components below the directory the script starts in. */
  type Path = seq<string>

  /**
   * The makefile checks of test_one_file as written: each design's folder
   * (fold/sf/name) is looked up relative to the current directory; when its
   * makefile exists, the loop enters the folder with os.chdir and leaves it
   * with os.chdir(".."), which climbs one level of three.
   */
  function MakefileChecksAsWritten(cwd: Path, folders: seq<Path>, makefiles: set<Path>): (found: seq<bool>)
    ensures |found| == |folders|
    decreases |folders|
  {
    if folders == [] then []
    else
      var here := cwd + folders[0];
      var present := here in makefiles;
      var next := if present && here != [] then here[..|here| - 1] else cwd;
      [present] + MakefileChecksAsWritten(next, folders[1..], makefiles)
  }

  /**
   * The same checks when every iteration returns to the directory it started
   * in: each design's makefile is found exactly when it exists. This is what
   * Outcome.makefile stands for in the rest of the model.
   */
  function MakefileChecks(cwd: Path, folders: seq<Path>, makefiles: set<Path>): (found: seq<bool>)
    ensures |found| == |folders|
  {
    if folders == [] then []
    else [cwd + folders[0] in makefiles] + MakefileChecks(cwd, folders[1..], makefiles)
  }

  /** With the directory restored, design i's makefile is found iff it exists. */
  lemma {:induction false} MakefileChecksMeaning(cwd: Path, folders: seq<Path>, makefiles: set<Path>)
    ensures forall i :: 0 <= i < |folders| ==> MakefileChecks(cwd, folders, makefiles)[i] == (cwd + folders[i] in makefiles)
  {
    if folders != [] {
      MakefileChecksMeaning(cwd, folders[1..], makefiles);
    }
  }

  /**
   * Two designs of RTLLM's layout, both with a makefile: as written, the
   * second is looked up under Arithmetic/Adder/Arithmetic/Adder/adder_16bit
   * and skipped, while the intended checks find both.
   */
  lemma MakefileChecksDiverge()
    ensures var folders := [["Arithmetic", "Adder", "adder_8bit"], ["Arithmetic", "Adder", "adder_16bit"]];
      var makefiles := {["Arithmetic", "Adder", "adder_8bit"], ["Arithmetic", "Adder", "adder_16bit"]};
      && MakefileChecksAsWritten([], folders, makefiles) == [true, false]
      && MakefileChecks([], folders, makefiles) == [true, true]
  {
    var folders := [["Arithmetic", "Adder", "adder_8bit"], ["Arithmetic", "Adder", "adder_16bit"]];
    var makefiles := {["Arithmetic", "Adder", "adder_8bit"], ["Arithmetic", "Adder", "adder_16bit"]};
    var up := ["Arithmetic", "Adder"];
    var root: Path := [];
    assert root + folders[0] == folders[0] && root + folders[1] == folders[1];
    assert folders[0][..2] == up;
    assert up + folders[1] !in makefiles by {
      assert |up + folders[1]| == 5;
    }
    assert folders[1..][1..] == [];
    assert MakefileChecksAsWritten(up, folders[1..], makefiles) == [false];
    assert folders[1..][0] == folders[1];
    assert MakefileChecks(root, folders[1..], makefiles) == [true];
  }
}
