/**
 * The table of representative rows: the tokens one set is written as (`tokensOf` of
 * scripts/generate-art-reps.ts), and the reader that answers from them (`parse` and `verdict_in` of
 * engine/builder/src/art_reps.rs).
 */
module ArtReps {
  import opened Wrappers
  import opened CodeOrder
  import opened Decimal

  datatype Rep = Rep(number: string, lang: string)
  datatype Run = Run(first: nat, last: nat)

  const TWO_32: nat := 0x1_0000_0000

  // ---- spelling -----------------------------------------------------------------------------------------

  /** What `\s` matches. */
  predicate IsSpace(c: char) {
    || '\t' <= c <= '\r' || c == ' ' || c == '\U{00A0}' || c == '\U{1680}' || '\U{2000}' <= c <= '\U{200A}'
    || c == '\U{2028}' || c == '\U{2029}' || c == '\U{202F}' || c == '\U{205F}' || c == '\U{3000}' || c == '\U{FEFF}'
  }

  /** Where the first ".." is, or the length. */
  function Dots(s: string): (d: nat)
    ensures d <= |s| && (d < |s| ==> d + 1 < |s|)
  {
    if |s| < 2 then |s| else if s[0] == '.' && s[1] == '.' then 0 else 1 + Dots(s[1..])
  }

  predicate HasDots(s: string) {
    Dots(s) < |s|
  }

  /** Spaces, marks the tokens use themselves, or nothing at all: `tokensOf` refuses such a number. */
  predicate Unspellable(number: string) {
    (exists c | c in number :: IsSpace(c) || c == '@') || HasDots(number) || number == ""
  }

  predicate Folds(rep: Rep) {
    rep.lang == "en" && IsWhole(rep.number)
  }

  function RowToken(rep: Rep): string {
    if rep.lang == "en" then rep.number else rep.number + "@" + rep.lang
  }

  /** The whole numbers, in the rows' order. */
  function Wholes(reps: seq<Rep>): seq<nat> {
    if reps == [] then []
    else
      var rep := reps[|reps| - 1];
      Wholes(reps[..|reps| - 1]) + if Folds(rep) then [ValueOf(rep.number)] else []
  }

  function Rest(reps: seq<Rep>): seq<string> {
    if reps == [] then []
    else
      var rep := reps[|reps| - 1];
      Rest(reps[..|reps| - 1]) + if Folds(rep) then [] else [RowToken(rep)]
  }

  /** A number is folded as often as its row is there. */
  lemma {:induction false} WholesCount(reps: seq<Rep>, n: nat)
    ensures multiset(Wholes(reps))[n] == multiset(reps)[Rep(DigitsOf(n), "en")]
  {
    if reps != [] {
      var last := |reps| - 1;
      WholesCount(reps[..last], n);
      assert reps == reps[..last] + [reps[last]];
      FoldsTo(reps[last], n);
    }
  }

  /** The one English row a number is folded from. */
  lemma FoldsTo(rep: Rep, n: nat)
    ensures rep == Rep(DigitsOf(n), "en") <==> Folds(rep) && ValueOf(rep.number) == n
  {
    DigitsAreWhole(n);
    if Folds(rep) {
      WholeIsDigits(rep.number);
    }
  }

  lemma WholesHas(reps: seq<Rep>, n: nat)
    ensures n in Wholes(reps) <==> Rep(DigitsOf(n), "en") in reps
  {
    WholesCount(reps, n);
    assert n in Wholes(reps) <==> n in multiset(Wholes(reps));
    assert Rep(DigitsOf(n), "en") in reps <==> Rep(DigitsOf(n), "en") in multiset(reps);
  }

  ghost predicate IsRow(reps: seq<Rep>, token: string) {
    exists rep | rep in reps :: !Folds(rep) && RowToken(rep) == token
  }

  lemma {:induction false} RestHas(reps: seq<Rep>, token: string)
    ensures token in Rest(reps) <==> IsRow(reps, token)
  {
    if reps != [] {
      var last := |reps| - 1;
      RestHas(reps[..last], token);
      assert reps == reps[..last] + [reps[last]];
      assert reps[last] in reps;
      if IsRow(reps[..last], token) {
        var rep :| rep in reps[..last] && !Folds(rep) && RowToken(rep) == token;
        assert rep in reps;
      }
    }
  }

  // ---- runs ---------------------------------------------------------------------------------------------

  /** Ascending, disjoint, and no two that could be one. */
  predicate Separate(runs: seq<Run>) {
    && (forall i | 0 <= i < |runs| :: runs[i].first <= runs[i].last)
    && (forall i, j | 0 <= i < j < |runs| :: runs[i].last + 1 < runs[j].first)
  }

  predicate Covers(runs: seq<Run>, n: nat) {
    runs != [] && (runs[0].first <= n <= runs[0].last || Covers(runs[1..], n))
  }

  ghost predicate IsRuns(runs: seq<Run>, whole: seq<nat>) {
    Separate(runs) && forall n: nat :: Covers(runs, n) <==> n in whole
  }

  lemma {:induction false} CoversSnoc(runs: seq<Run>, run: Run, n: nat)
    ensures Covers(runs + [run], n) <==> Covers(runs, n) || run.first <= n <= run.last
  {
    if runs == [] {
      assert [] + [run] == [run];
    } else {
      CoversSnoc(runs[1..], run, n);
      assert (runs + [run])[1..] == runs[1..] + [run];
    }
  }

  lemma {:induction false} CoveredBeyond(runs: seq<Run>, low: nat, n: nat)
    requires Covers(runs, n) && forall i | 0 <= i < |runs| :: low < runs[i].first
    ensures low < n
  {
    if !(runs[0].first <= n <= runs[0].last) {
      CoveredBeyond(runs[1..], low, n);
    }
  }

  lemma {:induction false} CoversHas(runs: seq<Run>, i: nat, n: nat)
    requires i < |runs| && runs[i].first <= n <= runs[i].last
    ensures Covers(runs, n)
  {
    if i > 0 {
      CoversHas(runs[1..], i - 1, n);
    }
  }

  lemma {:induction false} CoversWhere(runs: seq<Run>, n: nat) returns (i: nat)
    requires Covers(runs, n)
    ensures i < |runs| && runs[i].first <= n <= runs[i].last
  {
    if runs[0].first <= n <= runs[0].last {
      i := 0;
    } else {
      i := CoversWhere(runs[1..], n);
      i := i + 1;
    }
  }

  /** The rest of the runs cover what is past the first. */
  lemma CoversTail(runs: seq<Run>, n: nat)
    requires Separate(runs) && runs != []
    ensures Covers(runs[1..], n) <==> Covers(runs, n) && n > runs[0].last
    ensures Covers(runs[1..], n) ==> n > runs[0].last + 1
  {
    if Covers(runs[1..], n) {
      CoveredBeyond(runs[1..], runs[0].last + 1, n);
    }
  }

  /** The first run starts at the least number and ends before the first gap. */
  lemma FirstRun(a: seq<Run>, b: seq<Run>)
    requires Separate(a) && Separate(b) && a != [] && b != []
    requires forall n: nat :: Covers(a, n) <==> Covers(b, n)
    ensures a[0].first <= b[0].first && a[0].last <= b[0].last
  {
    CoversHas(b, 0, b[0].first);
    CoversTail(a, b[0].first);
    assert a[0].first <= b[0].first;
    CoversHas(a, 0, a[0].first);
    CoversTail(b, a[0].first);
    if b[0].last < a[0].last {
      CoversHas(a, 0, b[0].last + 1);
      CoversTail(b, b[0].last + 1);
      assert false;
    }
  }

  lemma TailsAlike(a: seq<Run>, b: seq<Run>)
    requires Separate(a) && Separate(b) && a != [] && b != [] && a[0] == b[0]
    requires forall n: nat :: Covers(a, n) <==> Covers(b, n)
    ensures forall n: nat :: Covers(a[1..], n) <==> Covers(b[1..], n)
  {
    forall n: nat ensures Covers(a[1..], n) <==> Covers(b[1..], n) {
      CoversTail(a, n);
      CoversTail(b, n);
    }
  }

  lemma {:induction false} RunsUnique(a: seq<Run>, b: seq<Run>)
    requires Separate(a) && Separate(b) && forall n: nat :: Covers(a, n) <==> Covers(b, n)
    ensures a == b
  {
    if a != [] { CoversHas(a, 0, a[0].first); }
    if b != [] { CoversHas(b, 0, b[0].first); }
    if a != [] {
      FirstRun(a, b);
      FirstRun(b, a);
      TailsAlike(a, b);
      RunsUnique(a[1..], b[1..]);
      assert a == [a[0]] + a[1..] && b == [b[0]] + b[1..];
    }
  }

  // ---- tokens -------------------------------------------------------------------------------------------

  predicate Once(whole: seq<nat>, n: nat) {
    multiset(whole)[n] == 1
  }

  /** A run as written. A number that stands alone but is there twice is written as a run of itself. */
  function Spell(run: Run, whole: seq<nat>): string {
    if run.first == run.last && Once(whole, run.first) then DigitsOf(run.first)
    else DigitsOf(run.first) + ".." + DigitsOf(run.last)
  }

  function SpellAll(runs: seq<Run>, whole: seq<nat>): seq<string> {
    seq(|runs|, i requires 0 <= i < |runs| => Spell(runs[i], whole))
  }

  /** What a set's rows are written as. */
  ghost predicate Written(reps: seq<Rep>, tokens: seq<string>) {
    exists runs :: IsRuns(runs, Wholes(reps)) && tokens == SpellAll(runs, Wholes(reps)) + SortDistinct(Rest(reps))
  }

  predicate NonDecreasing(s: seq<nat>) {
    forall i, j | 0 <= i < j < |s| :: s[i] <= s[j]
  }

  function Insert(x: nat, s: seq<nat>): (r: seq<nat>)
    ensures multiset(r) == multiset(s)[x := multiset(s)[x] + 1]
  {
    if s == [] || x <= s[0] then [x] + s
    else
      assert s == [s[0]] + s[1..];
      [s[0]] + Insert(x, s[1..])
  }

  /** `whole.sort((a, b) => a - b)`. */
  function Sort(s: seq<nat>): (r: seq<nat>)
    ensures multiset(r) == multiset(s)
  {
    if s == [] then []
    else
      assert s == [s[0]] + s[1..];
      Insert(s[0], Sort(s[1..]))
  }

  lemma {:induction false} InsertSorts(x: nat, s: seq<nat>)
    requires NonDecreasing(s)
    ensures NonDecreasing(Insert(x, s))
  {
    if s != [] && x > s[0] {
      InsertSorts(x, s[1..]);
      var r := Insert(x, s[1..]);
      forall j | 0 <= j < |r| ensures s[0] <= r[j] {
        assert r[j] in multiset(r);
        assert r[j] == x || r[j] in multiset(s[1..]);
      }
    }
  }

  lemma {:induction false} SortSorts(s: seq<nat>)
    ensures NonDecreasing(Sort(s))
  {
    if s != [] {
      SortSorts(s[1..]);
      InsertSorts(s[0], Sort(s[1..]));
    }
  }

  lemma SameMembers(a: seq<nat>, b: seq<nat>, n: nat)
    requires multiset(a) == multiset(b)
    ensures n in a <==> n in b
  {
    assert n in a <==> n in multiset(a);
    assert n in b <==> n in multiset(b);
  }

  /** In a sorted list, a number is there once where its neighbours differ from it. */
  lemma OnceWhere(whole: seq<nat>, i: nat, j: nat)
    requires NonDecreasing(whole) && i <= j < |whole| && whole[i] == whole[j]
    requires i > 0 ==> whole[i - 1] < whole[i]
    requires j + 1 < |whole| ==> whole[j] < whole[j + 1]
    ensures Once(whole, whole[i]) <==> i == j
  {
    var n := whole[i];
    assert whole == whole[..j] + [n] + whole[j + 1..];
    if i == j {
      assert n !in whole[..i] && n !in whole[i + 1..];
    } else {
      assert whole[..j][i] == n;
      assert n in multiset(whole[..j]);
    }
  }

  /** From `i` to `j` each number is followed by itself or the next. */
  predicate NoGaps(whole: seq<nat>, i: nat, j: nat)
    requires j < |whole|
  {
    forall k | i < k <= j :: whole[k] <= whole[k - 1] + 1
  }

  lemma {:induction false} Between(whole: seq<nat>, i: nat, j: nat, n: nat)
    requires i <= j < |whole| && NoGaps(whole, i, j) && whole[i] <= n <= whole[j]
    ensures n in whole[i..j + 1]
    decreases j
  {
    assert whole[i..j + 1][j - i] == whole[j];
    if n < whole[j] {
      Between(whole, i, j - 1, n);
      assert whole[i..j + 1] == whole[i..j] + [whole[j]];
    }
  }

  /** Past the last run there is a gap. */
  predicate Past(runs: seq<Run>, whole: seq<nat>, i: nat) {
    runs != [] && i < |whole| ==> runs[|runs| - 1].last + 1 < whole[i]
  }

  /** `whole.sort`ed numbers folded into runs, and each run's token. */
  method Fold(whole: seq<nat>) returns (tokens: seq<string>)
    requires NonDecreasing(whole)
    ensures exists runs :: IsRuns(runs, whole) && tokens == SpellAll(runs, whole)
  {
    tokens := [];
    ghost var runs: seq<Run> := [];
    var i := 0;
    while i < |whole|
      invariant 0 <= i <= |whole|
      invariant IsRuns(runs, whole[..i]) && Past(runs, whole, i)
      invariant tokens == SpellAll(runs, whole)
    {
      var j := i;
      while j + 1 < |whole| && whole[j + 1] <= whole[j] + 1
        invariant i <= j < |whole| && NoGaps(whole, i, j)
      {
        j := j + 1;
      }
      RunFolds(whole, i, j, runs);
      RunSpells(whole, i, j, runs);
      SpellSnoc(runs, Run(whole[i], whole[j]), whole);
      tokens := tokens + [if i == j then DigitsOf(whole[i]) else DigitsOf(whole[i]) + ".." + DigitsOf(whole[j])];
      runs := runs + [Run(whole[i], whole[j])];
      i := j + 1;
    }
    assert whole[..i] == whole;
  }

  lemma SpellSnoc(runs: seq<Run>, run: Run, whole: seq<nat>)
    ensures SpellAll(runs + [run], whole) == SpellAll(runs, whole) + [Spell(run, whole)]
  {
  }

  lemma SeparateSnoc(runs: seq<Run>, run: Run)
    requires Separate(runs) && run.first <= run.last
    requires runs != [] ==> runs[|runs| - 1].last + 1 < run.first
    ensures Separate(runs + [run])
  {
    var all, last := runs + [run], |runs|;
    forall i | 0 <= i < last ensures all[i].last + 1 < all[last].first {
      if i < last - 1 {
        assert runs[i].last + 1 < runs[last - 1].first;
      }
    }
  }

  /** One more run of a sorted list. */
  lemma RunFolds(whole: seq<nat>, i: nat, j: nat, runs: seq<Run>)
    requires NonDecreasing(whole) && i <= j < |whole| && NoGaps(whole, i, j)
    requires IsRuns(runs, whole[..i]) && Past(runs, whole, i)
    ensures IsRuns(runs + [Run(whole[i], whole[j])], whole[..j + 1])
  {
    var run := Run(whole[i], whole[j]);
    SeparateSnoc(runs, run);
    assert whole[..j + 1] == whole[..i] + whole[i..j + 1];
    forall n: nat ensures Covers(runs + [run], n) <==> n in whole[..j + 1] {
      CoversSnoc(runs, run, n);
      if run.first <= n <= run.last {
        Between(whole, i, j, n);
      }
    }
  }

  lemma RunSpells(whole: seq<nat>, i: nat, j: nat, runs: seq<Run>)
    requires NonDecreasing(whole) && i <= j < |whole| && (j + 1 < |whole| ==> whole[j] + 1 < whole[j + 1])
    requires IsRuns(runs, whole[..i]) && Past(runs, whole, i)
    ensures Spell(Run(whole[i], whole[j]), whole)
         == if i == j then DigitsOf(whole[i]) else DigitsOf(whole[i]) + ".." + DigitsOf(whole[j])
  {
    if whole[i] == whole[j] {
      if i > 0 {
        assert whole[i - 1] in whole[..i];
        var k := CoversWhere(runs, whole[i - 1]);
      }
      OnceWhere(whole, i, j);
    }
  }

  lemma RowsNext(reps: seq<Rep>, n: nat)
    requires n < |reps|
    ensures Wholes(reps[..n + 1]) == Wholes(reps[..n]) + if Folds(reps[n]) then [ValueOf(reps[n].number)] else []
    ensures Rest(reps[..n + 1]) == Rest(reps[..n]) + if Folds(reps[n]) then [] else [RowToken(reps[n])]
  {
    assert reps[..n + 1][..n] == reps[..n];
  }

  /** The rows in two heaps, unless one cannot be spelled. */
  method Heaps(reps: seq<Rep>) returns (spelt: bool, whole: seq<nat>, rest: seq<string>)
    ensures !spelt <==> exists rep | rep in reps :: Unspellable(rep.number)
    ensures spelt ==> whole == Wholes(reps) && rest == Rest(reps)
  {
    whole, rest := [], [];
    for n := 0 to |reps|
      invariant whole == Wholes(reps[..n]) && rest == Rest(reps[..n])
      invariant forall k | 0 <= k < n :: !Unspellable(reps[k].number)
    {
      var rep := reps[n];
      RowsNext(reps, n);
      if Unspellable(rep.number) {
        return false, [], [];
      }
      if rep.lang == "en" && IsWhole(rep.number) {
        whole := whole + [ValueOf(rep.number)];
      } else {
        rest := rest + [RowToken(rep)];
      }
    }
    assert reps[..|reps|] == reps;
    return true, whole, rest;
  }

  method TokensOf(reps: seq<Rep>) returns (tokens: Option<seq<string>>)
    ensures tokens.None? <==> exists rep | rep in reps :: Unspellable(rep.number)
    ensures tokens.Some? ==> Written(reps, tokens.value)
  {
    var spelt, whole, rest := Heaps(reps);
    if !spelt {
      return None;
    }
    var sorted := Sort(whole);
    SortSorts(whole);
    var folded := Fold(sorted);
    ghost var runs :| IsRuns(runs, sorted) && folded == SpellAll(runs, sorted);
    OfTheList(runs, sorted, whole);
    return Some(folded + SortDistinct(rest));
  }

  lemma OfTheList(runs: seq<Run>, sorted: seq<nat>, whole: seq<nat>)
    requires IsRuns(runs, sorted) && multiset(sorted) == multiset(whole)
    ensures IsRuns(runs, whole) && SpellAll(runs, sorted) == SpellAll(runs, whole)
  {
    forall n: nat ensures Covers(runs, n) <==> n in whole {
      SameMembers(sorted, whole, n);
    }
  }

  // ---- what the tokens depend on --------------------------------------------------------------------------

  /** A number without neighbours. */
  predicate Lone(whole: seq<nat>, n: nat) {
    n in whole && n + 1 !in whole && (n == 0 || n - 1 !in whole)
  }

  lemma LoneIsItsRun(runs: seq<Run>, whole: seq<nat>, n: nat)
    requires IsRuns(runs, whole)
    ensures Lone(whole, n) <==> Run(n, n) in runs
  {
    if Lone(whole, n) {
      var i := CoversWhere(runs, n);
      CoversHas(runs, i, runs[i].first);
      CoversHas(runs, i, runs[i].last);
      if runs[i].last > n {
        CoversHas(runs, i, n + 1);
      }
      if runs[i].first < n {
        CoversHas(runs, i, n - 1);
      }
      assert runs[i] == Run(n, n);
    }
    if Run(n, n) in runs {
      var i :| 0 <= i < |runs| && runs[i] == Run(n, n);
      CoversHas(runs, i, n);
      if n + 1 in whole {
        var j := CoversWhere(runs, n + 1);
        assert false;
      }
      if n > 0 && n - 1 in whole {
        var j := CoversWhere(runs, n - 1);
        assert false;
      }
    }
  }

  lemma SpellsDiffer(run: Run, a: seq<nat>, b: seq<nat>)
    ensures Spell(run, a) == Spell(run, b)
       <==> run.first != run.last || (Once(a, run.first) <==> Once(b, run.first))
  {
  }

  /** Whether a number without neighbours is there once or more often. */
  ghost predicate LoneAlike(a: seq<Rep>, b: seq<Rep>) {
    forall n: nat | Lone(Wholes(a), n) ::
      multiset(a)[Rep(DigitsOf(n), "en")] == 1 <==> multiset(b)[Rep(DigitsOf(n), "en")] == 1
  }

  lemma RunsSpelledAlike(runs: seq<Run>, a: seq<Rep>, b: seq<Rep>)
    requires IsRuns(runs, Wholes(a))
    ensures SpellAll(runs, Wholes(a)) == SpellAll(runs, Wholes(b)) <==> LoneAlike(a, b)
  {
    var wa, wb := Wholes(a), Wholes(b);
    if SpellAll(runs, wa) == SpellAll(runs, wb) {
      forall n: nat | Lone(wa, n)
        ensures multiset(a)[Rep(DigitsOf(n), "en")] == 1 <==> multiset(b)[Rep(DigitsOf(n), "en")] == 1
      {
        LoneIsItsRun(runs, wa, n);
        var i :| 0 <= i < |runs| && runs[i] == Run(n, n);
        assert SpellAll(runs, wa)[i] == SpellAll(runs, wb)[i];
        SpellsDiffer(runs[i], wa, wb);
        WholesCount(a, n);
        WholesCount(b, n);
      }
    }
    if LoneAlike(a, b) {
      forall i | 0 <= i < |runs| ensures Spell(runs[i], wa) == Spell(runs[i], wb) {
        SpellsDiffer(runs[i], wa, wb);
        if runs[i].first == runs[i].last {
          LoneIsItsRun(runs, wa, runs[i].first);
          WholesCount(a, runs[i].first);
          WholesCount(b, runs[i].first);
        }
      }
    }
  }

  /**
   * The same rows, in whatever order and however often, are written alike exactly when every number without
   * neighbours is there once in both or more than once in both.
   */
  lemma SameTokensExactly(a: seq<Rep>, b: seq<Rep>, ta: seq<string>, tb: seq<string>)
    requires SameElements(a, b) && Written(a, ta) && Written(b, tb)
    ensures ta == tb <==> LoneAlike(a, b)
  {
    var ra :| IsRuns(ra, Wholes(a)) && ta == SpellAll(ra, Wholes(a)) + SortDistinct(Rest(a));
    var rb :| IsRuns(rb, Wholes(b)) && tb == SpellAll(rb, Wholes(b)) + SortDistinct(Rest(b));
    forall n: nat ensures Covers(ra, n) <==> Covers(rb, n) {
      WholesHas(a, n);
      WholesHas(b, n);
    }
    RunsUnique(ra, rb);
    forall t ensures t in Rest(a) <==> t in Rest(b) {
      RestHas(a, t);
      RestHas(b, t);
    }
    SortOfSet(Rest(a), Rest(b));
    RunsSpelledAlike(ra, a, b);
    SameFronts(SpellAll(ra, Wholes(a)), SpellAll(ra, Wholes(b)), SortDistinct(Rest(a)));
  }

  lemma SameFronts(a: seq<string>, b: seq<string>, rest: seq<string>)
    requires |a| == |b|
    ensures a + rest == b + rest <==> a == b
  {
    assert (a + rest)[..|a|] == a && (b + rest)[..|b|] == b;
  }

  /** In particular, the order of the rows does not matter. */
  lemma OrderDoesNotMatter(a: seq<Rep>, b: seq<Rep>, ta: seq<string>, tb: seq<string>)
    requires multiset(a) == multiset(b) && Written(a, ta) && Written(b, tb)
    ensures ta == tb
  {
    forall r ensures r in a <==> r in b {
      assert r in a <==> r in multiset(a);
      assert r in b <==> r in multiset(b);
    }
    SameTokensExactly(a, b, ta, tb);
  }

  /** How often a row is there can matter: the number five, listed twice, is written as a run. */
  lemma RepeatsCanMatter(once: seq<string>, twice: seq<string>)
    requires Written([Rep("5", "en")], once) && Written([Rep("5", "en"), Rep("5", "en")], twice)
    ensures once != twice
  {
    var five := Rep("5", "en");
    var a, b := [five], [five, five];
    assert DigitsOf(5) == "5";
    WholesHas(a, 5);
    forall n: nat | n == 4 || n == 6 ensures n !in Wholes(a) {
      WholesHas(a, n);
      assert DigitsOf(n)[0] != '5';
    }
    assert Lone(Wholes(a), 5);
    assert multiset(a)[five] == 1 && multiset(b)[five] == 2;
    SameTokensExactly(a, b, once, twice);
  }

  // ---- the reader ---------------------------------------------------------------------------------------

  /** A whole number as the reader has it, in 32 bits. */
  function Whole(s: string): Option<nat> {
    if IsWhole(s) && AllDigits(s) && ValueOf(s) < TWO_32 then Some(ValueOf(s)) else None
  }

  datatype Read = InRun(run: Run) | Row(text: string) | Panic

  function ReadToken(token: string): Read {
    var d := Dots(token);
    if d < |token| then
      var first, last := Whole(token[..d]), Whole(token[d + 2..]);
      if first.Some? && last.Some? && first.value <= last.value then InRun(Run(first.value, last.value)) else Panic
    else if Whole(token).Some? then InRun(Run(Whole(token).value, Whole(token).value))
    else Row(token)
  }

  /**
   * A set's runs, and its other rows. The reader sorts both: the runs are ascending as they come, and of the
   * rows it asks only whether one is there.
   */
  datatype SetReps = SetReps(runs: seq<Run>, rows: set<string>)

  function Add(parsed: Option<SetReps>, read: Read): Option<SetReps> {
    match (parsed, read)
    case (None, _) => None
    case (_, Panic) => None
    case (Some(t), InRun(run)) => Some(SetReps(t.runs + [run], t.rows))
    case (Some(t), Row(text)) => Some(SetReps(t.runs, t.rows + {text}))
  }

  /** None where the reader panics. */
  function Parse(tokens: seq<string>): Option<SetReps> {
    if tokens == [] then Some(SetReps([], {}))
    else Add(Parse(tokens[..|tokens| - 1]), ReadToken(tokens[|tokens| - 1]))
  }

  /** How many runs start at or before `n`. */
  function PartitionPoint(runs: seq<Run>, n: nat): (at: nat)
    ensures at <= |runs|
  {
    if runs == [] || runs[0].first > n then 0 else 1 + PartitionPoint(runs[1..], n)
  }

  predicate Verdict(t: SetReps, asked: Rep) {
    if asked.lang == "en" && Whole(asked.number).Some? then
      var n := Whole(asked.number).value;
      var at := PartitionPoint(t.runs, n);
      at > 0 && n <= t.runs[at - 1].last
    else RowToken(asked) in t.rows
  }

  lemma {:induction false} PointCovers(runs: seq<Run>, n: nat)
    requires Separate(runs)
    ensures var at := PartitionPoint(runs, n);
            Covers(runs, n) <==> at > 0 && n <= runs[at - 1].last
  {
    if runs != [] {
      PointCovers(runs[1..], n);
      CoversTail(runs, n);
    }
  }

  // ---- reading what was written ---------------------------------------------------------------------------

  /** The dots are where they were put. */
  lemma {:induction false} DotsAfter(s: string, rest: string)
    requires forall i | 0 <= i < |s| :: s[i] != '.'
    ensures Dots(s + ".." + rest) == |s|
  {
    if s != [] {
      DotsAfter(s[1..], rest);
      assert (s + ".." + rest)[1..] == s[1..] + ".." + rest;
    }
  }

  lemma {:induction false} NoDots(s: string)
    requires forall i | 0 <= i < |s| :: s[i] != '.'
    ensures !HasDots(s)
  {
    if |s| >= 2 {
      NoDots(s[1..]);
    }
  }

  lemma {:induction false} NoDotsJoined(a: string, b: string)
    requires !HasDots(a) && !HasDots(b)
    ensures !HasDots(a + "@" + b)
  {
    if a == [] {
      assert "" + "@" + b == "@" + b;
      assert ("@" + b)[1..] == b;
    } else {
      var s := a + "@" + b;
      assert s[1..] == a[1..] + "@" + b;
      if |a| == 1 {
        assert a[1..] == "";
      }
      NoDotsJoined(a[1..], b);
    }
  }

  lemma DigitsHaveNoDots(n: nat)
    ensures forall i | 0 <= i < |DigitsOf(n)| :: DigitsOf(n)[i] != '.'
  {
    DigitsAreWhole(n);
  }

  /** A run is read as it was meant, or not at all; a number beyond 32 bits on its own is a row. */
  lemma ReadsRun(run: Run, whole: seq<nat>)
    requires run.first <= run.last
    ensures ReadToken(Spell(run, whole)) == ReadOf(run, whole)
  {
    var a, b := DigitsOf(run.first), DigitsOf(run.last);
    DigitsAreWhole(run.first);
    DigitsAreWhole(run.last);
    DigitsHaveNoDots(run.first);
    if run.first == run.last && Once(whole, run.first) {
      NoDots(a);
    } else {
      DotsAfter(a, b);
      var token := a + ".." + b;
      assert token[..|a|] == a && token[|a| + 2..] == b;
    }
  }

  lemma NotWholeToken(rep: Rep)
    requires !Folds(rep)
    ensures !IsWhole(RowToken(rep))
  {
    if rep.lang != "en" {
      assert RowToken(rep)[|rep.number|] == '@';
    }
  }

  lemma ReadsRow(rep: Rep)
    requires !Unspellable(rep.number) && !Folds(rep) && !HasDots(rep.lang)
    ensures ReadToken(RowToken(rep)) == Row(RowToken(rep))
  {
    if rep.lang != "en" {
      NoDotsJoined(rep.number, rep.lang);
    }
    NotWholeToken(rep);
  }

  /** The runs the reader keeps, and the numbers it keeps as rows. */
  function Kept(runs: seq<Run>): seq<Run> {
    if runs == [] then []
    else
      var last := |runs| - 1;
      Kept(runs[..last]) + if runs[last].last < TWO_32 then [runs[last]] else []
  }

  function Large(runs: seq<Run>): set<string> {
    if runs == [] then {}
    else
      var last := |runs| - 1;
      Large(runs[..last]) + if runs[last].last < TWO_32 then {} else {DigitsOf(runs[last].first)}
  }

  predicate Readable(run: Run, whole: seq<nat>) {
    run.last < TWO_32 || (run.first == run.last && Once(whole, run.first))
  }

  lemma ParseNext(tokens: seq<string>, token: string)
    ensures Parse(tokens + [token]) == Add(Parse(tokens), ReadToken(token))
  {
    assert (tokens + [token])[..|tokens|] == tokens;
  }

  predicate AllReadable(runs: seq<Run>, whole: seq<nat>) {
    forall i | 0 <= i < |runs| :: Readable(runs[i], whole)
  }

  lemma AllReadableNext(front: seq<Run>, run: Run, whole: seq<nat>)
    ensures AllReadable(front + [run], whole) <==> AllReadable(front, whole) && Readable(run, whole)
  {
    var runs := front + [run];
    assert runs[|front|] == run;
    if AllReadable(runs, whole) {
      forall i | 0 <= i < |front| ensures Readable(front[i], whole) {
        assert runs[i] == front[i];
      }
    }
  }

  lemma KeptNext(front: seq<Run>, run: Run)
    ensures Kept(front + [run]) == Kept(front) + if run.last < TWO_32 then [run] else []
    ensures Large(front + [run]) == Large(front) + if run.last < TWO_32 then {} else {DigitsOf(run.first)}
  {
    assert (front + [run])[..|front|] == front;
  }

  /** How a run's token is to be read. */
  function ReadOf(run: Run, whole: seq<nat>): Read {
    if run.last < TWO_32 then InRun(run) else if Readable(run, whole) then Row(DigitsOf(run.first)) else Panic
  }

  function Outcome(runs: seq<Run>, whole: seq<nat>): Option<SetReps> {
    if AllReadable(runs, whole) then Some(SetReps(Kept(runs), Large(runs))) else None
  }

  lemma OutcomeNext(front: seq<Run>, run: Run, whole: seq<nat>)
    ensures Outcome(front + [run], whole) == Add(Outcome(front, whole), ReadOf(run, whole))
  {
    AllReadableNext(front, run, whole);
    KeptNext(front, run);
    assert Kept(front) + [] == Kept(front);
    assert Large(front) + {} == Large(front);
  }

  lemma {:induction false} ParsesRuns(runs: seq<Run>, whole: seq<nat>)
    requires forall i | 0 <= i < |runs| :: runs[i].first <= runs[i].last
    ensures Parse(SpellAll(runs, whole)) == Outcome(runs, whole)
  {
    if runs != [] {
      var last := |runs| - 1;
      var front, run := runs[..last], runs[last];
      ParsesRuns(front, whole);
      SpellSnoc(front, run, whole);
      ParseNext(SpellAll(front, whole), Spell(run, whole));
      ReadsRun(run, whole);
      OutcomeNext(front, run, whole);
      assert runs == front + [run];
    }
  }

  function ToSet(s: seq<string>): set<string> {
    set x | x in s
  }

  lemma {:induction false} ParsesRows(tokens: seq<string>, rows: seq<string>)
    requires forall t | t in rows :: ReadToken(t) == Row(t)
    ensures Parse(tokens + rows)
         == match Parse(tokens) case None => None case Some(t) => Some(SetReps(t.runs, t.rows + ToSet(rows)))
  {
    if rows == [] {
      assert tokens + rows == tokens;
      if Parse(tokens).Some? {
        assert Parse(tokens).value.rows + ToSet(rows) == Parse(tokens).value.rows;
      }
    } else {
      var last := |rows| - 1;
      ParsesRows(tokens, rows[..last]);
      assert tokens + rows == tokens + rows[..last] + [rows[last]];
      ParseNext(tokens + rows[..last], rows[last]);
      assert rows == rows[..last] + [rows[last]];
      assert ToSet(rows) == ToSet(rows[..last]) + {rows[last]};
      if Parse(tokens).Some? {
        var t := Parse(tokens).value;
        assert t.rows + ToSet(rows[..last]) + {rows[last]} == t.rows + ToSet(rows);
      }
    }
  }

  lemma {:induction false} KeptBelongs(runs: seq<Run>, run: Run)
    ensures run in Kept(runs) <==> run in runs && run.last < TWO_32
  {
    if runs != [] {
      var last := |runs| - 1;
      KeptBelongs(runs[..last], run);
      assert runs == runs[..last] + [runs[last]];
    }
  }

  lemma {:induction false} KeptSeparate(runs: seq<Run>)
    requires Separate(runs)
    ensures Separate(Kept(runs))
  {
    if runs != [] {
      var last := |runs| - 1;
      KeptSeparate(runs[..last]);
      var front := Kept(runs[..last]);
      forall i | 0 <= i < |front| ensures front[i].last + 1 < runs[last].first {
        KeptBelongs(runs[..last], front[i]);
      }
    }
  }

  lemma {:induction false} LargeHas(runs: seq<Run>, i: nat)
    requires i < |runs| && runs[i].last >= TWO_32
    ensures DigitsOf(runs[i].first) in Large(runs)
  {
    if i < |runs| - 1 {
      LargeHas(runs[..|runs| - 1], i);
    }
  }

  lemma {:induction false} LargeWhere(runs: seq<Run>, s: string) returns (i: nat)
    requires s in Large(runs)
    ensures i < |runs| && runs[i].last >= TWO_32 && s == DigitsOf(runs[i].first)
  {
    var last := |runs| - 1;
    if s in Large(runs[..last]) {
      i := LargeWhere(runs[..last], s);
    } else {
      i := last;
    }
  }

  /** A number in 32 bits is in the runs the reader keeps when it is in the runs. */
  lemma KeptCovers(runs: seq<Run>, n: nat)
    requires Separate(runs) && n < TWO_32
    requires forall run | run in runs :: run.last < TWO_32 || run.first == run.last
    ensures Covers(Kept(runs), n) <==> Covers(runs, n)
  {
    if Covers(Kept(runs), n) {
      var i := CoversWhere(Kept(runs), n);
      KeptBelongs(runs, Kept(runs)[i]);
      var j :| 0 <= j < |runs| && runs[j] == Kept(runs)[i];
      CoversHas(runs, j, n);
    }
    if Covers(runs, n) {
      var i := CoversWhere(runs, n);
      KeptBelongs(runs, runs[i]);
      var j :| 0 <= j < |Kept(runs)| && Kept(runs)[j] == runs[i];
      CoversHas(Kept(runs), j, n);
    }
  }

  /** And a larger one among its rows. */
  lemma LargeCovers(runs: seq<Run>, n: nat)
    requires Separate(runs) && n >= TWO_32
    requires forall run | run in runs :: run.last < TWO_32 || run.first == run.last
    ensures DigitsOf(n) in Large(runs) <==> Covers(runs, n)
  {
    if Covers(runs, n) {
      var i := CoversWhere(runs, n);
      assert runs[i] in runs && runs[i] == Run(n, n);
      LargeHas(runs, i);
    } else if DigitsOf(n) in Large(runs) {
      var i := LargeWhere(runs, DigitsOf(n));
      assert runs[i] in runs;
      DigitsTell(n, runs[i].first);
      CoversHas(runs, i, n);
    }
  }

  /** Rows as they come from the search: numbers the table can spell, and language codes without dots. */
  ghost predicate Spellable(reps: seq<Rep>) {
    forall rep | rep in reps :: !Unspellable(rep.number) && !HasDots(rep.lang)
  }

  /** Every whole number beyond 32 bits is there once and has no neighbours. */
  ghost predicate LargeStandAlone(reps: seq<Rep>) {
    forall n: nat | n in Wholes(reps) && n >= TWO_32 ::
      Lone(Wholes(reps), n) && multiset(reps)[Rep(DigitsOf(n), "en")] == 1
  }

  lemma ReadableExactly(runs: seq<Run>, reps: seq<Rep>)
    requires IsRuns(runs, Wholes(reps))
    ensures AllReadable(runs, Wholes(reps)) <==> LargeStandAlone(reps)
  {
    var whole := Wholes(reps);
    if AllReadable(runs, whole) {
      forall n: nat | n in whole && n >= TWO_32
        ensures Lone(whole, n) && multiset(reps)[Rep(DigitsOf(n), "en")] == 1
      {
        var i := CoversWhere(runs, n);
        assert runs[i] == Run(n, n);
        LoneIsItsRun(runs, whole, n);
        WholesCount(reps, n);
      }
    }
    if LargeStandAlone(reps) {
      forall i | 0 <= i < |runs| ensures Readable(runs[i], whole) {
        var n := runs[i].last;
        if n >= TWO_32 {
          CoversHas(runs, i, n);
          LoneIsItsRun(runs, whole, n);
          var j :| 0 <= j < |runs| && runs[j] == Run(n, n);
          assert i == j;
          WholesCount(reps, n);
        }
      }
    }
  }

  /** What the reader makes of what was written. */
  lemma ParsesWritten(reps: seq<Rep>, runs: seq<Run>, tokens: seq<string>)
    requires Spellable(reps) && IsRuns(runs, Wholes(reps))
    requires tokens == SpellAll(runs, Wholes(reps)) + SortDistinct(Rest(reps))
    ensures Parse(tokens)
         == if LargeStandAlone(reps) then Some(SetReps(Kept(runs), Large(runs) + ToSet(SortDistinct(Rest(reps))))) else None
  {
    var rows := SortDistinct(Rest(reps));
    forall t | t in rows ensures ReadToken(t) == Row(t) {
      assert t in Rest(reps);
      RestHas(reps, t);
      var rep :| rep in reps && !Folds(rep) && RowToken(rep) == t;
      ReadsRow(rep);
    }
    ParsesRuns(runs, Wholes(reps));
    ParsesRows(SpellAll(runs, Wholes(reps)), rows);
    ReadableExactly(runs, reps);
  }

  /** The reader takes the table exactly when its large numbers stand alone; it panics otherwise. */
  lemma ParsesExactly(reps: seq<Rep>, tokens: seq<string>)
    requires Spellable(reps) && Written(reps, tokens)
    ensures Parse(tokens).Some? <==> LargeStandAlone(reps)
  {
    var runs :| IsRuns(runs, Wholes(reps)) && tokens == SpellAll(runs, Wholes(reps)) + SortDistinct(Rest(reps));
    ParsesWritten(reps, runs, tokens);
  }

  lemma DigitsAreSpellable(n: nat)
    ensures Spellable([Rep(DigitsOf(n), "en")])
  {
    DigitsHaveNoDots(n);
    NoDots(DigitsOf(n));
    NoDots("en");
    DigitsHaveNoMarks(n);
  }

  lemma DigitsHaveNoMarks(n: nat)
    ensures DigitsOf(n) != "" && forall c | c in DigitsOf(n) :: !IsSpace(c) && c != '@'
  {
    DigitsAreWhole(n);
    forall c | c in DigitsOf(n) ensures IsDigit(c) {
      var i :| 0 <= i < |DigitsOf(n)| && DigitsOf(n)[i] == c;
    }
  }

  /** A number of 2^32 next to the one before it: written as a run the reader panics on. */
  lemma LargeRunPanics(tokens: seq<string>)
    requires Written([Rep(DigitsOf(TWO_32 - 1), "en"), Rep(DigitsOf(TWO_32), "en")], tokens)
    ensures Parse(tokens) == None
  {
    var low, high := Rep(DigitsOf(TWO_32 - 1), "en"), Rep(DigitsOf(TWO_32), "en");
    var reps := [low, high];
    DigitsAreSpellable(TWO_32 - 1);
    DigitsAreSpellable(TWO_32);
    assert low in [low] && high in [high];
    WholesHas(reps, TWO_32 - 1);
    WholesHas(reps, TWO_32);
    assert !Lone(Wholes(reps), TWO_32);
    ParsesExactly(reps, tokens);
  }

  lemma AtSplits(a: string, l: string, b: string, m: string)
    requires '@' !in a && '@' !in b && a + "@" + l == b + "@" + m
    ensures a == b && l == m
  {
    var s := a + "@" + l;
    assert s[|a|] == '@' && s[|b|] == '@';
    assert forall k | 0 <= k < |a| :: s[k] == a[k] && a[k] in a;
    assert forall k | 0 <= k < |b| :: s[k] == b[k] && b[k] in b;
    assert |a| == |b|;
    assert s[..|a|] == a && s[..|b|] == b && s[|a| + 1..] == l && s[|b| + 1..] == m;
  }

  lemma AtInToken(rep: Rep)
    requires '@' !in rep.number
    ensures '@' in RowToken(rep) <==> rep.lang != "en"
  {
    if rep.lang != "en" {
      assert RowToken(rep)[|rep.number|] == '@';
    }
  }

  lemma RowTokensTellRows(a: Rep, b: Rep)
    requires '@' !in a.number && '@' !in b.number && RowToken(a) == RowToken(b)
    ensures a == b
  {
    AtInToken(a);
    AtInToken(b);
    if a.lang != "en" && b.lang != "en" {
      AtSplits(a.number, a.lang, b.number, b.lang);
    }
  }

  /** A row that is not folded is among the other rows exactly when it was in the input. */
  lemma RestTellsRows(reps: seq<Rep>, asked: Rep)
    requires Spellable(reps) && '@' !in asked.number && !Folds(asked)
    ensures RowToken(asked) in Rest(reps) <==> asked in reps
  {
    RestHas(reps, RowToken(asked));
    if RowToken(asked) in Rest(reps) {
      var rep :| rep in reps && !Folds(rep) && RowToken(rep) == RowToken(asked);
      RowTokensTellRows(rep, asked);
    }
  }

  lemma LargeAreWhole(runs: seq<Run>, s: string)
    requires s in Large(runs)
    ensures IsWhole(s)
  {
    var i := LargeWhere(runs, s);
    DigitsAreWhole(runs[i].first);
  }

  lemma RestAreNotWhole(reps: seq<Rep>, s: string)
    requires Spellable(reps) && s in Rest(reps)
    ensures !IsWhole(s)
  {
    RestHas(reps, s);
    var rep :| rep in reps && !Folds(rep) && RowToken(rep) == s;
    NotWholeToken(rep);
  }

  /** An English whole number, asked of the runs kept and the rows. */
  lemma FoldedTold(reps: seq<Rep>, runs: seq<Run>, asked: Rep)
    requires Spellable(reps) && IsRuns(runs, Wholes(reps)) && AllReadable(runs, Wholes(reps)) && Folds(asked)
    ensures ValueOf(asked.number) < TWO_32 ==> (Covers(Kept(runs), ValueOf(asked.number)) <==> asked in reps)
    ensures ValueOf(asked.number) >= TWO_32 ==> (asked.number in Large(runs) <==> asked in reps)
  {
    WholeIsDigits(asked.number);
    var n := ValueOf(asked.number);
    WholesHas(reps, n);
    forall run | run in runs ensures run.last < TWO_32 || run.first == run.last {
      var i :| 0 <= i < |runs| && runs[i] == run;
      assert Readable(runs[i], Wholes(reps));
    }
    if n < TWO_32 {
      KeptCovers(runs, n);
    } else {
      LargeCovers(runs, n);
    }
  }

  /** The reader's verdict, by what it looks in. */
  lemma VerdictIs(runs: seq<Run>, rows: set<string>, asked: Rep)
    requires Separate(runs) && (Folds(asked) ==> AllDigits(asked.number))
    ensures Verdict(SetReps(runs, rows), asked)
         <==> if Folds(asked) && ValueOf(asked.number) < TWO_32 then Covers(runs, ValueOf(asked.number))
              else RowToken(asked) in rows
  {
    if Folds(asked) && ValueOf(asked.number) < TWO_32 {
      PointCovers(runs, ValueOf(asked.number));
    }
  }

  /** What the tokens say of a row, read back, is whether it was one of the rows they were written for. */
  lemma VerdictExact(reps: seq<Rep>, tokens: seq<string>, asked: Rep)
    requires Spellable(reps) && Written(reps, tokens) && Parse(tokens).Some?
    requires '@' !in asked.number
    ensures Verdict(Parse(tokens).value, asked) <==> asked in reps
  {
    var runs :| IsRuns(runs, Wholes(reps)) && tokens == SpellAll(runs, Wholes(reps)) + SortDistinct(Rest(reps));
    var rest := SortDistinct(Rest(reps));
    ParsesWritten(reps, runs, tokens);
    ReadableExactly(runs, reps);
    KeptSeparate(runs);
    VerdictIs(Kept(runs), Large(runs) + ToSet(rest), asked);
    if Folds(asked) {
      FoldedTold(reps, runs, asked);
      if asked.number in Rest(reps) {
        RestAreNotWhole(reps, asked.number);
      }
    } else {
      RestTellsRows(reps, asked);
      NotWholeToken(asked);
      if RowToken(asked) in Large(runs) {
        LargeAreWhole(runs, RowToken(asked));
      }
    }
  }
}
