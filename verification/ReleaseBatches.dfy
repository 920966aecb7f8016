/**
 * Set order inside one release date (scripts/generate-release-batches.ts): the batch boundaries a
 * date's measured sequence hides, found by asking about pairs of sets, and the batch numbers they give.
 */
module ReleaseBatches {
  import opened Wrappers
  import opened CodeOrder

  // ---- the measured sequence --------------------------------------------------------------------------

  predicate Distinct(s: seq<string>) {
    forall i, j | 0 <= i < j < |s| :: s[i] != s[j]
  }

  /** Every set's cards stand together. */
  predicate Contiguous(cards: seq<string>) {
    forall i, j, k | 0 <= i < j < k < |cards| && cards[i] == cards[k] :: cards[j] == cards[i]
  }

  /** `ask`, from the sets of the cards answered: each set once, in order; None where the script throws. */
  method Ask(cards: seq<string>) returns (r: Option<seq<string>>)
    ensures r.Some? <==> Contiguous(cards)
    ensures r.Some? ==> Distinct(r.value) && SameElements(r.value, cards)
    ensures r.Some? ==> forall i, j | 0 <= i < j < |r.value| ::
                          forall x, y | 0 <= x < |cards| && 0 <= y < |cards| && cards[x] == r.value[i] && cards[y] == r.value[j] :: x < y
  {
    var s: seq<string> := [];
    for n := 0 to |cards|
      invariant Contiguous(cards[..n])
      invariant Distinct(s) && SameElements(s, cards[..n])
      invariant n > 0 ==> |s| > 0 && s[|s| - 1] == cards[n - 1]
      invariant forall i, j | 0 <= i < j < |s| ::
                  forall x, y | 0 <= x < n && 0 <= y < n && cards[x] == s[i] && cards[y] == s[j] :: x < y
    {
      assert cards[..n + 1] == cards[..n] + [cards[n]];
      if s != [] && s[|s| - 1] == cards[n] {
        continue;
      }
      if cards[n] in s {
        assert cards[n] in cards[..n];
        return None;
      }
      s := s + [cards[n]];
    }
    assert cards[..|cards|] == cards;
    return Some(s);
  }

  // ---- asking about pairs ---------------------------------------------------------------------------

  /**
   * A date: its sequence, the card two sets share (`None`: no card to ask about), and the answer to
   * "is the second set in a later batch than the first" (`None`: the search did not say).
   */
  datatype Date = Date(sets: seq<string>, shares: (string, string) -> Option<string>,
                       later: (string, string, string) -> Option<bool>)

  /** The answer about the sets at two places, where they share a card. */
  function Answer(d: Date, i: nat, j: nat): Option<bool>
    requires i < |d.sets| && j < |d.sets|
  {
    var oracle := d.shares(d.sets[i], d.sets[j]);
    if oracle.None? then None else d.later(oracle.value, d.sets[i], d.sets[j])
  }

  predicate Share(d: Date, i: nat, j: nat)
    requires i < |d.sets| && j < |d.sets|
  {
    d.shares(d.sets[i], d.sets[j]).Some?
  }

  /** Boundaries found, and the pairs proven to be in one batch. */
  datatype Found = Found(cuts: set<nat>, same: set<(nat, nat)>)

  predicate Covered(same: set<(nat, nat)>, k: nat) {
    exists p | p in same :: p.0 < k <= p.1
  }

  predicate Spanned(same: set<(nat, nat)>, i: nat, j: nat) {
    exists p | p in same :: p.0 <= i && j <= p.1
  }

  predicate CutBetween(cuts: set<nat>, i: nat, j: nat) {
    exists k | k in cuts :: i < k <= j
  }

  predicate AllCovered(same: set<(nat, nat)>, i: nat, j: nat) {
    forall k | i < k <= j :: Covered(same, k)
  }

  /** The last place up to `k` no proven pair covers; `i` when every place after `i` is covered. */
  function LatestFree(same: set<(nat, nat)>, i: nat, k: nat): (r: nat)
    requires i <= k
    ensures i <= r <= k
    ensures r > i ==> !Covered(same, r)
    ensures r == i <==> AllCovered(same, i, k)
    ensures forall x | r < x <= k :: Covered(same, x)
  {
    if k > i && Covered(same, k) then LatestFree(same, i, k - 1) else k
  }

  function AskPair(d: Date, f: Found, i: nat, j: nat): Found
    requires i < j < |d.sets|
  {
    if Spanned(f.same, i, j) || CutBetween(f.cuts, i, j) then f
    else match Answer(d, i, j)
      case None => f
      case Some(false) => f.(same := f.same + {(i, j)})
      case Some(true) =>
        var k := LatestFree(f.same, i, j);
        if k > i then f.(cuts := f.cuts + {k}) else f
  }

  /** The pairs `span` apart of the run [start, end), from the one at `i` on. */
  function AskSpan(d: Date, f: Found, span: nat, i: nat, end: nat): Found
    requires span > 0 && end <= |d.sets|
    decreases end - i
  {
    if i + span >= end then f else AskSpan(d, AskPair(d, f, i, i + span), span, i + 1, end)
  }

  /** Narrow pairs first. */
  function AskRun(d: Date, f: Found, span: nat, start: nat, end: nat): Found
    requires span > 0 && start <= end <= |d.sets|
    decreases end - start - span
  {
    if span >= end - start then f else AskRun(d, AskSpan(d, f, span, start, end), span + 1, start, end)
  }

  /** Every alphabetical run from `start` on; a run's proven pairs say nothing about another run. */
  function AskRuns(d: Date, f: Found, start: nat, end: nat): Found
    requires start < end
    decreases |d.sets| + 1 - end
  {
    if end > |d.sets| then f
    else if end < |d.sets| && Less(d.sets[end - 1], d.sets[end]) then AskRuns(d, f, start, end + 1)
    else
      var run := AskRun(d, Found(f.cuts, {}), 1, start, end);
      AskRuns(d, Found(run.cuts, f.same + run.same), end, end + 1)
  }

  function Hidden(d: Date): Found {
    AskRuns(d, Found({}, {}), 0, 1)
  }

  /** An unsettled pair is answered "later" and proven pairs leave no place for its boundary: the script warns. */
  predicate Stuck(d: Date, f: Found, i: nat, j: nat)
    requires i < j < |d.sets|
  {
    && !Spanned(f.same, i, j) && !CutBetween(f.cuts, i, j)
    && Answer(d, i, j) == Some(true) && LatestFree(f.same, i, j) == i
  }

  predicate StuckInSpan(d: Date, f: Found, span: nat, i: nat, end: nat)
    requires span > 0 && end <= |d.sets|
    decreases end - i
  {
    i + span < end && (Stuck(d, f, i, i + span) || StuckInSpan(d, AskPair(d, f, i, i + span), span, i + 1, end))
  }

  predicate StuckInRun(d: Date, f: Found, span: nat, start: nat, end: nat)
    requires span > 0 && start <= end <= |d.sets|
    decreases end - start - span
  {
    span < end - start
    && (StuckInSpan(d, f, span, start, end) || StuckInRun(d, AskSpan(d, f, span, start, end), span + 1, start, end))
  }

  predicate StuckInRuns(d: Date, f: Found, start: nat, end: nat)
    requires start < end
    decreases |d.sets| + 1 - end
  {
    if end > |d.sets| then false
    else if end < |d.sets| && Less(d.sets[end - 1], d.sets[end]) then StuckInRuns(d, f, start, end + 1)
    else
      var run := AskRun(d, Found(f.cuts, {}), 1, start, end);
      StuckInRun(d, Found(f.cuts, {}), 1, start, end) || StuckInRuns(d, Found(run.cuts, f.same + run.same), end, end + 1)
  }

  predicate StuckAnywhere(d: Date) {
    StuckInRuns(d, Found({}, {}), 0, 1)
  }

  /** hiddenCuts, with its nested loops; `skipped` is whether it warned of a boundary with no place left. */
  method HiddenCuts(d: Date) returns (cuts: set<nat>, skipped: bool)
    ensures cuts == Hidden(d).cuts
    ensures skipped <==> StuckAnywhere(d)
  {
    cuts, skipped := {}, false;
    var start := 0;
    ghost var proven: set<(nat, nat)> := {};
    var end := 1;
    while end <= |d.sets|
      invariant start < end <= |d.sets| + 1
      invariant AskRuns(d, Found(cuts, proven), start, end) == Hidden(d)
      invariant skipped || StuckInRuns(d, Found(cuts, proven), start, end) <==> StuckAnywhere(d)
    {
      if end < |d.sets| && Less(d.sets[end - 1], d.sets[end]) {
        end := end + 1;
        continue;
      }
      var same, stuck;
      cuts, same, stuck := AskOneRun(d, cuts, start, end);
      skipped := skipped || stuck;
      proven := proven + same;
      start := end;
      end := end + 1;
    }
  }

  /** The pairs of one run, narrow ones first. */
  method AskOneRun(d: Date, before: set<nat>, start: nat, end: nat)
    returns (cuts: set<nat>, same: set<(nat, nat)>, skipped: bool)
    requires start < end <= |d.sets|
    ensures Found(cuts, same) == AskRun(d, Found(before, {}), 1, start, end)
    ensures skipped <==> StuckInRun(d, Found(before, {}), 1, start, end)
  {
    cuts, same, skipped := before, {}, false;
    var span := 1;
    while span < end - start
      invariant span >= 1
      invariant AskRun(d, Found(cuts, same), span, start, end) == AskRun(d, Found(before, {}), 1, start, end)
      invariant skipped || StuckInRun(d, Found(cuts, same), span, start, end)
           <==> StuckInRun(d, Found(before, {}), 1, start, end)
    {
      var i := start;
      ghost var f := Found(cuts, same);
      ghost var already := skipped;
      while i + span < end
        invariant start <= i
        invariant AskSpan(d, Found(cuts, same), span, i, end) == AskSpan(d, f, span, start, end)
        invariant skipped || StuckInSpan(d, Found(cuts, same), span, i, end)
             <==> already || StuckInSpan(d, f, span, start, end)
        decreases end - i
      {
        var stuck;
        cuts, same, stuck := AskOne(d, cuts, same, i, i + span);
        skipped := skipped || stuck;
        i := i + 1;
      }
      span := span + 1;
    }
  }

  /** The loop body: what one pair adds, and whether its boundary had no place left. */
  method AskOne(d: Date, cuts: set<nat>, same: set<(nat, nat)>, i: nat, j: nat)
    returns (cuts': set<nat>, same': set<(nat, nat)>, stuck: bool)
    requires i < j < |d.sets|
    ensures Found(cuts', same') == AskPair(d, Found(cuts, same), i, j)
    ensures stuck <==> Stuck(d, Found(cuts, same), i, j)
  {
    cuts', same', stuck := cuts, same, false;
    if !Share(d, i, j) {
      return;
    }
    var settled := Spanned(same, i, j);
    var k := i + 1;
    while k <= j && !settled
      invariant i < k <= j + 1
      invariant settled ==> Spanned(same, i, j) || CutBetween(cuts, i, j)
      invariant !settled ==> !Spanned(same, i, j) && forall x | i < x < k :: x !in cuts
    {
      settled := k in cuts;
      k := k + 1;
    }
    if settled {
      return;
    }
    var answer := Answer(d, i, j);
    if answer.None? {
      return;
    }
    if !answer.value {
      same' := same + {(i, j)};
      return;
    }
    k := j;
    while k > i && Covered(same, k)
      invariant i <= k <= j
      invariant LatestFree(same, i, k) == LatestFree(same, i, j)
    {
      k := k - 1;
    }
    if k > i {
      cuts' := cuts + {k};
    } else {
      stuck := true;
    }
  }

  // ---- what the asking finds ------------------------------------------------------------------------

  ghost predicate NoCutInside(f: Found) {
    forall p, k | p in f.same && k in f.cuts :: !(p.0 < k <= p.1)
  }

  /** A pair needs nothing more: not askable, proven together, separated, or "later" with no place left. */
  predicate Done(d: Date, f: Found, i: nat, j: nat)
    requires i < |d.sets| && j < |d.sets|
  {
    || Answer(d, i, j).None?
    || Spanned(f.same, i, j)
    || CutBetween(f.cuts, i, j)
    || (Answer(d, i, j) == Some(true) && AllCovered(f.same, i, j))
  }

  predicate Grows(f: Found, g: Found) {
    f.cuts <= g.cuts && f.same <= g.same
  }

  lemma DoneGrows(d: Date, f: Found, g: Found, i: nat, j: nat)
    requires i < |d.sets| && j < |d.sets| && Done(d, f, i, j) && Grows(f, g)
    ensures Done(d, g, i, j)
  {
    if Spanned(f.same, i, j) {
      var p :| p in f.same && p.0 <= i && j <= p.1;
      assert p in g.same;
    } else if CutBetween(f.cuts, i, j) {
      var k :| k in f.cuts && i < k <= j;
      assert k in g.cuts;
    } else if Answer(d, i, j).Some? {
      forall k | i < k <= j ensures Covered(g.same, k) {
        assert Covered(f.same, k);
        var p :| p in f.same && p.0 < k <= p.1;
        assert p in g.same;
      }
    }
  }

  /** A cut at `k` contradicts no answer about the sets beside it. */
  predicate CutFits(d: Date, k: nat)
    requires 0 < k < |d.sets|
  {
    Answer(d, k - 1, k) != Some(false)
  }

  /** What holds while the run [start, end) is asked about; `before` are the earlier runs' cuts. */
  ghost predicate InRun(d: Date, before: set<nat>, f: Found, start: nat, end: nat) {
    && end <= |d.sets|
    && before <= f.cuts
    && NoCutInside(f)
    && (forall k | k in f.cuts :: k in before || (start < k < end && CutFits(d, k)))
    && (forall p | p in f.same :: start <= p.0 < p.1 < end && Answer(d, p.0, p.1) == Some(false))
  }

  /** Every pair `span` apart of the run, from the one at `i` on, is done. */
  predicate RowDone(d: Date, f: Found, span: nat, i: nat, end: nat)
    requires end <= |d.sets|
  {
    forall x: nat, y: nat | i <= x && y == x + span && y < end :: Done(d, f, x, y)
  }

  lemma RowStaysDone(d: Date, f: Found, g: Found, span: nat, i: nat, end: nat)
    requires end <= |d.sets| && RowDone(d, f, span, i, end) && Grows(f, g)
    ensures RowDone(d, g, span, i, end)
  {
    forall x: nat, y: nat | i <= x && y == x + span && y < end ensures Done(d, g, x, y) {
      DoneGrows(d, f, g, x, y);
    }
  }

  /** A place no proven pair covers is not between neighbours answered "same". */
  lemma FreePlace(d: Date, before: set<nat>, f: Found, start: nat, end: nat, k: nat)
    requires InRun(d, before, f, start, end) && RowDone(d, f, 1, start, end)
    requires start < k < end && k !in f.cuts && !Covered(f.same, k)
    ensures CutFits(d, k)
  {
    assert Done(d, f, k - 1, k);
  }

  lemma AskPairStep(d: Date, before: set<nat>, f: Found, start: nat, end: nat, i: nat, j: nat)
    requires InRun(d, before, f, start, end) && start <= i < j < end
    requires j == i + 1 || RowDone(d, f, 1, start, end)
    ensures var g := AskPair(d, f, i, j); InRun(d, before, g, start, end) && Grows(f, g) && Done(d, g, i, j)
  {
    var g := AskPair(d, f, i, j);
    if !Spanned(f.same, i, j) && !CutBetween(f.cuts, i, j) {
      match Answer(d, i, j)
      case None =>
      case Some(false) =>
        assert (i, j) in g.same;
      case Some(true) =>
        var k := LatestFree(f.same, i, j);
        if k > i {
          assert k in g.cuts && !Covered(f.same, k);
          if j != i + 1 {
            FreePlace(d, before, f, start, end, k);
          }
        }
    }
  }

  lemma RowOfHead(d: Date, f: Found, span: nat, i: nat, end: nat)
    requires i + span < end <= |d.sets| && Done(d, f, i, i + span) && RowDone(d, f, span, i + 1, end)
    ensures RowDone(d, f, span, i, end)
  {
  }

  lemma NextPair(d: Date, before: set<nat>, f: Found, span: nat, i: nat, start: nat, end: nat)
    requires InRun(d, before, f, start, end) && span > 0 && start <= i && i + span < end
    requires span == 1 || RowDone(d, f, 1, start, end)
    ensures var next := AskPair(d, f, i, i + span);
            && InRun(d, before, next, start, end) && Grows(f, next) && Done(d, next, i, i + span)
            && (span == 1 || RowDone(d, next, 1, start, end))
  {
    AskPairStep(d, before, f, start, end, i, i + span);
    if span != 1 {
      RowStaysDone(d, f, AskPair(d, f, i, i + span), 1, start, end);
    }
  }

  lemma {:induction false} AskSpanStep(d: Date, before: set<nat>, f: Found, span: nat, i: nat, start: nat, end: nat)
    requires InRun(d, before, f, start, end) && span > 0 && start <= i
    requires span == 1 || RowDone(d, f, 1, start, end)
    ensures var g := AskSpan(d, f, span, i, end);
            && InRun(d, before, g, start, end) && Grows(f, g)
            && RowDone(d, g, span, i, end)
    decreases end - i
  {
    if i + span < end {
      NextPair(d, before, f, span, i, start, end);
      var next := AskPair(d, f, i, i + span);
      AskSpanStep(d, before, next, span, i + 1, start, end);
      var g := AskSpan(d, next, span, i + 1, end);
      DoneGrows(d, next, g, i, i + span);
      RowOfHead(d, g, span, i, end);
    }
  }

  lemma {:induction false} AskRunStep(d: Date, before: set<nat>, f: Found, span: nat, start: nat, end: nat)
    requires InRun(d, before, f, start, end) && span > 0 && start <= end
    requires span == 1 || RowDone(d, f, 1, start, end)
    ensures var g := AskRun(d, f, span, start, end);
            && InRun(d, before, g, start, end) && Grows(f, g)
            && forall i: nat, j: nat | start <= i && i + span <= j < end :: Done(d, g, i, j)
    decreases end - start - span
  {
    if span < end - start {
      AskSpanStep(d, before, f, span, start, start, end);
      var next := AskSpan(d, f, span, start, end);
      if span != 1 {
        RowStaysDone(d, f, next, 1, start, end);
      }
      AskRunStep(d, before, next, span + 1, start, end);
      var g := AskRun(d, f, span, start, end);
      forall i: nat, j: nat | start <= i && i + span <= j < end ensures Done(d, g, i, j) {
        if j == i + span {
          DoneGrows(d, next, g, i, j);
        }
      }
    }
  }

  predicate Ascends(sets: seq<string>, k: nat)
    requires k < |sets|
  {
    0 < k && Less(sets[k - 1], sets[k])
  }

  /** The sets at two places belong to one alphabetical run. */
  predicate OneRun(sets: seq<string>, i: nat, j: nat)
    requires j < |sets|
  {
    forall k | i < k <= j :: Ascends(sets, k)
  }

  /** The facts about every place before `start`. */
  ghost predicate SoFar(d: Date, f: Found, start: nat) {
    && start <= |d.sets|
    && NoCutInside(f)
    && (forall k | k in f.cuts :: 0 < k < start && Ascends(d.sets, k) && CutFits(d, k))
    && (forall p | p in f.same :: p.0 < p.1 < start && OneRun(d.sets, p.0, p.1) && Answer(d, p.0, p.1) == Some(false))
    && (forall i: nat, j: nat | i < j < start && OneRun(d.sets, i, j) :: Done(d, f, i, j))
  }

  /** A pair that ends in the run [start, end) lies in it: the codes do not ascend into `start`. */
  lemma PairInRun(d: Date, start: nat, i: nat, j: nat)
    requires i < j < |d.sets| && OneRun(d.sets, i, j) && start <= j
    requires 0 < start ==> !Ascends(d.sets, start)
    ensures start <= i
  {
    assert start == 0 || !Ascends(d.sets, start);
  }

  /** The facts before a run and the facts of the run are the facts before its end. */
  lemma RunJoins(d: Date, f: Found, run: Found, start: nat, end: nat)
    requires SoFar(d, f, start) && InRun(d, f.cuts, run, start, end) && start < end
    requires OneRun(d.sets, start, end - 1)
    requires 0 < start ==> !Ascends(d.sets, start)
    requires forall i: nat, j: nat | start <= i && i + 1 <= j < end :: Done(d, run, i, j)
    ensures SoFar(d, Found(run.cuts, f.same + run.same), end)
  {
    var g := Found(run.cuts, f.same + run.same);
    forall i: nat, j: nat | i < j < end && OneRun(d.sets, i, j) ensures Done(d, g, i, j) {
      if j < start {
        DoneGrows(d, f, g, i, j);
      } else {
        PairInRun(d, start, i, j);
        DoneGrows(d, run, g, i, j);
      }
    }
    forall p | p in run.same ensures OneRun(d.sets, p.0, p.1) {
    }
    forall k | k in run.cuts ensures Ascends(d.sets, k) {
    }
    forall p, k | p in g.same && k in g.cuts ensures !(p.0 < k <= p.1) {
    }
  }

  lemma {:induction false} AskRunsStep(d: Date, f: Found, start: nat, end: nat)
    requires SoFar(d, f, start) && start < end <= |d.sets| + 1
    requires end <= |d.sets| ==> OneRun(d.sets, start, end - 1)
    requires end == |d.sets| + 1 ==> start == |d.sets|
    requires 0 < start < |d.sets| ==> !Ascends(d.sets, start)
    ensures SoFar(d, AskRuns(d, f, start, end), |d.sets|)
    decreases |d.sets| + 1 - end
  {
    if end <= |d.sets| {
      if end < |d.sets| && Less(d.sets[end - 1], d.sets[end]) {
        assert Ascends(d.sets, end);
        AskRunsStep(d, f, start, end + 1);
      } else {
        var run := AskRun(d, Found(f.cuts, {}), 1, start, end);
        AskRunStep(d, f.cuts, Found(f.cuts, {}), 1, start, end);
        RunJoins(d, f, run, start, end);
        AskRunsStep(d, Found(run.cuts, f.same + run.same), end, end + 1);
      }
    }
  }

  /** hiddenCuts as a whole: no cut inside a proven pair, cuts only where the codes ascend, every pair done. */
  lemma HiddenFacts(d: Date)
    ensures SoFar(d, Hidden(d), |d.sets|)
  {
    AskRunsStep(d, Found({}, {}), 0, 1);
  }

  /** A cut never falls where proven pairs cover, so a wholly covered stretch has none. */
  lemma CoveredMeansUncut(d: Date, i: nat, j: nat)
    requires i < j < |d.sets|
    ensures Spanned(Hidden(d).same, i, j) ==> AllCovered(Hidden(d).same, i, j)
    ensures AllCovered(Hidden(d).same, i, j) ==> !CutBetween(Hidden(d).cuts, i, j)
  {
    HiddenFacts(d);
    var f := Hidden(d);
    if Spanned(f.same, i, j) {
      var p :| p in f.same && p.0 <= i && j <= p.1;
      forall k | i < k <= j ensures Covered(f.same, k) {
        assert p.0 < k <= p.1;
      }
    }
    if AllCovered(f.same, i, j) {
      forall k | i < k <= j ensures k !in f.cuts {
        assert Covered(f.same, k);
      }
    }
  }

  /**
   * A pair answered "later" ends with a cut between its members, except exactly where pairs proven to
   * be in one batch leave no place for one.
   */
  lemma LaterExactly(d: Date, i: nat, j: nat)
    requires i < j < |d.sets| && OneRun(d.sets, i, j) && Answer(d, i, j) == Some(true)
    ensures CutBetween(Hidden(d).cuts, i, j) <==> !AllCovered(Hidden(d).same, i, j)
  {
    HiddenFacts(d);
    CoveredMeansUncut(d, i, j);
  }

  /** A pair answered "same" ends inside a proven pair, or a cut found for other sets separates it. */
  lemma SameExactly(d: Date, i: nat, j: nat)
    requires i < j < |d.sets| && OneRun(d.sets, i, j) && Answer(d, i, j) == Some(false)
    ensures CutBetween(Hidden(d).cuts, i, j) <==> !Spanned(Hidden(d).same, i, j)
  {
    HiddenFacts(d);
    CoveredMeansUncut(d, i, j);
  }

  /** `batch` gives the true batches, and every answer given agrees with them. */
  ghost predicate Truthful(d: Date, batch: seq<int>) {
    && |batch| == |d.sets|
    && (forall i: nat, j: nat | i < j < |d.sets| && OneRun(d.sets, i, j) :: batch[i] <= batch[j])
    && (forall i: nat, j: nat | i < j < |d.sets| && OneRun(d.sets, i, j) && Answer(d, i, j).Some? ::
          Answer(d, i, j).value == (batch[i] != batch[j]))
  }

  /** A true boundary exists between sets of different batches. */
  lemma {:induction false} TrueBoundary(d: Date, batch: seq<int>, i: nat, j: nat) returns (k: nat)
    requires Truthful(d, batch) && i < j < |d.sets| && OneRun(d.sets, i, j) && batch[i] != batch[j]
    ensures i < k <= j && batch[k - 1] < batch[k]
    decreases j
  {
    if batch[j - 1] < batch[j] {
      k := j;
    } else {
      assert OneRun(d.sets, j - 1, j);
      k := TrueBoundary(d, batch, i, j - 1);
    }
  }

  /** Pairs proven together by truthful answers never cover a true boundary. */
  lemma BoundaryFree(d: Date, batch: seq<int>, same: set<(nat, nat)>, k: nat)
    requires Truthful(d, batch) && 0 < k < |d.sets| && batch[k - 1] < batch[k]
    requires forall p | p in same :: p.0 < p.1 < |d.sets| && OneRun(d.sets, p.0, p.1) && Answer(d, p.0, p.1) == Some(false)
    ensures !Covered(same, k)
  {
    forall p | p in same ensures !(p.0 < k <= p.1) {
      if p.0 < k <= p.1 {
        assert batch[p.0] == batch[p.1];
        assert OneRun(d.sets, p.0, k - 1) && OneRun(d.sets, k, p.1);
      }
    }
  }

  /** With truthful answers the script never warns that a boundary has no place left. */
  lemma PlaceIsLeft(d: Date, batch: seq<int>, before: set<nat>, f: Found, start: nat, end: nat, i: nat, j: nat)
    requires Truthful(d, batch) && InRun(d, before, f, start, end) && start <= i < j < end
    requires OneRun(d.sets, start, end - 1) && Answer(d, i, j) == Some(true)
    ensures LatestFree(f.same, i, j) > i
  {
    assert OneRun(d.sets, i, j);
    var k := TrueBoundary(d, batch, i, j);
    BoundaryFree(d, batch, f.same, k);
  }

  /** The state in which a truthful date's run is asked about pairs `span` apart. */
  ghost predicate Ready(d: Date, batch: seq<int>, before: set<nat>, f: Found, span: nat, start: nat, end: nat) {
    && Truthful(d, batch) && InRun(d, before, f, start, end) && span > 0
    && (span == 1 || RowDone(d, f, 1, start, end))
    && start < end && OneRun(d.sets, start, end - 1)
  }

  lemma StaysReady(d: Date, batch: seq<int>, before: set<nat>, f: Found, span: nat, i: nat, start: nat, end: nat)
    requires Ready(d, batch, before, f, span, start, end) && start <= i && i + span < end
    ensures !Stuck(d, f, i, i + span)
    ensures Ready(d, batch, before, AskPair(d, f, i, i + span), span, start, end)
  {
    NextPair(d, before, f, span, i, start, end);
    if Answer(d, i, i + span) == Some(true) {
      PlaceIsLeft(d, batch, before, f, start, end, i, i + span);
    }
  }

  lemma {:induction false} NeverStuckInSpan(d: Date, batch: seq<int>, before: set<nat>, f: Found, span: nat, i: nat,
                                            start: nat, end: nat)
    requires Ready(d, batch, before, f, span, start, end) && start <= i
    ensures !StuckInSpan(d, f, span, i, end)
    decreases end - i
  {
    if i + span < end {
      StaysReady(d, batch, before, f, span, i, start, end);
      NeverStuckInSpan(d, batch, before, AskPair(d, f, i, i + span), span, i + 1, start, end);
    }
  }

  lemma NextSpan(d: Date, batch: seq<int>, before: set<nat>, f: Found, span: nat, start: nat, end: nat)
    requires Ready(d, batch, before, f, span, start, end)
    ensures Ready(d, batch, before, AskSpan(d, f, span, start, end), span + 1, start, end)
  {
    AskSpanStep(d, before, f, span, start, start, end);
    if span != 1 {
      RowStaysDone(d, f, AskSpan(d, f, span, start, end), 1, start, end);
    }
  }

  lemma {:induction false} NeverStuckInRun(d: Date, batch: seq<int>, before: set<nat>, f: Found, span: nat, start: nat, end: nat)
    requires Ready(d, batch, before, f, span, start, end)
    ensures !StuckInRun(d, f, span, start, end)
    decreases end - start - span
  {
    if span < end - start {
      NeverStuckInSpan(d, batch, before, f, span, start, start, end);
      NextSpan(d, batch, before, f, span, start, end);
      NeverStuckInRun(d, batch, before, AskSpan(d, f, span, start, end), span + 1, start, end);
    }
  }

  lemma {:induction false} NeverStuckInRuns(d: Date, batch: seq<int>, f: Found, start: nat, end: nat)
    requires Truthful(d, batch) && NoCutInside(Found(f.cuts, {})) && start < end
    requires end <= |d.sets| ==> OneRun(d.sets, start, end - 1)
    ensures !StuckInRuns(d, f, start, end)
    decreases |d.sets| + 1 - end
  {
    if end <= |d.sets| {
      if end < |d.sets| && Less(d.sets[end - 1], d.sets[end]) {
        assert Ascends(d.sets, end);
        NeverStuckInRuns(d, batch, f, start, end + 1);
      } else {
        var run := AskRun(d, Found(f.cuts, {}), 1, start, end);
        NeverStuckInRun(d, batch, f.cuts, Found(f.cuts, {}), 1, start, end);
        NeverStuckInRuns(d, batch, Found(run.cuts, f.same + run.same), end, end + 1);
      }
    }
  }

  /** With answers from any true partition hiddenCuts never warns. */
  lemma NeverSkips(d: Date, batch: seq<int>)
    requires Truthful(d, batch)
    ensures !StuckAnywhere(d)
  {
    NeverStuckInRuns(d, batch, Found({}, {}), 0, 1);
  }

  /**
   * If the answers come from a true partition: proven pairs are truly together, every pair answered
   * "later" is separated, and every pair answered at all is proven together or separated.
   */
  lemma TruePartition(d: Date, batch: seq<int>)
    requires Truthful(d, batch)
    ensures forall p | p in Hidden(d).same :: p.0 < p.1 < |d.sets| && batch[p.0] == batch[p.1]
    ensures forall i: nat, j: nat | i < j < |d.sets| && OneRun(d.sets, i, j) && Answer(d, i, j).Some? ::
              && (batch[i] != batch[j] ==> CutBetween(Hidden(d).cuts, i, j))
              && (Spanned(Hidden(d).same, i, j) <==> !CutBetween(Hidden(d).cuts, i, j))
  {
    HiddenFacts(d);
    var f := Hidden(d);
    forall i: nat, j: nat | i < j < |d.sets| && OneRun(d.sets, i, j) && Answer(d, i, j).Some?
      ensures batch[i] != batch[j] ==> CutBetween(f.cuts, i, j)
      ensures Spanned(f.same, i, j) <==> !CutBetween(f.cuts, i, j)
    {
      CoveredMeansUncut(d, i, j);
      if batch[i] != batch[j] {
        var k := TrueBoundary(d, batch, i, j);
        BoundaryFree(d, batch, f.same, k);
        LaterExactly(d, i, j);
      } else {
        SameExactly(d, i, j);
      }
    }
  }

  /** When every neighbouring pair of a run is answered, the cuts are exactly the true boundaries. */
  lemma NeighboursGiveTheBoundaries(d: Date, batch: seq<int>)
    requires Truthful(d, batch)
    requires forall k: nat | k < |d.sets| && Ascends(d.sets, k) :: Answer(d, k - 1, k).Some?
    ensures forall k: nat :: k in Hidden(d).cuts <==> k < |d.sets| && Ascends(d.sets, k) && batch[k - 1] != batch[k]
  {
    HiddenFacts(d);
    TruePartition(d, batch);
    var f := Hidden(d);
    forall k: nat | k < |d.sets| && Ascends(d.sets, k)
      ensures k in f.cuts <==> batch[k - 1] != batch[k]
    {
      assert OneRun(d.sets, k - 1, k);
      if batch[k - 1] != batch[k] {
        assert CutBetween(f.cuts, k - 1, k);
      }
    }
  }

  // ---- what the answers alone decide ------------------------------------------------------------------

  /** A pair of one run answered "same" holds the place before `k` together. */
  ghost predicate SameOver(d: Date, k: nat) {
    exists p: nat, q: nat | p < k <= q < |d.sets| :: OneRun(d.sets, p, q) && Answer(d, p, q) == Some(false)
  }

  ghost predicate LaterPair(d: Date, p: nat, q: nat) {
    p < q < |d.sets| && OneRun(d.sets, p, q) && Answer(d, p, q) == Some(true)
  }

  /** Some pair answered "later" has its only places for a boundary between the sets at `i` and `j`. */
  ghost predicate Forced(d: Date, i: nat, j: nat) {
    exists p: nat, q: nat :: LaterPair(d, p, q) && forall x | p < x <= q && !SameOver(d, x) :: i < x <= j
  }

  /** Some pair answered "later" is wholly covered by pairs answered "same". */
  ghost predicate Contradictory(d: Date) {
    exists p: nat, q: nat :: LaterPair(d, p, q) && forall x | p < x <= q :: SameOver(d, x)
  }

  /** The batches with a boundary at every place the answers leave open outside (i, j]. */
  ghost function Finest(d: Date, i: nat, j: nat, x: nat): int {
    if x == 0 then 0 else Finest(d, i, j, x - 1) + if SameOver(d, x) || i < x <= j then 0 else 1
  }

  ghost function FinestBatches(d: Date, i: nat, j: nat): seq<int> {
    seq(|d.sets|, x requires 0 <= x < |d.sets| => Finest(d, i, j, x))
  }

  lemma {:induction false} FinestRises(d: Date, i: nat, j: nat, x: nat, y: nat)
    requires x <= y
    ensures Finest(d, i, j, x) <= Finest(d, i, j, y)
    ensures Finest(d, i, j, x) == Finest(d, i, j, y) <==> forall z | x < z <= y :: SameOver(d, z) || i < z <= j
    decreases y
  {
    if x < y {
      FinestRises(d, i, j, x, y - 1);
    }
  }

  lemma FinestIsTruthful(d: Date, i: nat, j: nat)
    requires !Forced(d, i, j)
    ensures Truthful(d, FinestBatches(d, i, j))
  {
    var batch := FinestBatches(d, i, j);
    forall p: nat, q: nat | p < q < |d.sets| && OneRun(d.sets, p, q)
      ensures batch[p] <= batch[q]
      ensures Answer(d, p, q).Some? ==> Answer(d, p, q).value == (batch[p] != batch[q])
    {
      FinestRises(d, i, j, p, q);
      if Answer(d, p, q) == Some(false) {
        assert forall z | p < z <= q :: SameOver(d, z);
      } else if Answer(d, p, q) == Some(true) {
        assert LaterPair(d, p, q);
      }
    }
  }

  /** A place a truthful partition has a boundary at is not covered by a pair answered "same". */
  lemma BoundaryIsOpen(d: Date, batch: seq<int>, k: nat)
    requires Truthful(d, batch) && 0 < k < |d.sets| && batch[k - 1] < batch[k]
    ensures !SameOver(d, k)
  {
    forall p: nat, q: nat | p < k <= q < |d.sets| && OneRun(d.sets, p, q) ensures Answer(d, p, q) != Some(false) {
      assert OneRun(d.sets, p, k - 1) && OneRun(d.sets, k, q);
    }
  }

  /** The sets at two places are in two batches, whatever the truth, exactly when an answer forces it. */
  lemma SeparatedExactly(d: Date, i: nat, j: nat)
    requires i < j < |d.sets| && OneRun(d.sets, i, j)
    ensures (forall batch | Truthful(d, batch) :: batch[i] != batch[j]) <==> Forced(d, i, j)
  {
    if Forced(d, i, j) {
      forall batch | Truthful(d, batch) ensures batch[i] != batch[j] {
        ForcedSeparates(d, batch, i, j);
      }
    } else {
      FinestIsTruthful(d, i, j);
      FinestRises(d, i, j, i, j);
      var batch := FinestBatches(d, i, j);
      assert batch[i] == batch[j];
    }
  }

  lemma ForcedSeparates(d: Date, batch: seq<int>, i: nat, j: nat)
    requires i < j < |d.sets| && OneRun(d.sets, i, j) && Forced(d, i, j) && Truthful(d, batch)
    ensures batch[i] != batch[j]
  {
    var p: nat, q: nat :| LaterPair(d, p, q) && forall x | p < x <= q && !SameOver(d, x) :: i < x <= j;
    var k := TrueBoundary(d, batch, p, q);
    BoundaryIsOpen(d, batch, k);
    assert OneRun(d.sets, i, k - 1) && OneRun(d.sets, k, j);
  }

  /** Some partition agrees with every answer exactly when none contradicts the others. */
  lemma TruthExactly(d: Date)
    ensures (exists batch :: Truthful(d, batch)) <==> !Contradictory(d)
  {
    if Contradictory(d) {
      var p: nat, q: nat :| LaterPair(d, p, q) && forall x | p < x <= q :: SameOver(d, x);
      forall batch ensures !Truthful(d, batch) {
        if Truthful(d, batch) {
          var k := TrueBoundary(d, batch, p, q);
          BoundaryIsOpen(d, batch, k);
        }
      }
    } else {
      assert !Forced(d, 0, 0);
      FinestIsTruthful(d, 0, 0);
    }
  }

  /** So, with answers that do not contradict one another, every answered pair ends as answered or separated. */
  lemma UncontradictedSettles(d: Date)
    requires !Contradictory(d)
    ensures !StuckAnywhere(d)
    ensures forall i: nat, j: nat | LaterPair(d, i, j) :: CutBetween(Hidden(d).cuts, i, j)
    ensures forall i: nat, j: nat | i < j < |d.sets| && OneRun(d.sets, i, j) && Answer(d, i, j).Some? ::
              Spanned(Hidden(d).same, i, j) <==> !CutBetween(Hidden(d).cuts, i, j)
  {
    TruthExactly(d);
    var batch :| Truthful(d, batch);
    NeverSkips(d, batch);
    TruePartition(d, batch);
  }

  /** Two sets are in one batch, whatever the truth, exactly when pairs answered "same" cover all between them. */
  lemma TogetherExactly(d: Date, i: nat, j: nat)
    requires i < j < |d.sets| && OneRun(d.sets, i, j) && !Contradictory(d)
    ensures (forall batch | Truthful(d, batch) :: batch[i] == batch[j]) <==> forall x | i < x <= j :: SameOver(d, x)
  {
    if forall x | i < x <= j :: SameOver(d, x) {
      forall batch | Truthful(d, batch) ensures batch[i] == batch[j] {
        if batch[i] != batch[j] {
          var k := TrueBoundary(d, batch, i, j);
          BoundaryIsOpen(d, batch, k);
        }
      }
    } else {
      assert !Forced(d, 0, 0);
      FinestIsTruthful(d, 0, 0);
      FinestRises(d, 0, 0, i, j);
      var batch := FinestBatches(d, 0, 0);
      assert batch[i] != batch[j];
    }
  }

  /** The cuts are the true boundaries of the runs. */
  ghost predicate CutsAreBoundaries(d: Date, batch: seq<int>)
    requires |batch| == |d.sets|
  {
    forall k: nat | k < |d.sets| && Ascends(d.sets, k) :: k in Hidden(d).cuts <==> batch[k - 1] != batch[k]
  }

  /** What the answers must say of each place for its cut, or its having none, to be right whatever the truth. */
  ghost predicate Decided(d: Date, k: nat)
    requires k > 0
  {
    if k in Hidden(d).cuts then Forced(d, k - 1, k) else SameOver(d, k)
  }

  /** The cuts are the true boundaries, whatever the truth, exactly when the answers force each cut and cover each other place. */
  lemma BoundariesExactly(d: Date)
    requires !Contradictory(d)
    ensures (forall batch | Truthful(d, batch) :: CutsAreBoundaries(d, batch))
       <==> forall k: nat | k < |d.sets| && Ascends(d.sets, k) :: Decided(d, k)
  {
    forall k: nat | k < |d.sets| && Ascends(d.sets, k)
      ensures Decided(d, k) <==> forall batch | Truthful(d, batch) :: k in Hidden(d).cuts <==> batch[k - 1] != batch[k]
    {
      assert OneRun(d.sets, k - 1, k);
      SeparatedExactly(d, k - 1, k);
      TogetherExactly(d, k - 1, k);
    }
  }

  // ---- where the claims fail --------------------------------------------------------------------------

  /** Neighbours answered "same", and the sets at the ends "later". */
  const CONTRADICTORY := Date(["a", "b", "c"], (x: string, y: string) => Some(x + y),
                              (o: string, x: string, y: string) => Some(x == "a" && y == "c"))

  /** A pair answered "later" that ends with no cut between, and a warning. */
  lemma LaterMayBeUncut()
    ensures LaterPair(CONTRADICTORY, 0, 2) && Contradictory(CONTRADICTORY)
    ensures Hidden(CONTRADICTORY) == Found({}, {(0, 1), (1, 2)}) && StuckAnywhere(CONTRADICTORY)
  {
    var d := CONTRADICTORY;
    assert d.sets == ["a", "b", "c"] && Less("a", "b") && Less("b", "c");
    var none, one, two := Found({}, {}), Found({}, {(0, 1)}), Found({}, {(0, 1), (1, 2)});
    assert SameOver(d, 1) && SameOver(d, 2) by {
      assert OneRun(d.sets, 0, 1) && Answer(d, 0, 1) == Some(false);
      assert OneRun(d.sets, 1, 2) && Answer(d, 1, 2) == Some(false);
    }
    assert AskPair(d, none, 0, 1) == one;
    assert AskPair(d, one, 1, 2) == two;
    assert (0, 1) in two.same && (1, 2) in two.same;
    assert Covered(two.same, 1) && Covered(two.same, 2);
    assert LatestFree(two.same, 0, 2) == 0 && AskPair(d, two, 0, 2) == two && Stuck(d, two, 0, 2);
    assert AskSpan(d, one, 1, 1, 3) == two && AskSpan(d, none, 1, 0, 3) == two;
    assert AskSpan(d, two, 2, 0, 3) == two && StuckInSpan(d, two, 2, 0, 3);
    assert AskRun(d, two, 2, 0, 3) == two && StuckInRun(d, two, 2, 0, 3);
    assert AskRun(d, none, 1, 0, 3) == two && StuckInRun(d, none, 1, 0, 3);
    assert AskRuns(d, two, 3, 4) == two;
    assert AskRuns(d, none, 0, 3) == two && StuckInRuns(d, none, 0, 3);
    assert AskRuns(d, none, 0, 2) == two && StuckInRuns(d, none, 0, 2);
    assert LaterPair(d, 0, 2);
    assert forall x | 0 < x <= 2 :: SameOver(d, x);
  }

  /** A date on which a cut misses the true boundary: a | b c d, asked about the pairs a/c and b/d only. */
  const MISSED := Date(["a", "b", "c", "d"],
                       (x: string, y: string) => if (x == "a" && y == "c") || (x == "b" && y == "d") then Some(x + y) else None,
                       (o: string, x: string, y: string) => Some(x == "a"))
  const MISSED_BATCHES := [0, 1, 1, 1]

  /**
   * A separated pair need not be in two batches: the cut found for a/c goes as late as it may, so it
   * parts b from d, whose card is then never asked about.
   */
  lemma SeparatedMayBeTogether()
    ensures Truthful(MISSED, MISSED_BATCHES)
    ensures Hidden(MISSED) == Found({2}, {})
    ensures OneRun(MISSED.sets, 1, 3) && Answer(MISSED, 1, 3) == Some(false) && MISSED_BATCHES[1] == MISSED_BATCHES[3]
    ensures CutBetween(Hidden(MISSED).cuts, 1, 3)
  {
    MissedIsTruthful();
    MissedIsFound();
    assert 2 in Hidden(MISSED).cuts;
  }

  lemma MissedAscends()
    ensures Ascends(MISSED.sets, 1) && Ascends(MISSED.sets, 2) && Ascends(MISSED.sets, 3)
  {
    assert Less("a", "b") && Less("b", "c") && Less("c", "d");
  }

  lemma MissedIsTruthful()
    ensures Truthful(MISSED, MISSED_BATCHES)
    ensures OneRun(MISSED.sets, 1, 3) && Answer(MISSED, 1, 3) == Some(false)
  {
    MissedAscends();
  }

  lemma MissedIsFound()
    ensures Hidden(MISSED) == Found({2}, {})
  {
    var none, cut := Found({}, {}), Found({2}, {});
    MissedAscends();
    MissedRun();
    assert AskRuns(MISSED, cut, 4, 5) == cut;
    assert AskRuns(MISSED, none, 0, 4) == cut;
    assert AskRuns(MISSED, none, 0, 2) == cut;
  }

  lemma MissedRun()
    ensures AskRun(MISSED, Found({}, {}), 1, 0, 4) == Found({2}, {})
  {
    MissedSpans();
    var none, cut := Found({}, {}), Found({2}, {});
    assert AskRun(MISSED, cut, 3, 0, 4) == cut;
    assert AskRun(MISSED, none, 2, 0, 4) == cut;
  }

  lemma MissedSpans()
    ensures AskSpan(MISSED, Found({}, {}), 1, 0, 4) == Found({}, {})
    ensures AskSpan(MISSED, Found({}, {}), 2, 0, 4) == Found({2}, {}) == AskSpan(MISSED, Found({2}, {}), 3, 0, 4)
  {
    var d := MISSED;
    var none := Found({}, {});
    assert AskPair(d, none, 0, 1) == none && AskPair(d, none, 1, 2) == none && AskPair(d, none, 2, 3) == none;
    assert AskSpan(d, none, 1, 2, 4) == none;
    assert AskSpan(d, none, 1, 0, 4) == none;
    var cut := Found({2}, {});
    assert AskPair(d, none, 0, 2) == cut by {
      assert Answer(d, 0, 2) == Some(true);
      assert LatestFree({}, 0, 2) == 2;
    }
    assert 2 in cut.cuts;
    assert CutBetween(cut.cuts, 1, 3) && CutBetween(cut.cuts, 0, 3);
    assert AskPair(d, cut, 1, 3) == cut && AskPair(d, cut, 0, 3) == cut;
  }

  // ---- batch numbers ----------------------------------------------------------------------------------

  /** The boundaries up to the set at `i`: code-order descents, and cuts. */
  function BatchAt(sets: seq<string>, cuts: set<nat>, i: nat): nat
    requires i < |sets|
  {
    if i == 0 then 0
    else BatchAt(sets, cuts, i - 1) + if Less(sets[i], sets[i - 1]) || i in cuts then 1 else 0
  }

  /** The places up to `i` where a batch begins: the codes do not go up, or a boundary was found. */
  ghost function Boundaries(sets: seq<string>, cuts: set<nat>, i: nat): set<nat>
    requires i < |sets|
  {
    set k: nat | 0 < k <= i && (Less(sets[k], sets[k - 1]) || k in cuts)
  }

  lemma {:induction false} BatchCounts(sets: seq<string>, cuts: set<nat>, i: nat)
    requires i < |sets|
    ensures BatchAt(sets, cuts, i) == |Boundaries(sets, cuts, i)|
  {
    if i > 0 {
      BatchCounts(sets, cuts, i - 1);
      assert Boundaries(sets, cuts, i) ==
        Boundaries(sets, cuts, i - 1) + if Less(sets[i], sets[i - 1]) || i in cuts then {i} else {};
    }
  }

  /** The batches of the first `n` sets. */
  function BatchMap(sets: seq<string>, cuts: set<nat>, n: nat): map<string, nat>
    requires n <= |sets|
  {
    if n == 0 then map[] else BatchMap(sets, cuts, n - 1)[sets[n - 1] := BatchAt(sets, cuts, n - 1)]
  }

  method BatchesOf(sets: seq<string>, cuts: set<nat>) returns (out: map<string, nat>)
    ensures out == BatchMap(sets, cuts, |sets|)
  {
    out := map[];
    var batch := 0;
    for i := 0 to |sets|
      invariant batch == if i == 0 then 0 else BatchAt(sets, cuts, i - 1)
      invariant out == BatchMap(sets, cuts, i)
    {
      if i > 0 && (Less(sets[i], sets[i - 1]) || i in cuts) {
        batch := batch + 1;
      }
      out := out[sets[i] := batch];
    }
  }

  lemma {:induction false} BatchMapHolds(sets: seq<string>, cuts: set<nat>, n: nat, i: nat)
    requires Distinct(sets) && i < n <= |sets|
    ensures sets[i] in BatchMap(sets, cuts, n) && BatchMap(sets, cuts, n)[sets[i]] == BatchAt(sets, cuts, i)
  {
    if i < n - 1 {
      BatchMapHolds(sets, cuts, n - 1, i);
    }
  }

  lemma NeighboursDiffer(sets: seq<string>, j: nat)
    requires 0 < j < |sets| && Distinct(sets)
    ensures Ascends(sets, j) <==> !Less(sets[j], sets[j - 1])
  {
    LessTotal(sets[j - 1], sets[j]);
    if Less(sets[j - 1], sets[j]) && Less(sets[j], sets[j - 1]) {
      LessTransitive(sets[j], sets[j - 1], sets[j]);
      LessIrreflexive(sets[j]);
    }
  }

  lemma {:induction false} BatchAtGrows(sets: seq<string>, cuts: set<nat>, i: nat, j: nat)
    requires i < j < |sets| && Distinct(sets)
    ensures BatchAt(sets, cuts, i) <= BatchAt(sets, cuts, j)
    ensures BatchAt(sets, cuts, i) == BatchAt(sets, cuts, j) <==> OneRun(sets, i, j) && !CutBetween(cuts, i, j)
    decreases j
  {
    NeighboursDiffer(sets, j);
    if i < j - 1 {
      BatchAtGrows(sets, cuts, i, j - 1);
    }
    assert OneRun(sets, i, j) <==> (i == j - 1 || OneRun(sets, i, j - 1)) && Ascends(sets, j);
    assert CutBetween(cuts, i, j) <==> (i < j - 1 && CutBetween(cuts, i, j - 1)) || j in cuts;
  }

  /** Sets compared by batch, then by code. */
  predicate Before(out: map<string, nat>, a: string, b: string) {
    a in out && b in out && (out[a] < out[b] || (out[a] == out[b] && Less(a, b)))
  }

  lemma {:induction false} RunAscends(sets: seq<string>, i: nat, j: nat)
    requires i < j < |sets| && OneRun(sets, i, j)
    ensures Less(sets[i], sets[j])
    decreases j
  {
    assert Ascends(sets, j);
    if i < j - 1 {
      RunAscends(sets, i, j - 1);
      LessTransitive(sets[i], sets[j - 1], sets[j]);
    }
  }

  lemma BeforeIsStrict(out: map<string, nat>)
    ensures StrictOrder((a: string, b: string) => Before(out, a, b))
  {
    LessIsStrict();
  }

  /**
   * Whatever the cuts, listing a date's sets by batch and then by code gives the measured sequence back.
   */
  lemma OrderReproduces(sets: seq<string>, cuts: set<nat>, listed: seq<string>)
    requires Distinct(sets)
    requires SameElements(listed, sets)
    requires Ascending((a: string, b: string) => Before(BatchMap(sets, cuts, |sets|), a, b), listed)
    ensures listed == sets
  {
    var out := BatchMap(sets, cuts, |sets|);
    var before := (a: string, b: string) => Before(out, a, b);
    forall i, j | 0 <= i < j < |sets| ensures before(sets[i], sets[j]) {
      BatchAtGrows(sets, cuts, i, j);
      BatchMapHolds(sets, cuts, |sets|, i);
      BatchMapHolds(sets, cuts, |sets|, j);
      if BatchAt(sets, cuts, i) == BatchAt(sets, cuts, j) {
        RunAscends(sets, i, j);
      }
    }
    BeforeIsStrict(out);
    AscendingUnique(before, listed, sets);
  }

  /** With the cuts hiddenCuts finds: proven pairs share a batch number, and separated pairs never do. */
  lemma BatchesAnswer(d: Date, i: nat, j: nat)
    requires Distinct(d.sets) && i < j < |d.sets| && OneRun(d.sets, i, j)
    ensures Spanned(Hidden(d).same, i, j) ==> BatchAt(d.sets, Hidden(d).cuts, i) == BatchAt(d.sets, Hidden(d).cuts, j)
    ensures Answer(d, i, j) == Some(true) ==>
              (BatchAt(d.sets, Hidden(d).cuts, i) < BatchAt(d.sets, Hidden(d).cuts, j) <==> !AllCovered(Hidden(d).same, i, j))
  {
    BatchAtGrows(d.sets, Hidden(d).cuts, i, j);
    CoveredMeansUncut(d, i, j);
    if Answer(d, i, j) == Some(true) {
      LaterExactly(d, i, j);
    }
  }
}
