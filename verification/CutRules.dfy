/**
 * Why each boundary is found (scripts/generate-release-batches.ts:222-255): the rules by which answers
 * about narrow pairs settle wide ones, without the order of the loops. They have one solution, and
 * hiddenCuts finds it.
 */
module CutRules {
  import opened Wrappers
  import opened CodeOrder
  import opened ReleaseBatches

  /** Narrower, or as wide and starting earlier. */
  predicate Earlier(p: (nat, nat), q: (nat, nat)) {
    p.1 - p.0 < q.1 - q.0 || (p.1 - p.0 == q.1 - q.0 && p.0 < q.0)
  }

  /** The place before `x` is inside a proven pair that is earlier than (i, j). */
  predicate CoveredEarlier(same: set<(nat, nat)>, i: nat, j: nat, x: nat) {
    exists p | p in same :: Earlier(p, (i, j)) && p.0 < x <= p.1
  }

  /** The last place of the pair that earlier proven pairs leave open. */
  predicate LastOpen(same: set<(nat, nat)>, i: nat, j: nat, k: nat) {
    && i < k <= j && !CoveredEarlier(same, i, j, k)
    && forall x | k < x <= j :: CoveredEarlier(same, i, j, x)
  }

  predicate Owns(owner: map<nat, (nat, nat)>, k: nat, i: nat, j: nat) {
    k in owner && owner[k] == (i, j)
  }

  /** No earlier pair's cut is inside the pair. */
  predicate Unsettled(owner: map<nat, (nat, nat)>, i: nat, j: nat) {
    forall x | x in owner && i < x <= j :: !Earlier(owner[x], (i, j))
  }

  /**
   * What a pair is for: answered "same" it is proven, and answered "later" it owns a cut at its last open
   * place and no other, each exactly where no earlier pair's cut has settled it.
   */
  ghost predicate PairRule(d: Date, same: set<(nat, nat)>, owner: map<nat, (nat, nat)>, i: nat, j: nat)
    requires i < j < |d.sets|
  {
    && (Answer(d, i, j) == Some(false) ==> ((i, j) in same <==> Unsettled(owner, i, j)))
    && (Answer(d, i, j) == Some(true) ==>
          forall k: nat :: Owns(owner, k, i, j) <==> Unsettled(owner, i, j) && LastOpen(same, i, j, k))
  }

  ghost predicate SamePair(d: Date, p: nat, q: nat) {
    p < q < |d.sets| && OneRun(d.sets, p, q) && Answer(d, p, q) == Some(false)
  }

  /** Each cut is owned by a pair of one run answered "later", the proven pairs are of one run, and each pair keeps the rule. */
  ghost predicate Rules(d: Date, f: Found, owner: map<nat, (nat, nat)>) {
    && owner.Keys == f.cuts
    && (forall k | k in owner :: LaterPair(d, owner[k].0, owner[k].1))
    && (forall p | p in f.same :: SamePair(d, p.0, p.1))
    && (forall i: nat, j: nat | i < j < |d.sets| && OneRun(d.sets, i, j) :: PairRule(d, f.same, owner, i, j))
  }

  // ---- one solution -----------------------------------------------------------------------------------

  lemma {:induction false} Determined(d: Date, f: Found, o: map<nat, (nat, nat)>, g: Found, o': map<nat, (nat, nat)>, i: nat, j: nat)
    requires Rules(d, f, o) && Rules(d, g, o') && i < j < |d.sets|
    ensures (i, j) in f.same <==> (i, j) in g.same
    ensures forall k: nat :: Owns(o, k, i, j) <==> Owns(o', k, i, j)
    decreases j - i, i
  {
    if OneRun(d.sets, i, j) {
      forall a: nat, b: nat | a < b < |d.sets| && Earlier((a, b), (i, j))
        ensures (a, b) in f.same <==> (a, b) in g.same
        ensures forall k: nat :: Owns(o, k, a, b) <==> Owns(o', k, a, b)
      {
        Determined(d, f, o, g, o', a, b);
      }
      SettledAlike(d, o, o', i, j);
      SettledAlike(d, o', o, i, j);
      forall x: nat ensures CoveredEarlier(f.same, i, j, x) <==> CoveredEarlier(g.same, i, j, x) {
        CoveredAlike(d, f, o, g, o', i, j, x);
        CoveredAlike(d, g, o', f, o, i, j, x);
      }
      assert PairRule(d, f.same, o, i, j) && PairRule(d, g.same, o', i, j);
      assert forall k: nat :: LastOpen(f.same, i, j, k) <==> LastOpen(g.same, i, j, k);
    }
  }

  lemma SettledAlike(d: Date, o: map<nat, (nat, nat)>, o': map<nat, (nat, nat)>, i: nat, j: nat)
    requires forall k | k in o :: LaterPair(d, o[k].0, o[k].1)
    requires forall a: nat, b: nat, k: nat | a < b < |d.sets| && Earlier((a, b), (i, j)) && Owns(o, k, a, b) :: Owns(o', k, a, b)
    ensures Unsettled(o', i, j) ==> Unsettled(o, i, j)
  {
    forall x | x in o && i < x <= j && Earlier(o[x], (i, j)) ensures !Unsettled(o', i, j) {
      assert Owns(o, x, o[x].0, o[x].1);
    }
  }

  lemma CoveredAlike(d: Date, f: Found, o: map<nat, (nat, nat)>, g: Found, o': map<nat, (nat, nat)>, i: nat, j: nat, x: nat)
    requires Rules(d, f, o)
    requires forall a: nat, b: nat | a < b < |d.sets| && Earlier((a, b), (i, j)) && (a, b) in f.same :: (a, b) in g.same
    ensures CoveredEarlier(f.same, i, j, x) ==> CoveredEarlier(g.same, i, j, x)
  {
    if p :| p in f.same && Earlier(p, (i, j)) && p.0 < x <= p.1 {
      assert p == (p.0, p.1) && SamePair(d, p.0, p.1);
    }
  }

  /** The rules leave no choice: two solutions are one. */
  lemma RulesHaveOneSolution(d: Date, f: Found, o: map<nat, (nat, nat)>, g: Found, o': map<nat, (nat, nat)>)
    requires Rules(d, f, o) && Rules(d, g, o')
    ensures f == g && o == o'
  {
    SolutionWithin(d, f, o, g, o');
    SolutionWithin(d, g, o', f, o);
  }

  lemma SolutionWithin(d: Date, f: Found, o: map<nat, (nat, nat)>, g: Found, o': map<nat, (nat, nat)>)
    requires Rules(d, f, o) && Rules(d, g, o')
    ensures f.same <= g.same && forall k | k in o :: k in o' && o'[k] == o[k]
  {
    forall p | p in f.same ensures p in g.same {
      assert SamePair(d, p.0, p.1);
      Determined(d, f, o, g, o', p.0, p.1);
    }
    forall k | k in o ensures k in o' && o'[k] == o[k] {
      assert LaterPair(d, o[k].0, o[k].1);
      Determined(d, f, o, g, o', o[k].0, o[k].1);
      assert Owns(o, k, o[k].0, o[k].1);
    }
  }

  // ---- which the loops find ---------------------------------------------------------------------------

  /** A pair of the run [start, end) asked about before the pair `next`. */
  predicate Asked(start: nat, end: nat, next: (nat, nat), i: nat, j: nat) {
    start <= i < j < end && Earlier((i, j), next)
  }

  /** Every pair of the run asked about so far keeps the rule. */
  ghost predicate RulesAsked(d: Date, same: set<(nat, nat)>, owner: map<nat, (nat, nat)>, start: nat, end: nat, next: (nat, nat))
    requires end <= |d.sets|
  {
    forall a: nat, b: nat | Asked(start, end, next, a, b) :: PairRule(d, same, owner, a, b)
  }

  /** What holds of a run before the pair `next` is asked about; `owner` gives the pair each of its cuts was found for. */
  ghost predicate InOrder(d: Date, before: set<nat>, f: Found, owner: map<nat, (nat, nat)>, start: nat, end: nat, next: (nat, nat)) {
    && end <= |d.sets|
    && f.cuts == before + owner.Keys
    && (forall k | k in before :: k <= start)
    && (forall k | k in owner :: Asked(start, end, next, owner[k].0, owner[k].1) && owner[k].0 < k <= owner[k].1
                                 && Answer(d, owner[k].0, owner[k].1) == Some(true))
    && (forall p | p in f.same :: Asked(start, end, next, p.0, p.1) && Answer(d, p.0, p.1) == Some(false))
    && RulesAsked(d, f.same, owner, start, end, next)
  }

  /** A pair's rule says nothing of later pairs: one more cut or proven pair of theirs leaves it. */
  lemma RuleStays(d: Date, same: set<(nat, nat)>, owner: map<nat, (nat, nat)>, same': set<(nat, nat)>, owner': map<nat, (nat, nat)>,
                  i: nat, j: nat, a: nat, b: nat)
    requires a < b < |d.sets| && Earlier((a, b), (i, j)) && PairRule(d, same, owner, a, b)
    requires same' == same || same' == same + {(i, j)}
    requires owner' == owner || exists k: nat :: k !in owner && owner' == owner[k := (i, j)]
    ensures PairRule(d, same', owner', a, b)
  {
    forall x: nat ensures CoveredEarlier(same', a, b, x) <==> CoveredEarlier(same, a, b, x) {
      if p :| p in same && Earlier(p, (a, b)) && p.0 < x <= p.1 {
        assert p in same';
      }
    }
    assert forall k: nat :: LastOpen(same', a, b, k) <==> LastOpen(same, a, b, k);
    assert Unsettled(owner', a, b) <==> Unsettled(owner, a, b) by {
      forall x | x in owner && a < x <= b && Earlier(owner[x], (a, b)) ensures !Unsettled(owner', a, b) {
        assert x in owner' && owner'[x] == owner[x];
      }
    }
    assert forall k: nat :: Owns(owner', k, a, b) <==> Owns(owner, k, a, b);
  }

  /** All that is proven in a run before a pair is asked about is earlier than the pair. */
  lemma AllEarlier(d: Date, before: set<nat>, f: Found, owner: map<nat, (nat, nat)>, start: nat, end: nat, i: nat, j: nat)
    requires InOrder(d, before, f, owner, start, end, (i, j)) && start <= i < j < end
    ensures !Spanned(f.same, i, j)
    ensures Unsettled(owner, i, j) <==> !CutBetween(f.cuts, i, j)
    ensures forall x: nat :: CoveredEarlier(f.same, i, j, x) <==> Covered(f.same, x)
  {
    if !Unsettled(owner, i, j) {
      var x :| x in owner && i < x <= j && Earlier(owner[x], (i, j));
      assert x in f.cuts;
    }
  }

  lemma NewPairRule(d: Date, before: set<nat>, f: Found, owner: map<nat, (nat, nat)>, start: nat, end: nat, i: nat, j: nat)
    returns (owner': map<nat, (nat, nat)>)
    requires InOrder(d, before, f, owner, start, end, (i, j)) && start <= i < j < end
    ensures PairRule(d, AskPair(d, f, i, j).same, owner', i, j)
    ensures AskPair(d, f, i, j).cuts == before + owner'.Keys
    ensures owner' == owner
         || (Answer(d, i, j) == Some(true) && exists k: nat :: i < k <= j && k !in owner && owner' == owner[k := (i, j)])
    ensures AskPair(d, f, i, j).same == f.same
         || (Answer(d, i, j) == Some(false) && AskPair(d, f, i, j).same == f.same + {(i, j)})
  {
    AllEarlier(d, before, f, owner, start, end, i, j);
    var g := AskPair(d, f, i, j);
    assert forall x :: x in owner ==> owner[x] != (i, j);
    assert (i, j) !in f.same;
    owner' := owner;
    if Unsettled(owner, i, j) && Answer(d, i, j) == Some(true) {
      var k := LatestFree(f.same, i, j);
      if k > i {
        owner' := owner[k := (i, j)];
      }
      assert g.same == f.same;
      forall x: nat ensures Owns(owner', x, i, j) <==> Unsettled(owner', i, j) && LastOpen(g.same, i, j, x) {
        assert Unsettled(owner', i, j);
        assert LastOpen(g.same, i, j, x) <==> k > i && x == k;
      }
    }
  }

  lemma AskPairRules(d: Date, before: set<nat>, f: Found, owner: map<nat, (nat, nat)>, start: nat, end: nat, i: nat, j: nat)
    returns (owner': map<nat, (nat, nat)>)
    requires InOrder(d, before, f, owner, start, end, (i, j)) && start <= i < j < end
    ensures InOrder(d, before, AskPair(d, f, i, j), owner', start, end, (i + 1, j + 1))
  {
    owner' := NewPairRule(d, before, f, owner, start, end, i, j);
    OldRulesStay(d, before, f, owner, AskPair(d, f, i, j).same, owner', start, end, i, j);
  }

  lemma OldRulesStay(d: Date, before: set<nat>, f: Found, owner: map<nat, (nat, nat)>, same': set<(nat, nat)>,
                     owner': map<nat, (nat, nat)>, start: nat, end: nat, i: nat, j: nat)
    requires InOrder(d, before, f, owner, start, end, (i, j)) && start <= i < j < end
    requires PairRule(d, same', owner', i, j)
    requires same' == f.same || same' == f.same + {(i, j)}
    requires owner' == owner || exists k: nat :: k !in owner && owner' == owner[k := (i, j)]
    ensures RulesAsked(d, same', owner', start, end, (i + 1, j + 1))
  {
    forall a: nat, b: nat | Asked(start, end, (i + 1, j + 1), a, b) ensures PairRule(d, same', owner', a, b) {
      if (a, b) != (i, j) {
        assert Asked(start, end, (i, j), a, b);
        RuleStays(d, f.same, owner, same', owner', i, j, a, b);
      }
    }
  }

  lemma {:induction false} AskSpanRules(d: Date, before: set<nat>, f: Found, owner: map<nat, (nat, nat)>, span: nat, i: nat,
                                        start: nat, end: nat)
    returns (owner': map<nat, (nat, nat)>)
    requires InOrder(d, before, f, owner, start, end, (i, i + span)) && span > 0 && start <= i
    ensures InOrder(d, before, AskSpan(d, f, span, i, end), owner', start, end, (start, start + span + 1))
    decreases end - i
  {
    if i + span >= end {
      owner' := owner;
      RowEnds(d, before, f, owner, span, i, start, end);
    } else {
      owner' := AskPairRules(d, before, f, owner, start, end, i, i + span);
      owner' := AskSpanRules(d, before, AskPair(d, f, i, i + span), owner', span, i + 1, start, end);
    }
  }

  lemma RowEnds(d: Date, before: set<nat>, f: Found, owner: map<nat, (nat, nat)>, span: nat, i: nat, start: nat, end: nat)
    requires InOrder(d, before, f, owner, start, end, (i, i + span)) && i + span >= end
    ensures InOrder(d, before, f, owner, start, end, (start, start + span + 1))
  {
  }

  lemma {:induction false} AskRunRules(d: Date, before: set<nat>, f: Found, owner: map<nat, (nat, nat)>, span: nat, start: nat, end: nat)
    returns (owner': map<nat, (nat, nat)>)
    requires InOrder(d, before, f, owner, start, end, (start, start + span)) && span > 0 && start <= end
    ensures InOrder(d, before, AskRun(d, f, span, start, end), owner', start, end, (start, end + 1))
    decreases end - start - span
  {
    if span >= end - start {
      owner' := owner;
    } else {
      owner' := AskSpanRules(d, before, f, owner, span, start, start, end);
      owner' := AskRunRules(d, before, AskSpan(d, f, span, start, end), owner', span + 1, start, end);
    }
  }

  /** The rules, of the pairs before `start`. */
  ghost predicate RulesBefore(d: Date, f: Found, owner: map<nat, (nat, nat)>, start: nat) {
    && start <= |d.sets|
    && owner.Keys == f.cuts
    && (forall k | k in owner :: LaterPair(d, owner[k].0, owner[k].1) && owner[k].0 < k <= owner[k].1 < start)
    && (forall p | p in f.same :: SamePair(d, p.0, p.1) && p.1 < start)
    && (forall i: nat, j: nat | i < j < start && OneRun(d.sets, i, j) :: PairRule(d, f.same, owner, i, j))
  }

  /** A pair's rule is kept when cuts and proven pairs are added that lie outside it. */
  lemma RuleOutside(d: Date, same: set<(nat, nat)>, owner: map<nat, (nat, nat)>, same': set<(nat, nat)>, owner': map<nat, (nat, nat)>,
                    i: nat, j: nat)
    requires i < j < |d.sets| && PairRule(d, same, owner, i, j)
    requires same <= same' && forall p | p in same' && p !in same :: p.1 <= i || j <= p.0
    requires forall k | k in owner :: k in owner' && owner'[k] == owner[k]
    requires forall k | k in owner' && k !in owner :: !(i < k <= j) && owner'[k] != (i, j)
    requires (i, j) !in same' - same
    ensures PairRule(d, same', owner', i, j)
  {
    forall x: nat | i < x <= j ensures CoveredEarlier(same', i, j, x) <==> CoveredEarlier(same, i, j, x) {
      if p :| p in same && Earlier(p, (i, j)) && p.0 < x <= p.1 {
        assert p in same';
      }
    }
    assert forall k: nat :: LastOpen(same', i, j, k) <==> LastOpen(same, i, j, k);
    assert Unsettled(owner', i, j) <==> Unsettled(owner, i, j);
    assert forall k: nat :: Owns(owner', k, i, j) <==> Owns(owner, k, i, j);
  }

  /** The rules before a run and of the run are the rules before its end. */
  lemma RulesJoin(d: Date, f: Found, owner: map<nat, (nat, nat)>, run: Found, own: map<nat, (nat, nat)>, start: nat, end: nat)
    requires RulesBefore(d, f, owner, start) && start < end
    requires InOrder(d, f.cuts, run, own, start, end, (start, end + 1))
    requires OneRun(d.sets, start, end - 1) && (0 < start ==> !Ascends(d.sets, start))
    ensures RulesBefore(d, Found(run.cuts, f.same + run.same), owner + own, end)
  {
    var same, all := f.same + run.same, owner + own;
    forall i: nat, j: nat | i < j < end && OneRun(d.sets, i, j) ensures PairRule(d, same, all, i, j) {
      if j < start {
        RuleOutside(d, f.same, owner, same, all, i, j);
      } else {
        PairInRun(d, start, i, j);
        assert Asked(start, end, (start, end + 1), i, j);
        RuleOutside(d, run.same, own, same, all, i, j);
      }
    }
    forall k | k in all ensures LaterPair(d, all[k].0, all[k].1) && all[k].0 < k <= all[k].1 < end {
      if k in own {
        assert OneRun(d.sets, own[k].0, own[k].1);
      }
    }
    forall p | p in same ensures SamePair(d, p.0, p.1) && p.1 < end {
      if p in run.same {
        assert OneRun(d.sets, p.0, p.1);
      }
    }
  }

  lemma {:induction false} AskRunsRules(d: Date, f: Found, owner: map<nat, (nat, nat)>, start: nat, end: nat)
    returns (owner': map<nat, (nat, nat)>)
    requires RulesBefore(d, f, owner, start) && start < end <= |d.sets| + 1
    requires end <= |d.sets| ==> OneRun(d.sets, start, end - 1)
    requires end == |d.sets| + 1 ==> start == |d.sets|
    requires 0 < start < |d.sets| ==> !Ascends(d.sets, start)
    ensures RulesBefore(d, AskRuns(d, f, start, end), owner', |d.sets|)
    decreases |d.sets| + 1 - end
  {
    owner' := owner;
    if end <= |d.sets| {
      if end < |d.sets| && Less(d.sets[end - 1], d.sets[end]) {
        assert Ascends(d.sets, end);
        owner' := AskRunsRules(d, f, owner, start, end + 1);
      } else {
        var own := AskRunRules(d, f.cuts, Found(f.cuts, {}), map[], 1, start, end);
        var run := AskRun(d, Found(f.cuts, {}), 1, start, end);
        RulesJoin(d, f, owner, run, own, start, end);
        owner' := AskRunsRules(d, Found(run.cuts, f.same + run.same), owner + own, end, end + 1);
      }
    }
  }

  /** What hiddenCuts finds for a date is the one solution of the rules. */
  lemma HiddenSolves(d: Date, f: Found)
    ensures f == Hidden(d) <==> exists owner :: Rules(d, f, owner)
  {
    var own := AskRunsRules(d, Found({}, {}), map[], 0, 1);
    assert Rules(d, Hidden(d), own);
    if owner :| Rules(d, f, owner) {
      RulesHaveOneSolution(d, f, owner, Hidden(d), own);
    }
  }

  /**
   * Each cut has a pair of one run of its own: answered "later", with no earlier pair's cut inside, and the cut
   * at the last place in it that earlier proven pairs leave open.
   */
  lemma EachCutIsNeeded(d: Date) returns (owner: map<nat, (nat, nat)>)
    ensures owner.Keys == Hidden(d).cuts
    ensures forall k | k in owner ::
              && LaterPair(d, owner[k].0, owner[k].1)
              && (forall x | x in owner && owner[k].0 < x <= owner[k].1 :: !Earlier(owner[x], owner[k]))
              && LastOpen(Hidden(d).same, owner[k].0, owner[k].1, k)
    ensures forall k, x | k in owner && x in owner && owner[k] == owner[x] :: k == x
  {
    HiddenSolves(d, Hidden(d));
    var own :| Rules(d, Hidden(d), own);
    owner := own;
    forall k | k in owner
      ensures Unsettled(owner, owner[k].0, owner[k].1) && LastOpen(Hidden(d).same, owner[k].0, owner[k].1, k)
    {
      assert PairRule(d, Hidden(d).same, owner, owner[k].0, owner[k].1);
      assert Owns(owner, k, owner[k].0, owner[k].1);
    }
  }

  // ---- when a boundary is skipped -----------------------------------------------------------------------

  lemma {:induction false} AskSpanGrows(d: Date, f: Found, span: nat, i: nat, end: nat)
    requires span > 0 && end <= |d.sets|
    ensures Grows(f, AskSpan(d, f, span, i, end))
    decreases end - i
  {
    if i + span < end {
      AskSpanGrows(d, AskPair(d, f, i, i + span), span, i + 1, end);
    }
  }

  lemma {:induction false} AskRunGrows(d: Date, f: Found, span: nat, start: nat, end: nat)
    requires span > 0 && start <= end <= |d.sets|
    ensures Grows(f, AskRun(d, f, span, start, end))
    decreases end - start - span
  {
    if span < end - start {
      AskSpanGrows(d, f, span, start, end);
      AskRunGrows(d, AskSpan(d, f, span, start, end), span + 1, start, end);
    }
  }

  lemma {:induction false} AskRunsGrows(d: Date, f: Found, start: nat, end: nat)
    requires start < end
    ensures Grows(f, AskRuns(d, f, start, end))
    decreases |d.sets| + 1 - end
  {
    if end <= |d.sets| {
      if end < |d.sets| && Less(d.sets[end - 1], d.sets[end]) {
        AskRunsGrows(d, f, start, end + 1);
      } else {
        var run := AskRun(d, Found(f.cuts, {}), 1, start, end);
        AskRunGrows(d, Found(f.cuts, {}), 1, start, end);
        AskRunsGrows(d, Found(run.cuts, f.same + run.same), end, end + 1);
      }
    }
  }

  /** Answered "later", and no cut between in the end. */
  predicate Uncut(d: Date, h: Found, i: nat, j: nat)
    requires i < |d.sets| && j < |d.sets|
  {
    Answer(d, i, j) == Some(true) && !CutBetween(h.cuts, i, j)
  }

  lemma CoveredStaysUncut(f: Found, h: Found, i: nat, j: nat)
    requires AllCovered(f.same, i, j) && f.same <= h.same && NoCutInside(h)
    ensures !CutBetween(h.cuts, i, j)
  {
    forall k | i < k <= j ensures k !in h.cuts {
      assert Covered(f.same, k);
      var p :| p in f.same && p.0 < k <= p.1;
      assert p in h.same;
    }
  }

  /** One pair: no place is left for it when it is asked about exactly if it ends without a cut. */
  lemma PairStuck(d: Date, before: set<nat>, f: Found, owner: map<nat, (nat, nat)>, start: nat, end: nat, i: nat, j: nat, h: Found)
    requires InOrder(d, before, f, owner, start, end, (i, j)) && start <= i < j < end
    requires Grows(AskPair(d, f, i, j), h) && NoCutInside(h)
    ensures Stuck(d, f, i, j) <==> Uncut(d, h, i, j)
  {
    AllEarlier(d, before, f, owner, start, end, i, j);
    var g := AskPair(d, f, i, j);
    if Stuck(d, f, i, j) {
      CoveredStaysUncut(f, h, i, j);
    } else if Answer(d, i, j) == Some(true) {
      assert CutBetween(g.cuts, i, j) by {
        if !CutBetween(f.cuts, i, j) {
          assert LatestFree(f.same, i, j) in g.cuts;
        }
      }
      var k :| k in g.cuts && i < k <= j;
      assert k in h.cuts;
    }
  }

  /** Some pair `span` apart, from the one at `i` on, ends uncut. */
  predicate UncutInSpan(d: Date, h: Found, span: nat, i: nat, end: nat)
    requires end <= |d.sets|
  {
    exists x: nat, y: nat | i <= x && y == x + span && y < end :: Uncut(d, h, x, y)
  }

  lemma {:induction false} SpanStuck(d: Date, before: set<nat>, f: Found, owner: map<nat, (nat, nat)>, span: nat, i: nat,
                                     start: nat, end: nat, h: Found)
    requires InOrder(d, before, f, owner, start, end, (i, i + span)) && span > 0 && start <= i
    requires Grows(AskSpan(d, f, span, i, end), h) && NoCutInside(h)
    ensures StuckInSpan(d, f, span, i, end) <==> UncutInSpan(d, h, span, i, end)
    decreases end - i
  {
    if i + span < end {
      var owner' := PairOfSpan(d, before, f, owner, span, i, start, end, h);
      SpanStuck(d, before, AskPair(d, f, i, i + span), owner', span, i + 1, start, end, h);
      NextStuck(d, f, span, i, end, h);
    }
  }

  lemma PairOfSpan(d: Date, before: set<nat>, f: Found, owner: map<nat, (nat, nat)>, span: nat, i: nat, start: nat, end: nat, h: Found)
    returns (owner': map<nat, (nat, nat)>)
    requires InOrder(d, before, f, owner, start, end, (i, i + span)) && span > 0 && start <= i && i + span < end
    requires Grows(AskSpan(d, f, span, i, end), h) && NoCutInside(h)
    ensures Stuck(d, f, i, i + span) <==> Uncut(d, h, i, i + span)
    ensures InOrder(d, before, AskPair(d, f, i, i + span), owner', start, end, (i + 1, i + 1 + span))
    ensures Grows(AskSpan(d, AskPair(d, f, i, i + span), span, i + 1, end), h)
  {
    AskSpanGrows(d, AskPair(d, f, i, i + span), span, i + 1, end);
    PairStuck(d, before, f, owner, start, end, i, i + span, h);
    owner' := AskPairRules(d, before, f, owner, start, end, i, i + span);
  }

  lemma NextStuck(d: Date, f: Found, span: nat, i: nat, end: nat, h: Found)
    requires span > 0 && i + span < end <= |d.sets| && (Stuck(d, f, i, i + span) <==> Uncut(d, h, i, i + span))
    requires StuckInSpan(d, AskPair(d, f, i, i + span), span, i + 1, end) <==> UncutInSpan(d, h, span, i + 1, end)
    ensures StuckInSpan(d, f, span, i, end) <==> UncutInSpan(d, h, span, i, end)
  {
    if x: nat, y: nat :| i <= x && y == x + span && y < end && Uncut(d, h, x, y) {
      assert x == i || i + 1 <= x;
    }
  }

  /** Some pair of the run, at least `span` apart, ends uncut. */
  predicate UncutInRun(d: Date, h: Found, span: nat, start: nat, end: nat)
    requires end <= |d.sets|
  {
    exists w: nat | span <= w < end - start :: UncutInSpan(d, h, w, start, end)
  }

  lemma {:induction false} RunStuck(d: Date, before: set<nat>, f: Found, owner: map<nat, (nat, nat)>, span: nat, start: nat,
                                    end: nat, h: Found)
    requires InOrder(d, before, f, owner, start, end, (start, start + span)) && span > 0 && start <= end
    requires Grows(AskRun(d, f, span, start, end), h) && NoCutInside(h)
    ensures StuckInRun(d, f, span, start, end) <==> UncutInRun(d, h, span, start, end)
    decreases end - start - span
  {
    if span < end - start {
      var next := AskSpan(d, f, span, start, end);
      AskRunGrows(d, next, span + 1, start, end);
      SpanStuck(d, before, f, owner, span, start, start, end, h);
      var owner' := AskSpanRules(d, before, f, owner, span, start, start, end);
      RunStuck(d, before, next, owner', span + 1, start, end, h);
      assert UncutInRun(d, h, span, start, end) <==> UncutInSpan(d, h, span, start, end) || UncutInRun(d, h, span + 1, start, end);
    }
  }

  /** Some pair of one run, from the set at `start` on, is answered "later" and ends uncut. */
  ghost predicate UncutFrom(d: Date, h: Found, start: nat) {
    exists i: nat, j: nat | start <= i :: LaterPair(d, i, j) && !CutBetween(h.cuts, i, j)
  }

  lemma EndsInRun(d: Date, end: nat, i: nat, j: nat)
    requires i < end && LaterPair(d, i, j) && (end < |d.sets| ==> !Ascends(d.sets, end))
    ensures j < end
  {
  }

  lemma UncutOfRun(d: Date, h: Found, start: nat, end: nat)
    requires start < end <= |d.sets| && OneRun(d.sets, start, end - 1) && (end < |d.sets| ==> !Ascends(d.sets, end))
    ensures UncutFrom(d, h, start) <==> UncutInRun(d, h, 1, start, end) || UncutFrom(d, h, end)
  {
    if UncutInRun(d, h, 1, start, end) {
      var w: nat :| 1 <= w < end - start && UncutInSpan(d, h, w, start, end);
      var x: nat, y: nat :| start <= x && y == x + w && y < end && Uncut(d, h, x, y);
      assert LaterPair(d, x, y);
    }
    if i: nat, j: nat :| start <= i && LaterPair(d, i, j) && !CutBetween(h.cuts, i, j) {
      if i < end {
        EndsInRun(d, end, i, j);
        assert Uncut(d, h, i, j) && j == i + (j - i);
        assert UncutInSpan(d, h, j - i, start, end);
      }
    }
  }

  lemma {:induction false} RunsStuck(d: Date, f: Found, start: nat, end: nat, h: Found)
    requires start < end <= |d.sets| + 1 && (forall k | k in f.cuts :: k <= start)
    requires end <= |d.sets| ==> OneRun(d.sets, start, end - 1)
    requires end == |d.sets| + 1 ==> start == |d.sets|
    requires h == AskRuns(d, f, start, end) && NoCutInside(h)
    ensures StuckInRuns(d, f, start, end) <==> UncutFrom(d, h, start)
    decreases |d.sets| + 1 - end
  {
    if end <= |d.sets| {
      if end < |d.sets| && Less(d.sets[end - 1], d.sets[end]) {
        assert Ascends(d.sets, end);
        RunsStuck(d, f, start, end + 1, h);
      } else {
        var none := Found(f.cuts, {});
        var run := AskRun(d, none, 1, start, end);
        var own := AskRunRules(d, f.cuts, none, map[], 1, start, end);
        AskRunsGrows(d, Found(run.cuts, f.same + run.same), end, end + 1);
        RunStuck(d, f.cuts, none, map[], 1, start, end, h);
        RunsStuck(d, Found(run.cuts, f.same + run.same), end, end + 1, h);
        UncutOfRun(d, h, start, end);
      }
    }
  }

  /** hiddenCuts warns of a boundary it has no place for exactly where some pair answered "later" ends uncut. */
  lemma SkipsExactly(d: Date)
    ensures StuckAnywhere(d) <==> exists i: nat, j: nat :: LaterPair(d, i, j) && !CutBetween(Hidden(d).cuts, i, j)
  {
    HiddenFacts(d);
    RunsStuck(d, Found({}, {}), 0, 1, Hidden(d));
  }
}
