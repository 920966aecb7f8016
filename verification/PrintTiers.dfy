/**
 * The tier of each printing of one card, read off where its measured sequence's dates rise
 * (`certainTiers` of scripts/generate-print-tiers.ts).
 *
 * A release date is an integer (ISO dates compare as their days do); `variant` is what `isVariant`
 * answers for the row.
 */
module PrintTiers {
  import opened Wrappers

  datatype Row = Row(released: int, lang: string, setType: string, set_: string, variant: bool)

  /** Rows of foreign languages, of promo sets, of `sld` and of `plst` never end a card's sequence. */
  predicate NeverLastTier(c: Row) {
    c.lang != "en" || c.setType == "promo" || c.set_ == "sld" || c.set_ == "plst"
  }

  /** What anchors a first run. */
  predicate Plain(c: Row) {
    c.lang == "en" && !c.variant && (c.setType == "core" || c.setType == "expansion")
  }

  /** The maximal date-descending stretch a place belongs to. */
  function RunAt(rows: seq<Row>, i: nat): nat
    requires i < |rows|
  {
    if i == 0 then 0
    else RunAt(rows, i - 1) + if rows[i].released > rows[i - 1].released then 1 else 0
  }

  function Runs(rows: seq<Row>): nat {
    if rows == [] then 1 else RunAt(rows, |rows| - 1) + 1
  }

  lemma {:induction false} RunsAscend(rows: seq<Row>, i: nat, j: nat)
    requires i <= j < |rows|
    ensures RunAt(rows, i) <= RunAt(rows, j)
    decreases j
  {
    if i < j {
      RunsAscend(rows, i, j - 1);
    }
  }

  /** Where run 1 begins. */
  function SecondRun(rows: seq<Row>, i: nat): (r: nat)
    requires i < |rows| && RunAt(rows, i) > 0
    ensures 0 < r <= i
  {
    if RunAt(rows, i - 1) == 0 then i else SecondRun(rows, i - 1)
  }

  lemma {:induction false} SecondRunOpens(rows: seq<Row>, i: nat)
    requires i < |rows| && RunAt(rows, i) > 0
    ensures var r := SecondRun(rows, i);
            RunAt(rows, r) == 1 && RunAt(rows, r - 1) == 0 && rows[r].released > rows[r - 1].released
  {
    if RunAt(rows, i - 1) != 0 {
      SecondRunOpens(rows, i - 1);
    }
  }

  function SecondStart(rows: seq<Row>): (r: nat)
    requires Runs(rows) > 1
    ensures 0 < r < |rows|
  {
    SecondRun(rows, |rows| - 1)
  }

  lemma SecondStartOpens(rows: seq<Row>)
    requires Runs(rows) > 1
    ensures var r := SecondStart(rows);
            RunAt(rows, r) == 1 && RunAt(rows, r - 1) == 0 && rows[r].released > rows[r - 1].released
  {
    SecondRunOpens(rows, |rows| - 1);
  }

  predicate Anchored(rows: seq<Row>) {
    exists i: nat | i < |rows| :: RunAt(rows, i) == 0 && Plain(rows[i])
  }

  /** The guards the sequence passes before anything is labelled. */
  predicate Passes(rows: seq<Row>) {
    && Runs(rows) > 1
    && (Runs(rows) >= 3 || Anchored(rows) || NeverLastTier(rows[SecondStart(rows)]))
  }

  /** The second run still holds a never-last row at this place or below. */
  predicate AboveSecondTier(rows: seq<Row>, i: nat)
    requires i < |rows|
  {
    exists k: nat | i <= k < |rows| :: RunAt(rows, k) == 1 && NeverLastTier(rows[k])
  }

  /** What each row is labelled past the guards: the whole first run is. */
  function PastGuards(rows: seq<Row>, i: nat): Option<nat>
    requires i < |rows|
  {
    if RunAt(rows, i) == 0 then Some(0)
    else if RunAt(rows, i) == 1 then if Runs(rows) >= 3 || AboveSecondTier(rows, i) then Some(1) else None
    else if RunAt(rows, i) == 2 then Some(2)
    else None
  }

  function Label(rows: seq<Row>, i: nat): Option<nat>
    requires i < |rows|
  {
    if Passes(rows) then PastGuards(rows, i) else None
  }

  predicate IsRunOf(rows: seq<Row>, run: seq<nat>) {
    |run| == |rows| && forall k: nat | k < |run| :: run[k] == RunAt(rows, k)
  }

  /** The run of each row, and the last one's. */
  method RunsOf(rows: seq<Row>) returns (run: seq<nat>, r: nat)
    ensures IsRunOf(rows, run) && r + 1 == Runs(rows)
  {
    run, r := [], 0;
    for i := 0 to |rows|
      invariant |run| == i && r == (if i > 0 then RunAt(rows, i - 1) else 0)
      invariant forall k: nat | k < i :: run[k] == RunAt(rows, k)
    {
      if i > 0 && rows[i].released > rows[i - 1].released {
        r := r + 1;
      }
      run := run + [r];
    }
  }

  /** The last first-run row dated before the second run, and the last second-run row sure of its tier. */
  method LastSure(rows: seq<Row>, run: seq<nat>, first1: nat) returns (lastSure: int, lastSecond: int)
    requires IsRunOf(rows, run) && 0 < first1 < |rows|
    requires run[first1 - 1] == 0 && rows[first1 - 1].released < rows[first1].released
    ensures lastSure >= first1 - 1
    ensures -1 <= lastSecond < |rows|
    ensures forall i: nat | i < |rows| :: i <= lastSecond <==> AboveSecondTier(rows, i)
  {
    lastSure, lastSecond := -1, -1;
    var boundary := rows[first1].released;
    for i := 0 to |rows|
      invariant i > first1 - 1 ==> lastSure >= first1 - 1
      invariant -1 <= lastSure < i && -1 <= lastSecond < i
      invariant lastSecond >= 0 ==> run[lastSecond] == 1 && NeverLastTier(rows[lastSecond])
      invariant forall k: nat | lastSecond < k < i :: !(run[k] == 1 && NeverLastTier(rows[k]))
    {
      if run[i] == 0 && rows[i].released < boundary {
        lastSure := i;
      }
      if run[i] == 1 && NeverLastTier(rows[i]) {
        lastSecond := i;
      }
    }
  }

  method CertainTiers(rows: seq<Row>) returns (out: seq<Option<nat>>)
    ensures |out| == |rows|
    ensures forall i: nat | i < |rows| :: out[i] == Label(rows, i)
  {
    var run, r := RunsOf(rows);
    out := seq(|rows|, _ => None);
    var runs := r + 1;
    if runs == 1 {
      return;
    }
    var first1 := FirstOf(rows, run);
    SecondRunOpens(rows, |rows| - 1);
    var anchored := exists i: nat | i < |rows| :: run[i] == 0 && Plain(rows[i]);
    assert anchored <==> Anchored(rows);
    if runs < 3 && !anchored && !NeverLastTier(rows[first1]) {
      return;
    }
    var lastSure, lastSecond := LastSure(rows, run, first1);
    for i := 0 to |rows|
      invariant |out| == |rows|
      invariant forall k: nat | k < i :: out[k] == Label(rows, k)
      invariant forall k: nat | i <= k < |rows| :: out[k] == None
    {
      if run[i] == 0 {
        if i >= first1 {
          RunsAscend(rows, first1, i);
        }
        out := out[i := if i <= lastSure then Some(0) else None];
      } else if run[i] == 1 {
        out := out[i := if runs >= 3 || i <= lastSecond then Some(1) else None];
      } else if run[i] == 2 {
        out := out[i := Some(2)];
      }
    }
  }

  /** `run.indexOf(1)`. */
  method FirstOf(rows: seq<Row>, run: seq<nat>) returns (first1: nat)
    requires IsRunOf(rows, run) && Runs(rows) > 1
    ensures first1 == SecondStart(rows)
  {
    ghost var second := SecondStart(rows);
    SecondStartOpens(rows);
    first1 := 0;
    while run[first1] != 1
      invariant first1 <= second
      decreases second - first1
    {
      first1 := first1 + 1;
    }
    if first1 < second {
      RunsAscend(rows, first1, second - 1);
    }
  }

  // ---- soundness --------------------------------------------------------------------------------------

  /** What the tier of the row below one says of it. */
  predicate TierStep(rows: seq<Row>, tier: seq<nat>, i: nat)
    requires |tier| == |rows| && i + 1 < |rows|
  {
    tier[i] <= tier[i + 1] && (tier[i] == tier[i + 1] ==> rows[i].released >= rows[i + 1].released)
  }

  /**
   * A card's hidden tiers: 0 to 2, never falling along the sequence, dates never rising inside one, and
   * every never-last row in tier 1.
   */
  predicate Truth(rows: seq<Row>, tier: seq<nat>) {
    && |tier| == |rows|
    && (forall i: nat | i < |rows| :: tier[i] <= 2)
    && (forall i: nat | i + 1 < |rows| :: TierStep(rows, tier, i))
    && (forall i: nat | i < |rows| && NeverLastTier(rows[i]) :: tier[i] == 1)
  }

  /** Tiers never fall, and every rise of the dates is a step to a later one. */
  lemma {:induction false} RiseClimbs(rows: seq<Row>, tier: seq<nat>, i: nat, j: nat)
    requires Truth(rows, tier) && i <= j < |rows|
    ensures tier[i] <= tier[j]
    ensures RunAt(rows, j) - RunAt(rows, i) <= tier[j] - tier[i]
    decreases j
  {
    if i < j {
      RiseClimbs(rows, tier, i, j - 1);
      assert TierStep(rows, tier, j - 1);
    }
  }

  ghost predicate AllRight(rows: seq<Row>, tier: seq<nat>)
    requires |tier| == |rows|
  {
    forall i: nat | i < |rows| && Label(rows, i).Some? :: Label(rows, i).value == tier[i]
  }

  /** One row's label, when the first run ends in tier 0. */
  lemma LabelRight(rows: seq<Row>, tier: seq<nat>, first1: nat, i: nat)
    requires Truth(rows, tier) && 0 < first1 < |rows| && tier[first1 - 1] == 0
    requires RunAt(rows, first1) == 1 && RunAt(rows, first1 - 1) == 0
    requires i < |rows| && PastGuards(rows, i).Some?
    ensures PastGuards(rows, i).value == tier[i]
  {
    var last := |rows| - 1;
    if i < first1 {
      RunsAscend(rows, i, first1 - 1);
      RiseClimbs(rows, tier, i, first1 - 1);
    } else {
      RunsAscend(rows, first1, i);
      RunsAscend(rows, i, last);
      RiseClimbs(rows, tier, first1 - 1, i);
      RiseClimbs(rows, tier, i, last);
      if RunAt(rows, i) == 1 && Runs(rows) < 3 {
        var k: nat :| i <= k < |rows| && RunAt(rows, k) == 1 && NeverLastTier(rows[k]);
        RiseClimbs(rows, tier, i, k);
      }
    }
  }

  ghost predicate AllPastRight(rows: seq<Row>, tier: seq<nat>)
    requires |tier| == |rows|
  {
    forall i: nat | i < |rows| && PastGuards(rows, i).Some? :: PastGuards(rows, i).value == tier[i]
  }

  lemma PastIsLabel(rows: seq<Row>, tier: seq<nat>)
    requires |tier| == |rows| && Passes(rows)
    ensures AllRight(rows, tier) <==> AllPastRight(rows, tier)
  {
    forall i: nat | i < |rows| ensures Label(rows, i) == PastGuards(rows, i) { }
  }

  lemma FromFirstRun(rows: seq<Row>, tier: seq<nat>, first1: nat)
    requires Truth(rows, tier) && 0 < first1 < |rows| && tier[first1 - 1] == 0
    requires RunAt(rows, first1) == 1 && RunAt(rows, first1 - 1) == 0
    ensures AllPastRight(rows, tier)
  {
    forall i: nat | i < |rows| && PastGuards(rows, i).Some? ensures PastGuards(rows, i).value == tier[i] {
      LabelRight(rows, tier, first1, i);
    }
  }

  /** Once the guards pass, the labels are the true tiers exactly when the first run ends in tier 0. */
  lemma LabelsExactly(rows: seq<Row>, tier: seq<nat>)
    requires Truth(rows, tier) && Passes(rows)
    ensures AllRight(rows, tier) <==> tier[SecondStart(rows) - 1] == 0
  {
    var first1 := SecondStart(rows);
    SecondStartOpens(rows);
    PastIsLabel(rows, tier);
    if tier[first1 - 1] == 0 {
      FromFirstRun(rows, tier, first1);
    } else {
      assert PastGuards(rows, first1 - 1) == Some(0);
    }
  }

  /** A third run, or a second that opens in the second tier, leaves the first only tier 0. */
  lemma FirstRunIsZero(rows: seq<Row>, tier: seq<nat>, first1: nat, last: nat)
    requires Truth(rows, tier) && 0 < first1 <= last < |rows|
    requires RunAt(rows, first1) == 1 && RunAt(rows, first1 - 1) == 0
    requires RunAt(rows, last) >= 2 || tier[first1] == 1
    ensures tier[first1 - 1] == 0
  {
    RiseClimbs(rows, tier, first1 - 1, first1);
    RiseClimbs(rows, tier, first1 - 1, last);
  }

  /** Three runs, or two whose second opens in the second tier: every label is the true tier. */
  lemma LabelsSound(rows: seq<Row>, tier: seq<nat>)
    requires Truth(rows, tier) && Passes(rows)
    requires Runs(rows) >= 3 || tier[SecondStart(rows)] == 1
    ensures AllRight(rows, tier)
  {
    SecondStartOpens(rows);
    FirstRunIsZero(rows, tier, SecondStart(rows), |rows| - 1);
    LabelsExactly(rows, tier);
  }

  /** Where the second run opens on a never-last row, nothing need be assumed of it. */
  lemma LabelsSoundOnNeverLast(rows: seq<Row>, tier: seq<nat>)
    requires Truth(rows, tier) && Runs(rows) > 1
    requires Runs(rows) >= 3 || NeverLastTier(rows[SecondStart(rows)])
    ensures AllRight(rows, tier)
  {
    LabelsSound(rows, tier);
  }

  // ---- when the rows alone prove the labels -----------------------------------------------------------

  /** Three runs, or a never-last row anywhere in the second. */
  predicate SecondTierShown(rows: seq<Row>) {
    Runs(rows) >= 3 || exists k: nat | k < |rows| :: RunAt(rows, k) == 1 && NeverLastTier(rows[k])
  }

  /** Whatever the hidden tiers are, every label is right. */
  ghost predicate Proven(rows: seq<Row>) {
    forall tier | Truth(rows, tier) :: AllRight(rows, tier)
  }

  /** A second run that may be the last tier: then the first may be the second, every row of it. */
  function Raised(rows: seq<Row>): seq<nat> {
    seq(|rows|, i requires 0 <= i < |rows| => RunAt(rows, i) + 1)
  }

  lemma RaisedSteps(rows: seq<Row>, i: nat)
    requires i + 1 < |rows|
    ensures TierStep(rows, Raised(rows), i)
  {
    assert RunAt(rows, i + 1) == RunAt(rows, i) + if rows[i + 1].released > rows[i].released then 1 else 0;
  }

  lemma RaisedFits(rows: seq<Row>, i: nat)
    requires i < |rows| && Runs(rows) == 2 && !SecondTierShown(rows)
    ensures Raised(rows)[i] <= 2 && (NeverLastTier(rows[i]) ==> Raised(rows)[i] == 1)
  {
    RunsAscend(rows, i, |rows| - 1);
    assert RunAt(rows, i) <= RunAt(rows, |rows| - 1) == 1;
    assert NeverLastTier(rows[i]) ==> RunAt(rows, i) != 1;
  }

  lemma RaisedIsTruth(rows: seq<Row>)
    requires Runs(rows) == 2 && !SecondTierShown(rows)
    ensures Truth(rows, Raised(rows))
  {
    var tier := Raised(rows);
    forall i: nat | i < |rows| ensures tier[i] <= 2 && (NeverLastTier(rows[i]) ==> tier[i] == 1) {
      RaisedFits(rows, i);
    }
    forall i: nat | i + 1 < |rows| ensures TierStep(rows, tier, i) {
      RaisedSteps(rows, i);
    }
  }

  lemma ShownMeansZero(rows: seq<Row>, tier: seq<nat>)
    requires Truth(rows, tier) && Runs(rows) > 1 && SecondTierShown(rows)
    ensures tier[SecondStart(rows) - 1] == 0
  {
    var first1 := SecondStart(rows);
    SecondStartOpens(rows);
    if Runs(rows) >= 3 {
      FirstRunIsZero(rows, tier, first1, |rows| - 1);
    } else {
      var k: nat :| k < |rows| && RunAt(rows, k) == 1 && NeverLastTier(rows[k]);
      if k < first1 {
        RunsAscend(rows, k, first1 - 1);
      }
      RiseClimbs(rows, tier, first1 - 1, k);
    }
  }

  lemma ShownProves(rows: seq<Row>)
    requires Passes(rows) && SecondTierShown(rows)
    ensures Proven(rows)
  {
    forall tier | Truth(rows, tier) ensures AllRight(rows, tier) {
      ShownMeansZero(rows, tier);
      LabelsExactly(rows, tier);
    }
  }

  lemma RaisedIsWrong(rows: seq<Row>)
    requires Passes(rows) && !SecondTierShown(rows)
    ensures Truth(rows, Raised(rows)) && !AllRight(rows, Raised(rows))
  {
    RaisedIsTruth(rows);
    SecondStartOpens(rows);
    LabelsExactly(rows, Raised(rows));
    assert Raised(rows)[SecondStart(rows) - 1] == 1;
  }

  /**
   * Past the guards, the rows prove the labels exactly when there are three runs or the second holds a
   * never-last row. The anchor the guards also accept proves nothing.
   */
  lemma ProvenExactly(rows: seq<Row>)
    requires Passes(rows)
    ensures Proven(rows) <==> SecondTierShown(rows)
  {
    if SecondTierShown(rows) {
      ShownProves(rows);
    } else {
      RaisedIsWrong(rows);
    }
  }

  // ---- when a row is labelled -------------------------------------------------------------------------

  predicate Rises(rows: seq<Row>, i: nat) {
    0 < i < |rows| && rows[i].released > rows[i - 1].released
  }

  /** A row's run is the number of rises of the dates up to it. */
  lemma {:induction false} RunCounts(rows: seq<Row>, i: nat)
    requires i < |rows|
    ensures RunAt(rows, i) == |set k: nat | k <= i && Rises(rows, k)|
  {
    if i == 0 {
      assert (set k: nat | k <= i && Rises(rows, k)) == {};
    } else {
      RunCounts(rows, i - 1);
      assert (set k: nat | k <= i && Rises(rows, k)) ==
        (set k: nat | k <= i - 1 && Rises(rows, k)) + if Rises(rows, i) then {i} else {};
    }
  }

  /** What lets a sequence be labelled, told from its first rise at `r`. */
  predicate WorthLabelling(rows: seq<Row>, r: nat) {
    && Rises(rows, r) && (forall i | 0 < i < r :: !Rises(rows, i))
    && (|| NeverLastTier(rows[r])
        || (exists i | 0 <= i < r :: Plain(rows[i]))
        || (exists s | r < s < |rows| :: Rises(rows, s)))
  }

  lemma {:induction false} RunsFromRises(rows: seq<Row>, r: nat, i: nat)
    requires Rises(rows, r) && (forall k | 0 < k < r :: !Rises(rows, k)) && i < |rows|
    ensures i < r ==> RunAt(rows, i) == 0
    ensures i >= r ==> RunAt(rows, i) >= 1
    ensures i >= r ==> (RunAt(rows, i) >= 2 <==> exists s | r < s <= i :: Rises(rows, s))
  {
    if i > 0 {
      RunsFromRises(rows, r, i - 1);
      assert RunAt(rows, i) == RunAt(rows, i - 1) + if Rises(rows, i) then 1 else 0;
    }
  }

  /** A sequence gets any label exactly where it is worth labelling, and then its whole first run is in tier 0. */
  lemma LabelledAtAll(rows: seq<Row>)
    ensures (exists i: nat | i < |rows| :: Label(rows, i).Some?) <==> exists r: nat :: WorthLabelling(rows, r)
    ensures forall r: nat, i: nat | WorthLabelling(rows, r) && i < r :: Label(rows, i) == Some(0)
  {
    forall r: nat | WorthLabelling(rows, r) ensures forall i: nat | i < r :: Label(rows, i) == Some(0) {
      WorthPasses(rows, r);
    }
    if r: nat :| WorthLabelling(rows, r) {
      assert Label(rows, 0) == Some(0);
    }
    if i: nat :| i < |rows| && Label(rows, i).Some? {
      PassingIsWorth(rows);
    }
  }

  lemma WorthPasses(rows: seq<Row>, r: nat)
    requires WorthLabelling(rows, r)
    ensures Passes(rows) && forall i: nat | i < r :: RunAt(rows, i) == 0
  {
    forall i: nat | i < |rows|
      ensures i < r ==> RunAt(rows, i) == 0
      ensures i >= r ==> RunAt(rows, i) >= 1
    {
      RunsFromRises(rows, r, i);
    }
    RunsFromRises(rows, r, |rows| - 1);
    SecondStartOpens(rows);
    assert SecondStart(rows) == r;
    if i: nat :| i < r && Plain(rows[i]) {
      assert RunAt(rows, i) == 0 && Plain(rows[i]);
    }
  }

  lemma PassingIsWorth(rows: seq<Row>)
    requires Passes(rows)
    ensures WorthLabelling(rows, SecondStart(rows))
  {
    var r := SecondStart(rows);
    SecondStartOpens(rows);
    forall k: nat | 0 < k < r ensures !Rises(rows, k) {
      RunsAscend(rows, 0, k - 1);
      RunsAscend(rows, k, r - 1);
    }
    RunsFromRises(rows, r, |rows| - 1);
    if Anchored(rows) {
      var i: nat :| i < |rows| && RunAt(rows, i) == 0 && Plain(rows[i]);
      RunsFromRises(rows, r, i);
    }
  }

  /** Three runs leave no row of them unlabelled. */
  lemma ThreeRunsLabelled(rows: seq<Row>, i: nat)
    requires Runs(rows) >= 3 && i < |rows|
    ensures Label(rows, i) == if RunAt(rows, i) <= 2 then Some(RunAt(rows, i)) else None
  {
  }

  /** Where only the anchor lets it pass, exactly the first run is labelled. */
  lemma AnchoredLabelled(rows: seq<Row>, i: nat)
    requires Passes(rows) && !SecondTierShown(rows) && i < |rows|
    ensures Label(rows, i) == if RunAt(rows, i) == 0 then Some(0) else None
  {
    RunsAscend(rows, i, |rows| - 1);
  }

  /** The tiers that put as much of a second run in the last tier as may be. */
  function Latest(rows: seq<Row>): seq<nat> {
    seq(|rows|, i requires 0 <= i < |rows| => if RunAt(rows, i) == 0 then 0 else if AboveSecondTier(rows, i) then 1 else 2)
  }

  function Earliest(rows: seq<Row>): seq<nat> {
    seq(|rows|, i requires 0 <= i < |rows| => RunAt(rows, i))
  }

  /** Of two runs, where the second tier is shown the first run holds no never-last row. */
  lemma FirstRunMayBeLast(rows: seq<Row>, tier: seq<nat>, i: nat)
    requires Truth(rows, tier) && Runs(rows) == 2 && SecondTierShown(rows) && i < |rows| && RunAt(rows, i) == 0
    ensures !NeverLastTier(rows[i])
  {
    var first1 := SecondStart(rows);
    ShownMeansZero(rows, tier);
    SecondStartOpens(rows);
    if i >= first1 {
      RunsAscend(rows, first1, i);
    } else {
      RiseClimbs(rows, tier, i, first1 - 1);
    }
  }

  predicate TierFits(rows: seq<Row>, tier: seq<nat>, i: nat)
    requires |tier| == |rows| && i < |rows|
  {
    tier[i] <= 2 && (NeverLastTier(rows[i]) ==> tier[i] == 1)
  }

  lemma EarliestFits(rows: seq<Row>, i: nat)
    requires i < |rows| && RunAt(rows, i) <= 1 && (RunAt(rows, i) == 0 ==> !NeverLastTier(rows[i]))
    ensures TierFits(rows, Earliest(rows), i)
  {
  }

  lemma EarliestSteps(rows: seq<Row>, i: nat)
    requires i + 1 < |rows|
    ensures TierStep(rows, Earliest(rows), i)
  {
    assert RunAt(rows, i + 1) == RunAt(rows, i) + if rows[i + 1].released > rows[i].released then 1 else 0;
  }

  lemma LatestFits(rows: seq<Row>, i: nat)
    requires i < |rows| && RunAt(rows, i) <= 1 && (RunAt(rows, i) == 0 ==> !NeverLastTier(rows[i]))
    ensures TierFits(rows, Latest(rows), i)
  {
    if NeverLastTier(rows[i]) {
      assert AboveSecondTier(rows, i);
    }
  }

  lemma LatestSteps(rows: seq<Row>, i: nat)
    requires i + 1 < |rows| && RunAt(rows, i + 1) <= 1
    ensures TierStep(rows, Latest(rows), i)
  {
    assert RunAt(rows, i + 1) == RunAt(rows, i) + if rows[i + 1].released > rows[i].released then 1 else 0;
    if AboveSecondTier(rows, i + 1) {
      var k: nat :| i + 1 <= k < |rows| && RunAt(rows, k) == 1 && NeverLastTier(rows[k]);
      assert i <= k;
      assert AboveSecondTier(rows, i);
    }
  }

  lemma TwoRunsBothWays(rows: seq<Row>, tier: seq<nat>)
    requires Truth(rows, tier) && Runs(rows) == 2 && SecondTierShown(rows)
    ensures Truth(rows, Earliest(rows)) && Truth(rows, Latest(rows))
  {
    forall i: nat | i < |rows|
      ensures RunAt(rows, i) <= 1 && (RunAt(rows, i) == 0 ==> !NeverLastTier(rows[i]))
    {
      RunsAscend(rows, i, |rows| - 1);
      if RunAt(rows, i) == 0 {
        FirstRunMayBeLast(rows, tier, i);
      }
    }
    BothWays(rows);
  }

  lemma BothWays(rows: seq<Row>)
    requires forall i: nat | i < |rows| :: RunAt(rows, i) <= 1 && (RunAt(rows, i) == 0 ==> !NeverLastTier(rows[i]))
    ensures Truth(rows, Earliest(rows)) && Truth(rows, Latest(rows))
  {
    var early, late := Earliest(rows), Latest(rows);
    forall i: nat | i < |rows| ensures TierFits(rows, early, i) && TierFits(rows, late, i) {
      EarliestFits(rows, i);
      LatestFits(rows, i);
    }
    forall i: nat | i + 1 < |rows| ensures TierStep(rows, early, i) && TierStep(rows, late, i) {
      EarliestSteps(rows, i);
      LatestSteps(rows, i);
    }
    HoldsIsTruth(rows, early);
    HoldsIsTruth(rows, late);
  }

  lemma HoldsIsTruth(rows: seq<Row>, tier: seq<nat>)
    requires |tier| == |rows|
    requires forall i: nat | i < |rows| :: TierFits(rows, tier, i)
    requires forall i: nat | i + 1 < |rows| :: TierStep(rows, tier, i)
    ensures Truth(rows, tier)
  {
    forall i: nat | i < |rows| ensures tier[i] <= 2 && (NeverLastTier(rows[i]) ==> tier[i] == 1) {
      assert TierFits(rows, tier, i);
    }
  }

  /**
   * Past the guards, where the second tier is shown: a row is labelled exactly where the rows prove its tier,
   * that is, where all hidden tiers the rows allow give it one and the same.
   */
  lemma LabelledExactly(rows: seq<Row>, i: nat)
    requires Passes(rows) && SecondTierShown(rows) && i < |rows|
    requires exists tier :: Truth(rows, tier)
    ensures Label(rows, i).Some? <==> forall t, u | Truth(rows, t) && Truth(rows, u) :: t[i] == u[i]
  {
    ShownProves(rows);
    var tier :| Truth(rows, tier);
    RunsAreFew(rows, tier);
    if Label(rows, i).Some? {
      forall t, u | Truth(rows, t) && Truth(rows, u) ensures t[i] == u[i] {
        assert AllRight(rows, t) && AllRight(rows, u);
      }
    } else {
      TwoRunsBothWays(rows, tier);
      var t, u := Earliest(rows), Latest(rows);
      assert t[i] == 1 && u[i] == 2;
    }
  }

  /** Hidden tiers make at most three runs; past the guards, every row outside the second run is labelled. */
  lemma RunsAreFew(rows: seq<Row>, tier: seq<nat>)
    requires Truth(rows, tier)
    ensures Runs(rows) <= 3
    ensures forall i: nat | i < |rows| && Passes(rows) && RunAt(rows, i) != 1 :: Label(rows, i).Some?
  {
    if rows != [] {
      RiseClimbs(rows, tier, 0, |rows| - 1);
    }
    forall i: nat | i < |rows| ensures RunAt(rows, i) < Runs(rows) {
      RunsAscend(rows, i, |rows| - 1);
    }
  }

  const CORE := Row(5, "en", "core", "10e", false)
  const MIDDLE := Row(3, "en", "box", "bx", false)
  const BONUS := Row(4, "en", "memorabilia", "mem", false)

  /** An anchored first run proves less than the guard takes it to: the second run may open in the last tier. */
  lemma AnchoredMayMislabel()
    ensures var rows := [CORE, MIDDLE, BONUS];
            Truth(rows, [0, 1, 2]) && Passes(rows) && Label(rows, 1) == Some(0) && !AllRight(rows, [0, 1, 2])
  {
    var rows := [CORE, MIDDLE, BONUS];
    assert RunAt(rows, 0) == 0 && RunAt(rows, 1) == 0 && RunAt(rows, 2) == 1;
    assert Plain(rows[0]);
    assert Anchored(rows);
    assert Label(rows, 1) == Some(0);
  }
}
