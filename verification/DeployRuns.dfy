/**
 * Any number of deploys on one store, interleaved step by step (scripts/seed-remote-kv.ts in the order
 * it publishes). A step that a script could not take in a state leaves the state alone.
 */
module DeployRuns {
  import opened Wrappers
  import opened KvRetention
  import opened DeployUpload

  /** Sending: begun, keys still going up. Wrote: its manifest is written, `Finish` is left. Over: done or refused. */
  datatype Phase = Sending | Wrote(manifest: Manifest) | Over

  datatype Deploy = Deploy(format: nat, put: set<nat>, phase: Phase)

  /** `families`: for each build ever named, the keys its archives consist of. */
  datatype System = System(kv: Kv, families: map<nat, set<nat>>, deploys: map<nat, Deploy>)

  datatype Step =
    | Begin(builtAt: nat, format: nat, ids: set<nat>, incoming: Incoming)
    | PutKey(builtAt: nat, id: nat, bytes: nat)
    | Commit(builtAt: nat)
    | Finish(builtAt: nat)
    | StraySweep
    | LeaseExpires
    | Ensure(format: nat)

  predicate IsSending(s: System, b: nat) {
    b in s.deploys && s.deploys[b].phase.Sending?
  }

  predicate HasWritten(s: System, b: nat) {
    b in s.deploys && s.deploys[b].phase.Wrote?
  }

  function WithPhase(s: System, b: nat, phase: Phase): map<nat, Deploy>
    requires b in s.deploys
  {
    s.deploys[b := s.deploys[b].(phase := phase)]
  }

  ghost function Apply(s: System, step: Step): System {
    match step
    case Begin(b, format, ids, incoming) =>
      if b in s.families then s   // every build has a `built_at` of its own
      else System(BeginKv(s.kv, b, incoming), s.families[b := ids],
                  s.deploys[b := Deploy(format, {}, if BeginPlan(s.kv, b, incoming).decision == Refuse then Over else Sending)])
    case PutKey(b, id, bytes) =>
      // A put asks nobody: a deploy that lost the lease goes on putting keys until its commit point.
      if IsSending(s, b) && b in s.families && id in s.families[b] then
        s.(kv := s.kv.(keys := PutListed(s.kv.keys, GenKey(b, id), bytes)),
           deploys := s.deploys[b := s.deploys[b].(put := s.deploys[b].put + {id})])
      else s
    case Commit(b) =>
      if IsSending(s, b) && b in s.families && s.deploys[b].put == s.families[b] then
        if s.kv.lease == Some(b) then
          var format := s.deploys[b].format;
          s.(kv := CommitKv(s.kv, b, format),
             deploys := WithPhase(s, b, Wrote(WithPrevious(b, format, Replaced(s.kv, format)))))
        else s.(deploys := WithPhase(s, b, Over))
      else s
    case Finish(b) =>
      if HasWritten(s, b) then
        s.(kv := FinishKv(s.kv, s.deploys[b].phase.manifest), deploys := WithPhase(s, b, Over))
      else s
    case StraySweep => s.(kv := SweepKv(s.kv, None))
    case LeaseExpires => s.(kv := s.kv.(lease := None))
    case Ensure(format) => s.(kv := EnsureKv(s.kv, format))
  }

  ghost function Run(s: System, steps: seq<Step>): System
    decreases |steps|
  {
    if steps == [] then s else Run(Apply(s, steps[0]), steps[1..])
  }

  // ---- what must hold -------------------------------------------------------------------------------

  ghost predicate Complete(s: System, b: nat) {
    b in s.families && forall id | id in s.families[b] :: GenKey(b, id) in Names(s.kv.keys)
  }

  /** Every key of every family a live manifest names is in the store. */
  ghost predicate Safe(s: System) {
    forall b | b in LiveAts(PublishedOf(s.kv)) :: Complete(s, b)
  }

  ghost predicate DeployOk(s: System, b: nat)
    requires b in s.deploys
  {
    var d := s.deploys[b];
    && b in s.families
    && d.put <= s.families[b]
    && (d.phase.Wrote? ==>
          && d.phase.manifest.builtAt == b
          && d.phase.manifest.format == d.format
          && d.format in s.kv.formats)
    && (d.phase.Sending? && s.kv.lease == Some(b) ==>
          forall id | id in d.put :: GenKey(b, id) in Names(s.kv.keys))
  }

  ghost predicate Inv(s: System) {
    && WellKeyed(s.kv)
    && LiveAts(PublishedOf(s.kv)) <= s.families.Keys
    && forall b | b in s.deploys :: DeployOk(s, b)
  }

  /** Another key than the format's own names the build. */
  predicate NamedElsewhere(kv: Kv, format: nat, builtAt: nat) {
    || (kv.legacy.Some? && kv.legacy.value.builtAt == builtAt)
    || exists f | f in kv.formats :: f != format && kv.formats[f].builtAt == builtAt
  }

  /** The live manifests as the publisher of `m` sees them: its own stands for its format's key. */
  ghost function ViewOf(kv: Kv, m: Manifest): set<Published> {
    WithOwn(PublishedOf(kv), m)
  }

  /** With `m` in its format's key, the build is what the newest manifest replaced, and at most three families stay. */
  ghost predicate StaysAsRollback(kv: Kv, m: Manifest, builtAt: nat) {
    var view := ViewOf(kv, m);
    view != {} && IsRollback(kv.keys, Primary(view).value, LiveAts(view), ReleaseKv(kv, m.builtAt).lease, builtAt)
  }

  /**
   * What a deploy could ask before it finishes: what its own format's key names now is still this build, or
   * another manifest names that too, or it is uploading, or it is the rollback, or it has no keys.
   */
  ghost predicate FinishGuard(s: System, b: nat) {
    HasWritten(s, b) && s.deploys[b].phase.manifest.format in s.kv.formats ==>
      var m := s.deploys[b].phase.manifest;
      var named := s.kv.formats[m.format].builtAt;
      || named == m.builtAt
      || NamedElsewhere(s.kv, m.format, named)
      || s.kv.lease == Some(named)
      || StaysAsRollback(s.kv, m, named)
      || (named in s.families && s.families[named] == {})
  }

  // ---- one step at a time ---------------------------------------------------------------------------

  lemma LiveOfEntries(kv: Kv, b: nat)
    ensures b in LiveAts(PublishedOf(kv)) <==>
              || (exists f :: f in kv.formats && kv.formats[f].builtAt == b)
              || (kv.legacy.Some? && kv.legacy.value.builtAt == b)
  {
    if f :| f in kv.formats && kv.formats[f].builtAt == b {
      assert Published(false, kv.formats[f]) in PublishedOf(kv);
    }
    if kv.legacy.Some? && kv.legacy.value.builtAt == b {
      assert Published(true, kv.legacy.value) in PublishedOf(kv);
    }
  }

  /** A sweep, stray or not, keeps every family in its view and the lease holder's. */
  lemma SweepKeeps(kv: Kv, own: Option<Manifest>)
    ensures var after := SweepKv(kv, own);
            && PublishedOf(after) == PublishedOf(kv)
            && Names(after.keys) <= Names(kv.keys)
            && forall k | k in Names(kv.keys) && (k.builtAt in LiveAts(SweepView(kv, own)) || kv.lease == Some(k.builtAt)) ::
                 k in Names(after.keys)
  {
    var view := SweepView(kv, own);
    PrimaryIsLive(view);
    PlanKeepsLive(kv.keys, 0, Primary(view), LiveAts(view), InFlightOf(kv.lease, LiveAts(view)), None);
  }

  lemma BeginKeepsInv(s: System, step: Step)
    requires step.Begin? && Inv(s)
    ensures Inv(Apply(s, step))
    ensures Safe(s) ==> Safe(Apply(s, step))
  {
    var b := step.builtAt;
    if b !in s.families {
      var published := PublishedOf(s.kv);
      PrimaryIsLive(published);
      PlanKeepsLive(s.kv.keys, s.kv.otherBytes, Primary(published), LiveAts(published), Some(b), Some(step.incoming));
      var t := Apply(s, step);
      assert PublishedOf(t.kv) == published;
      forall d | d in t.deploys ensures DeployOk(t, d) {
        if d != b {
          assert DeployOk(s, d);
        }
      }
    }
  }

  lemma PutKeepsInv(s: System, step: Step)
    requires step.PutKey? && Inv(s)
    ensures Inv(Apply(s, step))
    ensures Safe(s) ==> Safe(Apply(s, step))
  {
    var b := step.builtAt;
    NamesOfPut(s.kv.keys, GenKey(b, step.id), step.bytes);
    var t := Apply(s, step);
    assert PublishedOf(t.kv) == PublishedOf(s.kv);
    forall d | d in t.deploys ensures DeployOk(t, d) {
      assert DeployOk(s, d);
    }
  }

  lemma CommitKeepsInv(s: System, step: Step)
    requires step.Commit? && Inv(s)
    ensures Inv(Apply(s, step))
    ensures Safe(s) ==> Safe(Apply(s, step))
  {
    var b := step.builtAt;
    var t := Apply(s, step);
    forall d | d in t.deploys ensures DeployOk(t, d) {
      assert DeployOk(s, d);
    }
    forall x | x in LiveAts(PublishedOf(t.kv))
      ensures x in s.families && (Safe(s) ==> Complete(t, x))
    {
      LiveOfEntries(t.kv, x);
      LiveOfEntries(s.kv, x);
      if x in LiveAts(PublishedOf(s.kv)) {
        if Safe(s) {
          assert Complete(s, x);
        }
      } else {
        // Only the committing deploy's own family is new, and it never lost the lease.
        assert x == b && s.kv.lease == Some(b);
        assert DeployOk(s, b);
      }
    }
  }

  lemma EnsureKeepsInv(s: System, step: Step)
    requires step.Ensure? && Inv(s)
    ensures Inv(Apply(s, step))
    ensures Safe(s) ==> Safe(Apply(s, step))
  {
    var t := Apply(s, step);
    forall d | d in t.deploys ensures DeployOk(t, d) {
      assert DeployOk(s, d);
    }
    forall x | x in LiveAts(PublishedOf(t.kv))
      ensures x in LiveAts(PublishedOf(s.kv))
    {
      LiveOfEntries(t.kv, x);
      LiveOfEntries(s.kv, x);
    }
  }

  lemma SweepKeepsInv(s: System, step: Step)
    requires (step.StraySweep? || step.LeaseExpires?) && Inv(s)
    ensures Inv(Apply(s, step))
    ensures Safe(s) ==> Safe(Apply(s, step))
  {
    var t := Apply(s, step);
    SweepKeeps(s.kv, None);
    if step.StraySweep? {
      assert t == s.(kv := SweepKv(s.kv, None));
    } else {
      assert t == s.(kv := s.kv.(lease := None));
    }
    assert PublishedOf(t.kv) == PublishedOf(s.kv);
    forall d | d in t.deploys ensures DeployOk(t, d) {
      assert DeployOk(s, d);
    }
    if Safe(s) {
      forall x | x in LiveAts(PublishedOf(t.kv)) ensures Complete(t, x) {
        assert Complete(s, x);
      }
    }
  }

  lemma FinishKeepsInv(s: System, step: Step)
    requires step.Finish? && Inv(s)
    ensures Inv(Apply(s, step))
  {
    var b := step.builtAt;
    if HasWritten(s, b) {
      var m := s.deploys[b].phase.manifest;
      var released := ReleaseKv(s.kv, m.builtAt);
      SweepKeeps(released, Some(m));
      var t := Apply(s, step);
      assert PublishedOf(released) == PublishedOf(s.kv);
      forall d | d in t.deploys ensures DeployOk(t, d) {
        assert DeployOk(s, d);
      }
    }
  }

  /** What a finishing deploy's sweep keeps. */
  ghost predicate FinishKeeps(s: System, m: Manifest, b: nat) {
    var view := ViewOf(s.kv, m);
    view != {} && Stays(ReleaseKv(s.kv, m.builtAt), view, b)
  }

  /** The publisher's view names its own build and those the other keys name. */
  lemma ViewNames(kv: Kv, m: Manifest, x: nat)
    requires WellKeyed(kv)
    ensures x in LiveAts(ViewOf(kv, m)) <==> x == m.builtAt || NamedElsewhere(kv, m.format, x)
  {
    var view := ViewOf(kv, m);
    assert Published(false, m) in view;
    if NamedElsewhere(kv, m.format, x) {
      if kv.legacy.Some? && kv.legacy.value.builtAt == x {
        assert Published(true, kv.legacy.value) in view;
      } else {
        var f :| f in kv.formats && f != m.format && kv.formats[f].builtAt == x;
        assert Published(false, kv.formats[f]) in PublishedOf(kv);
      }
    }
    if x in LiveAts(view) {
      var p :| p in view && p.manifest.builtAt == x;
      if p != Published(false, m) && !p.legacy {
        var f :| f in kv.formats && p == Published(false, kv.formats[f]);
        assert f != m.format;
      }
    }
  }

  /** The guard, told by what the sweep keeps. */
  lemma GuardIsKept(s: System, b: nat)
    requires Inv(s) && HasWritten(s, b)
    ensures var m := s.deploys[b].phase.manifest;
            m.format in s.kv.formats && m.builtAt == b && m.format == s.deploys[b].format
    ensures var m := s.deploys[b].phase.manifest;
            var named := s.kv.formats[m.format].builtAt;
            FinishGuard(s, b) <==> FinishKeeps(s, m, named) || (named in s.families && s.families[named] == {})
  {
    assert DeployOk(s, b);
    var m := s.deploys[b].phase.manifest;
    var named := s.kv.formats[m.format].builtAt;
    var view := ViewOf(s.kv, m);
    assert Published(false, m) in view;
    ViewNames(s.kv, m, named);
    PrimaryIsLive(view);
  }

  /** The families a finishing deploy's sweep leaves are exactly the ones with a role in its view. */
  lemma FinishRemaining(s: System, b: nat)
    requires Inv(s) && HasWritten(s, b)
    ensures var t := Apply(s, Finish(b));
            && t.families == s.families
            && PublishedOf(t.kv) == PublishedOf(s.kv)
            && Names(t.kv.keys) == set k | k in Names(s.kv.keys) && FinishKeeps(s, s.deploys[b].phase.manifest, k.builtAt)
  {
    var m := s.deploys[b].phase.manifest;
    var released := ReleaseKv(s.kv, m.builtAt);
    assert PublishedOf(released) == PublishedOf(s.kv);
    var view := WithOwn(PublishedOf(s.kv), m);
    assert Published(false, m) in view;
    SweepNames(released, Some(m));
    assert forall b :: FinishKeeps(s, m, b) <==> Stays(released, view, b);
  }

  /** Every live family but the one under the deploy's own key has a role in its view. */
  lemma FinishKeepsOthers(s: System, b: nat, x: nat)
    requires Inv(s) && HasWritten(s, b) && x in LiveAts(PublishedOf(s.kv))
    requires x != s.kv.formats[s.deploys[b].phase.manifest.format].builtAt
    ensures FinishKeeps(s, s.deploys[b].phase.manifest, x)
  {
    var m := s.deploys[b].phase.manifest;
    var view := WithOwn(PublishedOf(s.kv), m);
    var p :| p in PublishedOf(s.kv) && p.manifest.builtAt == x;
    assert p.legacy || p.manifest.format != m.format;
    assert p in view;
    assert Published(false, m) in view;
  }

  /** A family whole before a sweep is whole after it exactly when it is kept, or has no keys. */
  lemma FamilyAfterSweep(s: System, t: System, m: Manifest, x: nat)
    requires t.families == s.families
    requires Names(t.kv.keys) == set k | k in Names(s.kv.keys) && FinishKeeps(s, m, k.builtAt)
    requires Complete(s, x)
    ensures Complete(t, x) <==> FinishKeeps(s, m, x) || s.families[x] == {}
  {
    if !FinishKeeps(s, m, x) && s.families[x] != {} {
      var id :| id in s.families[x];
      assert GenKey(x, id) !in Names(t.kv.keys);
    }
  }

  lemma FamilyAfterFinish(s: System, b: nat, x: nat)
    requires Inv(s) && Safe(s) && HasWritten(s, b) && x in LiveAts(PublishedOf(s.kv))
    ensures var m := s.deploys[b].phase.manifest;
            && x in s.families && m.format in s.kv.formats
            && (Complete(Apply(s, Finish(b)), x) <==> FinishKeeps(s, m, x) || s.families[x] == {})
            && (x != s.kv.formats[m.format].builtAt ==> FinishKeeps(s, m, x))
  {
    var m := s.deploys[b].phase.manifest;
    GuardIsKept(s, b);
    FinishRemaining(s, b);
    FamilyAfterSweep(s, Apply(s, Finish(b)), m, x);
    if x != s.kv.formats[m.format].builtAt {
      FinishKeepsOthers(s, b, x);
    }
  }

  lemma SafeAfterFinish(s: System, b: nat)
    requires Inv(s) && Safe(s) && HasWritten(s, b)
    ensures var m := s.deploys[b].phase.manifest;
            && m.format in s.kv.formats
            && var named := s.kv.formats[m.format].builtAt;
               && named in s.families
               && (Safe(Apply(s, Finish(b))) <==> FinishKeeps(s, m, named) || s.families[named] == {})
  {
    GuardIsKept(s, b);
    FinishRemaining(s, b);
    var m := s.deploys[b].phase.manifest;
    var named := s.kv.formats[m.format].builtAt;
    LiveOfEntries(s.kv, named);
    forall x | x in LiveAts(PublishedOf(s.kv))
      ensures Complete(Apply(s, Finish(b)), x) <==> FinishKeeps(s, m, x) || s.families[x] == {}
      ensures x != named ==> FinishKeeps(s, m, x)
    {
      FamilyAfterFinish(s, b, x);
    }
  }

  /**
   * Finishing keeps the store safe if and only if the guard holds. Where it fails, a deploy of the same
   * format has published in between: this deploy's own manifest stands for that one in its sweep's view,
   * and the sweep deletes the family readers of the format now load.
   */
  lemma FinishExact(s: System, b: nat)
    requires Inv(s) && Safe(s)
    ensures Safe(Apply(s, Finish(b))) <==> FinishGuard(s, b)
  {
    if HasWritten(s, b) {
      GuardIsKept(s, b);
      SafeAfterFinish(s, b);
    }
  }

  lemma StepKeepsInv(s: System, step: Step)
    requires Inv(s)
    ensures Inv(Apply(s, step))
    ensures Safe(s) && !step.Finish? ==> Safe(Apply(s, step))
  {
    match step
    case Begin(_, _, _, _) => BeginKeepsInv(s, step);
    case PutKey(_, _, _) => PutKeepsInv(s, step);
    case Commit(_) => CommitKeepsInv(s, step);
    case Finish(_) => FinishKeepsInv(s, step);
    case StraySweep => SweepKeepsInv(s, step);
    case LeaseExpires => SweepKeepsInv(s, step);
    case Ensure(_) => EnsureKeepsInv(s, step);
  }

  // ---- whole runs -----------------------------------------------------------------------------------

  /** Every deploy that finishes in the run finds the guard true when it does. */
  ghost predicate Guarded(s: System, steps: seq<Step>)
    decreases |steps|
  {
    steps == [] ||
    (&& (steps[0].Finish? ==> FinishGuard(s, steps[0].builtAt))
     && Guarded(Apply(s, steps[0]), steps[1..]))
  }

  ghost predicate SafeThroughout(s: System, steps: seq<Step>)
    decreases |steps|
  {
    Safe(s) && (steps == [] || SafeThroughout(Apply(s, steps[0]), steps[1..]))
  }

  /** Over any run, however the deploys interleave: safe in every state, if and only if guarded. */
  lemma {:induction false} RunSafeExactly(s: System, steps: seq<Step>)
    requires Inv(s) && Safe(s)
    ensures SafeThroughout(s, steps) <==> Guarded(s, steps)
    decreases |steps|
  {
    if steps != [] {
      StepKeepsInv(s, steps[0]);
      var t := Apply(s, steps[0]);
      if steps[0].Finish? {
        FinishExact(s, steps[0].builtAt);
      }
      if Safe(t) {
        RunSafeExactly(t, steps[1..]);
      }
    }
  }

  lemma RunFront(s: System, steps: seq<Step>, n: nat)
    requires 0 < n <= |steps|
    ensures Run(s, steps[..n]) == Run(Apply(s, steps[0]), steps[1..][..n - 1])
  {
    assert steps[..n][0] == steps[0] && steps[..n][1..] == steps[1..][..n - 1];
  }

  lemma {:induction false} SafeThroughoutMeans(s: System, steps: seq<Step>, n: nat)
    requires SafeThroughout(s, steps) && n <= |steps|
    ensures Safe(Run(s, steps[..n]))
    decreases |steps|
  {
    if n == 0 {
      assert steps[..0] == [];
    } else {
      SafeThroughoutMeans(Apply(s, steps[0]), steps[1..], n - 1);
      RunFront(s, steps, n);
    }
  }

  /** What a reader resolves in a safe state is a whole family. */
  lemma ResolvedIsComplete(s: System, format: nat)
    requires Safe(s) && Resolve(s.kv, format).Some?
    ensures Complete(s, Resolve(s.kv, format).value.builtAt)
  {
    LiveOfEntries(s.kv, Resolve(s.kv, format).value.builtAt);
  }

  // ---- finishing with the lease -------------------------------------------------------------------------

  /** A publisher that holds the lease is what its format's key names. */
  predicate HolderIsServed(s: System) {
    forall b | b in s.deploys && HasWritten(s, b) && s.kv.lease == Some(b) ::
      s.deploys[b].format in s.kv.formats && s.kv.formats[s.deploys[b].format].builtAt == b
  }

  /** Every deploy that finishes in the run still holds its lease. */
  ghost predicate FinishesHold(s: System, steps: seq<Step>)
    decreases |steps|
  {
    steps == [] ||
    (&& (steps[0].Finish? && HasWritten(s, steps[0].builtAt) ==> s.kv.lease == Some(steps[0].builtAt))
     && FinishesHold(Apply(s, steps[0]), steps[1..]))
  }

  lemma StepKeepsHolder(s: System, step: Step)
    requires Inv(s) && HolderIsServed(s)
    ensures HolderIsServed(Apply(s, step))
  {
    var t := Apply(s, step);
    forall b | HasWritten(t, b) && t.kv.lease == Some(b)
      ensures t.deploys[b].format in t.kv.formats && t.kv.formats[t.deploys[b].format].builtAt == b
    {
      if HasWritten(s, b) {
        assert DeployOk(s, b);
      }
    }
  }

  lemma {:induction false} HeldRunGuarded(s: System, steps: seq<Step>)
    requires Inv(s) && HolderIsServed(s) && FinishesHold(s, steps)
    ensures Guarded(s, steps)
    decreases |steps|
  {
    if steps != [] {
      if steps[0].Finish? && HasWritten(s, steps[0].builtAt) {
        GuardIsKept(s, steps[0].builtAt);
      }
      StepKeepsInv(s, steps[0]);
      StepKeepsHolder(s, steps[0]);
      HeldRunGuarded(Apply(s, steps[0]), steps[1..]);
    }
  }

  /** The check a deploy makes before its manifest, made again before it finishes, keeps every run safe. */
  lemma HeldRunSafe(s: System, steps: seq<Step>)
    requires Inv(s) && Safe(s) && HolderIsServed(s) && FinishesHold(s, steps)
    ensures SafeThroughout(s, steps)
  {
    HeldRunGuarded(s, steps);
    RunSafeExactly(s, steps);
  }

  // ---- one archive format: no guard is needed ----------------------------------------------------------

  /** The legacy mirror holds `format`, or nothing, and agrees with the format's own key. */
  predicate Mirrored(kv: Kv, format: nat) {
    if kv.legacy.None? then format !in kv.formats
    else kv.legacy.value.format == format
         && (format in kv.formats ==> kv.formats[format].builtAt == kv.legacy.value.builtAt)
  }

  predicate OnlyFormat(s: System, format: nat) {
    forall b | b in s.deploys :: s.deploys[b].format == format
  }

  predicate StepsOfFormat(steps: seq<Step>, format: nat) {
    forall i | 0 <= i < |steps| && steps[i].Begin? :: steps[i].format == format
  }

  lemma MirroredFinishes(s: System, b: nat, format: nat)
    requires Inv(s) && Mirrored(s.kv, format) && OnlyFormat(s, format)
    ensures FinishGuard(s, b)
  {
    if HasWritten(s, b) {
      assert DeployOk(s, b);
    }
  }

  lemma MirroredStep(s: System, step: Step, format: nat)
    requires Inv(s) && Mirrored(s.kv, format) && OnlyFormat(s, format)
    requires step.Begin? ==> step.format == format
    ensures Mirrored(Apply(s, step).kv, format) && OnlyFormat(Apply(s, step), format)
  {
  }

  lemma {:induction false} OneFormatGuarded(s: System, steps: seq<Step>, format: nat)
    requires Inv(s) && Mirrored(s.kv, format) && OnlyFormat(s, format) && StepsOfFormat(steps, format)
    ensures Guarded(s, steps)
    decreases |steps|
  {
    if steps != [] {
      if steps[0].Finish? {
        MirroredFinishes(s, steps[0].builtAt, format);
      }
      MirroredStep(s, steps[0], format);
      StepKeepsInv(s, steps[0]);
      OneFormatGuarded(Apply(s, steps[0]), steps[1..], format);
    }
  }

  /** While every deploy publishes one format, the mirror names what a late sweep overlooks: every run is safe. */
  lemma OneFormatRunSafe(s: System, steps: seq<Step>, format: nat)
    requires Inv(s) && Safe(s) && Mirrored(s.kv, format) && OnlyFormat(s, format) && StepsOfFormat(steps, format)
    ensures SafeThroughout(s, steps)
  {
    OneFormatGuarded(s, steps, format);
    RunSafeExactly(s, steps);
  }

  // ---- a lost lease ---------------------------------------------------------------------------------

  /** Begun, without the lease, and neither published nor named by any manifest. */
  ghost predicate Lost(s: System, b: nat) {
    && b in s.deploys && b in s.families && !s.deploys[b].phase.Wrote?
    && s.kv.lease != Some(b) && b !in LiveAts(PublishedOf(s.kv))
  }

  lemma LostStaysLost(s: System, step: Step, b: nat)
    requires Lost(s, b)
    ensures Lost(Apply(s, step), b)
  {
    var t := Apply(s, step);
    LiveOfEntries(s.kv, b);
    LiveOfEntries(t.kv, b);
    assert b in t.deploys && b in t.families && !t.deploys[b].phase.Wrote?;
    assert t.kv.lease != Some(b);
  }

  /**
   * A deploy that has begun and does not hold the lease (it was taken, released or expired) never
   * publishes: over any run, no manifest comes to name its build.
   */
  lemma {:induction false} LostLeaseNeverPublishes(s: System, steps: seq<Step>, b: nat)
    requires Lost(s, b)
    ensures Lost(Run(s, steps), b)
    decreases |steps|
  {
    if steps != [] {
      LostStaysLost(s, steps[0], b);
      LostLeaseNeverPublishes(Apply(s, steps[0]), steps[1..], b);
    }
  }

  // ---- no dark window -------------------------------------------------------------------------------

  /** Only a commit of the format itself moves what a reader of the format resolves. */
  lemma ResolveMovesOnlyByOwnCommit(s: System, step: Step, format: nat)
    requires !(step.Commit? && step.builtAt in s.deploys && s.deploys[step.builtAt].format == format)
    ensures Resolve(Apply(s, step).kv, format) == Resolve(s.kv, format)
  {
  }

  predicate NoneOfFormat(s: System, format: nat) {
    forall b | b in s.deploys :: s.deploys[b].format != format
  }

  predicate NoneBegins(steps: seq<Step>, format: nat) {
    forall i | 0 <= i < |steps| :: steps[i].Begin? ==> steps[i].format != format
  }

  lemma StillNoneOfFormat(s: System, step: Step, format: nat)
    requires NoneOfFormat(s, format) && (step.Begin? ==> step.format != format)
    ensures NoneOfFormat(Apply(s, step), format)
  {
  }

  /** A run in which no deploy of the format is under way or begins leaves its readers' manifest alone. */
  lemma {:induction false} NoDarkWindow(s: System, steps: seq<Step>, format: nat)
    requires NoneOfFormat(s, format) && NoneBegins(steps, format)
    ensures Resolve(Run(s, steps).kv, format) == Resolve(s.kv, format)
    decreases |steps|
  {
    if steps != [] {
      ResolveMovesOnlyByOwnCommit(s, steps[0], format);
      StillNoneOfFormat(s, steps[0], format);
      NoDarkWindow(Apply(s, steps[0]), steps[1..], format);
    }
  }
}
