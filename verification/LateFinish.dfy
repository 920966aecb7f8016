/**
 * The run that loses a live family, step by step: deploy 10 publishes format 2 while the mirror serves
 * format 1; before it finishes, deploy 11 of the same format publishes and finishes; then 10 finishes.
 */
module LateFinish {
  import opened Wrappers
  import opened KvRetention
  import opened DeployUpload
  import opened DeployRuns

  const FAMILY := Incoming(1, 1000)
  const SERVING := Manifest(1, 1, None)
  const FIRST := Manifest(10, 2, Some(1))
  const SECOND := Manifest(11, 2, Some(10))
  const CHUNK := Listed(GenKey(11, 0), 1)

  /** A store whose mirror serves format 1, and what the format-2 key and the lease hold. */
  function Namespace(keys: seq<Listed>, bump: Option<Manifest>, lease: Option<nat>): Kv {
    Kv(keys, 0, if bump.Some? then map[2 := bump.value] else map[], Some(SERVING), lease)
  }

  const SERVED: map<nat, set<nat>> := map[1 := {}]
  const FAMILIES := SERVED[10 := {}][11 := {0}]
  const NONE: map<nat, Deploy> := map[]
  const FIRST_WROTE := NONE[10 := Deploy(2, {}, Wrote(FIRST))]

  const START := System(Namespace([], None, None), SERVED, NONE)
  const S1 := System(Namespace([], None, Some(10)), SERVED[10 := {}], NONE[10 := Deploy(2, {}, Sending)])
  const S2 := System(Namespace([], Some(FIRST), Some(10)), SERVED[10 := {}], FIRST_WROTE)
  const S3 := System(Namespace([], Some(FIRST), Some(11)), FAMILIES, FIRST_WROTE[11 := Deploy(2, {}, Sending)])
  const S4 := System(Namespace([CHUNK], Some(FIRST), Some(11)), FAMILIES, FIRST_WROTE[11 := Deploy(2, {0}, Sending)])
  const S5 :=
    System(Namespace([CHUNK], Some(SECOND), Some(11)), FAMILIES, FIRST_WROTE[11 := Deploy(2, {0}, Wrote(SECOND))])
  const S6 := System(Namespace([CHUNK], Some(SECOND), None), FAMILIES, FIRST_WROTE[11 := Deploy(2, {0}, Over)])

  const INTERLEAVED :=
    [Begin(10, 2, {}, FAMILY), Commit(10), Begin(11, 2, {0}, FAMILY), PutKey(11, 0, 1), Commit(11), Finish(11), Finish(10)]

  lemma Overwritten<K, V>(m: map<K, V>, k: K, a: V, b: V)
    ensures m[k := a][k := b] == m[k := b]
  {
  }

  lemma MirrorIsPrimary(lease: Option<nat>)
    ensures Primary(PublishedOf(Namespace([], None, lease))) == Some(SERVING)
    ensures LiveAts(PublishedOf(Namespace([], None, lease))) == {1}
  {
    var kv := Namespace([], None, lease);
    PublishedOneEach(kv);
    assert PublishedOf(kv) == {Published(true, SERVING)};
    PrimaryIs(PublishedOf(kv), Published(true, SERVING));
  }

  lemma BumpIsPrimary(keys: seq<Listed>, m: Manifest, lease: Option<nat>)
    requires m.format == 2
    ensures var published := PublishedOf(Namespace(keys, Some(m), lease));
            && published == {Published(false, m), Published(true, SERVING)}
            && Primary(published) == Some(m) && LiveAts(published) == {1, m.builtAt}
  {
    var kv := Namespace(keys, Some(m), lease);
    PublishedOneEach(kv);
    assert kv.formats[2] == m;
    assert PublishedOf(kv) == {Published(false, m), Published(true, SERVING)};
    PrimaryIs(PublishedOf(kv), Published(false, m));
    assert Published(false, m) in PublishedOf(kv) && Published(true, SERVING) in PublishedOf(kv);
  }

  lemma BumpCommits(keys: seq<Listed>, bump: Option<Manifest>, b: nat, m: Manifest)
    requires m == WithPrevious(b, 2, Replaced(Namespace(keys, bump, Some(b)), 2))
    ensures CommitKv(Namespace(keys, bump, Some(b)), b, 2) == Namespace(keys, Some(m), Some(b))
  {
    var before: map<nat, Manifest> := Namespace(keys, bump, Some(b)).formats;
    assert before[2 := m] == map[2 := m];
  }

  lemma Step1()
    ensures Apply(START, INTERLEAVED[0]) == S1
  {
    MirrorIsPrimary(None);
  }

  lemma Step2()
    ensures Apply(S1, INTERLEAVED[1]) == S2
  {
    MirrorIsPrimary(Some(10));
    assert WithPrevious(10, 2, Replaced(S1.kv, 2)) == FIRST;
    BumpCommits([], None, 10, FIRST);
    Overwritten(NONE, 10, Deploy(2, {}, Sending), Deploy(2, {}, Wrote(FIRST)));
  }

  lemma Step3()
    ensures Apply(S2, INTERLEAVED[2]) == S3
  {
    BumpIsPrimary([], FIRST, Some(10));
  }

  lemma Step4()
    ensures Apply(S3, INTERLEAVED[3]) == S4
  {
    assert PutListed([], GenKey(11, 0), 1) == [CHUNK];
    assert {} + {0 as nat} == {0 as nat};
    Overwritten(FIRST_WROTE, 11, Deploy(2, {}, Sending), Deploy(2, {0}, Sending));
  }

  lemma Step5()
    ensures Apply(S4, INTERLEAVED[4]) == S5
  {
    assert WithPrevious(11, 2, Replaced(S4.kv, 2)) == SECOND;
    BumpCommits([CHUNK], Some(FIRST), 11, SECOND);
    Overwritten(FIRST_WROTE, 11, Deploy(2, {0}, Sending), Deploy(2, {0}, Wrote(SECOND)));
  }

  lemma ChunkStays(keep: set<nat>)
    ensures OfFamilies([CHUNK], keep) == if 11 in keep then [CHUNK] else []
  {
    assert [CHUNK][1..] == [];
  }

  /** A sweep by the publisher of `m`, once its lease is released, keeps the chunk if its build has a role. */
  lemma SweepBy(m: Manifest)
    requires m == FIRST || m == SECOND
    ensures var keep := RetainedFamilies(PlanRoles([CHUNK], Some(m), {1, m.builtAt}, None));
            SweepKv(S6.kv, Some(m)) == S6.kv.(keys := if 11 in keep then [CHUNK] else [])
  {
    BumpIsPrimary([CHUNK], SECOND, None);
    BumpIsPrimary([CHUNK], m, None);
    assert WithOwn(PublishedOf(S6.kv), m) == PublishedOf(Namespace([CHUNK], Some(m), None));
    ChunkStays(RetainedFamilies(PlanRoles([CHUNK], Some(m), {1, m.builtAt}, None)));
  }

  lemma OwnBuildStays()
    ensures 11 in RetainedFamilies(PlanRoles([CHUNK], Some(SECOND), {1, 11}, None))
  {
  }

  lemma NextBuildGoes()
    ensures 11 !in RetainedFamilies(PlanRoles([CHUNK], Some(FIRST), {1, 10}, None))
  {
  }

  lemma SecondFinishes()
    ensures FinishKv(S5.kv, SECOND) == S6.kv
  {
    assert ReleaseKv(S5.kv, 11) == S6.kv;
    SweepBy(SECOND);
    OwnBuildStays();
  }

  /** The second deploy's own sweep keeps its family. */
  lemma Step6()
    ensures Apply(S5, INTERLEAVED[5]) == S6
  {
    SecondFinishes();
    Overwritten(FIRST_WROTE, 11, Deploy(2, {0}, Wrote(SECOND)), Deploy(2, {0}, Over));
  }

  /** The first deploy's late sweep sees its own manifest in the place of the second's. */
  lemma LateSweep()
    ensures SweepKv(S6.kv, Some(FIRST)).keys == []
  {
    SweepBy(FIRST);
    NextBuildGoes();
  }

  lemma Step7()
    ensures var s := Apply(S6, INTERLEAVED[6]);
            Resolve(s.kv, 2) == Some(SECOND) && GenKey(11, 0) !in Names(s.kv.keys) && !Safe(s)
  {
    var s := Apply(S6, INTERLEAVED[6]);
    assert S6.deploys[10].phase == Wrote(FIRST) && ReleaseKv(S6.kv, 10) == S6.kv;
    LateSweep();
    assert s.kv.keys == [] && s.kv.formats[2] == SECOND;
    LiveOfEntries(s.kv, 11);
    assert s.families[11] == {0};
    assert !Complete(s, 11);
  }

  lemma RunStep(s: System, n: nat)
    requires n < |INTERLEAVED|
    ensures Run(s, INTERLEAVED[n..]) == Run(Apply(s, INTERLEAVED[n]), INTERLEAVED[n + 1..])
  {
    assert INTERLEAVED[n..][1..] == INTERLEAVED[n + 1..];
  }

  lemma Through()
    ensures Run(START, INTERLEAVED) == Apply(S6, INTERLEAVED[6])
  {
    assert INTERLEAVED[0..] == INTERLEAVED && INTERLEAVED[7..] == [];
    RunStep(START, 0);
    Step1();
    RunStep(S1, 1);
    Step2();
    RunStep(S2, 2);
    Step3();
    RunStep(S3, 3);
    Step4();
    RunStep(S4, 4);
    Step5();
    RunStep(S5, 5);
    Step6();
    RunStep(S6, 6);
  }

  /** From a safe start the run ends with the family of the build that format-2 readers resolve deleted. */
  lemma LateFinishLosesALiveFamily()
    ensures Inv(START) && Safe(START)
    ensures var s := Run(START, INTERLEAVED);
            Resolve(s.kv, 2) == Some(SECOND) && GenKey(11, 0) !in Names(s.kv.keys) && !Safe(s)
  {
    MirrorIsPrimary(None);
    Through();
    Step7();
  }
}
