/**
 * Which store families a sweep keeps (src/engine/kv-retention.ts): the live manifests' families,
 * the family the newest format's manifest replaced, and the upload-lease holder's.
 *
 * A build is named by its `built_at`, a string of digits compared as a number: a `nat` here.
 */
module KvRetention {
  import opened Wrappers

  datatype Manifest = Manifest(builtAt: nat, format: nat, previous: Option<nat>)

  /** A generation key, by its build and its number within the build's family. */
  datatype GenKey = GenKey(builtAt: nat, id: nat)

  /** A generation key as a list shows it, with the size its metadata carries. */
  datatype Listed = Listed(key: GenKey, bytes: nat)

  /** A manifest as found in KV: under its format's key, or in the legacy mirror. */
  datatype Published = Published(legacy: bool, manifest: Manifest)

  // ---- the names in a listing -------------------------------------------------------------------

  ghost function Names(keys: seq<Listed>): set<GenKey> {
    set x | x in keys :: x.key
  }

  function Bytes(keys: seq<Listed>): nat {
    if keys == [] then 0 else keys[0].bytes + Bytes(keys[1..])
  }

  function FamilyBytes(keys: seq<Listed>, builtAt: nat): nat {
    if keys == [] then 0
    else (if keys[0].key.builtAt == builtAt then keys[0].bytes else 0) + FamilyBytes(keys[1..], builtAt)
  }

  /** The keys of the families in `keep`. */
  function OfFamilies(keys: seq<Listed>, keep: set<nat>): seq<Listed> {
    if keys == [] then []
    else (if keys[0].key.builtAt in keep then [keys[0]] else []) + OfFamilies(keys[1..], keep)
  }

  function WithoutFamily(keys: seq<Listed>, builtAt: nat): (r: seq<Listed>)
    ensures Bytes(r) + FamilyBytes(keys, builtAt) == Bytes(keys)
  {
    if keys == [] then []
    else
      var rest := WithoutFamily(keys[1..], builtAt);
      if keys[0].key.builtAt == builtAt then rest
      else
        assert ([keys[0]] + rest)[1..] == rest;
        [keys[0]] + rest
  }

  /** A name is that of the first key or of one of the rest. */
  lemma NamesSplit(keys: seq<Listed>)
    requires keys != []
    ensures Names(keys) == {keys[0].key} + Names(keys[1..])
  {
    assert keys == [keys[0]] + keys[1..];
    forall k ensures k in Names(keys) <==> k == keys[0].key || k in Names(keys[1..]) {
      if k in Names(keys) {
        var x :| x in keys && x.key == k;
        assert x == keys[0] || x in keys[1..];
      }
      if k in Names(keys[1..]) {
        var x :| x in keys[1..] && x.key == k;
        assert x in keys;
      }
      assert keys[0] in keys;
    }
  }

  lemma {:induction false} NamesOfFamilies(keys: seq<Listed>, keep: set<nat>)
    ensures Names(OfFamilies(keys, keep)) == set k | k in Names(keys) && k.builtAt in keep
  {
    if keys != [] {
      NamesOfFamilies(keys[1..], keep);
      NamesSplit(keys);
      var r := OfFamilies(keys, keep);
      if keys[0].key.builtAt in keep {
        NamesSplit(r);
        assert r[1..] == OfFamilies(keys[1..], keep);
      } else {
        assert r == OfFamilies(keys[1..], keep);
      }
    }
  }

  lemma {:induction false} NamesWithoutFamily(keys: seq<Listed>, builtAt: nat)
    ensures Names(WithoutFamily(keys, builtAt)) == set k | k in Names(keys) && k.builtAt != builtAt
  {
    if keys != [] {
      NamesWithoutFamily(keys[1..], builtAt);
      NamesSplit(keys);
      var r := WithoutFamily(keys, builtAt);
      if keys[0].key.builtAt != builtAt {
        NamesSplit(r);
        assert r[1..] == WithoutFamily(keys[1..], builtAt);
      }
    }
  }

  lemma {:induction false} FamilyBytesKept(keys: seq<Listed>, keep: set<nat>, builtAt: nat)
    requires builtAt in keep
    ensures FamilyBytes(OfFamilies(keys, keep), builtAt) == FamilyBytes(keys, builtAt)
  {
    if keys != [] {
      FamilyBytesKept(keys[1..], keep, builtAt);
      if keys[0].key.builtAt in keep {
        assert OfFamilies(keys, keep)[1..] == OfFamilies(keys[1..], keep);
      } else {
        assert OfFamilies(keys, keep) == OfFamilies(keys[1..], keep);
      }
    }
  }

  /** The keys of the families in `keep` stay as they were listed, as often, and no other stays. */
  lemma {:induction false} OfFamiliesIs(keys: seq<Listed>, keep: set<nat>, x: Listed)
    ensures multiset(OfFamilies(keys, keep))[x] == if x.key.builtAt in keep then multiset(keys)[x] else 0
  {
    if keys != [] {
      OfFamiliesIs(keys[1..], keep, x);
      assert keys == [keys[0]] + keys[1..];
    }
  }

  lemma {:induction false} WithoutFamilyIs(keys: seq<Listed>, builtAt: nat, x: Listed)
    ensures multiset(WithoutFamily(keys, builtAt))[x] == if x.key.builtAt == builtAt then 0 else multiset(keys)[x]
  {
    if keys != [] {
      WithoutFamilyIs(keys[1..], builtAt, x);
      assert keys == [keys[0]] + keys[1..];
    }
  }

  /** The sizes add up: of a listing one key longer, and of the families apart and together. */
  lemma {:induction false} BytesAddUp(keys: seq<Listed>, x: Listed, builtAt: nat)
    ensures Bytes(keys + [x]) == Bytes(keys) + x.bytes
    ensures FamilyBytes(keys + [x], builtAt) == FamilyBytes(keys, builtAt) + if x.key.builtAt == builtAt then x.bytes else 0
  {
    if keys == [] {
      assert keys + [x] == [x];
      assert [x][1..] == [];
    } else {
      BytesAddUp(keys[1..], x, builtAt);
      assert (keys + [x])[1..] == keys[1..] + [x];
    }
  }

  // ---- roles ------------------------------------------------------------------------------------

  /** Whether `a` sorts no later than `b`: newest format first, a format's own key before the mirror, newest build. */
  predicate Ahead(a: Published, b: Published) {
    || a.manifest.format > b.manifest.format
    || (&& a.manifest.format == b.manifest.format
        && (|| (!a.legacy && b.legacy)
            || (a.legacy == b.legacy && a.manifest.builtAt >= b.manifest.builtAt)))
  }

  /** At most one entry per manifest key. */
  ghost predicate OneEach(published: set<Published>) {
    forall p, q | p in published && q in published && p.legacy == q.legacy
                  && (p.legacy || p.manifest.format == q.manifest.format) :: p == q
  }

  lemma {:induction false} SomeFirst(published: set<Published>)
    requires published != {}
    ensures exists p :: p in published && forall q | q in published :: Ahead(p, q)
    decreases |published|
  {
    var x :| x in published;
    var rest := published - {x};
    if rest == {} {
      assert published == {x};
      assert Ahead(x, x);
    } else {
      SomeFirst(rest);
      var p :| p in rest && forall q | q in rest :: Ahead(p, q);
      assert forall q | q in published :: q == x || q in rest;
      if Ahead(p, x) {
        assert forall q | q in published :: Ahead(p, q);
      } else {
        assert Ahead(x, p) && Ahead(x, x);
        assert forall q | q in published :: Ahead(x, q);
      }
    }
  }

  /** The newest format's manifest: its `previous` is the rollback. */
  ghost function Primary(published: set<Published>): (r: Option<Manifest>)
    ensures r.None? <==> published == {}
    ensures r.Some? ==> exists p :: p in published && p.manifest == r.value
  {
    if published == {} then None
    else
      SomeFirst(published);
      var p :| p in published && forall q | q in published :: Ahead(p, q);
      Some(p.manifest)
  }

  /** Any entry nothing sorts before is the primary, because two keys never hold one place. */
  lemma PrimaryIs(published: set<Published>, p: Published)
    requires OneEach(published) && p in published && forall q | q in published :: Ahead(p, q)
    ensures Primary(published) == Some(p.manifest)
  {
    SomeFirst(published);
    var first :| first in published && (forall q | q in published :: Ahead(first, q))
                 && Primary(published) == Some(first.manifest);
    assert Ahead(p, first) && Ahead(first, p);
  }

  function Elems<T>(s: seq<T>): set<T> {
    set x | x in s
  }

  lemma ElemsAppend<T>(s: seq<T>, x: T)
    ensures Elems(s + [x]) == Elems(s) + {x}
  {
  }

  /** Every build a live manifest names. */
  function LiveAts(published: set<Published>): set<nat> {
    set p | p in published :: p.manifest.builtAt
  }

  /** liveManifestRoles: the primary, and every build named (the primary's among them). */
  method LiveManifestRoles(published: seq<Published>) returns (primary: Option<Manifest>, liveAts: set<nat>)
    requires OneEach(Elems(published))
    ensures primary == Primary(Elems(published))
    ensures liveAts == LiveAts(Elems(published))
  {
    primary, liveAts := None, {};
    ghost var all := Elems(published);
    if published == [] {
      return;
    }
    var first := published[0];
    for i := 0 to |published|
      invariant first in published
      invariant forall k | 0 <= k < i :: Ahead(first, published[k])
      invariant liveAts == set p | p in published[..i] :: p.manifest.builtAt
    {
      if !Ahead(first, published[i]) {
        first := published[i];
      }
      assert published[..i + 1] == published[..i] + [published[i]];
      liveAts := liveAts + {published[i].manifest.builtAt};
    }
    assert published[..|published|] == published;
    primary := Some(first.manifest);
    assert forall q | q in all :: Ahead(first, q);
    PrimaryIs(all, first);
  }

  datatype Roles = Roles(live: Option<nat>, others: set<nat>, rollback: Option<nat>, inFlight: Option<nat>)

  function AsSet(at: Option<nat>): set<nat> {
    match at case None => {} case Some(a) => {a}
  }

  function RetainedFamilies(roles: Roles): set<nat> {
    AsSet(roles.live) + roles.others + AsSet(roles.rollback) + AsSet(roles.inFlight)
  }

  /** Of the builds listed before `live` and outside `others`, the latest. */
  function NewestOlder(keys: seq<Listed>, live: nat, others: set<nat>): (r: Option<nat>)
    ensures r.Some? ==> r.value < live && r.value !in others
  {
    if keys == [] then None
    else
      var rest := NewestOlder(keys[1..], live, others);
      var at := keys[0].key.builtAt;
      if at < live && at !in others && (rest.None? || rest.value < at) then Some(at) else rest
  }

  function RollbackFor(live: Manifest, keys: seq<Listed>, inFlight: Option<nat>, others: set<nat>): Option<nat> {
    match live.previous
    case Some(prev) => if prev == live.builtAt then None else Some(prev)
    case None => NewestOlder(keys, live.builtAt, others + AsSet(inFlight))
  }

  function PlanRoles(keys: seq<Listed>, primary: Option<Manifest>, liveAts: set<nat>, inFlight: Option<nat>): Roles {
    match primary
    case None => Roles(None, {}, None, inFlight)
    case Some(m) =>
      var others := liveAts - {m.builtAt};
      var asked := RollbackFor(m, keys, inFlight, others);
      var held := {m.builtAt} + others + AsSet(inFlight);
      var rollback := if asked.Some? && (asked.value in held || |held + AsSet(asked)| > 3) then None else asked;
      Roles(Some(m.builtAt), others, rollback, inFlight)
  }

  /** The newest build older than `live` with a key in the listing and outside `others`. */
  ghost predicate NewestListed(keys: seq<Listed>, live: nat, others: set<nat>, x: nat) {
    && x < live && x !in others
    && (exists k | k in Names(keys) :: k.builtAt == x)
    && (forall k | k in Names(keys) && k.builtAt < live && k.builtAt !in others :: k.builtAt <= x)
  }

  /**
   * The build a sweep keeps for going back to: what the newest format's manifest says it replaced, or the
   * newest older listed build where it does not say; neither live nor uploading, and of three builds at most.
   */
  ghost predicate IsRollback(keys: seq<Listed>, m: Manifest, liveAts: set<nat>, inFlight: Option<nat>, x: nat) {
    var held := liveAts + AsSet(inFlight);
    && (m.previous == Some(x) || (m.previous.None? && NewestListed(keys, m.builtAt, held, x)))
    && x !in held
    && |held + {x}| <= 3
  }

  /** Live, being uploaded, or the rollback. */
  ghost predicate HasRole(keys: seq<Listed>, m: Manifest, liveAts: set<nat>, inFlight: Option<nat>, x: nat) {
    x in liveAts || inFlight == Some(x) || IsRollback(keys, m, liveAts, inFlight, x)
  }

  lemma {:induction false} NewestOlderIs(keys: seq<Listed>, live: nat, others: set<nat>, x: nat)
    ensures NewestOlder(keys, live, others) == Some(x) <==> NewestListed(keys, live, others, x)
    ensures NewestOlder(keys, live, others).None? ==>
              forall k | k in Names(keys) :: k.builtAt >= live || k.builtAt in others
  {
    if keys != [] {
      var rest := NewestOlder(keys[1..], live, others);
      NewestOlderIs(keys[1..], live, others, if rest.Some? then rest.value else 0);
      NamesSplit(keys);
      if NewestListed(keys, live, others, x) {
        var k :| k in Names(keys) && k.builtAt == x;
        assert k == keys[0].key || k in Names(keys[1..]);
      }
    }
  }

  /** The plan's rollback is that build, and there is none where no build is it. */
  lemma RollbackIs(keys: seq<Listed>, m: Manifest, liveAts: set<nat>, inFlight: Option<nat>, x: nat)
    requires m.builtAt in liveAts
    ensures PlanRoles(keys, Some(m), liveAts, inFlight).rollback == Some(x) <==> IsRollback(keys, m, liveAts, inFlight, x)
  {
    var others := liveAts - {m.builtAt};
    AskedIs(keys, m, liveAts, inFlight, x);
    var asked := RollbackFor(m, keys, inFlight, others);
    assert {m.builtAt} + others + AsSet(inFlight) == liveAts + AsSet(inFlight);
    if asked == Some(x) {
      assert AsSet(asked) == {x};
    }
  }

  lemma AskedIs(keys: seq<Listed>, m: Manifest, liveAts: set<nat>, inFlight: Option<nat>, x: nat)
    requires m.builtAt in liveAts
    ensures x !in liveAts + AsSet(inFlight) ==>
              (RollbackFor(m, keys, inFlight, liveAts - {m.builtAt}) == Some(x) <==>
                 || m.previous == Some(x)
                 || (m.previous.None? && NewestListed(keys, m.builtAt, liveAts + AsSet(inFlight), x)))
  {
    if m.previous.None? {
      NewestOlderIs(keys, m.builtAt, liveAts - {m.builtAt} + AsSet(inFlight), x);
      OutsideAlike(keys, m.builtAt, liveAts - {m.builtAt} + AsSet(inFlight), liveAts + AsSet(inFlight), x);
    }
  }

  lemma OutsideAlike(keys: seq<Listed>, live: nat, others: set<nat>, held: set<nat>, x: nat)
    requires forall y | y != live :: y in others <==> y in held
    ensures NewestListed(keys, live, others, x) <==> NewestListed(keys, live, held, x)
  {
  }

  // ---- the plan ---------------------------------------------------------------------------------

  datatype Decision = SweepOnly | Go | DropRollback | Refuse

  /** The byte guard's question: the new family's size, and the namespace's cap. */
  datatype Incoming = Incoming(bytes: nat, limit: nat)

  /** What stays of the listed keys, and the guard's decision. */
  datatype Plan = Plan(remaining: seq<Listed>, decision: Decision)

  function PlanRetention(keys: seq<Listed>, otherBytes: nat, primary: Option<Manifest>, liveAts: set<nat>,
                         inFlight: Option<nat>, incoming: Option<Incoming>): Plan
  {
    var roles := PlanRoles(keys, primary, liveAts, inFlight);
    var swept := if roles.live.None? then keys else OfFamilies(keys, RetainedFamilies(roles));
    match incoming
    case None => Plan(swept, SweepOnly)
    case Some(family) =>
      var projected := otherBytes + Bytes(swept) + family.bytes;
      var rollbackBytes := if roles.rollback.Some? then FamilyBytes(keys, roles.rollback.value) else 0;
      if projected <= family.limit then Plan(swept, Go)
      else if rollbackBytes > 0 && projected - rollbackBytes <= family.limit then
        Plan(WithoutFamily(swept, roles.rollback.value), DropRollback)
      else Plan(swept, Refuse)
  }

  /** Once anything is live, every live build and the in-flight one hold a role, and the rollback is neither. */
  lemma RolesKeepLive(keys: seq<Listed>, m: Manifest, liveAts: set<nat>, inFlight: Option<nat>)
    requires m.builtAt in liveAts
    ensures var roles := PlanRoles(keys, Some(m), liveAts, inFlight);
            && liveAts + AsSet(inFlight) <= RetainedFamilies(roles)
            && (roles.rollback.Some? ==> roles.rollback.value !in liveAts + AsSet(inFlight))
  {
  }

  /** Without a manifest to judge by nothing goes, and a family may start where it fits beside all there is. */
  lemma NothingToJudgeBy(keys: seq<Listed>, otherBytes: nat, liveAts: set<nat>, inFlight: Option<nat>, incoming: Option<Incoming>)
    ensures PlanRetention(keys, otherBytes, None, liveAts, inFlight, incoming).remaining == keys
    ensures incoming.Some? ==>
              PlanRetention(keys, otherBytes, None, liveAts, inFlight, incoming).decision ==
              if otherBytes + Bytes(keys) + incoming.value.bytes <= incoming.value.limit then Go else Refuse
  {
  }

  /** A plan leaves the families with a role, or all of them but the rollback. */
  lemma PlanLeaves(keys: seq<Listed>, otherBytes: nat, primary: Option<Manifest>, liveAts: set<nat>,
                   inFlight: Option<nat>, incoming: Option<Incoming>)
    requires primary.Some?
    ensures var roles := PlanRoles(keys, primary, liveAts, inFlight);
            var left := PlanRetention(keys, otherBytes, primary, liveAts, inFlight, incoming).remaining;
            var swept := OfFamilies(keys, RetainedFamilies(roles));
            left == swept || (roles.rollback.Some? && left == WithoutFamily(swept, roles.rollback.value))
  {
  }

  /**
   * Whatever is planned, the keys that stay were listed, and those of the live builds and of the build being
   * uploaded stay.
   */
  lemma PlanKeepsLive(keys: seq<Listed>, otherBytes: nat, primary: Option<Manifest>, liveAts: set<nat>,
                      inFlight: Option<nat>, incoming: Option<Incoming>)
    requires primary.Some? ==> primary.value.builtAt in liveAts
    ensures var after := Names(PlanRetention(keys, otherBytes, primary, liveAts, inFlight, incoming).remaining);
            && after <= Names(keys)
            && forall k | k in Names(keys) && (k.builtAt in liveAts || Some(k.builtAt) == inFlight) :: k in after
  {
    if primary.None? {
      NothingToJudgeBy(keys, otherBytes, liveAts, inFlight, incoming);
    } else {
      var roles := PlanRoles(keys, primary, liveAts, inFlight);
      RolesKeepLive(keys, primary.value, liveAts, inFlight);
      PlanLeaves(keys, otherBytes, primary, liveAts, inFlight, incoming);
      NamesOfFamilies(keys, RetainedFamilies(roles));
      if roles.rollback.Some? {
        NamesWithoutFamily(OfFamilies(keys, RetainedFamilies(roles)), roles.rollback.value);
      }
    }
  }

  /** Roles depend on the upload only by what is held together with the live builds. */
  lemma RoleByHeld(keys: seq<Listed>, m: Manifest, liveAts: set<nat>, p: Option<nat>, q: Option<nat>, x: nat)
    requires liveAts + AsSet(p) == liveAts + AsSet(q)
    ensures HasRole(keys, m, liveAts, p, x) <==> HasRole(keys, m, liveAts, q, x)
  {
    assert x in liveAts + AsSet(p) <==> x in liveAts || p == Some(x);
    assert x in liveAts + AsSet(q) <==> x in liveAts || q == Some(x);
  }

  lemma RetainedIs(keys: seq<Listed>, m: Manifest, liveAts: set<nat>, inFlight: Option<nat>, x: nat)
    requires m.builtAt in liveAts
    ensures x in RetainedFamilies(PlanRoles(keys, Some(m), liveAts, inFlight)) <==> HasRole(keys, m, liveAts, inFlight, x)
  {
    RollbackIs(keys, m, liveAts, inFlight, x);
  }

  /** A sweep leaves the listed keys of the live builds, the one being uploaded and the rollback, and no other key. */
  lemma SweepKeepsExactly(keys: seq<Listed>, m: Manifest, liveAts: set<nat>, inFlight: Option<nat>, x: Listed)
    requires m.builtAt in liveAts
    ensures var left := PlanRetention(keys, 0, Some(m), liveAts, inFlight, None).remaining;
            && (x.key in Names(left) <==> x.key in Names(keys) && HasRole(keys, m, liveAts, inFlight, x.key.builtAt))
            && multiset(left)[x] == if HasRole(keys, m, liveAts, inFlight, x.key.builtAt) then multiset(keys)[x] else 0
  {
    var kept := RetainedFamilies(PlanRoles(keys, Some(m), liveAts, inFlight));
    NamesOfFamilies(keys, kept);
    OfFamiliesIs(keys, kept, x);
    RetainedIs(keys, m, liveAts, inFlight, x.key.builtAt);
  }

  /** The namespace as a sweep leaves it, and the new family, fit the cap once `freed` bytes are gone. */
  predicate Fits(otherBytes: nat, swept: seq<Listed>, family: Incoming, freed: nat) {
    otherBytes + Bytes(swept) + family.bytes <= family.limit + freed
  }

  /** The rollback `x` has keys, and with it gone the new family fits beside what a sweep leaves. */
  ghost predicate DroppingHelps(keys: seq<Listed>, otherBytes: nat, swept: seq<Listed>, m: Manifest, liveAts: set<nat>,
                                inFlight: Option<nat>, family: Incoming, x: nat)
  {
    IsRollback(keys, m, liveAts, inFlight, x) && FamilyBytes(keys, x) > 0 && Fits(otherBytes, swept, family, FamilyBytes(keys, x))
  }

  lemma HelpsIs(keys: seq<Listed>, otherBytes: nat, swept: seq<Listed>, m: Manifest, liveAts: set<nat>,
                inFlight: Option<nat>, family: Incoming)
    requires m.builtAt in liveAts
    ensures var rollback := PlanRoles(keys, Some(m), liveAts, inFlight).rollback;
            (exists b: nat :: DroppingHelps(keys, otherBytes, swept, m, liveAts, inFlight, family, b)) <==>
            rollback.Some? && FamilyBytes(keys, rollback.value) > 0 && Fits(otherBytes, swept, family, FamilyBytes(keys, rollback.value))
  {
    var rollback := PlanRoles(keys, Some(m), liveAts, inFlight).rollback;
    if b: nat :| DroppingHelps(keys, otherBytes, swept, m, liveAts, inFlight, family, b) {
      RollbackIs(keys, m, liveAts, inFlight, b);
    }
    if rollback.Some? {
      RollbackIs(keys, m, liveAts, inFlight, rollback.value);
      assert DroppingHelps(keys, otherBytes, swept, m, liveAts, inFlight, family, rollback.value)
        <==> FamilyBytes(keys, rollback.value) > 0 && Fits(otherBytes, swept, family, FamilyBytes(keys, rollback.value));
    }
  }

  /** A family may start where it fits beside what a sweep leaves, or where dropping the rollback makes it fit. */
  lemma BeginDecides(keys: seq<Listed>, otherBytes: nat, m: Manifest, liveAts: set<nat>, inFlight: Option<nat>, family: Incoming)
    requires m.builtAt in liveAts
    ensures var swept := PlanRetention(keys, 0, Some(m), liveAts, inFlight, None).remaining;
            var plan := PlanRetention(keys, otherBytes, Some(m), liveAts, inFlight, Some(family));
            && plan.decision != SweepOnly
            && (plan.decision == Go <==> Fits(otherBytes, swept, family, 0))
            && (plan.decision == DropRollback <==>
                  && !Fits(otherBytes, swept, family, 0)
                  && exists b: nat :: DroppingHelps(keys, otherBytes, swept, m, liveAts, inFlight, family, b))
  {
    HelpsIs(keys, otherBytes, PlanRetention(keys, 0, Some(m), liveAts, inFlight, None).remaining, m, liveAts, inFlight, family);
  }

  lemma PlanRemains(keys: seq<Listed>, otherBytes: nat, m: Manifest, liveAts: set<nat>, inFlight: Option<nat>, family: Incoming)
    ensures var swept := PlanRetention(keys, 0, Some(m), liveAts, inFlight, None).remaining;
            var plan := PlanRetention(keys, otherBytes, Some(m), liveAts, inFlight, Some(family));
            var rollback := PlanRoles(keys, Some(m), liveAts, inFlight).rollback;
            if plan.decision == DropRollback then rollback.Some? && plan.remaining == WithoutFamily(swept, rollback.value)
            else plan.remaining == swept
  {
  }

  /** What a sweep leaves stays, but for the rollback's keys where dropping it is what makes the family fit. */
  lemma BeginKeepsExactly(keys: seq<Listed>, otherBytes: nat, m: Manifest, liveAts: set<nat>, inFlight: Option<nat>,
                          family: Incoming, x: Listed)
    requires m.builtAt in liveAts
    ensures var swept := PlanRetention(keys, 0, Some(m), liveAts, inFlight, None).remaining;
            var plan := PlanRetention(keys, otherBytes, Some(m), liveAts, inFlight, Some(family));
            && (plan.decision != DropRollback ==> plan.remaining == swept)
            && (plan.decision == DropRollback ==>
                  multiset(plan.remaining)[x] ==
                  if IsRollback(keys, m, liveAts, inFlight, x.key.builtAt) then 0 else multiset(swept)[x])
  {
    var swept := PlanRetention(keys, 0, Some(m), liveAts, inFlight, None).remaining;
    var plan := PlanRetention(keys, otherBytes, Some(m), liveAts, inFlight, Some(family));
    var rollback := PlanRoles(keys, Some(m), liveAts, inFlight).rollback;
    PlanRemains(keys, otherBytes, m, liveAts, inFlight, family);
    if plan.decision == DropRollback {
      RollbackIs(keys, m, liveAts, inFlight, x.key.builtAt);
      WithoutFamilyIs(swept, rollback.value, x);
    }
  }

  /** A family that may start fits: what is left of the namespace and the family stay within the cap. */
  lemma GuardFits(keys: seq<Listed>, otherBytes: nat, primary: Option<Manifest>, liveAts: set<nat>,
                  inFlight: Option<nat>, family: Incoming)
    ensures var plan := PlanRetention(keys, otherBytes, primary, liveAts, inFlight, Some(family));
            && plan.decision != SweepOnly
            && (plan.decision != Refuse <==> otherBytes + Bytes(plan.remaining) + family.bytes <= family.limit)
  {
    var roles := PlanRoles(keys, primary, liveAts, inFlight);
    if roles.rollback.Some? {
      FamilyBytesKept(keys, RetainedFamilies(roles), roles.rollback.value);
    }
  }
}
