/**
 * One deploy's calls on the shared key-value store: scripts/deploy-upload.ts, and the commit point of
 * scripts/seed-remote-kv.ts. Each call is one atomic step on the store's contents, given by a function
 * on the abstract value `Kv`; the class below makes the calls the way the scripts do.
 */
module DeployUpload {
  import opened Wrappers
  import opened KvRetention

  /** The store: every generation key, the size of everything else, the manifests and the upload lease. */
  datatype Kv = Kv(keys: seq<Listed>, otherBytes: nat, formats: map<nat, Manifest>, legacy: Option<Manifest>,
                   lease: Option<nat>)

  /** Every per-format key holds a manifest of its own format. */
  ghost predicate WellKeyed(kv: Kv) {
    forall f | f in kv.formats :: kv.formats[f].format == f
  }

  function MirrorEntry(legacy: Option<Manifest>): set<Published> {
    match legacy case None => {} case Some(m) => {Published(true, m)}
  }

  /** The per-format entries of the formats in `read`. */
  ghost function Entries(formats: map<nat, Manifest>, read: set<nat>): set<Published>
    requires read <= formats.Keys
  {
    set f | f in read :: Published(false, formats[f])
  }

  lemma EntriesAdd(formats: map<nat, Manifest>, read: set<nat>, f: nat)
    requires read <= formats.Keys && f in formats
    ensures Entries(formats, read + {f}) == Entries(formats, read) + {Published(false, formats[f])}
  {
  }

  ghost function PublishedOf(kv: Kv): set<Published> {
    Entries(kv.formats, kv.formats.Keys) + MirrorEntry(kv.legacy)
  }

  lemma PublishedOneEach(kv: Kv)
    requires WellKeyed(kv)
    ensures OneEach(PublishedOf(kv))
  {
  }

  /** withOwnManifest: `m` in the place of what was read for its format. */
  ghost function WithOwn(published: set<Published>, m: Manifest): set<Published> {
    (set p | p in published && (p.legacy || p.manifest.format != m.format)) + {Published(false, m)}
  }

  // ---- the steps, as functions on the store ---------------------------------------------------------

  function PutListed(keys: seq<Listed>, k: GenKey, bytes: nat): seq<Listed> {
    if keys == [] then [Listed(k, bytes)]
    else if keys[0].key == k then [Listed(k, bytes)] + keys[1..]
    else [keys[0]] + PutListed(keys[1..], k, bytes)
  }

  lemma {:induction false} NamesOfPut(keys: seq<Listed>, k: GenKey, bytes: nat)
    ensures Names(PutListed(keys, k, bytes)) == Names(keys) + {k}
  {
    if keys == [] {
      assert PutListed(keys, k, bytes) == [Listed(k, bytes)];
      assert Listed(k, bytes) in [Listed(k, bytes)];
    } else {
      var after := PutListed(keys, k, bytes);
      NamesSplit(keys);
      NamesSplit(after);
      if keys[0].key == k {
        assert after[1..] == keys[1..];
      } else {
        NamesOfPut(keys[1..], k, bytes);
        assert after[1..] == PutListed(keys[1..], k, bytes);
      }
    }
  }

  ghost function BeginPlan(kv: Kv, builtAt: nat, incoming: Incoming): Plan {
    var published := PublishedOf(kv);
    PlanRetention(kv.keys, kv.otherBytes, Primary(published), LiveAts(published), Some(builtAt), Some(incoming))
  }

  /** The lease is taken from whoever holds it, families without a role go, and a refused family releases. */
  ghost function BeginKv(kv: Kv, builtAt: nat, incoming: Incoming): Kv {
    var plan := BeginPlan(kv, builtAt, incoming);
    kv.(keys := plan.remaining, lease := if plan.decision == Refuse then None else Some(builtAt))
  }

  ghost function ReleaseKv(kv: Kv, builtAt: nat): Kv {
    if kv.lease == Some(builtAt) then kv.(lease := None) else kv
  }

  /** The live manifests a sweep judges by: `own` is the publisher's, when it just wrote one. */
  ghost function SweepView(kv: Kv, own: Option<Manifest>): set<Published> {
    match own case None => PublishedOf(kv) case Some(m) => WithOwn(PublishedOf(kv), m)
  }

  function InFlightOf(lease: Option<nat>, liveAts: set<nat>): Option<nat> {
    if lease.Some? && lease.value !in liveAts then lease else None
  }

  ghost function SweepKv(kv: Kv, own: Option<Manifest>): Kv {
    var view := SweepView(kv, own);
    var liveAts := LiveAts(view);
    kv.(keys := PlanRetention(kv.keys, 0, Primary(view), liveAts, InFlightOf(kv.lease, liveAts), None).remaining)
  }

  ghost function FinishKv(kv: Kv, published: Manifest): Kv {
    SweepKv(ReleaseKv(kv, published.builtAt), Some(published))
  }

  /** replacedManifest: what the format's key holds, or else the primary. */
  ghost function Replaced(kv: Kv, format: nat): Option<Manifest> {
    if format in kv.formats then Some(kv.formats[format]) else Primary(PublishedOf(kv))
  }

  /** withPreviousBuiltAt: the manifest it replaces becomes the rollback. */
  function WithPrevious(builtAt: nat, format: nat, replaced: Option<Manifest>): Manifest {
    match replaced
    case None => Manifest(builtAt, format, None)
    case Some(live) => Manifest(builtAt, format, if live.builtAt == builtAt then live.previous else Some(live.builtAt))
  }

  function LegacyFollows(legacy: Option<Manifest>, format: nat): bool {
    legacy.None? || legacy.value.format == format
  }

  /** The commit point, once the lease is seen to be held. */
  ghost function CommitKv(kv: Kv, builtAt: nat, format: nat): Kv {
    var m := WithPrevious(builtAt, format, Replaced(kv, format));
    kv.(formats := kv.formats[format := m], legacy := if LegacyFollows(kv.legacy, format) then Some(m) else kv.legacy)
  }

  datatype EnsureOutcome = Present | Copied | Absent | OtherFormat

  function EnsureOutcomeOf(kv: Kv, format: nat): EnsureOutcome {
    if format in kv.formats then Present
    else if kv.legacy.None? then Absent
    else if kv.legacy.value.format != format then OtherFormat
    else Copied
  }

  function EnsureKv(kv: Kv, format: nat): Kv {
    if EnsureOutcomeOf(kv, format) == Copied then kv.(formats := kv.formats[format := kv.legacy.value]) else kv
  }

  /** The manifest a build of `format` reads: its own key, else a legacy mirror of the same format. */
  function Resolve(kv: Kv, format: nat): Option<Manifest> {
    if format in kv.formats then Some(kv.formats[format])
    else if kv.legacy.Some? && kv.legacy.value.format == format then kv.legacy
    else None
  }

  // ---- what the steps leave -------------------------------------------------------------------------

  /** With the primary `m` of the live manifests in `view`: live, held by the lease, or the rollback. */
  ghost predicate Stays(kv: Kv, view: set<Published>, b: nat)
    requires view != {}
  {
    HasRole(kv.keys, Primary(view).value, LiveAts(view), kv.lease, b)
  }

  lemma PrimaryIsLive(view: set<Published>)
    ensures Primary(view).Some? ==> Primary(view).value.builtAt in LiveAts(view)
  {
  }

  /** A build that is live and holds the lease has its role either way. */
  lemma InFlightOrLive(kv: Kv, view: set<Published>, b: nat)
    requires view != {}
    ensures Stays(kv, view, b)
       <==> HasRole(kv.keys, Primary(view).value, LiveAts(view), InFlightOf(kv.lease, LiveAts(view)), b)
  {
    var live := LiveAts(view);
    assert live + AsSet(InFlightOf(kv.lease, live)) == live + AsSet(kv.lease);
    RoleByHeld(kv.keys, Primary(view).value, live, InFlightOf(kv.lease, live), kv.lease, b);
  }

  /**
   * A sweep leaves the listed keys of the builds live in its view, of the lease holder and of the rollback, and
   * no other; without a manifest it leaves all. Nothing but keys goes.
   */
  lemma SweepLeaves(kv: Kv, own: Option<Manifest>, x: Listed)
    ensures SweepKv(kv, own) == kv.(keys := SweepKv(kv, own).keys)
    ensures SweepView(kv, own) == {} ==> SweepKv(kv, own) == kv
    ensures SweepView(kv, own) != {} ==>
              && (x.key in Names(SweepKv(kv, own).keys) <==>
                    x.key in Names(kv.keys) && Stays(kv, SweepView(kv, own), x.key.builtAt))
              && multiset(SweepKv(kv, own).keys)[x] ==
                 if Stays(kv, SweepView(kv, own), x.key.builtAt) then multiset(kv.keys)[x] else 0
  {
    var view := SweepView(kv, own);
    if view != {} {
      var live := LiveAts(view);
      PrimaryIsLive(view);
      InFlightOrLive(kv, view, x.key.builtAt);
      SweepKeepsExactly(kv.keys, Primary(view).value, live, InFlightOf(kv.lease, live), x);
    }
  }

  lemma SweepNames(kv: Kv, own: Option<Manifest>)
    requires SweepView(kv, own) != {}
    ensures Names(SweepKv(kv, own).keys) == set k | k in Names(kv.keys) && Stays(kv, SweepView(kv, own), k.builtAt)
  {
    forall k: GenKey
      ensures k in Names(SweepKv(kv, own).keys) <==> k in Names(kv.keys) && Stays(kv, SweepView(kv, own), k.builtAt)
    {
      SweepLeaves(kv, own, Listed(k, 0));
    }
  }

  /** Dropping the rollback is what makes the new family fit beside what a sweep leaves. */
  ghost predicate OnlyWithoutRollback(kv: Kv, swept: seq<Listed>, builtAt: nat, incoming: Incoming)
    requires PublishedOf(kv) != {}
  {
    var m, live := Primary(PublishedOf(kv)).value, LiveAts(PublishedOf(kv));
    && !Fits(kv.otherBytes, swept, incoming, 0)
    && exists b: nat :: DroppingHelps(kv.keys, kv.otherBytes, swept, m, live, Some(builtAt), incoming, b)
  }

  /**
   * A begin takes the lease and leaves what a sweep then leaves, unless the family only fits without the
   * rollback: then the rollback's keys go too. The lease is given back exactly where it fits neither way.
   */
  lemma BeginLeaves(kv: Kv, builtAt: nat, incoming: Incoming, x: Listed)
    requires PublishedOf(kv) != {}
    ensures var swept := SweepKv(kv.(lease := Some(builtAt)), None).keys;
            var after := BeginKv(kv, builtAt, incoming);
            var drops := OnlyWithoutRollback(kv, swept, builtAt, incoming);
            && after == kv.(keys := after.keys, lease := after.lease)
            && after.lease == (if Fits(kv.otherBytes, swept, incoming, 0) || drops then Some(builtAt) else None)
            && (!drops ==> after.keys == swept)
            && (drops ==>
                  multiset(after.keys)[x] ==
                  if IsRollback(kv.keys, Primary(PublishedOf(kv)).value, LiveAts(PublishedOf(kv)), Some(builtAt), x.key.builtAt)
                  then 0 else multiset(swept)[x])
  {
    var m, live := Primary(PublishedOf(kv)).value, LiveAts(PublishedOf(kv));
    var leased := kv.(lease := Some(builtAt));
    assert PublishedOf(leased) == PublishedOf(kv);
    PrimaryIsLive(PublishedOf(kv));
    BeginDecides(kv.keys, kv.otherBytes, m, live, Some(builtAt), incoming);
    BeginKeepsExactly(kv.keys, kv.otherBytes, m, live, Some(builtAt), incoming, x);
    SameSweep(leased, builtAt);
  }

  /** For a sweep it is one whether a build is known as live or as live and uploading. */
  lemma SameSweep(kv: Kv, builtAt: nat)
    requires kv.lease == Some(builtAt) && PublishedOf(kv) != {}
    ensures var m, live := Primary(PublishedOf(kv)).value, LiveAts(PublishedOf(kv));
            SweepKv(kv, None).keys == PlanRetention(kv.keys, 0, Some(m), live, Some(builtAt), None).remaining
  {
    var m, live := Primary(PublishedOf(kv)).value, LiveAts(PublishedOf(kv));
    PrimaryIsLive(PublishedOf(kv));
    if builtAt in live {
      SameRoles(kv.keys, m, live, builtAt);
    }
  }

  lemma SameRoles(keys: seq<Listed>, m: Manifest, live: set<nat>, builtAt: nat)
    requires m.builtAt in live && builtAt in live
    ensures RetainedFamilies(PlanRoles(keys, Some(m), live, Some(builtAt))) == RetainedFamilies(PlanRoles(keys, Some(m), live, None))
  {
    assert live + AsSet(Some(builtAt)) == live + AsSet(None);
    var one := RetainedFamilies(PlanRoles(keys, Some(m), live, Some(builtAt)));
    var other := RetainedFamilies(PlanRoles(keys, Some(m), live, None));
    forall b: nat ensures b in one <==> b in other {
      RetainedIs(keys, m, live, Some(builtAt), b);
      RetainedIs(keys, m, live, None, b);
      RoleByHeld(keys, m, live, Some(builtAt), None, b);
    }
  }

  /** The newest format's own manifest is the primary. */
  lemma OwnIsPrimary(kv: Kv, m: Manifest)
    requires WellKeyed(kv) && forall p | p in PublishedOf(kv) :: p.manifest.format <= m.format
    ensures OneEach(WithOwn(PublishedOf(kv), m)) && Primary(WithOwn(PublishedOf(kv), m)) == Some(m)
  {
    var view := WithOwn(PublishedOf(kv), m);
    PublishedOneEach(kv);
    assert Published(false, m) in view;
    PrimaryIs(view, Published(false, m));
  }

  /**
   * A deploy that published the newest format keeps, when it finishes, the family its manifest says it
   * replaced, unless more than three families would stay.
   */
  lemma FinishKeepsReplaced(kv: Kv, m: Manifest, x: Listed)
    requires WellKeyed(kv) && (kv.lease.None? || kv.lease == Some(m.builtAt))
    requires m.previous == Some(x.key.builtAt)
    requires forall p | p in PublishedOf(kv) :: p.manifest.format <= m.format
    ensures var live := LiveAts(WithOwn(PublishedOf(kv), m));
            multiset(FinishKv(kv, m).keys)[x] ==
            if x.key.builtAt in live || |live + {x.key.builtAt}| <= 3 then multiset(kv.keys)[x] else 0
  {
    var released := ReleaseKv(kv, m.builtAt);
    assert PublishedOf(released) == PublishedOf(kv);
    OwnIsPrimary(kv, m);
    SweepLeaves(released, Some(m), x);
    ReplacedStays(released, m, x.key.builtAt);
  }

  lemma ReplacedStays(kv: Kv, m: Manifest, b: nat)
    requires kv.lease.None? && m.previous == Some(b)
    requires Primary(WithOwn(PublishedOf(kv), m)) == Some(m)
    ensures WithOwn(PublishedOf(kv), m) != {}
    ensures var live := LiveAts(WithOwn(PublishedOf(kv), m));
            Stays(kv, WithOwn(PublishedOf(kv), m), b) <==> b in live || |live + {b}| <= 3
  {
    var live := LiveAts(WithOwn(PublishedOf(kv), m));
    assert live + AsSet(kv.lease) == live;
  }

  predicate Records(m: Manifest, replaced: Manifest) {
    m.previous == if replaced.builtAt == m.builtAt then replaced.previous else Some(replaced.builtAt)
  }

  /**
   * A publish records the build its format's key named, or the newest manifest's where the key is absent; a
   * build published again keeps what it had recorded. The mirror follows where it is of the format, or absent.
   */
  lemma CommitRecords(kv: Kv, builtAt: nat, format: nat)
    requires WellKeyed(kv)
    ensures var after := CommitKv(kv, builtAt, format);
            && WellKeyed(after) && format in after.formats
            && after == kv.(formats := kv.formats[format := after.formats[format]], legacy := after.legacy)
            && after.formats[format].builtAt == builtAt
            && after.legacy == (if kv.legacy.None? || kv.legacy.value.format == format then Some(after.formats[format]) else kv.legacy)
            && (format in kv.formats ==> Records(after.formats[format], kv.formats[format]))
            && (forall p | format !in kv.formats && p in PublishedOf(kv) && (forall q | q in PublishedOf(kv) :: Ahead(p, q)) ::
                  Records(after.formats[format], p.manifest))
            && (PublishedOf(kv) == {} ==> after.formats[format].previous == None)
  {
    PublishedOneEach(kv);
    forall p | p in PublishedOf(kv) && forall q | q in PublishedOf(kv) :: Ahead(p, q) {
      PrimaryIs(PublishedOf(kv), p);
    }
  }

  /** A format's readers are served by a key of their own after the copy, and no reader's manifest moves. */
  lemma EnsureServes(kv: Kv, format: nat, other: nat)
    requires WellKeyed(kv)
    ensures var after := EnsureKv(kv, format);
            && after == kv.(formats := after.formats)
            && Resolve(after, other) == Resolve(kv, other)
            && (Resolve(kv, format).Some? <==> format in after.formats)
            && (other != format ==> (other in after.formats <==> other in kv.formats))
  {
  }

  // ---- the calls ------------------------------------------------------------------------------------

  /** The namespace every deploy shares. */
  class DeployStore {
    var keys: seq<Listed>
    var otherBytes: nat
    var formats: map<nat, Manifest>
    var legacy: Option<Manifest>
    var lease: Option<nat>

    ghost function Contents(): Kv
      reads this
    {
      Kv(keys, otherBytes, formats, legacy, lease)
    }

    ghost predicate Valid()
      reads this
    {
      WellKeyed(Contents())
    }

    constructor (kv: Kv)
      requires WellKeyed(kv)
      ensures Valid() && Contents() == kv
    {
      keys, otherBytes, formats, legacy, lease := kv.keys, kv.otherBytes, kv.formats, kv.legacy, kv.lease;
    }

    /** The per-format manifests, one read for each key a list of the prefix shows. */
    static method ReadFormats(formats: map<nat, Manifest>, first: seq<Published>) returns (published: seq<Published>)
      ensures Elems(published) == Elems(first) + Entries(formats, formats.Keys)
    {
      published := first;
      var listed := formats.Keys;
      ghost var read: set<nat> := {};
      while listed != {}
        invariant read <= formats.Keys && listed == formats.Keys - read
        invariant Elems(published) == Elems(first) + Entries(formats, read)
        decreases |listed|
      {
        var f :| f in listed;
        EntriesAdd(formats, read, f);
        ElemsAppend(published, Published(false, formats[f]));
        published := published + [Published(false, formats[f])];
        read := read + {f};
        listed := listed - {f};
      }
      assert read == formats.Keys;
    }

    /** readPublishedManifests: the legacy mirror, then every per-format key. */
    method ReadPublishedManifests() returns (published: seq<Published>)
      requires Valid()
      ensures Elems(published) == PublishedOf(Contents())
      ensures OneEach(Elems(published))
    {
      published := if legacy.Some? then [Published(true, legacy.value)] else [];
      assert Elems(published) == MirrorEntry(legacy);
      published := ReadFormats(formats, published);
      PublishedOneEach(Contents());
    }

    /** beginDeployUpload, with a settled fence and reads that answer: false when the byte guard refuses. */
    method BeginDeployUpload(builtAt: nat, incoming: Incoming) returns (ok: bool)
      requires Valid()
      modifies this`keys, this`lease
      ensures Valid()
      ensures Contents() == BeginKv(old(Contents()), builtAt, incoming)
      ensures ok <==> BeginPlan(old(Contents()), builtAt, incoming).decision != Refuse
    {
      lease := Some(builtAt);
      assert PublishedOf(Contents()) == PublishedOf(old(Contents()));
      var published := ReadPublishedManifests();
      var primary, liveAts := LiveManifestRoles(published);
      var plan := PlanRetention(keys, otherBytes, primary, liveAts, Some(builtAt), Some(incoming));
      keys := plan.remaining;
      if plan.decision == Refuse {
        ReleaseDeployLease(builtAt);
        return false;
      }
      return true;
    }

    /** One key of a family, put without asking for the lease. */
    method PutKey(k: GenKey, bytes: nat)
      requires Valid()
      modifies this`keys
      ensures Valid()
      ensures Contents() == old(Contents()).(keys := PutListed(old(keys), k, bytes))
    {
      keys := PutListed(keys, k, bytes);
    }

    /** deployStillHoldsLease: an absent lease answers no. */
    method DeployStillHoldsLease(builtAt: nat) returns (holds: bool)
      ensures holds <==> lease == Some(builtAt)
    {
      return lease == Some(builtAt);
    }

    method ReleaseDeployLease(builtAt: nat)
      modifies this`lease
      ensures Contents() == ReleaseKv(old(Contents()), builtAt)
    {
      if lease == Some(builtAt) {
        lease := None;
      }
    }

    /** The published list with the publisher's own manifest standing for its format's key. */
    static method WithOwnManifest(published: seq<Published>, m: Manifest) returns (r: seq<Published>)
      requires OneEach(Elems(published))
      ensures Elems(r) == WithOwn(Elems(published), m)
      ensures OneEach(Elems(r))
    {
      r := [];
      for i := 0 to |published|
        invariant forall p :: p in r <==> p in published[..i] && (p.legacy || p.manifest.format != m.format)
      {
        assert published[..i + 1] == published[..i] + [published[i]];
        if published[i].legacy || published[i].manifest.format != m.format {
          r := r + [published[i]];
        }
      }
      assert published[..|published|] == published;
      ElemsAppend(r, Published(false, m));
      r := r + [Published(false, m)];
    }

    /** sweepGenerationsByRole: the number of keys deleted. */
    method SweepGenerationsByRole(own: Option<Manifest>) returns (removed: int)
      requires Valid()
      modifies this`keys
      ensures Valid()
      ensures Contents() == SweepKv(old(Contents()), own)
      ensures removed == |old(keys)| - |keys|
    {
      var published := ReadPublishedManifests();
      if own.Some? {
        published := WithOwnManifest(published, own.value);
      }
      var primary, liveAts := LiveManifestRoles(published);
      if primary.None? {
        return 0;
      }
      var plan := PlanRetention(keys, 0, primary, liveAts, InFlightOf(lease, liveAts), None);
      removed := |keys| - |plan.remaining|;
      keys := plan.remaining;
    }

    method FinishDeployUpload(published: Manifest) returns (removed: int)
      requires Valid()
      modifies this`keys, this`lease
      ensures Valid()
      ensures Contents() == FinishKv(old(Contents()), published)
      ensures removed == |old(keys)| - |keys|
    {
      ReleaseDeployLease(published.builtAt);
      removed := SweepGenerationsByRole(Some(published));
    }

    /** The commit point: the manifest goes to its format's key, then to the mirror if it follows. */
    method PublishManifest(builtAt: nat, format: nat) returns (published: Option<Manifest>)
      requires Valid()
      modifies this`formats, this`legacy
      ensures Valid()
      ensures old(lease) != Some(builtAt) ==> published.None? && Contents() == old(Contents())
      ensures old(lease) == Some(builtAt) ==>
                && published == Some(WithPrevious(builtAt, format, Replaced(old(Contents()), format)))
                && Contents() == CommitKv(old(Contents()), builtAt, format)
    {
      var live := ReadPublishedManifests();
      var primary, _ := LiveManifestRoles(live);
      var replaced := if format in formats then Some(formats[format]) else primary;
      var manifest := WithPrevious(builtAt, format, replaced);
      var held := DeployStillHoldsLease(builtAt);
      if !held {
        return None;
      }
      var mirror := LegacyFollows(legacy, format);
      formats := formats[format := manifest];
      if mirror {
        legacy := Some(manifest);
      }
      return Some(manifest);
    }

    /** ensureFormatManifest: a same-format legacy manifest is copied to its own key, once. */
    method EnsureFormatManifest(format: nat) returns (outcome: EnsureOutcome)
      requires Valid()
      modifies this`formats
      ensures Valid()
      ensures outcome == EnsureOutcomeOf(old(Contents()), format)
      ensures Contents() == EnsureKv(old(Contents()), format)
    {
      if format in formats {
        return Present;
      }
      if legacy.None? {
        return Absent;
      }
      if legacy.value.format != format {
        return OtherFormat;
      }
      formats := formats[format := legacy.value];
      return Copied;
    }
  }
}
