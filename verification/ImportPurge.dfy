/**
 * Staging purges in bounded slices: `planPurgeSlice` of src/import-purge.ts, and the coordinator's two
 * callers of it, `purgeSlice` and `stepPurgeStaging` (src/import-coordinator.ts).
 *
 * A row's `group` is its place in the walk: the table, in PURGE_TABLES' order, and within a table the
 * value of its scope column. A purge is confined to the groups `inScope` admits (a partition, named dump
 * kinds, one table), and takes the lowest one present first.
 */
module ImportPurge {
  import opened Wrappers
  import opened Sequences
  import opened CodeOrder

  const PURGE_SLICE_BYTES: nat := 32 * 1024 * 1024
  const PURGE_SLICE_MAX_ROWS: nat := 64

  datatype Row = Row(group: nat, key: int, bytes: nat)

  predicate Before(a: Row, b: Row) {
    a.group < b.group || (a.group == b.group && a.key < b.key)
  }

  /** The order of the walk; within a group a key is one row's. */
  predicate Ordered(rows: seq<Row>) {
    forall i, j | 0 <= i < j < |rows| :: Before(rows[i], rows[j])
  }

  /** The bytes of the first n rows. */
  function SizeTo(rows: seq<Row>, n: nat): nat
    requires n <= |rows|
  {
    if n == 0 then 0 else SizeTo(rows, n - 1) + rows[n - 1].bytes
  }

  function Size(rows: seq<Row>): nat {
    SizeTo(rows, |rows|)
  }

  lemma {:induction false} SizeOfFront(rows: seq<Row>, m: nat, n: nat)
    requires n <= m <= |rows|
    ensures SizeTo(rows[..m], n) == SizeTo(rows, n)
  {
    if n > 0 {
      SizeOfFront(rows, m, n - 1);
    }
  }

  /** Sizes of a front that runs on into the rest. */
  lemma {:induction false} SizeRunsOn(rows: seq<Row>, n: nat, k: nat)
    requires n + k <= |rows|
    ensures SizeTo(rows, n + k) == SizeTo(rows, n) + SizeTo(rows[n..], k)
  {
    if k > 0 {
      SizeRunsOn(rows, n, k - 1);
    }
  }

  // ---- one slice --------------------------------------------------------------------------------------

  datatype PurgePlan = PurgePlan(upTo: int, rows: nat, bytes: nat)

  /** `n` is how many of the head rows reach the budget: at least one, and none after it is reached. */
  predicate Reaches(head: seq<Row>, budget: nat, n: nat) {
    && 0 < n <= |head|
    && (n == 1 || SizeTo(head, n - 1) < budget)
    && (n == |head| || SizeTo(head, n) >= budget)
  }

  lemma {:induction false} SizeGrows(rows: seq<Row>, m: nat, n: nat)
    requires m <= n <= |rows|
    ensures SizeTo(rows, m) <= SizeTo(rows, n)
    decreases n
  {
    if m < n {
      SizeGrows(rows, m, n - 1);
    }
  }

  /** There is one such number. */
  lemma ReachesOnce(head: seq<Row>, budget: nat, m: nat, n: nat)
    requires Reaches(head, budget, m) && Reaches(head, budget, n)
    ensures m == n
  {
    if m < n {
      SizeGrows(head, m, n - 1);
    } else if n < m {
      SizeGrows(head, n, m - 1);
    }
  }

  method PlanPurgeSlice(head: seq<Row>, budget: nat) returns (plan: Option<PurgePlan>)
    ensures plan.None? <==> head == []
    ensures plan.Some? ==>
              var n := plan.value.rows;
              Reaches(head, budget, n) && plan.value == PurgePlan(head[n - 1].key, n, SizeTo(head, n))
  {
    if head == [] {
      return None;
    }
    var upTo := head[0].key;
    var total, n := 0, 0;
    while n < |head|
      invariant n <= |head| && total == SizeTo(head, n)
      invariant n > 0 ==> upTo == head[n - 1].key && (n == 1 || SizeTo(head, n - 1) < budget)
    {
      if n > 0 && total >= budget {
        break;
      }
      upTo := head[n].key;
      total := total + head[n].bytes;
      n := n + 1;
    }
    return Some(PurgePlan(upTo, n, total));
  }

  // ---- the rows a purge is after ------------------------------------------------------------------------

  function OutOf(inScope: nat -> bool): nat -> bool {
    (g: nat) => !inScope(g)
  }

  function InScope(rows: seq<Row>, inScope: nat -> bool): seq<Row> {
    if rows == [] then []
    else (if inScope(rows[0].group) then [rows[0]] else []) + InScope(rows[1..], inScope)
  }

  lemma {:induction false} InScopeHas(rows: seq<Row>, inScope: nat -> bool, x: Row)
    ensures x in InScope(rows, inScope) <==> x in rows && inScope(x.group)
  {
    if rows != [] {
      InScopeHas(rows[1..], inScope, x);
      assert rows == [rows[0]] + rows[1..];
    }
  }

  /** How many rows the first group has. */
  function GroupLength(rows: seq<Row>): (n: nat)
    ensures n <= |rows| && (rows != [] ==> n > 0)
  {
    if rows == [] then 0
    else if |rows| == 1 || rows[1].group != rows[0].group then 1
    else 1 + GroupLength(rows[1..])
  }

  lemma {:induction false} OneGroup(rows: seq<Row>, i: nat)
    requires i < GroupLength(rows)
    ensures rows[i].group == rows[0].group
  {
    if i > 0 {
      OneGroup(rows[1..], i - 1);
    }
  }

  /** What one slice reads: the first group's rows, in key order, up to the row limit. */
  function HeadLength(rows: seq<Row>): nat {
    if GroupLength(rows) < PURGE_SLICE_MAX_ROWS then GroupLength(rows) else PURGE_SLICE_MAX_ROWS
  }

  function Head(rows: seq<Row>): seq<Row> {
    rows[..HeadLength(rows)]
  }

  /** `DELETE ... WHERE <group> AND key <= upTo`. */
  function DeleteUpTo(rows: seq<Row>, group: nat, upTo: int): seq<Row> {
    if rows == [] then []
    else (if rows[0].group == group && rows[0].key <= upTo then [] else [rows[0]]) + DeleteUpTo(rows[1..], group, upTo)
  }

  lemma {:induction false} DeleteKeeps(rows: seq<Row>, group: nat, upTo: int, x: Row)
    ensures x in DeleteUpTo(rows, group, upTo) <==> x in rows && !(x.group == group && x.key <= upTo)
  {
    if rows != [] {
      DeleteKeeps(rows[1..], group, upTo, x);
      assert rows == [rows[0]] + rows[1..];
    }
  }

  lemma {:induction false} SomeReaches(head: seq<Row>, budget: nat, n: nat) returns (m: nat)
    requires n < |head|
    requires n == 0 || SizeTo(head, n) < budget
    ensures Reaches(head, budget, m)
    decreases |head| - n
  {
    if n + 1 == |head| || SizeTo(head, n + 1) >= budget {
      m := n + 1;
    } else {
      m := SomeReaches(head, budget, n + 1);
    }
  }

  /** How many rows the budget takes from the head. */
  ghost function Reach(head: seq<Row>, budget: nat): (n: nat)
    requires head != []
    ensures Reaches(head, budget, n)
  {
    assert exists n :: Reaches(head, budget, n) by {
      var n := SomeReaches(head, budget, 0);
    }
    var n: nat :| Reaches(head, budget, n);
    n
  }

  /** How many rows the next slice deletes. */
  ghost function Taken(rows: seq<Row>, budget: nat): (n: nat)
    requires rows != []
    ensures 0 < n <= |rows|
  {
    Reach(Head(rows), budget)
  }

  /** What a slice did: it freed the rows it takes, and left the rest. */
  ghost predicate SliceTaken(wanted: seq<Row>, left: seq<Row>, plan: PurgePlan, budget: nat) {
    && wanted != [] && plan.rows == Taken(wanted, budget)
    && plan.bytes == SizeTo(wanted, plan.rows) && left == wanted[plan.rows..]
  }

  /** One slice of the tables: nothing when nothing is in scope, else the rows it takes; no row out of scope goes. */
  ghost predicate Sliced(before: seq<Row>, after: seq<Row>, inScope: nat -> bool, budget: nat, freed: Option<PurgePlan>) {
    && Ordered(after)
    && InScope(after, OutOf(inScope)) == InScope(before, OutOf(inScope))
    && (freed.None? <==> InScope(before, inScope) == [])
    && (freed.None? ==> after == before)
    && (freed.Some? ==> SliceTaken(InScope(before, inScope), InScope(after, inScope), freed.value, budget))
  }

  lemma TakenReaches(rows: seq<Row>, budget: nat)
    requires rows != []
    ensures var n := Taken(rows, budget);
            && Reaches(Head(rows), budget, n) && n <= HeadLength(rows)
            && (n == 1 || SizeTo(rows, n - 1) < budget)
            && (n == HeadLength(rows) || SizeTo(rows, n) >= budget)
  {
    var n := Taken(rows, budget);
    SizeOfFront(rows, HeadLength(rows), n);
    SizeOfFront(rows, HeadLength(rows), n - 1);
  }

  lemma BeforeIsStrict()
    ensures StrictOrder(Before)
  {
  }

  lemma FirstBefore(rows: seq<Row>, x: Row)
    requires Ordered(rows) && rows != [] && x in rows[1..]
    ensures Before(rows[0], x)
  {
    var j :| 0 <= j < |rows[1..]| && rows[1..][j] == x;
    assert Before(rows[0], rows[j + 1]);
  }

  lemma {:induction false} InScopeOrdered(rows: seq<Row>, inScope: nat -> bool)
    requires Ordered(rows)
    ensures Ordered(InScope(rows, inScope))
  {
    if rows != [] {
      InScopeOrdered(rows[1..], inScope);
      forall x | x in InScope(rows[1..], inScope) ensures Before(rows[0], x) {
        InScopeHas(rows[1..], inScope, x);
        FirstBefore(rows, x);
      }
      PrependOrdered(rows[0], InScope(rows[1..], inScope));
    }
  }

  lemma {:induction false} DeleteOrdered(rows: seq<Row>, group: nat, upTo: int)
    requires Ordered(rows)
    ensures Ordered(DeleteUpTo(rows, group, upTo))
  {
    if rows != [] {
      DeleteOrdered(rows[1..], group, upTo);
      forall x | x in DeleteUpTo(rows[1..], group, upTo) ensures Before(rows[0], x) {
        DeleteKeeps(rows[1..], group, upTo, x);
        FirstBefore(rows, x);
      }
      PrependOrdered(rows[0], DeleteUpTo(rows[1..], group, upTo));
    }
  }

  lemma PrependOrdered(x: Row, rest: seq<Row>)
    requires Ordered(rest) && forall y | y in rest :: Before(x, y)
    ensures Ordered([x] + rest) && Ordered([] + rest)
  {
    var all := [x] + rest;
    forall i, j | 0 <= i < j < |all| ensures Before(all[i], all[j]) {
      if i == 0 {
        assert all[j] in rest;
      }
    }
    assert [] + rest == rest;
  }

  /** Of the first group's rows, the cut at the n-th takes exactly the first n. */
  lemma CutIsPrefix(rows: seq<Row>, n: nat, x: Row)
    requires Ordered(rows) && 0 < n <= GroupLength(rows)
    ensures x in rows[n..] <==> x in rows && !(x.group == rows[0].group && x.key <= rows[n - 1].key)
  {
    forall k | 0 <= k < n ensures rows[k].group == rows[0].group && rows[k].key <= rows[n - 1].key {
      OneGroup(rows, k);
      OneGroup(rows, n - 1);
      if k < n - 1 {
        assert Before(rows[k], rows[n - 1]);
      }
    }
    if x in rows[n..] {
      var i :| 0 <= i < |rows[n..]| && rows[n..][i] == x;
      assert Before(rows[n - 1], rows[n + i]);
    }
    if x in rows && !(x.group == rows[0].group && x.key <= rows[n - 1].key) {
      var i :| 0 <= i < |rows| && rows[i] == x;
      assert x == rows[n..][i - n];
    }
  }

  /** What the delete leaves of the rows in scope: all but the first n. */
  lemma DeleteLeaves(rows: seq<Row>, inScope: nat -> bool, n: nat)
    requires Ordered(rows) && 0 < n <= GroupLength(InScope(rows, inScope))
    ensures var wanted := InScope(rows, inScope);
            InScope(DeleteUpTo(rows, wanted[0].group, wanted[n - 1].key), inScope) == wanted[n..]
  {
    var wanted := InScope(rows, inScope);
    var after := DeleteUpTo(rows, wanted[0].group, wanted[n - 1].key);
    BeforeIsStrict();
    DeleteOrdered(rows, wanted[0].group, wanted[n - 1].key);
    InScopeOrdered(rows, inScope);
    InScopeOrdered(after, inScope);
    forall x ensures x in InScope(after, inScope) <==> x in wanted[n..] {
      CutIsPrefix(wanted, n, x);
      InScopeHas(rows, inScope, x);
      InScopeHas(after, inScope, x);
      DeleteKeeps(rows, wanted[0].group, wanted[n - 1].key, x);
    }
    AscendingUnique(Before, InScope(after, inScope), wanted[n..]);
  }

  /** And of the rows out of scope: every one. */
  lemma DeleteSpares(rows: seq<Row>, out: nat -> bool, group: nat, upTo: int)
    requires Ordered(rows) && !out(group)
    ensures InScope(DeleteUpTo(rows, group, upTo), out) == InScope(rows, out)
  {
    var after := DeleteUpTo(rows, group, upTo);
    BeforeIsStrict();
    DeleteOrdered(rows, group, upTo);
    InScopeOrdered(rows, out);
    InScopeOrdered(after, out);
    forall x ensures x in InScope(after, out) <==> x in InScope(rows, out) {
      InScopeHas(rows, out, x);
      InScopeHas(after, out, x);
      DeleteKeeps(rows, group, upTo, x);
    }
    AscendingUnique(Before, InScope(after, out), InScope(rows, out));
  }

  /** The coordinator's staging tables. */
  class Staging {
    var rows: seq<Row>

    ghost predicate Valid()
      reads this
    {
      Ordered(rows)
    }

    constructor (rows: seq<Row>)
      requires Ordered(rows)
      ensures Valid() && this.rows == rows
    {
      this.rows := rows;
    }

    /** purgeSlice: what it freed, or None when nothing in scope is left. */
    method PurgeSlice(inScope: nat -> bool, budget: nat) returns (freed: Option<PurgePlan>)
      requires Valid()
      modifies this
      ensures Valid() && Sliced(old(rows), rows, inScope, budget, freed)
    {
      var wanted := InScope(rows, inScope);
      if wanted == [] {
        return None;
      }
      var head := Head(wanted);
      var plan := PlanPurgeSlice(head, budget);
      TakenReaches(wanted, budget);
      ReachesOnce(head, budget, plan.value.rows, Taken(wanted, budget));
      ghost var n := plan.value.rows;
      SizeOfFront(wanted, HeadLength(wanted), n);
      DeleteLeaves(rows, inScope, n);
      InScopeHas(rows, inScope, wanted[0]);
      DeleteSpares(rows, OutOf(inScope), wanted[0].group, plan.value.upTo);
      DeleteOrdered(rows, wanted[0].group, plan.value.upTo);
      rows := DeleteUpTo(rows, wanted[0].group, plan.value.upTo);
      return plan;
    }

    /**
     * stepPurgeStaging: slices until the alarm's budget is freed or the scope is empty; `emptied` lets the
     * run move on. However the tables, groups and row limits cut the walk into slices, the alarm deletes
     * exactly the shortest front of it that reaches the budget.
     */
    method StepPurgeStaging(inScope: nat -> bool) returns (freedBytes: nat, emptied: bool)
      requires Valid()
      modifies this
      ensures Valid()
      ensures InScope(rows, OutOf(inScope)) == old(InScope(rows, OutOf(inScope)))
      ensures var wanted := old(InScope(rows, inScope));
              var k := AlarmTakes(wanted);
              InScope(rows, inScope) == wanted[k..] && freedBytes == SizeTo(wanted, k)
      ensures emptied <==> freedBytes < PURGE_SLICE_BYTES
      ensures emptied ==> InScope(rows, inScope) == []
    {
      ghost var all := rows;
      ghost var k;
      freedBytes, k := RunAlarm(inScope);
      WalkEnds(InScope(all, inScope), k, InScope(rows, inScope), freedBytes);
      emptied := freedBytes < PURGE_SLICE_BYTES;
    }

    /** The loop of an alarm, slice after slice. `== true` has the verifier carry the invariant whole. */
    method RunAlarm(inScope: nat -> bool) returns (freedBytes: nat, ghost k: nat)
      requires Valid()
      modifies this
      ensures Alarm(old(rows), rows, inScope, k, freedBytes) == true
      ensures freedBytes >= PURGE_SLICE_BYTES || InScope(rows, inScope) == []
    {
      freedBytes, k := 0, 0;
      ghost var all := rows;
      AlarmBegins(rows, inScope);
      while freedBytes < PURGE_SLICE_BYTES
        invariant Alarm(all, rows, inScope, k, freedBytes) == true
        decreases |InScope(rows, inScope)|
      {
        ghost var before := rows;
        var freed := PurgeSlice(inScope, PURGE_SLICE_BYTES - freedBytes);
        AlarmGoesOn(all, before, rows, inScope, k, freedBytes, freed);
        if freed.None? {
          break;
        }
        k := k + freed.value.rows;
        freedBytes := freedBytes + freed.value.bytes;
      }
    }
  }

  /** How many of the rows in scope an alarm deletes. */
  ghost function AlarmTakes(wanted: seq<Row>): (k: nat)
    ensures k <= |wanted|
  {
    if wanted == [] then 0 else Reach(wanted, PURGE_SLICE_BYTES)
  }

  /** An alarm k rows in: what is left, what it freed, and that it was still under its budget before the last row. */
  ghost predicate WalkedTo(wanted: seq<Row>, k: nat, left: seq<Row>, freed: nat) {
    && k <= |wanted| && left == wanted[k..] && freed == SizeTo(wanted, k)
    && (k > 0 ==> SizeTo(wanted, k - 1) < PURGE_SLICE_BYTES)
  }

  lemma WalkGoesOn(wanted: seq<Row>, k: nat, left: seq<Row>, freed: nat, after: seq<Row>, plan: PurgePlan)
    requires WalkedTo(wanted, k, left, freed) && freed < PURGE_SLICE_BYTES
    requires SliceTaken(left, after, plan, PURGE_SLICE_BYTES - freed)
    ensures WalkedTo(wanted, k + plan.rows, after, freed + plan.bytes) && |after| < |left|
  {
    SliceRunsOn(wanted, k, PURGE_SLICE_BYTES);
  }

  /** The tables `all`, when an alarm has deleted k of the rows in scope and left `rows`. */
  ghost predicate Alarm(all: seq<Row>, rows: seq<Row>, inScope: nat -> bool, k: nat, freed: nat) {
    && Ordered(rows)
    && InScope(rows, OutOf(inScope)) == InScope(all, OutOf(inScope))
    && WalkedTo(InScope(all, inScope), k, InScope(rows, inScope), freed)
  }

  lemma AlarmBegins(rows: seq<Row>, inScope: nat -> bool)
    requires Ordered(rows)
    ensures Alarm(rows, rows, inScope, 0, 0)
  {
    assert InScope(rows, inScope)[0..] == InScope(rows, inScope);
  }

  lemma AlarmGoesOn(all: seq<Row>, before: seq<Row>, rows: seq<Row>, inScope: nat -> bool, k: nat, freedBytes: nat,
                    freed: Option<PurgePlan>)
    requires Alarm(all, before, inScope, k, freedBytes) && freedBytes < PURGE_SLICE_BYTES
    requires Sliced(before, rows, inScope, PURGE_SLICE_BYTES - freedBytes, freed)
    ensures freed.None? ==> Alarm(all, rows, inScope, k, freedBytes) && InScope(rows, inScope) == []
    ensures freed.Some? ==>
              && Alarm(all, rows, inScope, k + freed.value.rows, freedBytes + freed.value.bytes)
              && |InScope(rows, inScope)| < |InScope(before, inScope)|
  {
    if freed.Some? {
      WalkGoesOn(InScope(all, inScope), k, InScope(before, inScope), freedBytes, InScope(rows, inScope), freed.value);
    }
  }

  lemma WalkEnds(wanted: seq<Row>, k: nat, left: seq<Row>, freed: nat)
    requires WalkedTo(wanted, k, left, freed) && (freed >= PURGE_SLICE_BYTES || left == [])
    ensures k == AlarmTakes(wanted) && (freed < PURGE_SLICE_BYTES ==> left == [])
  {
    if wanted != [] {
      ReachesOnce(wanted, PURGE_SLICE_BYTES, k, Reach(wanted, PURGE_SLICE_BYTES));
    }
  }

  /** A slice taken k rows in, for what is left of the budget. */
  lemma SliceRunsOn(rows: seq<Row>, k: nat, budget: nat)
    requires k < |rows| && SizeTo(rows, k) < budget
    ensures var n := Taken(rows[k..], budget - SizeTo(rows, k));
            && rows[k..][n..] == rows[k + n..]
            && SizeTo(rows, k) + SizeTo(rows[k..], n) == SizeTo(rows, k + n)
            && SizeTo(rows, k + n - 1) < budget
  {
    var n := Taken(rows[k..], budget - SizeTo(rows, k));
    TakenReaches(rows[k..], budget - SizeTo(rows, k));
    SizeRunsOn(rows, k, n);
    SizeRunsOn(rows, k, n - 1);
  }

  // ---- alarm after alarm ----------------------------------------------------------------------------------

  /** Alarms until the scope is empty. */
  ghost function Alarms(rows: seq<Row>, budget: nat): nat
    requires budget > 0
    decreases |rows|
  {
    if rows == [] then 0
    else 1 + Alarms(rows[Reach(rows, budget)..], budget)
  }

  lemma OneMore(n: int, unit: nat)
    ensures (n + 1) * unit == n * unit + unit
  {
  }

  lemma {:induction false} AlarmsBounded(rows: seq<Row>, budget: nat)
    requires budget > 0 && rows != []
    ensures (Alarms(rows, budget) - 1) * budget <= Size(rows)
    decreases |rows|
  {
    var k := Reach(rows, budget);
    var rest := rows[k..];
    SizeRunsOn(rows, k, |rest|);
    if rest != [] {
      AlarmsBounded(rest, budget);
      OneMore(Alarms(rest, budget) - 1, budget);
    } else {
      assert Alarms(rows, budget) == 1 + Alarms(rest, budget) == 1;
    }
  }

  // ---- slices of one budget -----------------------------------------------------------------------------

  /** The slices that empty the scope. */
  ghost function Slices(rows: seq<Row>, budget: nat): seq<seq<Row>>
    decreases |rows|
  {
    if rows == [] then []
    else
      var n := Taken(rows, budget);
      [rows[..n]] + Slices(rows[n..], budget)
  }

  /** A slice: one group's rows, at most the row limit, and under the budget without its last row, or one row. */
  predicate SliceOk(slice: seq<Row>, budget: nat) {
    && 0 < |slice| <= PURGE_SLICE_MAX_ROWS
    && (forall i | 0 <= i < |slice| :: slice[i].group == slice[0].group)
    && (|slice| == 1 || SizeTo(slice, |slice| - 1) < budget)
  }

  lemma SliceIsOk(rows: seq<Row>, budget: nat)
    requires rows != []
    ensures SliceOk(rows[..Taken(rows, budget)], budget)
  {
    var n := Taken(rows, budget);
    TakenReaches(rows, budget);
    SizeOfFront(rows, n, n - 1);
    forall i | 0 <= i < n ensures rows[i].group == rows[0].group {
      OneGroup(rows, i);
    }
  }

  /** Every row goes once, in the order of the walk. */
  lemma {:induction false} SlicesEmpty(rows: seq<Row>, budget: nat)
    ensures Flat(Slices(rows, budget)) == rows
    decreases |rows|
  {
    if rows != [] {
      SlicesEmpty(rows[Taken(rows, budget)..], budget);
    }
  }

  lemma {:induction false} SlicesAreOk(rows: seq<Row>, budget: nat, i: nat)
    requires i < |Slices(rows, budget)|
    ensures SliceOk(Slices(rows, budget)[i], budget)
    decreases |rows|
  {
    if i == 0 {
      SliceIsOk(rows, budget);
    } else {
      SlicesAreOk(rows[Taken(rows, budget)..], budget, i - 1);
    }
  }

  function Groups(rows: seq<Row>): nat {
    if rows == [] then 0
    else if |rows| == 1 || rows[0].group != rows[1].group then 1 + Groups(rows[1..])
    else Groups(rows[1..])
  }

  /** Within a group, dropping some of its rows leaves its count; dropping all of them takes one away. */
  lemma {:induction false} GroupsAfter(rows: seq<Row>, n: nat)
    requires n <= GroupLength(rows)
    ensures Groups(rows[n..]) == Groups(rows) - if rows != [] && n == GroupLength(rows) then 1 else 0
    decreases n
  {
    if n > 0 {
      if |rows| > 1 && rows[1].group == rows[0].group {
        GroupsAfter(rows[1..], n - 1);
        assert rows[n..] == rows[1..][n - 1..];
      }
    } else {
      assert rows[0..] == rows;
    }
  }

  /** How the slices end: by the budget, by the row limit, or with their group. */
  datatype Ends = Ends(spent: nat, full: nat, last: nat)

  ghost function EndsOf(rows: seq<Row>, budget: nat): Ends
    decreases |rows|
  {
    if rows == [] then Ends(0, 0, 0)
    else
      var n := Taken(rows, budget);
      var rest := EndsOf(rows[n..], budget);
      if SizeTo(rows, n) >= budget then rest.(spent := rest.spent + 1)
      else if n == GroupLength(rows) then rest.(last := rest.last + 1)
      else rest.(full := rest.full + 1)
  }

  lemma {:induction false} EndsCounted(rows: seq<Row>, budget: nat)
    ensures var e := EndsOf(rows, budget);
            |Slices(rows, budget)| == e.spent + e.full + e.last && e.last <= Groups(rows)
    decreases |rows|
  {
    if rows != [] {
      var n := Taken(rows, budget);
      EndsCounted(rows[n..], budget);
      GroupsAfter(rows, n);
    }
  }

  lemma {:induction false} SpentPaid(rows: seq<Row>, budget: nat)
    ensures EndsOf(rows, budget).spent * budget <= Size(rows)
    decreases |rows|
  {
    if rows != [] {
      var n := Taken(rows, budget);
      SpentPaid(rows[n..], budget);
      assert EndsOf(rows, budget).spent == EndsOf(rows[n..], budget).spent + if SizeTo(rows, n) >= budget then 1 else 0;
      SizeRunsOn(rows, n, |rows| - n);
      OneMore(EndsOf(rows[n..], budget).spent, budget);
    }
  }

  lemma {:induction false} FullPaid(rows: seq<Row>, budget: nat)
    ensures EndsOf(rows, budget).full * PURGE_SLICE_MAX_ROWS <= |rows|
    decreases |rows|
  {
    if rows != [] {
      TakenReaches(rows, budget);
      FullPaid(rows[Taken(rows, budget)..], budget);
    }
  }

  lemma AtMostQuotient(n: nat, size: nat, budget: nat)
    requires budget > 0 && n * budget <= size
    ensures n <= size / budget
  {
    var q := size / budget;
    assert size < (q + 1) * budget;
  }

  /** The slices are at most the bytes by the budget, the rows by the row limit, and the groups, together. */
  lemma SlicesBounded(rows: seq<Row>, budget: nat)
    requires budget > 0
    ensures |Slices(rows, budget)| <= Size(rows) / budget + |rows| / PURGE_SLICE_MAX_ROWS + Groups(rows)
  {
    EndsCounted(rows, budget);
    SpentPaid(rows, budget);
    FullPaid(rows, budget);
    var e := EndsOf(rows, budget);
    AtMostQuotient(e.spent, Size(rows), budget);
    AtMostQuotient(e.full, |rows|, PURGE_SLICE_MAX_ROWS);
  }
}
