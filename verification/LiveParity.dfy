/**
 * The structural diff of two JSON documents (scripts/live-parity.ts). An object's fields are a list in
 * insertion order, one to a key; `canonical` is the key-sorted tree, which its string determines.
 */
module LiveParity {
  import opened Wrappers
  import opened CodeOrder
  import opened Decimal

  datatype Json =
    | Null
    | Bool(value: bool)
    | Num(number: real)
    | Str(text: string)
    | Arr(items: seq<Json>)
    | Obj(fields: seq<Field>)

  datatype Field = Field(key: string, value: Json)

  predicate DistinctKeys(fields: seq<Field>) {
    forall i, j | 0 <= i < j < |fields| :: fields[i].key != fields[j].key
  }

  /** Every object below has one field to a key. */
  ghost predicate Proper(v: Json) {
    match v
    case Arr(items) => forall i | 0 <= i < |items| :: Proper(items[i])
    case Obj(fields) => DistinctKeys(fields) && forall i | 0 <= i < |fields| :: Proper(fields[i].value)
    case _ => true
  }

  /** The field of a key. */
  function Find(fields: seq<Field>, key: string): Option<Json> {
    if fields == [] then None
    else if fields[0].key == key then Some(fields[0].value)
    else Find(fields[1..], key)
  }

  lemma {:induction false} FindWhere(fields: seq<Field>, key: string) returns (i: nat)
    requires Find(fields, key).Some?
    ensures i < |fields| && fields[i] == Field(key, Find(fields, key).value)
  {
    if fields[0].key == key {
      i := 0;
    } else {
      i := FindWhere(fields[1..], key);
      i := i + 1;
    }
  }

  lemma {:induction false} FindAt(fields: seq<Field>, i: nat)
    requires DistinctKeys(fields) && i < |fields|
    ensures Find(fields, fields[i].key) == Some(fields[i].value)
  {
    if i > 0 {
      FindAt(fields[1..], i - 1);
    }
  }

  // ---- the canonical form -----------------------------------------------------------------------------

  predicate KeyLess(a: Field, b: Field) {
    Less(a.key, b.key)
  }

  function PlaceField(f: Field, s: seq<Field>): (r: seq<Field>)
    ensures forall x :: x in r <==> x == f || x in s
  {
    if s == [] then [f] else if Less(f.key, s[0].key) then [f] + s else [s[0]] + PlaceField(f, s[1..])
  }

  function SortFields(fields: seq<Field>): (r: seq<Field>)
    ensures forall x :: x in r <==> x in fields
  {
    if fields == [] then [] else PlaceField(fields[0], SortFields(fields[1..]))
  }

  /** Recursive key sort. */
  function SortKeysDeep(v: Json): Json
    decreases v, 0
  {
    match v
    case Arr(items) => Arr(SortItems(items, 0))
    case Obj(fields) => Obj(SortFields(SortValues(fields, 0)))
    case _ => v
  }

  function SortItems(items: seq<Json>, from: nat): (r: seq<Json>)
    requires from <= |items|
    ensures |r| == |items| - from
    decreases items, |items| - from
  {
    if from == |items| then [] else [SortKeysDeep(items[from])] + SortItems(items, from + 1)
  }

  function SortValues(fields: seq<Field>, from: nat): (r: seq<Field>)
    requires from <= |fields|
    ensures |r| == |fields| - from
    decreases fields, |fields| - from
  {
    if from == |fields| then []
    else [Field(fields[from].key, SortKeysDeep(fields[from].value))] + SortValues(fields, from + 1)
  }

  lemma {:induction false} SortItemsAt(items: seq<Json>, from: nat, i: nat)
    requires from <= i < |items|
    ensures SortItems(items, from)[i - from] == SortKeysDeep(items[i])
    decreases |items| - from
  {
    if from < i {
      SortItemsAt(items, from + 1, i);
    }
  }

  lemma {:induction false} SortValuesAt(fields: seq<Field>, from: nat, i: nat)
    requires from <= i < |fields|
    ensures SortValues(fields, from)[i - from] == Field(fields[i].key, SortKeysDeep(fields[i].value))
    decreases |fields| - from
  {
    if from < i {
      SortValuesAt(fields, from + 1, i);
    }
  }

  lemma {:induction false} PlaceFieldAscends(f: Field, s: seq<Field>)
    requires Ascending(KeyLess, s) && forall x | x in s :: x.key != f.key
    ensures Ascending(KeyLess, PlaceField(f, s))
  {
    if s != [] {
      LessTotal(f.key, s[0].key);
      if Less(f.key, s[0].key) {
        forall j | 0 <= j < |s| ensures Less(f.key, s[j].key) {
          if j > 0 {
            assert KeyLess(s[0], s[j]);
            LessTransitive(f.key, s[0].key, s[j].key);
          }
        }
      } else {
        assert s[0] in s;
        PlaceFieldAscends(f, s[1..]);
        var rest := PlaceField(f, s[1..]);
        forall j | 0 <= j < |rest| ensures KeyLess(s[0], rest[j]) {
          assert rest[j] == f || rest[j] in s[1..];
        }
      }
    }
  }

  lemma {:induction false} SortFieldsAscends(fields: seq<Field>)
    requires DistinctKeys(fields)
    ensures Ascending(KeyLess, SortFields(fields))
  {
    if fields != [] {
      SortFieldsAscends(fields[1..]);
      PlaceFieldAscends(fields[0], SortFields(fields[1..]));
    }
  }

  lemma KeyLessIsStrict()
    ensures StrictOrder(KeyLess)
  {
    LessIsStrict();
  }

  /** Fields sorted alike exactly when they are the same fields. */
  lemma SortedAlike(a: seq<Field>, b: seq<Field>)
    requires DistinctKeys(a) && DistinctKeys(b)
    ensures SortFields(a) == SortFields(b) <==> SameElements(a, b)
  {
    KeyLessIsStrict();
    SortFieldsAscends(a);
    SortFieldsAscends(b);
    if SameElements(a, b) {
      AscendingUnique(KeyLess, SortFields(a), SortFields(b));
    } else if SortFields(a) == SortFields(b) {
      assert SameElements(SortFields(a), SortFields(b));
    }
  }

  /** `b` has the field of `a` at `i`, with a canonically equal value. */
  predicate FieldAlike(a: seq<Field>, b: seq<Field>, i: nat)
    requires i < |a|
  {
    Find(b, a[i].key).Some? && SortKeysDeep(a[i].value) == SortKeysDeep(Find(b, a[i].key).value)
  }

  /** Two objects have one canonical form exactly when they have the same keys, with canonically equal values. */
  ghost predicate SameFields(a: seq<Field>, b: seq<Field>) {
    && (forall i: nat | i < |a| :: FieldAlike(a, b, i))
    && (forall i | 0 <= i < |b| :: Find(a, b[i].key).Some?)
  }

  lemma SortValuesDistinct(fields: seq<Field>)
    requires DistinctKeys(fields)
    ensures DistinctKeys(SortValues(fields, 0))
  {
    var r := SortValues(fields, 0);
    forall i, j | 0 <= i < j < |r| ensures r[i].key != r[j].key {
      SortValuesAt(fields, 0, i);
      SortValuesAt(fields, 0, j);
    }
  }

  lemma SameElementsGivesSameFields(a: seq<Field>, b: seq<Field>)
    requires DistinctKeys(a) && DistinctKeys(b)
    requires SameElements(SortValues(a, 0), SortValues(b, 0))
    ensures SameFields(a, b)
  {
    var sa, sb := SortValues(a, 0), SortValues(b, 0);
    forall i: nat | i < |a| ensures FieldAlike(a, b, i) {
      SortValuesAt(a, 0, i);
      assert sa[i] in sb;
      var j :| 0 <= j < |sb| && sb[j] == sa[i];
      SortValuesAt(b, 0, j);
      FindAt(b, j);
    }
    forall i | 0 <= i < |b| ensures Find(a, b[i].key).Some? {
      SortValuesAt(b, 0, i);
      assert sb[i] in sa;
      var j :| 0 <= j < |sa| && sa[j] == sb[i];
      SortValuesAt(a, 0, j);
      FindAt(a, j);
    }
  }

  /** Fields of one key with canonically equal values are one sorted field. */
  lemma OneSortedField(a: seq<Field>, b: seq<Field>, i: nat, j: nat)
    requires i < |a| && j < |b| && a[i].key == b[j].key && SortKeysDeep(a[i].value) == SortKeysDeep(b[j].value)
    ensures SortValues(a, 0)[i] == SortValues(b, 0)[j]
  {
    SortValuesAt(a, 0, i);
    SortValuesAt(b, 0, j);
  }

  lemma SameFieldsGivesElement(a: seq<Field>, b: seq<Field>, x: Field)
    requires DistinctKeys(a) && DistinctKeys(b) && SameFields(a, b)
    ensures x in SortValues(a, 0) <==> x in SortValues(b, 0)
  {
    var sa, sb := SortValues(a, 0), SortValues(b, 0);
    if x in sa {
      var i: nat :| i < |sa| && sa[i] == x;
      assert FieldAlike(a, b, i);
      var j := FindWhere(b, a[i].key);
      OneSortedField(a, b, i, j);
    }
    if x in sb {
      var j: nat :| j < |sb| && sb[j] == x;
      var i := FindWhere(a, b[j].key);
      assert FieldAlike(a, b, i);
      FindAt(b, j);
      OneSortedField(a, b, i, j);
    }
  }

  lemma ObjectsAlike(a: seq<Field>, b: seq<Field>)
    requires DistinctKeys(a) && DistinctKeys(b)
    ensures SortKeysDeep(Obj(a)) == SortKeysDeep(Obj(b)) <==> SameFields(a, b)
  {
    SortValuesDistinct(a);
    SortValuesDistinct(b);
    SortedAlike(SortValues(a, 0), SortValues(b, 0));
    if SameElements(SortValues(a, 0), SortValues(b, 0)) {
      SameElementsGivesSameFields(a, b);
    }
    if SameFields(a, b) {
      forall x ensures x in SortValues(a, 0) <==> x in SortValues(b, 0) {
        SameFieldsGivesElement(a, b, x);
      }
    }
  }

  ghost predicate SameItems(a: seq<Json>, b: seq<Json>) {
    |a| == |b| && forall i | 0 <= i < |a| :: SortKeysDeep(a[i]) == SortKeysDeep(b[i])
  }

  lemma ArraysAlike(a: seq<Json>, b: seq<Json>)
    ensures SortKeysDeep(Arr(a)) == SortKeysDeep(Arr(b)) <==> SameItems(a, b)
  {
    var sa, sb := SortItems(a, 0), SortItems(b, 0);
    forall i | 0 <= i < |a| ensures sa[i] == SortKeysDeep(a[i]) {
      SortItemsAt(a, 0, i);
    }
    forall i | 0 <= i < |b| ensures sb[i] == SortKeysDeep(b[i]) {
      SortItemsAt(b, 0, i);
    }
    if SameItems(a, b) {
      assert forall i | 0 <= i < |sa| :: sa[i] == sb[i];
    }
    if sa == sb {
      forall i | 0 <= i < |a| ensures SortKeysDeep(a[i]) == SortKeysDeep(b[i]) {
        assert sa[i] == sb[i];
      }
    }
  }

  /** One document, but for the order of its objects' fields. */
  ghost predicate Alike(v: Json, w: Json)
    decreases v, 1
  {
    if v.Obj? && w.Obj? then
      && (forall i: nat | i < |v.fields| :: ValuesAlike(v.fields, w.fields, i))
      && (forall i | 0 <= i < |w.fields| :: Find(v.fields, w.fields[i].key).Some?)
    else if v.Arr? && w.Arr? then
      |v.items| == |w.items| && forall i | 0 <= i < |v.items| :: Alike(v.items[i], w.items[i])
    else v == w
  }

  ghost predicate ValuesAlike(a: seq<Field>, b: seq<Field>, i: nat)
    requires i < |a|
    decreases a, 0
  {
    Find(b, a[i].key).Some? && Alike(a[i].value, Find(b, a[i].key).value)
  }

  /** The canonical forms are equal exactly for one document in two orders of fields. */
  lemma {:induction false} AlikeExactly(v: Json, w: Json)
    requires Proper(v) && Proper(w)
    ensures SortKeysDeep(v) == SortKeysDeep(w) <==> Alike(v, w)
    decreases v
  {
    if v.Obj? && w.Obj? {
      ObjectsAlike(v.fields, w.fields);
      forall i: nat | i < |v.fields| ensures FieldAlike(v.fields, w.fields, i) <==> ValuesAlike(v.fields, w.fields, i) {
        if Find(w.fields, v.fields[i].key).Some? {
          var j := FindWhere(w.fields, v.fields[i].key);
          AlikeExactly(v.fields[i].value, w.fields[j].value);
        }
      }
    } else if v.Arr? && w.Arr? {
      ArraysAlike(v.items, w.items);
      forall i | 0 <= i < |v.items| && i < |w.items|
        ensures SortKeysDeep(v.items[i]) == SortKeysDeep(w.items[i]) <==> Alike(v.items[i], w.items[i])
      {
        AlikeExactly(v.items[i], w.items[i]);
      }
    }
  }

  // ---- the diff -----------------------------------------------------------------------------------------

  type Path = seq<string>

  datatype Kind = Value | MissingOurs | MissingScryfall | ArrayLength

  /** What each side has at the path: a value, nothing, or (ArrayLength) how many items. */
  datatype Diff = Diff(path: Path, kind: Kind, scryfall: Option<Json>, ours: Option<Json>)

  function Shorter(a: nat, b: nat): nat {
    if a < b then a else b
  }

  function Diffs(scryfall: Json, ours: Json, path: Path): seq<Diff>
    decreases scryfall, 1
  {
    if scryfall.Obj? && ours.Obj? then
      FieldDiffs(scryfall.fields, ours.fields, 0, path) + Extras(scryfall.fields, ours.fields, 0, path)
    else if scryfall.Arr? && ours.Arr? then
      LengthDiff(scryfall.items, ours.items, path) + ItemDiffs(scryfall.items, ours.items, 0, path)
    else if SortKeysDeep(scryfall) != SortKeysDeep(ours) then [Diff(path, Value, Some(scryfall), Some(ours))]
    else []
  }

  function LengthDiff(a: seq<Json>, b: seq<Json>, path: Path): seq<Diff> {
    if |a| != |b| then [Diff(path, ArrayLength, Some(Num(|a| as real)), Some(Num(|b| as real)))] else []
  }

  /** Scryfall's keys, in its order. */
  function FieldDiffs(scryfall: seq<Field>, ours: seq<Field>, from: nat, path: Path): seq<Diff>
    requires from <= |scryfall|
    decreases scryfall, |scryfall| - from
  {
    if from == |scryfall| then []
    else OneField(scryfall, ours, from, path) + FieldDiffs(scryfall, ours, from + 1, path)
  }

  function OneField(scryfall: seq<Field>, ours: seq<Field>, i: nat, path: Path): seq<Diff>
    requires i < |scryfall|
    decreases scryfall, 0
  {
    var here := path + [scryfall[i].key];
    match Find(ours, scryfall[i].key)
    case None => [Diff(here, MissingOurs, Some(scryfall[i].value), None)]
    case Some(v) => Diffs(scryfall[i].value, v, here)
  }

  /** Our keys that Scryfall does not have. */
  function Extras(scryfall: seq<Field>, ours: seq<Field>, from: nat, path: Path): seq<Diff>
    requires from <= |ours|
    decreases |ours| - from
  {
    if from == |ours| then []
    else
      (if Find(scryfall, ours[from].key).None? then
         [Diff(path + [ours[from].key], MissingScryfall, None, Some(ours[from].value))]
       else []) + Extras(scryfall, ours, from + 1, path)
  }

  function ItemDiffs(a: seq<Json>, b: seq<Json>, from: nat, path: Path): seq<Diff>
    requires from <= Shorter(|a|, |b|)
    decreases a, |a| - from
  {
    if from == Shorter(|a|, |b|) then []
    else Diffs(a[from], b[from], path + [DigitsOf(from)]) + ItemDiffs(a, b, from + 1, path)
  }

  /** The list `collectDiffs` appends to. */
  class Report {
    var out: seq<Diff>

    constructor ()
      ensures out == []
    {
      out := [];
    }

    method Push(d: Diff)
      modifies this
      ensures out == old(out) + [d]
    {
      out := out + [d];
    }
  }

  method CollectDiffs(scryfall: Json, ours: Json, path: Path, report: Report)
    modifies report
    ensures report.out == old(report.out) + Diffs(scryfall, ours, path)
    decreases scryfall, 1
  {
    if scryfall.Obj? && ours.Obj? {
      CollectFields(scryfall.fields, ours.fields, path, report);
      return;
    }
    if scryfall.Arr? && ours.Arr? {
      CollectItems(scryfall.items, ours.items, path, report);
      return;
    }
    if SortKeysDeep(scryfall) != SortKeysDeep(ours) {
      report.Push(Diff(path, Value, Some(scryfall), Some(ours)));
    }
  }

  /** Scryfall's keys and then the ones only ours has: the set of both, in order. */
  method CollectFields(scryfall: seq<Field>, ours: seq<Field>, path: Path, report: Report)
    modifies report
    ensures report.out == old(report.out) + (FieldDiffs(scryfall, ours, 0, path) + Extras(scryfall, ours, 0, path))
    decreases scryfall, 0
  {
    ghost var all := old(report.out) + (FieldDiffs(scryfall, ours, 0, path) + Extras(scryfall, ours, 0, path));
    for i := 0 to |scryfall|
      invariant all == report.out + (FieldDiffs(scryfall, ours, i, path) + Extras(scryfall, ours, 0, path))
    {
      var here := path + [scryfall[i].key];
      var other := Find(ours, scryfall[i].key);
      if other.None? {
        report.Push(Diff(here, MissingOurs, Some(scryfall[i].value), None));
      } else {
        CollectDiffs(scryfall[i].value, other.value, here, report);
      }
    }
    for i := 0 to |ours|
      invariant all == report.out + Extras(scryfall, ours, i, path)
    {
      var here := path + [ours[i].key];
      if Find(scryfall, ours[i].key).None? {
        report.Push(Diff(here, MissingScryfall, None, Some(ours[i].value)));
      }
    }
  }

  lemma ItemsNext(a: seq<Json>, b: seq<Json>, i: nat, path: Path, before: seq<Diff>)
    requires i < Shorter(|a|, |b|)
    ensures before + ItemDiffs(a, b, i, path)
         == before + Diffs(a[i], b[i], path + [DigitsOf(i)]) + ItemDiffs(a, b, i + 1, path)
  {
  }

  method CollectItems(a: seq<Json>, b: seq<Json>, path: Path, report: Report)
    modifies report
    ensures report.out == old(report.out) + (LengthDiff(a, b, path) + ItemDiffs(a, b, 0, path))
    decreases a, 0
  {
    ghost var all := old(report.out) + (LengthDiff(a, b, path) + ItemDiffs(a, b, 0, path));
    assert all == (old(report.out) + LengthDiff(a, b, path)) + ItemDiffs(a, b, 0, path);
    if |a| != |b| {
      report.Push(Diff(path, ArrayLength, Some(Num(|a| as real)), Some(Num(|b| as real))));
    }
    var n := Shorter(|a|, |b|);
    for i := 0 to n
      invariant all == report.out + ItemDiffs(a, b, i, path)
    {
      ItemsNext(a, b, i, path, report.out);
      CollectDiffs(a[i], b[i], path + [DigitsOf(i)], report);
    }
  }

  // ---- nothing to report --------------------------------------------------------------------------------

  ghost predicate FieldsClean(scryfall: seq<Field>, ours: seq<Field>, from: nat, path: Path) {
    forall i: nat | from <= i < |scryfall| :: OneField(scryfall, ours, i, path) == []
  }

  lemma {:induction false} FieldDiffsEmpty(scryfall: seq<Field>, ours: seq<Field>, from: nat, path: Path)
    requires from <= |scryfall|
    ensures FieldDiffs(scryfall, ours, from, path) == [] <==> FieldsClean(scryfall, ours, from, path)
    decreases |scryfall| - from
  {
    if from < |scryfall| {
      FieldDiffsEmpty(scryfall, ours, from + 1, path);
      assert FieldsClean(scryfall, ours, from, path)
        <==> OneField(scryfall, ours, from, path) == [] && FieldsClean(scryfall, ours, from + 1, path);
    }
  }

  predicate AllFound(scryfall: seq<Field>, ours: seq<Field>, from: nat) {
    forall i: nat | from <= i < |ours| :: Find(scryfall, ours[i].key).Some?
  }

  lemma {:induction false} ExtrasEmpty(scryfall: seq<Field>, ours: seq<Field>, from: nat, path: Path)
    requires from <= |ours|
    ensures Extras(scryfall, ours, from, path) == [] <==> AllFound(scryfall, ours, from)
    decreases |ours| - from
  {
    if from < |ours| {
      ExtrasEmpty(scryfall, ours, from + 1, path);
      assert AllFound(scryfall, ours, from)
        <==> Find(scryfall, ours[from].key).Some? && AllFound(scryfall, ours, from + 1);
    }
  }

  ghost predicate ItemClean(a: seq<Json>, b: seq<Json>, i: nat, path: Path)
    requires i < |a| && i < |b|
  {
    Diffs(a[i], b[i], path + [DigitsOf(i)]) == []
  }

  ghost predicate ItemsClean(a: seq<Json>, b: seq<Json>, from: nat, path: Path) {
    forall i: nat | from <= i < Shorter(|a|, |b|) :: ItemClean(a, b, i, path)
  }

  lemma {:induction false} ItemDiffsEmpty(a: seq<Json>, b: seq<Json>, from: nat, path: Path)
    requires from <= Shorter(|a|, |b|)
    ensures ItemDiffs(a, b, from, path) == [] <==> ItemsClean(a, b, from, path)
    decreases |a| - from
  {
    if from < Shorter(|a|, |b|) {
      ItemDiffsEmpty(a, b, from + 1, path);
      assert ItemsClean(a, b, from, path) <==> ItemClean(a, b, from, path) && ItemsClean(a, b, from + 1, path);
    }
  }

  /** collectDiffs returns nothing if and only if the two documents have one canonical form. */
  lemma {:induction false} NoDiffsExactly(scryfall: Json, ours: Json, path: Path)
    requires Proper(scryfall) && Proper(ours)
    ensures Diffs(scryfall, ours, path) == [] <==> SortKeysDeep(scryfall) == SortKeysDeep(ours)
    decreases scryfall
  {
    if scryfall.Obj? && ours.Obj? {
      ObjectsNoDiffs(scryfall, ours, path);
    } else if scryfall.Arr? && ours.Arr? {
      var a, b := scryfall.items, ours.items;
      ArraysAlike(a, b);
      ItemDiffsEmpty(a, b, 0, path);
      forall i: nat | i < Shorter(|a|, |b|)
        ensures ItemClean(a, b, i, path) <==> SortKeysDeep(a[i]) == SortKeysDeep(b[i])
      {
        NoDiffsExactly(a[i], b[i], path + [DigitsOf(i)]);
      }
    }
  }

  lemma {:induction false} ObjectsNoDiffs(scryfall: Json, ours: Json, path: Path)
    requires Proper(scryfall) && Proper(ours) && scryfall.Obj? && ours.Obj?
    ensures Diffs(scryfall, ours, path) == [] <==> SortKeysDeep(scryfall) == SortKeysDeep(ours)
    decreases scryfall, 0
  {
    var a, b := scryfall.fields, ours.fields;
    ObjectsAlike(a, b);
    FieldDiffsEmpty(a, b, 0, path);
    ExtrasEmpty(a, b, 0, path);
    forall i: nat | i < |a| ensures OneField(a, b, i, path) == [] <==> FieldAlike(a, b, i) {
      OneFieldClean(scryfall, ours, i, path);
    }
    assert FieldsClean(a, b, 0, path) <==> forall i: nat | i < |a| :: FieldAlike(a, b, i);
    assert AllFound(a, b, 0) <==> forall i | 0 <= i < |b| :: Find(a, b[i].key).Some?;
  }

  lemma {:induction false} OneFieldClean(scryfall: Json, ours: Json, i: nat, path: Path)
    requires Proper(scryfall) && Proper(ours) && scryfall.Obj? && ours.Obj? && i < |scryfall.fields|
    ensures OneField(scryfall.fields, ours.fields, i, path) == [] <==> FieldAlike(scryfall.fields, ours.fields, i)
    decreases scryfall.fields, 1
  {
    var a, b := scryfall.fields, ours.fields;
    if Find(b, a[i].key).Some? {
      var k := FindWhere(b, a[i].key);
      NoDiffsExactly(a[i].value, b[k].value, path + [a[i].key]);
    }
  }

  // ---- where a diff says it is --------------------------------------------------------------------------

  /** An array takes the index a whole number spells, an object a key. */
  function Child(v: Json, seg: string): Option<Json> {
    match v
    case Arr(items) => if IsWhole(seg) && ValueOf(seg) < |items| then Some(items[ValueOf(seg)]) else None
    case Obj(fields) => Find(fields, seg)
    case _ => None
  }

  function GetAt(v: Json, path: Path): Option<Json>
    decreases |path|
  {
    if path == [] then Some(v)
    else match Child(v, path[0])
      case None => None
      case Some(next) => GetAt(next, path[1..])
  }

  method GetAtPath(v: Json, path: Path) returns (r: Option<Json>)
    ensures r == GetAt(v, path)
  {
    var cur := v;
    for i := 0 to |path|
      invariant GetAt(v, path) == GetAt(cur, path[i..])
    {
      var next := Child(cur, path[i]);
      assert path[i..][1..] == path[i + 1..];
      if next.None? {
        return None;
      }
      cur := next.value;
    }
    return Some(cur);
  }

  /** A diff's path leads, on each side, to what it reports. */
  predicate Leads(scryfall: Json, ours: Json, rel: Path, d: Diff) {
    var there, here := GetAt(scryfall, rel), GetAt(ours, rel);
    if d.kind == ArrayLength then
      && there.Some? && there.value.Arr? && here.Some? && here.value.Arr?
      && d.scryfall == Some(Num(|there.value.items| as real))
      && d.ours == Some(Num(|here.value.items| as real))
      && d.scryfall != d.ours
    else there == d.scryfall && here == d.ours && there != here
  }

  predicate LeadsFrom(scryfall: Json, ours: Json, path: Path, d: Diff) {
    path <= d.path && Leads(scryfall, ours, d.path[|path|..], d)
  }

  /** A diff below a child is a diff below the parent. */
  lemma LeadsUp(scryfall: Json, ours: Json, path: Path, seg: string, d: Diff)
    requires Child(scryfall, seg).Some? && Child(ours, seg).Some?
    requires LeadsFrom(Child(scryfall, seg).value, Child(ours, seg).value, path + [seg], d)
    ensures LeadsFrom(scryfall, ours, path, d)
  {
    var rel := d.path[|path|..];
    assert (path + [seg])[|path|] == seg;
    assert rel[0] == seg && rel[1..] == d.path[|path + [seg]|..];
  }

  lemma {:induction false} InFieldDiffs(a: seq<Field>, b: seq<Field>, from: nat, path: Path, d: Diff) returns (i: nat)
    requires from <= |a| && d in FieldDiffs(a, b, from, path)
    ensures from <= i < |a| && d in OneField(a, b, i, path)
    decreases |a| - from
  {
    if d in OneField(a, b, from, path) {
      i := from;
    } else {
      i := InFieldDiffs(a, b, from + 1, path, d);
    }
  }

  lemma {:induction false} InExtras(a: seq<Field>, b: seq<Field>, from: nat, path: Path, d: Diff) returns (i: nat)
    requires from <= |b| && d in Extras(a, b, from, path)
    ensures from <= i < |b| && Find(a, b[i].key).None?
    ensures d == Diff(path + [b[i].key], MissingScryfall, None, Some(b[i].value))
    decreases |b| - from
  {
    if Find(a, b[from].key).None? && d == Diff(path + [b[from].key], MissingScryfall, None, Some(b[from].value)) {
      i := from;
    } else {
      i := InExtras(a, b, from + 1, path, d);
    }
  }

  lemma {:induction false} InItemDiffs(a: seq<Json>, b: seq<Json>, from: nat, path: Path, d: Diff) returns (i: nat)
    requires from <= Shorter(|a|, |b|) && d in ItemDiffs(a, b, from, path)
    ensures from <= i < Shorter(|a|, |b|) && d in Diffs(a[i], b[i], path + [DigitsOf(i)])
    decreases |a| - from
  {
    if d in Diffs(a[from], b[from], path + [DigitsOf(from)]) {
      i := from;
    } else {
      i := InItemDiffs(a, b, from + 1, path, d);
    }
  }

  /** A one-segment path below `path`. */
  lemma OneSegment(scryfall: Json, ours: Json, path: Path, seg: string, d: Diff)
    requires d.path == path + [seg] && d.kind != ArrayLength
    requires Child(scryfall, seg) == d.scryfall && Child(ours, seg) == d.ours && d.scryfall != d.ours
    ensures LeadsFrom(scryfall, ours, path, d)
  {
    assert d.path[|path|..] == [seg] && [seg][1..] == [];
  }

  /**
   * Every diff collectDiffs reports is one `getAt` sees: at its path the two documents hold exactly what
   * it reports for each (for an array-length diff, arrays of the two lengths), and they differ.
   */
  lemma {:induction false} DiffsLead(scryfall: Json, ours: Json, path: Path, d: Diff)
    requires Proper(scryfall) && Proper(ours) && d in Diffs(scryfall, ours, path)
    ensures LeadsFrom(scryfall, ours, path, d)
    decreases scryfall
  {
    if scryfall.Obj? && ours.Obj? {
      FieldDiffLeads(scryfall, ours, path, d);
    } else if scryfall.Arr? && ours.Arr? {
      var a, b := scryfall.items, ours.items;
      if d in ItemDiffs(a, b, 0, path) {
        var i := InItemDiffs(a, b, 0, path, d);
        DiffsLead(a[i], b[i], path + [DigitsOf(i)], d);
        DigitsAreWhole(i);
        LeadsUp(scryfall, ours, path, DigitsOf(i), d);
      } else {
        assert d in LengthDiff(a, b, path);
        assert d.path[|path|..] == [];
      }
    } else {
      assert d.path[|path|..] == [];
    }
  }

  lemma {:induction false} FieldDiffLeads(scryfall: Json, ours: Json, path: Path, d: Diff)
    requires Proper(scryfall) && Proper(ours) && scryfall.Obj? && ours.Obj? && d in Diffs(scryfall, ours, path)
    ensures LeadsFrom(scryfall, ours, path, d)
    decreases scryfall, 0
  {
    var a, b := scryfall.fields, ours.fields;
    if d in FieldDiffs(a, b, 0, path) {
      var i := InFieldDiffs(a, b, 0, path, d);
      var key := a[i].key;
      FindAt(a, i);
      if Find(b, key).None? {
        OneSegment(scryfall, ours, path, key, d);
      } else {
        var k := FindWhere(b, key);
        DiffsLead(a[i].value, b[k].value, path + [key], d);
        LeadsUp(scryfall, ours, path, key, d);
      }
    } else {
      var i := InExtras(a, b, 0, path, d);
      FindAt(b, i);
      OneSegment(scryfall, ours, path, b[i].key, d);
    }
  }
}
