/**
 * Which diffs collectDiffs reports (scripts/live-parity.ts:470-488), told without its recursion: one for
 * each place where both documents have something and differ in it, and no other, each once.
 */
module DiffsExact {
  import opened Wrappers
  import opened Decimal
  import opened LiveParity

  /** Walking both documents together, through objects by a key of both and arrays by an index of both. */
  ghost predicate Meets(s: Json, o: Json, rel: Path, x: Json, y: Json)
    decreases |rel|
  {
    if rel == [] then x == s && y == o
    else if s.Obj? && o.Obj? then
      var p, q := Find(s.fields, rel[0]), Find(o.fields, rel[0]);
      p.Some? && q.Some? && Meets(p.value, q.value, rel[1..], x, y)
    else if s.Arr? && o.Arr? then
      exists i: nat | i < |s.items| && i < |o.items| :: rel[0] == DigitsOf(i) && Meets(s.items[i], o.items[i], rel[1..], x, y)
    else false
  }

  /** What differs between `x` and `y` themselves: a key of one, the lengths, or the values. */
  ghost predicate DiffersBy(x: Json, y: Json, here: Path, d: Diff) {
    if x.Obj? && y.Obj? then
      || (exists k :: Find(x.fields, k).Some? && Find(y.fields, k).None?
                      && d == Diff(here + [k], MissingOurs, Find(x.fields, k), None))
      || (exists k :: Find(x.fields, k).None? && Find(y.fields, k).Some?
                      && d == Diff(here + [k], MissingScryfall, None, Find(y.fields, k)))
    else if x.Arr? && y.Arr? then
      && |x.items| != |y.items|
      && d == Diff(here, ArrayLength, Some(Num(|x.items| as real)), Some(Num(|y.items| as real)))
    else x != y && d == Diff(here, Value, Some(x), Some(y))
  }

  ghost predicate DiffersAt(s: Json, o: Json, path: Path, rel: Path, x: Json, y: Json, d: Diff) {
    Meets(s, o, rel, x, y) && DiffersBy(x, y, path + rel, d)
  }

  /** One step further up. */
  lemma MeetsUp(s: Json, o: Json, path: Path, seg: string, s': Json, o': Json, rel: Path, x: Json, y: Json, d: Diff)
    requires DiffersAt(s', o', path + [seg], rel, x, y, d)
    requires || (s.Obj? && o.Obj? && Find(s.fields, seg) == Some(s') && Find(o.fields, seg) == Some(o'))
             || (s.Arr? && o.Arr? && exists i: nat :: i < |s.items| && i < |o.items| && seg == DigitsOf(i)
                                                      && s' == s.items[i] && o' == o.items[i])
    ensures DiffersAt(s, o, path, [seg] + rel, x, y, d)
  {
    assert ([seg] + rel)[1..] == rel;
    assert path + ([seg] + rel) == path + [seg] + rel;
  }

  /** What is reported differs there. */
  lemma {:induction false} OnlyReported(s: Json, o: Json, path: Path, d: Diff) returns (rel: Path, x: Json, y: Json)
    requires Proper(s) && Proper(o) && d in Diffs(s, o, path)
    ensures DiffersAt(s, o, path, rel, x, y, d)
    decreases s
  {
    assert path + [] == path;
    if s.Obj? && o.Obj? {
      rel, x, y := OnlyReportedFields(s, o, path, d);
    } else if s.Arr? && o.Arr? && d in ItemDiffs(s.items, o.items, 0, path) {
      var i := InItemDiffs(s.items, o.items, 0, path, d);
      rel, x, y := OnlyReported(s.items[i], o.items[i], path + [DigitsOf(i)], d);
      MeetsUp(s, o, path, DigitsOf(i), s.items[i], o.items[i], rel, x, y, d);
      rel := [DigitsOf(i)] + rel;
    } else {
      rel, x, y := [], s, o;
    }
  }

  lemma {:induction false} OnlyReportedFields(s: Json, o: Json, path: Path, d: Diff) returns (rel: Path, x: Json, y: Json)
    requires Proper(s) && Proper(o) && s.Obj? && o.Obj? && d in Diffs(s, o, path)
    ensures DiffersAt(s, o, path, rel, x, y, d)
    decreases s, 0
  {
    var a, b := s.fields, o.fields;
    rel, x, y := [], s, o;
    assert path + [] == path;
    if d in FieldDiffs(a, b, 0, path) {
      var i := InFieldDiffs(a, b, 0, path, d);
      FindAt(a, i);
      if Find(b, a[i].key).Some? {
        var k := FindWhere(b, a[i].key);
        rel, x, y := OnlyReported(a[i].value, b[k].value, path + [a[i].key], d);
        MeetsUp(s, o, path, a[i].key, a[i].value, b[k].value, rel, x, y, d);
        rel := [a[i].key] + rel;
      }
    } else {
      var i := InExtras(a, b, 0, path, d);
      FindAt(b, i);
    }
  }

  lemma {:induction false} FieldDiffsHas(a: seq<Field>, b: seq<Field>, from: nat, i: nat, path: Path, d: Diff)
    requires from <= i < |a| && d in OneField(a, b, i, path)
    ensures d in FieldDiffs(a, b, from, path)
    decreases i - from
  {
    if from < i {
      FieldDiffsHas(a, b, from + 1, i, path, d);
    }
  }

  lemma {:induction false} ExtrasHas(a: seq<Field>, b: seq<Field>, from: nat, i: nat, path: Path)
    requires from <= i < |b| && Find(a, b[i].key).None?
    ensures Diff(path + [b[i].key], MissingScryfall, None, Some(b[i].value)) in Extras(a, b, from, path)
    decreases i - from
  {
    if from < i {
      ExtrasHas(a, b, from + 1, i, path);
    }
  }

  lemma {:induction false} ItemDiffsHas(a: seq<Json>, b: seq<Json>, from: nat, i: nat, path: Path, d: Diff)
    requires from <= i < Shorter(|a|, |b|) && d in Diffs(a[i], b[i], path + [DigitsOf(i)])
    ensures d in ItemDiffs(a, b, from, path)
    decreases i - from
  {
    if from < i {
      ItemDiffsHas(a, b, from + 1, i, path, d);
    }
  }

  /** What differs between the two documents themselves is reported. */
  lemma HereIsReported(s: Json, o: Json, path: Path, d: Diff)
    requires DiffersBy(s, o, path, d)
    ensures d in Diffs(s, o, path)
  {
    if s.Obj? && o.Obj? {
      var a, b := s.fields, o.fields;
      if k :| Find(a, k).Some? && Find(b, k).None? && d == Diff(path + [k], MissingOurs, Find(a, k), None) {
        var i := FindWhere(a, k);
        FieldDiffsHas(a, b, 0, i, path, d);
      } else {
        var k :| Find(a, k).None? && Find(b, k).Some? && d == Diff(path + [k], MissingScryfall, None, Find(b, k));
        var i := FindWhere(b, k);
        ExtrasHas(a, b, 0, i, path);
      }
    } else if s.Arr? && o.Arr? {
      assert d in LengthDiff(s.items, o.items, path);
    }
  }

  /** What differs anywhere is reported. */
  lemma {:induction false} AllReported(s: Json, o: Json, path: Path, rel: Path, x: Json, y: Json, d: Diff)
    requires DiffersAt(s, o, path, rel, x, y, d)
    ensures d in Diffs(s, o, path)
    decreases |rel|
  {
    if rel == [] {
      assert path + [] == path;
      HereIsReported(s, o, path, d);
    } else {
      assert path + rel == path + [rel[0]] + rel[1..];
      if s.Obj? {
        var a, b := s.fields, o.fields;
        var i := FindWhere(a, rel[0]);
        AllReported(a[i].value, Find(b, rel[0]).value, path + [rel[0]], rel[1..], x, y, d);
        FieldDiffsHas(a, b, 0, i, path, d);
      } else {
        var a, b := s.items, o.items;
        var i: nat :| i < |a| && i < |b| && rel[0] == DigitsOf(i) && Meets(a[i], b[i], rel[1..], x, y);
        AllReported(a[i], b[i], path + [rel[0]], rel[1..], x, y, d);
        ItemDiffsHas(a, b, 0, i, path, d);
      }
    }
  }

  /** A diff is reported if and only if the documents meet at a place and differ there by it. */
  lemma DiffsExactly(s: Json, o: Json, path: Path, d: Diff)
    requires Proper(s) && Proper(o)
    ensures d in Diffs(s, o, path) <==> exists rel, x, y :: DiffersAt(s, o, path, rel, x, y, d)
  {
    if d in Diffs(s, o, path) {
      var rel, x, y := OnlyReported(s, o, path, d);
    }
    if rel, x, y :| DiffersAt(s, o, path, rel, x, y, d) {
      AllReported(s, o, path, rel, x, y, d);
    }
  }

  // ---- each once --------------------------------------------------------------------------------------

  predicate PathsDiffer(ds: seq<Diff>, es: seq<Diff>) {
    forall d, e | d in ds && e in es :: d.path != e.path
  }

  /** No two of the diffs have one path. */
  predicate EachOnce(ds: seq<Diff>) {
    forall i, j | 0 <= i < j < |ds| :: ds[i].path != ds[j].path
  }

  lemma OnceJoined(ds: seq<Diff>, es: seq<Diff>)
    requires EachOnce(ds) && EachOnce(es) && PathsDiffer(ds, es)
    ensures EachOnce(ds + es)
  {
    var all := ds + es;
    forall i, j | 0 <= i < j < |all| ensures all[i].path != all[j].path {
      if i < |ds| <= j {
        assert all[i] in ds && all[j] in es;
      }
    }
  }

  predicate Under(d: Diff, path: Path, seg: string) {
    path + [seg] <= d.path
  }

  lemma UnderApart(d: Diff, e: Diff, path: Path, seg: string, other: string)
    requires Under(d, path, seg) && Under(e, path, other) && seg != other
    ensures d.path != e.path
  {
    assert d.path[|path|] == seg && e.path[|path|] == other;
  }

  lemma {:induction false} OneFieldUnder(s: Json, o: Json, i: nat, path: Path, d: Diff)
    requires Proper(s) && Proper(o) && s.Obj? && o.Obj? && i < |s.fields| && d in OneField(s.fields, o.fields, i, path)
    ensures Under(d, path, s.fields[i].key)
  {
    var a, b := s.fields, o.fields;
    if Find(b, a[i].key).Some? {
      var k := FindWhere(b, a[i].key);
      DiffsLead(a[i].value, b[k].value, path + [a[i].key], d);
    }
  }

  lemma FieldApart(s: Json, o: Json, from: nat, path: Path)
    requires Proper(s) && Proper(o) && s.Obj? && o.Obj? && from < |s.fields|
    ensures PathsDiffer(OneField(s.fields, o.fields, from, path), FieldDiffs(s.fields, o.fields, from + 1, path))
  {
    var a, b := s.fields, o.fields;
    forall d, e | d in OneField(a, b, from, path) && e in FieldDiffs(a, b, from + 1, path) ensures d.path != e.path {
      OneFieldUnder(s, o, from, path, d);
      var i := InFieldDiffs(a, b, from + 1, path, e);
      OneFieldUnder(s, o, i, path, e);
      UnderApart(d, e, path, a[from].key, a[i].key);
    }
  }

  lemma {:induction false} FieldDiffsOnce(s: Json, o: Json, from: nat, path: Path)
    requires Proper(s) && Proper(o) && s.Obj? && o.Obj? && from <= |s.fields|
    ensures EachOnce(FieldDiffs(s.fields, o.fields, from, path))
    decreases s, |s.fields| - from
  {
    if from < |s.fields| {
      FieldDiffsOnce(s, o, from + 1, path);
      var a, b := s.fields, o.fields;
      if Find(b, a[from].key).Some? {
        var k := FindWhere(b, a[from].key);
        DiffsOnce(a[from].value, b[k].value, path + [a[from].key]);
      }
      FieldApart(s, o, from, path);
      OnceJoined(OneField(a, b, from, path), FieldDiffs(a, b, from + 1, path));
    }
  }

  lemma {:induction false} ExtrasOnce(a: seq<Field>, b: seq<Field>, from: nat, path: Path)
    requires DistinctKeys(b) && from <= |b|
    ensures EachOnce(Extras(a, b, from, path))
    decreases |b| - from
  {
    if from < |b| {
      ExtrasOnce(a, b, from + 1, path);
      forall e | e in Extras(a, b, from + 1, path) ensures e.path != path + [b[from].key] {
        var i := InExtras(a, b, from + 1, path, e);
        assert e.path[|path|] == b[i].key;
      }
    }
  }

  lemma FieldsAndExtrasApart(s: Json, o: Json, path: Path)
    requires Proper(s) && Proper(o) && s.Obj? && o.Obj?
    ensures PathsDiffer(FieldDiffs(s.fields, o.fields, 0, path), Extras(s.fields, o.fields, 0, path))
  {
    var a, b := s.fields, o.fields;
    forall d, e | d in FieldDiffs(a, b, 0, path) && e in Extras(a, b, 0, path) ensures d.path != e.path {
      var i := InFieldDiffs(a, b, 0, path, d);
      OneFieldUnder(s, o, i, path, d);
      var k := InExtras(a, b, 0, path, e);
      FindAt(a, i);
      UnderApart(d, e, path, a[i].key, b[k].key);
    }
  }

  lemma {:induction false} ItemDiffsOnce(s: Json, o: Json, from: nat, path: Path)
    requires Proper(s) && Proper(o) && s.Arr? && o.Arr? && from <= Shorter(|s.items|, |o.items|)
    ensures EachOnce(ItemDiffs(s.items, o.items, from, path))
    decreases s, |s.items| - from
  {
    var a, b := s.items, o.items;
    if from < Shorter(|a|, |b|) {
      ItemDiffsOnce(s, o, from + 1, path);
      DiffsOnce(a[from], b[from], path + [DigitsOf(from)]);
      forall d, e | d in Diffs(a[from], b[from], path + [DigitsOf(from)]) && e in ItemDiffs(a, b, from + 1, path)
        ensures d.path != e.path
      {
        var i := InItemDiffs(a, b, from + 1, path, e);
        ItemsApart(s, o, from, i, path, d, e);
      }
      OnceJoined(Diffs(a[from], b[from], path + [DigitsOf(from)]), ItemDiffs(a, b, from + 1, path));
    }
  }

  lemma ItemsApart(s: Json, o: Json, i: nat, j: nat, path: Path, d: Diff, e: Diff)
    requires Proper(s) && Proper(o) && s.Arr? && o.Arr? && i < j < Shorter(|s.items|, |o.items|)
    requires d in Diffs(s.items[i], o.items[i], path + [DigitsOf(i)]) && e in Diffs(s.items[j], o.items[j], path + [DigitsOf(j)])
    ensures d.path != e.path
  {
    DiffsLead(s.items[i], o.items[i], path + [DigitsOf(i)], d);
    DiffsLead(s.items[j], o.items[j], path + [DigitsOf(j)], e);
    if DigitsOf(i) == DigitsOf(j) {
      DigitsTell(i, j);
    }
    UnderApart(d, e, path, DigitsOf(i), DigitsOf(j));
  }

  lemma {:induction false} ArraysOnce(s: Json, o: Json, path: Path)
    requires Proper(s) && Proper(o) && s.Arr? && o.Arr?
    ensures EachOnce(Diffs(s, o, path))
    decreases s, |s.items| + 1
  {
    var a, b := s.items, o.items;
    ItemDiffsOnce(s, o, 0, path);
    forall d, e | d in LengthDiff(a, b, path) && e in ItemDiffs(a, b, 0, path) ensures d.path != e.path {
      var i := InItemDiffs(a, b, 0, path, e);
      DiffsLead(a[i], b[i], path + [DigitsOf(i)], e);
    }
    OnceJoined(LengthDiff(a, b, path), ItemDiffs(a, b, 0, path));
  }

  /** No path is reported twice. */
  lemma {:induction false} DiffsOnce(s: Json, o: Json, path: Path)
    requires Proper(s) && Proper(o)
    ensures EachOnce(Diffs(s, o, path))
    decreases s
  {
    if s.Obj? && o.Obj? {
      FieldDiffsOnce(s, o, 0, path);
      ExtrasOnce(s.fields, o.fields, 0, path);
      FieldsAndExtrasApart(s, o, path);
      OnceJoined(FieldDiffs(s.fields, o.fields, 0, path), Extras(s.fields, o.fields, 0, path));
    } else if s.Arr? && o.Arr? {
      ArraysOnce(s, o, path);
    }
  }
}
