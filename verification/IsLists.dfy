/**
 * The tables of Scryfall's own `is:` classes (scripts/generate-is-lists.ts): a class is measured as a
 * set of rows and written as whole sets, cards and printings, with exceptions. A table is right when,
 * for every row the search holds, its verdict (or the class's rule where it says nothing) is membership.
 */
module IsLists {
  import opened Wrappers
  import opened Sequences

  datatype Card = Card(id: string, set_: string, number: string, lang: string, name: string, oracles: seq<string>,
                       hasParts: bool)

  datatype Kind = PrintKind | RowKind | NotKind | NotRowKind

  // ---- keys -------------------------------------------------------------------------------------------

  /** `a` and `b` joined by the tab neither holds. */
  function TabKey(a: string, b: string): string {
    a + "\t" + b
  }

  predicate Clean(s: string) {
    '\t' !in s
  }

  lemma TabKeyInjective(a: string, b: string, c: string, d: string)
    requires Clean(a) && Clean(c) && TabKey(a, b) == TabKey(c, d)
    ensures a == c && b == d
  {
    var k := TabKey(a, b);
    assert k[|a|] == '\t' && k[|c|] == '\t';
    assert forall i | 0 <= i < |a| :: k[i] == a[i] != '\t';
    assert forall i | 0 <= i < |c| :: k[i] == c[i] != '\t';
    assert a == k[..|a|] && c == k[..|c|];
    assert b == k[|a| + 1..] && d == k[|c| + 1..];
  }

  /** A key of two clean parts is split in no other way. */
  lemma TabKeySplits(a: string, b: string, c: string, d: string)
    requires Clean(a) && Clean(b) && TabKey(a, b) == TabKey(c, d)
    ensures a == c && b == d
  {
    var k := TabKey(a, b);
    assert k[|c|] == '\t';
    assert |c| == |a| by {
      assert forall i | 0 <= i < |a| :: k[i] == a[i];
      assert forall i | |a| < i < |k| :: k[i] == b[i - |a| - 1];
    }
    assert a == k[..|a|] && c == k[..|c|];
    assert b == k[|a| + 1..] && d == k[|c| + 1..];
  }

  function PrintKey(c: Card): string {
    TabKey(c.set_, c.number)
  }

  function LangKey(c: Card): string {
    TabKey(c.set_, c.lang)
  }

  // ---- entries ----------------------------------------------------------------------------------------

  /** One value's entries: whole sets, cards by oracle id, and numbers by set (and language). */
  datatype Table = Table(sets: set<string>, oracles: map<string, string>, numbers: map<Kind, map<string, set<string>>>)

  predicate Has(t: Table, kind: Kind, key: string, number: string) {
    kind in t.numbers && key in t.numbers[kind] && number in t.numbers[kind][key]
  }

  function AddTo(t: Table, kind: Kind, key: string, number: string): Table {
    var byKey := if kind in t.numbers then t.numbers[kind] else map[];
    var numbers := if key in byKey then byKey[key] else {};
    t.(numbers := t.numbers[kind := byKey[key := numbers + {number}]])
  }

  lemma HasAfterAdd(t: Table, kind: Kind, key: string, number: string)
    ensures forall k, y, n :: Has(AddTo(t, kind, key, number), k, y, n)
                         <==> Has(t, k, y, n) || (k == kind && y == key && n == number)
  {
  }

  /** The entries' answer for a row, if they have one. */
  function Verdict(t: Table, c: Card): Option<bool> {
    if Has(t, NotRowKind, LangKey(c), c.number) then Some(false)
    else if Has(t, RowKind, LangKey(c), c.number) then Some(true)
    else if Has(t, NotKind, c.set_, c.number) then Some(false)
    else if Has(t, PrintKind, c.set_, c.number) then Some(true)
    else if c.set_ in t.sets || exists id | id in c.oracles :: id in t.oracles then Some(true)
    else None
  }

  /** The key and number a kind names a row by. */
  predicate Names(kind: Kind, key: string, number: string, c: Card) {
    number == c.number && key == if kind == RowKind || kind == NotRowKind then LangKey(c) else c.set_
  }

  /**
   * One entry more: the verdicts of the rows it does not name stay; a row it names is in or out by the entry,
   * unless an entry of a narrower kind, or an exclusion of its own kind, already decided.
   */
  lemma AddDecides(t: Table, kind: Kind, key: string, number: string, c: Card)
    ensures var u := AddTo(t, kind, key, number);
            && (!Names(kind, key, number, c) ==> Verdict(u, c) == Verdict(t, c))
            && (Names(kind, key, number, c) ==>
                  && (kind == NotRowKind ==> Verdict(u, c) == Some(false))
                  && (kind == RowKind ==> Verdict(u, c) == Some(!Has(t, NotRowKind, LangKey(c), c.number)))
                  && (kind == NotKind ==>
                        Verdict(u, c) == Some(Has(t, RowKind, LangKey(c), c.number) && !Has(t, NotRowKind, LangKey(c), c.number)))
                  && (kind == PrintKind && !Has(t, NotRowKind, LangKey(c), c.number) && !Has(t, NotKind, c.set_, c.number) ==>
                        Verdict(u, c) == Some(true)))
  {
    HasAfterAdd(t, kind, key, number);
  }

  function Tagged(t: Table, rule: Card -> bool, c: Card): bool {
    match Verdict(t, c) case Some(v) => v case None => rule(c)
  }

  const EMPTY := Table({}, map[], map[])

  class Entries {
    var sets: set<string>
    var oracles: map<string, string>
    var numbers: map<Kind, map<string, set<string>>>

    ghost function Contents(): Table
      reads this
    {
      Table(sets, oracles, numbers)
    }

    constructor ()
      ensures Contents() == EMPTY
    {
      sets, oracles, numbers := {}, map[], map[];
    }

    method Add(kind: Kind, key: string, number: string)
      modifies this
      ensures Contents() == AddTo(old(Contents()), kind, key, number)
      ensures sets == old(sets) && oracles == old(oracles)
      ensures forall k, y, n :: Has(Contents(), k, y, n)
                           <==> Has(old(Contents()), k, y, n) || (k == kind && y == key && n == number)
    {
      HasAfterAdd(Contents(), kind, key, number);
      var byKey := if kind in numbers then numbers[kind] else map[];
      var before := if key in byKey then byKey[key] else {};
      numbers := numbers[kind := byKey[key := before + {number}]];
    }

    method Holds(kind: Kind, key: string, number: string) returns (yes: bool)
      ensures yes <==> Has(Contents(), kind, key, number)
    {
      if kind !in numbers {
        return false;
      }
      var byKey := numbers[kind];
      return key in byKey && number in byKey[key];
    }

    /** verdict: rows before printings, exclusions before entries, and the wide keys last. */
    method VerdictOn(c: Card) returns (v: Option<bool>)
      ensures v == Verdict(Contents(), c)
    {
      var yes := Holds(NotRowKind, LangKey(c), c.number);
      if yes {
        return Some(false);
      }
      yes := Holds(RowKind, LangKey(c), c.number);
      if yes {
        return Some(true);
      }
      yes := Holds(NotKind, c.set_, c.number);
      if yes {
        return Some(false);
      }
      yes := Holds(PrintKind, c.set_, c.number);
      if yes || c.set_ in sets {
        return Some(true);
      }
      for n := 0 to |c.oracles|
        invariant forall k | 0 <= k < n :: c.oracles[k] !in oracles
      {
        if c.oracles[n] in oracles {
          return Some(true);
        }
      }
      return None;
    }
  }

  /** The search, and the rows found missing from it: module state, shared by every list. */
  class Search {
    const indexed: Card -> bool
    var unindexed: set<string>

    constructor (indexed: Card -> bool, unindexed: set<string>)
      ensures this.indexed == indexed && this.unindexed == unindexed
    {
      this.indexed, this.unindexed := indexed, unindexed;
    }

    method IsIndexed(c: Card) returns (yes: bool)
      modifies this
      ensures yes <==> c.id !in old(unindexed) && indexed(c)
      ensures unindexed == old(unindexed) + if yes then {} else {c.id}
    {
      if c.id in unindexed {
        return false;
      }
      yes := indexed(c);
      if !yes {
        unindexed := unindexed + {c.id};
      }
    }
  }

  // ---- the corpus -------------------------------------------------------------------------------------

  /** What readCorpus checks of every row, and what makes a row's key its own. */
  ghost predicate WellFormed(cards: seq<Card>) {
    && (forall c | c in cards :: Clean(c.set_) && Clean(c.number) && Clean(c.lang))
    && (forall c, d | c in cards && d in cards && c.id == d.id :: c == d)
    && (forall c, d | c in cards && d in cards && c.set_ == d.set_ && c.number == d.number && c.lang == d.lang :: c == d)
  }

  /** An answer's rows are rows of the corpus. */
  predicate Drawn(rows: seq<Card>, cards: seq<Card>) {
    forall r | r in rows :: r in cards
  }

  function BySet(cards: seq<Card>, code: string): (r: seq<Card>)
    ensures forall c :: c in r <==> c in cards && c.set_ == code
  {
    if cards == [] then []
    else (if cards[0].set_ == code then [cards[0]] else []) + BySet(cards[1..], code)
  }

  function ByPrint(cards: seq<Card>, key: string): (r: seq<Card>)
    ensures forall c :: c in r <==> c in cards && PrintKey(c) == key
  {
    if cards == [] then []
    else (if PrintKey(cards[0]) == key then [cards[0]] else []) + ByPrint(cards[1..], key)
  }

  function Ids(rows: seq<Card>): set<string> {
    set r | r in rows :: r.id
  }

  /** The table tags exactly the positives, of the rows the search is taken to hold. */
  ghost predicate Exact(t: Table, cards: seq<Card>, unindexed: set<string>, positives: set<string>, rule: Card -> bool) {
    forall c | c in cards && c.id !in unindexed :: Tagged(t, rule, c) <==> c.id in positives
  }

  /** selfCheck: counts the rows the table gets wrong; true when there are none. */
  method SelfCheck(cards: seq<Card>, entries: Entries, unindexed: set<string>, positives: set<string>, rule: Card -> bool)
    returns (ok: bool)
    ensures ok <==> Exact(entries.Contents(), cards, unindexed, positives, rule)
  {
    var missing, extra := 0, 0;
    ghost var t := entries.Contents();
    for i := 0 to |cards|
      invariant missing >= 0 && extra >= 0
      invariant missing == 0 && extra == 0 <==>
                forall c | c in cards[..i] && c.id !in unindexed :: Tagged(t, rule, c) <==> c.id in positives
    {
      var c := cards[i];
      assert cards[..i + 1] == cards[..i] + [c];
      if c.id in unindexed {
        continue;
      }
      var verdict := entries.VerdictOn(c);
      var tagged := if verdict.Some? then verdict.value else rule(c);
      assert tagged == Tagged(t, rule, c);
      if tagged && c.id !in positives {
        extra := extra + 1;
      }
      if !tagged && c.id in positives {
        missing := missing + 1;
      }
    }
    assert cards[..|cards|] == cards;
    return missing == 0 && extra == 0;
  }

  // ---- a list of printings ----------------------------------------------------------------------------

  function Keys(rows: seq<Card>): set<string> {
    set r | r in rows :: PrintKey(r)
  }

  /** Every row of the printing is in the class. */
  predicate WholePrinting(cards: seq<Card>, positives: set<string>, set_: string, number: string) {
    forall c | c in cards && c.set_ == set_ && c.number == number :: c.id in positives
  }

  /** A row of a whole set outside the class, which the search is taken to hold. */
  predicate IsException(done: set<Card>, positives: set<string>, unindexed: set<string>, key: string, number: string) {
    exists c | c in done :: c.id !in positives && c.id !in unindexed && key == LangKey(c) && number == c.number
  }

  predicate IsPrint(rows: seq<Card>, cards: seq<Card>, sets: set<string>, keys: set<string>, set_: string, number: string) {
    exists r | r in rows :: r.set_ !in sets && PrintKey(r) in keys && set_ == r.set_ && number == r.number
                            && WholePrinting(cards, Ids(rows), r.set_, r.number)
  }

  predicate IsRow(rows: seq<Card>, cards: seq<Card>, sets: set<string>, keys: set<string>, key: string, number: string) {
    exists r | r in rows :: r.set_ !in sets && PrintKey(r) in keys && key == LangKey(r) && number == r.number
                            && !WholePrinting(cards, Ids(rows), r.set_, r.number)
  }

  function Elems(rows: seq<Card>): set<Card> {
    set c | c in rows
  }

  function OfSets(cards: seq<Card>, sets: set<string>): set<Card> {
    set c | c in cards && c.set_ in sets
  }

  /** The whole sets' rows that the search does not hold, of those outside the class. */
  ghost function NotHeld(done: set<Card>, positives: set<string>, held: Card -> bool): set<string> {
    set c | c in done && c.id !in positives && !held(c) :: c.id
  }

  /**
   * The entries the sets `t.sets` and the printings in `keys` need, no more and no fewer: the exceptions of the
   * whole sets; outside them a printing wholly in the class by its number, and of any other its rows in the class.
   */
  ghost predicate PrintingTable(t: Table, rows: seq<Card>, cards: seq<Card>, unindexed: set<string>, keys: set<string>) {
    && t.oracles == map[]
    && (forall y, n :: !Has(t, NotKind, y, n))
    && (forall y, n :: Has(t, NotRowKind, y, n) <==> IsException(OfSets(cards, t.sets), Ids(rows), unindexed, y, n))
    && (forall y, n :: Has(t, PrintKind, y, n) <==> IsPrint(rows, cards, t.sets, keys, y, n))
    && (forall y, n :: Has(t, RowKind, y, n) <==> IsRow(rows, cards, t.sets, keys, y, n))
  }

  predicate OnlyNotRows(t: Table) {
    RowKind !in t.numbers && PrintKind !in t.numbers && NotKind !in t.numbers
  }

  /** A key and a number belong to one row of the corpus. */
  lemma SameRow(cards: seq<Card>, c: Card, d: Card)
    requires WellFormed(cards) && c in cards && d in cards && LangKey(c) == LangKey(d) && c.number == d.number
    ensures c == d
  {
    TabKeyInjective(c.set_, c.lang, d.set_, d.lang);
  }

  lemma PrintingRowExact(t: Table, rows: seq<Card>, cards: seq<Card>, unindexed: set<string>, c: Card)
    requires WellFormed(cards) && Drawn(rows, cards) && PrintingTable(t, rows, cards, unindexed, Keys(rows))
    requires c in cards && c.id !in unindexed
    ensures Tagged(t, _ => false, c) <==> c.id in Ids(rows)
  {
    var positives := Ids(rows);
    if c.set_ in t.sets && c.id !in positives {
      assert c in OfSets(cards, t.sets);
      assert IsException(OfSets(cards, t.sets), positives, unindexed, LangKey(c), c.number);
    }
    if IsException(OfSets(cards, t.sets), positives, unindexed, LangKey(c), c.number) {
      var d :| d in cards && d.set_ in t.sets && d.id !in positives && LangKey(c) == LangKey(d) && c.number == d.number;
      SameRow(cards, c, d);
    } else if IsRow(rows, cards, t.sets, Keys(rows), LangKey(c), c.number) {
      var r :| r in rows && r.set_ !in t.sets && LangKey(c) == LangKey(r) && c.number == r.number;
      SameRow(cards, c, r);
    } else if c.id in positives {
      var r :| r in rows && r.id == c.id;
      assert r == c && PrintKey(r) in Keys(rows);
      assert c.set_ in t.sets || IsPrint(rows, cards, t.sets, Keys(rows), c.set_, c.number);
    }
  }

  /** The table such entries make is exact. */
  lemma PrintingExact(t: Table, rows: seq<Card>, cards: seq<Card>, unindexed: set<string>)
    requires WellFormed(cards) && Drawn(rows, cards) && PrintingTable(t, rows, cards, unindexed, Keys(rows))
    ensures Exact(t, cards, unindexed, Ids(rows), _ => false)
  {
    forall c | c in cards && c.id !in unindexed ensures Tagged(t, _ => false, c) <==> c.id in Ids(rows) {
      PrintingRowExact(t, rows, cards, unindexed, c);
    }
  }

  lemma {:induction false} BySetSnoc(rows: seq<Card>, r: Card, code: string)
    ensures BySet(rows + [r], code) == BySet(rows, code) + if r.set_ == code then [r] else []
  {
    if rows == [] {
      assert [r][1..] == [];
    } else {
      BySetSnoc(rows[1..], r, code);
      assert (rows + [r])[1..] == rows[1..] + [r];
      Regroup(if rows[0].set_ == code then [rows[0]] else [], BySet(rows[1..], code), if r.set_ == code then [r] else []);
    }
  }

  /** What `inSet` counts. */
  ghost predicate Counts(inSet: map<string, nat>, rows: seq<Card>) {
    && (forall code :: code in inSet <==> exists r | r in rows :: r.set_ == code)
    && (forall code | code in inSet :: inSet[code] == |BySet(rows, code)|)
  }

  lemma SetListed(rows: seq<Card>, code: string)
    requires BySet(rows, code) != []
    ensures exists r | r in rows :: r.set_ == code
  {
    assert BySet(rows, code)[0] in BySet(rows, code);
  }

  lemma CountsSnoc(inSet: map<string, nat>, rows: seq<Card>, r: Card)
    requires Counts(inSet, rows)
    ensures Counts(inSet[r.set_ := (if r.set_ in inSet then inSet[r.set_] else 0) + 1], rows + [r])
  {
    var after := inSet[r.set_ := (if r.set_ in inSet then inSet[r.set_] else 0) + 1];
    forall code ensures code in after <==> exists x | x in rows + [r] :: x.set_ == code {
      if code in inSet {
        var x :| x in rows && x.set_ == code;
        assert x in rows + [r];
      }
      assert r in rows + [r];
    }
    forall code | code in after ensures after[code] == |BySet(rows + [r], code)| {
      BySetSnoc(rows, r, code);
      if BySet(rows, code) != [] {
        SetListed(rows, code);
      }
    }
  }

  /** How many rows of the answer each set has. */
  method CountSets(rows: seq<Card>) returns (inSet: map<string, nat>)
    ensures Counts(inSet, rows)
  {
    inSet := map[];
    for i := 0 to |rows|
      invariant Counts(inSet, rows[..i])
    {
      var r := rows[i];
      CountsSnoc(inSet, rows[..i], r);
      assert rows[..i + 1] == rows[..i] + [r];
      inSet := inSet[r.set_ := (if r.set_ in inSet then inSet[r.set_] else 0) + 1];
    }
    assert rows[..|rows|] == rows;
  }

  /** The rows in `done` have been asked about: marked where not held, named where outside the class and held. */
  ghost predicate Excepted(t: Table, cards: seq<Card>, positives: set<string>, start: set<string>, held: Card -> bool,
                           unindexed: set<string>, done: set<Card>)
  {
    && t.oracles == map[] && OnlyNotRows(t)
    && unindexed == start + NotHeld(done, positives, held)
    && forall y, n :: Has(t, NotRowKind, y, n) <==> IsException(done, positives, unindexed, y, n)
  }

  /** One row more, `yes` when the search is found to hold it. */
  lemma ExceptedStep(t: Table, u: Table, cards: seq<Card>, positives: set<string>, start: set<string>, held: Card -> bool,
                     before: set<string>, after: set<string>, done: set<Card>, c: Card, yes: bool)
    requires WellFormed(cards) && c in cards && (forall d | d in done :: d in cards)
    requires Excepted(t, cards, positives, start, held, before, done) && u.oracles == map[] && OnlyNotRows(u)
    requires c.id !in positives ==> (yes <==> c.id !in before && held(c)) && after == before + if yes then {} else {c.id}
    requires c.id in positives ==> !yes && after == before
    requires forall y, n :: Has(u, NotRowKind, y, n) <==> Has(t, NotRowKind, y, n) || (yes && y == LangKey(c) && n == c.number)
    ensures Excepted(u, cards, positives, start, held, after, done + {c})
  {
    assert after == start + NotHeld(done + {c}, positives, held) by {
      forall id ensures id in NotHeld(done + {c}, positives, held) <==>
                        id in NotHeld(done, positives, held) || (id == c.id && c.id !in positives && !held(c))
      {
      }
    }
    forall y, n ensures Has(u, NotRowKind, y, n) <==> IsException(done + {c}, positives, after, y, n) {
      if IsException(done, positives, before, y, n) {
        var d :| d in done && d.id !in positives && d.id !in before && y == LangKey(d) && n == d.number;
        assert d in done + {c} && d.id !in after;
      }
      if IsException(done + {c}, positives, after, y, n) {
        var d :| d in done + {c} && d.id !in positives && d.id !in after && y == LangKey(d) && n == d.number;
        assert d == c || d in done;
      }
    }
  }

  /** One row of a whole set: where the class does not hold it and the search does, a `not-row`. */
  method NameException(c: Card, cards: seq<Card>, positives: set<string>, entries: Entries, search: Search,
                       ghost start: set<string>, ghost done: set<Card>)
    requires WellFormed(cards) && c in cards && (forall d | d in done :: d in cards)
    requires Excepted(entries.Contents(), cards, positives, start, search.indexed, search.unindexed, done)
    modifies entries, search
    ensures entries.sets == old(entries.sets)
    ensures Excepted(entries.Contents(), cards, positives, start, search.indexed, search.unindexed, done + {c})
  {
    ghost var t, before := entries.Contents(), search.unindexed;
    var yes := false;
    if c.id !in positives {
      yes := search.IsIndexed(c);
      if yes {
        entries.Add(NotRowKind, LangKey(c), c.number);
      }
    }
    ExceptedStep(t, entries.Contents(), cards, positives, start, search.indexed, before, search.unindexed, done, c, yes);
  }

  lemma ElemsUpTo(before: set<Card>, all: seq<Card>, i: nat)
    requires i < |all|
    ensures before + Elems(all[..i]) + {all[i]} == before + Elems(all[..i + 1])
    ensures all[i] in all && forall d | d in Elems(all[..i]) :: d in all
  {
    assert all[..i + 1] == all[..i] + [all[i]];
  }

  lemma OfSetsAdd(cards: seq<Card>, sets: set<string>, code: string)
    ensures OfSets(cards, sets + {code}) == OfSets(cards, sets) + Elems(BySet(cards, code))
  {
  }

  lemma SameNumbers(t: Table, u: Table, cards: seq<Card>, positives: set<string>, start: set<string>, held: Card -> bool,
                    unindexed: set<string>, done: set<Card>)
    requires Excepted(t, cards, positives, start, held, unindexed, done) && u.oracles == t.oracles && u.numbers == t.numbers
    ensures Excepted(u, cards, positives, start, held, unindexed, done)
  {
    forall y, n ensures Has(u, NotRowKind, y, n) <==> Has(t, NotRowKind, y, n) { }
  }

  /** One whole set. */
  method NameSet(code: string, cards: seq<Card>, positives: set<string>, entries: Entries, search: Search,
                 ghost start: set<string>)
    requires WellFormed(cards) && code !in entries.sets
    requires Excepted(entries.Contents(), cards, positives, start, search.indexed, search.unindexed, OfSets(cards, entries.sets))
    modifies entries, search
    ensures entries.sets == old(entries.sets) + {code}
    ensures Excepted(entries.Contents(), cards, positives, start, search.indexed, search.unindexed, OfSets(cards, entries.sets))
  {
    ghost var t, before := entries.Contents(), OfSets(cards, entries.sets);
    entries.sets := entries.sets + {code};
    SameNumbers(t, entries.Contents(), cards, positives, start, search.indexed, search.unindexed, before);
    var all := BySet(cards, code);
    assert before + Elems(all[..0]) == before;
    for i := 0 to |all|
      invariant entries.sets == old(entries.sets) + {code}
      invariant Excepted(entries.Contents(), cards, positives, start, search.indexed, search.unindexed,
                         before + Elems(all[..i])) == true
    {
      ElemsUpTo(before, all, i);
      NameException(all[i], cards, positives, entries, search, start, before + Elems(all[..i]));
    }
    assert all[..|all|] == all;
    OfSetsAdd(cards, old(entries.sets), code);
  }

  method NameIfWhole(code: string, whole: bool, cards: seq<Card>, positives: set<string>, entries: Entries, search: Search,
                     ghost start: set<string>)
    requires WellFormed(cards) && code !in entries.sets
    requires Excepted(entries.Contents(), cards, positives, start, search.indexed, search.unindexed, OfSets(cards, entries.sets))
    modifies entries, search
    ensures entries.sets == old(entries.sets) + if whole then {code} else {}
    ensures Excepted(entries.Contents(), cards, positives, start, search.indexed, search.unindexed, OfSets(cards, entries.sets))
  {
    if whole {
      NameSet(code, cards, positives, entries, search, start);
    }
  }

  /** The sets listed whole: `whole` decides from a set's rows in the answer and in the corpus. */
  ghost predicate WholeSets(sets: set<string>, rows: seq<Card>, cards: seq<Card>, whole: (nat, nat) -> bool) {
    forall code :: code in sets <==>
      (exists r | r in rows :: r.set_ == code) && whole(|BySet(rows, code)|, |BySet(cards, code)|)
  }

  lemma NoneExcepted(cards: seq<Card>, positives: set<string>, start: set<string>, held: Card -> bool)
    ensures Excepted(EMPTY, cards, positives, start, held, start, OfSets(cards, {}))
  {
    assert OfSets(cards, {}) == {};
  }

  lemma WholeByCount(sets: set<string>, inSet: map<string, nat>, rows: seq<Card>, cards: seq<Card>, whole: (nat, nat) -> bool)
    requires Counts(inSet, rows) && sets <= inSet.Keys
    requires forall code | code in inSet.Keys :: code in sets <==> whole(inSet[code], |BySet(cards, code)|)
    ensures WholeSets(sets, rows, cards, whole)
  {
  }

  /** The first pass of printingList. */
  method NameSets(rows: seq<Card>, cards: seq<Card>, whole: (nat, nat) -> bool, entries: Entries, search: Search)
    requires WellFormed(cards) && entries.Contents() == EMPTY
    modifies entries, search
    ensures WholeSets(entries.sets, rows, cards, whole)
    ensures Excepted(entries.Contents(), cards, Ids(rows), old(search.unindexed), search.indexed, search.unindexed,
                     OfSets(cards, entries.sets))
  {
    var inSet := CountSets(rows);
    NoneExcepted(cards, Ids(rows), search.unindexed, search.indexed);
    var left := inSet.Keys;
    while left != {}
      invariant left <= inSet.Keys && entries.sets <= inSet.Keys - left
      invariant forall code | code in inSet.Keys - left :: code in entries.sets <==> whole(inSet[code], |BySet(cards, code)|)
      invariant Excepted(entries.Contents(), cards, Ids(rows), old(search.unindexed), search.indexed, search.unindexed,
                         OfSets(cards, entries.sets)) == true
      decreases |left|
    {
      var code :| code in left;
      left := left - {code};
      NameIfWhole(code, whole(inSet[code], |BySet(cards, code)|), cards, Ids(rows), entries, search, old(search.unindexed));
    }
    WholeByCount(entries.sets, inSet, rows, cards, whole);
  }

  /** The rows of one printing, each named by itself. */
  method NameRows(rows: seq<Card>, r: Card, entries: Entries)
    modifies entries
    ensures entries.sets == old(entries.sets) && entries.oracles == old(entries.oracles)
    ensures forall k, y, n :: Has(entries.Contents(), k, y, n) <==>
              || Has(old(entries.Contents()), k, y, n)
              || (k == RowKind && exists x | x in rows :: x.set_ == r.set_ && x.number == r.number && y == LangKey(x) && n == x.number)
  {
    for i := 0 to |rows|
      invariant entries.sets == old(entries.sets) && entries.oracles == old(entries.oracles)
      invariant forall k, y, n :: Has(entries.Contents(), k, y, n) <==>
                  || Has(old(entries.Contents()), k, y, n)
                  || (k == RowKind && exists x | x in rows[..i] :: x.set_ == r.set_ && x.number == r.number && y == LangKey(x) && n == x.number)
    {
      assert rows[..i + 1] == rows[..i] + [rows[i]];
      if rows[i].set_ == r.set_ && rows[i].number == r.number {
        entries.Add(RowKind, LangKey(rows[i]), rows[i].number);
      }
    }
    assert rows[..|rows|] == rows;
  }

  /** One printing more: its number where it is whole, and else its rows in the class. */
  lemma PrintingStep(t: Table, u: Table, rows: seq<Card>, cards: seq<Card>, unindexed: set<string>, keys: set<string>, r: Card)
    requires WellFormed(cards) && Drawn(rows, cards) && r in rows && r.set_ !in t.sets
    requires PrintingTable(t, rows, cards, unindexed, keys) && u.sets == t.sets && u.oracles == t.oracles
    requires forall k, y, n :: Has(u, k, y, n) <==>
               || Has(t, k, y, n)
               || (if WholePrinting(cards, Ids(rows), r.set_, r.number) then k == PrintKind && y == r.set_ && n == r.number
                   else k == RowKind && exists x | x in rows :: x.set_ == r.set_ && x.number == r.number && y == LangKey(x) && n == x.number)
    ensures PrintingTable(u, rows, cards, unindexed, keys + {PrintKey(r)})
  {
    forall x | x in rows ensures PrintKey(x) == PrintKey(r) <==> x.set_ == r.set_ && x.number == r.number {
      if PrintKey(x) == PrintKey(r) {
        TabKeyInjective(x.set_, x.number, r.set_, r.number);
      }
    }
    PrintsStep(t, u, rows, cards, keys, r);
    RowsStep(t, u, rows, cards, keys, r);
  }

  lemma PrintsStep(t: Table, u: Table, rows: seq<Card>, cards: seq<Card>, keys: set<string>, r: Card)
    requires r in rows && r.set_ !in t.sets && u.sets == t.sets
    requires forall x | x in rows :: PrintKey(x) == PrintKey(r) <==> x.set_ == r.set_ && x.number == r.number
    requires forall y, n :: Has(t, PrintKind, y, n) <==> IsPrint(rows, cards, t.sets, keys, y, n)
    requires forall y, n :: Has(u, PrintKind, y, n) <==>
               Has(t, PrintKind, y, n) || (WholePrinting(cards, Ids(rows), r.set_, r.number) && y == r.set_ && n == r.number)
    ensures forall y, n :: Has(u, PrintKind, y, n) <==> IsPrint(rows, cards, u.sets, keys + {PrintKey(r)}, y, n)
  {
    forall y, n ensures Has(u, PrintKind, y, n) <==> IsPrint(rows, cards, u.sets, keys + {PrintKey(r)}, y, n) {
      if IsPrint(rows, cards, t.sets, keys, y, n) {
        var x :| x in rows && x.set_ !in t.sets && PrintKey(x) in keys && y == x.set_ && n == x.number
                 && WholePrinting(cards, Ids(rows), x.set_, x.number);
        assert PrintKey(x) in keys + {PrintKey(r)};
      }
    }
  }

  lemma RowsStep(t: Table, u: Table, rows: seq<Card>, cards: seq<Card>, keys: set<string>, r: Card)
    requires r in rows && r.set_ !in t.sets && u.sets == t.sets
    requires forall x | x in rows :: PrintKey(x) == PrintKey(r) <==> x.set_ == r.set_ && x.number == r.number
    requires forall y, n :: Has(t, RowKind, y, n) <==> IsRow(rows, cards, t.sets, keys, y, n)
    requires forall y, n :: Has(u, RowKind, y, n) <==>
               || Has(t, RowKind, y, n)
               || (&& !WholePrinting(cards, Ids(rows), r.set_, r.number)
                   && exists x | x in rows :: x.set_ == r.set_ && x.number == r.number && y == LangKey(x) && n == x.number)
    ensures forall y, n :: Has(u, RowKind, y, n) <==> IsRow(rows, cards, u.sets, keys + {PrintKey(r)}, y, n)
  {
    forall y, n ensures Has(u, RowKind, y, n) <==> IsRow(rows, cards, u.sets, keys + {PrintKey(r)}, y, n) {
      if IsRow(rows, cards, t.sets, keys, y, n) {
        var x :| x in rows && x.set_ !in t.sets && PrintKey(x) in keys && y == LangKey(x) && n == x.number
                 && !WholePrinting(cards, Ids(rows), x.set_, x.number);
        assert PrintKey(x) in keys + {PrintKey(r)};
      }
    }
  }

  /** A row outside the whole sets: its printing's number, or the printing's rows of the answer. */
  method NamePrinting(r: Card, rows: seq<Card>, cards: seq<Card>, entries: Entries, ghost unindexed: set<string>,
                      ghost keys: set<string>)
    requires WellFormed(cards) && Drawn(rows, cards) && r in rows && r.set_ !in entries.sets
    requires PrintingTable(entries.Contents(), rows, cards, unindexed, keys)
    modifies entries
    ensures entries.sets == old(entries.sets)
    ensures PrintingTable(entries.Contents(), rows, cards, unindexed, keys + {PrintKey(r)})
  {
    ghost var t := entries.Contents();
    var key := PrintKey(r);
    forall x | x in cards ensures PrintKey(x) == key <==> x.set_ == r.set_ && x.number == r.number {
      if PrintKey(x) == key {
        TabKeyInjective(x.set_, x.number, r.set_, r.number);
      }
    }
    var all := ByPrint(cards, key);
    assert r in all;
    if |all| > 0 && forall c | c in all :: c.id in Ids(rows) {
      assert WholePrinting(cards, Ids(rows), r.set_, r.number);
      entries.Add(PrintKind, r.set_, r.number);
    } else {
      assert !WholePrinting(cards, Ids(rows), r.set_, r.number);
      NameRows(rows, r, entries);
    }
    PrintingStep(t, entries.Contents(), rows, cards, unindexed, keys, r);
  }

  /** A printing none of whose rows in the class lies outside the whole sets adds nothing. */
  lemma KeysEnough(t: Table, rows: seq<Card>, cards: seq<Card>, unindexed: set<string>, keys: set<string>, more: set<string>)
    requires PrintingTable(t, rows, cards, unindexed, keys)
    requires forall r | r in rows && r.set_ !in t.sets :: PrintKey(r) in keys <==> PrintKey(r) in more
    ensures PrintingTable(t, rows, cards, unindexed, more)
  {
    forall y, n
      ensures IsPrint(rows, cards, t.sets, keys, y, n) <==> IsPrint(rows, cards, t.sets, more, y, n)
      ensures IsRow(rows, cards, t.sets, keys, y, n) <==> IsRow(rows, cards, t.sets, more, y, n)
    {
    }
  }

  /** The second pass: a printing wholly in the class by its number, any other row by row. */
  method NameNumbers(rows: seq<Card>, cards: seq<Card>, entries: Entries, ghost unindexed: set<string>)
    requires WellFormed(cards) && Drawn(rows, cards)
    requires PrintingTable(entries.Contents(), rows, cards, unindexed, {})
    modifies entries
    ensures entries.sets == old(entries.sets)
    ensures PrintingTable(entries.Contents(), rows, cards, unindexed, Keys(rows))
  {
    var seen: set<string> := {};
    for i := 0 to |rows|
      invariant entries.sets == old(entries.sets)
      invariant PrintingTable(entries.Contents(), rows, cards, unindexed, seen)
      invariant seen <= Keys(rows)
      invariant forall r | r in rows[..i] :: PrintKey(r) in seen || r.set_ in entries.sets
    {
      var r := rows[i];
      assert rows[..i + 1] == rows[..i] + [r];
      if r.set_ in entries.sets {
        continue;
      }
      var key := PrintKey(r);
      if key in seen {
        continue;
      }
      NamePrinting(r, rows, cards, entries, unindexed, seen);
      seen := seen + {key};
    }
    assert rows[..|rows|] == rows;
    KeysEnough(entries.Contents(), rows, cards, unindexed, seen, Keys(rows));
  }

  /**
   * printingList. With one row to a (set, number, language) and an answer drawn from the corpus, the
   * self-check never stops it, whatever share of a set makes it whole. It marks unindexed the rows of whole
   * sets that are outside the class and not held, and no other.
   */
  method PrintingList(rows: seq<Card>, cards: seq<Card>, whole: (nat, nat) -> bool, search: Search)
    returns (entries: Entries, ok: bool)
    requires WellFormed(cards) && Drawn(rows, cards)
    modifies search
    ensures fresh(entries)
    ensures ok <==> rows != []
    ensures !ok ==> search.unindexed == old(search.unindexed)
    ensures ok ==> && WholeSets(entries.sets, rows, cards, whole)
                   && search.unindexed == old(search.unindexed) + NotHeld(OfSets(cards, entries.sets), Ids(rows), search.indexed)
                   && PrintingTable(entries.Contents(), rows, cards, search.unindexed, Keys(rows))
    ensures forall c | c in cards && c.id in search.unindexed && c.id !in old(search.unindexed) :: !search.indexed(c)
    ensures ok ==> Exact(entries.Contents(), cards, search.unindexed, Ids(rows), _ => false)
    ensures ok ==> forall c | c in cards && search.indexed(c) && c.id !in old(search.unindexed) ::
                     Tagged(entries.Contents(), _ => false, c) <==> c.id in Ids(rows)
  {
    entries := new Entries();
    if rows == [] {
      return entries, false;
    }
    NameSets(rows, cards, whole, entries, search);
    NameNumbers(rows, cards, entries, search.unindexed);
    PrintingExact(entries.Contents(), rows, cards, search.unindexed);
    ok := SelfCheck(cards, entries, search.unindexed, Ids(rows), _ => false);
  }
}
