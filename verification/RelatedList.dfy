/**
 * The table of `is:related` (relatedList of scripts/generate-is-lists.ts): a class of cards, named by oracle
 * id where a rule does not give them, with the printings it wrongly tags left out one by one.
 */
module RelatedList {
  import opened Wrappers
  import opened IsLists

  /** The rows of the printings an answer names. */
  function OfPrintings(cards: seq<Card>, keys: set<string>): set<string> {
    set c | c in cards && PrintKey(c) in keys :: c.id
  }

  /** The rule of `is:related`: the row's first oracle id is among these. */
  function HasParts(withParts: set<string>): Card -> bool {
    (c: Card) => c.oracles != [] && c.oracles[0] in withParts
  }

  function WithParts(cards: seq<Card>): set<string> {
    set c | c in cards && c.hasParts && c.oracles != [] :: c.oracles[0]
  }

  /** What the rule gives: the rows of a card some row of which has parts. */
  lemma RuleGives(cards: seq<Card>, c: Card)
    ensures HasParts(WithParts(cards))(c) <==>
            exists d | d in cards :: d.hasParts && d.oracles != [] && c.oracles != [] && c.oracles[0] == d.oracles[0]
  {
  }

  /** The cards the rule does not give and the class holds, by first oracle id. */
  function NamedCards(cards: seq<Card>, keys: set<string>, rule: Card -> bool): set<string> {
    set c | c in cards && PrintKey(c) in keys && !rule(c) && c.oracles != [] :: c.oracles[0]
  }

  /**
   * What the exceptions are found from: the corpus, the class's printings, the cards named, the rule, the rows
   * marked at the start, and the search.
   */
  datatype Asking = Asking(cards: seq<Card>, keys: set<string>, named: set<string>, rule: Card -> bool,
                           start: set<string>, held: Card -> bool)

  function AskingOf(cards: seq<Card>, keys: set<string>, start: set<string>, held: Card -> bool): Asking {
    var rule := HasParts(WithParts(cards));
    Asking(cards, keys, NamedCards(cards, keys, rule), rule, start, held)
  }

  /** The table's answer for a row before any `not`: the cards named, and the rule. */
  predicate BaseTagged(q: Asking, c: Card) {
    (exists id | id in c.oracles :: id in q.named) || q.rule(c)
  }

  /** The first row of its printing that the table tags, of a printing outside the class. */
  predicate Asks(q: Asking, i: nat)
    requires i < |q.cards|
  {
    && PrintKey(q.cards[i]) !in q.keys && BaseTagged(q, q.cards[i])
    && forall j | 0 <= j < i && PrintKey(q.cards[j]) == PrintKey(q.cards[i]) :: !BaseTagged(q, q.cards[j])
  }

  /** The row asked about on behalf of a printing: its first English one, or the row at hand. */
  function Probe(all: seq<Card>, c: Card): (r: Card)
    ensures r == c || (r in all && r.lang == "en")
  {
    if all == [] then c else if all[0].lang == "en" then all[0] else Probe(all[1..], c)
  }

  lemma {:induction false} ProbeIs(all: seq<Card>, c: Card, i: nat)
    requires i <= |all| && (forall j | 0 <= j < i :: all[j].lang != "en") && (i < |all| ==> all[i].lang == "en")
    ensures Probe(all, c) == if i < |all| then all[i] else c
  {
    if i > 0 {
      assert forall j | 0 <= j < i - 1 :: all[1..][j] == all[j + 1];
      ProbeIs(all[1..], c, i - 1);
    }
  }

  predicate ProbeHeld(q: Asking, c: Card) {
    var probe := Probe(ByPrint(q.cards, PrintKey(c)), c);
    probe.id !in q.start && q.held(probe)
  }

  /** One of the first `n` rows asks for the printing, and the row asked about is held, or is not. */
  predicate AskedWith(q: Asking, n: nat, held: bool, key: string)
    requires n <= |q.cards|
  {
    exists i: nat | i < n :: Asks(q, i) && ProbeHeld(q, q.cards[i]) == held && PrintKey(q.cards[i]) == key
  }

  /** The rows of the printings asked about in vain by the first `n` rows. */
  ghost function Marked(q: Asking, n: nat): set<string>
    requires n <= |q.cards|
  {
    set x | x in q.cards && AskedWith(q, n, false, PrintKey(x)) :: x.id
  }

  /**
   * relatedList's table, and the rows marked, once the first `n` rows have asked: a `not` for each printing found
   * held, and the rest of them marked, no more and no fewer.
   */
  ghost predicate RelatedTable(q: Asking, t: Table, unindexed: set<string>, n: nat)
    requires n <= |q.cards|
  {
    && t.sets == {} && t.oracles.Keys == q.named
    && NotsAre(q, t, n)
    && unindexed == q.start + Marked(q, n)
  }

  ghost predicate NotsAre(q: Asking, t: Table, n: nat)
    requires n <= |q.cards|
  {
    && (forall k, y, m | Has(t, k, y, m) :: k == NotKind)
    && (forall y, m :: Has(t, NotKind, y, m) <==> AskedWith(q, n, true, TabKey(y, m)))
  }

  /** A `not` of the row's printing more, where `yes`. */
  ghost predicate AddsNot(t: Table, u: Table, c: Card, yes: bool) {
    forall k, y, m :: Has(u, k, y, m) <==> Has(t, k, y, m) || (yes && k == NotKind && y == c.set_ && m == c.number)
  }

  /** The class's rows the table has nothing to name by: no oracle id, and the search is taken to hold them. */
  ghost predicate AllNameable(cards: seq<Card>, keys: set<string>, unindexed: set<string>) {
    forall c | c in cards && PrintKey(c) in keys && c.oracles == [] :: c.id in unindexed
  }

  lemma {:induction false} FirstAsks(q: Asking, i: nat) returns (j: nat)
    requires i < |q.cards| && PrintKey(q.cards[i]) !in q.keys && BaseTagged(q, q.cards[i])
    ensures j <= i && PrintKey(q.cards[j]) == PrintKey(q.cards[i]) && Asks(q, j)
    decreases i
  {
    if Asks(q, i) {
      j := i;
    } else {
      var k :| 0 <= k < i && PrintKey(q.cards[k]) == PrintKey(q.cards[i]) && BaseTagged(q, q.cards[k]);
      j := FirstAsks(q, k);
    }
  }

  /** Of a printing not asked for yet: what the table says of its rows is what it said at first, and none is marked since. */
  lemma NotAskedYet(q: Asking, t: Table, unindexed: set<string>, n: nat, c: Card)
    requires WellFormed(q.cards) && n <= |q.cards| && RelatedTable(q, t, unindexed, n) && c in q.cards
    requires !AskedWith(q, n, false, PrintKey(c))
    ensures c.id in unindexed <==> c.id in q.start
    ensures !AskedWith(q, n, true, PrintKey(c)) ==> (Tagged(t, q.rule, c) <==> BaseTagged(q, c))
  {
    MarkedIs(q, n, c);
    TaggedIs(q, t, unindexed, n, c);
  }

  lemma TaggedIs(q: Asking, t: Table, unindexed: set<string>, n: nat, c: Card)
    requires n <= |q.cards| && RelatedTable(q, t, unindexed, n)
    ensures Tagged(t, q.rule, c) <==> !AskedWith(q, n, true, PrintKey(c)) && BaseTagged(q, c)
  {
    assert Has(t, NotKind, c.set_, c.number) <==> AskedWith(q, n, true, PrintKey(c));
  }

  lemma MarkedIs(q: Asking, n: nat, c: Card)
    requires WellFormed(q.cards) && n <= |q.cards| && c in q.cards
    ensures c.id in Marked(q, n) <==> AskedWith(q, n, false, PrintKey(c))
  {
    if c.id in Marked(q, n) {
      var x :| x in q.cards && AskedWith(q, n, false, PrintKey(x)) && x.id == c.id;
      assert x == c;
    }
  }

  /** Rows of the class are not marked, and their verdict is the rule's and the named cards'. */
  lemma ClassRow(q: Asking, t: Table, unindexed: set<string>, n: nat, c: Card)
    requires WellFormed(q.cards) && n <= |q.cards| && RelatedTable(q, t, unindexed, n) && c in q.cards
    requires PrintKey(c) in q.keys
    ensures c.id in unindexed <==> c.id in q.start
    ensures Tagged(t, q.rule, c) <==> BaseTagged(q, c)
  {
    NotAskedYet(q, t, unindexed, n, c);
  }

  /** A tagged row of another printing is left out by its number, or marked. */
  lemma OtherRow(q: Asking, t: Table, unindexed: set<string>, c: Card)
    requires WellFormed(q.cards) && RelatedTable(q, t, unindexed, |q.cards|) && c in q.cards
    requires PrintKey(c) !in q.keys && c.id !in unindexed
    ensures !Tagged(t, q.rule, c)
  {
    TaggedIs(q, t, unindexed, |q.cards|, c);
    MarkedIs(q, |q.cards|, c);
    if BaseTagged(q, c) {
      SomeoneAsks(q, c);
    }
  }

  lemma SomeoneAsks(q: Asking, c: Card)
    requires c in q.cards && PrintKey(c) !in q.keys && BaseTagged(q, c)
    ensures AskedWith(q, |q.cards|, true, PrintKey(c)) || AskedWith(q, |q.cards|, false, PrintKey(c))
  {
    var i: nat :| i < |q.cards| && q.cards[i] == c;
    var j := FirstAsks(q, i);
    assert AskedWith(q, |q.cards|, ProbeHeld(q, q.cards[j]), PrintKey(c));
  }

  /** Of the final table: a row of the class is tagged exactly when it has an oracle id; no other row unmarked is. */
  lemma RelatedRow(q: Asking, t: Table, unindexed: set<string>, c: Card)
    requires WellFormed(q.cards) && RelatedTable(q, t, unindexed, |q.cards|) && c in q.cards
    requires q == AskingOf(q.cards, q.keys, q.start, q.held)
    ensures PrintKey(c) in q.keys ==> (Tagged(t, q.rule, c) <==> c.oracles != []) && (c.id in unindexed <==> c.id in q.start)
    ensures PrintKey(c) !in q.keys && c.id !in unindexed ==> !Tagged(t, q.rule, c)
  {
    if PrintKey(c) in q.keys {
      ClassRow(q, t, unindexed, |q.cards|, c);
      if c.oracles != [] && !q.rule(c) {
        assert c.oracles[0] in q.named && c.oracles[0] in c.oracles;
      }
    } else if c.id !in unindexed {
      OtherRow(q, t, unindexed, c);
    }
  }

  /** The table relatedList builds is exact if and only if every row of the class has something to be named by. */
  lemma RelatedExact(q: Asking, t: Table, unindexed: set<string>)
    requires WellFormed(q.cards) && RelatedTable(q, t, unindexed, |q.cards|)
    requires q == AskingOf(q.cards, q.keys, q.start, q.held)
    ensures Exact(t, q.cards, unindexed, OfPrintings(q.cards, q.keys), q.rule) <==> AllNameable(q.cards, q.keys, q.start)
  {
    forall c | c in q.cards
      ensures c.id in OfPrintings(q.cards, q.keys) <==> PrintKey(c) in q.keys
      ensures PrintKey(c) in q.keys ==> (Tagged(t, q.rule, c) <==> c.oracles != []) && (c.id in unindexed <==> c.id in q.start)
      ensures PrintKey(c) !in q.keys && c.id !in unindexed ==> !Tagged(t, q.rule, c)
    {
      InPrintings(q.cards, q.keys, c);
      RelatedRow(q, t, unindexed, c);
    }
  }

  lemma InPrintings(cards: seq<Card>, keys: set<string>, c: Card)
    requires WellFormed(cards) && c in cards
    ensures c.id in OfPrintings(cards, keys) <==> PrintKey(c) in keys
  {
    if c.id in OfPrintings(cards, keys) {
      var d :| d in cards && PrintKey(d) in keys && d.id == c.id;
      assert d == c;
    }
  }

  const NAMELESS := Card("id", "set", "1", "en", "name", [], false)

  /** A corpus of one row of the class without an oracle id: the table relatedList builds is not exact for it. */
  lemma NamelessRowStops(t: Table, held: Card -> bool)
    requires RelatedTable(AskingOf([NAMELESS], {PrintKey(NAMELESS)}, {}, held), t, {}, 1)
    ensures WellFormed([NAMELESS])
    ensures !Exact(t, [NAMELESS], {}, OfPrintings([NAMELESS], {PrintKey(NAMELESS)}), HasParts(WithParts([NAMELESS])))
  {
    var cards, keys := [NAMELESS], {PrintKey(NAMELESS)};
    assert NAMELESS in cards && PrintKey(NAMELESS) in keys;
    RelatedExact(AskingOf(cards, keys, {}, held), t, {});
  }

  /** The cards the rule does not give: by oracle id. */
  method NameCards(cards: seq<Card>, positives: set<string>, rule: Card -> bool, entries: Entries, ghost keys: set<string>)
    requires WellFormed(cards) && positives == OfPrintings(cards, keys) && entries.Contents() == EMPTY
    modifies entries
    ensures entries.sets == {} && entries.numbers == map[]
    ensures entries.oracles.Keys == NamedCards(cards, keys, rule)
  {
    for i := 0 to |cards|
      invariant entries.sets == {} && entries.numbers == map[]
      invariant entries.oracles.Keys == NamedCards(cards[..i], keys, rule)
    {
      var c := cards[i];
      assert cards[..i + 1] == cards[..i] + [c];
      InPrintings(cards, keys, c);
      if c.id in positives && !rule(c) && c.oracles != [] {
        entries.oracles := entries.oracles[c.oracles[0] := c.name];
      }
    }
    assert cards[..|cards|] == cards;
  }

  /** The loop asks on behalf of a row exactly where the row asks. */
  lemma AsksIs(q: Asking, t: Table, unindexed: set<string>, i: nat)
    requires WellFormed(q.cards) && i < |q.cards| && RelatedTable(q, t, unindexed, i)
    ensures var key := PrintKey(q.cards[i]);
            Asks(q, i) <==>
            && key !in q.keys && Tagged(t, q.rule, q.cards[i])
            && !AskedWith(q, i, true, key) && !AskedWith(q, i, false, key)
  {
    var c := q.cards[i];
    if PrintKey(c) !in q.keys && BaseTagged(q, c) {
      var j := FirstAsks(q, i);
      assert j < i ==> AskedWith(q, i, ProbeHeld(q, q.cards[j]), PrintKey(c));
    }
    if !AskedWith(q, i, true, PrintKey(c)) && !AskedWith(q, i, false, PrintKey(c)) {
      NotAskedYet(q, t, unindexed, i, c);
    }
  }

  /** The printings asked about by the first `n` rows. */
  ghost predicate AskedKeys(q: Asking, n: nat, asked: set<string>)
    requires n <= |q.cards|
  {
    forall key :: key in asked <==> AskedWith(q, n, true, key) || AskedWith(q, n, false, key)
  }

  lemma AskedKeysGrow(q: Asking, i: nat, asked: set<string>)
    requires i < |q.cards| && Asks(q, i) && AskedKeys(q, i, asked)
    ensures AskedKeys(q, i + 1, asked + {PrintKey(q.cards[i])})
  {
    forall key
      ensures key in asked + {PrintKey(q.cards[i])} <==> AskedWith(q, i + 1, true, key) || AskedWith(q, i + 1, false, key)
    {
      AskedStep(q, i, true, key);
      AskedStep(q, i, false, key);
    }
  }

  /** A row that does not ask changes nothing. */
  lemma NoneAsked(q: Asking, t: Table, unindexed: set<string>, i: nat)
    requires i < |q.cards| && RelatedTable(q, t, unindexed, i) && !Asks(q, i)
    ensures RelatedTable(q, t, unindexed, i + 1)
  {
    AskedStay(q, i);
    assert Marked(q, i + 1) == Marked(q, i);
  }

  lemma AskedStay(q: Asking, i: nat)
    requires i < |q.cards| && !Asks(q, i)
    ensures forall held, key :: AskedWith(q, i + 1, held, key) <==> AskedWith(q, i, held, key)
  {
    forall held, key ensures AskedWith(q, i + 1, held, key) <==> AskedWith(q, i, held, key) {
      if AskedWith(q, i, held, key) {
        var j: nat :| j < i && Asks(q, j) && ProbeHeld(q, q.cards[j]) == held && PrintKey(q.cards[j]) == key;
        assert j < i + 1;
      }
    }
  }

  lemma AskedKeysStay(q: Asking, i: nat, asked: set<string>)
    requires i < |q.cards| && !Asks(q, i) && AskedKeys(q, i, asked)
    ensures AskedKeys(q, i + 1, asked)
  {
    AskedStay(q, i);
  }

  /** A row that asks: its printing gets a `not`, or its rows are marked. */
  lemma OneAsked(q: Asking, t: Table, u: Table, before: set<string>, after: set<string>, i: nat)
    requires WellFormed(q.cards) && i < |q.cards| && RelatedTable(q, t, before, i) && Asks(q, i)
    requires u.sets == t.sets && u.oracles == t.oracles && AddsNot(t, u, q.cards[i], ProbeHeld(q, q.cards[i]))
    requires after == before + if ProbeHeld(q, q.cards[i]) then {} else Ids(ByPrint(q.cards, PrintKey(q.cards[i])))
    ensures RelatedTable(q, u, after, i + 1)
  {
    MarkedStep(q, i);
    NotsGrow(q, t, u, i);
  }

  lemma NotsGrow(q: Asking, t: Table, u: Table, i: nat)
    requires WellFormed(q.cards) && i < |q.cards| && Asks(q, i)
    requires NotsAre(q, t, i) && AddsNot(t, u, q.cards[i], ProbeHeld(q, q.cards[i]))
    ensures NotsAre(q, u, i + 1)
  {
    NamesOnePrinting(q.cards, q.cards[i]);
    forall key
      ensures AskedWith(q, i + 1, true, key) <==>
              AskedWith(q, i, true, key) || (ProbeHeld(q, q.cards[i]) && key == PrintKey(q.cards[i]))
    {
      AskedStep(q, i, true, key);
    }
    NotsStep(q, t, u, i);
  }

  lemma NamesOnePrinting(cards: seq<Card>, c: Card)
    requires WellFormed(cards) && c in cards
    ensures forall y, m :: TabKey(y, m) == PrintKey(c) <==> y == c.set_ && m == c.number
  {
    forall y, m ensures TabKey(y, m) == PrintKey(c) <==> y == c.set_ && m == c.number {
      if TabKey(y, m) == PrintKey(c) {
        TabKeySplits(c.set_, c.number, y, m);
      }
    }
  }

  lemma NotsStep(q: Asking, t: Table, u: Table, i: nat)
    requires i < |q.cards| && NotsAre(q, t, i) && AddsNot(t, u, q.cards[i], ProbeHeld(q, q.cards[i]))
    requires forall y, m :: TabKey(y, m) == PrintKey(q.cards[i]) <==> y == q.cards[i].set_ && m == q.cards[i].number
    requires forall key :: AskedWith(q, i + 1, true, key) <==>
               AskedWith(q, i, true, key) || (ProbeHeld(q, q.cards[i]) && key == PrintKey(q.cards[i]))
    ensures NotsAre(q, u, i + 1)
  {
  }

  lemma AskedStep(q: Asking, i: nat, held: bool, key: string)
    requires i < |q.cards| && Asks(q, i)
    ensures AskedWith(q, i + 1, held, key) <==>
            AskedWith(q, i, held, key) || (held == ProbeHeld(q, q.cards[i]) && key == PrintKey(q.cards[i]))
  {
    if AskedWith(q, i, held, key) {
      var j: nat :| j < i && Asks(q, j) && ProbeHeld(q, q.cards[j]) == held && PrintKey(q.cards[j]) == key;
      assert j < i + 1;
    }
  }

  lemma MarkedStep(q: Asking, i: nat)
    requires i < |q.cards| && Asks(q, i)
    ensures Marked(q, i + 1) == Marked(q, i) + if ProbeHeld(q, q.cards[i]) then {} else Ids(ByPrint(q.cards, PrintKey(q.cards[i])))
  {
    forall x | x in q.cards
      ensures AskedWith(q, i + 1, false, PrintKey(x)) <==>
              AskedWith(q, i, false, PrintKey(x)) || (!ProbeHeld(q, q.cards[i]) && x in ByPrint(q.cards, PrintKey(q.cards[i])))
    {
      AskedStep(q, i, false, PrintKey(x));
    }
  }

  /** One printing asked about: `not`, or its rows marked. */
  method AskPrinting(c: Card, cards: seq<Card>, entries: Entries, search: Search, ghost q: Asking)
    requires WellFormed(cards) && c in cards && q.cards == cards && q.held == search.indexed
    requires forall x | x in cards && PrintKey(x) == PrintKey(c) :: x.id in search.unindexed <==> x.id in q.start
    modifies entries, search
    ensures entries.sets == old(entries.sets) && entries.oracles == old(entries.oracles)
    ensures AddsNot(old(entries.Contents()), entries.Contents(), c, ProbeHeld(q, c))
    ensures search.unindexed == old(search.unindexed) + if ProbeHeld(q, c) then {} else Ids(ByPrint(cards, PrintKey(c)))
  {
    var all := ByPrint(cards, PrintKey(c));
    assert c in all;
    var probe := Probe(all, c);
    assert probe.id in Ids(all);
    var yes := search.IsIndexed(probe);
    if yes {
      entries.Add(NotKind, c.set_, c.number);
    } else {
      search.unindexed := search.unindexed + Ids(all);
    }
  }

  method AskFor(i: nat, cards: seq<Card>, entries: Entries, search: Search, ghost q: Asking)
    requires WellFormed(cards) && i < |cards| && q.cards == cards && q.held == search.indexed
    requires RelatedTable(q, entries.Contents(), search.unindexed, i) && Asks(q, i)
    requires !AskedWith(q, i, true, PrintKey(cards[i])) && !AskedWith(q, i, false, PrintKey(cards[i]))
    modifies entries, search
    ensures RelatedTable(q, entries.Contents(), search.unindexed, i + 1)
  {
    ghost var t, before := entries.Contents(), search.unindexed;
    forall x | x in cards && PrintKey(x) == PrintKey(cards[i]) ensures x.id in before <==> x.id in q.start {
      NotAskedYet(q, t, before, i, x);
    }
    AskPrinting(cards[i], cards, entries, search, q);
    OneAsked(q, t, entries.Contents(), before, search.unindexed, i);
  }

  lemma NoneYet(q: Asking, t: Table)
    requires t.sets == {} && t.numbers == map[] && t.oracles.Keys == q.named
    ensures RelatedTable(q, t, q.start, 0) && AskedKeys(q, 0, {})
  {
    assert Marked(q, 0) == {};
  }

  /** The loop body: a row outside the class that the table so far tags asks once for its printing. */
  method AskOrSkip(i: nat, cards: seq<Card>, positives: set<string>, rule: Card -> bool, asked: set<string>,
                   entries: Entries, search: Search, ghost q: Asking)
    returns (asked': set<string>)
    requires WellFormed(cards) && positives == OfPrintings(cards, q.keys) && i < |cards|
    requires q.cards == cards && q.rule == rule && q.held == search.indexed
    requires RelatedTable(q, entries.Contents(), search.unindexed, i) && AskedKeys(q, i, asked)
    modifies entries, search
    ensures RelatedTable(q, entries.Contents(), search.unindexed, i + 1) && AskedKeys(q, i + 1, asked')
  {
    var c := cards[i];
    var verdict := entries.VerdictOn(c);
    var tagged := if verdict.Some? then verdict.value else rule(c);
    InPrintings(cards, q.keys, c);
    AsksIs(q, entries.Contents(), search.unindexed, i);
    if c.id in positives || !tagged || PrintKey(c) in asked {
      NoneAsked(q, entries.Contents(), search.unindexed, i);
      AskedKeysStay(q, i, asked);
      return asked;
    }
    AskedKeysGrow(q, i, asked);
    AskFor(i, cards, entries, search, q);
    return asked + {PrintKey(c)};
  }

  /** The exceptions: every row the class does not hold and the table so far tags, a printing at a time. */
  method NameExceptions(cards: seq<Card>, positives: set<string>, rule: Card -> bool, entries: Entries, search: Search,
                        ghost q: Asking)
    requires WellFormed(cards) && positives == OfPrintings(cards, q.keys)
    requires q.cards == cards && q.rule == rule && q.held == search.indexed && q.start == search.unindexed
    requires entries.sets == {} && entries.numbers == map[] && entries.oracles.Keys == q.named
    modifies entries, search
    ensures RelatedTable(q, entries.Contents(), search.unindexed, |cards|)
  {
    var asked: set<string> := {};
    NoneYet(q, entries.Contents());
    for i := 0 to |cards|
      invariant RelatedTable(q, entries.Contents(), search.unindexed, i)
      invariant AskedKeys(q, i, asked)
    {
      asked := AskOrSkip(i, cards, positives, rule, asked, entries, search, q);
    }
  }

  /** How far the answer in every language may be from the rows of the default answer's printings. */
  function CountsAgree(everyLanguage: nat, positives: nat): bool {
    var apart := if everyLanguage < positives then positives - everyLanguage else everyLanguage - positives;
    10000 * apart <= 5 * everyLanguage
  }

  /** Within a twentieth of a percent either way. */
  lemma CountsAgreeExactly(everyLanguage: nat, positives: nat)
    ensures CountsAgree(everyLanguage, positives) <==>
            && (everyLanguage as real) * 0.9995 <= positives as real <= (everyLanguage as real) * 1.0005
  {
  }

  /**
   * relatedList, from the default answer's rows and the count in every language. The self-check stops it
   * exactly when a row of the class the search is taken to hold has no oracle id to name it by. It marks the
   * rows of the printings it asks about in vain, and no other.
   */
  method RelatedList(rows: seq<Card>, everyLanguage: nat, cards: seq<Card>, search: Search)
    returns (entries: Entries, ok: bool)
    requires WellFormed(cards)
    modifies search
    ensures fresh(entries)
    ensures ok <==> && CountsAgree(everyLanguage, |OfPrintings(cards, Keys(rows))|)
                    && AllNameable(cards, Keys(rows), old(search.unindexed))
    ensures ok ==> Exact(entries.Contents(), cards, search.unindexed, OfPrintings(cards, Keys(rows)),
                         HasParts(WithParts(cards)))
    ensures !CountsAgree(everyLanguage, |OfPrintings(cards, Keys(rows))|) ==> search.unindexed == old(search.unindexed)
    ensures CountsAgree(everyLanguage, |OfPrintings(cards, Keys(rows))|) ==>
              RelatedTable(AskingOf(cards, Keys(rows), old(search.unindexed), search.indexed),
                           entries.Contents(), search.unindexed, |cards|)
    ensures forall x | x in cards && x.id in search.unindexed && x.id !in old(search.unindexed) ::
              exists c | c in cards && PrintKey(c) == PrintKey(x) ::
                var probe := Probe(ByPrint(cards, PrintKey(c)), c); probe.id in old(search.unindexed) || !search.indexed(probe)
  {
    entries := new Entries();
    var keys := Keys(rows);
    var positives := OfPrintings(cards, keys);
    if !CountsAgree(everyLanguage, |positives|) {
      return entries, false;
    }
    var rule := HasParts(WithParts(cards));
    ghost var q := AskingOf(cards, keys, search.unindexed, search.indexed);
    NameCards(cards, positives, rule, entries, keys);
    NameExceptions(cards, positives, rule, entries, search, q);
    RelatedExact(q, entries.Contents(), search.unindexed);
    ok := SelfCheck(cards, entries, search.unindexed, positives, rule);
  }
}
