/** The order JavaScript's `<` gives strings, and what sorting by a strict order determines. */
module CodeOrder {
  /** `a < b`, unit by unit. */
  predicate Less(a: string, b: string) {
    b != [] && (a == [] || a[0] < b[0] || (a[0] == b[0] && Less(a[1..], b[1..])))
  }

  lemma {:induction false} LessIrreflexive(a: string)
    ensures !Less(a, a)
  {
    if a != [] {
      LessIrreflexive(a[1..]);
    }
  }

  lemma {:induction false} LessTransitive(a: string, b: string, c: string)
    requires Less(a, b) && Less(b, c)
    ensures Less(a, c)
  {
    if a != [] && a[0] == b[0] && b[0] == c[0] {
      LessTransitive(a[1..], b[1..], c[1..]);
    }
  }

  lemma {:induction false} LessTotal(a: string, b: string)
    ensures Less(a, b) || a == b || Less(b, a)
  {
    if a != [] && b != [] && a[0] == b[0] {
      LessTotal(a[1..], b[1..]);
      assert a == [a[0]] + a[1..] && b == [b[0]] + b[1..];
    }
  }

  ghost predicate StrictOrder<T(!new)>(lt: (T, T) -> bool) {
    && (forall x :: !lt(x, x))
    && (forall x, y, z :: lt(x, y) && lt(y, z) ==> lt(x, z))
  }

  lemma LessIsStrict()
    ensures StrictOrder(Less)
  {
    forall x ensures !Less(x, x) { LessIrreflexive(x); }
    forall x, y, z | Less(x, y) && Less(y, z) ensures Less(x, z) { LessTransitive(x, y, z); }
  }

  ghost predicate Ascending<T>(lt: (T, T) -> bool, s: seq<T>) {
    forall i, j | 0 <= i < j < |s| :: lt(s[i], s[j])
  }

  ghost predicate SameElements<T(!new)>(a: seq<T>, b: seq<T>) {
    forall x :: x in a <==> x in b
  }

  lemma EmptyAlike<T(!new)>(a: seq<T>, b: seq<T>)
    requires SameElements(a, b)
    ensures a == [] <==> b == []
  {
    if a != [] { assert a[0] in b; }
    if b != [] { assert b[0] in a; }
  }

  /** A set has one strictly ascending listing. */
  lemma {:induction false} AscendingUnique<T(!new)>(lt: (T, T) -> bool, a: seq<T>, b: seq<T>)
    requires StrictOrder(lt) && Ascending(lt, a) && Ascending(lt, b) && SameElements(a, b)
    ensures a == b
  {
    EmptyAlike(a, b);
    if a != [] {
      assert a[0] in b && b[0] in a;
      assert a[0] == b[0];
      forall x ensures x in a[1..] <==> x in b[1..] {
        if x in a[1..] { assert x in a && x != a[0]; }
        if x in b[1..] { assert x in b && x != b[0]; }
      }
      AscendingUnique(lt, a[1..], b[1..]);
      assert a == [a[0]] + a[1..] && b == [b[0]] + b[1..];
    }
  }

  /** `x` placed in an ascending list, once. */
  function Place(x: string, s: seq<string>): (r: seq<string>)
    ensures forall y :: y in r <==> y == x || y in s
  {
    if s == [] then [x]
    else if x == s[0] then s
    else if Less(x, s[0]) then [x] + s
    else [s[0]] + Place(x, s[1..])
  }

  /** The distinct strings of `s`, ascending: a sort whose repeats are then dropped. */
  function SortDistinct(s: seq<string>): (r: seq<string>)
    ensures SameElements(r, s)
  {
    if s == [] then [] else Place(s[0], SortDistinct(s[1..]))
  }

  lemma {:induction false} PlaceAscends(x: string, s: seq<string>)
    requires Ascending(Less, s)
    ensures Ascending(Less, Place(x, s))
  {
    if s != [] && x != s[0] {
      LessTotal(x, s[0]);
      if Less(x, s[0]) {
        forall j | 0 <= j < |s| ensures Less(x, s[j]) {
          if j > 0 { LessTransitive(x, s[0], s[j]); }
        }
      } else {
        PlaceAscends(x, s[1..]);
        var rest := Place(x, s[1..]);
        forall j | 0 <= j < |rest| ensures Less(s[0], rest[j]) {
          assert rest[j] == x || rest[j] in s[1..];
        }
      }
    }
  }

  lemma {:induction false} SortAscends(s: seq<string>)
    ensures Ascending(Less, SortDistinct(s))
  {
    if s != [] {
      SortAscends(s[1..]);
      PlaceAscends(s[0], SortDistinct(s[1..]));
    }
  }

  /** What is sorted, not in which order or how often, decides the result. */
  lemma SortOfSet(a: seq<string>, b: seq<string>)
    requires SameElements(a, b)
    ensures SortDistinct(a) == SortDistinct(b)
  {
    LessIsStrict();
    SortAscends(a);
    SortAscends(b);
    AscendingUnique(Less, SortDistinct(a), SortDistinct(b));
  }
}
