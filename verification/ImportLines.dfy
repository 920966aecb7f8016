/**
 * Walking a dump line by line across many slices: `scanJsonlSlice` of src/import-lines.ts, resumed by
 * byte offset, and `jsonlLines` of scripts/seed-oracle-index.ts, which splits a file the same way.
 *
 * `stop` is the slice's callback: from the lines it was handed so far, whether its budget is hit.
 */
module ImportLines {
  import opened Bytes
  import opened Sequences

  const NEWLINE: byte := 10

  type Line = seq<byte>

  /** `indexOf(0x0a, from)`: the first newline at or after `from`, or -1. */
  function IndexOfNewline(data: seq<byte>, from: nat): (r: int)
    requires from <= |data|
    ensures r == -1 || from <= r < |data|
    decreases |data| - from
  {
    if from == |data| then -1
    else if data[from] == NEWLINE then from
    else IndexOfNewline(data, from + 1)
  }

  predicate NoNewline(data: seq<byte>, from: nat, to: nat)
    requires to <= |data|
  {
    forall k | from <= k < to :: data[k] != NEWLINE
  }

  /** It is the first one: no place before it holds a newline. */
  lemma {:induction false} IndexIsFirst(data: seq<byte>, from: nat)
    requires from <= |data|
    ensures var r := IndexOfNewline(data, from);
            if r == -1 then NoNewline(data, from, |data|) else data[r] == NEWLINE && NoNewline(data, from, r)
    decreases |data| - from
  {
    if from < |data| && data[from] != NEWLINE {
      IndexIsFirst(data, from + 1);
    }
  }

  lemma {:induction false} IndexIs(data: seq<byte>, from: nat, at: nat)
    requires from <= at < |data| && data[at] == NEWLINE && NoNewline(data, from, at)
    ensures IndexOfNewline(data, from) == at
    decreases |data| - from
  {
    if from < at {
      IndexIs(data, from + 1, at);
    }
  }

  lemma {:induction false} IndexIsNone(data: seq<byte>, from: nat)
    requires from <= |data| && NoNewline(data, from, |data|)
    ensures IndexOfNewline(data, from) == -1
    decreases |data| - from
  {
    if from < |data| {
      IndexIsNone(data, from + 1);
    }
  }

  /** A dump's lines: what its newlines end, and a last one no newline ends. */
  function Lines(data: seq<byte>): seq<Line> {
    if data == [] then []
    else
      var nl := IndexOfNewline(data, 0);
      if nl == -1 then [data] else [data[..nl]] + Lines(data[nl + 1..])
  }

  datatype Slice = Slice(delivered: seq<Line>, consumed: nat, exhausted: bool)

  /** One slice over `data`, after the lines `seen`. */
  function SliceOf(data: seq<byte>, stop: seq<Line> -> bool, seen: seq<Line>): Slice
    decreases |data|
  {
    if data == [] then Slice([], 0, true)
    else
      var nl := IndexOfNewline(data, 0);
      if nl == -1 then Slice([data], |data|, true)
      else
        var line := data[..nl];
        if stop(seen + [line]) then Slice([line], nl + 1, false)
        else
          var rest := SliceOf(data[nl + 1..], stop, seen + [line]);
          Slice([line] + rest.delivered, nl + 1 + rest.consumed, rest.exhausted)
  }

  /** `r`, preceded by lines already delivered and bytes already consumed. */
  function After(delivered: seq<Line>, consumed: nat, r: Slice): Slice {
    Slice(delivered + r.delivered, consumed + r.consumed, r.exhausted)
  }

  /** The first newline of `data` past `from` is the first of the stream's rest. */
  lemma NewlineOfRest(data: seq<byte>, from: nat, later: seq<byte>)
    requires from <= |data| && IndexOfNewline(data, from) != -1
    ensures IndexOfNewline(data[from..] + later, 0) == IndexOfNewline(data, from) - from
  {
    var rest := data[from..] + later;
    var nl := IndexOfNewline(data, from) - from;
    IndexIsFirst(data, from);
    assert forall k | 0 <= k <= nl :: rest[k] == data[from + k];
    IndexIs(rest, 0, nl);
  }

  lemma RestCut(data: seq<byte>, from: nat, at: nat, later: seq<byte>)
    requires from <= at < |data|
    ensures (data[from..] + later)[..at - from] == data[from..at]
    ensures (data[from..] + later)[at - from + 1..] == data[at + 1..] + later
  {
  }

  /** One line of the inner loop, whatever follows the chunk. */
  lemma SliceStep(data: seq<byte>, from: nat, later: seq<byte>, stop: seq<Line> -> bool, seen: seq<Line>)
    requires from <= |data| && IndexOfNewline(data, from) != -1
    ensures var nl := IndexOfNewline(data, from);
            && SliceOf(data[from..] + later, stop, seen)
            == if stop(seen + [data[from..nl]]) then Slice([data[from..nl]], nl - from + 1, false)
            else After([data[from..nl]], nl - from + 1, SliceOf(data[nl + 1..] + later, stop, seen + [data[from..nl]]))
  {
    NewlineOfRest(data, from, later);
    var nl := IndexOfNewline(data, from);
    RestCut(data, from, nl, later);
  }

  /** The rest of a chunk after its last newline is carried. */
  lemma CarryHasNone(data: seq<byte>, from: nat)
    requires from <= |data| && IndexOfNewline(data, from) == -1
    ensures NoNewline(data[from..], 0, |data| - from)
  {
    IndexIsFirst(data, from);
  }

  lemma SliceOfCarry(carry: seq<byte>, stop: seq<Line> -> bool, seen: seq<Line>)
    requires NoNewline(carry, 0, |carry|)
    ensures SliceOf(carry, stop, seen) == if carry == [] then Slice([], 0, true) else Slice([carry], |carry|, true)
  {
    IndexIsNone(carry, 0);
  }

  lemma AfterAfter(a: seq<Line>, m: nat, b: seq<Line>, n: nat, r: Slice)
    ensures After(a, m, After(b, n, r)) == After(a + b, m + n, r)
  {
    assert a + (b + r.delivered) == (a + b) + r.delivered;
  }

  /** The inner loop: the lines that end inside one chunk; `later` is what the stream still holds. */
  method ScanChunk(data: seq<byte>, ghost later: seq<byte>, stop: seq<Line> -> bool, consumed: nat, delivered: seq<Line>)
    returns (consumed': nat, delivered': seq<Line>, budgetHit: bool, carry: seq<byte>)
    ensures NoNewline(carry, 0, |carry|)
    ensures After(delivered, consumed, SliceOf(data + later, stop, delivered))
         == if budgetHit then Slice(delivered', consumed', false)
            else After(delivered', consumed', SliceOf(carry + later, stop, delivered'))
  {
    consumed', delivered', budgetHit, carry := consumed, delivered, false, [];
    var start := 0;
    ghost var whole := After(delivered, consumed, SliceOf(data + later, stop, delivered));
    assert data[0..] == data;
    while true
      invariant start <= |data|
      invariant whole == After(delivered', consumed', SliceOf(data[start..] + later, stop, delivered'))
      decreases |data| - start
    {
      var nl := IndexOfNewline(data, start);
      if nl == -1 {
        CarryHasNone(data, start);
        carry := data[start..];
        return;
      }
      var line := data[start..nl];
      SliceStep(data, start, later, stop, delivered');
      AfterAfter(delivered', consumed', [line], |line| + 1, SliceOf(data[nl + 1..] + later, stop, delivered' + [line]));
      delivered' := delivered' + [line];
      budgetHit := stop(delivered');
      consumed' := consumed' + |line| + 1;
      start := nl + 1;
      if budgetHit {
        return;
      }
    }
  }

  /** scanJsonlSlice; `delivered` is what `take` was handed. */
  method ScanJsonlSlice(source: seq<seq<byte>>, stop: seq<Line> -> bool)
    returns (consumed: nat, lines: nat, exhausted: bool, delivered: seq<Line>)
    ensures Slice(delivered, consumed, exhausted) == SliceOf(Flat(source), stop, [])
    ensures lines == |delivered|
  {
    consumed, delivered := 0, [];
    var carry: seq<byte> := [];
    ghost var whole := SliceOf(Flat(source), stop, []);
    assert After([], 0, whole) == whole && [] + Flat(source) == Flat(source) && source[0..] == source;
    for c := 0 to |source|
      invariant NoNewline(carry, 0, |carry|)
      invariant whole == After(delivered, consumed, SliceOf(carry + Flat(source[c..]), stop, delivered))
    {
      ghost var later := Flat(source[c + 1..]);
      assert source[c..][0] == source[c] && source[c..][1..] == source[c + 1..];
      assert carry + Flat(source[c..]) == (carry + source[c]) + later;
      var budgetHit;
      consumed, delivered, budgetHit, carry := ScanChunk(carry + source[c], later, stop, consumed, delivered);
      if budgetHit {
        return consumed, |delivered|, false, delivered;
      }
    }
    assert source[|source|..] == [] && carry + [] == carry;
    SliceOfCarry(carry, stop, delivered);
    if |carry| > 0 {
      delivered := delivered + [carry];
      consumed := consumed + |carry|;
    }
    return consumed, |delivered|, true, delivered;
  }

  // ---- what a line is, and where a slice stops ----------------------------------------------------------

  predicate Ended(data: seq<byte>) {
    data == [] || data[|data| - 1] == NEWLINE
  }

  /** The lines with a newline after each; after the last one only if `ended`. */
  function Rejoined(lines: seq<Line>, ended: bool): seq<byte> {
    if lines == [] then []
    else lines[0] + (if |lines| > 1 || ended then [NEWLINE] else []) + Rejoined(lines[1..], ended)
  }

  /** Cut at its first newline. */
  lemma FirstCut(data: seq<byte>)
    requires IndexOfNewline(data, 0) != -1
    ensures var nl := IndexOfNewline(data, 0);
            && data == data[..nl] + [NEWLINE] + data[nl + 1..]
            && NEWLINE !in data[..nl]
            && Ended(data[nl + 1..]) == Ended(data)
            && Lines(data) == [data[..nl]] + Lines(data[nl + 1..])
  {
    IndexIsFirst(data, 0);
  }

  lemma UncutHasNone(data: seq<byte>)
    requires data != [] && IndexOfNewline(data, 0) == -1
    ensures NEWLINE !in data && !Ended(data) && Lines(data) == [data]
  {
    IndexIsFirst(data, 0);
  }

  lemma RejoinedNext(line: Line, rest: seq<Line>, ended: bool)
    requires rest != [] || ended
    ensures Rejoined([line] + rest, ended) == line + [NEWLINE] + Rejoined(rest, ended)
  {
    assert ([line] + rest)[1..] == rest;
  }

  lemma {:induction false} LinesNotEmpty(data: seq<byte>)
    requires data != []
    ensures Lines(data) != []
  {
  }

  /** The lines are the dump cut at its newlines: no line holds one, and put back they give the dump. */
  lemma {:induction false} LinesRejoin(data: seq<byte>)
    ensures Rejoined(Lines(data), Ended(data)) == data
    ensures forall line | line in Lines(data) :: NEWLINE !in line
    decreases |data|
  {
    if data != [] {
      var nl := IndexOfNewline(data, 0);
      if nl == -1 {
        UncutHasNone(data);
        assert data + [] + [] == data;
      } else {
        FirstCut(data);
        var rest := data[nl + 1..];
        LinesRejoin(rest);
        RejoinedNext(data[..nl], Lines(rest), Ended(data));
      }
    }
  }

  /** How many of the lines a newline ends: all, or all but the last. */
  function EndedLines(data: seq<byte>): int {
    if Ended(data) then |Lines(data)| else |Lines(data)| - 1
  }

  /** After the `n` first lines the callback has not asked to stop. */
  predicate GoesOn(lines: seq<Line>, stop: seq<Line> -> bool, seen: seq<Line>, n: int) {
    forall m | 0 < m <= n && m <= |lines| :: !stop(seen + lines[..m])
  }

  lemma GoesOnNext(line: Line, rest: seq<Line>, stop: seq<Line> -> bool, seen: seq<Line>, n: int)
    requires n >= 0
    ensures GoesOn([line] + rest, stop, seen, n + 1) <==> !stop(seen + [line]) && GoesOn(rest, stop, seen + [line], n)
  {
    var lines := [line] + rest;
    assert lines[..1] == [line];
    forall m | 0 < m <= n && m <= |rest| ensures seen + lines[..m + 1] == seen + [line] + rest[..m] { }
    if GoesOn(lines, stop, seen, n + 1) {
      forall m | 0 < m <= n && m <= |rest| ensures !stop(seen + [line] + rest[..m]) {
        assert !stop(seen + lines[..m + 1]);
      }
    }
    if !stop(seen + [line]) && GoesOn(rest, stop, seen + [line], n) {
      forall m | 0 < m <= n + 1 && m <= |lines| ensures !stop(seen + lines[..m]) {
        if m > 1 {
          assert !stop(seen + [line] + rest[..m - 1]);
        }
      }
    }
  }

  /** Stopped at the first line, of the `ended` ones, after which the callback asks for it, or gone on to the end. */
  predicate StopsAt(lines: seq<Line>, ended: int, stop: seq<Line> -> bool, seen: seq<Line>, delivered: seq<Line>, exhausted: bool) {
    var n := |delivered|;
    && n <= |lines| && delivered == lines[..n]
    && (if exhausted then n == |lines| && GoesOn(lines, stop, seen, ended)
        else 0 < n <= ended && stop(seen + delivered) && GoesOn(lines, stop, seen, n - 1))
  }

  /** Where a slice stops: its callback is heeded after the lines that a newline ends. */
  predicate StopsWhereAsked(data: seq<byte>, stop: seq<Line> -> bool, seen: seq<Line>, r: Slice) {
    StopsAt(Lines(data), EndedLines(data), stop, seen, r.delivered, r.exhausted)
  }

  lemma StopsNow(line: Line, rest: seq<Line>, ended: int, stop: seq<Line> -> bool, seen: seq<Line>)
    requires stop(seen + [line]) && ended >= 0
    ensures StopsAt([line] + rest, ended + 1, stop, seen, [line], false)
  {
    assert ([line] + rest)[..1] == [line];
  }

  lemma StopsLater(line: Line, rest: seq<Line>, ended: int, stop: seq<Line> -> bool, seen: seq<Line>, delivered: seq<Line>,
                   exhausted: bool)
    requires !stop(seen + [line]) && ended >= 0 && StopsAt(rest, ended, stop, seen + [line], delivered, exhausted)
    ensures StopsAt([line] + rest, ended + 1, stop, seen, [line] + delivered, exhausted)
  {
    var n := |delivered|;
    assert ([line] + rest)[..n + 1] == [line] + delivered;
    if exhausted {
      GoesOnNext(line, rest, stop, seen, ended);
    } else {
      GoesOnNext(line, rest, stop, seen, n - 1);
      Regroup(seen, [line], delivered);
    }
  }

  /** A slice stops exactly where its callback first asks it to, and else at the end. */
  lemma {:induction false} StopsExactly(data: seq<byte>, stop: seq<Line> -> bool, seen: seq<Line>)
    ensures StopsWhereAsked(data, stop, seen, SliceOf(data, stop, seen))
    decreases |data|
  {
    if data == [] {
    } else {
      var nl := IndexOfNewline(data, 0);
      if nl == -1 {
        UncutHasNone(data);
      } else {
        FirstCut(data);
        var line, rest := data[..nl], data[nl + 1..];
        if !Ended(rest) {
          LinesNotEmpty(rest);
        }
        if stop(seen + [line]) {
          StopsNow(line, Lines(rest), EndedLines(rest), stop, seen);
        } else {
          StopsExactly(rest, stop, seen + [line]);
          var r := SliceOf(rest, stop, seen + [line]);
          StopsLater(line, Lines(rest), EndedLines(rest), stop, seen, r.delivered, r.exhausted);
        }
      }
    }
  }

  // ---- resuming ---------------------------------------------------------------------------------------

  predicate LineStart(dump: seq<byte>, offset: nat) {
    offset <= |dump| && (offset == 0 || dump[offset - 1] == NEWLINE)
  }

  /** A slice from `offset` delivers the lines up to where it stops: after a newline, or at the end. */
  predicate SliceGood(dump: seq<byte>, offset: nat, next: nat, delivered: seq<Line>, exhausted: bool) {
    && offset <= next <= |dump| && Lines(dump[offset..]) == delivered + Lines(dump[next..])
    && (exhausted ==> next == |dump|)
    && (!exhausted ==> delivered != [] && next > offset && dump[next - 1] == NEWLINE)
  }

  /** No newline is left: all that is left is the last line. */
  lemma LastLine(dump: seq<byte>, offset: nat)
    requires offset <= |dump| && IndexOfNewline(dump, offset) == -1
    ensures SliceGood(dump, offset, |dump|, if offset == |dump| then [] else [dump[offset..]], true)
  {
    CarryHasNone(dump, offset);
    IndexIsNone(dump[offset..], 0);
    assert dump[|dump|..] == [];
  }

  lemma LinesAt(dump: seq<byte>, offset: nat)
    requires offset <= |dump| && IndexOfNewline(dump, offset) != -1
    ensures var nl := IndexOfNewline(dump, offset);
            dump[nl] == NEWLINE && Lines(dump[offset..]) == [dump[offset..nl]] + Lines(dump[nl + 1..])
  {
    IndexIsFirst(dump, offset);
    LinesStep(dump, offset, []);
    assert dump[offset..] + [] == dump[offset..];
    assert dump[IndexOfNewline(dump, offset) + 1..] + [] == dump[IndexOfNewline(dump, offset) + 1..];
  }

  lemma SliceAt(dump: seq<byte>, offset: nat, stop: seq<Line> -> bool, seen: seq<Line>)
    requires offset <= |dump| && IndexOfNewline(dump, offset) != -1
    ensures var nl := IndexOfNewline(dump, offset);
            var line := dump[offset..nl];
            SliceOf(dump[offset..], stop, seen)
            == if stop(seen + [line]) then Slice([line], nl + 1 - offset, false)
               else After([line], nl + 1 - offset, SliceOf(dump[nl + 1..], stop, seen + [line]))
  {
    SliceStep(dump, offset, [], stop, seen);
    assert dump[offset..] + [] == dump[offset..];
    assert dump[IndexOfNewline(dump, offset) + 1..] + [] == dump[IndexOfNewline(dump, offset) + 1..];
  }

  lemma OneMoreLine(dump: seq<byte>, offset: nat, next: nat, delivered: seq<Line>, exhausted: bool)
    requires offset <= |dump| && IndexOfNewline(dump, offset) != -1
    requires SliceGood(dump, IndexOfNewline(dump, offset) + 1, next, delivered, exhausted)
    ensures SliceGood(dump, offset, next, [dump[offset..IndexOfNewline(dump, offset)]] + delivered, exhausted)
  {
    LinesAt(dump, offset);
    Regroup([dump[offset..IndexOfNewline(dump, offset)]], delivered, Lines(dump[next..]));
  }

  lemma FirstLine(dump: seq<byte>, offset: nat)
    requires offset <= |dump| && IndexOfNewline(dump, offset) != -1
    ensures var nl := IndexOfNewline(dump, offset); SliceGood(dump, offset, nl + 1, [dump[offset..nl]], false)
  {
    LinesAt(dump, offset);
  }

  predicate Reaches(dump: seq<byte>, offset: nat, next: nat, r: Slice) {
    next == offset + r.consumed && SliceGood(dump, offset, next, r.delivered, r.exhausted)
  }

  lemma LastSlice(dump: seq<byte>, offset: nat, stop: seq<Line> -> bool, seen: seq<Line>)
    requires offset <= |dump| && IndexOfNewline(dump, offset) == -1
    ensures Reaches(dump, offset, |dump|, SliceOf(dump[offset..], stop, seen))
  {
    LastLine(dump, offset);
    CarryHasNone(dump, offset);
    SliceOfCarry(dump[offset..], stop, seen);
  }

  lemma StoppedSlice(dump: seq<byte>, offset: nat, stop: seq<Line> -> bool, seen: seq<Line>)
    requires offset <= |dump| && IndexOfNewline(dump, offset) != -1
    requires stop(seen + [dump[offset..IndexOfNewline(dump, offset)]])
    ensures Reaches(dump, offset, IndexOfNewline(dump, offset) + 1, SliceOf(dump[offset..], stop, seen))
  {
    SliceAt(dump, offset, stop, seen);
    FirstLine(dump, offset);
  }

  lemma LongerSlice(dump: seq<byte>, offset: nat, next: nat, stop: seq<Line> -> bool, seen: seq<Line>, r: Slice)
    requires offset <= |dump| && IndexOfNewline(dump, offset) != -1
    requires var nl := IndexOfNewline(dump, offset);
             var line := dump[offset..nl];
             && !stop(seen + [line]) && r == SliceOf(dump[nl + 1..], stop, seen + [line])
             && Reaches(dump, nl + 1, next, r)
    ensures Reaches(dump, offset, next, SliceOf(dump[offset..], stop, seen))
  {
    SliceAt(dump, offset, stop, seen);
    OneMoreLine(dump, offset, next, r.delivered, r.exhausted);
  }

  /** Every slice is good; `next` is the offset it reaches. */
  lemma {:induction false} SliceFacts(dump: seq<byte>, offset: nat, stop: seq<Line> -> bool, seen: seq<Line>)
    returns (next: nat)
    requires offset <= |dump|
    ensures Reaches(dump, offset, next, SliceOf(dump[offset..], stop, seen)) == true
    decreases |dump| - offset
  {
    var nl := IndexOfNewline(dump, offset);
    if nl == -1 {
      next := |dump|;
      LastSlice(dump, offset, stop, seen);
    } else if stop(seen + [dump[offset..nl]]) {
      next := nl + 1;
      StoppedSlice(dump, offset, stop, seen);
    } else {
      var longer := seen + [dump[offset..nl]];
      next := SliceFacts(dump, nl + 1, stop, longer);
      LongerSlice(dump, offset, next, stop, seen, SliceOf(dump[nl + 1..], stop, longer));
    }
  }

  lemma SliceFits(dump: seq<byte>, offset: nat, stop: seq<Line> -> bool)
    requires offset <= |dump|
    ensures offset + SliceOf(dump[offset..], stop, []).consumed <= |dump|
  {
    var next := SliceFacts(dump, offset, stop, []);
  }

  datatype Progress = Progress(delivered: seq<Line>, offset: nat, done: bool)

  /** Slices from `offset` on, each from the offset the one before it reached, until one exhausts the dump. */
  function Resume(dump: seq<byte>, offset: nat, stops: seq<seq<Line> -> bool>): Progress
    requires offset <= |dump|
    decreases |stops|
  {
    if stops == [] then Progress([], offset, false)
    else
      SliceFits(dump, offset, stops[0]);
      var r := SliceOf(dump[offset..], stops[0], []);
      if r.exhausted then Progress(r.delivered, offset + r.consumed, true)
      else
        var rest := Resume(dump, offset + r.consumed, stops[1..]);
        Progress(r.delivered + rest.delivered, rest.offset, rest.done)
  }

  /** The first slice either ends the dump or leaves the rest to the others. */
  lemma ResumeUnfolds(dump: seq<byte>, offset: nat, stops: seq<seq<Line> -> bool>)
    returns (next: nat, slice: seq<Line>, exhausted: bool)
    requires offset <= |dump| && stops != []
    ensures SliceGood(dump, offset, next, slice, exhausted)
    ensures exhausted ==> Resume(dump, offset, stops) == Progress(slice, next, true)
    ensures !exhausted ==>
              var rest := Resume(dump, next, stops[1..]);
              Resume(dump, offset, stops) == Progress(slice + rest.delivered, rest.offset, rest.done)
  {
    next := SliceFacts(dump, offset, stops[0], []);
    var r := SliceOf(dump[offset..], stops[0], []);
    slice, exhausted := r.delivered, r.exhausted;
  }

  /**
   * However the slices stop: after any number of them, what was delivered is the dump's lines up to the
   * offset, in order and once each; the offset is a line start or the end; and the slice that exhausts
   * the stream leaves nothing.
   */
  lemma {:induction false} ResumeExact(dump: seq<byte>, offset: nat, stops: seq<seq<Line> -> bool>)
    requires LineStart(dump, offset)
    ensures var p := Resume(dump, offset, stops);
            && offset <= p.offset <= |dump|
            && Lines(dump[offset..]) == p.delivered + Lines(dump[p.offset..])
            && (LineStart(dump, p.offset) || p.offset == |dump|)
            && (p.done ==> p.offset == |dump| && p.delivered == Lines(dump[offset..]))
            && (!p.done ==> |p.delivered| >= |stops|)
    decreases |stops|
  {
    if stops != [] {
      var next, slice, exhausted := ResumeUnfolds(dump, offset, stops);
      if exhausted {
        assert dump[|dump|..] == [] && slice + [] == slice;
      } else {
        ResumeExact(dump, next, stops[1..]);
        var rest := Resume(dump, next, stops[1..]);
        Regroup(slice, rest.delivered, Lines(dump[rest.offset..]));
      }
    }
  }

  /** More slices than lines always reach the end, with every line delivered. */
  lemma ResumeFinishes(dump: seq<byte>, stops: seq<seq<Line> -> bool>)
    requires |stops| > |Lines(dump)|
    ensures Resume(dump, 0, stops) == Progress(Lines(dump), |dump|, true)
  {
    assert dump[0..] == dump;
    ResumeExact(dump, 0, stops);
  }

  // ---- jsonlLines -------------------------------------------------------------------------------------

  function NonEmpty(lines: seq<Line>): seq<Line> {
    if lines == [] then []
    else (if |lines[0]| > 0 then [lines[0]] else []) + NonEmpty(lines[1..])
  }

  lemma LinesStep(data: seq<byte>, from: nat, later: seq<byte>)
    requires from <= |data| && IndexOfNewline(data, from) != -1
    ensures var nl := IndexOfNewline(data, from);
            Lines(data[from..] + later) == [data[from..nl]] + Lines(data[nl + 1..] + later)
  {
    NewlineOfRest(data, from, later);
    RestCut(data, from, IndexOfNewline(data, from), later);
  }

  lemma NonEmptyStep(data: seq<byte>, from: nat, later: seq<byte>)
    requires from <= |data| && IndexOfNewline(data, from) != -1
    ensures var nl := IndexOfNewline(data, from);
            NonEmpty(Lines(data[from..] + later))
            == (if nl > from then [data[from..nl]] else []) + NonEmpty(Lines(data[nl + 1..] + later))
  {
    LinesStep(data, from, later);
    var nl := IndexOfNewline(data, from);
    var rest := Lines(data[nl + 1..] + later);
    assert ([data[from..nl]] + rest)[1..] == rest;
  }

  lemma LinesOfCarry(carry: seq<byte>)
    requires NoNewline(carry, 0, |carry|)
    ensures NonEmpty(Lines(carry)) == if carry == [] then [] else [carry]
  {
    IndexIsNone(carry, 0);
  }

  lemma SplitStep(buf: seq<byte>, start: nat, later: seq<byte>, yielded: seq<Line>, whole: seq<Line>)
    requires start <= |buf| && IndexOfNewline(buf, start) != -1
    requires whole == yielded + NonEmpty(Lines(buf[start..] + later))
    ensures var nl := IndexOfNewline(buf, start);
            whole == (if nl > start then yielded + [buf[start..nl]] else yielded) + NonEmpty(Lines(buf[nl + 1..] + later))
  {
    NonEmptyStep(buf, start, later);
    var nl := IndexOfNewline(buf, start);
    var rest := NonEmpty(Lines(buf[nl + 1..] + later));
    if nl > start {
      Regroup(yielded, [buf[start..nl]], rest);
    } else {
      assert [] + rest == rest;
    }
  }

  /** The non-empty lines that end inside one chunk. */
  method SplitChunk(buf: seq<byte>, ghost later: seq<byte>) returns (yielded: seq<Line>, carry: seq<byte>)
    ensures NoNewline(carry, 0, |carry|)
    ensures NonEmpty(Lines(buf + later)) == yielded + NonEmpty(Lines(carry + later))
  {
    yielded := [];
    var start := 0;
    var nl := IndexOfNewline(buf, 0);
    ghost var whole := NonEmpty(Lines(buf + later));
    assert buf[0..] == buf && [] + whole == whole;
    while nl != -1
      invariant start <= |buf| && nl == IndexOfNewline(buf, start)
      invariant whole == yielded + NonEmpty(Lines(buf[start..] + later))
      decreases |buf| - start
    {
      SplitStep(buf, start, later, yielded, whole);
      if nl > start {
        yielded := yielded + [buf[start..nl]];
      }
      start := nl + 1;
      nl := IndexOfNewline(buf, start);
    }
    CarryHasNone(buf, start);
    carry := buf[start..];
  }

  lemma NextChunk(carry: seq<byte>, chunks: seq<seq<byte>>, c: nat)
    requires c < |chunks|
    ensures carry + Flat(chunks[c..]) == (carry + chunks[c]) + Flat(chunks[c + 1..])
  {
    assert chunks[c..][0] == chunks[c] && chunks[c..][1..] == chunks[c + 1..];
  }

  /** The lines a file's chunks hold, the empty ones left out: the same lines a scan delivers. */
  method JsonlLines(chunks: seq<seq<byte>>) returns (yielded: seq<Line>)
    ensures yielded == NonEmpty(Lines(Flat(chunks)))
  {
    yielded := [];
    var carry: seq<byte> := [];
    ghost var whole := NonEmpty(Lines(Flat(chunks)));
    assert [] + Flat(chunks) == Flat(chunks) && chunks[0..] == chunks;
    ghost var later := Flat(chunks);
    for c := 0 to |chunks|
      invariant NoNewline(carry, 0, |carry|) && later == Flat(chunks[c..])
      invariant whole == yielded + NonEmpty(Lines(carry + later))
    {
      NextChunk(carry, chunks, c);
      later := Flat(chunks[c + 1..]);
      var some, rest := SplitChunk(carry + chunks[c], later);
      Regroup(yielded, some, NonEmpty(Lines(rest + later)));
      yielded, carry := yielded + some, rest;
    }
    assert chunks[|chunks|..] == [] && carry + [] == carry;
    LinesOfCarry(carry);
    if |carry| > 0 {
      yielded := yielded + [carry];
    }
  }
}
