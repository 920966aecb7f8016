/** One line of a CSV document, split into its cells (`csvCells` of scripts/parity-sweep.ts). */
module ParitySweep {
  const QUOTE := '"'
  const COMMA := ','

  /** The cells of what is left of a line, after `cells`, inside a cell that so far reads `cell`. */
  function Scan(rest: string, cells: seq<string>, cell: string, quoted: bool): seq<string>
    decreases |rest|
  {
    if rest == [] then cells + [cell]
    else if quoted then
      if rest[0] != QUOTE then Scan(rest[1..], cells, cell + [rest[0]], true)
      else if |rest| > 1 && rest[1] == QUOTE then Scan(rest[2..], cells, cell + [QUOTE], true)
      else Scan(rest[1..], cells, cell, false)
    else if rest[0] == QUOTE then Scan(rest[1..], cells, cell, true)
    else if rest[0] == COMMA then Scan(rest[1..], cells + [cell], [], false)
    else Scan(rest[1..], cells, cell + [rest[0]], false)
  }

  method CsvCells(line: string) returns (cells: seq<string>)
    ensures cells == Scan(line, [], [], false)
  {
    cells := [];
    var cell := "";
    var quoted := false;
    var i := 0;
    assert line[0..] == line;
    while i < |line|
      invariant i <= |line|
      invariant Scan(line[i..], cells, cell, quoted) == Scan(line, [], [], false)
    {
      var ch := line[i];
      assert line[i..][1..] == line[i + 1..];
      if quoted {
        if ch != QUOTE {
          cell := cell + [ch];
        } else if i + 1 < |line| && line[i + 1] == QUOTE {
          assert line[i..][2..] == line[i + 2..];
          cell := cell + [QUOTE];
          i := i + 1;
        } else {
          quoted := false;
        }
      } else if ch == QUOTE {
        quoted := true;
      } else if ch == COMMA {
        cells := cells + [cell];
        cell := "";
      } else {
        cell := cell + [ch];
      }
      i := i + 1;
    }
    assert line[i..] == [];
    cells := cells + [cell];
  }

  // ---- section 2 of RFC 4180 ------------------------------------------------------------------------------

  /** Quotes doubled (rule 7). */
  function Doubled(cell: string): string {
    if cell == [] then []
    else (if cell[0] == QUOTE then [QUOTE, QUOTE] else [cell[0]]) + Doubled(cell[1..])
  }

  /** A cell that cannot stand bare (rule 6). */
  predicate NeedsQuotes(cell: string) {
    COMMA in cell || QUOTE in cell || '\r' in cell || '\n' in cell
  }

  /** Any cell may be quoted (rule 5), and one that needs to be is. */
  function Encoded(cell: string, quoted: bool): string {
    if quoted || NeedsQuotes(cell) then [QUOTE] + Doubled(cell) + [QUOTE] else cell
  }

  /** A record of cells, each quoted or not. */
  function Joined(cells: seq<string>, quoted: seq<bool>): string
    requires |cells| == |quoted|
  {
    if cells == [] then []
    else Encoded(cells[0], quoted[0]) + if |cells| == 1 then [] else [COMMA] + Joined(cells[1..], quoted[1..])
  }

  lemma {:induction false} ScanBare(text: string, rest: string, cells: seq<string>, cell: string)
    requires COMMA !in text && QUOTE !in text
    ensures Scan(text + rest, cells, cell, false) == Scan(rest, cells, cell + text, false)
  {
    if text == [] {
      assert text + rest == rest && cell + text == cell;
    } else {
      assert (text + rest)[1..] == text[1..] + rest;
      assert cell + [text[0]] + text[1..] == cell + text;
      ScanBare(text[1..], rest, cells, cell + [text[0]]);
    }
  }

  /** The inside of a quoted cell, up to the quote that ends it. */
  lemma {:induction false} ScanQuoted(text: string, rest: string, cells: seq<string>, cell: string)
    requires rest == [] || rest[0] != QUOTE
    ensures Scan(Doubled(text) + [QUOTE] + rest, cells, cell, true) == Scan(rest, cells, cell + text, false)
  {
    var all := Doubled(text) + [QUOTE] + rest;
    if text == [] {
      assert all == [QUOTE] + rest && all[1..] == rest && cell + text == cell;
    } else {
      var tail := Doubled(text[1..]) + [QUOTE] + rest;
      assert cell + [text[0]] + text[1..] == cell + text;
      if text[0] == QUOTE {
        assert all[2..] == tail;
      } else {
        assert all[1..] == tail;
      }
      ScanQuoted(text[1..], rest, cells, cell + [text[0]]);
    }
  }

  /** One encoded cell, before a comma or the end of the line. */
  lemma ScanEncoded(text: string, quoted: bool, rest: string, cells: seq<string>)
    requires rest == [] || rest[0] == COMMA
    ensures Scan(Encoded(text, quoted) + rest, cells, [], false) == Scan(rest, cells, text, false)
  {
    assert [] + text == text;
    if quoted || NeedsQuotes(text) {
      var all := Encoded(text, quoted) + rest;
      assert all[1..] == Doubled(text) + [QUOTE] + rest;
      ScanQuoted(text, rest, cells, []);
    } else {
      ScanBare(text, rest, cells, []);
    }
  }

  lemma {:induction false} ScanJoined(cells: seq<string>, quoted: seq<bool>, before: seq<string>)
    requires |cells| == |quoted| && cells != []
    ensures Scan(Joined(cells, quoted), before, [], false) == before + cells
  {
    var rest := if |cells| == 1 then [] else [COMMA] + Joined(cells[1..], quoted[1..]);
    ScanEncoded(cells[0], quoted[0], rest, before);
    if |cells| > 1 {
      assert rest[1..] == Joined(cells[1..], quoted[1..]);
      ScanJoined(cells[1..], quoted[1..], before + [cells[0]]);
      assert before + [cells[0]] + cells[1..] == before + cells;
    } else {
      assert before + cells == before + [cells[0]];
    }
  }

  /** csvCells undoes the encoding: every non-empty record, however it chose to quote, reads back as its cells. */
  lemma CellsRoundTrip(cells: seq<string>, quoted: seq<bool>)
    requires |cells| == |quoted| && cells != []
    ensures Scan(Joined(cells, quoted), [], [], false) == cells
  {
    ScanJoined(cells, quoted, []);
    assert [] + cells == cells;
  }

  /** Records are never confused: one line is the encoding of one list of cells. */
  lemma EncodingIsInjective(a: seq<string>, qa: seq<bool>, b: seq<string>, qb: seq<bool>)
    requires |a| == |qa| && |b| == |qb| && a != [] && b != []
    requires Joined(a, qa) == Joined(b, qb)
    ensures a == b
  {
    CellsRoundTrip(a, qa);
    CellsRoundTrip(b, qb);
  }

  // ---- any line at all ----------------------------------------------------------------------------------

  /** The quotes among the first `n` characters. */
  function Quotes(line: string, n: nat): nat
    requires n <= |line|
  {
    if n == 0 then 0 else Quotes(line, n - 1) + if line[n - 1] == QUOTE then 1 else 0
  }

  /** An even number of quotes before a character leaves it outside them. */
  predicate Outside(line: string, k: nat)
    requires k <= |line|
  {
    Quotes(line, k) % 2 == 0
  }

  /** The characters that reach a cell: all but quotes and commas outside quotes, and the later of two quotes in a row inside them. */
  predicate Reaches(line: string, k: nat)
    requires k < |line|
  {
    if line[k] == QUOTE then Outside(line, k) && 0 < k && line[k - 1] == QUOTE
    else line[k] != COMMA || !Outside(line, k)
  }

  /** The cells of the first `n` characters: a new one after every comma outside quotes. */
  function CellsOf(line: string, n: nat): (cells: seq<string>)
    requires n <= |line|
    ensures cells != []
  {
    if n == 0 then [""]
    else
      var before := CellsOf(line, n - 1);
      var last := |before| - 1;
      if Reaches(line, n - 1) then before[..last] + [before[last] + [line[n - 1]]]
      else if line[n - 1] == COMMA then before + [""]
      else before
  }

  lemma CellGrows(line: string, i: nat, cells: seq<string>, cell: string)
    requires i < |line| && CellsOf(line, i) == cells + [cell]
    ensures CellsOf(line, i + 1) ==
            if Reaches(line, i) then cells + [cell + [line[i]]] else if line[i] == COMMA then cells + [cell] + [""] else cells + [cell]
  {
  }

  /** The loop's state at a character it comes to: in quotes or not, and never at the later of two quotes in a row. */
  predicate StateFits(line: string, i: nat, quoted: bool)
    requires i <= |line|
  {
    && (quoted <==> !Outside(line, i))
    && (!quoted && 0 < i < |line| && line[i - 1] == QUOTE ==> line[i] != QUOTE)
  }

  lemma {:induction false} ScanIs(line: string, i: nat, cells: seq<string>, cell: string, quoted: bool)
    requires i <= |line| && StateFits(line, i, quoted) && CellsOf(line, i) == cells + [cell]
    ensures Scan(line[i..], cells, cell, quoted) == CellsOf(line, |line|)
    decreases |line| - i
  {
    if i < |line| {
      var c := line[i];
      assert line[i..][1..] == line[i + 1..];
      CellGrows(line, i, cells, cell);
      if quoted && c == QUOTE && i + 1 < |line| && line[i + 1] == QUOTE {
        assert line[i..][2..] == line[i + 2..];
        CellGrows(line, i + 1, cells, cell);
        ScanIs(line, i + 2, cells, cell + [QUOTE], true);
      } else if c == QUOTE {
        ScanIs(line, i + 1, cells, cell, !quoted);
      } else if c == COMMA && !quoted {
        ScanIs(line, i + 1, cells + [cell], "", false);
      } else {
        ScanIs(line, i + 1, cells, cell + [c], quoted);
      }
    }
  }

  /**
   * Whatever the line, its quotes in order or not: the cells part at the commas with an even number of quotes
   * before them, and hold what is not such a comma and not a quote, and one quote for each doubled one.
   */
  lemma CellsOfAnyLine(line: string)
    ensures Scan(line, [], [], false) == CellsOf(line, |line|)
  {
    assert line[0..] == line && [] + [""] == [""];
    ScanIs(line, 0, [], "", false);
  }
}
