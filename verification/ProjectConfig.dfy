/** The comment loop of `stripJsonc` (scripts/project-config.ts), against a tokenizer of JSON with comments. */
module ProjectConfig {
  import opened Sequences

  datatype Token = Plain(c: char) | Literal(text: string) | LineComment(text: string) | BlockComment(text: string)

  predicate Starts(s: string, a: char, b: char) {
    |s| >= 2 && s[0] == a && s[1] == b
  }

  /** Inside a literal: the characters up to and with the closing quote, or all there are. */
  function LiteralLength(s: string, escaped: bool): (n: nat)
    ensures n <= |s|
  {
    if s == [] then 0
    else if !escaped && s[0] == '"' then 1
    else 1 + LiteralLength(s[1..], !escaped && s[0] == '\\')
  }

  /** From a line comment's opener: the characters up to and with the line break, or all there are. */
  function LineLength(s: string): (n: nat)
    ensures n <= |s|
  {
    if s == [] then 0 else if s[0] == '\n' then 1 else 1 + LineLength(s[1..])
  }

  /** After a block comment's opener: the characters up to and with the closing mark, or all there are. */
  function BlockLength(s: string): (n: nat)
    ensures n <= |s|
  {
    if s == [] then 0 else if Starts(s, '*', '/') then 2 else 1 + BlockLength(s[1..])
  }

  function TokenLength(s: string): (n: nat)
    requires s != []
    ensures 0 < n <= |s|
  {
    if s[0] == '"' then 1 + LiteralLength(s[1..], false)
    else if Starts(s, '/', '/') then LineLength(s)
    else if Starts(s, '/', '*') then 2 + BlockLength(s[2..])
    else 1
  }

  function FirstToken(s: string): Token
    requires s != []
  {
    var text := s[..TokenLength(s)];
    if s[0] == '"' then Literal(text)
    else if Starts(s, '/', '/') then LineComment(text)
    else if Starts(s, '/', '*') then BlockComment(text)
    else Plain(s[0])
  }

  function Tokens(s: string): seq<Token>
    decreases |s|
  {
    if s == [] then [] else [FirstToken(s)] + Tokens(s[TokenLength(s)..])
  }

  /** A token with its comments stripped: the line break after a line comment stays, or is put there at the end. */
  function Stripped(t: Token): string {
    match t
    case Plain(c) => [c]
    case Literal(text) => text
    case LineComment(_) => "\n"
    case BlockComment(_) => ""
  }

  function Written(ts: seq<Token>): string {
    if ts == [] then "" else Stripped(ts[0]) + Written(ts[1..])
  }

  function Strip(s: string): string {
    Written(Tokens(s))
  }

  /** The same on tokens. */
  function Kept(ts: seq<Token>): seq<Token> {
    if ts == [] then []
    else
      (match ts[0]
       case LineComment(_) => [Plain('\n')]
       case BlockComment(_) => []
       case _ => [ts[0]]) + Kept(ts[1..])
  }

  function Literals(ts: seq<Token>): seq<string> {
    if ts == [] then [] else (if ts[0].Literal? then [ts[0].text] else []) + Literals(ts[1..])
  }

  predicate IsComment(t: Token) {
    t.LineComment? || t.BlockComment?
  }

  lemma StripStep(s: string)
    requires s != []
    ensures Tokens(s) == [FirstToken(s)] + Tokens(s[TokenLength(s)..])
    ensures Strip(s) == Stripped(FirstToken(s)) + Strip(s[TokenLength(s)..])
  {
    assert Tokens(s)[1..] == Tokens(s[TokenLength(s)..]);
  }

  // ---- the loop -----------------------------------------------------------------------------------------

  /** What is still to be written from here, in or out of a literal. */
  function Rest(s: string, inString: bool, escaped: bool): string {
    if inString then s[..LiteralLength(s, escaped)] + Strip(s[LiteralLength(s, escaped)..]) else Strip(s)
  }

  lemma CutAfterFirst(s: string, n: nat)
    requires 0 < n <= |s|
    ensures s[..n] == [s[0]] + s[1..][..n - 1] && s[n..] == s[1..][n - 1..]
  {
  }

  lemma InLiteral(s: string, escaped: bool)
    requires s != []
    ensures Rest(s, true, escaped)
         == [s[0]] + Rest(s[1..], escaped || s[0] != '"', !escaped && s[0] == '\\')
  {
    CutAfterFirst(s, LiteralLength(s, escaped));
    if !escaped && s[0] == '"' {
      assert s[..1] == [s[0]];
    } else {
      var m := LiteralLength(s[1..], !escaped && s[0] == '\\');
      assert LiteralLength(s, escaped) == m + 1;
      Regroup([s[0]], s[1..][..m], Strip(s[1..][m..]));
    }
  }

  lemma OpensLiteral(s: string)
    requires s != [] && s[0] == '"'
    ensures Rest(s, false, false) == [s[0]] + Rest(s[1..], true, false)
  {
    StripStep(s);
    CutAfterFirst(s, TokenLength(s));
    var m := LiteralLength(s[1..], false);
    Regroup([s[0]], s[1..][..m], Strip(s[1..][m..]));
  }

  /** The text from `i` on; the loop may step past the end. */
  function From(src: string, i: nat): string {
    if i <= |src| then src[i..] else ""
  }

  lemma FromNext(src: string, i: nat)
    requires i < |src|
    ensures From(src, i) == [src[i]] + From(src, i + 1)
  {
  }

  lemma FromOn(src: string, i: nat, n: nat)
    requires i + n <= |src|
    ensures From(src, i)[n..] == From(src, i + n)
  {
  }

  lemma LineGoesOn(src: string, i: nat)
    requires i < |src| && src[i] != '\n'
    ensures LineLength(From(src, i)) == 1 + LineLength(From(src, i + 1))
  {
    assert From(src, i)[1..] == From(src, i + 1);
  }

  lemma LineStops(src: string, i: nat)
    requires i <= |src| && (i < |src| ==> src[i] == '\n')
    ensures LineLength(From(src, i)) == if i < |src| then 1 else 0
  {
  }

  lemma BlockGoesOn(src: string, i: nat)
    requires i < |src| && !(src[i] == '*' && i + 1 < |src| && src[i + 1] == '/')
    ensures BlockLength(From(src, i)) == 1 + BlockLength(From(src, i + 1))
  {
    assert From(src, i)[1..] == From(src, i + 1);
  }

  lemma BlockStops(src: string, i: nat)
    requires i <= |src| && (i < |src| ==> src[i] == '*' && i + 1 < |src| && src[i + 1] == '/')
    ensures BlockLength(From(src, i)) == if i < |src| then 2 else 0
  {
  }

  method SkipLine(src: string, start: nat) returns (i: nat)
    requires start < |src|
    ensures start <= i <= |src| && From(src, i + 1) == From(src, start + LineLength(From(src, start)))
  {
    i := start;
    ghost var n := LineLength(From(src, start));
    while i < |src| && src[i] != '\n'
      invariant start <= i <= |src|
      invariant n == i - start + LineLength(From(src, i))
    {
      LineGoesOn(src, i);
      i := i + 1;
    }
    LineStops(src, i);
    assert start + n == if i < |src| then i + 1 else i;
  }

  method SkipBlock(src: string, start: nat) returns (i: nat)
    requires start <= |src|
    ensures start <= i <= |src| && From(src, i + 2) == From(src, start + BlockLength(From(src, start)))
  {
    i := start;
    ghost var n := BlockLength(From(src, start));
    while i < |src| && !(src[i] == '*' && i + 1 < |src| && src[i + 1] == '/')
      invariant start <= i <= |src|
      invariant n == i - start + BlockLength(From(src, i))
    {
      BlockGoesOn(src, i);
      i := i + 1;
    }
    BlockStops(src, i);
    assert start + n == if i < |src| then i + 2 else i;
  }

  /** What the loop still has to write when it comes to character `i`. */
  function Todo(src: string, i: nat, inString: bool, escaped: bool): string {
    Rest(From(src, i), inString, escaped)
  }

  lemma TodoInLiteral(src: string, i: nat, escaped: bool)
    requires i < |src|
    ensures Todo(src, i, true, escaped)
         == [src[i]] + Todo(src, i + 1, escaped || src[i] != '"', !escaped && src[i] == '\\')
  {
    FromNext(src, i);
    InLiteral(From(src, i), escaped);
  }

  datatype Emit = Emit(next: nat, written: string)

  /** Outside a literal and not at a quote: where the loop goes on, and what it writes. */
  function StepOf(src: string, i: nat): Emit
    requires i < |src|
  {
    if src[i] == '/' && i + 1 < |src| && src[i + 1] == '/' then Emit(i + LineLength(From(src, i)), "\n")
    else if src[i] == '/' && i + 1 < |src| && src[i + 1] == '*' then Emit(i + 2 + BlockLength(From(src, i + 2)), "")
    else Emit(i + 1, [src[i]])
  }

  lemma StepIsToken(src: string, i: nat)
    requires i < |src| && src[i] != '"'
    ensures var s := From(src, i);
            StepOf(src, i) == Emit(i + TokenLength(s), Stripped(FirstToken(s)))
  {
    if i + 2 <= |src| {
      FromOn(src, i, 2);
    }
  }

  lemma TodoInCode(src: string, i: nat)
    requires i < |src|
    ensures var s := From(src, i);
            Todo(src, i, false, false) == Stripped(FirstToken(s)) + Todo(src, i + TokenLength(s), false, false)
  {
    StripStep(From(src, i));
    FromOn(src, i, TokenLength(From(src, i)));
  }

  lemma TodoAtQuote(src: string, i: nat)
    requires i < |src| && src[i] == '"'
    ensures Todo(src, i, false, false) == [src[i]] + Todo(src, i + 1, true, false)
  {
    FromNext(src, i);
    OpensLiteral(From(src, i));
  }

  /** One step of the loop outside a literal and not at a quote. */
  method StepInCode(src: string, i: nat) returns (next: nat, written: string)
    requires i < |src| && src[i] != '"'
    ensures next > i && From(src, next) == From(src, StepOf(src, i).next) && written == StepOf(src, i).written
  {
    if src[i] == '/' && i + 1 < |src| && src[i + 1] == '/' {
      var end := SkipLine(src, i);
      return end + 1, "\n";
    } else if src[i] == '/' && i + 1 < |src| && src[i + 1] == '*' {
      var end := SkipBlock(src, i + 2);
      return end + 2, "";
    }
    return i + 1, [src[i]];
  }

  method NextToken(src: string, i: nat) returns (next: nat, written: string)
    requires i < |src| && src[i] != '"'
    ensures next > i && From(src, next) == From(src, i + TokenLength(From(src, i)))
    ensures written == Stripped(FirstToken(From(src, i)))
  {
    next, written := StepInCode(src, i);
    StepIsToken(src, i);
  }

  method StripJsonc(src: string) returns (out: string)
    ensures out == Strip(src)
  {
    out := "";
    var inString, escaped := false, false;
    var i: nat := 0;
    assert From(src, 0) == src;
    while i < |src|
      invariant !inString ==> !escaped
      invariant out + Todo(src, i, inString, escaped) == Strip(src)
      decreases |src| - i
    {
      var c := src[i];
      if inString {
        TodoInLiteral(src, i, escaped);
        Regroup(out, [c], Todo(src, i + 1, escaped || c != '"', !escaped && c == '\\'));
        out := out + [c];
        if escaped {
          escaped := false;
        } else if c == '\\' {
          escaped := true;
        } else if c == '"' {
          inString := false;
        }
        i := i + 1;
      } else if c == '"' {
        TodoAtQuote(src, i);
        Regroup(out, [c], Todo(src, i + 1, true, false));
        inString := true;
        out := out + [c];
        i := i + 1;
      } else {
        TodoInCode(src, i);
        var next, written := NextToken(src, i);
        Regroup(out, written, Todo(src, next, false, false));
        out := out + written;
        i := next;
      }
    }
  }

  // ---- what stripping keeps -----------------------------------------------------------------------------

  /** The tokens are the text, cut. */
  function TextOf(ts: seq<Token>): string {
    if ts == [] then "" else (if ts[0].Plain? then [ts[0].c] else ts[0].text) + TextOf(ts[1..])
  }

  lemma FirstTokenIsItsText(s: string)
    requires s != []
    ensures var t := FirstToken(s);
            (if t.Plain? then [t.c] else t.text) + s[TokenLength(s)..] == s
  {
  }

  lemma {:induction false} TokensAreTheText(s: string)
    ensures TextOf(Tokens(s)) == s
    decreases |s|
  {
    if s != [] {
      StripStep(s);
      var n := TokenLength(s);
      TokensAreTheText(s[n..]);
      FirstTokenIsItsText(s);
    }
  }

  /** A literal ends where it ends, whatever is put after it in place of what was there. */
  lemma {:induction false} LiteralStays(s: string, escaped: bool, after: string)
    requires LiteralLength(s, escaped) == |s| ==> after == ""
    ensures LiteralLength(s[..LiteralLength(s, escaped)] + after, escaped) == LiteralLength(s, escaped)
  {
    var n := LiteralLength(s, escaped);
    if s == [] {
      assert s[..n] + after == "";
    } else {
      var t := s[..n] + after;
      if escaped || s[0] != '"' {
        LiteralStays(s[1..], !escaped && s[0] == '\\', after);
        assert t[1..] == s[1..][..n - 1] + after;
      }
    }
  }

  /** What follows a token that does not open with a slash still does after stripping. */
  lemma FirstStays(s: string)
    requires s != [] && s[0] != '/'
    ensures Strip(s) != [] && Strip(s)[0] == s[0]
  {
    StripStep(s);
  }

  /** Stripping takes the comments out of the token list and leaves every other token as it was. */
  lemma {:induction false} StripKeepsTokens(s: string)
    ensures Tokens(Strip(s)) == Kept(Tokens(s))
    decreases |s|
  {
    if s != [] {
      StripStep(s);
      var n, t := TokenLength(s), FirstToken(s);
      var rest := s[n..];
      StripKeepsTokens(rest);
      assert Tokens(s)[1..] == Tokens(rest);
      var out := Strip(rest);
      match t
      case Plain(c) =>
        if c == '/' && rest != [] {
          FirstStays(rest);
        }
        PlainFirst(c, out);
      case Literal(text) =>
        LiteralFirst(s, out);
      case LineComment(_) =>
        PlainFirst('\n', out);
      case BlockComment(_) =>
        assert "" + out == out;
    }
  }

  lemma PlainFirst(c: char, out: string)
    requires c != '"' && (c == '/' ==> out == "" || (out[0] != '/' && out[0] != '*'))
    ensures Tokens([c] + out) == [Plain(c)] + Tokens(out)
  {
    StripStep([c] + out);
    assert ([c] + out)[1..] == out;
  }

  lemma LiteralFirst(s: string, out: string)
    requires s != [] && s[0] == '"' && (TokenLength(s) == |s| ==> out == "")
    ensures Tokens(s[..TokenLength(s)] + out) == [Literal(s[..TokenLength(s)])] + Tokens(out)
  {
    var n := TokenLength(s);
    var t := s[..n] + out;
    LiteralStays(s[1..], false, out);
    assert t[1..] == s[1..][..n - 1] + out;
    StripStep(t);
    assert t[..n] == s[..n] && t[n..] == out;
  }

  predicate CommentFree(ts: seq<Token>) {
    forall t | t in ts :: !IsComment(t)
  }

  lemma {:induction false} KeptIsCommentFree(ts: seq<Token>)
    ensures Written(Kept(ts)) == Written(ts) && Literals(Kept(ts)) == Literals(ts)
    ensures CommentFree(Kept(ts))
  {
    if ts != [] {
      KeptIsCommentFree(ts[1..]);
      var rest := Kept(ts[1..]);
      if !ts[0].BlockComment? {
        assert Kept(ts)[1..] == rest;
      } else {
        assert Kept(ts) == rest;
      }
    }
  }

  lemma StripIdempotent(s: string)
    ensures Strip(Strip(s)) == Strip(s)
  {
    StripKeepsTokens(s);
    KeptIsCommentFree(Tokens(s));
  }

  /** Every string literal, in order and as written, and no other. */
  lemma StripKeepsLiterals(s: string)
    ensures Literals(Tokens(Strip(s))) == Literals(Tokens(s))
  {
    StripKeepsTokens(s);
    KeptIsCommentFree(Tokens(s));
  }

  // ---- comment openers ----------------------------------------------------------------------------------

  datatype Mode = Code | Quoted | Escaped

  function NextMode(mode: Mode, c: char): Mode {
    match mode
    case Code => if c == '"' then Quoted else Code
    case Quoted => if c == '"' then Code else if c == '\\' then Escaped else Quoted
    case Escaped => Quoted
  }

  /** No comment opener outside a string, read character by character. */
  predicate OpenerFree(s: string, mode: Mode) {
    s == [] ||
    (&& (mode == Code ==> !Starts(s, '/', '/') && !Starts(s, '/', '*'))
     && OpenerFree(s[1..], NextMode(mode, s[0])))
  }

  lemma {:induction false} OpenerFreeLiteral(s: string, escaped: bool)
    ensures var n := LiteralLength(s, escaped);
            OpenerFree(s, if escaped then Escaped else Quoted) <==> OpenerFree(s[n..], Code)
  {
    var n := LiteralLength(s, escaped);
    if s != [] && (escaped || s[0] != '"') {
      OpenerFreeLiteral(s[1..], !escaped && s[0] == '\\');
      assert s[n..] == s[1..][n - 1..];
    }
  }

  lemma CommentFreeNext(s: string)
    requires s != []
    ensures CommentFree(Tokens(s)) <==> !IsComment(FirstToken(s)) && CommentFree(Tokens(s[TokenLength(s)..]))
  {
    StripStep(s);
    var ts, rest := Tokens(s), Tokens(s[TokenLength(s)..]);
    assert FirstToken(s) in ts;
    forall t ensures t in ts <==> t == FirstToken(s) || t in rest { }
  }

  lemma OpenerFreeNext(s: string)
    requires s != []
    ensures OpenerFree(s, Code) <==> !IsComment(FirstToken(s)) && OpenerFree(s[TokenLength(s)..], Code)
  {
    if s[0] == '"' {
      OpenerFreeLiteral(s[1..], false);
      CutAfterFirst(s, TokenLength(s));
    }
  }

  lemma {:induction false} OpenerFreeMeansNoComment(s: string)
    ensures OpenerFree(s, Code) <==> CommentFree(Tokens(s))
    decreases |s|
  {
    if s != [] {
      OpenerFreeMeansNoComment(s[TokenLength(s)..]);
      CommentFreeNext(s);
      OpenerFreeNext(s);
    }
  }

  lemma StripLeavesNoOpener(s: string)
    ensures OpenerFree(Strip(s), Code)
  {
    StripKeepsTokens(s);
    KeptIsCommentFree(Tokens(s));
    OpenerFreeMeansNoComment(Strip(s));
  }

  lemma PlainTokenIsItsText(s: string)
    requires s != [] && !IsComment(FirstToken(s))
    ensures s == Stripped(FirstToken(s)) + s[TokenLength(s)..]
  {
    assert s == s[..TokenLength(s)] + s[TokenLength(s)..];
  }

  lemma {:induction false} NothingToStrip(s: string)
    requires CommentFree(Tokens(s))
    ensures Strip(s) == s
    decreases |s|
  {
    if s != [] {
      StripStep(s);
      CommentFreeNext(s);
      NothingToStrip(s[TokenLength(s)..]);
      PlainTokenIsItsText(s);
    }
  }

  /** Text is left as it is exactly when it has no comment opener outside its strings. */
  lemma UnchangedExactly(s: string)
    ensures Strip(s) == s <==> OpenerFree(s, Code)
  {
    OpenerFreeMeansNoComment(s);
    StripLeavesNoOpener(s);
    if OpenerFree(s, Code) {
      NothingToStrip(s);
    }
  }

  // ---- what goes --------------------------------------------------------------------------------------

  /** The first `k` characters hold no comment opener outside a string, and no string is open after them. */
  predicate CleanUpTo(s: string, mode: Mode, k: nat)
    requires k <= |s|
  {
    if k == 0 then mode == Code
    else && (mode == Code ==> !Starts(s, '/', '/') && !Starts(s, '/', '*'))
         && CleanUpTo(s[1..], NextMode(mode, s[0]), k - 1)
  }

  function RestIn(s: string, mode: Mode): string {
    Rest(s, mode != Code, mode == Escaped)
  }

  lemma OneCharacter(s: string, mode: Mode)
    requires s != [] && (mode == Code ==> !Starts(s, '/', '/') && !Starts(s, '/', '*'))
    ensures RestIn(s, mode) == [s[0]] + RestIn(s[1..], NextMode(mode, s[0]))
  {
    if mode != Code {
      InLiteral(s, mode == Escaped);
    } else if s[0] == '"' {
      OpensLiteral(s);
    } else {
      StripStep(s);
    }
  }

  lemma {:induction false} CleanFront(s: string, mode: Mode, k: nat)
    requires k <= |s| && CleanUpTo(s, mode, k)
    ensures RestIn(s, mode) == s[..k] + Strip(s[k..])
    decreases k
  {
    if k == 0 {
      assert s[..0] + Strip(s[0..]) == Strip(s) && s[0..] == s;
    } else {
      OneCharacter(s, mode);
      CleanFront(s[1..], NextMode(mode, s[0]), k - 1);
      CutAfterFirst(s, k);
      Regroup([s[0]], s[1..][..k - 1], Strip(s[k..]));
    }
  }

  predicate CloserAt(s: string, k: nat) {
    k + 1 < |s| && s[k] == '*' && s[k + 1] == '/'
  }

  lemma {:induction false} BlockLengthIs(s: string, n: nat)
    requires n <= |s| && forall k | 0 <= k < n :: !CloserAt(s, k)
    requires n < |s| ==> CloserAt(s, n)
    ensures BlockLength(s) == if n < |s| then n + 2 else n
  {
    if n > 0 {
      assert !CloserAt(s, 0);
      assert forall k: nat :: CloserAt(s[1..], k) <==> CloserAt(s, k + 1);
      BlockLengthIs(s[1..], n - 1);
    }
  }

  lemma {:induction false} LineLengthIs(s: string, n: nat)
    requires n <= |s| && '\n' !in s[..n] && (n < |s| ==> s[n] == '\n')
    ensures LineLength(s) == if n < |s| then n + 1 else n
  {
    if n > 0 {
      assert s[..n][0] == s[0];
      CutAfterFirst(s, n);
      LineLengthIs(s[1..], n - 1);
    }
  }

  lemma BlockFirst(s: string, inside: string, n: nat)
    requires Starts(s, '/', '*') && inside == s[2..] && n <= |inside|
    requires (forall m | 0 <= m < n :: !CloserAt(inside, m)) && (n < |inside| ==> CloserAt(inside, n))
    ensures Strip(s) == if n < |inside| then Strip(inside[n + 2..]) else ""
  {
    var after := if n < |inside| then n + 2 else n;
    BlockLengthIs(inside, n);
    OpenedBlock(s, inside, after);
  }

  lemma OpenedBlock(s: string, inside: string, after: nat)
    requires Starts(s, '/', '*') && inside == s[2..] && after == BlockLength(inside)
    ensures Strip(s) == Strip(inside[after..])
  {
    StripStep(s);
    DropTwice(s, 2, after);
  }

  lemma LineFirst(s: string, n: nat)
    requires Starts(s, '/', '/') && n <= |s| && '\n' !in s[..n] && (n < |s| ==> s[n] == '\n')
    ensures Strip(s) == "\n" + if n < |s| then Strip(s[n + 1..]) else ""
  {
    LineLengthIs(s, n);
    StripStep(s);
    if n == |s| {
      assert s[|s|..] == "";
    }
  }

  /**
   * A block comment, the first comment of a text: what stands before it stays, all of it up to the first closing
   * mark after its opener goes, and the rest is stripped in its turn. Without a closing mark all of the rest goes.
   */
  lemma BlockCommentGoes(s: string, k: nat, inside: string, n: nat)
    requires k <= |s| && CleanUpTo(s, Code, k) && Starts(s[k..], '/', '*') && inside == s[k..][2..] && n <= |inside|
    requires (forall m | 0 <= m < n :: !CloserAt(inside, m)) && (n < |inside| ==> CloserAt(inside, n))
    ensures Strip(s) == s[..k] + if n < |inside| then Strip(inside[n + 2..]) else ""
  {
    CleanFront(s, Code, k);
    BlockFirst(s[k..], inside, n);
  }

  /** A line comment, likewise: it goes up to the line break, which stays, or is put at the end. */
  lemma LineCommentGoes(s: string, k: nat, comment: string, n: nat)
    requires k <= |s| && CleanUpTo(s, Code, k) && Starts(s[k..], '/', '/') && comment == s[k..] && n <= |comment|
    requires '\n' !in comment[..n] && (n < |comment| ==> comment[n] == '\n')
    ensures Strip(s) == s[..k] + ("\n" + if n < |comment| then Strip(comment[n + 1..]) else "")
  {
    CleanFront(s, Code, k);
    LineFirst(comment, n);
  }

  /** A text with nothing to strip is written as it is, and any other has a first comment. */
  lemma {:induction false} FirstComment(s: string, mode: Mode)
    ensures OpenerFree(s, mode) <==> forall k: nat | k <= |s| && CleanUpTo(s, mode, k) :: !Starts(s[k..], '/', '/') && !Starts(s[k..], '/', '*')
  {
    assert s[0..] == s;
    if s != [] {
      FirstComment(s[1..], NextMode(mode, s[0]));
      forall k: nat | 0 < k <= |s| ensures s[k..] == s[1..][k - 1..] { }
      if OpenerFree(s, mode) {
        forall k: nat | k <= |s| && CleanUpTo(s, mode, k) ensures !Starts(s[k..], '/', '/') && !Starts(s[k..], '/', '*') {
          if k > 0 {
            assert CleanUpTo(s[1..], NextMode(mode, s[0]), k - 1);
          }
        }
      } else if mode == Code ==> !Starts(s, '/', '/') && !Starts(s, '/', '*') {
        var k: nat :| k <= |s[1..]| && CleanUpTo(s[1..], NextMode(mode, s[0]), k)
                      && !(!Starts(s[1..][k..], '/', '/') && !Starts(s[1..][k..], '/', '*'));
        assert CleanUpTo(s, mode, k + 1) && s[k + 1..] == s[1..][k..];
      } else {
        assert CleanUpTo(s, mode, 0);
      }
    }
  }
}
