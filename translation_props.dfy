/**
 * What the template compiler guarantees, stated over the step functions of
 * translation.dfy: the shape of generated lines, the flush, the block stack
 * discipline, the directive arities and the invariants of a whole run.
 */
module TranslationProps {
  import opened Wrappers
  import opened PyStr
  import opened Tokens
  import opened Directives
  import opened Translation

  // ------------------------------------------------------- generated lines

  /** Line `k` of the indented lines is line `k` of the source, indented and stripped. */
  lemma {:induction false} IndentLinesAt(depth: nat, lines: seq<string>, k: nat)
    requires k < |lines|
    ensures IndentLines(depth, lines)[k] == Indent(depth) + Strip(lines[k], UniSpace)
    decreases |lines|
  {
    if k < |lines| - 1 {
      IndentLinesAt(depth, lines[..|lines| - 1], k);
    }
  }

  /** Every generated line is the indentation of its depth followed by a stripped statement line. */
  lemma CodeLinesShape(depth: nat, stmt: string)
    ensures forall k :: 0 <= k < |CodeLines(depth, stmt)| ==>
      |CodeLines(depth, stmt)[k]| >= 2 * depth && CodeLines(depth, stmt)[k][..2 * depth] == Indent(depth)
      && Strip(CodeLines(depth, stmt)[k][2 * depth..], UniSpace) == CodeLines(depth, stmt)[k][2 * depth..]
  {
    var lines := SplitLines(stmt, UniLineBreak, false);
    forall k | 0 <= k < |lines|
      ensures |CodeLines(depth, stmt)[k]| >= 2 * depth && CodeLines(depth, stmt)[k][..2 * depth] == Indent(depth)
      ensures Strip(CodeLines(depth, stmt)[k][2 * depth..], UniSpace) == CodeLines(depth, stmt)[k][2 * depth..]
    {
      IndentLinesAt(depth, lines, k);
      var c := CodeLines(depth, stmt)[k];
      assert c == Indent(depth) + Strip(lines[k], UniSpace);
      assert c[2 * depth..] == Strip(lines[k], UniSpace);
      StripIdempotent(lines[k], UniSpace);
    }
  }

  /** Right-stripping keeps every character up to the last one outside the class. */
  lemma RStripKeeps(s: string, ws: CharClass, i: nat)
    requires i < |s| && !In(ws, s[i])
    ensures i < |RStrip(s, ws)|
  {
  }

  /** A statement that starts with `n` characters that are neither blanks nor line ends keeps them at the head of its first code line. */
  lemma StripFirstLineKeeps(stmt: string, n: nat)
    requires 0 < n <= |stmt|
    requires forall j :: 0 <= j < n ==> !In(UniLineBreak, stmt[j]) && !In(UniSpace, stmt[j])
    ensures SplitLines(stmt, UniLineBreak, false) != []
    ensures var t := Strip(SplitLines(stmt, UniLineBreak, false)[0], UniSpace);
      |t| >= n && t[..n] == stmt[..n]
  {
    var lines := SplitLines(stmt, UniLineBreak, false);
    var b := BreakIndex(stmt, UniLineBreak);
    assert b >= n;
    assert lines[0] == stmt[..b];
    var l := lines[0];
    assert SkipIn(l, UniSpace, 0) == 0;
    assert LStrip(l, UniSpace) == l;
    RStripKeeps(l, UniSpace, n - 1);
  }

  /** Such a statement's first code line is the indentation followed by those characters. */
  lemma CodeLinesHead(depth: nat, stmt: string, n: nat)
    requires 0 < n <= |stmt|
    requires forall j :: 0 <= j < n ==> !In(UniLineBreak, stmt[j]) && !In(UniSpace, stmt[j])
    ensures CodeLines(depth, stmt) != []
    ensures |CodeLines(depth, stmt)[0]| >= 2 * depth + n
    ensures CodeLines(depth, stmt)[0][..2 * depth + n] == Indent(depth) + stmt[..n]
  {
    StripFirstLineKeeps(stmt, n);
    var lines := SplitLines(stmt, UniLineBreak, false);
    IndentLinesAt(depth, lines, 0);
    var t := Strip(lines[0], UniSpace);
    assert CodeLines(depth, stmt)[0] == Indent(depth) + t;
    PrefixOfConcat(Indent(depth), t, n);
  }

  /** The first line of a flushed statement is `_printlist([` at the current depth. */
  lemma FlushStatementFirstLine(depth: nat, repr: string -> string, pending: seq<seq<Token>>)
    ensures CodeLines(depth, FlushStatement(repr, pending)) != []
    ensures var first := CodeLines(depth, FlushStatement(repr, pending))[0];
      |first| >= 2 * depth + 12 && first[..2 * depth + 12] == Indent(depth) + "_printlist(["
  {
    var stmt := FlushStatement(repr, pending);
    var head := "_printlist([";
    assert stmt[..12] == head;
    assert forall j :: 0 <= j < 12 ==> stmt[j] == head[j];
    CodeLinesHead(depth, stmt, 12);
  }

  lemma PrefixOfConcat(a: string, t: string, n: nat)
    requires n <= |t|
    ensures (a + t)[..|a| + n] == a + t[..n]
  {
  }

  // ------------------------------------------------------------------ flush

  /**
   * A flush empties the text buffer and changes nothing but the code: with
   * no text pending it emits nothing, otherwise exactly the one `_printlist`
   * statement for all pending lines, at the current depth.
   */
  lemma FlushEffect(h: Host, s: TState)
    ensures var r := Flush(h, s);
      r.pending == [] && r.stack == s.stack && r.multiline == s.multiline && r.oneline == s.oneline
      && r.encoding == s.encoding && r.lineno == s.lineno
      && (s.pending == [] ==> r.code == s.code)
      && (s.pending != [] ==> r.code == s.code + CodeLines(|s.stack|, FlushStatement(h.repr, s.pending)))
  {
  }

  /** The flushed text keeps source order: each further line is appended after a backslash-newline. */
  lemma FlushBodyAppend(repr: string -> string, pending: seq<seq<Token>>, toks: seq<Token>)
    ensures pending == [] ==> FlushBody(repr, pending + [toks]) == LineCode(repr, toks)
    ensures pending != [] ==>
      FlushBody(repr, pending + [toks]) == FlushBody(repr, pending) + "\\\n" + LineCode(repr, toks)
  {
    assert (pending + [toks])[..|pending|] == pending;
    if pending != [] {
      JoinSepAppend(LineCodes(repr, pending), [LineCode(repr, toks)], "\\\n");
    }
  }

  /** Within one text line, the tokens' expressions appear in order, separated by `, `. */
  lemma LineCodeAppend(repr: string -> string, toks: seq<Token>, t: Token)
    ensures toks == [] ==> LineCode(repr, toks + [t]) == TokenCode(repr, t)
    ensures toks != [] ==> LineCode(repr, toks + [t]) == LineCode(repr, toks) + ", " + TokenCode(repr, t)
  {
    assert (toks + [t])[..|toks|] == toks;
    if toks != [] {
      JoinSepAppend(TokenCodes(repr, toks), [TokenCode(repr, t)], ", ");
    }
  }

  // ----------------------------------------------------------- block lines

  /** A line ending in `:` does not end in a backslash. */
  lemma ColonIsNotContinuation(cline: string)
    requires EndsWith(cline, ":")
    ensures !EndsWith(cline, "\\")
  {
    assert cline[|cline| - 1] == ':';
  }

  /** A block keyword, and any directive while a continuation is pending, is handled as a block line. */
  lemma ExecuteBlockLine(h: Host, s: TState, d: Directive)
    requires d.cmd in Blocks || s.multiline.Some?
    ensures Execute(h, s, d) == BlockStep(s, d.body, d.cline, d.cmd)
  {
  }

  /**
   * A block keyword that is not a dedent (or follows a one-line block) is
   * emitted at the current depth and pushes exactly one frame if its body
   * ends with `:`, none otherwise; a trailing backslash remembers the keyword.
   */
  lemma BlockOpensFrame(s: TState, body: string, cline: string, cmd: string)
    requires cmd in Blocks && s.multiline.None? && !(cmd in DedentBlocks && !s.oneline)
    ensures BlockStep(s, body, cline, cmd).Success?
    ensures var r := BlockStep(s, body, cline, cmd).value;
      r.code == s.code + CodeLines(|s.stack|, body)
      && r.stack == (if EndsWith(cline, ":") then s.stack + [cmd] else s.stack)
      && r.multiline == (if EndsWith(cline, "\\") then Some(cmd) else None)
      && r.oneline == !EndsWith(cline, ":")
  {
    if EndsWith(cline, ":") { ColonIsNotContinuation(cline); }
  }

  /**
   * A dedent keyword after a block line that was not one-line closes the
   * open frame, is emitted one level shallower, and re-opens the frame under
   * the popped keyword when it ends with `:`, so the depth is unchanged.
   */
  lemma DedentReopensFrame(s: TState, body: string, cline: string, cmd: string)
    requires cmd in DedentBlocks && !s.oneline && s.multiline.None? && s.stack != []
    ensures BlockStep(s, body, cline, cmd).Success?
    ensures var r := BlockStep(s, body, cline, cmd).value; var top := s.stack[|s.stack| - 1];
      r.code == s.code + CodeLines(|s.stack| - 1, body)
      && r.stack == (if EndsWith(cline, ":") then s.stack else s.stack[..|s.stack| - 1])
      && r.multiline == (if EndsWith(cline, "\\") then Some(top) else None)
  {
    if EndsWith(cline, ":") {
      ColonIsNotContinuation(cline);
      assert s.stack[..|s.stack| - 1] + [s.stack[|s.stack| - 1]] == s.stack;
    }
  }

  /** A dedent keyword with no open frame is an error (the pop of an empty list). */
  lemma DedentWithoutFrameFails(s: TState, body: string, cline: string, cmd: string)
    requires cmd in DedentBlocks && !s.oneline && s.multiline.None? && s.stack == []
    ensures BlockStep(s, body, cline, cmd) == Failure(PopFromEmptyStack(s.lineno))
  {
  }

  /**
   * While a continuation is pending, the next directive is a block line under
   * the remembered keyword whatever its own first word; nothing is popped.
   */
  lemma ContinuationKeepsKeyword(s: TState, body: string, cline: string, cmd: string, k: string)
    requires s.multiline == Some(k)
    ensures BlockStep(s, body, cline, cmd).Success?
    ensures var r := BlockStep(s, body, cline, cmd).value;
      r.code == s.code + CodeLines(|s.stack|, body)
      && r.stack == (if EndsWith(cline, ":") then s.stack + [k] else s.stack)
      && r.multiline == (if EndsWith(cline, "\\") then Some(k) else None)
  {
    if EndsWith(cline, ":") { ColonIsNotContinuation(cline); }
  }

  // ------------------------------------------------------ end, include, rebase

  /** `%end` closes the innermost frame and is emitted, as a comment naming it, at the depth after the pop. */
  lemma EndClosesFrame(h: Host, s: TState, d: Directive)
    requires d.cmd == "end" && s.multiline.None? && s.stack != []
    ensures var top := s.stack[|s.stack| - 1];
      Execute(h, s, d) == Success(s.(stack := s.stack[..|s.stack| - 1],
        code := s.code + CodeLines(|s.stack| - 1, "#end(" + top + ") " + DropFirst(Strip(d.body, UniSpace), 3))))
  {
    assert "end" !in Blocks;
  }

  /** `%end` with no open frame is an ordinary line of code. */
  lemma EndWithoutFrame(h: Host, s: TState, d: Directive)
    requires d.cmd == "end" && s.multiline.None? && s.stack == []
    ensures Execute(h, s, d) == Success(Emit(s, d.body))
  {
    assert "end" !in Blocks;
  }

  /**
   * How the arguments of `%include` and `%rebase` sit in the line: white
   * space `g[0]`, the keyword's word `w`, then each argument after a
   * non-empty run of white space; the first argument holds no white space,
   * the second is the rest of the line, and a line with one argument ends
   * in white space `g[2]` only.
   */
  predicate ArgsLayout(cline: string, w: string, g: seq<string>, p: seq<string>) {
    |g| == 3 && |p| <= 2
    && (forall k :: 0 <= k < 3 ==> AllIn(g[k], UniSpace))
    && NoneIn(w, UniSpace)
    && (forall k :: 0 <= k < |p| ==> p[k] != [] && !In(UniSpace, p[k][0]))
    && (|p| == 0 ==> cline == g[0] + w + g[1])
    && (|p| >= 1 ==> w != [] && g[1] != [] && NoneIn(p[0], UniSpace))
    && (|p| == 1 ==> cline == g[0] + w + g[1] + p[0] + g[2])
    && (|p| == 2 ==> g[2] != [] && cline == g[0] + w + g[1] + p[0] + g[2] + p[1])
  }

  /** `cline.split(None, 2)[1:]` is laid out in the line as `ArgsLayout` says. */
  lemma ArgsShape(cline: string)
    ensures exists w, g :: ArgsLayout(cline, w, g, Args(cline))
    ensures forall k :: 0 <= k < |Args(cline)| ==> Args(cline)[k] != []
    ensures |Args(cline)| == 2 ==> NoneIn(Args(cline)[0], UniSpace) && EndsWith(cline, Args(cline)[1])
  {
    var fields := SplitWs(cline, UniSpace, 2);
    var gaps := GapsFrom(cline, UniSpace, 0, 2);
    SplitWsFromJoin(cline, UniSpace, 0, 2);
    assert cline[0..] == cline;
    var w, g := LayoutOfSplit(cline, gaps, fields, Args(cline));
  }

  /** The layout of the arguments, read off a split of the line into at most three fields. */
  lemma LayoutOfSplit(cline: string, gaps: seq<string>, fields: seq<string>, p: seq<string>)
      returns (w: string, g: seq<string>)
    requires WsSplit(cline, UniSpace, gaps, fields, 2) && |fields| <= 3
    requires p == if fields == [] then [] else fields[1..]
    ensures ArgsLayout(cline, w, g, p)
  {
    if |fields| == 0 {
      w, g := [], [gaps[0], [], []];
    } else if |fields| == 1 {
      InterleaveOne(gaps, fields);
      w, g := fields[0], [gaps[0], gaps[1], []];
    } else if |fields| == 2 {
      InterleaveTwo(gaps, fields);
      assert p == [fields[1]];
      w, g := fields[0], gaps;
    } else {
      InterleaveThree(gaps, fields);
      assert p == [fields[1], fields[2]];
      w, g := fields[0], gaps[..3];
    }
  }

  lemma InterleaveOne(gaps: seq<string>, fields: seq<string>)
    requires |gaps| == 2 && |fields| == 1
    ensures Interleave(gaps, fields) == gaps[0] + fields[0] + gaps[1]
  {
    assert Interleave(gaps[1..], fields[1..]) == gaps[1];
  }

  lemma InterleaveTwo(gaps: seq<string>, fields: seq<string>)
    requires |gaps| == 3 && |fields| == 2
    ensures Interleave(gaps, fields) == gaps[0] + fields[0] + gaps[1] + fields[1] + gaps[2]
  {
    InterleaveOne(gaps[1..], fields[1..]);
  }

  lemma InterleaveThree(gaps: seq<string>, fields: seq<string>)
    requires |gaps| == 4 && |fields| == 3
    ensures Interleave(gaps, fields)
         == gaps[0] + fields[0] + gaps[1] + fields[1] + gaps[2] + fields[2] + gaps[3]
  {
    InterleaveTwo(gaps[1..], fields[1..]);
  }

  /**
   * `%include` emits one statement chosen by its argument count: with a
   * name and arguments, with a name, or (bare) the reversal of a rebase.
   */
  lemma IncludeByArity(h: Host, s: TState, d: Directive)
    requires d.cmd == "include" && s.multiline.None?
    ensures var p := Args(d.cline);
      Execute(h, s, d) == Success(Emit(s,
        if |p| == 2 then "_=_include(" + h.repr(p[0]) + ", _stdout, " + p[1] + ")"
        else if |p| == 1 then "_=_include(" + h.repr(p[0]) + ", _stdout)"
        else "_printlist(_base)"))
  {
    assert "include" !in Blocks;
  }

  /** `%rebase` records the target and its arguments; a bare `%rebase` emits nothing at all. */
  lemma RebaseByArity(h: Host, s: TState, d: Directive)
    requires d.cmd == "rebase" && s.multiline.None?
    ensures var p := Args(d.cline);
      Execute(h, s, d) == Success(
        if |p| == 2 then Emit(s, "globals()['_rebase']=(" + h.repr(p[0]) + ", dict(" + p[1] + "))")
        else if |p| == 1 then Emit(s, "globals()['_rebase']=(" + h.repr(p[0]) + ", {})")
        else s)
  {
    assert "rebase" !in Blocks;
  }

  // ------------------------------------------------------------ reading lines

  /** Text lines are queued as token lists of odd length. */
  ghost predicate WellFormed(l: Line) {
    l.kind.Text? ==> |l.kind.tokens| % 2 == 1
  }

  lemma ReadLineWellFormed(h: Host, lineno: nat, encoding: string, raw: string)
    ensures WellFormed(ReadLine(h, lineno, encoding, raw))
  {
    var l := ReadLine(h, lineno, encoding, raw);
    if l.kind.Text? {
      var text := h.decode(encoding, raw).value;
      TokensShape(UnescapeText(if l.declared.Some? then RemoveCoding(text) else text));
    }
  }

  /**
   * How a line is read: after the declaration check, the classifier decides
   * between directive and text, and a directive with an empty body has no
   * directive; the parsed body is what follows the first `%`.
   */
  lemma ReadLineClassifies(h: Host, lineno: nat, encoding: string, raw: string)
    ensures h.decode(encoding, raw).Some? ==>
      var text := h.decode(encoding, raw).value;
      var line := if ReadLine(h, lineno, encoding, raw).declared.Some? then RemoveCoding(text) else text;
      var kind := ReadLine(h, lineno, encoding, raw).kind;
      (kind.Dir? <==> IsDirective(line))
      && (kind.Dir? ==> '%' in line && (kind.directive.None? <==> DirectiveBody(line) == []))
      && (kind.Dir? && kind.directive.Some? ==> kind.directive.value.body == DirectiveBody(line))
  {
    match h.decode(encoding, raw)
    case None =>
    case Some(text) =>
      var declared := if lineno <= 2 then CodingDecl(text) else None;
      var line := if declared.Some? then RemoveCoding(text) else text;
      if IsDirective(line) {
        DirectiveHasPercent(line);
      }
  }

  /**
   * Line `k` of a batch is read as source line `first + k`, decoded in the
   * encoding the lines before it leave in force.
   */
  lemma {:induction false} ReadLinesAt(h: Host, first: nat, encoding: string, raws: seq<string>, k: nat)
    requires k < |raws|
    ensures var ls := ReadLines(h, first, encoding, raws);
      ls[k] == ReadLine(h, first + k, LastDeclared(ls[..k], encoding), raws[k])
    decreases k
  {
    var ls := ReadLines(h, first, encoding, raws);
    if k == 0 {
      assert ls[..0] == [];
    } else {
      var l := ReadLine(h, first, encoding, raws[0]);
      var rest := ReadLines(h, first + 1, After(l, encoding), raws[1..]);
      ReadLinesAt(h, first + 1, After(l, encoding), raws[1..], k - 1);
      assert ls == [l] + rest;
      ConsAt(ls, l, rest, k, encoding);
    }
  }

  /** Line `k > 0` of `[l] + rest` is line `k - 1` of `rest`, with `l`'s encoding in force. */
  lemma ConsAt(ls: seq<Line>, l: Line, rest: seq<Line>, k: nat, encoding: string)
    requires ls == [l] + rest && 0 < k < |ls|
    ensures ls[k] == rest[k - 1]
    ensures LastDeclared(ls[..k], encoding) == LastDeclared(rest[..k - 1], After(l, encoding))
  {
    assert ls[..k][0] == l && ls[..k][1..] == rest[..k - 1];
  }

  lemma ReadLinesWellFormed(h: Host, first: nat, encoding: string, raws: seq<string>)
    ensures forall k :: 0 <= k < |raws| ==> WellFormed(ReadLines(h, first, encoding, raws)[k])
  {
    var ls := ReadLines(h, first, encoding, raws);
    forall k | 0 <= k < |raws|
      ensures WellFormed(ls[k])
    {
      ReadLinesAt(h, first, encoding, raws, k);
      ReadLineWellFormed(h, first + k, LastDeclared(ls[..k], encoding), raws[k]);
    }
  }

  /** Only lines 1 and 2 can declare an encoding. */
  lemma ReadLinesDeclareEarly(h: Host, encoding: string, raws: seq<string>)
    ensures forall k :: 2 <= k < |raws| ==> ReadLines(h, 1, encoding, raws)[k].declared.None?
  {
    forall k | 2 <= k < |raws|
      ensures ReadLines(h, 1, encoding, raws)[k].declared.None?
    {
      ReadLinesAt(h, 1, encoding, raws, k);
    }
  }

  // ------------------------------------------------------------- whole steps

  /**
   * A text line is queued without emitting code; a directive with no body
   * fails under the line's number; any other directive flushes the pending
   * text and then executes.
   */
  lemma StepCases(h: Host, s: TState, l: Line)
    ensures l.kind.Undecodable? ==> Step(h, s, l) == Failure(DecodeError(s.lineno + 1))
    ensures l.kind.Text? ==> Step(h, s, l) == Success(Counted(s, l).(pending := s.pending + [l.kind.tokens]))
    ensures l.kind == Dir(None) ==> Step(h, s, l) == Failure(EmptyDirective(s.lineno + 1))
    ensures l.kind.Dir? && l.kind.directive.Some? ==>
      Step(h, s, l) == Execute(h, Flush(h, Counted(s, l)), l.kind.directive.value)
  {
  }

  /**
   * A line fails exactly when it cannot be decoded, is a directive with no
   * body, or is a dedent keyword reached with no open block to close.
   */
  lemma StepFailsIff(h: Host, s: TState, l: Line)
    ensures Step(h, s, l).Failure? <==>
      l.kind.Undecodable?
      || l.kind == Dir(None)
      || (l.kind.Dir? && l.kind.directive.Some? && s.multiline.None? && !s.oneline && s.stack == []
          && l.kind.directive.value.cmd in DedentBlocks)
  {
    if l.kind.Dir? && l.kind.directive.Some? {
      var d := l.kind.directive.value;
      var f := Flush(h, Counted(s, l));
      FlushEffect(h, Counted(s, l));
      if d.cmd in DedentBlocks { assert d.cmd in Blocks; }
      if f.multiline.None? && d.cmd !in Blocks {
        assert Execute(h, f, d).Success?;
      }
    }
  }

  /** A flush keeps the state valid. */
  lemma FlushKeepsValid(h: Host, s: TState)
    requires Valid(s)
    ensures Valid(Flush(h, s)) && Flush(h, s).pending == []
  {
    FlushEffect(h, s);
  }

  /** A block line pushes only block keywords: the keyword itself, the remembered one or the popped one. */
  lemma BlockStepKeepsValid(s: TState, body: string, cline: string, cmd: string)
    requires Valid(s) && s.pending == [] && (cmd in Blocks || s.multiline.Some?)
    ensures BlockStep(s, body, cline, cmd).Success? ==>
      Valid(BlockStep(s, body, cline, cmd).value) && BlockStep(s, body, cline, cmd).value.pending == []
  {
    var k := if s.multiline.Some? then s.multiline.value else cmd;
    assert k in Blocks;
    var popped := k in DedentBlocks && !s.oneline && s.multiline.None?;
    if popped && s.stack != [] {
      var base := s.stack[..|s.stack| - 1];
      var top := s.stack[|s.stack| - 1];
      assert top in Blocks;
      assert AllBlocks(base + [top]) by {
        assert base + [top] == s.stack;
      }
      AllBlocksPrefix(base, [top]);
      AllBlocksAppend(base, top);
    } else if !popped {
      AllBlocksAppend(s.stack, k);
    }
  }

  lemma AllBlocksPrefix(a: seq<string>, b: seq<string>)
    requires AllBlocks(a + b)
    ensures AllBlocks(a)
  {
    assert forall k :: 0 <= k < |a| ==> a[k] == (a + b)[k];
  }

  lemma AllBlocksAppend(a: seq<string>, w: string)
    requires AllBlocks(a) && w in Blocks
    ensures AllBlocks(a + [w])
  {
  }

  /** Executing a directive keeps the stack and the remembered keyword made of block keywords. */
  lemma ExecuteKeepsValid(h: Host, s: TState, d: Directive)
    requires Valid(s) && s.pending == []
    ensures Execute(h, s, d).Success? ==> Valid(Execute(h, s, d).value) && Execute(h, s, d).value.pending == []
  {
    if d.cmd in Blocks || s.multiline.Some? {
      ExecuteBlockLine(h, s, d);
      BlockStepKeepsValid(s, d.body, d.cline, d.cmd);
    }
  }

  /** Each line keeps the state valid. */
  lemma StepKeepsValid(h: Host, s: TState, l: Line)
    requires Valid(s) && WellFormed(l)
    ensures Step(h, s, l).Success? ==> Valid(Step(h, s, l).value)
  {
    var s1 := Counted(s, l);
    match l.kind
    case Undecodable =>
    case Text(tokens) =>
      assert Step(h, s, l).value.pending == s.pending + [tokens];
    case Dir(None) =>
    case Dir(Some(d)) =>
      FlushKeepsValid(h, s1);
      ExecuteKeepsValid(h, Flush(h, s1), d);
  }

  lemma BlockStepKeepsCount(s: TState, body: string, cline: string, cmd: string)
    ensures BlockStep(s, body, cline, cmd).Success? ==>
      BlockStep(s, body, cline, cmd).value.encoding == s.encoding && BlockStep(s, body, cline, cmd).value.lineno == s.lineno
      && |s.code| <= |BlockStep(s, body, cline, cmd).value.code|
      && BlockStep(s, body, cline, cmd).value.code[..|s.code|] == s.code
    ensures BlockStep(s, body, cline, cmd).Failure? ==> BlockStep(s, body, cline, cmd).error.line == s.lineno
  {
  }

  /** A directive changes neither the line count nor the encoding, and only appends code. */
  lemma ExecuteKeepsCount(h: Host, s: TState, d: Directive)
    ensures Execute(h, s, d).Success? ==>
      Execute(h, s, d).value.encoding == s.encoding && Execute(h, s, d).value.lineno == s.lineno
      && |s.code| <= |Execute(h, s, d).value.code| && Execute(h, s, d).value.code[..|s.code|] == s.code
    ensures Execute(h, s, d).Failure? ==> Execute(h, s, d).error.line == s.lineno
  {
    if d.cmd in Blocks || s.multiline.Some? {
      ExecuteBlockLine(h, s, d);
      BlockStepKeepsCount(s, d.body, d.cline, d.cmd);
    }
  }

  /**
   * A step counts its line, takes the encoding the line declares and keeps
   * the old one otherwise, only appends generated code, and reports an
   * error under its own line number.
   */
  lemma StepAppendsCode(h: Host, s: TState, l: Line)
    ensures Step(h, s, l).Success? ==>
      Step(h, s, l).value.lineno == s.lineno + 1
      && Step(h, s, l).value.encoding == (if l.declared.Some? then l.declared.value else s.encoding)
      && |s.code| <= |Step(h, s, l).value.code| && Step(h, s, l).value.code[..|s.code|] == s.code
    ensures Step(h, s, l).Failure? ==> Step(h, s, l).error.line == s.lineno + 1
  {
    var s1 := Counted(s, l);
    match l.kind
    case Undecodable =>
    case Text(_) =>
    case Dir(None) =>
    case Dir(Some(d)) =>
      FlushEffect(h, s1);
      ExecuteKeepsCount(h, Flush(h, s1), d);
      if Step(h, s, l).Success? {
        var t := Step(h, s, l).value;
        assert t.code[..|s.code|] == t.code[..|Flush(h, s1).code|][..|s.code|];
      }
  }

  // ------------------------------------------------------------ whole runs

  /** Running two batches of lines is running the first, then the second from where it stopped. */
  lemma {:induction false} RunAppend(h: Host, s: TState, a: seq<Line>, b: seq<Line>)
    ensures Run(h, s, a + b) == match Run(h, s, a) case Failure(e) => Failure(e) case Success(t) => Run(h, t, b)
    decreases |a|
  {
    if a == [] {
      assert a + b == b;
    } else {
      assert (a + b)[0] == a[0] && (a + b)[1..] == a[1..] + b;
      match Step(h, s, a[0])
      case Failure(_) =>
      case Success(s1) => RunAppend(h, s1, a[1..], b);
    }
  }

  /**
   * A run keeps the state valid, counts every line, never rewrites code it
   * generated, and reports an error under the number of the failing line.
   */
  lemma {:induction false} RunInvariants(h: Host, s: TState, lines: seq<Line>)
    requires Valid(s) && forall k :: 0 <= k < |lines| ==> WellFormed(lines[k])
    ensures Run(h, s, lines).Success? ==>
      var t := Run(h, s, lines).value;
      Valid(t) && t.lineno == s.lineno + |lines| && |s.code| <= |t.code| && t.code[..|s.code|] == s.code
    ensures Run(h, s, lines).Failure? ==> s.lineno < Run(h, s, lines).error.line <= s.lineno + |lines|
    decreases |lines|
  {
    if lines != [] {
      StepKeepsValid(h, s, lines[0]);
      StepAppendsCode(h, s, lines[0]);
      match Step(h, s, lines[0])
      case Failure(_) =>
      case Success(s1) =>
        RunInvariants(h, s1, lines[1..]);
        if Run(h, s1, lines[1..]).Success? {
          var t := Run(h, s1, lines[1..]).value;
          assert t.code[..|s.code|] == t.code[..|s1.code|][..|s.code|];
        }
    }
  }

  /** The encoding in force after `lines`: the last one they declare, else `encoding`. */
  function LastDeclared(lines: seq<Line>, encoding: string): string
    decreases |lines|
  {
    if lines == [] then encoding
    else LastDeclared(lines[1..], After(lines[0], encoding))
  }

  /** One more line: the encoding after it is the one it declares, else the one in force before it. */
  lemma {:induction false} LastDeclaredSnoc(lines: seq<Line>, l: Line, encoding: string)
    ensures LastDeclared(lines + [l], encoding) == After(l, LastDeclared(lines, encoding))
    decreases |lines|
  {
    if lines == [] {
      assert lines + [l] == [l] && [l][1..] == [];
    } else {
      assert (lines + [l])[0] == lines[0] && (lines + [l])[1..] == lines[1..] + [l];
      LastDeclaredSnoc(lines[1..], l, After(lines[0], encoding));
    }
  }

  /** A run that succeeds met no line it could not decode. */
  lemma {:induction false} RunDecodes(h: Host, s: TState, lines: seq<Line>)
    ensures Run(h, s, lines).Success? ==> forall k :: 0 <= k < |lines| ==> !lines[k].kind.Undecodable?
    decreases |lines|
  {
    if lines != [] {
      StepCases(h, s, lines[0]);
      match Step(h, s, lines[0])
      case Failure(_) =>
      case Success(s1) =>
        RunDecodes(h, s1, lines[1..]);
        assert forall k :: 1 <= k < |lines| ==> lines[k] == lines[1..][k - 1];
    }
  }

  /** A run ends with the last declared encoding. */
  lemma {:induction false} RunEncoding(h: Host, s: TState, lines: seq<Line>)
    ensures Run(h, s, lines).Success? ==> Run(h, s, lines).value.encoding == LastDeclared(lines, s.encoding)
    decreases |lines|
  {
    if lines != [] {
      StepAppendsCode(h, s, lines[0]);
      match Step(h, s, lines[0])
      case Failure(_) =>
      case Success(s1) => RunEncoding(h, s1, lines[1..]);
    }
  }

  lemma {:induction false} LastDeclaredNone(lines: seq<Line>, encoding: string)
    requires forall k :: 0 <= k < |lines| ==> lines[k].declared.None?
    ensures LastDeclared(lines, encoding) == encoding
    decreases |lines|
  {
    if lines != [] {
      assert forall k :: 0 <= k < |lines[1..]| ==> lines[1..][k] == lines[k + 1];
      LastDeclaredNone(lines[1..], encoding);
    }
  }

  /** A failed translation names a line of the template. */
  lemma TranslateErrorLine(h: Host, template: string, encoding: string)
    ensures Translate(h, template, encoding).Failure? ==>
      1 <= Translate(h, template, encoding).error.line <= |SplitLines(template, ByteLineBreak, true)|
  {
    var raws := SplitLines(template, ByteLineBreak, true);
    ReadLinesWellFormed(h, 1, encoding, raws);
    RunInvariants(h, Init(encoding), ReadLines(h, 1, encoding, raws));
  }

  /**
   * A translation that succeeds decoded line 1 in the given encoding and
   * line 2 in the encoding line 1 declares, if any; its encoding is the one
   * given, unless line 1 or 2 declares one: then the last such declaration
   * wins.
   */
  lemma TranslateEncoding(h: Host, template: string, encoding: string)
    ensures var raws := SplitLines(template, ByteLineBreak, true);
      Translate(h, template, encoding).Success? ==>
      (|raws| >= 1 ==> h.decode(encoding, raws[0]).Some?)
      && var e1 := if |raws| >= 1 && CodingDecl(h.decode(encoding, raws[0]).value).Some?
        then CodingDecl(h.decode(encoding, raws[0]).value).value else encoding;
      (|raws| >= 2 ==> h.decode(e1, raws[1]).Some?)
      && Translate(h, template, encoding).value.encoding ==
        (if |raws| >= 2 && CodingDecl(h.decode(e1, raws[1]).value).Some? then CodingDecl(h.decode(e1, raws[1]).value).value
         else e1)
  {
    var raws := SplitLines(template, ByteLineBreak, true);
    var lines := ReadLines(h, 1, encoding, raws);
    RunEncoding(h, Init(encoding), lines);
    RunDecodes(h, Init(encoding), lines);
    ReadLinesDeclareEarly(h, encoding, raws);
    LastDeclaredEarly(lines, encoding);
    if |raws| >= 1 {
      ReadLinesAt(h, 1, encoding, raws, 0);
      assert lines[..0] == [];
    }
    if |raws| >= 2 {
      ReadLinesAt(h, 1, encoding, raws, 1);
      assert lines[..1][1..] == [] && lines[..1][0] == lines[0];
    }
  }

  /** When only the first two lines declare, the second one's declaration wins over the first's. */
  lemma LastDeclaredEarly(lines: seq<Line>, encoding: string)
    requires forall k :: 2 <= k < |lines| ==> lines[k].declared.None?
    ensures LastDeclared(lines, encoding) ==
      (if |lines| >= 2 && lines[1].declared.Some? then lines[1].declared.value
       else if |lines| >= 1 && lines[0].declared.Some? then lines[0].declared.value
       else encoding)
  {
    if |lines| >= 2 {
      var e1 := if lines[0].declared.Some? then lines[0].declared.value else encoding;
      var e2 := if lines[1].declared.Some? then lines[1].declared.value else e1;
      assert lines[1..][1..] == lines[2..];
      assert LastDeclared(lines, encoding) == LastDeclared(lines[2..], e2);
      assert forall k :: 0 <= k < |lines[2..]| ==> lines[2..][k] == lines[k + 2];
      LastDeclaredNone(lines[2..], e2);
    }
  }
}
