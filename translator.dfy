/**
 * `Template.translate` as the source writes it: a loop over the template's
 * lines that updates the block stack, the pending-text buffer, the code
 * buffer, the continuation flags and the template's encoding in place. Each
 * method is proved to compute what the functions of module Translation say.
 */
module Translator {
  import opened Wrappers
  import opened PyStr
  import opened Tokens
  import opened Directives
  import opened Translation
  import opened TranslationProps

  /** A step's outcome as the functions report it. */
  function Outcome(s: TState, err: Option<TranslateError>): Result<TState, TranslateError> {
    if err.None? then Success(s) else Failure(err.value)
  }

  /** One more statement line indented and appended to the code buffer. */
  lemma IndentLinesStep(base: seq<string>, code: seq<string>, depth: nat, lines: seq<string>, i: nat)
    requires i < |lines| && code == base + IndentLines(depth, lines[..i])
    ensures code + [Indent(depth) + Strip(lines[i], UniSpace)] == base + IndentLines(depth, lines[..i + 1])
  {
    assert lines[..i + 1][..i] == lines[..i];
  }

  lemma Assoc5(a: string, b: string, c: string, d: string, e: string)
    ensures a + b + c + d + e == a + (b + c + d) + e
  {
  }

  /** The text `flush` builds for one line: every token's expression followed by `, `, after `pre`. */
  function Terminated(pre: string, repr: string -> string, toks: seq<Token>): string
    decreases |toks|
  {
    if toks == [] then pre else Terminated(pre, repr, toks[..|toks| - 1]) + TokenCode(repr, toks[|toks| - 1]) + ", "
  }

  lemma TerminatedSnoc(pre: string, repr: string -> string, toks: seq<Token>, j: nat)
    requires j < |toks|
    ensures Terminated(pre, repr, toks[..j + 1]) == Terminated(pre, repr, toks[..j]) + TokenCode(repr, toks[j]) + ", "
  {
    assert toks[..j + 1][..j] == toks[..j];
  }

  /** The text is the line's comma-separated expression list with one `, ` too many. */
  lemma {:induction false} TerminatedIsLine(pre: string, repr: string -> string, toks: seq<Token>)
    requires toks != []
    ensures Terminated(pre, repr, toks) == pre + LineCode(repr, toks) + ", "
    decreases |toks|
  {
    var n := |toks|;
    var x := TokenCode(repr, toks[n - 1]);
    if n > 1 {
      var front := toks[..n - 1];
      TerminatedIsLine(pre, repr, front);
      var xs := TokenCodes(repr, front);
      assert TokenCodes(repr, toks) == xs + [x];
      assert (xs + [x])[..|xs|] == xs;
      var lf := LineCode(repr, front);
      assert LineCode(repr, toks) == lf + ", " + x;
      assert Terminated(pre, repr, toks) == pre + lf + ", " + x + ", ";
      Assoc5(pre, lf, ", ", x, ", ");
    } else {
      assert toks[..n - 1] == [];
      assert TokenCodes(repr, toks) == [x];
    }
  }

  /** The text `flush` builds for several lines: each line's expression list followed by a backslash and a line feed. */
  function Printed(repr: string -> string, pending: seq<seq<Token>>): string
    decreases |pending|
  {
    if pending == [] then "" else Printed(repr, pending[..|pending| - 1]) + LineCode(repr, pending[|pending| - 1]) + "\\\n"
  }

  /** The text is the flushed argument list with one separator too many. */
  lemma {:induction false} PrintedIsBody(repr: string -> string, pending: seq<seq<Token>>)
    requires pending != []
    ensures Printed(repr, pending) == FlushBody(repr, pending) + "\\\n"
    decreases |pending|
  {
    var n := |pending|;
    var x := LineCode(repr, pending[n - 1]);
    if n > 1 {
      var front := pending[..n - 1];
      PrintedIsBody(repr, front);
      var xs := LineCodes(repr, front);
      assert LineCodes(repr, pending) == xs + [x];
      assert (xs + [x])[..|xs|] == xs;
      assert FlushBody(repr, pending) == FlushBody(repr, front) + "\\\n" + x;
    } else {
      assert pending[..n - 1] == [];
      assert LineCodes(repr, pending) == [x];
    }
  }

  /**
   * The statement `flush` emits: the pending lines' tokens as expressions,
   * built with the separators the source appends and then trims, and the
   * "nobr" rewrite.
   */
  method PrintList(repr: string -> string, pending: seq<seq<Token>>) returns (cline: string)
    requires pending != [] && forall k :: 0 <= k < |pending| ==> pending[k] != []
    ensures cline == FlushStatement(repr, pending)
  {
    cline := "";
    var i := 0;
    while i < |pending|
      invariant 0 <= i <= |pending|
      invariant cline == Printed(repr, pending[..i])
    {
      var toks := pending[i];
      ghost var pre := cline;
      var j := 0;
      while j < |toks|
        invariant 0 <= j <= |toks|
        invariant cline == Terminated(pre, repr, toks[..j])
      {
        TerminatedSnoc(pre, repr, toks, j);
        cline := cline + TokenCode(repr, toks[j]) + ", ";
        j := j + 1;
      }
      assert toks[..j] == toks;
      TerminatedIsLine(pre, repr, toks);
      cline := DropLast(cline, 2) + "\\\n";
      assert pending[..i + 1][..i] == pending[..i];
      i := i + 1;
    }
    assert pending[..i] == pending;
    PrintedIsBody(repr, pending);
    cline := DropLast(cline, 2);
    ghost var body := cline;
    assert body == FlushBody(repr, pending);
    if |cline| >= 1 && EndsWith(DropLast(cline, 1), EscapedNoBreak) {
      cline := DropLast(cline, 7) + [cline[|cline| - 1]];
    }
    assert cline == NoBr(body);
    cline := "_printlist([" + cline + "])";
  }

  /** A flush of a non-empty buffer is the cleared state with the `_printlist` statement emitted. */
  lemma FlushIsEmit(h: Host, s: TState, cleared: TState, stmt: string)
    requires s.pending != [] && cleared == s.(pending := []) && stmt == FlushStatement(h.repr, s.pending)
    ensures Translation.Flush(h, s) == Emit(cleared, stmt)
  {
  }

  /** A step is the line's effect on the state after counting it and taking its encoding. */
  lemma StepIsApply(h: Host, s0: TState, l: Line, s1: TState)
    requires s1 == s0.(lineno := s0.lineno + 1, encoding := After(l, s0.encoding))
    ensures Step(h, s0, l) == Apply(h, s1, l.kind)
  {
    assert Counted(s0, l) == s1;
  }

  /** Running the lines from position `i` is one step followed by the run from `i + 1`. */
  lemma RunFrom(h: Host, s: TState, lines: seq<Line>, i: nat)
    requires i < |lines|
    ensures Run(h, s, lines[i..]) == match Step(h, s, lines[i])
      case Failure(e) => Failure(e)
      case Success(s1) => Run(h, s1, lines[i + 1..])
  {
    assert lines[i..][1..] == lines[i + 1..];
  }

  /** One more line of a run: a failure is the run's result, a success leaves the rest of the run and keeps the invariant. */
  lemma RunAdvance(h: Host, s: TState, lines: seq<Line>, i: nat, r: Result<TState, TranslateError>, whole: Result<TState, TranslateError>)
    requires i < |lines| && Valid(s) && WellFormed(lines[i])
    requires Run(h, s, lines[i..]) == whole && r == Step(h, s, lines[i])
    ensures r.Failure? ==> whole == Failure(r.error)
    ensures r.Success? ==>
      Run(h, r.value, lines[i + 1..]) == whole && Valid(r.value) && r.value.lineno == s.lineno + 1
      && r.value.encoding == After(lines[i], s.encoding)
  {
    RunFrom(h, s, lines, i);
    StepKeepsValid(h, s, lines[i]);
    StepAppendsCode(h, s, lines[i]);
  }

  /** Line `i` of a template is read in the encoding the lines before it left in force. */
  lemma ReadNext(h: Host, e0: string, raws: seq<string>, i: nat, encoding: string)
    requires i < |raws| && encoding == LastDeclared(ReadLines(h, 1, e0, raws)[..i], e0)
    ensures ReadLines(h, 1, e0, raws)[i] == ReadLine(h, i + 1, encoding, raws[i])
    ensures WellFormed(ReadLines(h, 1, e0, raws)[i])
  {
    ReadLinesAt(h, 1, e0, raws, i);
    ReadLineWellFormed(h, i + 1, encoding, raws[i]);
  }

  /** The encoding after line `i` is the one it declares, else the one the lines before it left. */
  lemma EncodingNext(lines: seq<Line>, i: nat, e0: string, before: string, after: string)
    requires i < |lines| && before == LastDeclared(lines[..i], e0) && after == After(lines[i], before)
    ensures after == LastDeclared(lines[..i + 1], e0)
  {
    LastDeclaredSnoc(lines[..i], lines[i], e0);
    assert lines[..i + 1] == lines[..i] + [lines[i]];
  }

  /** The state a block line leaves, assembled from its parts. */
  lemma BlockStepIs(s: TState, body: string, cline: string, word: string, s1: TState, s2: TState, key: string, s3: TState)
    requires var k := if s.multiline.Some? then s.multiline.value else word;
      var popped := k in DedentBlocks && !s.oneline && s.multiline.None?;
      !(popped && s.stack == [])
      && key == (if popped then s.stack[|s.stack| - 1] else k)
      && s1 == (if popped then s.(stack := s.stack[..|s.stack| - 1]) else s)
    requires s2 == Emit(s1, body)
    requires s3 == s2.(oneline := !EndsWith(cline, ":"),
                       multiline := (if EndsWith(cline, "\\") then Some(key) else None),
                       stack := if EndsWith(cline, ":") && !EndsWith(cline, "\\") then s2.stack + [key] else s2.stack)
    ensures BlockStep(s, body, cline, word) == Success(s3)
  {
  }

  /** `%end` with an open block: the block closed and the `#end` line emitted at the depth after. */
  lemma ExecuteEndIs(h: Host, s: TState, d: Directive, s1: TState, stmt: string)
    requires !(d.cmd in Blocks || s.multiline.Some?) && d.cmd == "end" && s.stack != []
    requires s1 == s.(stack := s.stack[..|s.stack| - 1])
    requires stmt == "#end(" + s.stack[|s.stack| - 1] + ") " + DropFirst(Strip(d.body, UniSpace), 3)
    ensures Translation.Execute(h, s, d) == Success(Emit(s1, stmt))
  {
  }

  /** `%include`, `%rebase` and any other directive: at most one statement emitted. */
  lemma ExecuteOtherIs(h: Host, s: TState, d: Directive, stmt: Option<string>, s1: TState)
    requires !(d.cmd in Blocks || s.multiline.Some?) && !(d.cmd == "end" && s.stack != [])
    requires stmt == (if d.cmd == "include" then Some(IncludeCode(h.repr, Args(d.cline)))
      else if d.cmd == "rebase" then RebaseCode(h.repr, Args(d.cline))
      else Some(d.body))
    requires s1 == if stmt.Some? then Emit(s, stmt.value) else s
    ensures Translation.Execute(h, s, d) == Success(s1)
  {
  }

  class Translator {
    /** The host's `repr`, tokenizer and decoder. */
    const host: Host
    var stack: seq<string>
    var ptrbuffer: seq<seq<Token>>
    var codebuffer: seq<string>
    var multiline: Option<string>
    var oneline: bool
    /** `self.encoding`: kept by the template across translations. */
    var encoding: string
    var lineno: nat

    function State(): TState
      reads this
    {
      TState(stack, ptrbuffer, codebuffer, multiline, oneline, encoding, lineno)
    }

    constructor(h: Host, encoding: string)
      ensures host == h && State() == Init(encoding)
    {
      host := h;
      stack := [];
      ptrbuffer := [];
      codebuffer := [];
      multiline := None;
      oneline := false;
      this.encoding := encoding;
      lineno := 0;
    }

    /** `code(stmt)`: each line of the statement, stripped and indented by the current depth. */
    method Code(stmt: string)
      modifies this
      ensures State() == Emit(old(State()), stmt)
    {
      var lines := SplitLines(stmt, UniLineBreak, false);
      var depth := |stack|;
      var i := 0;
      while i < |lines|
        invariant 0 <= i <= |lines|
        invariant stack == old(stack) && ptrbuffer == old(ptrbuffer) && multiline == old(multiline)
        invariant oneline == old(oneline) && encoding == old(encoding) && lineno == old(lineno)
        invariant codebuffer == old(codebuffer) + IndentLines(depth, lines[..i])
      {
        IndentLinesStep(old(codebuffer), codebuffer, depth, lines, i);
        codebuffer := codebuffer + [Indent(depth) + Strip(lines[i], UniSpace)];
        i := i + 1;
      }
      assert lines[..i] == lines;
    }

    /** `flush()`: nothing when no text is pending, else one `_printlist` statement and an empty buffer. */
    method Flush()
      requires forall k :: 0 <= k < |ptrbuffer| ==> ptrbuffer[k] != []
      modifies this
      ensures State() == Translation.Flush(host, old(State()))
    {
      if ptrbuffer == [] {
        return;
      }
      var cline := PrintList(host.repr, ptrbuffer);
      ptrbuffer := [];
      ghost var cleared := State();
      FlushIsEmit(host, old(State()), cleared, cline);
      Code(cline);
    }

    /**
     * A block-keyword line, or any directive while a continuation is pending:
     * the dedent pop, the emitted line, and the flags and push that follow.
     */
    method BlockLine(body: string, cline: string, word: string) returns (err: Option<TranslateError>)
      modifies this
      ensures Outcome(State(), err) == BlockStep(old(State()), body, cline, word)
    {
      var cmd := if multiline.Some? then multiline.value else word;
      var dedent := cmd in DedentBlocks;
      if dedent && !oneline && multiline.None? {
        if stack == [] {
          return Some(PopFromEmptyStack(lineno));
        }
        cmd := stack[|stack| - 1];
        stack := stack[..|stack| - 1];
      }
      ghost var s1 := State();
      Code(body);
      ghost var s2 := State();
      oneline := !EndsWith(cline, ":");
      if EndsWith(cline, "\\") {
        multiline := Some(cmd);
      } else {
        multiline := None;
      }
      if !oneline && multiline.None? {
        stack := stack + [cmd];
      }
      err := None;
      BlockStepIs(old(State()), body, cline, word, s1, s2, cmd, State());
    }

    /** A directive after the flush: block lines, `%end`, `%include`, `%rebase`, or plain code. */
    method Execute(d: Directive) returns (err: Option<TranslateError>)
      modifies this
      ensures Outcome(State(), err) == Translation.Execute(host, old(State()), d)
    {
      err := None;
      if d.cmd in Blocks || multiline.Some? {
        ExecuteBlockLine(host, State(), d);
        err := BlockLine(d.body, d.cline, d.cmd);
      } else if d.cmd == "end" && stack != [] {
        var top := stack[|stack| - 1];
        stack := stack[..|stack| - 1];
        ghost var s1 := State();
        var stmt := "#end(" + top + ") " + DropFirst(Strip(d.body, UniSpace), 3);
        Code(stmt);
        ExecuteEndIs(host, old(State()), d, s1, stmt);
      } else {
        ghost var s0 := State();
        var stmt: Option<string>;
        if d.cmd == "include" {
          var p := Args(d.cline);
          if |p| == 2 {
            stmt := Some("_=_include(" + host.repr(p[0]) + ", _stdout, " + p[1] + ")");
          } else if |p| == 1 {
            stmt := Some("_=_include(" + host.repr(p[0]) + ", _stdout)");
          } else {
            stmt := Some("_printlist(_base)");
          }
          assert stmt == Some(IncludeCode(host.repr, p));
        } else if d.cmd == "rebase" {
          var p := Args(d.cline);
          if |p| == 2 {
            stmt := Some("globals()['_rebase']=(" + host.repr(p[0]) + ", dict(" + p[1] + "))");
          } else if |p| == 1 {
            stmt := Some("globals()['_rebase']=(" + host.repr(p[0]) + ", {})");
          } else {
            stmt := None;
          }
          assert stmt == RebaseCode(host.repr, p);
        } else {
          stmt := Some(d.body);
        }
        if stmt.Some? {
          Code(stmt.value);
        }
        ExecuteOtherIs(host, s0, d, stmt, State());
      }
    }

    /** The loop body of `translate` for a source line once read: counted, its encoding taken, then dispatched. */
    method Feed(l: Line) returns (err: Option<TranslateError>)
      requires Valid(State())
      modifies this
      ensures Outcome(State(), err) == Step(host, old(State()), l)
    {
      ghost var s0 := State();
      lineno := lineno + 1;
      if l.declared.Some? {
        encoding := l.declared.value;
      }
      ghost var s1 := State();
      err := Dispatch(l.kind);
      StepIsApply(host, s0, l, s1);
    }

    /** Text is queued; a directive flushes the pending text and is executed. */
    method Dispatch(kind: LineKind) returns (err: Option<TranslateError>)
      requires Valid(State())
      modifies this
      ensures Outcome(State(), err) == Apply(host, old(State()), kind)
    {
      match kind {
        case Undecodable =>
          err := Some(DecodeError(lineno));
        case Text(tokens) =>
          ptrbuffer := ptrbuffer + [tokens];
          err := None;
        case Dir(None) =>
          err := Some(EmptyDirective(lineno));
        case Dir(Some(d)) =>
          Flush();
          err := Execute(d);
      }
    }

    /**
     * One pass of the loop of `translate`: line `i` decoded in the encoding
     * now in force, then fed; a failure is the whole run's result, a success
     * leaves the rest of the run.
     */
    method FeedLine(raws: seq<string>, i: nat, ghost e0: string, ghost whole: Result<TState, TranslateError>) returns (err: Option<TranslateError>)
      requires i < |raws| && lineno == i && Valid(State())
      requires encoding == LastDeclared(ReadLines(host, 1, e0, raws)[..i], e0)
      requires Run(host, State(), ReadLines(host, 1, e0, raws)[i..]) == whole
      modifies this
      ensures err.Some? ==> whole == Failure(err.value)
      ensures err.None? ==>
        var lines := ReadLines(host, 1, e0, raws);
        lineno == i + 1 && Valid(State()) && encoding == LastDeclared(lines[..i + 1], e0)
        && Run(host, State(), lines[i + 1..]) == whole
    {
      ghost var lines := ReadLines(host, 1, e0, raws);
      ghost var s := State();
      ReadNext(host, e0, raws, i, encoding);
      err := Feed(ReadLine(host, i + 1, encoding, raws[i]));
      RunAdvance(host, s, lines, i, Outcome(State(), err), whole);
      if err.None? {
        EncodingNext(lines, i, e0, s.encoding, encoding);
      }
    }

    /**
     * `translate(template)`: fresh stack and buffers, every line in order,
     * a last flush, and the code buffer joined. The encoding a line declares
     * stays with the object.
     */
    method Translate(template: string) returns (r: Result<Compiled, TranslateError>)
      modifies this
      ensures r == Translation.Translate(host, template, old(encoding))
      ensures r.Success? ==> encoding == r.value.encoding
    {
      stack, ptrbuffer, codebuffer, multiline, oneline, lineno := [], [], [], None, false, 0;
      assert State() == Init(old(encoding));
      var raws := SplitLines(template, ByteLineBreak, true);
      ghost var e0 := encoding;
      ghost var lines := ReadLines(host, 1, e0, raws);
      ghost var whole := Run(host, State(), lines);
      var i := 0;
      while i < |raws|
        invariant 0 <= i <= |raws| && lineno == i
        invariant Valid(State())
        invariant encoding == LastDeclared(lines[..i], e0)
        invariant Run(host, State(), lines[i..]) == whole
      {
        var err := FeedLine(raws, i, e0, whole);
        if err.Some? {
          return Failure(err.value);
        }
        i := i + 1;
      }
      assert lines[i..] == [];
      ghost var last := State();
      assert whole == Success(last);
      Flush();
      assert State() == Translation.Flush(host, last);
      return Success(Compiled(JoinSep(codebuffer, "\n") + "\n", encoding));
    }
  }
}
