/**
 * The template compiler as a function of its state: one step per source
 * line, the flush of pending text, and the whole translation. The class in
 * translator.dfy computes the same thing step by step and is proved equal to it.
 */
module Translation {
  import opened Wrappers
  import opened PyStr
  import opened Tokens
  import opened Directives

  /** `Template.blocks`: keywords that open a block. */
  const Blocks: seq<string> := ["if", "elif", "else", "try", "except", "finally", "for", "while", "with", "def", "class"]

  /** `Template.dedent_blocks`: keywords that continue the enclosing block at its own depth. */
  const DedentBlocks: seq<string> := ["elif", "else", "except", "finally"]

  /**
   * What the compiler borrows from the host: `repr` of a text piece as a
   * string literal, Python's tokenizer run on a line of code, and
   * `unicode(line, encoding)`, which decodes a byte line in the named
   * encoding or fails (`None`) with a `UnicodeDecodeError`.
   */
  datatype Host = Host(repr: string -> string, scan: string -> Tokenized, decode: (string, string) -> Option<string>)

  /** The compiler's state between lines. */
  datatype TState = TState(
    stack: seq<string>,          // open block keywords, innermost last
    pending: seq<seq<Token>>,    // `ptrbuffer`: tokenised text lines not yet emitted
    code: seq<string>,           // `codebuffer`: the generated lines
    multiline: Option<string>,   // keyword of a block line continued with a backslash
    oneline: bool,               // the last block line did not end with `:`
    encoding: string,
    lineno: nat)

  /**
   * Why a translation fails: a line the current encoding cannot decode, a
   * bare `%` line, or a dedent keyword with no open block.
   */
  datatype TranslateError = DecodeError(line: nat) | EmptyDirective(line: nat) | PopFromEmptyStack(line: nat)

  function Init(encoding: string): TState {
    TState([], [], [], None, false, encoding, 0)
  }

  ghost predicate AllBlocks(ws: seq<string>) {
    forall k :: 0 <= k < |ws| ==> ws[k] in Blocks
  }

  /** The state the compiler keeps to: stacked keywords and a remembered one are block keywords, pending lines are token lists. */
  ghost predicate Valid(s: TState) {
    AllBlocks(s.stack)
    && (s.multiline.Some? ==> s.multiline.value in Blocks)
    && (forall k :: 0 <= k < |s.pending| ==> |s.pending[k]| % 2 == 1)
  }

  // ------------------------------------------------------------ code lines

  function Indent(depth: nat): (r: string)
    ensures |r| == 2 * depth && forall k :: 0 <= k < |r| ==> r[k] == ' '
  {
    if depth == 0 then [] else "  " + Indent(depth - 1)
  }

  /** Each line stripped and indented two spaces per open block. */
  function IndentLines(depth: nat, lines: seq<string>): (r: seq<string>)
    ensures |r| == |lines|
    decreases |lines|
  {
    if lines == [] then []
    else IndentLines(depth, lines[..|lines| - 1]) + [Indent(depth) + Strip(lines[|lines| - 1], UniSpace)]
  }

  /** `code(stmt)`: every line of the statement, stripped, indented two spaces per open block. */
  function CodeLines(depth: nat, stmt: string): (r: seq<string>)
    ensures |r| == |SplitLines(stmt, UniLineBreak, false)|
  {
    IndentLines(depth, SplitLines(stmt, UniLineBreak, false))
  }

  function Emit(s: TState, stmt: string): TState {
    s.(code := s.code + CodeLines(|s.stack|, stmt))
  }

  // ----------------------------------------------------------------- flush

  /** The Python expression that prints one token. */
  function TokenCode(repr: string -> string, t: Token): string {
    match t
    case TXT(v) => repr(v)
    case RAW(v) => "_str(" + v + ")"
    case CMD(v) => "_escape(" + v + ")"
  }

  function TokenCodes(repr: string -> string, toks: seq<Token>): (r: seq<string>)
    ensures |r| == |toks|
    decreases |toks|
  {
    if toks == [] then [] else TokenCodes(repr, toks[..|toks| - 1]) + [TokenCode(repr, toks[|toks| - 1])]
  }

  /** One text line's tokens, as a comma-separated list of expressions. */
  function LineCode(repr: string -> string, toks: seq<Token>): string {
    JoinSep(TokenCodes(repr, toks), ", ")
  }

  function LineCodes(repr: string -> string, pending: seq<seq<Token>>): (r: seq<string>)
    ensures |r| == |pending|
    decreases |pending|
  {
    if pending == [] then [] else LineCodes(repr, pending[..|pending| - 1]) + [LineCode(repr, pending[|pending| - 1])]
  }

  /** The argument list of the flushed `_printlist`: one source line per generated line, joined by a backslash and a line feed. */
  function FlushBody(repr: string -> string, pending: seq<seq<Token>>): string {
    JoinSep(LineCodes(repr, pending), "\\\n")
  }

  /** Five backslashes and an `n`: how `repr` spells a text ending in two backslashes and a line feed. */
  const EscapedNoBreak: string := "\\\\\\\\\\n"

  /** The "nobr" rewrite: a body ending in that spelling, followed by one character, loses the spelling. */
  function NoBr(cline: string): (r: string)
    ensures |cline| >= 1 && EndsWith(DropLast(cline, 1), EscapedNoBreak) ==>
      |cline| >= 7 && r == cline[..|cline| - 7] + [cline[|cline| - 1]]
    ensures !(|cline| >= 1 && EndsWith(DropLast(cline, 1), EscapedNoBreak)) ==> r == cline
  {
    if |cline| >= 1 && EndsWith(DropLast(cline, 1), EscapedNoBreak) then
      DropLast(cline, 7) + [cline[|cline| - 1]]
    else cline
  }

  function FlushStatement(repr: string -> string, pending: seq<seq<Token>>): string {
    "_printlist([" + NoBr(FlushBody(repr, pending)) + "])"
  }

  /** `flush()`: nothing when no text is pending, else one `_printlist` statement and an empty buffer. */
  function Flush(h: Host, s: TState): TState {
    if s.pending == [] then s else Emit(s.(pending := []), FlushStatement(h.repr, s.pending))
  }

  // ------------------------------------------------------------ directives

  /** The arguments of `%include` and `%rebase`: up to two, the second being the rest of the line. */
  function Args(cline: string): (p: seq<string>)
    ensures |p| <= 2
  {
    var fields := SplitWs(cline, UniSpace, 2);
    if fields == [] then [] else fields[1..]
  }

  function IncludeCode(repr: string -> string, p: seq<string>): string {
    if |p| == 2 then "_=_include(" + repr(p[0]) + ", _stdout, " + p[1] + ")"
    else if |p| == 1 then "_=_include(" + repr(p[0]) + ", _stdout)"
    else "_printlist(_base)"
  }

  function RebaseCode(repr: string -> string, p: seq<string>): Option<string> {
    if |p| == 2 then Some("globals()['_rebase']=(" + repr(p[0]) + ", dict(" + p[1] + "))")
    else if |p| == 1 then Some("globals()['_rebase']=(" + repr(p[0]) + ", {})")
    else None
  }

  /**
   * A block-keyword line, or any directive while a continuation is pending:
   * dedent keywords first close the open block and reuse its keyword; the
   * line is emitted; a line ending in `:` opens a block, one ending in a
   * backslash keeps the keyword for the next directive.
   */
  function BlockStep(s: TState, body: string, cline: string, cmd: string): Result<TState, TranslateError> {
    var k := if s.multiline.Some? then s.multiline.value else cmd;
    if k in DedentBlocks && !s.oneline && s.multiline.None? && s.stack == [] then
      Failure(PopFromEmptyStack(s.lineno))
    else
      var popped := k in DedentBlocks && !s.oneline && s.multiline.None?;
      var key := if popped then s.stack[|s.stack| - 1] else k;
      var s1 := if popped then s.(stack := s.stack[..|s.stack| - 1]) else s;
      var s2 := Emit(s1, body);
      var oneline := !EndsWith(cline, ":");
      var multiline := if EndsWith(cline, "\\") then Some(key) else None;
      var stack := if !oneline && multiline.None? then s2.stack + [key] else s2.stack;
      Success(s2.(oneline := oneline, multiline := multiline, stack := stack))
  }

  /** A directive line taken apart: its body after `%`, the body without comment and blanks, and its keyword. */
  datatype Directive = Directive(body: string, cline: string, cmd: string)

  function ParseDirective(h: Host, line: string): (r: Option<Directive>)
    requires '%' in line
    ensures r.Some? ==> r.value.body == DirectiveBody(line) && r.value.cmd == Keyword(r.value.cline)
    ensures r.Some? ==>
      SplitComment(r.value.body, h.scan).Success? &&
      r.value.cline == Strip(SplitComment(r.value.body, h.scan).value.0, UniSpace)
    ensures r.None? <==> DirectiveBody(line) == []
  {
    var body := DirectiveBody(line);
    match SplitComment(body, h.scan)
    case Failure(_) => None
    case Success(split) =>
      var cline := Strip(split.0, UniSpace);
      Some(Directive(body, cline, Keyword(cline)))
  }

  /** What a directive does once the pending text is flushed. */
  function Execute(h: Host, s: TState, d: Directive): Result<TState, TranslateError> {
    if d.cmd in Blocks || s.multiline.Some? then BlockStep(s, d.body, d.cline, d.cmd)
    else if d.cmd == "end" && s.stack != [] then
      var top := s.stack[|s.stack| - 1];
      var s1 := s.(stack := s.stack[..|s.stack| - 1]);
      Success(Emit(s1, "#end(" + top + ") " + DropFirst(Strip(d.body, UniSpace), 3)))
    else if d.cmd == "include" then
      Success(Emit(s, IncludeCode(h.repr, Args(d.cline))))
    else if d.cmd == "rebase" then
      match RebaseCode(h.repr, Args(d.cline))
      case Some(stmt) => Success(Emit(s, stmt))
      case None => Success(s)
    else Success(Emit(s, d.body))
  }

  /** What a source line is, once read: undecodable, text to queue, or a directive (none when it has no body). */
  datatype LineKind = Undecodable | Text(tokens: seq<Token>) | Dir(directive: Option<Directive>)

  /** A classified source line and the encoding it declares, if any. */
  datatype Line = Line(kind: LineKind, declared: Option<string>)

  /**
   * Reading source line number `lineno` in the encoding `encoding` in force
   * before it: the byte line is decoded first; then lines 1 and 2 may
   * declare the encoding (and have the declaration defused); a directive
   * line is parsed, any other line is unescaped and tokenised.
   */
  function ReadLine(h: Host, lineno: nat, encoding: string, raw: string): (l: Line)
    ensures h.decode(encoding, raw).None? <==> l.kind.Undecodable?
    ensures h.decode(encoding, raw).None? ==> l.declared.None?
    ensures h.decode(encoding, raw).Some? ==>
      var text := h.decode(encoding, raw).value;
      l.declared == (if lineno <= 2 then CodingDecl(text) else None)
      && (l.kind.Text? ==> l.kind.tokens == YieldTokens(UnescapeText(if l.declared.Some? then RemoveCoding(text) else text)))
  {
    match h.decode(encoding, raw)
    case None => Line(Undecodable, None)
    case Some(text) =>
      var declared := if lineno <= 2 then CodingDecl(text) else None;
      var line := if declared.Some? then RemoveCoding(text) else text;
      if IsDirective(line) then
        DirectiveHasPercent(line);
        Line(Dir(ParseDirective(h, line)), declared)
      else Line(Text(YieldTokens(UnescapeText(line))), declared)
  }

  /** The encoding in force after line `l`: the one it declares, else `encoding`. */
  function After(l: Line, encoding: string): string {
    if l.declared.Some? then l.declared.value else encoding
  }

  /**
   * Source lines `first`, `first + 1`, ... read in order, each decoded in
   * the encoding the lines before it left in force.
   */
  function ReadLines(h: Host, first: nat, encoding: string, raws: seq<string>): (ls: seq<Line>)
    ensures |ls| == |raws|
    decreases |raws|
  {
    if raws == [] then []
    else
      var l := ReadLine(h, first, encoding, raws[0]);
      [l] + ReadLines(h, first + 1, After(l, encoding), raws[1..])
  }

  /** A read line's effect on the state it finds: text is queued; a directive is executed after a flush. */
  function Apply(h: Host, s: TState, kind: LineKind): Result<TState, TranslateError> {
    match kind
    case Undecodable => Failure(DecodeError(s.lineno))
    case Text(tokens) => Success(s.(pending := s.pending + [tokens]))
    case Dir(None) => Failure(EmptyDirective(s.lineno))
    case Dir(Some(d)) => Execute(h, Flush(h, s), d)
  }

  /** The line counted and its declared encoding taken: the state a line's effect starts from. */
  function Counted(s: TState, l: Line): TState {
    s.(lineno := s.lineno + 1, encoding := After(l, s.encoding))
  }

  /** One source line applied to the state: counted, its encoding taken, then its effect. */
  function Step(h: Host, s: TState, l: Line): Result<TState, TranslateError> {
    Apply(h, Counted(s, l), l.kind)
  }

  /** All the lines, in order, stopping at the first error. */
  function Run(h: Host, s: TState, lines: seq<Line>): Result<TState, TranslateError>
    decreases |lines|
  {
    if lines == [] then Success(s)
    else match Step(h, s, lines[0])
      case Failure(e) => Failure(e)
      case Success(s1) => Run(h, s1, lines[1..])
  }

  /** The generated program and the encoding the template declared. */
  datatype Compiled = Compiled(code: string, encoding: string)

  /** `'\n'.join(codebuffer) + '\n'`. */
  function Output(s: TState): Compiled {
    Compiled(JoinSep(s.code, "\n") + "\n", s.encoding)
  }

  /**
   * `translate(template)`: every line, then a last flush. Open blocks are
   * neither closed nor reported.
   */
  function Translate(h: Host, template: string, encoding: string): Result<Compiled, TranslateError> {
    match Run(h, Init(encoding), ReadLines(h, 1, encoding, SplitLines(template, ByteLineBreak, true)))
    case Failure(e) => Failure(e)
    case Success(s) => Success(Output(Flush(h, s)))
  }
}
