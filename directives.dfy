/**
 * How the template compiler reads one source line: directive or text, the
 * body of a directive, its comment and its leading keyword, and the source
 * encoding declaration that may appear on the first two lines.
 */
module Directives {
  import opened Wrappers
  import opened PyStr

  // --------------------------------------------------------- classification

  /** A directive line: among its first two non-blank characters there is exactly one `%`. */
  predicate IsDirective(line: string) {
    CountChar(Take(Strip(line, UniSpace), 2), '%') == 1
  }

  /**
   * The classification spelled out: the stripped line starts with `%` not
   * followed by a second `%`, or its second character is its first `%`.
   * So `%%...` is text and `x%...` is a directive.
   */
  lemma DirectiveIff(line: string)
    ensures var t := Strip(line, UniSpace);
      IsDirective(line) <==>
        (|t| >= 1 && t[0] == '%' && (|t| == 1 || t[1] != '%'))
        || (|t| >= 2 && t[0] != '%' && t[1] == '%')
  {
    var t := Strip(line, UniSpace);
    var h := Take(t, 2);
    if |t| >= 2 {
      assert h == [t[0]] + [t[1]];
      assert CountChar(h, '%') == CountChar([t[0]], '%') + CountChar([t[1]], '%') by {
        assert h[1..] == [t[1]];
      }
    } else if |t| == 1 {
      assert h == [t[0]];
    }
  }

  /** A directive line holds a `%`. */
  lemma DirectiveHasPercent(line: string)
    requires IsDirective(line)
    ensures '%' in line
  {
    var t := Strip(line, UniSpace);
    var lead := StripIsInfix(line, UniSpace);
    assert '%' in Take(t, 2);
    var k :| 0 <= k < |Take(t, 2)| && Take(t, 2)[k] == '%';
    assert line[lead + k] == t[k];
  }

  /** `body` is what follows the first `%` of `line`, at index `i`, once a run of white space is removed. */
  predicate BodyAfter(line: string, i: int, body: string) {
    0 <= i < |line| && line[i] == '%' && '%' !in line[..i]
    && EndsWith(line[i + 1..], body)
    && forall j :: i + 1 <= j < |line| - |body| ==> IsUniSpace(line[j])
  }

  /** The directive's body: what follows its first `%`, leading whitespace removed. */
  function DirectiveBody(line: string): (body: string)
    requires '%' in line
    ensures body == [] || !IsUniSpace(body[0])
    ensures exists i :: BodyAfter(line, i, body)
  {
    var i := IndexOf(line, '%').value;
    var body := LStrip(line[i + 1..], UniSpace);
    assert EndsWith(line[i + 1..], body);
    assert forall j :: i + 1 <= j < |line| - |body| ==> line[j] == line[i + 1..][j - (i + 1)];
    assert BodyAfter(line, i, body);
    body
  }

  /** A text line whose stripped form starts with `%%` has its first `%%` turned into `%`. */
  function UnescapeText(line: string): (r: string)
    ensures !StartsWith(Strip(line, UniSpace), "%%") ==> r == line
    ensures StartsWith(Strip(line, UniSpace), "%%") ==>
      exists i :: 0 <= i && i + 2 <= |line| && line[i..i + 2] == "%%" && r == line[..i] + "%" + line[i + 2..]
        && forall j :: 0 <= j < i ==> !OccursAt(line, "%%", j)
  {
    if StartsWith(Strip(line, UniSpace), "%%") then
      assert FindFrom(line, "%%", 0).Some? by {
        var lead := StripIsInfix(line, UniSpace);
        var t := Strip(line, UniSpace);
        assert line[lead..lead + 2] == t[..2];
        assert OccursAt(line, "%%", lead);
      }
      ReplaceFirst(line, "%%", "%")
    else line
  }

  // ---------------------------------------------------------- the keyword

  /** The run of `[a-zA-Z0-9_]` characters that starts at index `i`. */
  function WordFrom(s: string, i: nat): (w: string)
    requires i <= |s|
    ensures |w| <= |s| - i
    decreases |s| - i
  {
    if i == |s| || !IsWordChar(s[i]) then [] else [s[i]] + WordFrom(s, i + 1)
  }

  /** The run is the longest slice of word characters at `i`. */
  lemma {:induction false} WordFromIsRun(s: string, i: nat)
    requires i <= |s|
    ensures var w := WordFrom(s, i);
      w == s[i..i + |w|] && (forall j :: 0 <= j < |w| ==> IsWordChar(w[j]))
      && (i + |w| < |s| ==> !IsWordChar(s[i + |w|]))
    decreases |s| - i
  {
    if i < |s| && IsWordChar(s[i]) {
      WordFromIsRun(s, i + 1);
    }
  }

  /** `re.split(r'[^a-zA-Z0-9_]', cline)[0]`: the keyword that starts a directive. */
  function Keyword(cline: string): (cmd: string)
    ensures |cmd| <= |cline|
  {
    WordFrom(cline, 0)
  }

  /** The keyword is the longest prefix of word characters. */
  lemma KeywordIsWordPrefix(cline: string)
    ensures StartsWith(cline, Keyword(cline))
    ensures forall j :: 0 <= j < |Keyword(cline)| ==> IsWordChar(Keyword(cline)[j])
    ensures |Keyword(cline)| < |cline| ==> !IsWordChar(cline[|Keyword(cline)|])
  {
    WordFromIsRun(cline, 0);
  }

  // ---------------------------------------------------------- comments

  /** What Python's tokenizer makes of a line of code: an error, or a comment span in columns, or none. */
  datatype Tokenized = TokenError | Scanned(comment: Option<(nat, nat)>)

  datatype CommentError = NoFirstLine

  /**
   * `split_comment(codeline)`: the code of the line and its comment. The
   * tokenizer's answer for the first line of `codeline` is `scan`. When it
   * fails, the line is cut at its last `#`; a comment it reports is cut out
   * of `codeline` by column. An empty `codeline` has no first line and fails.
   */
  function SplitComment(codeline: string, scan: string -> Tokenized): (r: Result<(string, string), CommentError>)
    ensures r.Failure? <==> codeline == []
  {
    var lines := SplitLines(codeline, UniLineBreak, false);
    if lines == [] then Failure(NoFirstLine)
    else
      var line := lines[0];
      match scan(line)
      case TokenError =>
        (match LastIndexOf(line, '#')
         case Some(k) => Success((line[..k], line[k + 1..]))
         case None => Success((line, "")))
      case Scanned(None) => Success((line, ""))
      case Scanned(Some(span)) => Success(CutComment(codeline, span.0, span.1))
  }

  /**
   * `(codeline[:start] + codeline[end:], codeline[start:end])`: the comment
   * the tokenizer found, cut out of the line by column.
   */
  function CutComment(codeline: string, start: nat, end: nat): (r: (string, string))
    ensures start <= end <= |codeline| ==>
      r.0 == codeline[..start] + codeline[end..] && codeline == codeline[..start] + r.1 + codeline[end..]
    ensures end <= start ==> r.1 == []
  {
    assert start <= end <= |codeline| ==> codeline == codeline[..start] + codeline[start..end] + codeline[end..];
    (Take(codeline, start) + DropFirst(codeline, end), PySlice(codeline, start, end))
  }

  /** `s[a:b]` with Python's clamping of out-of-range bounds. */
  function PySlice(s: string, a: nat, b: nat): (r: string)
    ensures |r| <= |s|
    ensures a <= b <= |s| ==> r == s[a..b]
  {
    DropFirst(Take(s, b), a)
  }

  /**
   * When the tokenizer fails, the code part and the comment part, put back
   * together around the `#`, are the first line again, and the comment holds no `#`.
   */
  lemma SplitCommentFallback(codeline: string, scan: string -> Tokenized)
    requires codeline != []
    requires scan(SplitLines(codeline, UniLineBreak, false)[0]) == TokenError
    ensures var line := SplitLines(codeline, UniLineBreak, false)[0];
      var (code, comment) := SplitComment(codeline, scan).value;
      ('#' in line ==> code + "#" + comment == line && '#' !in comment)
      && ('#' !in line ==> code == line && comment == "")
  {
    var line := SplitLines(codeline, UniLineBreak, false)[0];
    match LastIndexOf(line, '#')
    case Some(k) =>
      assert line == line[..k] + "#" + line[k + 1..];
    case None =>
  }

  // ------------------------------------------------- encoding declaration

  /** A character of `[-\w\.]`. */
  predicate IsEncodingChar(c: char) {
    c == '-' || c == '.' || IsWordChar(c)
  }

  /** The first index at or after `i` whose character is not in `[-\w\.]`. */
  function EncodingEnd(s: string, i: nat): (j: nat)
    requires i <= |s|
    ensures i <= j <= |s| && (j < |s| ==> !IsEncodingChar(s[j]))
    ensures forall k :: i <= k < j ==> IsEncodingChar(s[k])
    decreases |s| - i
  {
    if i < |s| && IsEncodingChar(s[i]) then EncodingEnd(s, i + 1) else i
  }

  /**
   * The tail `coding[:=]\s*([-\w\.]+)` of the pattern, tried with `coding`
   * at index `c`; the group's value when it matches there.
   */
  function CodingAt(s: string, c: nat): (r: Option<string>)
    ensures r.Some? ==>
      (OccursAt(s, "coding", c) && r.value != [] && forall k :: 0 <= k < |r.value| ==> IsEncodingChar(r.value[k]))
  {
    if OccursAt(s, "coding", c) && c + 6 < |s| && (s[c + 6] == ':' || s[c + 6] == '=') then
      var a := SkipIn(s, AsciiSpace, c + 7);
      var b := EncodingEnd(s, a);
      if a < b then Some(s[a..b]) else None
    else None
  }

  /** No line feed in `s[c..k]`: the stretch `.` can cover. */
  predicate NoLineFeed(s: string, c: nat, k: nat)
    requires c <= k <= |s|
  {
    forall j :: c <= j < k ==> s[j] != '\n'
  }

  /**
   * The greedy `.*` starting at `c`: it runs to the end of the line feed free
   * stretch and gives characters back, so the last `coding` it can reach wins.
   */
  function LastCoding(s: string, c: nat): (r: Option<string>)
    requires c <= |s|
    ensures r.Some? ==> r.value != [] && forall k :: 0 <= k < |r.value| ==> IsEncodingChar(r.value[k])
    ensures r.Some? ==> exists k :: OccursAt(s, "coding", k)
    decreases |s| - c
  {
    if c == |s| || s[c] == '\n' then None
    else match LastCoding(s, c + 1)
      case Some(v) => Some(v)
      case None => CodingAt(s, c)
  }

  /** `LastCoding` picks the last place, reachable without crossing a line feed, where the tail matches. */
  lemma {:induction false} LastCodingIsLast(s: string, c: nat)
    requires c <= |s|
    ensures LastCoding(s, c).Some? ==>
      exists k :: c <= k < |s| && NoLineFeed(s, c, k) && CodingAt(s, k) == LastCoding(s, c)
        && forall k' :: k < k' < |s| && NoLineFeed(s, c, k') ==> CodingAt(s, k').None?
    ensures LastCoding(s, c).None? ==>
      forall k :: c <= k < |s| && NoLineFeed(s, c, k) ==> CodingAt(s, k).None?
    decreases |s| - c
  {
    if c < |s| && s[c] != '\n' {
      LastCodingIsLast(s, c + 1);
      assert forall k :: c < k <= |s| ==> (NoLineFeed(s, c, k) <==> NoLineFeed(s, c + 1, k));
      match LastCoding(s, c + 1)
      case Some(v) =>
        var k :| c + 1 <= k < |s| && NoLineFeed(s, c + 1, k) && CodingAt(s, k) == Some(v)
          && forall k' :: k < k' < |s| && NoLineFeed(s, c + 1, k') ==> CodingAt(s, k').None?;
        assert NoLineFeed(s, c, k);
      case None =>
        assert NoLineFeed(s, c, c);
    } else if c < |s| {
      assert forall k :: c < k <= |s| ==> !NoLineFeed(s, c, k);
    }
  }

  /** `re.search(r"%.*coding[:=]\s*([-\w\.]+)", s[p:])`: the first `%` from which the pattern matches. */
  function CodingFrom(s: string, p: nat): (r: Option<string>)
    requires p <= |s|
    ensures r.Some? ==> r.value != [] && forall k :: 0 <= k < |r.value| ==> IsEncodingChar(r.value[k])
    ensures r.Some? ==> (exists q :: p <= q < |s| && s[q] == '%') && exists k :: OccursAt(s, "coding", k)
    decreases |s| - p
  {
    if p == |s| then None
    else if s[p] == '%' && LastCoding(s, p + 1).Some? then LastCoding(s, p + 1)
    else CodingFrom(s, p + 1)
  }

  /** The match starts at the first `%` that can start one. */
  lemma {:induction false} CodingFromIsLeftmost(s: string, p: nat)
    requires p <= |s|
    ensures CodingFrom(s, p).Some? ==>
      exists q :: p <= q < |s| && s[q] == '%' && LastCoding(s, q + 1) == CodingFrom(s, p)
        && forall q' :: p <= q' < q && s[q'] == '%' ==> LastCoding(s, q' + 1).None?
    decreases |s| - p
  {
    if p < |s| {
      if s[p] == '%' && LastCoding(s, p + 1).Some? {
        assert CodingFrom(s, p) == LastCoding(s, p + 1);
      } else {
        CodingFromIsLeftmost(s, p + 1);
        assert CodingFrom(s, p) == CodingFrom(s, p + 1);
        if CodingFrom(s, p).Some? {
          var q :| p + 1 <= q < |s| && s[q] == '%' && LastCoding(s, q + 1) == CodingFrom(s, p)
            && forall q' :: p + 1 <= q' < q && s[q'] == '%' ==> LastCoding(s, q' + 1).None?;
          assert forall q' :: p <= q' < q && s[q'] == '%' ==> LastCoding(s, q' + 1).None?;
        }
      }
    }
  }

  /** There is no match only when no `%` can start one. */
  lemma {:induction false} CodingFromNone(s: string, p: nat)
    requires p <= |s|
    ensures CodingFrom(s, p).None? ==> forall q :: p <= q < |s| && s[q] == '%' ==> LastCoding(s, q + 1).None?
    decreases |s| - p
  {
    if p < |s| && !(s[p] == '%' && LastCoding(s, p + 1).Some?) {
      CodingFromNone(s, p + 1);
    }
  }

  /** The encoding named by a `%... coding: name` declaration on the line, if there is one. */
  function CodingDecl(line: string): (r: Option<string>)
    ensures r.Some? ==> r.value != [] && forall k :: 0 <= k < |r.value| ==> IsEncodingChar(r.value[k])
    ensures r.Some? ==> '%' in line && exists c :: OccursAt(line, "coding", c)
  {
    CodingFrom(line, 0)
  }

  /** The declaration is neutralised so the generated program does not declare it again. */
  function RemoveCoding(line: string): string {
    ReplaceAll(line, "coding", "coding (removed)")
  }

  /** A line with a declaration is always rewritten, and nothing else is. */
  lemma RemoveCodingChanges(line: string)
    ensures (exists c :: OccursAt(line, "coding", c)) <==> RemoveCoding(line) != line
  {
    if c :| OccursAt(line, "coding", c) {
      assert FindFrom(line, "coding", 0).Some?;
    }
  }
}
