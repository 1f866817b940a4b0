/**
 * The Python 2 string primitives the template compiler and the two servers
 * are built from: whitespace classes, stripping, slicing with Python's
 * clamping rules, splitting, joining, replacing and decimal formatting.
 * Characters stand for the code points of a decoded `unicode` value, or for
 * the bytes of a `str` value.
 */
module PyStr {
  import opened Wrappers

  /** `unicode.isspace()` in Python 2.7. */
  predicate IsUniSpace(c: char) {
    var n := c as int;
    (9 <= n <= 13) || (28 <= n <= 32) || n == 0x85 || n == 0xA0 || n == 0x1680 || n == 0x180E
    || (0x2000 <= n <= 0x200A) || n == 0x2028 || n == 0x2029 || n == 0x202F || n == 0x205F || n == 0x3000
  }

  /** `str.isspace()` on bytes, and the `\s` class of a regular expression without the UNICODE flag. */
  predicate IsAsciiSpace(c: char) {
    c == ' ' || c == '\t' || c == '\n' || c == '\r' || c as int == 11 || c as int == 12
  }

  /** A line boundary of `unicode.splitlines`. */
  predicate IsUniLineBreak(c: char) {
    var n := c as int;
    (10 <= n <= 13) || (28 <= n <= 30) || n == 0x85 || n == 0x2028 || n == 0x2029
  }

  /** A line boundary of `str.splitlines` (bytes). */
  predicate IsByteLineBreak(c: char) {
    c == '\n' || c == '\r'
  }

  /** The `\w` class of a regular expression without the UNICODE flag: `[a-zA-Z0-9_]`. */
  predicate IsWordChar(c: char) {
    ('a' <= c <= 'z') || ('A' <= c <= 'Z') || ('0' <= c <= '9') || c == '_'
  }

  predicate IsDigit(c: char) {
    '0' <= c <= '9'
  }

  /** The line boundary of `readlines()`: only "\n". */
  predicate IsNewLine(c: char) {
    c == '\n'
  }

  /** The character classes the source strips, splits and breaks lines on. */
  datatype CharClass = UniSpace | AsciiSpace | UniLineBreak | ByteLineBreak | NewLine

  predicate In(cls: CharClass, c: char) {
    match cls
    case UniSpace => IsUniSpace(c)
    case AsciiSpace => IsAsciiSpace(c)
    case UniLineBreak => IsUniLineBreak(c)
    case ByteLineBreak => IsByteLineBreak(c)
    case NewLine => IsNewLine(c)
  }

  // ---------------------------------------------------------------- slicing

  /** `s[:n]` for n >= 0. */
  function Take(s: string, n: nat): (r: string)
    ensures |r| == if n <= |s| then n else |s|
    ensures r == s[..|r|]
  {
    if n <= |s| then s[..n] else s
  }

  /** `s[n:]` for n >= 0. */
  function DropFirst(s: string, n: nat): (r: string)
    ensures |r| == if n <= |s| then |s| - n else 0
    ensures r == s[|s| - |r|..]
  {
    if n <= |s| then s[n..] else []
  }

  /** `s[:-n]` for n > 0: the string without its last n characters, empty when it is shorter. */
  function DropLast(s: string, n: nat): (r: string)
    ensures |r| == if n <= |s| then |s| - n else 0
    ensures r == s[..|r|]
  {
    if n <= |s| then s[..|s| - n] else []
  }

  predicate StartsWith(s: string, p: string) {
    |p| <= |s| && s[..|p|] == p
  }

  predicate EndsWith(s: string, p: string) {
    |p| <= |s| && s[|s| - |p|..] == p
  }

  // -------------------------------------------------------------- stripping

  /** The first index at or after `i` whose character is outside the class. */
  function SkipIn(s: string, ws: CharClass, i: nat): (j: nat)
    requires i <= |s|
    ensures i <= j <= |s| && (j < |s| ==> !In(ws, s[j]))
    ensures forall k :: i <= k < j ==> In(ws, s[k])
    decreases |s| - i
  {
    if i < |s| && In(ws, s[i]) then SkipIn(s, ws, i + 1) else i
  }

  /** The first index at or after `i` whose character is in the class. */
  function SkipOut(s: string, ws: CharClass, i: nat): (j: nat)
    requires i <= |s|
    ensures i <= j <= |s| && (j < |s| ==> In(ws, s[j]))
    ensures forall k :: i <= k < j ==> !In(ws, s[k])
    decreases |s| - i
  {
    if i < |s| && !In(ws, s[i]) then SkipOut(s, ws, i + 1) else i
  }

  /** `s.lstrip()` for the whitespace class `ws`. */
  function LStrip(s: string, ws: CharClass): (r: string)
    ensures |r| <= |s| && r == s[|s| - |r|..]
    ensures r == [] || !In(ws, r[0])
    ensures forall i :: 0 <= i < |s| - |r| ==> In(ws, s[i])
  {
    s[SkipIn(s, ws, 0)..]
  }

  /** `s.rstrip()` for the whitespace class `ws`. */
  function RStrip(s: string, ws: CharClass): (r: string)
    ensures |r| <= |s| && r == s[..|r|]
    ensures r == [] || !In(ws, r[|r| - 1])
    ensures forall i :: |r| <= i < |s| ==> In(ws, s[i])
    decreases |s|
  {
    if s != [] && In(ws, s[|s| - 1]) then RStrip(s[..|s| - 1], ws) else s
  }

  /** `s.strip()` for the whitespace class `ws`. */
  function Strip(s: string, ws: CharClass): (r: string)
    ensures r == [] || (!In(ws, r[0]) && !In(ws, r[|r| - 1]))
  {
    RStrip(LStrip(s, ws), ws)
  }

  /** Stripping a stripped string changes nothing. */
  lemma StripIdempotent(s: string, ws: CharClass)
    ensures Strip(Strip(s, ws), ws) == Strip(s, ws)
  {
    var r := Strip(s, ws);
    assert r == [] || !In(ws, r[0]);
    assert LStrip(r, ws) == r;
    assert r == [] || !In(ws, r[|r| - 1]);
  }

  /** The stripped string is a substring of the original: s == lead + Strip(s) + trail. */
  lemma StripIsInfix(s: string, ws: CharClass) returns (lead: nat)
    ensures lead + |Strip(s, ws)| <= |s|
    ensures s[lead..lead + |Strip(s, ws)|] == Strip(s, ws)
    ensures forall i :: 0 <= i < lead ==> In(ws, s[i])
  {
    var l := LStrip(s, ws);
    lead := |s| - |l|;
    var r := RStrip(l, ws);
    assert r == l[..|r|];
    assert s[lead..lead + |r|] == l[..|r|];
  }

  // ---------------------------------------------------------------- search

  function CountChar(s: string, c: char): (n: nat)
    ensures n <= |s|
    ensures n > 0 <==> c in s
  {
    if s == [] then 0 else (if s[0] == c then 1 else 0) + CountChar(s[1..], c)
  }

  /** Index of the first `c` in `s`. */
  function IndexOf(s: string, c: char): (r: Option<nat>)
    ensures r.None? <==> c !in s
    ensures r.Some? ==> r.value < |s| && s[r.value] == c && c !in s[..r.value]
  {
    if s == [] then None
    else if s[0] == c then Some(0)
    else match IndexOf(s[1..], c)
      case None => None
      case Some(i) => assert s[1..][..i] == s[1..i + 1]; Some(i + 1)
  }

  /** A `c` with none before it is the one `IndexOf` finds. */
  lemma IndexOfAt(s: string, c: char, i: nat)
    requires i < |s| && s[i] == c && c !in s[..i]
    ensures IndexOf(s, c) == Some(i)
  {
    var r := IndexOf(s, c);
    assert s[i] in s;
    forall k | 0 <= k < i ensures s[k] != c {
      assert s[..i][k] == s[k];
    }
    forall k | 0 <= k < r.value ensures s[k] != c {
      assert s[..r.value][k] == s[k];
    }
  }

  /** Index of the last `c` in `s`. */
  function LastIndexOf(s: string, c: char): (r: Option<nat>)
    ensures r.None? <==> c !in s
    ensures r.Some? ==> r.value < |s| && s[r.value] == c && c !in s[r.value + 1..]
    decreases |s|
  {
    if s == [] then None
    else if s[|s| - 1] == c then Some(|s| - 1)
    else match LastIndexOf(s[..|s| - 1], c)
      case None => None
      case Some(i) => assert s[i + 1..] == s[..|s| - 1][i + 1..] + [s[|s| - 1]]; Some(i)
  }

  /** True when `p` occurs in `s` at position `i`. */
  predicate OccursAt(s: string, p: string, i: nat) {
    i + |p| <= |s| && s[i..i + |p|] == p
  }

  /** An occurrence inside a slice is an occurrence in the whole string. */
  lemma OccursInSlice(s: string, a: nat, b: nat, p: string, q: nat)
    requires a <= b <= |s| && OccursAt(s[a..b], p, q)
    ensures OccursAt(s, p, a + q)
  {
    var t := s[a..b];
    assert t[q..q + |p|] == p;
    var u := s[a + q..a + q + |p|];
    assert forall k :: 0 <= k < |p| ==> u[k] == t[q + k];
  }

  /** The first position at or after `from` where `p` occurs (`s.find(p, from)`). */
  function FindFrom(s: string, p: string, from: nat): (r: Option<nat>)
    ensures r.Some? ==>
      (from <= r.value && OccursAt(s, p, r.value) && forall j :: from <= j < r.value ==> !OccursAt(s, p, j))
    ensures r.None? ==> forall j :: from <= j ==> !OccursAt(s, p, j)
    decreases |s| - from
  {
    if from + |p| > |s| then None
    else if s[from..from + |p|] == p then Some(from)
    else FindFrom(s, p, from + 1)
  }

  /** POSIX `os.path.join(path, name)`: an absolute name discards the path,
   *  otherwise one separator is put between them unless the path is empty or
   *  already ends with one. */
  function PathJoin(path: string, name: string): (joined: string)
    ensures StartsWith(name, "/") ==> joined == name
    ensures !StartsWith(name, "/") ==> StartsWith(joined, path) && EndsWith(joined, name)
    ensures !StartsWith(name, "/") && path != [] && !EndsWith(path, "/") ==> joined == path + "/" + name
  {
    if StartsWith(name, "/") then name
    else if path == [] || EndsWith(path, "/") then path + name
    else path + "/" + name
  }

  // -------------------------------------------------------------- replacing

  /** `s.replace(pat, rep, 1)`: the first occurrence only. */
  function ReplaceFirst(s: string, pat: string, rep: string): (r: string)
    ensures FindFrom(s, pat, 0).None? ==> r == s
    ensures FindFrom(s, pat, 0).Some? ==>
      var i := FindFrom(s, pat, 0).value; r == s[..i] + rep + s[i + |pat|..]
  {
    match FindFrom(s, pat, 0)
    case None => s
    case Some(i) => s[..i] + rep + s[i + |pat|..]
  }

  /** `s.replace(pat, rep)`: every non-overlapping occurrence, scanning left to right. */
  function ReplaceAll(s: string, pat: string, rep: string): (r: string)
    requires pat != []
    ensures FindFrom(s, pat, 0).None? ==> r == s
    ensures |rep| >= |pat| ==> |r| >= |s|
    ensures FindFrom(s, pat, 0).Some? && |rep| > |pat| ==> |r| > |s|
    decreases |s|
  {
    match FindFrom(s, pat, 0)
    case None => s
    case Some(i) => s[..i] + rep + ReplaceAll(s[i + |pat|..], pat, rep)
  }

  /** Every `a` replaced by `b`. */
  function ReplaceChar(s: string, a: char, b: char): (r: string)
    ensures |r| == |s|
    ensures forall i :: 0 <= i < |s| ==> r[i] == if s[i] == a then b else s[i]
  {
    if s == [] then [] else [if s[0] == a then b else s[0]] + ReplaceChar(s[1..], a, b)
  }

  function UpperChar(c: char): char {
    if 'a' <= c <= 'z' then (c as int - 32) as char else c
  }

  /** `str.upper()` on bytes: ASCII letters only. */
  function Upper(s: string): (r: string)
    ensures |r| == |s|
    ensures forall i :: 0 <= i < |s| ==> r[i] == UpperChar(s[i])
  {
    if s == [] then [] else [UpperChar(s[0])] + Upper(s[1..])
  }

  // ------------------------------------------------------ joining, splitting

  function Concat(xs: seq<string>): string {
    if xs == [] then [] else Concat(xs[..|xs| - 1]) + xs[|xs| - 1]
  }

  /** `sep.join(xs)`. */
  function JoinSep(xs: seq<string>, sep: string): string {
    if |xs| == 0 then []
    else if |xs| == 1 then xs[0]
    else JoinSep(xs[..|xs| - 1], sep) + sep + xs[|xs| - 1]
  }

  /** Joining two non-empty runs of items equals joining each and putting one separator between. */
  lemma {:induction false} JoinSepAppend(xs: seq<string>, ys: seq<string>, sep: string)
    requires xs != [] && ys != []
    ensures JoinSep(xs + ys, sep) == JoinSep(xs, sep) + sep + JoinSep(ys, sep)
    decreases |ys|
  {
    if |ys| == 1 {
      assert (xs + ys)[..|xs + ys| - 1] == xs;
    } else {
      var ys' := ys[..|ys| - 1];
      assert (xs + ys)[..|xs + ys| - 1] == xs + ys';
      JoinSepAppend(xs, ys', sep);
    }
  }

  /** Index of the first character of `s` satisfying `brk`, or |s|. */
  function BreakIndex(s: string, brk: CharClass): (i: nat)
    ensures i <= |s| && (i < |s| ==> In(brk, s[i]))
    ensures forall j :: 0 <= j < i ==> !In(brk, s[j])
  {
    if s == [] then 0 else if In(brk, s[0]) then 0 else 1 + BreakIndex(s[1..], brk)
  }

  /** Where the line that starts `s` ends, its boundary included ("\r\n" is one boundary). */
  function LineNext(s: string, brk: CharClass): (next: nat)
    requires s != []
    ensures BreakIndex(s, brk) < next <= |s| || BreakIndex(s, brk) == next == |s|
    ensures 0 < next <= |s|
  {
    var i := BreakIndex(s, brk);
    if i == |s| then i
    else if s[i] == '\r' && i + 1 < |s| && s[i + 1] == '\n' then i + 2
    else i + 1
  }

  /**
   * `s.splitlines(keepends)`: a line ends at a character of `brk`, and
   * "\r\n" counts as one boundary; there is no empty line after a final boundary.
   */
  function SplitLines(s: string, brk: CharClass, keepends: bool): (r: seq<string>)
    ensures s == [] <==> r == []
    decreases |s|
  {
    if s == [] then []
    else
      var next := LineNext(s, brk);
      [if keepends then s[..next] else s[..BreakIndex(s, brk)]] + SplitLines(s[next..], brk, keepends)
  }

  /** With the line ends kept, the lines concatenate back to the source. */
  lemma {:induction false} SplitLinesKeepEndsConcat(s: string, brk: CharClass)
    ensures Concat(SplitLines(s, brk, true)) == s
    decreases |s|
  {
    if s != [] {
      var next := LineNext(s, brk);
      assert SplitLines(s, brk, true) == [s[..next]] + SplitLines(s[next..], brk, true);
      SplitLinesKeepEndsConcat(s[next..], brk);
      ConcatPrependTo(s[..next], SplitLines(s[next..], brk, true), s[next..]);
      assert s == s[..next] + s[next..];
    }
  }

  /** With the line ends kept, no line is empty. */
  lemma {:induction false} SplitLinesKeepEndsNonEmpty(s: string, brk: CharClass)
    ensures forall k :: 0 <= k < |SplitLines(s, brk, true)| ==> SplitLines(s, brk, true)[k] != []
    decreases |s|
  {
    if s != [] {
      var next := LineNext(s, brk);
      var rest := SplitLines(s[next..], brk, true);
      assert SplitLines(s, brk, true) == [s[..next]] + rest;
      SplitLinesKeepEndsNonEmpty(s[next..], brk);
    }
  }

  lemma ConcatPrependTo(x: string, xs: seq<string>, tail: string)
    requires Concat(xs) == tail
    ensures Concat([x] + xs) == x + tail
  {
    ConcatPrepend(x, xs);
  }

  lemma {:induction false} ConcatPrepend(x: string, xs: seq<string>)
    ensures Concat([x] + xs) == x + Concat(xs)
    decreases |xs|
  {
    if xs != [] {
      assert ([x] + xs)[..|[x] + xs| - 1] == [x] + xs[..|xs| - 1];
      ConcatPrepend(x, xs[..|xs| - 1]);
    }
  }

  /** No character of `s` is in the class. */
  predicate NoneIn(s: string, ws: CharClass) {
    forall j :: 0 <= j < |s| ==> !In(ws, s[j])
  }

  /**
   * The fields of `s[i..].split(None, maxsplit)`, as slices of `s`: at most
   * `maxsplit` whitespace-delimited words, then the rest of the string, its
   * leading whitespace removed, as one last field.
   */
  function SplitWsFrom(s: string, ws: CharClass, i: nat, maxsplit: nat): (r: seq<string>)
    requires i <= |s|
    ensures |r| <= maxsplit + 1
    ensures forall k :: 0 <= k < |r| ==> r[k] != [] && !In(ws, r[k][0])
    ensures forall k :: 0 <= k < |r| - 1 ==> NoneIn(r[k], ws)
    ensures |r| == maxsplit + 1 ==> EndsWith(s, r[maxsplit])
    decreases |s| - i
  {
    var a := SkipIn(s, ws, i);
    if a == |s| then []
    else if maxsplit == 0 then [s[a..]]
    else
      var b := SkipOut(s, ws, a);
      var rest := SplitWsFrom(s, ws, b, maxsplit - 1);
      var r := [s[a..b]] + rest;
      assert forall k :: 1 <= k < |r| ==> r[k] == rest[k - 1];
      r
  }

  /** `s.split(None, maxsplit)`. */
  function SplitWs(s: string, ws: CharClass, maxsplit: nat): (r: seq<string>)
    ensures |r| <= maxsplit + 1
    ensures forall k :: 0 <= k < |r| ==> r[k] != [] && !In(ws, r[k][0])
    ensures forall k :: 0 <= k < |r| - 1 ==> NoneIn(r[k], ws)
    ensures |r| == maxsplit + 1 ==> EndsWith(s, r[maxsplit])
  {
    SplitWsFrom(s, ws, 0, maxsplit)
  }

  /** Every character of `s` is in the class. */
  predicate AllIn(s: string, ws: CharClass) {
    forall j :: 0 <= j < |s| ==> In(ws, s[j])
  }

  /** Gaps and fields taken in turn: gap 0, field 0, gap 1, field 1, ..., last gap. */
  function Interleave(gaps: seq<string>, fields: seq<string>): string
    requires |gaps| == |fields| + 1
    decreases |fields|
  {
    if fields == [] then gaps[0] else gaps[0] + fields[0] + Interleave(gaps[1..], fields[1..])
  }

  /**
   * `t` taken apart as `split(None, m)` does: the gaps and the fields
   * interleaved give `t` back; every gap is white space and the gaps between
   * fields are not empty; every field is non-empty and starts outside the
   * class; the first `m` fields hold no white space; and a field after the
   * `m`-th runs to the end of `t`.
   */
  predicate WsSplit(t: string, ws: CharClass, gaps: seq<string>, fields: seq<string>, m: nat) {
    |gaps| == |fields| + 1 && Interleave(gaps, fields) == t &&
    (forall k :: 0 <= k < |gaps| ==> AllIn(gaps[k], ws)) &&
    (forall k :: 0 < k < |fields| ==> gaps[k] != []) &&
    (forall k :: 0 <= k < |fields| ==> fields[k] != [] && !In(ws, fields[k][0])) &&
    (forall k :: 0 <= k < |fields| && k < m ==> NoneIn(fields[k], ws)) &&
    (|fields| > m ==> gaps[|fields|] == [])
  }

  /** The white space around the fields of `s[i..].split(None, m)`. */
  ghost function GapsFrom(s: string, ws: CharClass, i: nat, m: nat): (gaps: seq<string>)
    requires i <= |s|
    decreases |s| - i
  {
    var a := SkipIn(s, ws, i);
    if a == |s| then [s[i..]]
    else if m == 0 then [s[i..a], []]
    else [s[i..a]] + GapsFrom(s, ws, SkipOut(s, ws, a), m - 1)
  }

  /** The fields of `split(None, m)` are the string taken apart at white
   *  space, as `WsSplit` describes. */
  lemma {:induction false} SplitWsFromJoin(s: string, ws: CharClass, i: nat, m: nat)
    requires i <= |s|
    ensures WsSplit(s[i..], ws, GapsFrom(s, ws, i, m), SplitWsFrom(s, ws, i, m), m)
    decreases |s| - i
  {
    var a := SkipIn(s, ws, i);
    if a == |s| {
      SplitNothing(s, ws, i, m);
    } else if m == 0 {
      SplitRest(s, ws, i);
    } else {
      var b := SkipOut(s, ws, a);
      SplitWsFromJoin(s, ws, b, m - 1);
      SplitWord(s, ws, i, a, b, m);
    }
  }

  /** Nothing but white space is left: no field. */
  lemma SplitNothing(s: string, ws: CharClass, i: nat, m: nat)
    requires i <= |s| && SkipIn(s, ws, i) == |s|
    ensures WsSplit(s[i..], ws, GapsFrom(s, ws, i, m), SplitWsFrom(s, ws, i, m), m)
  {
    assert SplitWsFrom(s, ws, i, m) == [] && GapsFrom(s, ws, i, m) == [s[i..]];
  }

  /** No split is left: the rest after the white space is one last field. */
  lemma SplitRest(s: string, ws: CharClass, i: nat)
    requires i <= |s| && SkipIn(s, ws, i) < |s|
    ensures WsSplit(s[i..], ws, GapsFrom(s, ws, i, 0), SplitWsFrom(s, ws, i, 0), 0)
  {
    var a := SkipIn(s, ws, i);
    var gaps := [s[i..a], []];
    var r := [s[a..]];
    assert SplitWsFrom(s, ws, i, 0) == r && GapsFrom(s, ws, i, 0) == gaps;
    assert Interleave(gaps[1..], r[1..]) == [];
    assert s[i..a] + s[a..] + [] == s[i..];
    assert Interleave(gaps, r) == s[i..];
    assert AllIn(gaps[0], ws) && AllIn(gaps[1], ws);
    assert r[0] != [] && !In(ws, r[0][0]);
  }

  /** A word, then the split of what follows it. */
  lemma SplitWord(s: string, ws: CharClass, i: nat, a: nat, b: nat, m: nat)
    requires i <= |s| && a == SkipIn(s, ws, i) < |s| && b == SkipOut(s, ws, a) && m > 0
    requires WsSplit(s[b..], ws, GapsFrom(s, ws, b, m - 1), SplitWsFrom(s, ws, b, m - 1), m - 1)
    ensures WsSplit(s[i..], ws, GapsFrom(s, ws, i, m), SplitWsFrom(s, ws, i, m), m)
  {
    WordUnfold(s, ws, i, m);
    if SplitWsFrom(s, ws, b, m - 1) != [] {
      GapAfterWord(s, ws, b, m - 1);
    }
    WordSlices(s, ws, i, a, b);
    SplitCons(s[i..], s[b..], ws, s[i..a], s[a..b], GapsFrom(s, ws, b, m - 1), SplitWsFrom(s, ws, b, m - 1), m);
  }

  /** The white space before a word, the word, and what follows it. */
  lemma WordSlices(s: string, ws: CharClass, i: nat, a: nat, b: nat)
    requires i <= |s| && a == SkipIn(s, ws, i) < |s| && b == SkipOut(s, ws, a)
    ensures s[i..] == s[i..a] + s[a..b] + s[b..]
    ensures AllIn(s[i..a], ws) && s[a..b] != [] && !In(ws, s[a..b][0]) && NoneIn(s[a..b], ws)
  {
    assert s[a..b][0] == s[a];
  }

  /** One step of `SplitWsFrom` and `GapsFrom` past a word. */
  lemma WordUnfold(s: string, ws: CharClass, i: nat, m: nat)
    requires i <= |s| && SkipIn(s, ws, i) < |s| && m > 0
    ensures var a := SkipIn(s, ws, i); var b := SkipOut(s, ws, a);
      SplitWsFrom(s, ws, i, m) == [s[a..b]] + SplitWsFrom(s, ws, b, m - 1) &&
      GapsFrom(s, ws, i, m) == [s[i..a]] + GapsFrom(s, ws, b, m - 1)
  {
  }

  /** After a word that is followed by more fields comes some white space. */
  lemma GapAfterWord(s: string, ws: CharClass, b: nat, m: nat)
    requires b <= |s| && (b < |s| ==> In(ws, s[b])) && SplitWsFrom(s, ws, b, m) != []
    ensures GapsFrom(s, ws, b, m)[0] != []
  {
    assert b < |s|;
    assert GapsFrom(s, ws, b, m)[0] == s[b..SkipIn(s, ws, b)];
    assert s[b..SkipIn(s, ws, b)][0] == s[b];
  }

  /** One more gap and word in front of a split of the rest. */
  lemma SplitCons(t: string, u: string, ws: CharClass, g: string, w: string, gs: seq<string>, rest: seq<string>, m: nat)
    requires m > 0 && WsSplit(u, ws, gs, rest, m - 1) && t == g + w + u
    requires AllIn(g, ws) && w != [] && !In(ws, w[0]) && NoneIn(w, ws)
    requires rest != [] ==> gs[0] != []
    ensures WsSplit(t, ws, [g] + gs, [w] + rest, m)
  {
    var gaps := [g] + gs;
    var r := [w] + rest;
    assert gaps[1..] == gs && r[1..] == rest;
    assert Interleave(gaps, r) == t;
    forall k | 0 < k < |gaps| ensures AllIn(gaps[k], ws) {
      assert gaps[k] == gs[k - 1];
    }
    forall k | 1 < k < |r| ensures gaps[k] != [] {
      assert gaps[k] == gs[k - 1];
    }
    forall k | 0 < k < |r| ensures r[k] != [] && !In(ws, r[k][0]) {
      assert r[k] == rest[k - 1];
    }
    forall k | 0 < k < |r| && k < m ensures NoneIn(r[k], ws) {
      assert r[k] == rest[k - 1];
    }
    if |r| > m {
      assert gaps[|r|] == gs[|rest|];
    }
  }

  /** `s.split(None, m)` takes `s` apart at white space as `WsSplit` says. */
  lemma SplitWsJoin(s: string, ws: CharClass, m: nat)
    ensures exists gaps :: WsSplit(s, ws, gaps, SplitWs(s, ws, m), m)
  {
    SplitWsFromJoin(s, ws, 0, m);
    assert s[0..] == s;
    assert WsSplit(s, ws, GapsFrom(s, ws, 0, m), SplitWs(s, ws, m), m);
  }

  /** The words of `s[i..].split()`, as slices of `s`. */
  function FieldsFrom(s: string, ws: CharClass, i: nat): (r: seq<string>)
    requires i <= |s|
    ensures forall k :: 0 <= k < |r| ==> r[k] != [] && NoneIn(r[k], ws)
    decreases |s| - i
  {
    var a := SkipIn(s, ws, i);
    if a == |s| then []
    else
      var b := SkipOut(s, ws, a);
      var rest := FieldsFrom(s, ws, b);
      var r := [s[a..b]] + rest;
      assert forall k :: 1 <= k < |r| ==> r[k] == rest[k - 1];
      r
  }

  /** `s.split()`: every whitespace-delimited word. */
  function Fields(s: string, ws: CharClass): (r: seq<string>)
    ensures forall k :: 0 <= k < |r| ==> r[k] != [] && NoneIn(r[k], ws)
  {
    FieldsFrom(s, ws, 0)
  }

  /** With at least as many splits allowed as characters remain,
   *  `split(None, m)` is `split()`. */
  lemma {:induction false} FieldsAreSplit(s: string, ws: CharClass, i: nat, m: nat)
    requires i <= |s| && m >= |s| - i
    ensures FieldsFrom(s, ws, i) == SplitWsFrom(s, ws, i, m)
    decreases |s| - i
  {
    var a := SkipIn(s, ws, i);
    if a < |s| {
      var b := SkipOut(s, ws, a);
      FieldsAreSplit(s, ws, b, m - 1);
    }
  }

  /** `s.split()` takes `s` apart at white space into words, none of which
   *  holds white space, as `WsSplit` describes. */
  lemma FieldsJoin(s: string, ws: CharClass)
    ensures exists gaps :: WsSplit(s, ws, gaps, Fields(s, ws), |Fields(s, ws)|)
  {
    FieldsAreSplit(s, ws, 0, |s|);
    SplitWsFromJoin(s, ws, 0, |s|);
    assert s[0..] == s;
    assert WsSplit(s, ws, GapsFrom(s, ws, 0, |s|), Fields(s, ws), |Fields(s, ws)|);
  }

  // ------------------------------------------------------------ formatting

  function DigitChar(d: nat): char
    requires d < 10
  {
    ('0' as int + d) as char
  }

  /** The decimal digits of n, as `%d` prints a non-negative number. */
  function NatToString(n: nat): (r: string)
    ensures r != [] && forall c :: c in r ==> IsDigit(c)
    ensures n < 10 <==> |r| == 1
    decreases n
  {
    if n < 10 then [DigitChar(n)] else NatToString(n / 10) + [DigitChar(n % 10)]
  }

  /** `%d` / `%i` of an integer. */
  function IntToString(i: int): string {
    if i < 0 then "-" + NatToString(-i) else NatToString(i)
  }

  function Pow10(k: nat): nat {
    if k == 0 then 1 else 10 * Pow10(k - 1)
  }

  /** A number below 10^k prints in at most k digits. */
  lemma {:induction false} NatToStringShort(n: nat, k: nat)
    requires 1 <= k && n < Pow10(k)
    ensures |NatToString(n)| <= k
    decreases k
  {
    if n >= 10 {
      assert Pow10(1) == 10;
      NatToStringShort(n / 10, k - 1);
    }
  }

  /** `%0<width>d` of a non-negative number: zero-padded on the left to at least `width` characters. */
  function ZeroPad(n: nat, width: nat): (r: string)
    ensures |r| == if |NatToString(n)| < width then width else |NatToString(n)|
    ensures forall c :: c in r ==> IsDigit(c)
    ensures EndsWith(r, NatToString(n))
  {
    var d := NatToString(n);
    if |d| < width then seq(width - |d|, _ => '0') + d else d
  }

  function DigitValue(c: char): nat
    requires IsDigit(c)
  {
    c as int - '0' as int
  }

  function DigitsValue(s: string): nat
    requires forall c :: c in s ==> IsDigit(c)
    decreases |s|
  {
    if s == [] then 0 else DigitsValue(s[..|s| - 1]) * 10 + DigitValue(s[|s| - 1])
  }

  /** Reading the digits back gives the number. */
  lemma {:induction false} NatToStringValue(n: nat)
    ensures DigitsValue(NatToString(n)) == n
    decreases n
  {
    if n >= 10 {
      NatToStringValue(n / 10);
      var s := NatToString(n);
      assert s[..|s| - 1] == NatToString(n / 10);
    }
  }

  /** Leading zeros do not change the value read back. */
  lemma {:induction false} ZeroPrefixValue(z: nat, d: string)
    requires forall c :: c in d ==> IsDigit(c)
    ensures DigitsValue(seq(z, _ => '0') + d) == DigitsValue(d)
    decreases |d|, z
  {
    var s := seq(z, _ => '0') + d;
    if d == [] {
      if z > 0 {
        assert s[..|s| - 1] == seq(z - 1, _ => '0') + [];
        ZeroPrefixValue(z - 1, []);
      }
    } else {
      assert s[..|s| - 1] == seq(z, _ => '0') + d[..|d| - 1];
      ZeroPrefixValue(z, d[..|d| - 1]);
    }
  }

  lemma ZeroPadValue(n: nat, width: nat)
    ensures DigitsValue(ZeroPad(n, width)) == n
  {
    var d := NatToString(n);
    NatToStringValue(n);
    if |d| < width {
      ZeroPrefixValue(width - |d|, d);
    }
  }

  /**
   * `int(s)` on a byte string: surrounding whitespace allowed, an optional sign,
   * then one or more decimal digits; anything else raises ValueError (None).
   */
  function ParseInt(s: string): Option<int> {
    var t := Strip(s, AsciiSpace);
    if t == [] then None
    else
      var neg := t[0] == '-';
      var digits := if t[0] == '-' || t[0] == '+' then t[1..] else t;
      if digits != [] && forall c :: c in digits ==> IsDigit(c) then
        Some(if neg then -(DigitsValue(digits) as int) else DigitsValue(digits) as int)
      else None
  }

  /** Parsing a printed number gives it back. */
  lemma ParseIntOfNat(n: nat)
    ensures ParseInt(NatToString(n)) == Some(n)
  {
    var d := NatToString(n);
    assert d[0] in d && d[|d| - 1] in d;
    assert !In(AsciiSpace, d[0]) && !In(AsciiSpace, d[|d| - 1]);
    assert SkipIn(d, AsciiSpace, 0) == 0;
    assert LStrip(d, AsciiSpace) == d;
    assert RStrip(d, AsciiSpace) == d;
    assert Strip(d, AsciiSpace) == d;
    NatToStringValue(n);
  }

}
