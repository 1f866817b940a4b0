/**
 * The inline-expression scanner of the template compiler: a text line is cut
 * at every `{{expr}}` (`re.split` on `\{\{(.*?)\}\}`), and the pieces become
 * TXT, RAW (`{{!expr}}`) and CMD (`{{expr}}`) tokens.
 */
module Tokens {
  import opened Wrappers
  import opened PyStr

  datatype Token = TXT(text: string) | RAW(expr: string) | CMD(expr: string)

  /** `{{` starts at `i`. */
  predicate OpensAt(s: string, i: int) {
    0 <= i && i + 1 < |s| && s[i] == '{' && s[i + 1] == '{'
  }

  /** `}}` starts at `j`. */
  predicate ClosesAt(s: string, j: int) {
    0 <= j && j + 1 < |s| && s[j] == '}' && s[j + 1] == '}'
  }

  /**
   * Where the lazy group `(.*?)` that starts at `k` ends: the first `}}` at or
   * after `k`, provided no line feed comes before it (`.` does not match `\n`).
   */
  function FindClose(s: string, k: nat): (r: Option<nat>)
    requires k <= |s|
    ensures r.Some? ==> k <= r.value && ClosesAt(s, r.value)
    decreases |s| - k
  {
    if k + 2 > |s| then None
    else if ClosesAt(s, k) then Some(k)
    else if s[k] == '\n' then None
    else FindClose(s, k + 1)
  }

  /** The group ends at the first `}}`, and fails only if a line feed comes first. */
  lemma {:induction false} FindCloseFirst(s: string, k: nat)
    requires k <= |s|
    ensures FindClose(s, k).Some? ==>
      ('\n' !in s[k..FindClose(s, k).value]
       && forall q :: k <= q < FindClose(s, k).value ==> !ClosesAt(s, q))
    ensures FindClose(s, k).None? ==> forall j :: k <= j && ClosesAt(s, j) ==> '\n' in s[k..j]
    decreases |s| - k
  {
    if k + 2 <= |s| && !ClosesAt(s, k) && s[k] != '\n' {
      FindCloseFirst(s, k + 1);
      assert forall j :: k + 1 <= j <= |s| ==> s[k..j] == [s[k]] + s[k + 1..j];
    }
  }

  /** The pattern matches at `i`: an opening `{{` whose group can be closed. */
  predicate MatchesAt(s: string, i: nat) {
    OpensAt(s, i) && FindClose(s, i + 2).Some?
  }

  /** The leftmost match at or after `pos`. */
  function FindMatch(s: string, pos: nat): (r: Option<nat>)
    requires pos <= |s|
    ensures r.Some? ==> pos <= r.value && MatchesAt(s, r.value)
    decreases |s| - pos
  {
    if pos + 2 > |s| then None
    else if MatchesAt(s, pos) then Some(pos)
    else FindMatch(s, pos + 1)
  }

  /** `FindMatch` finds the leftmost match, and nothing only when there is none. */
  lemma {:induction false} FindMatchLeftmost(s: string, pos: nat)
    requires pos <= |s|
    ensures FindMatch(s, pos).Some? ==> forall q :: pos <= q < FindMatch(s, pos).value ==> !MatchesAt(s, q)
    ensures FindMatch(s, pos).None? ==> forall q :: pos <= q ==> !MatchesAt(s, q)
    decreases |s| - pos
  {
    if pos + 2 <= |s| && !MatchesAt(s, pos) {
      FindMatchLeftmost(s, pos + 1);
    }
  }

  /** What the lazy `(.*?)` can capture: no line feed and no `}}`. */
  ghost predicate Clean(e: string) {
    '\n' !in e && forall q :: !ClosesAt(e, q)
  }

  /** The group that the lazy `(.*?)` captures is clean. */
  lemma GroupIsClean(s: string, i: nat, j: nat, e: string)
    requires i + 2 <= |s| && FindClose(s, i + 2) == Some(j) && e == s[i + 2..j]
    ensures Clean(e)
  {
    FindCloseFirst(s, i + 2);
    assert forall q :: ClosesAt(e, q) ==> ClosesAt(s, i + 2 + q);
  }

  /**
   * `re.split(r'\{\{(.*?)\}\}', s[pos:])`: the text pieces at even indices and
   * the captured groups at odd indices.
   */
  function ReSplitFrom(s: string, pos: nat): (parts: seq<string>)
    requires pos <= |s|
    ensures |parts| % 2 == 1
    decreases |s| - pos
  {
    match FindMatch(s, pos)
    case None => [s[pos..]]
    case Some(i) =>
      var j := FindClose(s, i + 2).value;
      [s[pos..i], s[i + 2..j]] + ReSplitFrom(s, j + 2)
  }

  /** One match of the pattern splits off a text piece and a group. */
  lemma MatchBounds(s: string, pos: nat, i: nat, j: nat)
    requires pos <= |s| && FindMatch(s, pos) == Some(i) && FindClose(s, i + 2) == Some(j)
    ensures pos <= i && i + 2 <= j && j + 2 <= |s| && OpensAt(s, i) && ClosesAt(s, j)
  {
  }

  lemma ReSplitFromStep(s: string, pos: nat, i: nat, j: nat)
    requires pos <= i && i + 2 <= j && j + 2 <= |s|
    requires FindMatch(s, pos) == Some(i) && FindClose(s, i + 2) == Some(j)
    ensures ReSplitFrom(s, pos) == [s[pos..i], s[i + 2..j]] + ReSplitFrom(s, j + 2)
  {
  }

  /** Putting a text piece and a clean group in front keeps every odd piece clean. */
  lemma CleanOddPrepend(a: string, e: string, rest: seq<string>)
    requires Clean(e) && forall k :: 0 <= k < |rest| && k % 2 == 1 ==> Clean(rest[k])
    ensures forall k :: 0 <= k < |[a, e] + rest| && k % 2 == 1 ==> Clean(([a, e] + rest)[k])
  {
    var parts := [a, e] + rest;
    forall k | 0 <= k < |parts| && k % 2 == 1
      ensures Clean(parts[k])
    {
      if k >= 2 {
        assert parts[k] == rest[k - 2];
      }
    }
  }

  /** Every captured group is clean. */
  lemma {:induction false} ReSplitGroups(s: string, pos: nat)
    requires pos <= |s|
    ensures forall k :: 0 <= k < |ReSplitFrom(s, pos)| && k % 2 == 1 ==> Clean(ReSplitFrom(s, pos)[k])
    decreases |s| - pos
  {
    match FindMatch(s, pos)
    case None =>
    case Some(i) =>
      var j := FindClose(s, i + 2).value;
      MatchBounds(s, pos, i, j);
      ReSplitFromStep(s, pos, i, j);
      GroupIsClean(s, i, j, s[i + 2..j]);
      ReSplitGroups(s, j + 2);
      CleanOddPrepend(s[pos..i], s[i + 2..j], ReSplitFrom(s, j + 2));
  }

  /** The split has more than one piece exactly when the pattern matches somewhere. */
  lemma ReSplitMatches(s: string, pos: nat)
    requires pos <= |s|
    ensures (exists q :: pos <= q && MatchesAt(s, q)) <==> |ReSplitFrom(s, pos)| > 1
  {
    FindMatchLeftmost(s, pos);
  }

  function ReSplit(s: string): (parts: seq<string>)
    ensures |parts| % 2 == 1
  {
    ReSplitFrom(s, 0)
  }

  /** Reassembles the pieces of `re.split`: every group goes back between `{{` and `}}`. */
  function Rejoin(parts: seq<string>): string
    requires |parts| % 2 == 1
    decreases |parts|
  {
    if |parts| == 1 then parts[0] else parts[0] + "{{" + parts[1] + "}}" + Rejoin(parts[2..])
  }

  lemma {:induction false} RejoinReSplit(s: string, pos: nat)
    requires pos <= |s|
    ensures Rejoin(ReSplitFrom(s, pos)) == s[pos..]
    decreases |s| - pos
  {
    match FindMatch(s, pos)
    case None =>
      assert ReSplitFrom(s, pos) == [s[pos..]];
    case Some(i) =>
      var j := FindClose(s, i + 2).value;
      MatchBounds(s, pos, i, j);
      ReSplitFromStep(s, pos, i, j);
      RejoinReSplit(s, j + 2);
      RejoinPrepend(s[pos..i], s[i + 2..j], ReSplitFrom(s, j + 2), s[j + 2..]);
      Split5(s, pos, i, j);
  }

  lemma RejoinPrepend(a: string, e: string, rest: seq<string>, tail: string)
    requires |rest| % 2 == 1 && Rejoin(rest) == tail
    ensures Rejoin([a, e] + rest) == a + "{{" + e + "}}" + tail
  {
    assert ([a, e] + rest)[2..] == rest;
  }

  lemma Split5(s: string, pos: nat, i: nat, j: nat)
    requires pos <= i && i + 2 <= j && OpensAt(s, i) && ClosesAt(s, j)
    ensures s[pos..] == s[pos..i] + "{{" + s[i + 2..j] + "}}" + s[j + 2..]
  {
    assert s[i..i + 2] == "{{" && s[j..j + 2] == "}}";
    assert s[pos..] == s[pos..i] + s[i..i + 2] + s[i + 2..j] + s[j..j + 2] + s[j + 2..];
  }

  /** The token for piece `k` of the split: `yield_tokens` classifies by the index's parity. */
  function Classify(part: string, k: nat): (t: Token)
    ensures k % 2 == 0 <==> t.TXT?
    ensures t.RAW? ==> part == "!" + t.expr
    ensures t.CMD? ==> part == t.expr && !StartsWith(part, "!")
    ensures t.TXT? ==> part == t.text
  {
    if k % 2 == 1 then
      if StartsWith(part, "!") then RAW(part[1..]) else CMD(part)
    else TXT(part)
  }

  /** The pieces of the split, each classified by its index. */
  function ClassifyParts(parts: seq<string>): (ts: seq<Token>)
    ensures |ts| == |parts|
  {
    seq(|parts|, k requires 0 <= k < |parts| => Classify(parts[k], k))
  }

  /** `yield_tokens(line)`. */
  function YieldTokens(line: string): (ts: seq<Token>)
    ensures |ts| == |ReSplit(line)|
  {
    ClassifyParts(ReSplit(line))
  }

  /** The source text of one token. */
  function Source(t: Token): string {
    match t
    case TXT(text) => text
    case RAW(e) => "{{!" + e + "}}"
    case CMD(e) => "{{" + e + "}}"
  }

  function Untokenize(ts: seq<Token>): string
    decreases |ts|
  {
    if ts == [] then [] else Source(ts[0]) + Untokenize(ts[1..])
  }

  lemma {:induction false} UntokenizeAppend(xs: seq<Token>, ys: seq<Token>)
    ensures Untokenize(xs + ys) == Untokenize(xs) + Untokenize(ys)
    decreases |xs|
  {
    if xs != [] {
      assert (xs + ys)[1..] == xs[1..] + ys;
      UntokenizeAppend(xs[1..], ys);
    } else {
      assert xs + ys == ys;
    }
  }

  /** Only the parity of the index matters. */
  lemma ClassifyParity(part: string, k: nat)
    ensures Classify(part, k + 2) == Classify(part, k)
  {
  }

  /** Classifying drops the first text and expression, then goes on with the rest. */
  lemma ClassifyPartsTail(parts: seq<string>)
    requires |parts| >= 2
    ensures ClassifyParts(parts) == [Classify(parts[0], 0), Classify(parts[1], 1)] + ClassifyParts(parts[2..])
  {
    var ts := ClassifyParts(parts);
    var rest := ClassifyParts(parts[2..]);
    forall k | 2 <= k < |parts|
      ensures ts[k] == rest[k - 2]
    {
      ClassifyParity(parts[k], k - 2);
    }
  }

  /** A text piece and an expression piece give back their source between braces. */
  lemma PairSource(a: string, b: string)
    ensures Untokenize([Classify(a, 0), Classify(b, 1)]) == a + "{{" + b + "}}"
  {
    var t := Classify(b, 1);
    var x := Classify(a, 0);
    assert [x, t][1..] == [t];
    assert Untokenize([t]) == Source(t) + Untokenize([]);
    assert Untokenize([x, t]) == Source(x) + Untokenize([t]);
    if StartsWith(b, "!") {
      assert b == "!" + t.expr;
    }
  }

  lemma {:induction false} UntokenizeClassify(parts: seq<string>)
    requires |parts| % 2 == 1
    ensures Untokenize(ClassifyParts(parts)) == Rejoin(parts)
    decreases |parts|
  {
    if |parts| == 1 {
      assert ClassifyParts(parts) == [TXT(parts[0])];
      assert Untokenize([TXT(parts[0])]) == parts[0] + Untokenize([]);
    } else {
      var pair := [Classify(parts[0], 0), Classify(parts[1], 1)];
      ClassifyPartsTail(parts);
      UntokenizeAppend(pair, ClassifyParts(parts[2..]));
      UntokenizeClassify(parts[2..]);
      PairSource(parts[0], parts[1]);
    }
  }

  /** Putting the `{{` and `}}` back around the expressions reproduces the line. */
  lemma TokensRoundTrip(line: string)
    ensures Untokenize(YieldTokens(line)) == line
  {
    UntokenizeClassify(ReSplit(line));
    RejoinReSplit(line, 0);
  }

  /**
   * The tokens of a line alternate text and expression, begin and end with
   * text, and no expression spans a line feed or contains `}}`.
   */
  lemma TokensShape(line: string)
    ensures |YieldTokens(line)| % 2 == 1
    ensures forall k :: 0 <= k < |YieldTokens(line)| ==> (YieldTokens(line)[k].TXT? <==> k % 2 == 0)
    ensures forall k :: 0 <= k < |YieldTokens(line)| && !YieldTokens(line)[k].TXT? ==>
      '\n' !in YieldTokens(line)[k].expr
    ensures forall k, q :: 0 <= k < |YieldTokens(line)| && !YieldTokens(line)[k].TXT? ==>
      !ClosesAt(YieldTokens(line)[k].expr, q)
  {
    var parts := ReSplit(line);
    var ts := YieldTokens(line);
    ReSplitGroups(line, 0);
    forall k | 0 <= k < |ts| && !ts[k].TXT?
      ensures '\n' !in ts[k].expr && forall q :: !ClosesAt(ts[k].expr, q)
    {
      assert ts[k] == Classify(parts[k], k);
      assert Clean(parts[k]);
      if ts[k].RAW? {
        assert ts[k].expr == parts[k][1..];
        assert forall q :: ClosesAt(ts[k].expr, q) ==> ClosesAt(parts[k], q + 1);
      }
    }
  }

  /** A line with no `{{...}}` on one line is a single TXT token. */
  lemma PlainTextIsOneToken(line: string)
    ensures (forall q :: !MatchesAt(line, q)) <==> YieldTokens(line) == [TXT(line)]
  {
    ReSplitMatches(line, 0);
    if forall q :: !MatchesAt(line, q) {
      assert ReSplit(line) == [line[0..]];
    }
  }
}
