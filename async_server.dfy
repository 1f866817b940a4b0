/**
 * The single-threaded asynchronous server: the RFC 1123 date of the
 * `Date` header, the WSGI environment read from a request's header block,
 * and the request handler's states, from the end of the headers through
 * the application's reply to the last byte sent.
 *
 * The event loop, the sockets and `asynchat`'s splitting of the input at
 * the terminator are not modelled: the handler is driven by calls to its
 * methods, with the data the loop would hand it.
 */
module AsyncServer {
  import opened Wrappers
  import opened PyStr
  import opened Wsgi
  import ThreadedServer

  const ServerName := "Trabant 0.0.1"

  // ---------------------------------------------------------------------------
  // Dates

  /** A `datetime` in UTC, with the weekday it reports (0 is Monday). */
  datatype DateTime = DateTime(year: nat, month: nat, day: nat, hour: nat, minute: nat, second: nat, weekday: nat)

  /** The ranges a `datetime` keeps its fields in. */
  predicate ValidDate(dt: DateTime) {
    1 <= dt.year <= 9999 && 1 <= dt.month <= 12 && 1 <= dt.day <= 31 &&
    dt.hour < 24 && dt.minute < 60 && dt.second < 60 && dt.weekday < 7
  }

  const Weekdays: seq<string> := ["Mon", "Tue", "Wed", "Thu", "Fri", "Sat", "Sun"]
  const Months: seq<string> := ["Jan", "Feb", "Mar", "Apr", "May", "Jun", "Jul", "Aug", "Sep", "Oct", "Nov", "Dec"]

  lemma PadLength(n: nat, width: nat)
    requires 1 <= width && n < Pow10(width)
    ensures |ZeroPad(n, width)| == width
  {
    NatToStringShort(n, width);
  }

  /** The layout of an RFC 1123 date, given its already formatted fields. */
  function DateText(wday: string, day: string, month: string, year: string, hour: string, minute: string, second: string): string {
    wday + ", " + day + " " + month + " " + year + " " + hour + ":" + minute + ":" + second + " GMT"
  }

  /** Fields of the expected widths land at fixed offsets. */
  lemma DateTextLayout(wday: string, day: string, month: string, year: string, hour: string, minute: string, second: string)
    requires |wday| == 3 && |day| == 2 && |month| == 3 && |year| == 4 && |hour| == 2 && |minute| == 2 && |second| == 2
    ensures var s := DateText(wday, day, month, year, hour, minute, second);
      |s| == 29 &&
      s[..3] == wday && s[3..5] == ", " && s[5..7] == day && s[7] == ' ' &&
      s[8..11] == month && s[11] == ' ' && s[12..16] == year && s[16] == ' ' &&
      s[17..19] == hour && s[19] == ':' && s[20..22] == minute && s[22] == ':' && s[23..25] == second && s[25..] == " GMT"
  {
  }

  function WeekdayName(i: nat): (name: string)
    requires i < 7
    ensures |name| == 3
  {
    Weekdays[i]
  }

  function MonthName(i: nat): (name: string)
    requires 1 <= i <= 12
    ensures |name| == 3
  {
    Months[i - 1]
  }

  /** `%02d` and `%04d` of a field in range give exactly that many digits
   *  (after `PadLength`). */
  lemma FieldWidths(dt: DateTime)
    requires ValidDate(dt)
    ensures |ZeroPad(dt.day, 2)| == 2 && |ZeroPad(dt.year, 4)| == 4 && |ZeroPad(dt.hour, 2)| == 2 &&
      |ZeroPad(dt.minute, 2)| == 2 && |ZeroPad(dt.second, 2)| == 2
  {
    assert Pow10(2) == 100 && Pow10(4) == 10000 by {
      assert Pow10(1) == 10;
    }
    PadLength(dt.day, 2);
    PadLength(dt.year, 4);
    PadLength(dt.hour, 2);
    PadLength(dt.minute, 2);
    PadLength(dt.second, 2);
  }

  /** `httpdate(dt)`: `Www, DD Mon YYYY HH:MM:SS GMT`. */
  function HttpDate(dt: DateTime): string
    requires ValidDate(dt)
  {
    DateText(WeekdayName(dt.weekday), ZeroPad(dt.day, 2), MonthName(dt.month), ZeroPad(dt.year, 4),
      ZeroPad(dt.hour, 2), ZeroPad(dt.minute, 2), ZeroPad(dt.second, 2))
  }

  predicate AllDigits(s: string) {
    forall c :: c in s ==> IsDigit(c)
  }

  /** Every field can be read back from its fixed place in the date. */
  lemma HttpDateFields(dt: DateTime)
    requires ValidDate(dt)
    ensures var s := HttpDate(dt);
      |s| == 29 && s[..3] == WeekdayName(dt.weekday) && s[3..5] == ", " && s[7] == ' ' &&
      s[8..11] == MonthName(dt.month) && s[11] == ' ' && s[16] == ' ' &&
      s[19] == ':' && s[22] == ':' && s[25..] == " GMT" &&
      AllDigits(s[5..7]) && DigitsValue(s[5..7]) == dt.day &&
      AllDigits(s[12..16]) && DigitsValue(s[12..16]) == dt.year &&
      AllDigits(s[17..19]) && DigitsValue(s[17..19]) == dt.hour &&
      AllDigits(s[20..22]) && DigitsValue(s[20..22]) == dt.minute &&
      AllDigits(s[23..25]) && DigitsValue(s[23..25]) == dt.second
  {
    FieldWidths(dt);
    DateTextLayout(WeekdayName(dt.weekday), ZeroPad(dt.day, 2), MonthName(dt.month), ZeroPad(dt.year, 4),
      ZeroPad(dt.hour, 2), ZeroPad(dt.minute, 2), ZeroPad(dt.second, 2));
    ZeroPadValue(dt.day, 2);
    ZeroPadValue(dt.year, 4);
    ZeroPadValue(dt.hour, 2);
    ZeroPadValue(dt.minute, 2);
    ZeroPadValue(dt.second, 2);
  }

  /** The names are distinct, so the name in a date gives back the weekday and the month. */
  lemma NamesDistinct()
    ensures forall i, j :: 0 <= i < j < |Weekdays| ==> Weekdays[i] != Weekdays[j]
    ensures forall i, j :: 0 <= i < j < |Months| ==> Months[i] != Months[j]
  {
    forall i, j | 0 <= i < j < |Weekdays| ensures Weekdays[i] != Weekdays[j] {
      assert Weekdays[i][0] != Weekdays[j][0] || Weekdays[i][1] != Weekdays[j][1];
    }
    forall i, j | 0 <= i < j < |Months| ensures Months[i] != Months[j] {
      assert Months[i][0] != Months[j][0] || Months[i][1] != Months[j][1] || Months[i][2] != Months[j][2];
    }
  }

  // ---------------------------------------------------------------------------
  // The environment of a request

  /** Why reading a request raised. */
  datatype RequestError =
    | NoRequestLine                   // IndexError: the header block has no line
    | BadRequestLine(line: string)    // ValueError: not three words
    | BadHeader(line: string)         // ValueError: a header line without ':'
    | NoContentLength                 // KeyError: a POST without Content-Length
    | BadContentLength(value: string) // ValueError from int()
    | MissingExpectHeader             // AttributeError: the POST-without-Expect branch
    | NoProtocol                      // KeyError: no SERVER_PROTOCOL when replying

  /** `filter(bool, lines)`: the empty strings dropped. */
  function NonEmpty(lines: seq<string>): (r: seq<string>)
    ensures forall k :: 0 <= k < |r| ==> r[k] != []
    ensures forall x :: x in r <==> x in lines && x != []
    ensures (forall k :: 0 <= k < |lines| ==> lines[k] != []) ==> r == lines
  {
    if lines == [] then []
    else (if lines[0] == [] then [] else [lines[0]]) + NonEmpty(lines[1..])
  }

  /** The filter works piece by piece and so keeps the order: filtering a
   *  concatenation concatenates the filtered pieces. */
  lemma {:induction false} NonEmptyAppend(a: seq<string>, b: seq<string>)
    ensures NonEmpty(a + b) == NonEmpty(a) + NonEmpty(b)
    decreases |a|
  {
    if a == [] {
      assert a + b == b;
    } else {
      assert (a + b)[0] == a[0] && (a + b)[1..] == a[1..] + b;
      NonEmptyAppend(a[1..], b);
      var head := if a[0] == [] then [] else [a[0]];
      assert NonEmpty(a + b) == head + NonEmpty(a[1..] + b);
      assert NonEmpty(a) == head + NonEmpty(a[1..]);
    }
  }

  /** `readlines()` on the header block, then the filter: `readlines` keeps
   *  each line's "\n" and so never yields an empty line, and the filter
   *  drops nothing (a blank "\r\n" line stays). */
  function RequestLines(buffer: string): (lines: seq<string>)
    ensures lines == SplitLines(buffer, NewLine, true)
  {
    SplitLinesKeepEndsNonEmpty(buffer, NewLine);
    NonEmpty(SplitLines(buffer, NewLine, true))
  }

  /** A key the header loop may write. */
  predicate IsHeaderKey(key: string) {
    key == "CONTENT_LENGTH" || key == "CONTENT_TYPE" || StartsWith(key, "HTTP_")
  }

  /** The environment key of a header name: `-` becomes `_`, letters are
   *  upper-cased, and all but the two content headers get `HTTP_`.  Since
   *  upper-casing and replacing `-` commute, this is the threaded server's
   *  key, with `HTTP_` dropped exactly for the two content headers. */
  function EnvironKey(name: string): (key: string)
    ensures IsHeaderKey(key) && '-' !in key
    ensures var threaded := ThreadedServer.HeaderKey(name);
      key == (if threaded[5..] == "CONTENT_LENGTH" || threaded[5..] == "CONTENT_TYPE" then threaded[5..] else threaded)
  {
    var header := Upper(ReplaceChar(name, '-', '_'));
    KeyCommutes(name);
    if header == "CONTENT_LENGTH" || header == "CONTENT_TYPE" then header else "HTTP_" + header
  }

  /** Upper-casing and replacing `-` by `_` commute. */
  lemma KeyCommutes(name: string)
    ensures Upper(ReplaceChar(name, '-', '_')) == ThreadedServer.HeaderKey(name)[5..]
  {
    var a := Upper(ReplaceChar(name, '-', '_'));
    var b := ThreadedServer.HeaderKey(name)[5..];
    forall i | 0 <= i < |a| ensures a[i] == b[i] {
      assert b[i] == ThreadedServer.HeaderKey(name)[i + 5];
    }
  }

  /** Both servers file a header under the same key exactly when it is not
   *  one of the two content headers; those the threaded server files with
   *  an extra `HTTP_`. */
  lemma EnvironKeyMatchesThreaded(name: string)
    ensures EnvironKey(name) == ThreadedServer.HeaderKey(name) <==>
      EnvironKey(name) != "CONTENT_LENGTH" && EnvironKey(name) != "CONTENT_TYPE"
    ensures EnvironKey(name) != ThreadedServer.HeaderKey(name) ==> "HTTP_" + EnvironKey(name) == ThreadedServer.HeaderKey(name)
  {
    var threaded := ThreadedServer.HeaderKey(name);
    assert threaded == "HTTP_" + threaded[5..];
    if threaded[5..] == "CONTENT_LENGTH" || threaded[5..] == "CONTENT_TYPE" {
      assert |threaded| == |EnvironKey(name)| + 5;
    } else {
      assert EnvironKey(name)[..5] == "HTTP_";
      assert "CONTENT_LENGTH"[..5] != "HTTP_" && "CONTENT_TYPE"[..5] != "HTTP_";
    }
  }

  /** No white space at either end, as `str.strip` leaves a string. */
  predicate NoEdgeSpace(s: string) {
    s == [] || (!IsAsciiSpace(s[0]) && !IsAsciiSpace(s[|s| - 1]))
  }

  /** A header line split at its first ':', both halves stripped, the
   *  name turned into its environment key. */
  datatype HeaderLine = Header(key: string, value: string) | Malformed(line: string)

  /** `k, v = map(str.strip, line.split(':', 1))` and the key of `k`; a line
   *  without ':' splits into one piece and the unpacking raises. */
  function ParseHeaderLine(line: string): (h: HeaderLine)
    ensures h.Malformed? <==> ':' !in line
    ensures h.Malformed? ==> h.line == line
    ensures h.Header? ==> IsHeaderKey(h.key) && NoEdgeSpace(h.value)
  {
    match IndexOf(line, ':')
    case None => Malformed(line)
    case Some(i) => Header(EnvironKey(Strip(line[..i], AsciiSpace)), Strip(line[i + 1..], AsciiSpace))
  }

  /** `h` is `line` split at its first ':', at index `i`. */
  predicate SplitsAt(line: string, i: int, h: HeaderLine) {
    0 <= i < |line| && line[i] == ':' && ':' !in line[..i] && h.Header? &&
    h.key == EnvironKey(Strip(line[..i], AsciiSpace)) && h.value == Strip(line[i + 1..], AsciiSpace)
  }

  /** A parsed header is its line split at the first ':'. */
  lemma ParseHeaderLineSplits(line: string)
    ensures ParseHeaderLine(line).Header? ==> exists i :: SplitsAt(line, i, ParseHeaderLine(line))
  {
    match IndexOf(line, ':')
    case None =>
    case Some(i) =>
      var h := Header(EnvironKey(Strip(line[..i], AsciiSpace)), Strip(line[i + 1..], AsciiSpace));
      assert ParseHeaderLine(line) == h;
      assert SplitsAt(line, i, h);
  }

  function ParseHeaderLines(lines: seq<string>): (hs: seq<HeaderLine>)
    ensures |hs| == |lines| && forall i :: 0 <= i < |lines| ==> hs[i] == ParseHeaderLine(lines[i])
    ensures forall i :: 0 <= i < |hs| && hs[i].Header? ==> IsHeaderKey(hs[i].key)
  {
    seq(|lines|, i requires 0 <= i < |lines| => ParseHeaderLine(lines[i]))
  }

  /** The environment after the header loop; the first malformed line raises. */
  function WithHeaderLines(env: Environ, hs: seq<HeaderLine>): Result<Environ, RequestError>
    decreases |hs|
  {
    if hs == [] then Success(env)
    else
      match WithHeaderLines(env, hs[..|hs| - 1])
      case Failure(e) => Failure(e)
      case Success(prev) =>
        match hs[|hs| - 1]
        case Malformed(line) => Failure(BadHeader(line))
        case Header(key, value) => Success(prev[key := Text(value)])
  }

  /** The keys the request line sets. */
  const RequestLineNames: seq<string> := ["REQUEST_METHOD", "SCRIPT_NAME", "PATH_INFO", "QUERY_STRING", "SERVER_PROTOCOL"]

  /** The entries the request line sets over the server's environment; the
   *  server's other entries stay as they are. */
  function RequestLineEnviron(serverEnv: Environ, verb: string, path: string, query: string, protocol: string): (env: Environ)
    ensures "REQUEST_METHOD" in env && env["REQUEST_METHOD"] == Text(Upper(verb))
    ensures "SCRIPT_NAME" in env && env["SCRIPT_NAME"] == Text("")
    ensures "PATH_INFO" in env && env["PATH_INFO"] == Text(path)
    ensures "QUERY_STRING" in env && env["QUERY_STRING"] == Text(query)
    ensures "SERVER_PROTOCOL" in env && env["SERVER_PROTOCOL"] == Text(protocol)
    ensures forall k :: k in serverEnv ==> k in env
    ensures forall k :: k in serverEnv && k !in RequestLineNames ==> env[k] == serverEnv[k]
    ensures forall k :: k in env ==> k in serverEnv || k in RequestLineNames
  {
    assert |"REQUEST_METHOD"| == 14 && |"SCRIPT_NAME"| == 11 && |"PATH_INFO"| == 9 &&
      |"QUERY_STRING"| == 12 && |"SERVER_PROTOCOL"| == 15;
    serverEnv["REQUEST_METHOD" := Text(Upper(verb))]["SCRIPT_NAME" := Text("")]["PATH_INFO" := Text(path)]
      ["QUERY_STRING" := Text(query)]["SERVER_PROTOCOL" := Text(protocol)]
  }

  /** `_prepare_environ` as a function of the header block. */
  function RequestEnviron(serverEnv: Environ, buffer: string, splitQuery: string -> (string, string)): Result<Environ, RequestError> {
    LinesEnviron(serverEnv, RequestLines(buffer), splitQuery)
  }

  /** `_prepare_environ` after `readlines()`. */
  function LinesEnviron(serverEnv: Environ, lines: seq<string>, splitQuery: string -> (string, string)): Result<Environ, RequestError> {
    if lines == [] then Failure(NoRequestLine)
    else
      var words := Fields(lines[0], AsciiSpace);
      if |words| != 3 then Failure(BadRequestLine(lines[0]))
      else
        var pq := splitQuery(words[1]);
        WithHeaderLines(RequestLineEnviron(serverEnv, words[0], pq.0, pq.1, words[2]), ParseHeaderLines(lines[1..]))
  }

  /** The header loop of `_prepare_environ`, one line at a time. */
  method AddHeaderLines(base: Environ, hs: seq<HeaderLine>) returns (r: Result<Environ, RequestError>)
    ensures r == WithHeaderLines(base, hs)
  {
    var env := base;
    for i := 0 to |hs|
      invariant WithHeaderLines(base, hs[..i]) == Success(env)
    {
      assert hs[..i + 1][..i] == hs[..i];
      var h := hs[i];
      if h.Malformed? {
        WithHeaderLinesFails(base, hs, i + 1, |hs|);
        assert hs[..|hs|] == hs;
        return Failure(BadHeader(h.line));
      }
      env := env[h.key := Text(h.value)];
    }
    assert hs[..|hs|] == hs;
    return Success(env);
  }

  /** `_prepare_environ`: the request line, then the header loop. */
  method PrepareEnviron(serverEnv: Environ, buffer: string, splitQuery: string -> (string, string))
    returns (r: Result<Environ, RequestError>)
    ensures r == RequestEnviron(serverEnv, buffer, splitQuery)
  {
    var lines := RequestLines(buffer);
    if lines == [] {
      return Failure(NoRequestLine);
    }
    var words := Fields(lines[0], AsciiSpace);
    if |words| != 3 {
      return Failure(BadRequestLine(lines[0]));
    }
    var pq := splitQuery(words[1]);
    r := AddHeaderLines(RequestLineEnviron(serverEnv, words[0], pq.0, pq.1, words[2]), ParseHeaderLines(lines[1..]));
  }

  /** Once a header line is malformed, the lines after it do not matter. */
  lemma {:induction false} WithHeaderLinesFails(env: Environ, hs: seq<HeaderLine>, j: nat, m: nat)
    requires j <= m <= |hs| && WithHeaderLines(env, hs[..j]).Failure?
    ensures WithHeaderLines(env, hs[..m]) == WithHeaderLines(env, hs[..j])
    decreases m
  {
    if m > j {
      WithHeaderLinesFails(env, hs, j, m - 1);
      assert hs[..m][..m - 1] == hs[..m - 1];
    }
  }

  /** The header loop touches no key outside `HTTP_*` and the two content
   *  headers. */
  lemma {:induction false} WithHeaderLinesKeeps(env: Environ, hs: seq<HeaderLine>, k: string)
    requires WithHeaderLines(env, hs).Success?
    requires forall i :: 0 <= i < |hs| && hs[i].Header? ==> IsHeaderKey(hs[i].key)
    requires !IsHeaderKey(k)
    ensures k in WithHeaderLines(env, hs).value <==> k in env
    ensures k in env ==> WithHeaderLines(env, hs).value[k] == env[k]
    decreases |hs|
  {
    if hs != [] {
      var n := |hs| - 1;
      forall i | 0 <= i < n && hs[..n][i].Header? ensures IsHeaderKey(hs[..n][i].key) {
        assert hs[..n][i] == hs[i];
      }
      WithHeaderLinesKeeps(env, hs[..n], k);
    }
  }

  /** Header line `i` is the last one filed under its key. */
  predicate LastFiled(hs: seq<HeaderLine>, i: int) {
    0 <= i < |hs| && hs[i].Header? && forall j :: i < j < |hs| && hs[j].Header? ==> hs[j].key != hs[i].key
  }

  /** The header loop succeeds exactly when no line is malformed, and then
   *  every header is stored under its key, with the value of the last line
   *  filed under that key. */
  lemma {:induction false} WithHeaderLinesStores(env: Environ, hs: seq<HeaderLine>)
    ensures WithHeaderLines(env, hs).Success? <==> forall i :: 0 <= i < |hs| ==> hs[i].Header?
    ensures WithHeaderLines(env, hs).Success? ==>
      forall i :: 0 <= i < |hs| ==> hs[i].key in WithHeaderLines(env, hs).value
    ensures WithHeaderLines(env, hs).Success? ==>
      forall i :: LastFiled(hs, i) ==> WithHeaderLines(env, hs).value[hs[i].key] == Text(hs[i].value)
    decreases |hs|
  {
    if hs != [] {
      var n := |hs| - 1;
      WithHeaderLinesStores(env, hs[..n]);
      forall i | 0 <= i < n ensures hs[i] == hs[..n][i] {
      }
      if WithHeaderLines(env, hs).Success? {
        forall i | LastFiled(hs, i) && i < n ensures LastFiled(hs[..n], i) {
          forall j | i < j < n && hs[..n][j].Header? ensures hs[..n][j].key != hs[..n][i].key {
            assert hs[..n][j] == hs[j];
          }
        }
      }
    }
  }

  /** The keys the request line sets are not keys a header can write. */
  lemma RequestLineKeys()
    ensures !IsHeaderKey("REQUEST_METHOD") && !IsHeaderKey("SCRIPT_NAME") && !IsHeaderKey("PATH_INFO") &&
      !IsHeaderKey("QUERY_STRING") && !IsHeaderKey("SERVER_PROTOCOL")
  {
    assert "REQUEST_METHOD"[0] == 'R' && "SCRIPT_NAME"[0] == 'S' && "PATH_INFO"[0] == 'P' &&
      "QUERY_STRING"[0] == 'Q' && "SERVER_PROTOCOL"[0] == 'S';
  }

  /** The header loop leaves the request line's entries as they were. */
  lemma RequestLineSurvives(serverEnv: Environ, verb: string, path: string, query: string, protocol: string, hs: seq<HeaderLine>)
    requires WithHeaderLines(RequestLineEnviron(serverEnv, verb, path, query, protocol), hs).Success?
    requires forall i :: 0 <= i < |hs| && hs[i].Header? ==> IsHeaderKey(hs[i].key)
    ensures var env := WithHeaderLines(RequestLineEnviron(serverEnv, verb, path, query, protocol), hs).value;
      "REQUEST_METHOD" in env && env["REQUEST_METHOD"] == Text(Upper(verb)) &&
      "SCRIPT_NAME" in env && env["SCRIPT_NAME"] == Text("") &&
      "PATH_INFO" in env && env["PATH_INFO"] == Text(path) &&
      "QUERY_STRING" in env && env["QUERY_STRING"] == Text(query) &&
      "SERVER_PROTOCOL" in env && env["SERVER_PROTOCOL"] == Text(protocol)
  {
    var base := RequestLineEnviron(serverEnv, verb, path, query, protocol);
    RequestLineKeys();
    WithHeaderLinesKeeps(base, hs, "REQUEST_METHOD");
    WithHeaderLinesKeeps(base, hs, "SCRIPT_NAME");
    WithHeaderLinesKeeps(base, hs, "PATH_INFO");
    WithHeaderLinesKeeps(base, hs, "QUERY_STRING");
    WithHeaderLinesKeeps(base, hs, "SERVER_PROTOCOL");
  }

  /** What a parsed request holds: the request line's entries, untouched by
   *  the headers, and every header line well formed and stored under its key. */
  lemma LinesEnvironEntries(serverEnv: Environ, lines: seq<string>, splitQuery: string -> (string, string))
    requires LinesEnviron(serverEnv, lines, splitQuery).Success?
    ensures var words := Fields(lines[0], AsciiSpace);
      var env := LinesEnviron(serverEnv, lines, splitQuery).value;
      var hs := ParseHeaderLines(lines[1..]);
      |words| == 3 &&
      "REQUEST_METHOD" in env && env["REQUEST_METHOD"] == Text(Upper(words[0])) &&
      "SCRIPT_NAME" in env && env["SCRIPT_NAME"] == Text("") &&
      "PATH_INFO" in env && env["PATH_INFO"] == Text(splitQuery(words[1]).0) &&
      "QUERY_STRING" in env && env["QUERY_STRING"] == Text(splitQuery(words[1]).1) &&
      "SERVER_PROTOCOL" in env && env["SERVER_PROTOCOL"] == Text(words[2]) &&
      (forall i :: 0 <= i < |hs| ==> hs[i].Header? && hs[i].key in env) &&
      (forall i :: LastFiled(hs, i) ==> env[hs[i].key] == Text(hs[i].value)) &&
      (forall k :: k in serverEnv && k !in RequestLineNames && !IsHeaderKey(k) ==> k in env && env[k] == serverEnv[k])
  {
    var words := Fields(lines[0], AsciiSpace);
    var pq := splitQuery(words[1]);
    var hs := ParseHeaderLines(lines[1..]);
    var base := RequestLineEnviron(serverEnv, words[0], pq.0, pq.1, words[2]);
    RequestLineSurvives(serverEnv, words[0], pq.0, pq.1, words[2], hs);
    WithHeaderLinesStores(base, hs);
    forall k | k in serverEnv && k !in RequestLineNames && !IsHeaderKey(k)
      ensures k in WithHeaderLines(base, hs).value && WithHeaderLines(base, hs).value[k] == serverEnv[k]
    {
      WithHeaderLinesKeeps(base, hs, k);
    }
  }

  /** The environment `HTTPServer` starts every request from. */
  function ServerEnviron(host: string, port: int): (env: Environ)
    ensures "SERVER_NAME" in env && env["SERVER_NAME"] == Text(host)
    ensures "SERVER_PORT" in env && env["SERVER_PORT"] == Number(port)
    ensures "wsgi.run_once" in env && env["wsgi.run_once"] == Flag(true)
  {
    map[
      "trabant_server.close" := Handle("close"),
      "wsgi.errors" := NoValue,
      "wsgi.version" := WsgiVersion(1, 0),
      "wsgi.multithread" := Flag(false),
      "wsgi.multiprocess" := Flag(false),
      "wsgi.run_once" := Flag(true),
      "SERVER_NAME" := Text(host),
      "SERVER_PORT" := Number(port)
    ]
  }

  // ---------------------------------------------------------------------------
  // The reply

  function HeaderTexts(headers: seq<(string, string)>): (lines: seq<string>)
    ensures |lines| == |headers| && forall i :: 0 <= i < |headers| ==> lines[i] == headers[i].0 + ": " + headers[i].1
  {
    seq(|headers|, i requires 0 <= i < |headers| => headers[i].0 + ": " + headers[i].1)
  }

  /** The lines before the body: status, the application's headers, then
   *  the three fixed ones. */
  function HeadLines(protocol: string, reply: AppReply, date: string): seq<string> {
    [protocol + " " + reply.status] + HeaderTexts(reply.headers) +
    ["Date: " + date, "Server: " + ServerName, "Connection: close"]
  }

  /** The lines of `handle_request`'s reply: Content-Length, a blank line
   *  and the body follow only when the body is not empty. */
  function ReplyLines(protocol: string, reply: AppReply, date: string): seq<string> {
    var body := Concat(reply.body);
    HeadLines(protocol, reply, date) +
    (if body != [] then ["Content-Length: " + IntToString(|body|), "", body] else [])
  }

  /** The reply as `obuffer` holds it. */
  function ReplyText(protocol: string, reply: AppReply, date: string): string {
    JoinSep(ReplyLines(protocol, reply, date), "\r\n")
  }

  /** The header lines after the status line, joined. */
  function HeaderBlock(headers: seq<(string, string)>, date: string): string {
    JoinSep(HeaderTexts(headers) + ["Date: " + date, "Server: " + ServerName, "Connection: close"], "\r\n")
  }

  /** What follows the headers: nothing, or the length and the body after
   *  an empty line. */
  function BodyBlock(body: string): string {
    if body == [] then [] else "\r\n" + ("Content-Length: " + IntToString(|body|)) + "\r\n" + "\r\n" + body
  }

  /** The header block always closes with `Connection: close`. */
  lemma HeaderBlockEnds(headers: seq<(string, string)>, date: string)
    ensures EndsWith(HeaderBlock(headers, date), "\r\nConnection: close")
  {
    var xs := HeaderTexts(headers) + ["Date: " + date, "Server: " + ServerName];
    var ys := HeaderTexts(headers) + ["Date: " + date, "Server: " + ServerName, "Connection: close"];
    assert ys[..|ys| - 1] == xs;
    assert HeaderBlock(headers, date) == JoinSep(xs, "\r\n") + "\r\n" + "Connection: close";
    assert HeaderBlock(headers, date) == JoinSep(xs, "\r\n") + "\r\nConnection: close";
  }

  lemma JoinSepThree(last: string, body: string, sep: string)
    ensures JoinSep([last, "", body], sep) == last + sep + sep + body
  {
    var tail := [last, "", body];
    assert tail[..2] == [last, ""] && tail[..2][..1] == [last];
    assert JoinSep(tail[..2], sep) == last + sep + "";
    assert last + sep + "" == last + sep;
  }

  /** Joining a first line, several more and, maybe, a last line, an empty
   *  one and the body. */
  lemma JoinSepPieces(first: string, rest: seq<string>, last: string, body: string, sep: string)
    requires rest != []
    ensures JoinSep([first] + rest + (if body != [] then [last, "", body] else []), sep) ==
      first + sep + JoinSep(rest, sep) + (if body != [] then sep + last + sep + sep + body else [])
  {
    JoinSepAppend([first], rest, sep);
    var head := first + sep + JoinSep(rest, sep);
    if body != [] {
      var tail := [last, "", body];
      JoinSepAppend([first] + rest, tail, sep);
      JoinSepThree(last, body, sep);
      assert head + sep + (last + sep + sep + body) == head + (sep + last + sep + sep + body);
    } else {
      assert [first] + rest + [] == [first] + rest;
    }
  }

  /**
   * A reply is the status line, the header block and then the body block:
   * a non-empty body comes after its length and an empty line; with an
   * empty body the reply ends at the header block, with no empty line.
   */
  lemma ReplyLayout(protocol: string, reply: AppReply, date: string)
    ensures ReplyText(protocol, reply, date) ==
      protocol + " " + reply.status + "\r\n" + HeaderBlock(reply.headers, date) + BodyBlock(Concat(reply.body))
  {
    var status := protocol + " " + reply.status;
    var rest := HeaderTexts(reply.headers) + ["Date: " + date, "Server: " + ServerName, "Connection: close"];
    var body := Concat(reply.body);
    var length := "Content-Length: " + IntToString(|body|);
    assert ReplyLines(protocol, reply, date) == [status] + rest + (if body != [] then [length, "", body] else []);
    JoinSepPieces(status, rest, length, body, "\r\n");
  }

  // ---------------------------------------------------------------------------
  // The request handler

  datatype State = ReadingHeaders | ReadingBodyData | Handling | Finished

  /** What `asynchat` splits the input at. */
  datatype Terminator = Delimiter(delimiter: string) | Count(n: int) | NoTerminator

  /** `self.environ.get(name)` read as a string: `None` when absent. */
  function TextOf(env: Environ, name: string): Option<string> {
    if name in env && env[name].Text? then Some(env[name].s) else None
  }

  /** `self.environ.get('HTTP_EXPECT')` is a non-empty string. */
  predicate Continues(env: Environ) {
    TextOf(env, "HTTP_EXPECT").Some? && TextOf(env, "HTTP_EXPECT").value != []
  }

  const ContinueLine := "HTTP/1.1 100 Continue\r\n\r\n"

  class RequestHandler {
    const serverEnviron: Environ
    var state: State
    var terminator: Terminator
    /** The header block read so far. */
    var ibuffer: string
    /** The body read so far (`wsgi.input`). */
    var input: string
    var obuffer: string
    var environ: Environ
    var closed: bool

    constructor(serverEnviron: Environ)
      ensures this.serverEnviron == serverEnviron
      ensures state == ReadingHeaders && terminator == Delimiter("\r\n\r\n")
      ensures ibuffer == [] && input == [] && obuffer == [] && environ == map[] && !closed
    {
      this.serverEnviron := serverEnviron;
      state := ReadingHeaders;
      terminator := Delimiter("\r\n\r\n");
      ibuffer := [];
      input := [];
      obuffer := [];
      environ := map[];
      closed := false;
    }

    /** `readable()`: more input is wanted until the reply is complete. */
    predicate Readable()
      reads this
    {
      state != Finished
    }

    /** `writable()`: there is output left to send. */
    predicate Writable()
      reads this
    {
      |obuffer| > 0
    }

    /** `collect_incoming_data(data)`: body data goes to the input stream,
     *  anything else to the header buffer. */
    method CollectIncomingData(data: string)
      modifies this
      ensures state == ReadingBodyData ==> input == old(input) + data && ibuffer == old(ibuffer)
      ensures state != ReadingBodyData ==> ibuffer == old(ibuffer) + data && input == old(input)
      ensures state == old(state) && obuffer == old(obuffer) && environ == old(environ) && terminator == old(terminator) && closed == old(closed)
    {
      if state == ReadingBodyData {
        input := input + data;
      } else {
        ibuffer := ibuffer + data;
      }
    }

    /** `handle_request()`: run the application on the environment and the
     *  body its `wsgi.input` stream holds, and put its whole reply in
     *  `obuffer`, with `date` in the `Date` header. */
    method HandleRequest(app: (Environ, string) -> AppReply, date: string) returns (err: Option<RequestError>)
      modifies this
      ensures TextOf(old(environ), "SERVER_PROTOCOL").None? ==>
        err == Some(NoProtocol) && obuffer == old(obuffer) && state == old(state)
      ensures TextOf(old(environ), "SERVER_PROTOCOL").Some? ==>
        err.None? && state == Finished &&
        obuffer == ReplyText(TextOf(old(environ), "SERVER_PROTOCOL").value, app(old(environ), old(input)), date) &&
        !Readable() && Writable()
      ensures environ == old(environ) && terminator == old(terminator) && ibuffer == old(ibuffer) && input == old(input) && closed == old(closed)
    {
      var protocol := TextOf(environ, "SERVER_PROTOCOL");
      if protocol.None? {
        return Some(NoProtocol);
      }
      var reply := app(environ, input);
      ReplyLayout(protocol.value, reply, date);
      obuffer := ReplyText(protocol.value, reply, date);
      state := Finished;
      err := None;
    }

    /** The POST branch of `found_terminator()`: wait for the body, whose
     *  length the request must give; a client that sent `Expect` is told
     *  to go on, one that did not makes the server raise. */
    method StartBody() returns (err: Option<RequestError>)
      modifies this
      ensures state == ReadingBodyData
      ensures TextOf(old(environ), "CONTENT_LENGTH").None? ==>
        err == Some(NoContentLength) && environ == old(environ) && input == old(input) &&
        obuffer == old(obuffer) && terminator == old(terminator)
      ensures TextOf(old(environ), "CONTENT_LENGTH").Some? ==>
        environ == old(environ)["wsgi.input" := Handle("input")] && input == []
      ensures TextOf(old(environ), "CONTENT_LENGTH").Some? && !Continues(old(environ)) ==>
        err == Some(MissingExpectHeader) && obuffer == old(obuffer) && terminator == old(terminator)
      ensures TextOf(old(environ), "CONTENT_LENGTH").Some? && Continues(old(environ)) ==>
        obuffer == ContinueLine &&
        match ParseInt(TextOf(old(environ), "CONTENT_LENGTH").value)
        case None => err == Some(BadContentLength(TextOf(old(environ), "CONTENT_LENGTH").value)) && terminator == old(terminator)
        case Some(n) => err.None? && terminator == Count(n)
      ensures ibuffer == old(ibuffer) && closed == old(closed)
    {
      state := ReadingBodyData;
      var length := TextOf(environ, "CONTENT_LENGTH");
      if length.None? {
        return Some(NoContentLength);
      }
      var continues := Continues(environ);
      environ := environ["wsgi.input" := Handle("input")];
      input := [];
      if !continues {
        return Some(MissingExpectHeader);
      }
      obuffer := ContinueLine;
      var n := ParseInt(length.value);
      if n.None? {
        return Some(BadContentLength(length.value));
      }
      terminator := Count(n.value);
      err := None;
    }

    /**
     * `found_terminator()`.  At the end of the headers the environment is
     * read; a POST then waits for its body, any other request is handled
     * at once.  At the end of the body the request is handled.
     */
    method FoundTerminator(splitQuery: string -> (string, string), app: (Environ, string) -> AppReply, now: DateTime)
      returns (err: Option<RequestError>)
      requires ValidDate(now)
      modifies this
      ensures ibuffer == old(ibuffer) && closed == old(closed)
      ensures old(state) == Handling || old(state) == Finished ==>
        err.None? && state == old(state) && obuffer == old(obuffer) && environ == old(environ) &&
        terminator == old(terminator) && input == old(input)
      ensures old(state) == ReadingBodyData ==>
        terminator == NoTerminator && environ == old(environ) && input == old(input) &&
        (err.None? <==> TextOf(old(environ), "SERVER_PROTOCOL").Some?)
      ensures old(state) == ReadingBodyData && TextOf(old(environ), "SERVER_PROTOCOL").None? ==>
        state == ReadingBodyData && obuffer == old(obuffer)
      ensures old(state) == ReadingBodyData && TextOf(old(environ), "SERVER_PROTOCOL").Some? ==>
        state == Finished &&
        obuffer == ReplyText(TextOf(old(environ), "SERVER_PROTOCOL").value, app(old(environ), old(input)), HttpDate(now))
      ensures old(state) == ReadingHeaders && RequestEnviron(serverEnviron, old(ibuffer), splitQuery).Failure? ==>
        err == Some(RequestEnviron(serverEnviron, old(ibuffer), splitQuery).error) &&
        state == ReadingHeaders && environ == old(environ) && obuffer == old(obuffer) &&
        terminator == old(terminator) && input == old(input)
      ensures (old(state) == ReadingHeaders && RequestEnviron(serverEnviron, old(ibuffer), splitQuery).Success? &&
               TextOf(RequestEnviron(serverEnviron, old(ibuffer), splitQuery).value, "REQUEST_METHOD") == Some("POST")) ==>
        var env := RequestEnviron(serverEnviron, old(ibuffer), splitQuery).value;
        var length := TextOf(env, "CONTENT_LENGTH");
        state == ReadingBodyData &&
        (length.None? ==>
          err == Some(NoContentLength) && environ == env && input == old(input) &&
          obuffer == old(obuffer) && terminator == old(terminator)) &&
        (length.Some? ==> environ == env["wsgi.input" := Handle("input")] && input == []) &&
        (length.Some? && !Continues(env) ==>
          err == Some(MissingExpectHeader) && obuffer == old(obuffer) && terminator == old(terminator)) &&
        (length.Some? && Continues(env) ==>
          obuffer == ContinueLine &&
          match ParseInt(length.value)
          case None => err == Some(BadContentLength(length.value)) && terminator == old(terminator)
          case Some(n) => err.None? && terminator == Count(n))
      ensures (old(state) == ReadingHeaders && RequestEnviron(serverEnviron, old(ibuffer), splitQuery).Success? &&
               TextOf(RequestEnviron(serverEnviron, old(ibuffer), splitQuery).value, "REQUEST_METHOD") != Some("POST")) ==>
        var env := RequestEnviron(serverEnviron, old(ibuffer), splitQuery).value;
        environ == env && terminator == NoTerminator && err.None? && state == Finished && input == old(input) &&
        TextOf(env, "SERVER_PROTOCOL").Some? &&
        obuffer == ReplyText(TextOf(env, "SERVER_PROTOCOL").value, app(env, old(input)), HttpDate(now))
    {
      err := None;
      if state == ReadingHeaders {
        var r := PrepareEnviron(serverEnviron, ibuffer, splitQuery);
        if r.Failure? {
          return Some(r.error);
        }
        environ := r.value;
        if TextOf(environ, "REQUEST_METHOD") == Some("POST") {
          err := StartBody();
        } else {
          LinesEnvironEntries(serverEnviron, RequestLines(ibuffer), splitQuery);
          state := Handling;
          terminator := NoTerminator;
          err := HandleRequest(app, HttpDate(now));
        }
      } else if state == ReadingBodyData {
        terminator := NoTerminator;
        err := HandleRequest(app, HttpDate(now));
      }
    }

    /** `handle_write()`, where the socket took the first `sent` characters:
     *  exactly those leave `obuffer`, and the connection closes once the
     *  reply is complete and sent. */
    method HandleWrite(sent: nat)
      requires sent <= |obuffer|
      modifies this
      ensures old(obuffer) == old(obuffer)[..sent] + obuffer
      ensures closed == (old(closed) || (obuffer == [] && state == Finished))
      ensures state == old(state) && environ == old(environ) && terminator == old(terminator)
      ensures ibuffer == old(ibuffer) && input == old(input)
    {
      obuffer := obuffer[sent..];
      if obuffer == [] && state == Finished {
        closed := true;
      }
    }
  }
}
