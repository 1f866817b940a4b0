/**
 * The threaded WSGI server ("James"): how a request path is dispatched to a
 * file mount or an application mount, the WSGI environment handed to the
 * application, the `start_response`/`write` protocol, error pages, and the
 * server's run/stop loop.
 *
 * Sockets, `BaseHTTPServer` and `urlparse` are not modelled: a request
 * arrives as its command, its already-split path and query, its connection
 * addresses and its header items.  What goes out on the connection is
 * recorded as a sequence of `Wire` events, one per call to
 * `send_response`, `send_header`, `end_headers` or `wfile.write`.
 */
module ThreadedServer {
  import opened Wrappers
  import opened PyStr
  import opened Wsgi

  const Version := "0.7.1"

  // ---------------------------------------------------------------------------
  // Error pages

  /** A page with three holes: the title (twice), the content and the
   *  version line, between five fixed pieces. */
  datatype PageTemplate = PageTemplate(head: string, style: string, content: string, address: string, tail: string)

  /** `HTTP_ERROR_TEMPLATE`. */
  const ErrorTemplate := PageTemplate(
    "<!DOCTYPE HTML PUBLIC \"-//W3C//DTD HTML 3.2 Final//EN\">\n<html>\n <head>\n  <title>",
    "</title>\n  <style type=\"text/css\">\n    body {\n        font-family: sans-serif;\n        margin: 2em;\n        padding: 0;\n    }\n    a, h1 {\n        color: #0000cc;\n    }\n    div.content {\n        margin: 1em 3em 2em 2em;\n    }\n    address {\n        border-top: 1px solid #ccc;\n        padding: 0.3em;\n    }\n  </style>\n </head>\n <body>\n<h1>",
    "</h1>\n<div class=\"content\">",
    "</div>\n<address>powered by James ",
    "</address>\n</body></html>")

  /** Where the content starts in a filled page. */
  function ContentOffset(t: PageTemplate, title: string): nat {
    |t.head| + |title| + |t.style| + |title| + |t.content|
  }

  /** `template % {'title': ..., 'content': ..., 'versioninfo': ...}`. */
  function Fill(t: PageTemplate, title: string, content: string, versioninfo: string): (page: string)
    ensures StartsWith(page, t.head + title + t.style + title + t.content)
    ensures OccursAt(page, content, ContentOffset(t, title))
    ensures EndsWith(page, t.address + versioninfo + t.tail)
    ensures |page| == ContentOffset(t, title) + |content| + |t.address| + |versioninfo| + |t.tail|
  {
    var before := t.head + title + t.style + title + t.content;
    var after := t.address + versioninfo + t.tail;
    var page := before + content + after;
    assert page[..|before|] == before;
    assert page[|before|..|before| + |content|] == content;
    assert page[|page| - |after|..] == after;
    page
  }

  /** `sys.version.split('\n')[0].strip()`. */
  function PythonVersion(sysVersion: string): string {
    var first := match IndexOf(sysVersion, '\n') case None => sysVersion case Some(i) => sysVersion[..i];
    Strip(first, AsciiSpace)
  }

  /** The three values `send_error` fills into the error page. */
  datatype PageFields = PageFields(title: string, content: string, versioninfo: string)

  /** The page `send_error` writes for these fields. */
  function ErrorPage(f: PageFields): string {
    Fill(ErrorTemplate, f.title, f.content, f.versioninfo)
  }

  /** What `send_error` sends: the status, its two headers, and the page
   *  (given by its fields) when the response may carry a body. */
  datatype ErrorReply = ErrorReply(code: int, message: string, headers: seq<(string, string)>, body: Option<PageFields>)

  /** Whether `send_error` writes a page for this command and code. */
  predicate MayHaveBody(command: string, code: int) {
    command != "HEAD" && code >= 200 && code != 204 && code != 304
  }

  /** `WSGIHandler.send_error(code, message)` for the request path `url`. */
  function SendError(command: string, url: string, code: int, message: string, sysVersion: string): (r: ErrorReply)
    ensures r.code == code
    ensures code == 404 ==> r.message == "The requested URL " + url + " was not found on this server."
    ensures code != 404 ==> r.message == message
    ensures r.headers == [("Content-Type", "text/html"), ("Connection", "close")]
    ensures r.body.Some? <==> MayHaveBody(command, code)
    ensures r.body.Some? ==> r.body.value.title == "Error " + IntToString(code) && r.body.value.content == r.message
    ensures r.body.Some? ==> r.body.value.versioninfo == Version + " - Python " + PythonVersion(sysVersion)
  {
    var msg := if code == 404 then "The requested URL " + url + " was not found on this server." else message;
    var fields := PageFields("Error " + IntToString(code), msg, Version + " - Python " + PythonVersion(sysVersion));
    ErrorReply(code, msg, [("Content-Type", "text/html"), ("Connection", "close")],
               if MayHaveBody(command, code) then Some(fields) else None)
  }

  // ---------------------------------------------------------------------------
  // Dispatch

  /** The index of the first prefix `path` starts with. */
  function FirstMatch(prefixes: seq<string>, path: string): (r: Option<nat>)
    ensures r.Some? ==> r.value < |prefixes| && StartsWith(path, prefixes[r.value])
    ensures r.Some? ==> forall j :: 0 <= j < r.value ==> !StartsWith(path, prefixes[j])
    ensures r.None? ==> forall j :: 0 <= j < |prefixes| ==> !StartsWith(path, prefixes[j])
    decreases |prefixes|
  {
    if prefixes == [] then None
    else if StartsWith(path, prefixes[0]) then Some(0)
    else match FirstMatch(prefixes[1..], path)
      case None => None
      case Some(i) => Some(i + 1)
  }

  /** The first match is the one a left-to-right search stops at. */
  lemma FirstMatchAt(prefixes: seq<string>, path: string, i: nat)
    requires i < |prefixes| && StartsWith(path, prefixes[i])
    requires forall j :: 0 <= j < i ==> !StartsWith(path, prefixes[j])
    ensures FirstMatch(prefixes, path) == Some(i)
  {
  }

  /** The file-mount prefix as `call_handler` tests it: `/` is added unless
   *  `search_path[:-1] == '/'`, that is unless the prefix minus its last
   *  character is `/`. */
  function FilePrefixAsWritten(mount: string): string {
    if DropLast(mount, 1) != "/" then mount + "/" else mount
  }

  /** A mount that already ends with `/` keeps exactly one: as written it
   *  gains a second one and no longer matches the paths under it. */
  lemma FilePrefixAsWrittenDoublesSlash()
    ensures FilePrefixAsWritten("/static/") == "/static//"
    ensures !StartsWith("/static/style.css", FilePrefixAsWritten("/static/"))
    ensures FilePrefixAsWritten("/") == "//"
    ensures !StartsWith("/index.html", FilePrefixAsWritten("/"))
  {
    assert DropLast("/static/", 1) == "/static";
    assert "/static//"[..9] == "/static//";
    assert "/static/style.css"[..9] != "/static//" by {
      assert "/static/style.css"[8] == 's';
    }
    assert DropLast("/", 1) == "";
    assert "/index.html"[..2] != "//" by {
      assert "/index.html"[1] == 'i';
    }
  }

  /** The file-mount prefix with the evident intent `search_path[-1:] != '/'`:
   *  exactly one trailing `/`, added only when missing. */
  function FilePrefix(mount: string): (p: string)
    ensures EndsWith(p, "/")
    ensures StartsWith(p, mount) && |p| <= |mount| + 1
    ensures EndsWith(mount, "/") <==> p == mount
  {
    if EndsWith(mount, "/") then mount else mount + "/"
  }

  lemma FilePrefixIdempotent(mount: string)
    ensures FilePrefix(FilePrefix(mount)) == FilePrefix(mount)
    ensures FilePrefix("/static/") == "/static/" && FilePrefix("/static") == "/static/"
  {
    assert "/static/"[8 - 1..] == "/";
  }

  /** The prefixes the file mounts are tested with, `prefix` making each one. */
  function FilePrefixes(prefix: string -> string, files: seq<(string, string)>): (ps: seq<string>)
    ensures |ps| == |files| && forall i :: 0 <= i < |files| ==> ps[i] == prefix(files[i].0)
  {
    seq(|files|, i requires 0 <= i < |files| => prefix(files[i].0))
  }

  /** An application's `PATH_INFO`: the rest of the path after the mount,
   *  with a leading `/` put back when missing. */
  function AppPathInfo(mount: string, path: string): (info: string)
    requires StartsWith(path, mount)
    ensures StartsWith(info, "/")
    ensures StartsWith(path[|mount|..], "/") ==> info == path[|mount|..]
    ensures !StartsWith(path[|mount|..], "/") ==> info == "/" + path[|mount|..]
  {
    var rest := path[|mount|..];
    if StartsWith(rest, "/") then rest else "/" + rest
  }

  /** An application's `SCRIPT_NAME`: the mount without one trailing `/`. */
  function ScriptName(mount: string): (script: string)
    ensures !EndsWith(mount, "/") ==> script == mount
    ensures EndsWith(mount, "/") ==> script + "/" == mount
  {
    if EndsWith(mount, "/") then mount[..|mount| - 1] else mount
  }

  /**
   * `SCRIPT_NAME + PATH_INFO` gives the request path back exactly when one
   * of the mount's trailing `/` and the rest's leading `/` is present: when
   * both are, one `/` is lost, and when neither is, one is added.
   */
  lemma ScriptPlusPathInfo(mount: string, path: string)
    requires StartsWith(path, mount)
    ensures ScriptName(mount) + AppPathInfo(mount, path) == path <==>
      EndsWith(mount, "/") != StartsWith(path[|mount|..], "/")
  {
    var rest := path[|mount|..];
    assert path == mount + rest;
    var script := ScriptName(mount);
    var info := AppPathInfo(mount, path);
    if EndsWith(mount, "/") {
      assert mount == script + "/";
      if StartsWith(rest, "/") {
        assert |script + info| == |path| - 1;
      } else {
        assert script + info == script + "/" + rest;
      }
    } else {
      if !StartsWith(rest, "/") {
        assert |script + info| == |path| + 1;
      }
    }
  }

  /** Where `call_handler` sends a request. */
  datatype Outcome =
    | ServeFile(path: string)
    | NotFound(message: string)                               // `send_error(404, message)`
    | ToApplication(app: nat, pathInfo: string, scriptName: string)

  /** `do_GET` consults the file mounts, `do_POST` skips them; other
   *  commands have no handler here. */
  function SkipFiles(command: string): Option<bool> {
    if command == "GET" then Some(false) else if command == "POST" then Some(true) else None
  }

  /**
   * A reference for `call_handler`: the first file mount the path falls
   * under decides (a file, or 404 "File not found"), unless files are
   * skipped; then the first application mount; otherwise 404
   * "Application not found".  `prefix` makes a file mount into the prefix
   * the path is tested against: `FilePrefixAsWritten` is the code as
   * written, `FilePrefix` the corrected one.
   */
  function Route(prefix: string -> string, path: string, skipFiles: bool, files: seq<(string, string)>, apps: seq<string>,
                 isFile: string -> bool): Outcome
  {
    var file := if skipFiles then None else FirstMatch(FilePrefixes(prefix, files), path);
    if file.Some? then
      var p := prefix(files[file.value].0);
      var local := PathJoin(files[file.value].1, path[|p|..]);
      if isFile(local) then ServeFile(local) else NotFound("File not found")
    else match FirstMatch(apps, path)
      case Some(i) => ToApplication(i, AppPathInfo(apps[i], path), ScriptName(apps[i]))
      case None => NotFound("Application not found")
  }

  /** One of `call_handler`'s searches: the mounts in order, stopping at
   *  the first one the path starts with. */
  method FindMount(prefixes: seq<string>, path: string) returns (found: Option<nat>)
    ensures found == FirstMatch(prefixes, path)
  {
    for i := 0 to |prefixes|
      invariant forall j :: 0 <= j < i ==> !StartsWith(path, prefixes[j])
    {
      if StartsWith(path, prefixes[i]) {
        FirstMatchAt(prefixes, path, i);
        return Some(i);
      }
    }
    return None;
  }

  /** `call_handler(skip_files)`: the file mounts unless skipped, each made
   *  into a prefix by `prefix`, then the application mounts. */
  method CallHandler(prefix: string -> string, path: string, skipFiles: bool, files: seq<(string, string)>, apps: seq<string>,
                     isFile: string -> bool) returns (o: Outcome)
    ensures o == Route(prefix, path, skipFiles, files, apps, isFile)
  {
    if !skipFiles {
      var file := FindMount(FilePrefixes(prefix, files), path);
      if file.Some? {
        var searchPath := prefix(files[file.value].0);
        var local := PathJoin(files[file.value].1, path[|searchPath|..]);
        if isFile(local) {
          return ServeFile(local);
        }
        return NotFound("File not found");
      }
    }
    var app := FindMount(apps, path);
    if app.Some? {
      return ToApplication(app.value, AppPathInfo(apps[app.value], path), ScriptName(apps[app.value]));
    }
    return NotFound("Application not found");
  }

  /** On GET, a path under a file mount never reaches an application. */
  lemma RouteFileShadowsApplications(prefix: string -> string, path: string, files: seq<(string, string)>, apps: seq<string>,
                                     isFile: string -> bool, j: nat)
    requires j < |files| && StartsWith(path, prefix(files[j].0))
    ensures !Route(prefix, path, false, files, apps, isFile).ToApplication?
  {
    assert StartsWith(path, FilePrefixes(prefix, files)[j]);
  }

  /** POST never serves a file: it routes as if there were no file mounts. */
  lemma RoutePostSkipsFiles(prefix: string -> string, path: string, files: seq<(string, string)>, apps: seq<string>, isFile: string -> bool)
    ensures !Route(prefix, path, true, files, apps, isFile).ServeFile?
    ensures Route(prefix, path, true, files, apps, isFile) == Route(prefix, path, false, [], apps, isFile)
  {
    assert FilePrefixes(prefix, []) == [];
  }

  /** As written, a GET under a mount spelt with its trailing `/` misses
   *  the file mount and falls through to the applications; corrected, the
   *  file mount answers it. */
  lemma RouteAsWrittenMissesFiles(isFile: string -> bool)
    ensures Route(FilePrefixAsWritten, "/static/style.css", false, [("/static/", "www")], [], isFile) ==
      NotFound("Application not found")
    ensures Route(FilePrefix, "/static/style.css", false, [("/static/", "www")], [], isFile) in
      {ServeFile(PathJoin("www", "style.css")), NotFound("File not found")}
  {
    FilePrefixAsWrittenDoublesSlash();
    FilePrefixIdempotent("/static/");
    var files := [("/static/", "www")];
    assert FilePrefixes(FilePrefixAsWritten, files) == ["/static//"];
    assert StartsWith("/static/style.css", "/static/") by {
      assert "/static/style.css"[..8] == "/static/";
    }
    assert FilePrefixes(FilePrefix, files) == ["/static/"];
    assert FirstMatch(FilePrefixes(FilePrefix, files), "/static/style.css") == Some(0);
    assert "/static/style.css"[8..] == "style.css";
  }

  /** An application is chosen exactly when some application mount is a
   *  prefix of the path (and no file mount takes it first), and it is the
   *  first such mount; its `PATH_INFO` always starts with `/`. */
  lemma RouteApplication(prefix: string -> string, path: string, skipFiles: bool, files: seq<(string, string)>, apps: seq<string>,
                         isFile: string -> bool)
    requires skipFiles || forall j :: 0 <= j < |files| ==> !StartsWith(path, prefix(files[j].0))
    ensures Route(prefix, path, skipFiles, files, apps, isFile).ToApplication? <==>
      exists i :: 0 <= i < |apps| && StartsWith(path, apps[i])
    ensures Route(prefix, path, skipFiles, files, apps, isFile).ToApplication? ==>
      var o := Route(prefix, path, skipFiles, files, apps, isFile);
      o.app < |apps| && StartsWith(path, apps[o.app]) &&
      (forall j :: 0 <= j < o.app ==> !StartsWith(path, apps[j])) &&
      StartsWith(o.pathInfo, "/") && o.scriptName == ScriptName(apps[o.app])
  {
    if !skipFiles {
      assert forall j :: 0 <= j < |files| ==> !StartsWith(path, FilePrefixes(prefix, files)[j]);
    }
  }

  // ---------------------------------------------------------------------------
  // The WSGI environment

  /** What a request brings: its command and protocol, both ends' addresses,
   *  and its header items (names lower-cased, as the message stores them). */
  datatype Connection = Connection(
    command: string, requestVersion: string,
    clientHost: string, clientPort: int, serverName: string, serverPort: int,
    headers: seq<(string, string)>)

  /** `headers.get(name, default)`: the value stored for a lower-cased name. */
  function HeaderGet(headers: seq<(string, string)>, name: string): (v: string)
    ensures v == "" || exists i :: 0 <= i < |headers| && headers[i] == (name, v)
    decreases |headers|
  {
    if headers == [] then ""
    else if headers[|headers| - 1].0 == name then headers[|headers| - 1].1
    else HeaderGet(headers[..|headers| - 1], name)
  }

  /** Header `i` is the last one named `name`. */
  predicate LastNamed(headers: seq<(string, string)>, name: string, i: int) {
    0 <= i < |headers| && headers[i].0 == name && forall j :: i < j < |headers| ==> headers[j].0 != name
  }

  /** A missing header reads as `""`; of several with the name, the last
   *  one's value is read, as a later header line replaces an earlier one. */
  lemma {:induction false} HeaderGetLast(headers: seq<(string, string)>, name: string)
    ensures (forall i :: 0 <= i < |headers| ==> headers[i].0 != name) ==> HeaderGet(headers, name) == ""
    ensures forall i :: LastNamed(headers, name, i) ==> HeaderGet(headers, name) == headers[i].1
    decreases |headers|
  {
    if headers != [] {
      var n := |headers| - 1;
      HeaderGetLast(headers[..n], name);
      if headers[n].0 != name {
        forall i | LastNamed(headers, name, i) ensures LastNamed(headers[..n], name, i) {
          assert headers[..n][i] == headers[i];
        }
        assert forall i :: 0 <= i < n ==> headers[..n][i] == headers[i];
      }
    }
  }

  /** The fixed entries of `run_application`'s environment, the server port
   *  stored under `portKey`. */
  function BaseEnvironWith(portKey: string, c: Connection, scriptName: string, query: string): Environ {
    map[
      "wsgi.version" := WsgiVersion(1, 0),
      "wsgi.url_scheme" := Text("http"),
      "wsgi.input" := Handle("rfile"),
      "wsgi.errors" := Handle("stderr"),
      "wsgi.multithread" := Number(1),
      "wsgi.multiprocess" := Number(0),
      "wsgi.run_once" := Number(0),
      "trabant.stop" := Handle("stop"),
      "REQUEST_METHOD" := Text(c.command),
      "SCRIPT_NAME" := Text(scriptName),
      "QUERY_STRING" := Text(query),
      "CONTENT_TYPE" := Text(HeaderGet(c.headers, "content-type")),
      "CONTENT_LENGTH" := Text(HeaderGet(c.headers, "content-length")),
      "REMOTE_ADDR" := Text(c.clientHost),
      "REMOTE_PORT" := Number(c.clientPort),
      "SERVER_NAME" := Text(c.serverName),
      portKey := Number(c.serverPort),
      "SERVER_PROTOCOL" := Text(c.requestVersion)
    ]
  }

  /** The key the code as written stores the server port under. */
  const PortKeyAsWritten := "SERVER_POST"

  /** The key every WSGI environment must hold the server port under. */
  const PortKey := "SERVER_PORT"

  /** The environment with the server port under `PortKey`. */
  function BaseEnviron(c: Connection, scriptName: string, query: string): (env: Environ)
    ensures "SERVER_PORT" in env && env["SERVER_PORT"] == Number(c.serverPort)
    ensures "SERVER_NAME" in env && env["SERVER_NAME"] == Text(c.serverName)
    ensures "REQUEST_METHOD" in env && env["REQUEST_METHOD"] == Text(c.command)
    ensures "SCRIPT_NAME" in env && env["SCRIPT_NAME"] == Text(scriptName)
    ensures "QUERY_STRING" in env && env["QUERY_STRING"] == Text(query)
    ensures "SERVER_PROTOCOL" in env && env["SERVER_PROTOCOL"] == Text(c.requestVersion)
    ensures "CONTENT_TYPE" in env && env["CONTENT_TYPE"] == Text(HeaderGet(c.headers, "content-type"))
    ensures "CONTENT_LENGTH" in env && env["CONTENT_LENGTH"] == Text(HeaderGet(c.headers, "content-length"))
  {
    BaseEnvironWith(PortKey, c, scriptName, query)
  }

  /** The character a header name's character becomes in its key. */
  function KeyChar(c: char): char {
    if c == '-' then '_' else UpperChar(c)
  }

  /** `'HTTP_' + key.upper().replace('-', '_')`. */
  function HeaderKey(name: string): (key: string)
    ensures StartsWith(key, "HTTP_") && |key| == |name| + 5
    ensures forall i :: 5 <= i < |key| ==> key[i] != '-' && key[i] == KeyChar(name[i - 5])
  {
    "HTTP_" + ReplaceChar(Upper(name), '-', '_')
  }

  /** Two header names share a key exactly when they agree character by
   *  character up to case and `-` against `_` (so `x-a` and `X_A` collide). */
  lemma HeaderKeyCollides(a: string, b: string)
    ensures HeaderKey(a) == HeaderKey(b) <==>
      |a| == |b| && forall i :: 0 <= i < |a| ==> KeyChar(a[i]) == KeyChar(b[i])
  {
    var ka, kb := HeaderKey(a), HeaderKey(b);
    if ka == kb {
      forall i | 0 <= i < |a| ensures KeyChar(a[i]) == KeyChar(b[i]) {
        assert ka[i + 5] == kb[i + 5];
      }
    }
    if |a| == |b| && forall i :: 0 <= i < |a| ==> KeyChar(a[i]) == KeyChar(b[i]) {
      forall i | 0 <= i < |ka| ensures ka[i] == kb[i] {
        if i < 5 {
          assert ka[i] == ka[..5][i] && kb[i] == kb[..5][i];
        }
      }
    }
  }

  /** The environment after the header loop: each header stored under its
   *  key, a later header winning over an earlier one with the same key. */
  function WithHeaders(env: Environ, headers: seq<(string, string)>): Environ {
    if headers == [] then env
    else WithHeaders(env, headers[..|headers| - 1])[HeaderKey(headers[|headers| - 1].0) := Text(headers[|headers| - 1].1)]
  }

  /** The header loop as the source writes it. */
  method AddHeaders(env: Environ, headers: seq<(string, string)>) returns (r: Environ)
    ensures r == WithHeaders(env, headers)
  {
    r := env;
    for i := 0 to |headers|
      invariant r == WithHeaders(env, headers[..i])
    {
      assert headers[..i + 1][..i] == headers[..i];
      r := r[HeaderKey(headers[i].0) := Text(headers[i].1)];
    }
    assert headers[..|headers|] == headers;
  }

  /** The header loop adds exactly the `HTTP_` keys of the headers and
   *  leaves every other entry alone. */
  lemma {:induction false} WithHeadersEntries(env: Environ, headers: seq<(string, string)>, k: string)
    ensures k in WithHeaders(env, headers) <==>
      k in env || exists i :: 0 <= i < |headers| && HeaderKey(headers[i].0) == k
    ensures (forall i :: 0 <= i < |headers| ==> HeaderKey(headers[i].0) != k) && k in env ==> WithHeaders(env, headers)[k] == env[k]
    ensures !StartsWith(k, "HTTP_") && k in env ==> WithHeaders(env, headers)[k] == env[k]
  {
    if headers != [] {
      var n := |headers| - 1;
      WithHeadersEntries(env, headers[..n], k);
      if k !in env && HeaderKey(headers[n].0) != k && exists i :: 0 <= i < |headers| && HeaderKey(headers[i].0) == k {
        var i :| 0 <= i < |headers| && HeaderKey(headers[i].0) == k;
        assert headers[..n][i] == headers[i];
      }
      if k in WithHeaders(env, headers[..n]) && k !in env {
        var i :| 0 <= i < n && HeaderKey(headers[..n][i].0) == k;
        assert headers[i] == headers[..n][i];
      }
    }
  }

  /** Header `i` is the last one filed under its key. */
  predicate LastKeyed(headers: seq<(string, string)>, i: int) {
    0 <= i < |headers| && forall j :: i < j < |headers| ==> HeaderKey(headers[j].0) != HeaderKey(headers[i].0)
  }

  /** The header last filed under a key is the one whose value it holds. */
  lemma WithHeadersLastWins(env: Environ, headers: seq<(string, string)>)
    ensures forall i :: LastKeyed(headers, i) ==>
      HeaderKey(headers[i].0) in WithHeaders(env, headers) && WithHeaders(env, headers)[HeaderKey(headers[i].0)] == Text(headers[i].1)
  {
    forall i | LastKeyed(headers, i)
      ensures HeaderKey(headers[i].0) in WithHeaders(env, headers) && WithHeaders(env, headers)[HeaderKey(headers[i].0)] == Text(headers[i].1)
    {
      LastWinsAt(env, headers, i);
    }
  }

  /** One header at a time: no later header overwrites the last one filed
   *  under its key. */
  lemma {:induction false} LastWinsAt(env: Environ, headers: seq<(string, string)>, i: int)
    requires LastKeyed(headers, i)
    ensures HeaderKey(headers[i].0) in WithHeaders(env, headers) && WithHeaders(env, headers)[HeaderKey(headers[i].0)] == Text(headers[i].1)
    decreases |headers|
  {
    var n := |headers| - 1;
    if i < n {
      assert headers[..n][i] == headers[i];
      assert LastKeyed(headers[..n], i) by {
        forall j | i < j < n ensures HeaderKey(headers[..n][j].0) != HeaderKey(headers[..n][i].0) {
          assert headers[..n][j] == headers[j];
        }
      }
      LastWinsAt(env, headers[..n], i);
      assert HeaderKey(headers[n].0) != HeaderKey(headers[i].0);
    }
  }

  /** The header loop keeps every entry whose key has no `HTTP_` prefix,
   *  adds only `HTTP_` keys, files every header, and the last header filed
   *  under a key gives its value. */
  lemma WithHeadersView(env: Environ, headers: seq<(string, string)>)
    ensures forall k :: k in env && !StartsWith(k, "HTTP_") ==> k in WithHeaders(env, headers) && WithHeaders(env, headers)[k] == env[k]
    ensures forall k :: k in WithHeaders(env, headers) ==> k in env || StartsWith(k, "HTTP_")
    ensures forall i :: 0 <= i < |headers| ==> HeaderKey(headers[i].0) in WithHeaders(env, headers)
    ensures forall i :: LastKeyed(headers, i) ==> WithHeaders(env, headers)[HeaderKey(headers[i].0)] == Text(headers[i].1)
  {
    forall k | k in env && !StartsWith(k, "HTTP_") ensures k in WithHeaders(env, headers) && WithHeaders(env, headers)[k] == env[k] {
      WithHeadersEntries(env, headers, k);
    }
    forall k | k in WithHeaders(env, headers) ensures k in env || StartsWith(k, "HTTP_") {
      WithHeadersEntries(env, headers, k);
    }
    forall i | 0 <= i < |headers| ensures HeaderKey(headers[i].0) in WithHeaders(env, headers) {
      WithHeadersEntries(env, headers, HeaderKey(headers[i].0));
    }
    WithHeadersLastWins(env, headers);
  }

  /** The environment `run_application` builds: the fixed entries with the
   *  server port under `portKey`, `PATH_INFO` when the path is not empty,
   *  then the headers. */
  function EnvironFor(portKey: string, c: Connection, pathInfo: string, scriptName: string, query: string,
                      unquote: string -> string): Environ {
    var base := BaseEnvironWith(portKey, c, scriptName, query);
    WithHeaders(if pathInfo != [] then base["PATH_INFO" := Text(unquote(pathInfo))] else base, c.headers)
  }

  /** As written the port goes under `SERVER_POST`, so the `SERVER_PORT`
   *  entry every WSGI environment must have is missing, headers or not. */
  lemma ServerPortMissing(c: Connection, pathInfo: string, scriptName: string, query: string, unquote: string -> string)
    ensures "SERVER_PORT" !in EnvironFor(PortKeyAsWritten, c, pathInfo, scriptName, query, unquote)
    ensures "SERVER_POST" in EnvironFor(PortKeyAsWritten, c, pathInfo, scriptName, query, unquote)
    ensures EnvironFor(PortKeyAsWritten, c, pathInfo, scriptName, query, unquote)["SERVER_POST"] == Number(c.serverPort)
  {
    var base := BaseEnvironWith(PortKeyAsWritten, c, scriptName, query);
    var env0 := if pathInfo != [] then base["PATH_INFO" := Text(unquote(pathInfo))] else base;
    FixedKeysNotHeaders();
    assert "SERVER_PORT" !in env0;
    WithHeadersEntries(env0, c.headers, "SERVER_PORT");
    WithHeadersEntries(env0, c.headers, "SERVER_POST");
  }

  /** Building the environment: the header loop is a loop. */
  method BuildEnviron(portKey: string, c: Connection, pathInfo: string, scriptName: string, query: string,
                      unquote: string -> string) returns (env: Environ)
    ensures env == EnvironFor(portKey, c, pathInfo, scriptName, query, unquote)
  {
    env := BaseEnvironWith(portKey, c, scriptName, query);
    if pathInfo != [] {
      env := env["PATH_INFO" := Text(unquote(pathInfo))];
    }
    env := AddHeaders(env, c.headers);
  }

  /** The fixed keys an application reads are not keys the header loop writes. */
  lemma FixedKeysNotHeaders()
    ensures !StartsWith("SCRIPT_NAME", "HTTP_") && !StartsWith("PATH_INFO", "HTTP_") && !StartsWith("SERVER_PORT", "HTTP_") &&
      !StartsWith("SERVER_POST", "HTTP_") && !StartsWith("CONTENT_TYPE", "HTTP_") && !StartsWith("CONTENT_LENGTH", "HTTP_")
  {
    assert "SCRIPT_NAME"[0] == 'S' && "PATH_INFO"[0] == 'P' && "SERVER_PORT"[0] == 'S' && "SERVER_POST"[0] == 'S' &&
      "CONTENT_TYPE"[0] == 'C' && "CONTENT_LENGTH"[0] == 'C';
  }

  /**
   * What a dispatched application sees, with the port under `PortKey`:
   * its `SCRIPT_NAME`, its `PATH_INFO` (always there, since dispatch makes
   * it start with `/`), the port, the content headers looked up by name,
   * and every header under its `HTTP_` key with the value of the last
   * header filed under that key.
   */
  lemma EnvironOfApplication(c: Connection, path: string, mount: string, query: string, unquote: string -> string)
    requires StartsWith(path, mount)
    ensures var env := EnvironFor(PortKey, c, AppPathInfo(mount, path), ScriptName(mount), query, unquote);
      "SCRIPT_NAME" in env && env["SCRIPT_NAME"] == Text(ScriptName(mount)) &&
      "PATH_INFO" in env && env["PATH_INFO"] == Text(unquote(AppPathInfo(mount, path))) &&
      "SERVER_PORT" in env && env["SERVER_PORT"] == Number(c.serverPort) &&
      "CONTENT_TYPE" in env && env["CONTENT_TYPE"] == Text(HeaderGet(c.headers, "content-type")) &&
      "CONTENT_LENGTH" in env && env["CONTENT_LENGTH"] == Text(HeaderGet(c.headers, "content-length")) &&
      (forall i :: 0 <= i < |c.headers| ==> HeaderKey(c.headers[i].0) in env) &&
      (forall i :: LastKeyed(c.headers, i) ==> env[HeaderKey(c.headers[i].0)] == Text(c.headers[i].1))
  {
    var info := AppPathInfo(mount, path);
    var base := BaseEnviron(c, ScriptName(mount), query)["PATH_INFO" := Text(unquote(info))];
    assert WithHeaders(base, c.headers) == EnvironFor(PortKey, c, info, ScriptName(mount), query, unquote);
    FixedKeysNotHeaders();
    KeepsFixedKey(base, c.headers, "SCRIPT_NAME");
    KeepsFixedKey(base, c.headers, "PATH_INFO");
    KeepsFixedKey(base, c.headers, "SERVER_PORT");
    KeepsFixedKey(base, c.headers, "CONTENT_TYPE");
    KeepsFixedKey(base, c.headers, "CONTENT_LENGTH");
    forall i | 0 <= i < |c.headers| ensures HeaderKey(c.headers[i].0) in WithHeaders(base, c.headers) {
      WithHeadersEntries(base, c.headers, HeaderKey(c.headers[i].0));
    }
    WithHeadersLastWins(base, c.headers);
  }

  /** One entry outside the `HTTP_` keys passes the header loop unchanged. */
  lemma KeepsFixedKey(env: Environ, headers: seq<(string, string)>, k: string)
    requires k in env && !StartsWith(k, "HTTP_")
    ensures k in WithHeaders(env, headers) && WithHeaders(env, headers)[k] == env[k]
  {
    WithHeadersEntries(env, headers, k);
  }

  // ---------------------------------------------------------------------------
  // start_response and write

  /** One call on the connection. */
  datatype Wire = StatusLine(code: int, message: string) | HeaderLine(name: string, value: string) | EndHeaders | Body(data: string)

  /** A `[status, response_headers]` pair. */
  datatype Head = Head(status: string, headers: seq<(string, string)>)

  datatype WsgiError =
    | WriteBeforeStart        // AssertionError: write() before start_response
    | HeadersAlreadySet       // AssertionError: Headers already set!
    | BadStatus(status: string) // the status does not split into an integer code and a message
    | Reraised(exc: string)   // the application's exception, raised again

  /** `code, msg = status.split(' ', 1)` and `int(code)`. */
  function ParseStatus(status: string): Option<(int, string)> {
    match IndexOf(status, ' ')
    case None => None
    case Some(i) =>
      match ParseInt(status[..i])
      case None => None
      case Some(code) => Some((code, status[i + 1..]))
  }

  /** A status line as applications write it, `"<code> <reason>"`, gives
   *  back its code and its reason. */
  lemma ParseStatusLine(code: nat, reason: string)
    ensures ParseStatus(NatToString(code) + " " + reason) == Some((code, reason))
  {
    var digits := NatToString(code);
    var status := digits + " " + reason;
    assert status[|digits|] == ' ';
    assert ' ' !in status[..|digits|] by {
      assert status[..|digits|] == digits;
      assert !IsDigit(' ');
    }
    IndexOfAt(status, ' ', |digits|);
    assert status[..|digits|] == digits;
    assert status[|digits| + 1..] == reason;
    ParseIntOfNat(code);
  }

  function HeaderLines(headers: seq<(string, string)>): (ws: seq<Wire>)
    ensures |ws| == |headers| && forall i :: 0 <= i < |ws| ==> ws[i] == HeaderLine(headers[i].0, headers[i].1)
  {
    seq(|headers|, i requires 0 <= i < |headers| => HeaderLine(headers[i].0, headers[i].1))
  }

  /** What the first `write` sends before its data: the status line, one
   *  line per header and the end of the headers, or nothing when the status
   *  cannot be parsed. */
  function Preamble(parsed: Option<(int, string)>, headers: seq<(string, string)>): seq<Wire> {
    match parsed
    case None => []
    case Some(p) => [StatusLine(p.0, p.1)] + HeaderLines(headers) + [EndHeaders]
  }

  function Bodies(data: seq<string>): (ws: seq<Wire>)
  {
    seq(|data|, i requires 0 <= i < |data| => Body(data[i]))
  }

  /** The response side of one `run_application` call: the two lists the
   *  closures share, and the calls made on the connection so far.  `parse`
   *  is how `write` reads a status line; a new response uses `ParseStatus`,
   *  and the proofs about the closures hold for any parser. */
  class Response {
    const parse: string -> Option<(int, string)>
    var headersSet: Option<Head>
    var headersSent: Option<Head>
    var wire: seq<Wire>
    /** The data handed to `write` and put on the connection. */
    ghost var written: seq<string>

    /** Headers are sent only once set, and the connection carries the
     *  sent head's preamble followed by the written data, nothing before
     *  the headers are sent. */
    ghost predicate Valid()
      reads this
    {
      (headersSent.Some? ==> headersSet.Some?) &&
      (headersSent.None? ==> written == []) &&
      wire == (if headersSent.None? then [] else Preamble(parse(headersSent.value.status), headersSent.value.headers)) + Bodies(written)
    }

    /** Whether a `write` would succeed: headers are set, and they are either
     *  sent already or carry a parseable status. */
    predicate Writable()
      reads this
    {
      headersSet.Some? && (headersSent.Some? || parse(headersSet.value.status).Some?)
    }

    constructor()
      ensures parse == ParseStatus
      ensures headersSet.None? && headersSent.None? && wire == [] && written == [] && Valid()
    {
      parse := ParseStatus;
      headersSet := None;
      headersSent := None;
      wire := [];
      written := [];
    }

    /** The `write(data)` closure: the first call sends the status line and
     *  the headers, every successful call then sends the data. */
    method Write(data: string) returns (err: Option<WsgiError>)
      requires Valid()
      modifies this
      ensures Valid() && headersSet == old(headersSet)
      ensures old(headersSet).None? ==> err == Some(WriteBeforeStart) && headersSent == old(headersSent) && written == old(written)
      ensures old(headersSet).Some? && old(headersSent).Some? ==> headersSent == old(headersSent)
      ensures old(headersSet).Some? && old(headersSent).None? ==> headersSent == old(headersSet)
      ensures old(headersSet).Some? && !old(Writable()) ==> err == Some(BadStatus(old(headersSet).value.status)) && written == old(written)
      ensures old(Writable()) ==> err.None? && written == old(written) + [data]
      ensures old(Writable()) ==> wire == old(wire) + (if old(headersSent).None? then Preamble(parse(headersSent.value.status), headersSent.value.headers) else []) + [Body(data)]
    {
      if headersSet.None? {
        return Some(WriteBeforeStart);
      } else if headersSent.None? {
        headersSent := headersSet;
        var head := headersSent.value;
        var parsed := parse(head.status);
        if parsed.None? {
          return Some(BadStatus(head.status));
        }
        var preamble := [StatusLine(parsed.value.0, parsed.value.1)];
        for i := 0 to |head.headers|
          invariant preamble == [StatusLine(parsed.value.0, parsed.value.1)] + HeaderLines(head.headers[..i])
        {
          assert HeaderLines(head.headers[..i + 1]) == HeaderLines(head.headers[..i]) + [HeaderLine(head.headers[i].0, head.headers[i].1)];
          preamble := preamble + [HeaderLine(head.headers[i].0, head.headers[i].1)];
        }
        assert head.headers[..|head.headers|] == head.headers;
        wire := preamble + [EndHeaders];
      }
      wire := wire + [Body(data)];
      assert Bodies(written + [data]) == Bodies(written) + [Body(data)];
      written := written + [data];
      err := None;
    }

    /** The `start_response(status, response_headers, exc_info)` closure. */
    method StartResponse(status: string, headers: seq<(string, string)>, excInfo: Option<string>)
      returns (err: Option<WsgiError>)
      requires Valid()
      modifies this
      ensures Valid() && wire == old(wire) && written == old(written) && headersSent == old(headersSent)
      ensures excInfo.Some? && old(headersSent).Some? ==> err == Some(Reraised(excInfo.value)) && headersSet == old(headersSet)
      ensures excInfo.None? && old(headersSet).Some? ==> err == Some(HeadersAlreadySet) && headersSet == old(headersSet)
      ensures (excInfo.Some? && old(headersSent).None?) || (excInfo.None? && old(headersSet).None?) ==>
        err.None? && headersSet == Some(Head(status, headers))
    {
      if excInfo.Some? {
        if headersSent.Some? {
          return Some(Reraised(excInfo.value));
        }
      } else if headersSet.Some? {
        return Some(HeadersAlreadySet);
      }
      headersSet := Some(Head(status, headers));
      err := None;
    }

    /** `for data in result: write(data)`, stopping at the first error. */
    method Serve(result: seq<string>) returns (err: Option<WsgiError>)
      requires Valid()
      modifies this
      ensures Valid() && headersSet == old(headersSet)
      ensures result == [] ==> err.None? && written == old(written) && headersSent == old(headersSent)
      ensures result != [] && old(headersSet).None? ==> err == Some(WriteBeforeStart) && written == old(written) && headersSent == old(headersSent)
      ensures result != [] && old(headersSet).Some? && !old(Writable()) ==>
        err == Some(BadStatus(old(headersSet).value.status)) && written == old(written)
      ensures old(Writable()) ==> err.None? && written == old(written) + result
      ensures old(headersSent).Some? ==> headersSent == old(headersSent)
      ensures result != [] && old(headersSet).Some? && old(headersSent).None? ==> headersSent == old(headersSet)
    {
      if result == [] {
        return None;
      }
      if !Writable() {
        // The first write fails, and with it the loop.
        err := Write(result[0]);
        return;
      }
      WriteEach(result);
      err := None;
    }

    /** The loop when the first `write` succeeds: it sends the headers if
     *  they are not sent yet, and then every `write` succeeds. */
    method WriteEach(result: seq<string>)
      requires Valid() && Writable() && result != []
      modifies this
      ensures Valid() && headersSet == old(headersSet) && written == old(written) + result
      ensures headersSent == (if old(headersSent).None? then old(headersSet) else old(headersSent))
    {
      ghost var before := written;
      var err := Write(result[0]);
      ghost var after := written;
      assert headersSent.Some? && after == before + [result[0]];
      WriteAll(result[1..]);
      AppendSplit(before, result);
    }

    /** The rest of the loop once the headers are on the connection: every
     *  `write` succeeds. */
    method WriteAll(rest: seq<string>)
      requires Valid() && headersSent.Some?
      modifies this
      ensures Valid() && headersSet == old(headersSet) && headersSent == old(headersSent)
      ensures written == old(written) + rest
    {
      for i := 0 to |rest|
        invariant Valid() && headersSet == old(headersSet) && headersSent == old(headersSent)
        invariant written == old(written) + rest[..i]
      {
        var err := Write(rest[i]);
        assert rest[..i + 1] == rest[..i] + [rest[i]];
      }
      assert rest[..|rest|] == rest;
    }
  }

  /** Writing the first piece and then the rest writes the whole body. */
  lemma AppendSplit(before: seq<string>, result: seq<string>)
    requires result != []
    ensures before + [result[0]] + result[1..] == before + result
  {
    assert [result[0]] + result[1..] == result;
  }

  /**
   * The response half of `run_application` for an application that calls
   * `start_response` once: a parseable status with a non-empty body puts
   * the status, the headers and then each piece of the body on the
   * connection; an empty body sends nothing at all, not even the status
   * line.
   */
  method Respond(reply: AppReply) returns (wire: seq<Wire>, err: Option<WsgiError>)
    ensures reply.body == [] ==> err.None? && wire == []
    ensures reply.body != [] && ParseStatus(reply.status).Some? ==>
      err.None? && wire == Preamble(ParseStatus(reply.status), reply.headers) + Bodies(reply.body)
    ensures reply.body != [] && ParseStatus(reply.status).None? ==> err == Some(BadStatus(reply.status)) && wire == []
  {
    var response := new Response();
    err := response.StartResponse(reply.status, reply.headers, None);
    assert response.headersSet == Some(Head(reply.status, reply.headers)) && response.Writable() == ParseStatus(reply.status).Some?;
    err := response.Serve(reply.body);
    if reply.body != [] && ParseStatus(reply.status).Some? {
      assert response.headersSent == Some(Head(reply.status, reply.headers)) && response.written == reply.body;
    }
    wire := response.wire;
  }

  /** `run_application`: the environment for the application, with the
   *  server port under `portKey`, then its reply. */
  method RunApplication(portKey: string, c: Connection, app: Environ -> AppReply, pathInfo: string, scriptName: string,
                        query: string, unquote: string -> string)
    returns (env: Environ, wire: seq<Wire>, err: Option<WsgiError>)
    ensures env == EnvironFor(portKey, c, pathInfo, scriptName, query, unquote)
    ensures var reply := app(env);
      reply.body == [] ==> err.None? && wire == []
    ensures var reply := app(env);
      reply.body != [] && ParseStatus(reply.status).Some? ==>
        err.None? && wire == Preamble(ParseStatus(reply.status), reply.headers) + Bodies(reply.body)
    ensures var reply := app(env);
      reply.body != [] && ParseStatus(reply.status).None? ==> err == Some(BadStatus(reply.status)) && wire == []
  {
    env := BuildEnviron(portKey, c, pathInfo, scriptName, query, unquote);
    wire, err := Respond(app(env));
  }

  // ---------------------------------------------------------------------------
  // The server

  /** An application object. */
  datatype Application = Application(name: string)

  /** The `app` argument: a dict of mounts, or one application. */
  datatype AppArg = Mounts(table: seq<(string, Application)>) | Single(app: Application)

  /** The index of the request during which `stop` is called, if any. */
  function FirstStop(stops: seq<bool>): (r: Option<nat>)
    ensures r.Some? ==> r.value < |stops| && stops[r.value] && forall j :: 0 <= j < r.value ==> !stops[j]
    ensures r.None? ==> forall j :: 0 <= j < |stops| ==> !stops[j]
  {
    if stops == [] then None
    else if stops[0] then Some(0)
    else match FirstStop(stops[1..])
      case None => None
      case Some(i) => Some(i + 1)
  }

  class WSGIServer {
    const serverAddress: (string, int)
    var applications: seq<(string, Application)>
    var files: seq<(string, string)>
    var running: bool

    /** A single application is mounted at `/`. */
    constructor(app: AppArg, hostname: string, port: int, files: seq<(string, string)>)
      ensures serverAddress == (hostname, port) && this.files == files && running
      ensures app.Mounts? ==> applications == app.table
      ensures app.Single? ==> applications == [("/", app.app)]
    {
      serverAddress := (hostname, port);
      if app.Mounts? {
        applications := app.table;
      } else {
        applications := [("/", app.app)];
      }
      this.files := files;
      running := true;
    }

    method Stop()
      modifies this
      ensures !running && applications == old(applications) && files == old(files)
    {
      running := false;
    }

    /**
     * `run`: handle requests while `running` holds.  Request handling is
     * not modelled beyond whether it calls the `trabant.stop` entry of its
     * environment; `stops[i]` says so for the i-th request, and the loop
     * also ends when no request is left to arrive.
     */
    method Run(stops: seq<bool>) returns (handled: nat)
      modifies this
      ensures applications == old(applications) && files == old(files)
      ensures !old(running) ==> handled == 0 && !running
      ensures old(running) && FirstStop(stops).Some? ==> handled == FirstStop(stops).value + 1 && !running
      ensures old(running) && FirstStop(stops).None? ==> handled == |stops| && running
    {
      handled := 0;
      while running && handled < |stops|
        invariant handled <= |stops|
        invariant applications == old(applications) && files == old(files)
        invariant !old(running) ==> handled == 0 && !running
        invariant old(running) ==> forall j :: 0 <= j < handled ==> !stops[j] || (j == handled - 1 && !running)
        invariant old(running) && running ==> forall j :: 0 <= j < handled ==> !stops[j]
        invariant old(running) && !running ==> handled > 0 && stops[handled - 1]
        decreases |stops| - handled, running
      {
        if stops[handled] {
          Stop();
        }
        handled := handled + 1;
      }
    }
  }
}
