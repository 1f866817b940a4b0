/**
 * Running a compiled template: `Template.execute`, `Template.render`, the
 * sub-template cache behind `_include`, the `_rebase` hand-off, and the
 * `Renderer` that finds templates by name.
 *
 * The generated Python is run by the host interpreter, which is not part of
 * this model: an `Engine` carries what that interpreter does as an oracle
 * (`run`), which, given the code and the environment it starts in, yields the
 * effects the code has, in program order.  File access is the `read` oracle.
 */
module Rendering {
  import opened Wrappers
  import opened PyStr
  import Translation

  /** The values the environment holds, as far as the executor looks at them. */
  datatype Value =
    | Str(s: string)
    | Items(items: seq<string>)           // a list of strings, e.g. `_base`
    | Dict(entries: map<string, Value>)
    | Pair(name: string, args: map<string, Value>)  // a `(name, dict)` tuple
    | Builtin(name: string)               // a function installed by `execute`
    | Other(id: nat)

  /** A Python dict of variables. */
  type Env = map<string, Value>

  /** What running the generated code does, in order. */
  datatype Action =
    | Print(items: seq<string>)                               // `_printlist([...])`
    | Assign(key: string, value: Value)                       // a global assignment, e.g. `_rebase`
    | Include(name: string, innerargs: seq<Env>, innerkw: Env) // `_=_include(name, _stdout, ...)`

  /** A `Renderer`: base path, optional extension, constants and resource module. */
  datatype Renderer = Renderer(path: string, ext: Option<string>, constants: Env, resources: Option<string>)

  /**
   * What `Renderer.lookup` relies on: the translator's host functions, the
   * renderer itself, file reading (`opener(path[, module]).read()`) and
   * whether `compile` accepts a program.
   */
  datatype Loader = Loader(
    host: Translation.Host,
    renderer: Renderer,
    read: (Option<string>, string) -> Option<string>,
    compiles: string -> bool)

  /**
   * What `execute` relies on: the lookup of the renderer the template is
   * bound to, and what running a program does (`None` when it raises).
   */
  datatype Engine = Engine(
    lookup: string -> Result<Template, RenderError>,
    run: (string, Env) -> Option<seq<Action>>)

  /** A `Template` object: its generated code and its sub-template cache. */
  datatype Template = Template(code: string, cache: map<string, Template>)

  datatype RenderError =
    | NotFound(path: string)                            // the file cannot be opened
    | NoFilename                                        // empty source: `self.filename` is never set
    | Untranslatable(cause: Translation.TranslateError)
    | SyntaxError(code: string)                         // `compile` refuses the generated code
    | Raised(code: string)                              // the generated code raised
    | NotAPair(found: Value)                            // `_rebase` does not unpack into a name and a dict
    | RecursionLimit

  /** A finished `execute`: the template object with its updated cache, the
   *  buffer, the returned environment, and the names this object's own cache
   *  had to look up, in order. */
  datatype Ran = Ran(tpl: Template, out: seq<string>, env: Env, fetched: seq<string>)

  // ---------------------------------------------------------------------------
  // Variables

  /** `for dictarg in args: kwargs.update(dictarg)`. */
  function MergeAll(kwargs: Env, args: seq<Env>): Env {
    if args == [] then kwargs else MergeAll(kwargs, args[..|args| - 1]) + args[|args| - 1]
  }

  /** The dict of the last positional argument holding `k`, if any. */
  predicate LatestHas(args: seq<Env>, i: nat, k: string) {
    i < |args| && k in args[i] && forall j :: i < j < |args| ==> k !in args[j]
  }

  /** A merged variable comes from `kwargs` or from one of the dictionaries. */
  lemma {:induction false} MergeAllKeys(kwargs: Env, args: seq<Env>, k: string)
    ensures k in MergeAll(kwargs, args) <==> k in kwargs || exists i :: 0 <= i < |args| && k in args[i]
  {
    if args != [] {
      var n := |args| - 1;
      MergeAllKeys(kwargs, args[..n], k);
      if k in MergeAll(kwargs, args) && k !in kwargs && k !in args[n] {
        var i :| 0 <= i < n && k in args[..n][i];
        assert k in args[i];
      }
      if k !in args[n] && exists i :: 0 <= i < |args| && k in args[i] {
        var i :| 0 <= i < |args| && k in args[i];
        assert k in args[..n][i];
      }
    }
  }

  /** Later dictionaries win over earlier ones, and all of them over `kwargs`. */
  lemma {:induction false} MergeAllLatest(kwargs: Env, args: seq<Env>, i: nat, k: string)
    requires LatestHas(args, i, k)
    ensures k in MergeAll(kwargs, args) && MergeAll(kwargs, args)[k] == args[i][k]
  {
    var n := |args| - 1;
    if i < n {
      assert LatestHas(args[..n], i, k);
      MergeAllLatest(kwargs, args[..n], i, k);
    }
  }

  /** A variable no dictionary mentions keeps its keyword value. */
  lemma {:induction false} MergeAllKeeps(kwargs: Env, args: seq<Env>, k: string)
    requires k in kwargs && forall i :: 0 <= i < |args| ==> k !in args[i]
    ensures k in MergeAll(kwargs, args) && MergeAll(kwargs, args)[k] == kwargs[k]
  {
    if args != [] {
      var n := |args| - 1;
      assert k !in args[n];
      assert forall i :: 0 <= i < n ==> args[..n][i] == args[i];
      MergeAllKeeps(kwargs, args[..n], k);
    }
  }

  /** The merge loop as the source writes it. */
  method Merge(kwargs: Env, args: seq<Env>) returns (merged: Env)
    ensures merged == MergeAll(kwargs, args)
  {
    merged := kwargs;
    for i := 0 to |args|
      invariant merged == MergeAll(kwargs, args[..i])
    {
      assert args[..i + 1][..i] == args[..i];
      merged := merged + args[i];
    }
    assert args[..|args|] == args;
  }

  /** `Template.defaults`, a class attribute left empty. */
  const Defaults: Env := map[]

  /** The names `execute` installs for the generated code. */
  const BuiltinNames: set<string> := {"_stdout", "_printlist", "_include", "_str", "_escape"}

  /** The environment the generated code runs in: defaults, then the
   *  installed functions, then the caller's variables, each overriding the last. */
  function Globals(kw: Env): (env: Env)
    ensures env.Keys == Defaults.Keys + BuiltinNames + kw.Keys
    ensures forall k :: k in kw ==> env[k] == kw[k]
    ensures forall k :: k in BuiltinNames && k !in kw ==> env[k] == Builtin(k)
  {
    Defaults + (map k | k in BuiltinNames :: Builtin(k)) + kw
  }

  /** The variables a sub-template receives: its own arguments merged, then
   *  every variable of the including template on top. */
  function IncludeVars(innerargs: seq<Env>, innerkw: Env, kw: Env): (vars: Env)
    ensures forall k :: k in kw ==> k in vars && vars[k] == kw[k]
    ensures forall k :: k !in kw ==> (k in vars <==> k in MergeAll(innerkw, innerargs))
    ensures forall k :: k !in kw && k in vars ==> vars[k] == MergeAll(innerkw, innerargs)[k]
  {
    MergeAll(innerkw, innerargs) + kw
  }

  // ---------------------------------------------------------------------------
  // Renderer

  /** `'.'.join((name, ext))` when an extension is configured. */
  function FileName(name: string, ext: Option<string>): (file: string)
    ensures ext.None? ==> file == name
    ensures ext.Some? ==> StartsWith(file, name) && EndsWith(file, "." + ext.value)
    ensures ext.Some? ==> |file| == |name| + 1 + |ext.value|
  {
    match ext
    case None => name
    case Some(x) => name + "." + x
  }

  /** Where `Renderer.lookup` reads the template called `name`. */
  function LookupPath(r: Renderer, name: string): string {
    PathJoin(r.path, FileName(name, r.ext))
  }

  /** `Template(source, renderer=...)`: translate with the default encoding,
   *  then compile; an empty source falls to the file-name branch of
   *  `prepare`, which has no file name to use. */
  function Make(l: Loader, source: string): Result<Template, RenderError> {
    if source == [] then Failure(NoFilename)
    else match Translation.Translate(l.host, source, "utf-8")
      case Failure(err) => Failure(Untranslatable(err))
      case Success(c) =>
        if l.compiles(c.code) then Success(Template(c.code, map[])) else Failure(SyntaxError(c.code))
  }

  /** `Renderer.lookup`: every call reads and compiles afresh. */
  function Lookup(l: Loader, name: string): Result<Template, RenderError> {
    var path := LookupPath(l.renderer, name);
    match l.read(l.renderer.resources, path)
    case None => Failure(NotFound(path))
    case Some(source) => Make(l, source)
  }

  /** Templates made by a loader are bound to its renderer: the `_include`
   *  and `_rebase` lookups they perform are that renderer's. */
  function Bind(l: Loader, run: (string, Env) -> Option<seq<Action>>): (e: Engine)
    ensures forall name :: e.lookup(name) == Lookup(l, name)
    ensures e.run == run
  {
    Engine(name => Lookup(l, name), run)
  }

  /** A lookup either finds a readable file at its path and yields a fresh
   *  template with an empty cache, or reports why not. */
  lemma LookupFresh(l: Loader, name: string)
    requires Lookup(l, name).Success?
    ensures l.read(l.renderer.resources, LookupPath(l.renderer, name)).Some?
    ensures Lookup(l, name).value.cache == map[]
  {
    var source := l.read(l.renderer.resources, LookupPath(l.renderer, name)).value;
    assert Lookup(l, name) == Make(l, source);
  }

  /** A missing file and an empty one are the two failures of the file step. */
  lemma LookupFailures(l: Loader, name: string)
    ensures l.read(l.renderer.resources, LookupPath(l.renderer, name)).None? ==>
      Lookup(l, name) == Failure(NotFound(LookupPath(l.renderer, name)))
    ensures l.read(l.renderer.resources, LookupPath(l.renderer, name)) == Some([]) ==>
      Lookup(l, name) == Failure(NoFilename)
  {
  }

  // ---------------------------------------------------------------------------
  // Execution

  /** Steps 1 to 3 of `execute`: merge the arguments, build the environment
   *  and run the code on the shared buffer `out`. */
  function Evaluate(e: Engine, t: Template, out: seq<string>, args: seq<Env>, kwargs: Env, fuel: nat): Result<Ran, RenderError>
    requires fuel > 0
    decreases fuel, 1, 0
  {
    var kw := MergeAll(kwargs, args);
    match e.run(t.code, Globals(kw))
    case None => Failure(Raised(t.code))
    case Some(actions) => Perform(e, t, out, Globals(kw), kw, actions, [], fuel)
  }

  /**
   * `execute(_stdout, *args, **kwargs)`.  `fuel` bounds how deeply templates
   * may include or rebase onto one another, as Python's recursion limit does.
   */
  function Execute(e: Engine, t: Template, out: seq<string>, args: seq<Env>, kwargs: Env, fuel: nat): Result<Ran, RenderError>
    decreases fuel, 2, 0
  {
    if fuel == 0 then Failure(RecursionLimit)
    else
      var r :- Evaluate(e, t, out, args, kwargs, fuel);
      if "_rebase" !in r.env then Success(r)
      else Rebase(e, r, fuel)
  }

  /** Step 4 of `execute`: hand the buffer's contents to the recorded target
   *  as `_base`, clear the buffer and run the target on it. */
  function Rebase(e: Engine, r: Ran, fuel: nat): Result<Ran, RenderError>
    requires fuel > 0 && "_rebase" in r.env
    decreases fuel, 0, 0
  {
    match r.env["_rebase"]
    case Pair(name, rargs) =>
      var target :- e.lookup(name);
      var done :- Execute(e, target, [], [rargs["_base" := Items(r.out)]], map[], fuel - 1);
      Success(Ran(r.tpl, done.out, done.env, r.fetched))
    case other => Failure(NotAPair(other))
  }

  /** The sub-template `_include` runs for `name`: the cached one, else a
   *  fresh lookup. */
  function Resolve(e: Engine, t: Template, name: string): Result<Template, RenderError> {
    if name in t.cache then Success(t.cache[name]) else e.lookup(name)
  }

  /** The effects of the generated code, applied in order.  `kw` is the
   *  merged variables of the running `execute`, which `_include` adds to
   *  every sub-template's. */
  function Perform(e: Engine, t: Template, out: seq<string>, env: Env, kw: Env,
                   actions: seq<Action>, fetched: seq<string>, fuel: nat): Result<Ran, RenderError>
    requires fuel > 0
    decreases fuel, 0, |actions|
  {
    if actions == [] then Success(Ran(t, out, env, fetched))
    else match actions[0]
      case Print(items) => Perform(e, t, out + items, env, kw, actions[1..], fetched, fuel)
      case Assign(k, v) => Perform(e, t, out, env[k := v], kw, actions[1..], fetched, fuel)
      case Include(name, innerargs, innerkw) =>
        var child :- Resolve(e, t, name);
        var fetched' := if name in t.cache then fetched else fetched + [name];
        var sub :- Execute(e, child, out, [IncludeVars(innerargs, innerkw, kw)], map[], fuel - 1);
        Perform(e, t.(cache := t.cache[name := sub.tpl]), sub.out, env["_" := Dict(sub.env)],
                kw, actions[1..], fetched', fuel)
  }

  /** `render(*args, **kwargs)`: a fresh buffer, joined at the end.  The
   *  template object comes back with whatever its cache gained. */
  function Render(e: Engine, t: Template, args: seq<Env>, kwargs: Env, fuel: nat): Result<(Template, string), RenderError> {
    var r :- Execute(e, t, [], [MergeAll(kwargs, args)], map[], fuel);
    Success((r.tpl, Concat(r.out)))
  }

  /** The variables `Renderer.__call__` renders with: the constants win. */
  function CallVars(r: Renderer, kw: Env): (vars: Env)
    ensures vars.Keys == kw.Keys + r.constants.Keys
    ensures forall k :: k in r.constants ==> vars[k] == r.constants[k]
    ensures forall k :: k in kw && k !in r.constants ==> vars[k] == kw[k]
  {
    kw + r.constants
  }

  /** `Renderer.__call__(name, **kw)`. */
  function Call(l: Loader, run: (string, Env) -> Option<seq<Action>>, name: string, kw: Env, fuel: nat): Result<string, RenderError> {
    var t :- Lookup(l, name);
    var rendered :- Render(Bind(l, run), t, [], CallVars(l.renderer, kw), fuel);
    Success(rendered.1)
  }
}

/** What `execute`, `render` and `_include` promise. */
module RenderingProps {
  import opened Wrappers
  import opened PyStr
  import opened Rendering

  /** Distinct names, none of them already cached. */
  predicate LookedUpOnce(names: seq<string>, cached: set<string>) {
    (forall i :: 0 <= i < |names| ==> names[i] !in cached) &&
    (forall i, j :: 0 <= i < j < |names| ==> names[i] != names[j])
  }

  function Elems(names: seq<string>): set<string> {
    set i | 0 <= i < |names| :: names[i]
  }

  /** Running the code keeps the template's program, adds each name it had to
   *  look up to the cache, and looks up only names not cached yet, each once. */
  lemma {:induction false} PerformCache(e: Engine, t: Template, out: seq<string>, env: Env, kw: Env,
                                        actions: seq<Action>, fetched: seq<string>, fuel: nat)
    requires fuel > 0 && Perform(e, t, out, env, kw, actions, fetched, fuel).Success?
    ensures var r := Perform(e, t, out, env, kw, actions, fetched, fuel).value;
      r.tpl.code == t.code &&
      |fetched| <= |r.fetched| && r.fetched[..|fetched|] == fetched &&
      LookedUpOnce(r.fetched[|fetched|..], t.cache.Keys) &&
      r.tpl.cache.Keys == t.cache.Keys + Elems(r.fetched[|fetched|..])
    decreases |actions|, 1
  {
    var r := Perform(e, t, out, env, kw, actions, fetched, fuel).value;
    if actions == [] {
      assert r.fetched[|fetched|..] == [];
    } else {
      match actions[0]
      case Print(items) => PerformCache(e, t, out + items, env, kw, actions[1..], fetched, fuel);
      case Assign(k, v) => PerformCache(e, t, out, env[k := v], kw, actions[1..], fetched, fuel);
      case Include(_, _, _) => PerformCacheInclude(e, t, out, env, kw, actions, fetched, fuel);
    }
  }

  lemma {:induction false} PerformCacheInclude(e: Engine, t: Template, out: seq<string>, env: Env, kw: Env,
                                               actions: seq<Action>, fetched: seq<string>, fuel: nat)
    requires fuel > 0 && actions != [] && actions[0].Include?
    requires Perform(e, t, out, env, kw, actions, fetched, fuel).Success?
    ensures var r := Perform(e, t, out, env, kw, actions, fetched, fuel).value;
      r.tpl.code == t.code &&
      |fetched| <= |r.fetched| && r.fetched[..|fetched|] == fetched &&
      LookedUpOnce(r.fetched[|fetched|..], t.cache.Keys) &&
      r.tpl.cache.Keys == t.cache.Keys + Elems(r.fetched[|fetched|..])
    decreases |actions|, 0
  {
    IncludeSplit(e, t, out, env, kw, actions, fetched, fuel);
    var r := Perform(e, t, out, env, kw, actions, fetched, fuel).value;
    var name := actions[0].name;
    var child := Resolve(e, t, name).value;
    var sub := Execute(e, child, out, [IncludeVars(actions[0].innerargs, actions[0].innerkw, kw)], map[], fuel - 1).value;
    var t' := t.(cache := t.cache[name := sub.tpl]);
    var fetched' := if name in t.cache then fetched else fetched + [name];
    PerformCache(e, t', sub.out, env["_" := Dict(sub.env)], kw, actions[1..], fetched', fuel);
    if name in t.cache {
      assert t'.cache.Keys == t.cache.Keys;
    } else {
      CacheStep(t.cache.Keys, name, fetched, r.fetched, r.tpl.cache.Keys);
    }
  }

  /** A successful `_include` step: the sub-template is found and runs, and
   *  the code goes on with the updated cache and buffer. */
  lemma IncludeSplit(e: Engine, t: Template, out: seq<string>, env: Env, kw: Env,
                     actions: seq<Action>, fetched: seq<string>, fuel: nat)
    requires fuel > 0 && actions != [] && actions[0].Include?
    requires Perform(e, t, out, env, kw, actions, fetched, fuel).Success?
    ensures var a := actions[0];
      Resolve(e, t, a.name).Success? &&
      var child := Resolve(e, t, a.name).value;
      Execute(e, child, out, [IncludeVars(a.innerargs, a.innerkw, kw)], map[], fuel - 1).Success? &&
      var sub := Execute(e, child, out, [IncludeVars(a.innerargs, a.innerkw, kw)], map[], fuel - 1).value;
      Perform(e, t, out, env, kw, actions, fetched, fuel) ==
        Perform(e, t.(cache := t.cache[a.name := sub.tpl]), sub.out, env["_" := Dict(sub.env)],
                kw, actions[1..], if a.name in t.cache then fetched else fetched + [a.name], fuel)
  {
  }

  /** One cache miss followed by the rest of the run. */
  lemma CacheStep(cached: set<string>, name: string, fetched: seq<string>, all: seq<string>, keys: set<string>)
    requires name !in cached
    requires |fetched| + 1 <= |all| && all[..|fetched| + 1] == fetched + [name]
    requires LookedUpOnce(all[|fetched| + 1..], cached + {name})
    requires keys == cached + {name} + Elems(all[|fetched| + 1..])
    ensures all[..|fetched|] == fetched
    ensures LookedUpOnce(all[|fetched|..], cached) && keys == cached + Elems(all[|fetched|..])
  {
    var m := |fetched|;
    assert all[..m] == all[..m + 1][..m];
    assert all[m] == all[..m + 1][m] == name;
    var rest := all[m + 1..];
    assert all[m..] == [name] + rest;
    assert Elems(all[m..]) == {name} + Elems(rest) by {
      forall x | x in Elems(all[m..]) ensures x in {name} + Elems(rest) {
        var i :| 0 <= i < |all[m..]| && all[m..][i] == x;
        if i > 0 { assert rest[i - 1] == x; }
      }
      forall x | x in Elems(rest) ensures x in Elems(all[m..]) {
        var i :| 0 <= i < |rest| && rest[i] == x;
        assert all[m..][i + 1] == x;
      }
      assert all[m..][0] == name;
    }
  }

  /** Two runs that each look up only uncached names, the second with the
   *  first one's names cached, never look up a name twice. */
  lemma LookedUpOnceAppend(first: seq<string>, second: seq<string>, cached: set<string>)
    requires LookedUpOnce(first, cached) && LookedUpOnce(second, cached + Elems(first))
    ensures LookedUpOnce(first + second, cached)
  {
    var both := first + second;
    forall i, j | 0 <= i < j < |both| ensures both[i] != both[j] {
      if i < |first| <= j {
        assert both[i] in Elems(first);
        assert both[j] == second[j - |first|];
      }
    }
    forall i | 0 <= i < |both| ensures both[i] !in cached {
      if i >= |first| {
        assert both[i] == second[i - |first|];
      }
    }
  }

  /**
   * `Renderer.__call__`: the named template is looked up afresh, and a
   * failed lookup is the call's error.  A template the renderer made looks
   * up every sub-template it has not cached through the same renderer.  A
   * call that succeeds ran the fresh template on the caller's variables with
   * the constants applied, returns what it printed, and looked up each
   * sub-template it included at most once.
   */
  lemma CallRendersLookup(l: Loader, run: (string, Env) -> Option<seq<Action>>, name: string, kw: Env, fuel: nat)
    ensures Lookup(l, name).Failure? ==> Call(l, run, name, kw, fuel) == Failure(Lookup(l, name).error)
    ensures forall t: Template, n :: n !in t.cache ==> Resolve(Bind(l, run), t, n) == Lookup(l, n)
    ensures Call(l, run, name, kw, fuel).Success? ==>
      Lookup(l, name).Success? && Lookup(l, name).value.cache == map[] &&
      var r := Execute(Bind(l, run), Lookup(l, name).value, [], [CallVars(l.renderer, kw)], map[], fuel);
      r.Success? && Call(l, run, name, kw, fuel) == Success(Concat(r.value.out)) &&
      LookedUpOnce(r.value.fetched, {})
  {
    if Call(l, run, name, kw, fuel).Success? {
      LookupFresh(l, name);
      var t := Lookup(l, name).value;
      assert MergeAll(CallVars(l.renderer, kw), []) == CallVars(l.renderer, kw);
      ExecuteCache(Bind(l, run), t, [], [CallVars(l.renderer, kw)], map[], fuel);
    }
  }

  /** Sub-template caching over one `execute`: the cache gains exactly the
   *  names looked up, and no name is looked up twice or while cached. */
  lemma ExecuteCache(e: Engine, t: Template, out: seq<string>, args: seq<Env>, kwargs: Env, fuel: nat)
    requires Execute(e, t, out, args, kwargs, fuel).Success?
    ensures var r := Execute(e, t, out, args, kwargs, fuel).value;
      r.tpl.code == t.code &&
      LookedUpOnce(r.fetched, t.cache.Keys) &&
      r.tpl.cache.Keys == t.cache.Keys + Elems(r.fetched)
  {
    ExecuteKeepsRun(e, t, out, args, kwargs, fuel);
    var kw := MergeAll(kwargs, args);
    var actions := e.run(t.code, Globals(kw)).value;
    assert Evaluate(e, t, out, args, kwargs, fuel) == Perform(e, t, out, Globals(kw), kw, actions, [], fuel);
    PerformCache(e, t, out, Globals(kw), kw, actions, [], fuel);
    var r := Perform(e, t, out, Globals(kw), kw, actions, [], fuel).value;
    assert r.fetched[0..] == r.fetched;
  }

  /** A rebase changes the buffer and the environment, not the calling
   *  template or its lookups. */
  lemma ExecuteKeepsRun(e: Engine, t: Template, out: seq<string>, args: seq<Env>, kwargs: Env, fuel: nat)
    requires Execute(e, t, out, args, kwargs, fuel).Success?
    ensures fuel > 0 && Evaluate(e, t, out, args, kwargs, fuel).Success?
    ensures Execute(e, t, out, args, kwargs, fuel).value.tpl == Evaluate(e, t, out, args, kwargs, fuel).value.tpl
    ensures Execute(e, t, out, args, kwargs, fuel).value.fetched == Evaluate(e, t, out, args, kwargs, fuel).value.fetched
  {
    if "_rebase" in Evaluate(e, t, out, args, kwargs, fuel).value.env {
      ExecuteRebases(e, t, out, args, kwargs, fuel);
    }
  }

  /** The cache lives on the object: executing the same template object a
   *  second time never looks up a name the first run looked up. */
  lemma ExecuteTwice(e: Engine, t: Template, out: seq<string>, args: seq<Env>, kwargs: Env,
                     out2: seq<string>, args2: seq<Env>, kwargs2: Env, fuel: nat)
    requires Execute(e, t, out, args, kwargs, fuel).Success?
    requires Execute(e, Execute(e, t, out, args, kwargs, fuel).value.tpl, out2, args2, kwargs2, fuel).Success?
    ensures var first := Execute(e, t, out, args, kwargs, fuel).value;
      var second := Execute(e, first.tpl, out2, args2, kwargs2, fuel).value;
      LookedUpOnce(first.fetched + second.fetched, t.cache.Keys)
  {
    var first := Execute(e, t, out, args, kwargs, fuel).value;
    var second := Execute(e, first.tpl, out2, args2, kwargs2, fuel).value;
    ExecuteCache(e, t, out, args, kwargs, fuel);
    ExecuteCache(e, first.tpl, out2, args2, kwargs2, fuel);
    LookedUpOnceAppend(first.fetched, second.fetched, t.cache.Keys);
  }

  /**
   * The rebase hand-off: when the code records `_rebase` as a name and a
   * dict, the result succeeds exactly when the target is found and runs; the
   * target runs on an emptied buffer with `_base` bound to everything the
   * buffer held, so its output is all that is left; the calling template
   * keeps its own cache.
   */
  lemma RebaseHandOff(e: Engine, t: Template, out: seq<string>, args: seq<Env>, kwargs: Env, fuel: nat)
    requires fuel > 0 && Evaluate(e, t, out, args, kwargs, fuel).Success?
    requires var r := Evaluate(e, t, out, args, kwargs, fuel).value;
      "_rebase" in r.env && r.env["_rebase"].Pair?
    ensures var r := Evaluate(e, t, out, args, kwargs, fuel).value;
      var target := e.lookup(r.env["_rebase"].name);
      var base := r.env["_rebase"].args["_base" := Items(r.out)];
      Globals(MergeAll(map[], [base]))["_base"] == Items(r.out) &&
      (Execute(e, t, out, args, kwargs, fuel).Success? <==>
        target.Success? && Execute(e, target.value, [], [base], map[], fuel - 1).Success?) &&
      (Execute(e, t, out, args, kwargs, fuel).Success? ==>
        Execute(e, t, out, args, kwargs, fuel).value.out == Execute(e, target.value, [], [base], map[], fuel - 1).value.out &&
        Execute(e, t, out, args, kwargs, fuel).value.tpl == r.tpl)
  {
    var r := Evaluate(e, t, out, args, kwargs, fuel).value;
    BaseVisible(r.env["_rebase"].args, r.out);
    ExecuteRebases(e, t, out, args, kwargs, fuel);
    RebaseOutcome(e, r, fuel);
  }

  lemma ExecuteRebases(e: Engine, t: Template, out: seq<string>, args: seq<Env>, kwargs: Env, fuel: nat)
    requires fuel > 0 && Evaluate(e, t, out, args, kwargs, fuel).Success?
    requires "_rebase" in Evaluate(e, t, out, args, kwargs, fuel).value.env
    ensures Execute(e, t, out, args, kwargs, fuel) == Rebase(e, Evaluate(e, t, out, args, kwargs, fuel).value, fuel)
  {
  }

  /** The target's code sees the buffer's former contents as `_base`. */
  lemma BaseVisible(rargs: Env, prior: seq<string>)
    ensures Globals(MergeAll(map[], [rargs["_base" := Items(prior)]]))["_base"] == Items(prior)
  {
    var base := rargs["_base" := Items(prior)];
    assert MergeAll(map[], [base]) == base by {
      assert [base][..0] == [];
    }
  }

  lemma RebaseOutcome(e: Engine, r: Ran, fuel: nat)
    requires fuel > 0 && "_rebase" in r.env && r.env["_rebase"].Pair?
    ensures var target := e.lookup(r.env["_rebase"].name);
      var base := r.env["_rebase"].args["_base" := Items(r.out)];
      (Rebase(e, r, fuel).Success? <==>
        target.Success? && Execute(e, target.value, [], [base], map[], fuel - 1).Success?) &&
      (Rebase(e, r, fuel).Success? ==>
        Rebase(e, r, fuel).value.out == Execute(e, target.value, [], [base], map[], fuel - 1).value.out &&
        Rebase(e, r, fuel).value.tpl == r.tpl)
  {
  }

  /** A `_rebase` that is not a name and a dict makes `execute` raise. */
  lemma RebaseNotAPair(e: Engine, t: Template, out: seq<string>, args: seq<Env>, kwargs: Env, fuel: nat)
    requires fuel > 0 && Evaluate(e, t, out, args, kwargs, fuel).Success?
    requires var r := Evaluate(e, t, out, args, kwargs, fuel).value;
      "_rebase" in r.env && !r.env["_rebase"].Pair?
    ensures Execute(e, t, out, args, kwargs, fuel) ==
      Failure(NotAPair(Evaluate(e, t, out, args, kwargs, fuel).value.env["_rebase"]))
  {
  }

  /** Without a `_rebase`, `execute` returns what the code left behind. */
  lemma NoRebaseKeeps(e: Engine, t: Template, out: seq<string>, args: seq<Env>, kwargs: Env, fuel: nat)
    requires fuel > 0 && Evaluate(e, t, out, args, kwargs, fuel).Success?
    requires "_rebase" !in Evaluate(e, t, out, args, kwargs, fuel).value.env
    ensures Execute(e, t, out, args, kwargs, fuel) == Evaluate(e, t, out, args, kwargs, fuel)
  {
  }

  // ---------------------------------------------------------------------------
  // Output in program order

  predicate NoIncludes(actions: seq<Action>) {
    forall i :: 0 <= i < |actions| ==> !actions[i].Include?
  }

  /** Everything the actions print, in order. */
  function Emitted(actions: seq<Action>): seq<string> {
    if actions == [] then []
    else (if actions[0].Print? then actions[0].items else []) + Emitted(actions[1..])
  }

  /** The environment after the actions' assignments. */
  function Assigned(env: Env, actions: seq<Action>): Env
    decreases |actions|
  {
    if actions == [] then env
    else Assigned(if actions[0].Assign? then env[actions[0].key := actions[0].value] else env, actions[1..])
  }

  /** Code that includes nothing appends exactly what it prints, in order,
   *  to the buffer, and touches no cache. */
  lemma {:induction false} PerformPlain(e: Engine, t: Template, out: seq<string>, env: Env, kw: Env,
                                        actions: seq<Action>, fetched: seq<string>, fuel: nat)
    requires fuel > 0 && NoIncludes(actions)
    ensures Perform(e, t, out, env, kw, actions, fetched, fuel) ==
      Success(Ran(t, out + Emitted(actions), Assigned(env, actions), fetched))
    decreases |actions|
  {
    if actions != [] {
      assert NoIncludes(actions[1..]) by {
        forall i | 0 <= i < |actions[1..]| ensures !actions[1..][i].Include? {
          assert actions[1..][i] == actions[i + 1];
        }
      }
      assert !actions[0].Include?;
      var rest := actions[1..];
      match actions[0]
      case Print(items) =>
        assert Perform(e, t, out, env, kw, actions, fetched, fuel) ==
          Perform(e, t, out + items, env, kw, rest, fetched, fuel);
        PerformPlain(e, t, out + items, env, kw, rest, fetched, fuel);
        assert Emitted(actions) == items + Emitted(rest);
        assert Assigned(env, actions) == Assigned(env, rest);
        assert out + items + Emitted(rest) == out + Emitted(actions);
      case Assign(k, v) =>
        assert Perform(e, t, out, env, kw, actions, fetched, fuel) ==
          Perform(e, t, out, env[k := v], kw, rest, fetched, fuel);
        PerformPlain(e, t, out, env[k := v], kw, rest, fetched, fuel);
        assert Assigned(env, actions) == Assigned(env[k := v], rest);
        assert Emitted(actions) == [] + Emitted(rest) == Emitted(rest);
    } else {
      assert out + Emitted(actions) == out;
    }
  }

  /** `render` merges its arguments once more than `execute` does; the code
   *  sees the same variables either way. */
  lemma MergeTwice(kwargs: Env, args: seq<Env>)
    ensures MergeAll(map[], [MergeAll(kwargs, args)]) == MergeAll(kwargs, args)
  {
    assert [MergeAll(kwargs, args)][..0] == [];
  }

  /** Executing code that only prints and assigns, and records no
   *  `_rebase`, appends the printed strings to the buffer in order. */
  lemma ExecutePlain(e: Engine, t: Template, out: seq<string>, kw: Env, fuel: nat, actions: seq<Action>)
    requires fuel > 0
    requires e.run(t.code, Globals(kw)) == Some(actions)
    requires NoIncludes(actions) && "_rebase" !in Assigned(Globals(kw), actions)
    ensures Execute(e, t, out, [kw], map[], fuel) ==
      Success(Ran(t, out + Emitted(actions), Assigned(Globals(kw), actions), []))
  {
    MergeTwice(kw, []);
    assert MergeAll(kw, []) == kw;
    assert Evaluate(e, t, out, [kw], map[], fuel) == Perform(e, t, out, Globals(kw), kw, actions, [], fuel);
    PerformPlain(e, t, out, Globals(kw), kw, actions, [], fuel);
  }

  /** One `_include` step of the generated code. */
  lemma PerformInclude(e: Engine, t: Template, out: seq<string>, env: Env, kw: Env,
                       name: string, innerargs: seq<Env>, innerkw: Env, rest: seq<Action>,
                       fetched: seq<string>, fuel: nat, child: Template, sub: Ran)
    requires fuel > 0
    requires Resolve(e, t, name) == Success(child)
    requires Execute(e, child, out, [IncludeVars(innerargs, innerkw, kw)], map[], fuel - 1) == Success(sub)
    ensures Perform(e, t, out, env, kw, [Include(name, innerargs, innerkw)] + rest, fetched, fuel) ==
      Perform(e, t.(cache := t.cache[name := sub.tpl]), sub.out, env["_" := Dict(sub.env)],
              kw, rest, if name in t.cache then fetched else fetched + [name], fuel)
  {
    var actions := [Include(name, innerargs, innerkw)] + rest;
    assert actions[0] == Include(name, innerargs, innerkw) && actions[1..] == rest;
  }

  /** Rendering code that only prints and assigns, and records no `_rebase`,
   *  yields the printed strings joined in order. */
  lemma RenderPlain(e: Engine, t: Template, args: seq<Env>, kwargs: Env, fuel: nat, actions: seq<Action>)
    requires fuel > 0
    requires e.run(t.code, Globals(MergeAll(kwargs, args))) == Some(actions)
    requires NoIncludes(actions) && "_rebase" !in Assigned(Globals(MergeAll(kwargs, args)), actions)
    ensures Render(e, t, args, kwargs, fuel) == Success((t, Concat(Emitted(actions))))
  {
    ExecutePlain(e, t, [], MergeAll(kwargs, args), fuel, actions);
    assert [] + Emitted(actions) == Emitted(actions);
  }

  /**
   * Include composition: when the included sub-template only prints and
   * records no `_rebase`, its output lands in the shared buffer right after
   * what the including template printed before, and the including template
   * goes on from there.  The sub-template sees its own variables with the
   * including template's on top.
   */
  lemma IncludePlain(e: Engine, t: Template, out: seq<string>, env: Env, kw: Env,
                     name: string, innerargs: seq<Env>, innerkw: Env, rest: seq<Action>,
                     fetched: seq<string>, fuel: nat, child: Template, childActions: seq<Action>)
    requires fuel > 1
    requires Resolve(e, t, name) == Success(child)
    requires e.run(child.code, Globals(IncludeVars(innerargs, innerkw, kw))) == Some(childActions)
    requires NoIncludes(childActions)
    requires "_rebase" !in Assigned(Globals(IncludeVars(innerargs, innerkw, kw)), childActions)
    ensures Perform(e, t, out, env, kw, [Include(name, innerargs, innerkw)] + rest, fetched, fuel) ==
      Perform(e, t.(cache := t.cache[name := child]), out + Emitted(childActions),
              env["_" := Dict(Assigned(Globals(IncludeVars(innerargs, innerkw, kw)), childActions))],
              kw, rest, if name in t.cache then fetched else fetched + [name], fuel)
  {
    var vars := IncludeVars(innerargs, innerkw, kw);
    ExecutePlain(e, child, out, vars, fuel - 1, childActions);
    var sub := Ran(child, out + Emitted(childActions), Assigned(Globals(vars), childActions), []);
    PerformInclude(e, t, out, env, kw, name, innerargs, innerkw, rest, fetched, fuel, child, sub);
  }
}
