# Trabant core in Dafny

Trabant is a small Python 2 web toolkit with three main parts:

- a template engine (`template.py`);
- a threaded WSGI server (`threaded_server.py`);
- an asynchronous WSGI server (`async_server.py`).

This project models the core of each one and proves properties of the model.

**Template compiler.** `Template.translate` turns template text into Python source.

- Lines starting with `%` are code. Block keywords indent the code that follows them, and `%end` closes a block.
- `%include` and `%rebase` become calls into the runtime.
- Every other line is text. Text, with its `{{expr}}` and `{{!expr}}` inserts, is queued and flushed as one `_printlist([...])` statement.
- Each line is decoded in the current encoding. An encoding declared in the first two lines replaces it for the lines that follow, and a line that does not decode fails the translation.

The model works in layers:

- `Tokens`: the `re.split` scanner and the TXT/RAW/CMD classification.
- `Directives`: line classification, comment splitting and the coding declaration.
- `Translation`: the compiler as a state machine over classified lines, with one `Step` per line.
- `Translator`: a class whose fields are `translate`'s local variables and whose methods are `code`, `flush` and the dispatch loop. Each method is proved equal to the functional definition.

**Template runtime.** `execute` merges the positional dictionaries into the keyword variables and runs the compiled code. The code's effects are modelled as a sequence of actions: prints, assignments and `_include` calls.

- `_include` looks a sub-template up at most once, through the template's own cache.
- `_rebase` hands the output so far to another template as `_base`.
- `render` joins the output.
- `Renderer.lookup` builds the file name and reads the file. `Renderer.__call__` lets the renderer's constants win over the caller's variables.

**Threaded server.**

- `call_handler` resolves the request path: file mounts are checked first (GET only), then application mounts.
- `run_application` builds the WSGI environment, including one `HTTP_*` entry per request header.
- `write` and `start_response` are a `Response` class holding `headers_set` and `headers_sent`. The bytes that reach the socket are a sequence of `Wire` events.
- `send_error` sends a body only when the method and status allow one.
- `WSGIServer` keeps its applications, its files and a `running` flag.

**Asynchronous server.**

- `httpdate` formats an RFC 1123 date.
- `_prepare_environ` parses the buffered request head into an environment.
- `RequestHandler` is a class with the handler's state machine: `collect_incoming_data`, `found_terminator`, `handle_request`, `readable`, `writable` and `handle_write`.

**Outside influences become parameters.** `Host`, `Loader` and `Engine` carry them for the template engine; the servers take them directly. They are:

- Python's `repr`, its tokenizer, the `unicode` decoder, `compile` and `eval`;
- file reading;
- `os.path.isfile`, `urllib.unquote` and `utils.splitquery`;
- the WSGI application and the clock.

`PyStr` models the Python string operations the core relies on: `strip`, `splitlines`, `split`, `upper`, `replace`, `join`, `int()`, `%02d` and `os.path.join`.

## Model

| member | source | states |
|---|---|---|
| Directives.DirectiveIff | src/trabant/template.py:139 | a line is a directive exactly when its stripped text starts with a single `%`, or has `%` as its second character after a non-`%` first |
| Directives.DirectiveHasPercent | src/trabant/template.py:139-140 | a directive line contains the `%` that `split('%', 1)` needs |
| Directives.DirectiveBody | src/trabant/template.py:140 | the body is what follows the first `%` of the line once a run of blanks is removed, and it starts with no blank |
| Directives.UnescapeText | src/trabant/template.py:176-177 | a text line whose stripped form starts with `%%` has its first `%%` replaced by `%`; any other line is unchanged |
| Directives.WordFromIsRun | src/trabant/template.py:142 | the word scanned from index `i` is the maximal run of `[a-zA-Z0-9_]` there |
| Directives.KeywordIsWordPrefix | src/trabant/template.py:142 | the keyword is the longest prefix of the line made of word characters |
| Directives.SplitComment | src/trabant/template.py:92-106 | splitting fails only on an empty line, where `splitlines()[0]` raises |
| Directives.CutComment | src/trabant/template.py:104-105 | cutting a comment token out leaves the code around it, and the comment is exactly the cut slice |
| Directives.SplitCommentFallback | src/trabant/template.py:97-101 | when tokenising fails, code and comment are split at the last `#` of the first line, or the line has no comment |
| Directives.CodingAt | src/trabant/template.py:136 | a declaration found at an offset starts with `coding` there and names a non-empty run of `[-\w.]` characters |
| Directives.LastCoding | src/trabant/template.py:136 | the greedy `.*` picks a non-empty encoding after some `coding` |
| Directives.LastCodingIsLast | src/trabant/template.py:136 | the match is the last `coding` on the line, and when there is none no position on the line matches |
| Directives.CodingFrom | src/trabant/template.py:136 | a declaration is found only after a `%` of the line |
| Directives.CodingFromIsLeftmost | src/trabant/template.py:136 | the search starts from the leftmost `%` that yields a match; no earlier `%` does |
| Directives.CodingFromNone | src/trabant/template.py:136 | no match means that no `%` of the line starts a declaration |
| Directives.CodingDecl | src/trabant/template.py:135-137 | a declared encoding is non-empty, made of encoding characters, and comes from a line with `%` and `coding` |
| Directives.RemoveCodingChanges | src/trabant/template.py:138 | the `coding (removed)` rewrite changes a line exactly when the line contains `coding` |
| Tokens.FindClose | src/trabant/template.py:86 | the lazy group ends at a `}}` at or after its start |
| Tokens.FindCloseFirst | src/trabant/template.py:86 | that `}}` is the first one, with no line feed before it; with no match every later `}}` is behind a line feed |
| Tokens.FindMatch | src/trabant/template.py:86 | a match found is a `{{` that has a closing `}}` |
| Tokens.FindMatchLeftmost | src/trabant/template.py:86 | the match found is the leftmost one, and finding none means there is none |
| Tokens.GroupIsClean | src/trabant/template.py:86 | a captured expression has neither a line feed nor a `}}` |
| Tokens.ReSplitFrom | src/trabant/template.py:86 | `re.split` with one group yields an odd number of parts |
| Tokens.ReSplitGroups | src/trabant/template.py:86 | every odd-indexed part (a captured group) is clean |
| Tokens.ReSplitMatches | src/trabant/template.py:86 | the line splits into more than one part exactly when it holds a match |
| Tokens.ReSplit | src/trabant/template.py:86 | the whole line splits into an odd number of parts |
| Tokens.RejoinReSplit | src/trabant/template.py:86 | putting `{{`/`}}` back between the parts gives the original text |
| Tokens.Classify | src/trabant/template.py:87-90 | even parts are TXT; odd parts are RAW without their `!` or CMD otherwise, and the part can be rebuilt from the token |
| Tokens.ClassifyParity | src/trabant/template.py:87 | the classification depends only on the parity of the index |
| Tokens.ClassifyParts | src/trabant/template.py:86-90 | one token per part |
| Tokens.YieldTokens | src/trabant/template.py:85-90 | one token per part of the split |
| Tokens.TokensRoundTrip | src/trabant/template.py:85-90 | printing the tokens back in template syntax gives the line |
| Tokens.TokensShape | src/trabant/template.py:85-90 | tokens alternate TXT and expression, start and end with TXT, and no expression holds a line feed or `}}` |
| Tokens.PlainTextIsOneToken | src/trabant/template.py:85-90 | a line without a complete `{{...}}` is exactly one TXT token |
| Translation.Indent | src/trabant/template.py:127 | the indent of depth `d` is `2*d` spaces |
| Translation.IndentLines | src/trabant/template.py:126-127 | one code line per statement line |
| Translation.CodeLines | src/trabant/template.py:125-127 | `code` appends as many lines as `splitlines()` gives |
| Translation.TokenCodes | src/trabant/template.py:112-116 | one printed expression per token |
| Translation.LineCodes | src/trabant/template.py:111-117 | one printed line per pending line |
| Translation.NoBr | src/trabant/template.py:119-120 | a body ending in the escaped `\\` line break, followed by one character, loses the six characters before that last character; any other body is unchanged |
| Translation.Args | src/trabant/template.py:160 | `split(None, 2)[1:]` gives at most two arguments |
| Translation.ParseDirective | src/trabant/template.py:140-142 | a parsed directive keeps the body after `%`; its `cline` is the first line of the body with the comment cut off and blanks stripped, and its keyword is the word prefix of that `cline`; parsing fails exactly when the body is empty |
| Translation.ReadLine | src/trabant/template.py:131-142 | a line that does not decode in the current encoding is undecodable and declares nothing; a decoded line may declare an encoding only in lines 1 and 2, and a text line is the tokens of its unescaped, defused decoded text |
| Translation.ReadLines | src/trabant/template.py:129-137 | one classified line per source line, each decoded in the encoding the lines before it left |
| Translation.Execute | src/trabant/template.py:143-172 | definition of what one directive does after the flush: block and continuation lines, `%end`, `%include`, `%rebase`, plain code; its properties are in ExecuteBlockLine, BlockOpensFrame, DedentReopensFrame, EndClosesFrame, EndWithoutFrame, IncludeByArity, RebaseByArity and ExecuteKeepsValid |
| Translation.Step | src/trabant/template.py:128-177 | definition of one iteration of the line loop; its properties are in StepCases, StepFailsIff, StepKeepsValid and StepAppendsCode, and the class method Translator.Translator.Feed computes it |
| Translation.Translate | src/trabant/template.py:78-180 | definition of `translate`; its properties are in RunInvariants, TranslateErrorLine and TranslateEncoding, and the class method Translator.Translator.Translate computes it |
| TranslationProps.ReadLinesAt | src/trabant/template.py:129-137 | line `k` is read with its own line number and with the encoding last declared by the lines before it, else the given one |
| TranslationProps.CodeLinesShape | src/trabant/template.py:125-127 | every emitted line is the current indent followed by a stripped statement line |
| TranslationProps.CodeLinesHead | src/trabant/template.py:125-127 | the first emitted line starts with the indent and the statement's first characters |
| TranslationProps.FlushStatementFirstLine | src/trabant/template.py:121-123 | a flush emits a line that starts with `_printlist([` at the current indent |
| TranslationProps.FlushEffect | src/trabant/template.py:108-123 | `flush` with nothing pending changes nothing; otherwise it empties the buffer and appends exactly the `_printlist` statement, leaving the rest of the state alone |
| TranslationProps.FlushBodyAppend | src/trabant/template.py:111-118 | pending lines are joined by a backslash and a line feed |
| TranslationProps.LineCodeAppend | src/trabant/template.py:112-117 | the tokens of a line are joined by `, ` |
| TranslationProps.ExecuteBlockLine | src/trabant/template.py:144-145 | a block keyword, or any line while a continuation is pending, takes the block branch |
| TranslationProps.BlockOpensFrame | src/trabant/template.py:144-156 | a block line is emitted at the current depth; a trailing `:` opens a frame and a trailing backslash remembers the keyword |
| TranslationProps.DedentReopensFrame | src/trabant/template.py:146-156 | a dedent keyword after a block closes the top frame, is emitted one level out, and reopens the closed keyword's frame |
| TranslationProps.DedentWithoutFrameFails | src/trabant/template.py:147-148 | a dedent keyword with no open frame fails as `stack.pop()` does, under that line's number |
| TranslationProps.ContinuationKeepsKeyword | src/trabant/template.py:144-154 | during a continuation the remembered keyword, not the line's, is pushed or kept |
| TranslationProps.EndClosesFrame | src/trabant/template.py:157-158 | `%end` pops the top frame and emits the `#end(...)` comment at the outer depth |
| TranslationProps.EndWithoutFrame | src/trabant/template.py:157-174 | `%end` with no open frame is emitted as plain code |
| TranslationProps.ArgsShape | src/trabant/template.py:160 | the line is blanks, the keyword's word, then each argument after a non-empty run of blanks: one argument is a word followed by blanks only, two are a word and the rest of the line (`cline == g0 + w + g1 + p[0] + g2 + p[1]`) |
| TranslationProps.IncludeByArity | src/trabant/template.py:159-166 | `%include` emits the two-, one- or no-argument form by the number of arguments |
| TranslationProps.RebaseByArity | src/trabant/template.py:167-172 | `%rebase` records the target and its arguments, or emits nothing without arguments |
| TranslationProps.ReadLineWellFormed | src/trabant/template.py:178 | a text line's token list is odd in length |
| TranslationProps.ReadLineClassifies | src/trabant/template.py:139-140 | a line is read as a directive exactly when it is one, and an empty body is recorded as such |
| TranslationProps.ReadLinesWellFormed | src/trabant/template.py:129-178 | every classified line is well formed |
| TranslationProps.ReadLinesDeclareEarly | src/trabant/template.py:135 | no line after the second declares an encoding |
| TranslationProps.StepCases | src/trabant/template.py:131-178 | an undecodable line fails under its line number; text is queued without code; a body-less directive fails under its line number; any other directive flushes first and then executes |
| TranslationProps.StepFailsIff | src/trabant/template.py:131-148 | a line fails exactly when it does not decode, is a body-less directive, or is a dedent with no frame to close |
| TranslationProps.FlushKeepsValid | src/trabant/template.py:108-123 | flushing keeps the state invariant and empties the buffer |
| TranslationProps.BlockStepKeepsValid | src/trabant/template.py:144-156 | the block branch only stacks or remembers block keywords |
| TranslationProps.ExecuteKeepsValid | src/trabant/template.py:144-174 | every directive branch keeps the invariant |
| TranslationProps.StepKeepsValid | src/trabant/template.py:129-178 | one line keeps the invariant |
| TranslationProps.BlockStepKeepsCount | src/trabant/template.py:144-156 | the block branch only appends code and fails under the current line number |
| TranslationProps.ExecuteKeepsCount | src/trabant/template.py:144-174 | directives only append code, keep the counter and the encoding, and fail under the current line number |
| TranslationProps.StepAppendsCode | src/trabant/template.py:129-178 | a line advances the counter by one, takes a declared encoding, and only appends code |
| TranslationProps.RunAppend | src/trabant/template.py:129 | running two stretches of lines is running the first and then the second |
| TranslationProps.RunInvariants | src/trabant/template.py:129-179 | the whole loop keeps the invariant, counts every line, only appends code, and reports errors within the lines read |
| TranslationProps.RunEncoding | src/trabant/template.py:135-137 | the final encoding is the last one declared |
| TranslationProps.LastDeclaredSnoc | src/trabant/template.py:135-137 | one more line leaves the encoding it declares, or the one before it |
| TranslationProps.RunDecodes | src/trabant/template.py:131-134 | a successful run decoded every one of its lines |
| TranslationProps.TranslateErrorLine | src/trabant/template.py:129-180 | a failed translation names a line of the template |
| TranslationProps.TranslateEncoding | src/trabant/template.py:131-137 | a compiled template decoded line 1 in the given encoding and line 2 in the encoding line 1 declared (else the given one); the compiled encoding is the one line 2 declared, else that of line 1 |
| TranslationProps.LastDeclaredEarly | src/trabant/template.py:135-137 | with declarations only in the first two lines, the second wins over the first |
| Translator.PrintList | src/trabant/template.py:108-121 | the string-building loops of `flush` produce exactly the `_printlist` statement |
| Translator.TerminatedIsLine | src/trabant/template.py:111-117 | appending each token and `, ` is the joined line plus a trailing `, ` |
| Translator.PrintedIsBody | src/trabant/template.py:117-118 | after cutting each trailing `, `, the buffer is the joined body plus a final separator |
| Translator.Translator.constructor | src/trabant/template.py:79-83 | the compiler starts with empty buffers, no frames and line 0 |
| Translator.Translator.Code | src/trabant/template.py:125-127 | `code` appends the indented statement lines |
| Translator.Translator.Flush | src/trabant/template.py:108-123 | the in-place `flush` has the effect of the functional flush |
| Translator.Translator.BlockLine | src/trabant/template.py:144-156 | the in-place block branch agrees with its functional definition, failures included |
| Translator.Translator.Execute | src/trabant/template.py:144-174 | the in-place directive dispatch agrees with its functional definition |
| Translator.Translator.Feed | src/trabant/template.py:130-178 | one loop iteration over the fields agrees with `Step` |
| Translator.Translator.Dispatch | src/trabant/template.py:139-178 | queuing text or executing a directive agrees with `Apply` |
| Translator.Translator.Translate | src/trabant/template.py:78-180 | the whole in-place `translate` gives the functional result and records the declared encoding |
| Rendering.Make | src/trabant/template.py:49-76 | definition of `Template(source, renderer=...)`: translate, then compile, with an empty cache; its properties are in LookupFresh and LookupFailures |
| Rendering.Lookup | src/trabant/template.py:23-35 | definition of `Renderer.lookup`: read the file, then make a template; its properties are in LookupFresh, LookupFailures and CallRendersLookup |
| Rendering.Evaluate | src/trabant/template.py:191-197 | definition of the merge, the environment and the run of the code; its properties are in ExecuteKeepsRun and ExecutePlain |
| Rendering.Execute | src/trabant/template.py:183-205 | definition of `execute`; its properties are in ExecuteCache, ExecuteTwice, ExecuteRebases, RebaseHandOff and NoRebaseKeeps |
| Rendering.Rebase | src/trabant/template.py:198-204 | definition of the hand-off to the `_rebase` target; its properties are in RebaseHandOff, BaseVisible, RebaseOutcome and RebaseNotAPair |
| Rendering.Perform | src/trabant/template.py:184-190 | definition of the generated code's effects, `_include` through the sub-template cache; its properties are in PerformCache, PerformPlain and PerformInclude |
| Rendering.Render | src/trabant/template.py:207-211 | definition of `render`; its properties are in RenderPlain |
| Rendering.Call | src/trabant/template.py:37-40 | definition of `Renderer.__call__`; its properties are in CallRendersLookup |
| Rendering.MergeAllKeys | src/trabant/template.py:192 | the merged variables are those of `kwargs` and of every dictionary |
| Rendering.MergeAllLatest | src/trabant/template.py:192 | a key takes its value from the last dictionary that holds it |
| Rendering.MergeAllKeeps | src/trabant/template.py:192 | a keyword variable no dictionary mentions keeps its value |
| Rendering.Merge | src/trabant/template.py:192 | the `update` loop computes `MergeAll` |
| Rendering.Globals | src/trabant/template.py:193-197 | the environment holds the defaults, the five runtime names and the variables, with the variables winning |
| Rendering.IncludeVars | src/trabant/template.py:185-186 | a sub-template sees the including template's variables over its own arguments |
| Rendering.FileName | src/trabant/template.py:24-25 | with an extension, the name gains `.` and the extension |
| RenderingProps.CallRendersLookup | src/trabant/template.py:23-40 | a failed lookup is the call's error; every uncached include resolves by the renderer's `lookup`; a successful call rendered the fresh, empty-cached template on the caller's variables and the constants, returns what it printed, and looked up each sub-template at most once |
| Rendering.LookupFresh | src/trabant/template.py:23-35 | a successful lookup read its file and yields a template with an empty cache |
| Rendering.LookupFailures | src/trabant/template.py:27-33 | a missing file and an empty file are the failures of the read |
| Rendering.CallVars | src/trabant/template.py:38 | the renderer's constants override the caller's variables, and the keys are the union |
| RenderingProps.PerformCache | src/trabant/template.py:188-190 | running the code keeps the program and caches each name it had to look up; it looks up only uncached names, each once |
| RenderingProps.IncludeSplit | src/trabant/template.py:184-190 | an `_include` that succeeds ran the resolved sub-template with the merged variables, cached it and bound its environment to `_` |
| RenderingProps.LookedUpOnceAppend | src/trabant/template.py:188-189 | names looked up once, then others looked up once outside the grown cache, are looked up once overall |
| RenderingProps.ExecuteCache | src/trabant/template.py:183-205 | an `execute` looks up each uncached sub-template at most once and adds it to the cache |
| RenderingProps.ExecuteKeepsRun | src/trabant/template.py:199-204 | a rebase keeps the template and the lookups of the first run |
| RenderingProps.ExecuteTwice | src/trabant/template.py:188-189 | a second `execute` on the returned template looks nothing up again |
| RenderingProps.RebaseHandOff | src/trabant/template.py:199-204 | rebasing succeeds when the target is found and runs with `_base` set to the output so far, and its output replaces the output |
| RenderingProps.ExecuteRebases | src/trabant/template.py:199-204 | a run that sets `_rebase` continues with the rebase |
| RenderingProps.BaseVisible | src/trabant/template.py:202 | the rebased template sees the earlier output as `_base` |
| RenderingProps.RebaseOutcome | src/trabant/template.py:200-204 | a rebase fails exactly when the lookup or the target fails, and otherwise returns the target's output |
| RenderingProps.RebaseNotAPair | src/trabant/template.py:200 | a `_rebase` that is not a pair fails the unpacking |
| RenderingProps.NoRebaseKeeps | src/trabant/template.py:205 | without `_rebase` the run's result is returned as it is |
| RenderingProps.PerformPlain | src/trabant/template.py:198 | code without includes appends everything it prints and applies each of its assignments |
| RenderingProps.MergeTwice | src/trabant/template.py:209-211 | merging the already merged variables again changes nothing |
| RenderingProps.ExecutePlain | src/trabant/template.py:192-205 | a template without includes or rebase outputs what its code prints and looks nothing up |
| RenderingProps.PerformInclude | src/trabant/template.py:184-190 | an include continues with the sub-template's output, its cache entry and `_` bound to its environment |
| RenderingProps.RenderPlain | src/trabant/template.py:207-212 | `render` of a plain template is the concatenation of what it prints |
| RenderingProps.IncludePlain | src/trabant/template.py:184-190 | including a plain sub-template inserts its printed output in place |
| PyStr.StripIdempotent | src/trabant/template.py:141 | stripping twice is stripping once |
| PyStr.SplitLinesKeepEndsConcat | src/trabant/template.py:129 | `splitlines(True)` loses no character |
| PyStr.ZeroPadValue | src/trabant/async_server.py:22 | a `%0Nd` field reads back as the number |
| PyStr.ParseIntOfNat | src/trabant/async_server.py:87 | `int()` of a printed number gives the number back |
| PyStr.SplitWsJoin | src/trabant/template.py:160 | `split(None, m)` gives at most m+1 fields; the line is the fields interleaved with runs of blanks, the inner runs non-empty, each field starting with a non-blank, all but a last (m+1)-th field free of blanks, and that last one running to the end of the line |
| PyStr.FieldsAreSplit | src/trabant/async_server.py:47 | with more splits allowed than characters remain, `split(None, m)` is `split()` |
| PyStr.FieldsJoin | src/trabant/async_server.py:47 | `split()` gives the blank-free words of the line, which is those words interleaved with runs of blanks, the inner runs non-empty |
| PyStr.Upper | src/trabant/async_server.py:58 | upper-casing keeps the length and maps each character |
| ThreadedServer.Fill | src/trabant/threaded_server.py:96-122 | the page holds the title twice, the content at its fixed offset, and the version in the footer |
| ThreadedServer.SendError | src/trabant/threaded_server.py:136-152 | a 404 rewrites the message to name the URL; the page goes out exactly when the command is not HEAD and the code is 200 or more and neither 204 nor 304 |
| ThreadedServer.FirstMatch | src/trabant/threaded_server.py:173-174 | the index found is the first prefix of the path, and none means no prefix matches |
| ThreadedServer.FirstMatchAt | src/trabant/threaded_server.py:173-174 | the first matching prefix is the one found |
| ThreadedServer.FilePrefixAsWrittenDoublesSlash | src/trabant/threaded_server.py:162-163 | as written, `/static/` becomes `/static//` and no longer matches `/static/style.css` |
| ThreadedServer.FilePrefix | src/trabant/threaded_server.py:162-163 | the corrected prefix ends in exactly one added `/`, and a mount already ending in `/` is kept |
| ThreadedServer.FilePrefixIdempotent | src/trabant/threaded_server.py:162-163 | normalising a prefix twice is normalising it once |
| ThreadedServer.FilePrefixes | src/trabant/threaded_server.py:161-163 | every file mount is normalised in order |
| ThreadedServer.RouteAsWrittenMissesFiles | src/trabant/threaded_server.py:160-169 | with the prefix rule as written a GET for `/static/style.css` under the mount `/static/` falls through to "Application not found"; with the corrected rule the file mount answers it |
| ThreadedServer.AppPathInfo | src/trabant/threaded_server.py:175-178 | the path info starts with `/`: it is the rest of the path after the mount when that starts with `/`, and that rest with a `/` in front otherwise |
| ThreadedServer.ScriptName | src/trabant/threaded_server.py:179-182 | the script name is the mount without its trailing `/` |
| ThreadedServer.ScriptPlusPathInfo | src/trabant/threaded_server.py:175-182 | script name plus path info rebuild the path exactly when the `/` was not doubled or dropped |
| ThreadedServer.FindMount | src/trabant/threaded_server.py:173-174 | the mount loop finds the first matching mount |
| ThreadedServer.Route | src/trabant/threaded_server.py:154-185 | definition of the routing outcome for a prefix rule; its properties are in CallHandler, RouteFileShadowsApplications, RoutePostSkipsFiles, RouteApplication and RouteAsWrittenMissesFiles |
| ThreadedServer.CallHandler | src/trabant/threaded_server.py:154-185 | for any prefix rule for file mounts, the handler's loops produce the routing outcome; `FilePrefixAsWritten` is the rule as written, `FilePrefix` the corrected one |
| ThreadedServer.RouteFileShadowsApplications | src/trabant/threaded_server.py:160-169 | for any prefix rule, on GET a path under a file mount never reaches an application |
| ThreadedServer.RoutePostSkipsFiles | src/trabant/threaded_server.py:160-169 | for any prefix rule, on POST files are never served and routing ignores the file mounts |
| ThreadedServer.RouteApplication | src/trabant/threaded_server.py:172-185 | for any prefix rule, past the files an application runs exactly when a mount is a prefix; it is the first such mount, with the script name and a path info starting with `/` |
| ThreadedServer.HeaderGet | src/trabant/threaded_server.py:217-218 | a header's value is one the request sent under that name, or empty |
| ThreadedServer.HeaderGetLast | src/trabant/threaded_server.py:217-218 | a name the request did not send reads as `""`; otherwise the value of the last header with that name is read |
| ThreadedServer.ServerPortMissing | src/trabant/threaded_server.py:222 | with the key as written (`PortKeyAsWritten`) the port is stored under `SERVER_POST` and `SERVER_PORT` is absent from the environment |
| ThreadedServer.BaseEnviron | src/trabant/threaded_server.py:205-224 | with the corrected key `PortKey`, the environment holds the port, server name, method, script name, query, protocol and the two content headers looked up by name |
| ThreadedServer.HeaderKey | src/trabant/threaded_server.py:228-229 | a header's key is `HTTP_` and the name upper-cased, with `-` as `_` |
| ThreadedServer.HeaderKeyCollides | src/trabant/threaded_server.py:228-229 | two header names share a key exactly when they have the same length and agree character by character once upper-cased and with `-` read as `_` |
| ThreadedServer.AddHeaders | src/trabant/threaded_server.py:228-229 | the header loop computes the recursive definition |
| ThreadedServer.WithHeadersEntries | src/trabant/threaded_server.py:228-229 | the keys afterwards are the old ones plus one per header; an entry no header is filed under, and any non-`HTTP_` entry, keeps its value |
| ThreadedServer.WithHeadersLastWins | src/trabant/threaded_server.py:228-229 | each key holds the value of the last header filed under it |
| ThreadedServer.WithHeadersView | src/trabant/threaded_server.py:228-229 | the loop keeps every non-`HTTP_` entry, adds only `HTTP_` keys, files every header, and the last header under a key gives its value |
| ThreadedServer.EnvironFor | src/trabant/threaded_server.py:205-229 | definition of the environment for a port key; its properties are in BuildEnviron, EnvironOfApplication and ServerPortMissing |
| ThreadedServer.BuildEnviron | src/trabant/threaded_server.py:205-229 | for the port key as written or corrected, the environment construction computes its definition |
| ThreadedServer.EnvironOfApplication | src/trabant/threaded_server.py:204-229 | with the corrected key `PortKey`, an application sees its script name, the unquoted path info, the port, both content headers, and every header under its `HTTP_` key with the last such header's value |
| ThreadedServer.ParseStatus | src/trabant/threaded_server.py:240-241 | definition of `status.split(' ', 1)` and `int(code)`; its properties are in ParseStatusLine |
| ThreadedServer.ParseStatusLine | src/trabant/threaded_server.py:240-241 | a `"<code> <reason>"` status splits back into its code and reason |
| ThreadedServer.HeaderLines | src/trabant/threaded_server.py:242-243 | one header line per response header, in order |
| ThreadedServer.Response.constructor | src/trabant/threaded_server.py:231-232 | nothing is set or sent at first |
| ThreadedServer.Response.Write | src/trabant/threaded_server.py:234-246 | `write` before `start_response` fails; the first write sends status and headers once; later writes send only data |
| ThreadedServer.Response.StartResponse | src/trabant/threaded_server.py:248-259 | a second call without `exc_info` fails; with `exc_info` after sending it re-raises; otherwise it records the status and headers |
| ThreadedServer.Response.Serve | src/trabant/threaded_server.py:261-265 | writing every item sends them all in order, or fails as the first `write` does |
| ThreadedServer.Response.WriteAll | src/trabant/threaded_server.py:264-265 | once headers are sent, every item is written in order |
| ThreadedServer.Respond | src/trabant/threaded_server.py:234-265 | an empty body sends nothing and fails nothing; a non-empty body with a valid status puts the status, headers and all items on the wire; with a bad status it fails before anything is sent |
| ThreadedServer.RunApplication | src/trabant/threaded_server.py:204-265 | for the port key as written or corrected, the application is called with the built environment, and its reply reaches the wire as in `Respond`, the empty body included |
| ThreadedServer.FirstStop | src/trabant/threaded_server.py:285-286 | the first request after which `running` is false ends the loop |
| ThreadedServer.WSGIServer.constructor | src/trabant/threaded_server.py:275-282 | a dictionary is the mount table and anything else is mounted at `/`; the server starts running |
| ThreadedServer.WSGIServer.Run | src/trabant/threaded_server.py:284-286 | the loop handles requests until the first stop, and not at all when already stopped |
| ThreadedServer.WSGIServer.Stop | src/trabant/threaded_server.py:288-289 | `stop` clears `running` and nothing else |
| AsyncServer.HttpDate | src/trabant/async_server.py:12-23 | definition of `httpdate`; its properties are in HttpDateFields |
| AsyncServer.HttpDateFields | src/trabant/async_server.py:12-23 | the date is 29 characters, with the weekday, the month name and each zero-padded field readable back at its fixed place |
| AsyncServer.DateTextLayout | src/trabant/async_server.py:22-23 | fields of the expected widths land at fixed offsets |
| AsyncServer.PadLength | src/trabant/async_server.py:22 | a number below `10^w` padded to `w` digits has exactly `w` characters |
| AsyncServer.FieldWidths | src/trabant/async_server.py:22-23 | every numeric field of a valid date has its nominal width |
| AsyncServer.WeekdayName | src/trabant/async_server.py:19 | weekday names have three letters |
| AsyncServer.MonthName | src/trabant/async_server.py:20-21 | month names have three letters |
| AsyncServer.NamesDistinct | src/trabant/async_server.py:19-21 | no two weekdays or months share a name |
| AsyncServer.NonEmpty | src/trabant/async_server.py:46 | `filter(bool)` keeps exactly the non-empty lines, and drops nothing from a list without empty ones |
| AsyncServer.NonEmptyAppend | src/trabant/async_server.py:46 | the filter keeps order: filtering a concatenation concatenates the filtered parts |
| AsyncServer.RequestLines | src/trabant/async_server.py:45-46 | the request lines are `readlines()` of the buffer |
| AsyncServer.EnvironKey | src/trabant/async_server.py:58-60 | a header's key is the threaded server's `HTTP_` key, without `HTTP_` exactly for `CONTENT_LENGTH` and `CONTENT_TYPE`; it never contains `-` |
| AsyncServer.EnvironKeyMatchesThreaded | src/trabant/async_server.py:58-60 | both servers use the same key exactly when the header is not a content header; otherwise the threaded key is `HTTP_` in front of this one |
| AsyncServer.ParseHeaderLine | src/trabant/async_server.py:57-60 | a line is malformed exactly when it has no `:`; otherwise the key is a header key and the value is stripped |
| AsyncServer.ParseHeaderLineSplits | src/trabant/async_server.py:57-60 | a parsed header is its line split at the first `:`: the key of the stripped left part and the stripped right part |
| AsyncServer.ParseHeaderLines | src/trabant/async_server.py:56-60 | one parsed header per line, in order |
| AsyncServer.RequestLineEnviron | src/trabant/async_server.py:50-54 | the method is upper-cased, the script name is empty, path, query and protocol are stored, and every other server entry is kept |
| AsyncServer.AddHeaderLines | src/trabant/async_server.py:56-61 | the header loop computes its definition |
| AsyncServer.PrepareEnviron | src/trabant/async_server.py:41-63 | `_prepare_environ` computes its definition |
| AsyncServer.WithHeaderLines | src/trabant/async_server.py:56-61 | definition of the header loop; its properties are in WithHeaderLinesFails, WithHeaderLinesKeeps and WithHeaderLinesStores, and AddHeaderLines computes it |
| AsyncServer.WithHeaderLinesFails | src/trabant/async_server.py:56-61 | the first malformed line stops the loop with that error |
| AsyncServer.WithHeaderLinesKeeps | src/trabant/async_server.py:56-61 | header lines change no entry that is not a header key |
| AsyncServer.WithHeaderLinesStores | src/trabant/async_server.py:56-61 | the loop succeeds exactly when every line is a header, and then stores every key with the value of the last line filed under it |
| AsyncServer.RequestLineSurvives | src/trabant/async_server.py:50-61 | headers cannot overwrite the request-line entries |
| AsyncServer.RequestEnviron | src/trabant/async_server.py:41-63 | definition of `_prepare_environ` on the input buffer; its properties are in LinesEnvironEntries, and PrepareEnviron computes it |
| AsyncServer.LinesEnviron | src/trabant/async_server.py:46-61 | definition of the environment from the non-empty request lines; its properties are in LinesEnvironEntries and RequestLineEnviron |
| AsyncServer.LinesEnvironEntries | src/trabant/async_server.py:46-61 | a parsed request has three words on its first line, the request-line entries, every header with its last value, and the server entries that are neither request-line nor header keys |
| AsyncServer.ServerEnviron | src/trabant/async_server.py:141-151 | the server environment holds the host, the port and `wsgi.run_once` |
| AsyncServer.HeaderTexts | src/trabant/async_server.py:108 | each response header becomes `name: value` |
| AsyncServer.HeaderBlockEnds | src/trabant/async_server.py:113-118 | the header block always ends with `Connection: close` |
| AsyncServer.ReplyText | src/trabant/async_server.py:103-123 | definition of the reply text `handle_request` buffers; its properties are in ReplyLayout and HandleRequest |
| AsyncServer.ReplyLayout | src/trabant/async_server.py:103-123 | the reply is the status line, the header block, and a length and body only when the body is non-empty |
| AsyncServer.RequestHandler.constructor | src/trabant/async_server.py:31-39 | the handler starts reading headers up to a blank line, with empty buffers |
| AsyncServer.RequestHandler.CollectIncomingData | src/trabant/async_server.py:66-71 | data goes to the body while reading the body, else to the header buffer |
| AsyncServer.RequestHandler.HandleRequest | src/trabant/async_server.py:97-124 | without a protocol it fails and changes nothing; otherwise the output buffer holds the full reply of the application run on the environment and the body read, and the handler is Finished, so it stops reading and starts writing; the environment, terminator, buffers read and the connection stay |
| AsyncServer.RequestHandler.StartBody | src/trabant/async_server.py:76-87 | a POST reads the body: it needs a length; with `Expect` it sends `100 Continue` and waits for that many bytes |
| AsyncServer.RequestHandler.FoundTerminator | src/trabant/async_server.py:73-95 | at the end of the head the request is parsed: a parse error changes nothing else; a POST waits for its body (no length, no `Expect`, a bad length and a good one each with their own outcome, a fresh empty body); any other method is answered at once; at the end of the body the application gets that body and the reply is buffered; the header buffer and the connection never change |
| AsyncServer.RequestHandler.Readable | src/trabant/async_server.py:97-98 | definition of `readable`: the handler reads until it is Finished, which HandleRequest and FoundTerminator set |
| AsyncServer.RequestHandler.Writable | src/trabant/async_server.py:100-101 | definition of `writable`: output is pending; HandleWrite sends from it |
| AsyncServer.RequestHandler.HandleWrite | src/trabant/async_server.py:130-134 | the sent prefix leaves the buffer, the connection closes once everything is sent and the handler has finished, and nothing else changes |

## Left out

- Python's `compile` and `eval` are left out. The run of compiled code is a parameter that returns the code's effects as a sequence of actions. That sequence is fixed once, from the code and its starting environment, so a later print or assignment cannot depend on what an `_include` returned (`_`), on `_stdout`, or on an earlier assignment.
- The `tokenize` module is left out. The comment search in `split_comment` is a parameter that returns the comment span or a token error.
- `repr`, `touni` and `cgi.escape` are parameters. The model does not fix their output.
- `opener` and file reading are a read parameter. `os.path.exists` and `os.path.isfile` are a predicate parameter.
- `urlparse`, `urllib.unquote` and `utils.splitquery` are parameters.
- `datetime.utcnow()` is a `DateTime` parameter. `HandleRequest` takes the already formatted date string.
- Sockets are not modelled. Both servers take their inputs as arguments.
- The asyncore and asynchat terminator splitting is not modelled. `FoundTerminator` is called with the buffered data already collected.
- The formatting of `send_response` and `send_header` by `BaseHTTPServer` is not modelled. The threaded server's output is a sequence of `Wire` events.
- The `ThreadingMixIn` threads and the inside of `handle_request` are left out. `WSGIServer.Run` takes, for each handled request, whether it stopped the server.
- `serve_file` and `mimetypes` are left out. Routing reports which file would be served. When the type is unknown, `serve_file` as written sends nothing at all.
- Python dictionary iteration order is not modelled. Mount tables are ordered sequences, and the first matching mount wins.
- Rendering.Execute: a `fuel` bound stands in for Python's recursion limit on nested includes and rebases. Running out of fuel is reported as `RecursionLimit`.
- The `parse` field of `Response` only fixes the status parser used by `Write`.
- A POST without an `Expect` header raises `AttributeError` at `self.obuffer.append('')`. It is modelled as the error `MissingExpectHeader`, and the model invents no behaviour after it.
- AsyncServer.RequestHandler.HandleRequest: `handle_request` ignores the status code and never checks the `start_response` call. The application is modelled as a reply that calls `start_response` exactly once.
- Re-raising `exc_info` is reported as the error `Reraised`. Python's traceback handling is not modelled.
- `wsgiadaptor.py`, `src/examples` and `setup.py` are not part of this model.
- ThreadedServer.Response.Serve: the loop over the application's items is a first `write` followed by `WriteAll` on the rest.
- AsyncServer.PrepareEnviron: the header lines are parsed into a list before the loop that stores them.
- AsyncServer.HttpDate: its layout and field facts are stated in the lemma `HttpDateFields`, not in its own `ensures`.
- PyStr.ParseInt accepts `int()` only in its plain form: optional blanks, an optional sign and decimal digits. Underscores and other extensions are not accepted.
- `result.close()` and the `socket.error`/`socket.timeout` handler are not modelled.
- ThreadedServer.Bodies has no `ensures`: its meaning is its comprehension, one body event per item.
- An application that writes only through the items it returns and returns none sends no status line and no headers from the threaded server. This is the behaviour as written; a WSGI server would still send the headers.
- A template given as an already decoded `unicode` string is not modelled: templates are byte strings decoded line by line through the host's `decode`, and a line that does not decode fails the translation as `DecodeError`. Python's splitting of a `unicode` template at Unicode line breaks is therefore not modelled either.
- ThreadedServer.RunApplication: the application gets only the environment. The request body behind `wsgi.input` (the handler's `rfile`) is a socket stream and is not modelled. The application is one reply: it calls `start_response` exactly once, never with `exc_info`, and never calls the `write` callable it gets back. A second `start_response`, the `exc_info` re-raise path of `src/trabant/threaded_server.py:248-258` and output through `write` are not modelled.
- The `WSGIServer` defaults `hostname='localhost'`, `port=8080` and `files={}` are not modelled, because the address is only used to bind the socket. The constructor takes the mount tables as arguments.
- Rendering.Perform: when a looked-up sub-template then fails, Python keeps the cache entry it stored at `src/trabant/template.py:189`. The model returns only the error and drops the grown cache with it.
- AsyncServer.RequestHandler.StartBody and AsyncServer.RequestHandler.FoundTerminator: an error result stands for the exception Python raises. asyncore's `handle_error` then closes the connection; that is outside the model, which leaves `closed` and the other fields unchanged.
- AsyncServer.RequestHandler.FoundTerminator: for a method other than POST, Python sets no `wsgi.input`. The model hands the application the handler's body buffer, which is empty unless a body was collected.
- CallHandler, Route and BuildEnviron take the file-prefix rule and the port key as parameters. `FilePrefixAsWritten` and `PortKeyAsWritten` are the code as written; the corrected `FilePrefix` and `PortKey` are the ones the properties about served files and `SERVER_PORT` are stated for.

## Findings

| source | as written | input that shows it | evidently intended | confidence | as-written member | corrected member |
|---|---|---|---|---|---|---|
| src/trabant/threaded_server.py:162 | `search_path[:-1] != '/'` compares everything but the last character with `/`, so nearly every mount gains a `/` | the mount `/static/` becomes `/static//`, and `/static/style.css` is then never served | `search_path[-1:] != '/'`: add a `/` only when the mount does not end with one | not executed | ThreadedServer.FilePrefixAsWrittenDoublesSlash | ThreadedServer.FilePrefixIdempotent |
| src/trabant/threaded_server.py:222 | the server port is stored under `SERVER_POST` | any request: `SERVER_PORT` is missing from the environment, though PEP 333 requires it | the key `SERVER_PORT` | not executed | ThreadedServer.ServerPortMissing | ThreadedServer.EnvironOfApplication |
