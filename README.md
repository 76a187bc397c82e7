# AI Agent Toolkit in Dafny

This project models the deterministic core of `ai_agent_toolkit.py`, a small
Python tool collection. The core is four stateless helper classes:

- `TokenOptimizer.optimize_prompt` collapses white space, then deletes three
  stock Chinese phrases with `str.replace`.
- `MultiModalEnhancer.detect_modality` maps a file path's extension to
  `image`, `audio` or `video` through the `SUPPORTED_FORMATS` table.
- `APIMockGenerator.parse_openapi` flattens the `paths` member of a decoded
  OpenAPI document into an ordered list of endpoint records.
- `APIMockGenerator.generate_mock_code` and `generate_mock_server` emit the
  text of a Flask application with one view function per endpoint.
- `CodeCompletionAssistant.suggest_completion` offers snippets by trigger
  prefix.
- `CodeCompletionAssistant.generate_context_aware_suggestion` chooses a
  snippet from the name of the function being written.

None of these classes keeps state between calls. `usage_stats` and
`mock_templates` are written once and never read. Each class is therefore a
module, not a Dafny class:

| file | module | models |
|---|---|---|
| `wrappers.dfy` | `Wrappers` | `Option` and `Result` (failure-propagating `:-`) |
| `text.dfy` | `Text` | `str.split()`, `' '.join`, `str.replace`, `startswith`, substring `in`, ASCII `lower`/`upper`, `lstrip`, `str(int)` |
| `json.dfy` | `Json` | decoded JSON values, and `dict.get`, `dict.items`, `in`, `[]` and `str()` on them, with the Python exceptions they raise |
| `openapi_parser.dfy` | `OpenApiParser` | `parse_openapi` |
| `mock_emitter.dfy` | `MockEmitter` | `generate_mock_code`, `generate_mock_server` |
| `token_optimizer.dfy` | `TokenOptimizer` | `optimize_prompt` |
| `multimodal.dfy` | `MultiModal` | `SUPPORTED_FORMATS`, `detect_modality` |
| `code_completion.dfy` | `CodeCompletion` | `PYTHON_SNIPPETS`, `suggest_completion`, `generate_context_aware_suggestion` |

The source's loops become Dafny methods with loop invariants:

- the nested loops of `parse_openapi`;
- the `code +=` loop of `generate_mock_server`;
- the replacement loop of `optimize_prompt`;
- the early-return loop of `detect_modality`;
- the append loop of `suggest_completion`.

Each method is proved equal to a specification function. The properties are
proved as lemmas about that function.

The expression-only code (the mock template, the context-aware suggestion)
becomes functions.

### Modelling choices

- **Exceptions.** Python raises on values of the wrong kind, for example
  `"get": null` under a path makes `.get` raise `AttributeError`. Such
  exceptions are modelled as `Err` results.
- **Dicts.** A dict is a sequence of key/value pairs, in insertion order.
- **Clock.** The time stamp `datetime.now().isoformat()` is a parameter:
  one string per endpoint.

`parse_openapi` does not guard against malformed input, and the model keeps
that behaviour:

- it raises on an operation that is not a dict;
- it raises on a path value that `in` cannot search, or that holds a visited
  key without being a dict;
- it visits `get`, `post`, `put`, `delete` in that fixed order, whatever
  order the input uses.

`GroupOfNonObject`, `NullOperationRaises` and `KeyOrderExample` state these
behaviours.

### Definitions

These members define a Python operation directly; the lemmas in the table
below state what they mean.

- `Json.Lookup` (ai_agent_toolkit.py:119): the value of the first member with a key.
- `Json.Get` (ai_agent_toolkit.py:114): `d.get(key, default)`.
- `Json.Items` (ai_agent_toolkit.py:117): `d.items()`, the members in insertion order; anything but a dict raises AttributeError.
- `Json.In` (ai_agent_toolkit.py:119): `key in c`.
- `Json.Index` (ai_agent_toolkit.py:120): `c[key]`.
- `Json.Display` (ai_agent_toolkit.py:135): `str(v)` as an f-string uses it, a string as it is and anything else as its `repr`.
- `Json.Repr` (ai_agent_toolkit.py:135): `repr(v)`, how a value is written inside a list or dict when an f-string formats its container.
- `Text.StartsWith` (ai_agent_toolkit.py:205): `s.startswith(p)`.
- `Text.NatToString` and `Text.IntToString` (ai_agent_toolkit.py:135): `str(n)` for an integer, the decimal digits with a minus sign before those of a negative one.
- `Text.Concat` and `Text.NonSpace`: the words run together, and the characters that are not white space, used to state what `split()` keeps.

## Model

| member | source | states |
|---|---|---|
| Text.Split | ai_agent_toolkit.py:33 | `str.split()` returns only non-empty words free of white space |
| Text.SplitAtSpace | ai_agent_toolkit.py:33 | white space separates words: `str.split()` of `a + c + b` for a white-space `c` is the words of `a` followed by the words of `b`, so no word spans white space |
| Text.SplitKeepsText | ai_agent_toolkit.py:33 | the words `str.split()` returns, put back together, are exactly the text's characters that are not white space, in order |
| Text.Join | ai_agent_toolkit.py:33 | `sep.join(words)` starts with the first word, and its length is the words' total length plus one separator between each two words |
| Text.CollapseSingleSpaced | ai_agent_toolkit.py:33 | after `' '.join(prompt.split())` the only white space is a plain space, never at either end and never two in a row |
| Text.CollapseShorter | ai_agent_toolkit.py:33 | the whitespace step never lengthens the text |
| Text.SplitJoin | ai_agent_toolkit.py:33 | `split` gives back the words `' '.join` joined, when each is a non-empty run without white space |
| Text.CollapseIdempotent | ai_agent_toolkit.py:33 | collapsing white space twice is the same as collapsing it once |
| Text.Replace | ai_agent_toolkit.py:43 | `str.replace`: a replacement as long as the pattern keeps the length, and replacing the pattern by itself changes nothing |
| Text.ReplaceFirstOccurrence | ai_agent_toolkit.py:43 | `str.replace` replaces every occurrence, left to right and without overlap: when no occurrence of the pattern starts inside `a`, `(a + p + b).replace(p, r)` is `a + r` followed by `b.replace(p, r)` |
| Text.ReplaceBothOccurrences | ai_agent_toolkit.py:43 | two adjacent occurrences are both replaced: `(p + p).replace(p, r) == r + r`, so `"你能你能"` loses both |
| Text.ReplaceRemoves | ai_agent_toolkit.py:43 | when the pattern occurs, replacing it by shorter text makes the text strictly shorter |
| Text.DeleteChangesIff | ai_agent_toolkit.py:43 | `s.replace(p, "")` differs from `s` exactly when `p` occurs in `s` |
| Text.ReplaceShorter | ai_agent_toolkit.py:43 | `str.replace` with a replacement no longer than the pattern never lengthens the text |
| Text.DeleteIsSubsequence | ai_agent_toolkit.py:43 | `str.replace(p, "")` only removes characters: the result is a subsequence of the input |
| Text.ReplaceAbsent | ai_agent_toolkit.py:43 | `str.replace` leaves a text without the pattern unchanged |
| Text.ContainsAt | ai_agent_toolkit.py:216 | the substring test `in` holds exactly when the pattern occurs at some offset |
| Text.Lower | ai_agent_toolkit.py:70 | `lower()` keeps the length and maps each character by itself (ASCII letters to lower case, all else unchanged) |
| Text.Upper | ai_agent_toolkit.py:123 | `upper()` keeps the length and maps each character by itself (ASCII letters to upper case, all else unchanged) |
| Text.ReplaceChar | ai_agent_toolkit.py:134 | `replace('/', '_')` keeps the length and turns exactly the `/` characters into `_` |
| Text.LStrip | ai_agent_toolkit.py:70 | `lstrip(c)` leaves a suffix of the text that does not start with `c` |
| Text.LStripRemovesOnly | ai_agent_toolkit.py:70 | every character `lstrip(c)` removes is `c` |
| Json.LookupFinds | ai_agent_toolkit.py:119 | a dict has a key exactly when one of its members has it, and the value found is that member's |
| Json.LookupFirst | ai_agent_toolkit.py:119-120 | the value looked up under a key is that of the first member with the key |
| Json.GetByPosition | ai_agent_toolkit.py:114-124 | `d.get(key, default)` raises AttributeError for anything but a dict; on a dict it gives the default when no member has the key, and otherwise the value of the first member with the key |
| Json.InMeaning | ai_agent_toolkit.py:119 | `key in c` raises TypeError unless `c` is a dict, list or string; otherwise it holds exactly when some member has the key, some element equals the string, or the key occurs in the string at some offset |
| Json.IndexByPosition | ai_agent_toolkit.py:120 | `c[key]` raises TypeError for anything but a dict; on a dict it raises KeyError when no member has the key, and otherwise gives the value of the first member with the key |
| OpenApiParser.ParseOpenapi | ai_agent_toolkit.py:110-128 | the method returns the endpoint list, or raises the exception, that the specification function `Parse` gives |
| OpenApiParser.PathEndpointsOf | ai_agent_toolkit.py:118-126 | the inner loop for one path returns the records of the four keys, in key order, or the first exception |
| OpenApiParser.ParseWithoutPaths | ai_agent_toolkit.py:114-117 | a document without `paths`, or with an empty `paths`, yields `[]` |
| OpenApiParser.ParseOuterShape | ai_agent_toolkit.py:114-117 | a document that is not a dict, or whose `paths` is not a dict, raises AttributeError; otherwise the result is the loop over the members of `paths` |
| OpenApiParser.GroupOfObject | ai_agent_toolkit.py:118-126 | for a path whose value is a dict: the inner loop succeeds exactly when each operation under `get`/`post`/`put`/`delete` is a dict, and otherwise raises AttributeError. On success there is one record per key present and no other, each with the path verbatim, the upper-cased key, the summary (default `""`) and the responses (default `{}`), in the order get, post, put, delete |
| OpenApiParser.GroupOfNonObject | ai_agent_toolkit.py:118-119 | a path whose value is not a dict yields nothing, unless a visited key is `in` it (a list element or a substring) or `in` cannot be asked at all; then it raises TypeError |
| OpenApiParser.GroupDependsOnlyOnVisitedKeys | ai_agent_toolkit.py:115-119 | a path's records depend only on its values under the visited keys, not on the order of its members and not on other members |
| OpenApiParser.GroupAtMost | ai_agent_toolkit.py:118-126 | a path contributes at most one record per visited key |
| OpenApiParser.CollectLength | ai_agent_toolkit.py:117-126 | the result has at most 4 × (number of paths) records |
| OpenApiParser.CollectSucceeds | ai_agent_toolkit.py:117-126 | the loop over all paths succeeds exactly when the inner loop of every path does |
| OpenApiParser.CollectMembers | ai_agent_toolkit.py:117-126 | the records collected are exactly the records of the individual paths |
| OpenApiParser.CollectAppend | ai_agent_toolkit.py:117 | records are grouped by path in the order of the `paths` members, and the first exception wins |
| OpenApiParser.PathEndpointsErrorPersists | ai_agent_toolkit.py:118-120 | an exception at one key of the inner loop ends the whole inner loop with that exception |
| OpenApiParser.CollectErrorPersists | ai_agent_toolkit.py:117-120 | an exception while visiting one path ends the whole loop with that exception |
| OpenApiParser.EndpointForObject | ai_agent_toolkit.py:119-126 | one key of a dict-valued path: no record when absent, one record when its operation is a dict, AttributeError otherwise |
| OpenApiParser.UpperMethodNames | ai_agent_toolkit.py:115-123 | the upper-cased keys are `GET`, `POST`, `PUT`, `DELETE`, in visiting order |
| OpenApiParser.SinglePath | ai_agent_toolkit.py:117 | a document with a single path yields exactly that path's records |
| OpenApiParser.FourKeys | ai_agent_toolkit.py:115-118 | the inner loop is the four key steps in the order get, post, put, delete |
| OpenApiParser.KeyOrderExample | ai_agent_toolkit.py:115-119 | members `delete`, `get`, `GET`, `patch` (the last two null) give the `GET` record and then the `DELETE` record, and `GET` and `patch` are ignored |
| OpenApiParser.RecordExample | ai_agent_toolkit.py:121-126 | summary and responses are copied, with `""` and `{}` for absent members |
| OpenApiParser.NullOperationRaises | ai_agent_toolkit.py:120-124 | `"get": null` under a path raises AttributeError |
| MockEmitter.HandlerName | ai_agent_toolkit.py:134 | the function name is `mock_` followed by as many characters as the method and the path have together, and no `/` of the path is left in it |
| MockEmitter.MockCode | ai_agent_toolkit.py:130-145 | the code for one endpoint opens with an empty line and the route decorator `@app.route("<path>", methods=["<METHOD>` for that endpoint; `ReadMockCode` reads all its fields back |
| MockEmitter.ReadMockCode | ai_agent_toolkit.py:130-145 | for an endpoint whose path and method contain no `"` or `(`, and whose displayed summary and time stamp contain no `"`: the view function reads back as its route (path verbatim), methods list (method verbatim), function name `mock_` + lower-cased method + path with `/` turned into `_`, docstring (the summary), message and time stamp, whatever text follows it |
| MockEmitter.HandlerNamesCollide | ai_agent_toolkit.py:134 | `/a_b` and `/a/b` give the same function name: collisions are not resolved |
| MockEmitter.HandlerNameInjective | ai_agent_toolkit.py:134 | without `_` in paths and methods, and with paths starting with `/`, two function names are equal exactly when the paths are equal and the methods are equal up to case |
| MockEmitter.GenerateMockServer | ai_agent_toolkit.py:147-165 | the output is the fixed header, then each endpoint's view function followed by `\n` in input order, then the fixed footer |
| MockEmitter.ServerRoundTrip | ai_agent_toolkit.py:147-165 | the generated file reads back as one view function per endpoint, in order, each with that endpoint's fields and time stamp |
| MockEmitter.EmptyServer | ai_agent_toolkit.py:149-165 | with no endpoints the file is the header followed by the footer, and it reads back as no view function |
| MockEmitter.EpiloguePort | ai_agent_toolkit.py:160-164 | the footer contains `port=5000` |
| TokenOptimizer.OptimizePrompt | ai_agent_toolkit.py:30-45 | the result is the white-space-collapsed prompt with the three phrases deleted in table order; it is never longer than the prompt and is a subsequence of the collapsed prompt |
| TokenOptimizer.OptimizedShorter | ai_agent_toolkit.py:33-43 | the optimised prompt is no longer than the collapsed prompt, which is no longer than the prompt |
| TokenOptimizer.OptimizedDeletes | ai_agent_toolkit.py:36-43 | the deletions only remove characters from the collapsed prompt |
| TokenOptimizer.OptimizedWithoutPhrases | ai_agent_toolkit.py:33-43 | a prompt without the phrases comes back collapsed and otherwise unchanged, single spaced, and optimising it again changes nothing |
| TokenOptimizer.OptimizedSteps | ai_agent_toolkit.py:36-43 | the loop is the three `replace` calls, in the order 请帮助我, 你能, 我需要 |
| TokenOptimizer.ApplyAllShorter | ai_agent_toolkit.py:42-43 | replacements by nothing longer never lengthen the text |
| TokenOptimizer.ApplyAllDeletes | ai_agent_toolkit.py:42-43 | replacements by `""` leave a subsequence of the text |
| TokenOptimizer.ApplyAllAbsent | ai_agent_toolkit.py:42-43 | phrases that do not occur leave the text unchanged |
| TokenOptimizer.DeletionLeavesDoubleSpace | ai_agent_toolkit.py:42-43 | `a 你能 b` becomes `a  b`: after a deletion the text need not be single spaced |
| TokenOptimizer.DeletionFormsEarlierPhrase | ai_agent_toolkit.py:42-43 | `请帮你能助我` becomes `请帮助我`, which optimises to `""`: optimising is not idempotent |
| MultiModal.DetectModality | ai_agent_toolkit.py:68-76 | the result is the first modality, in table order, whose list holds the extension, and it is `None` exactly when no list holds it |
| MultiModal.FindModality | ai_agent_toolkit.py:72-76 | the early-return loop gives the first modality whose list holds the extension, and `None` exactly when no list holds it |
| MultiModal.Extension | ai_agent_toolkit.py:70 | `suffix.lower().lstrip('.')` never contains a dot |
| MultiModal.ExtensionOf | ai_agent_toolkit.py:70 | the extension is empty when the file name has no dot, or when its last dot is its first or its last character; otherwise it is the lower-cased text after the last dot. It never contains a dot |
| MultiModal.StemExtension | ai_agent_toolkit.py:70 | a file name `stem.ext` with no dot in `ext` has extension `ext` in lower case, whatever dots `stem` holds |
| MultiModal.Name | ai_agent_toolkit.py:70 | `Path.name` is no longer than the path, contains no `/` and is never `.` |
| MultiModal.NameInDirectory | ai_agent_toolkit.py:70 | the name of `d/n`, for a component `n`, is `n` whatever `d` holds |
| MultiModal.DirectoryIgnored | ai_agent_toolkit.py:70 | `d/n` has the same extension as `n`: the directory part does not count |
| MultiModal.Suffix | ai_agent_toolkit.py:70 | `Path.suffix` is empty exactly when the name's last dot is missing, first or last; otherwise it ends the name and is a dot followed by at least one character that is not a dot |
| MultiModal.RFind | ai_agent_toolkit.py:70 | `rfind` returns -1 or the index of a `c` with no `c` after it |
| MultiModal.FormatsDisjoint | ai_agent_toolkit.py:62-66 | no extension is listed under two modalities |
| MultiModal.ModalityIff | ai_agent_toolkit.py:62-76 | a modality is reported exactly when its list holds the extension |
| MultiModal.FirstModalityAt | ai_agent_toolkit.py:72-74 | the first list holding the extension names the modality |
| MultiModal.FirstModalityNone | ai_agent_toolkit.py:72-76 | no list holding the extension gives `None` |
| MultiModal.FirstModalityFound | ai_agent_toolkit.py:72-74 | a reported modality has a list holding the extension |
| MultiModal.UpperCaseExtension | ai_agent_toolkit.py:70-74 | `Cat.JPG` has extension `jpg` and is an image |
| MultiModal.HiddenFile | ai_agent_toolkit.py:70-76 | `.png` has no extension and no modality |
| MultiModal.LastSuffixOnly | ai_agent_toolkit.py:70-76 | `a.tar.gz` has extension `gz` and no modality |
| MultiModal.TrailingSlash | ai_agent_toolkit.py:70-74 | `v.mp4/` has extension `mp4` and is a video |
| CodeCompletion.SuggestCompletion | ai_agent_toolkit.py:200-209 | for a language that lower-cases to `python` (the default), the snippets whose trigger starts the prefix, in table order; for any other language, none |
| CodeCompletion.MatchingMembers | ai_agent_toolkit.py:204-206 | a snippet is offered exactly when an entry holding it has a trigger that starts the prefix |
| CodeCompletion.AtMostOneMatch | ai_agent_toolkit.py:204-206 | with prefix-free triggers at most one snippet is offered |
| CodeCompletion.PythonTriggersPrefixFree | ai_agent_toolkit.py:171-198 | none of `fprint`, `fmain`, `fclass`, `ftry` starts another |
| CodeCompletion.AtMostOneSuggestion | ai_agent_toolkit.py:171-209 | at most one snippet is ever suggested |
| CodeCompletion.CompletionExamples | ai_agent_toolkit.py:204-206 | `fmain()` gets the `fmain` snippet, and a bare `f` gets none |
| CodeCompletion.ContextAwareSuggestion | ai_agent_toolkit.py:211-222 | the call fails exactly when the context is not a dict (AttributeError) or its `function_name` is not a string, list or dict (TypeError); otherwise the result is the `fmain` snippet, the `fclass` snippet or `""` |
| CodeCompletion.SuggestionByName | ai_agent_toolkit.py:213-222 | for a string name: the `fmain` snippet when `main` occurs in it, otherwise the `fclass` snippet when `class` does, otherwise `""` |
| CodeCompletion.NoNameNoSuggestion | ai_agent_toolkit.py:213-222 | a context without `function_name` gets `""` |
| CodeCompletion.MainBeforeClass | ai_agent_toolkit.py:216-220 | `main_class` gets the `fmain` snippet: `main` is tested first |
| CodeCompletion.CaseSensitive | ai_agent_toolkit.py:216-222 | `MyClass` gets `""`: the test is case-sensitive |
| CodeCompletion.NameList | ai_agent_toolkit.py:216-222 | a list name is searched for an element equal to `main` or `class` |
| CodeCompletion.SuggestionErrors | ai_agent_toolkit.py:213-216 | a numeric name raises TypeError; a context that is not a dict raises AttributeError |

## Left out

- `TokenOptimizer.estimate_tokens` is not modelled: it is floating-point arithmetic (`* 1.5`, `* 0.3`, `int(...)`).
- `MultiModalEnhancer.analyze_image` and `extract_audio_features` are not modelled: they return fixed dictionaries and have no behaviour to verify.
- `AIAgentToolkit.use_tool` is not modelled: it dispatches by reflection (`hasattr`, `getattr`, `**kwargs`).
- `AIAgentToolkit.list_tools` is not modelled: it returns a fixed dictionary with floating-point confidences.
- The `__main__` demonstration is not modelled: it only prints to the console.
- The fields `usage_stats` and `mock_templates` are left out: they are never read or updated.
- `datetime.now().isoformat()` is not modelled: the clock becomes a parameter, `stamps[i]` being the reading taken for endpoint `i`.
- `generate_context_aware_suggestion` reads `context.get("parameters", [])` and never uses it. The model leaves that read out, because once the first `get` has succeeded it cannot raise.
- Text.Lower: `str.lower()` and `str.upper()` are modelled on ASCII letters only, not on the full Unicode case tables. This is exact for the comparisons made with `"python"` and with the extension lists.
- Text.IsSpace: white space is exactly the 29 code points for which Python's `str.isspace()` holds.
- Numbers in decoded documents are integers only; floating-point values are not modelled.
- A `JObj` whose members repeat a key stands for no Python dict, which holds each key once. The model does not exclude such values: lookups take the first member with the key, while `items()` would list the key twice.
- Json.Repr: `str()` of a string nested in a list or dict always uses single quotes, without escaping.
- MultiModal.Extension: the path is a string and `Path` is a POSIX path. The suffix rule is the one where a name ending in a dot has no suffix.
- MultiModal.DetectModality: the format table is a parameter standing for `self.SUPPORTED_FORMATS`. The lemmas about the class's own table use `SupportedFormats`.
- MockEmitter.ReadMockCode: reading back is proved only for endpoints whose path and method contain no `"` or `(`, and whose displayed summary and time stamp contain no `"`. Other characters make the generated text ambiguous to read back.
- MockEmitter.ServerRoundTrip: the round trip is proved only for endpoints whose path and method contain no `"` or `(`, and whose summary and time stamp contain no `"`. Other characters make the generated text ambiguous to read back.
- MockEmitter.HandlerNameInjective: injectivity is proved only for paths that start with `/` and paths and methods without `_`. `HandlerNamesCollide` shows why this restriction is needed.
- OpenApiParser.ParseOpenapi: Python appends every record to one list across paths. The model builds each path's records separately and then appends them, which gives the same list because an exception discards it.
