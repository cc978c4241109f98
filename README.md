# boiled: the method rewriter, modelled in Dafny

`boiled` removes boilerplate from a generated OpenAPI client. A generated
operation such as `something_post(some_settings: Optional[SomeSettings])`
takes one options object. `boiled` replaces the operation, in the API
object's attribute table, by a wrapper that takes the options type's fields
directly, builds the options object and calls the operation with it.

This project models that rewriter (`boiled.py`) and proves what it does:

- `Eligibility`: which attribute names are operations to wrap (`get_methods`).
- `Detector`: the one options parameter of an operation (`get_argument`).
- `Synth`: splitting the options type's parameters into required and
  defaulted ones, and the flattened signature (`get_args_kwargs`,
  `make_params_pos`, `make_params_kw`, `make_signature`).
- `Docs`: the parameter text appended to the docstring (`signature_to_doc`, `indent`).
- `Forward`: what the wrapper closures do with their arguments
  (`make_config_type_wrapper`'s `func_outer`, `wrap_method`'s `wrapper`).
- `Rewriter`: `wrap_method`, and `wrap_api`, which rewrites the table of an
  `Api` object in place.
- `Descriptors`, `Text`, `Wrappers`: the descriptors that stand for Python
  reflection, Python string operations, and `Option`/`Result`.

Python reflection is replaced by explicit descriptors. An operation is its
name, docstring and ordered `__annotations__`. An annotation is its list of
type arguments. An options type is its name and its ordered constructor
parameters, each with or without a default. `str(inspect.Parameter)` is a
function parameter `render`. The API object is a class holding its attribute
table (`map<string, Attribute>`) and the names `dir` lists for it.

Each loop in the source is a method proved against a specification function.
`GetMethods`/`Examine`, `GetArgument`, `GetArgsKwargs`, `SignatureToDoc` and
`WrapApi` are proved equal to `EligibleNames`/`Classify`, `Detect`,
`Required`/`Defaulted`, `DocText` and `WrapAll`. The lemmas state what those
functions mean.

Where the code does not do what its docstrings and error messages suggest, the model follows the code:

- A name given both positionally and by keyword makes the wrapper raise
  (`func_inner(**dargs, **kwargs)`, boiled.py:197). The keyword does not win.
- `get_methods` is a generator that `wrap_api` consumes lazily. When a name
  with an unsupported verb, or an unwrappable operation, stops `wrap_api`,
  the entries before it are already replaced (`WrapAllPartial`).
- The docstring text lists every constructor parameter, private ones too.
  Only the signature leaves out `_`-prefixed parameters.
- The errors meant at boiled.py:70 and boiled.py:124 are `ValueError`s. As
  written, both raise `NameError`, because `ALLOWED_SUFFICES` and `f` are
  undefined. Both are modelled as one `ConfigurationError`.
- Defaults are not filled in by the wrapper. The options type's own
  constructor applies them. The model records the keyword arguments that the
  constructor receives.

## Model

| member | source | states |
|---|---|---|
| `Text.LastToken` | boiled.py:68 | the result is a suffix of the name without `_`, and is preceded by `_` unless it is the whole name |
| `Text.LastTokenAfter` | boiled.py:68 | the last token is exactly what follows the last underscore |
| `Text.Repeat` | boiled.py:135 | `c * n` has length n and every character is c |
| `Text.SplitJoin` | boiled.py:147 | splitting `"\n".join(lines)` at newlines gives the lines back when no line holds a newline |
| `Eligibility.Examine` | boiled.py:55-72 | the generator's checks for one name (private, ignored, ignore suffix, verb) decide skip, yield or raise as `Classify` says |
| `Eligibility.GetMethods` | boiled.py:48-72 | the enumeration loop returns exactly the yielded names of `EligibleNames`, or its error |
| `Eligibility.EligibleNamesSound` | boiled.py:54-72 | every yielded name is an input name, is not private, ignored or an alternate form, and ends in `get`, `post` or `put` |
| `Eligibility.EligibleNamesExact` | boiled.py:54-72 | the enumeration succeeds iff every unskipped name has a supported verb, and then yields exactly the unskipped names |
| `Eligibility.EligibleNamesAppend` | boiled.py:54 | names are yielded in `dir` order: enumerating a + b is enumerating a, then b |
| `Eligibility.AlternateFormsSkipped` | boiled.py:61-66 | `<op>_with_http_info` and `<op>_without_preload_content` are passed over for every op |
| `Eligibility.UnsupportedVerbAborts` | boiled.py:68-70 | `foo_delete` aborts the enumeration with a configuration error |
| `Eligibility.GeneratedClientNames` | boiled.py:54-72 | on a generated client's names only the operation `something_post` is yielded |
| `Detector.GetArgument` | boiled.py:101-126 | the annotation loop and count return what `Detect` gives |
| `Detector.QualifyingMembers` | boiled.py:107-111 | an annotation qualifies iff its name is not `_`-prefixed and not `return` |
| `Detector.CollectQualifying` | boiled.py:105-113 | collection fails iff a qualifying annotation has no type argument; otherwise it pairs each qualifying name with its first type argument, in order |
| `Detector.DetectCases` | boiled.py:118-126 | no qualifying annotation gives none, exactly one gives its name and first type argument, two or more give a configuration error |
| `Detector.PrivateAndReturnIgnored` | boiled.py:107-111 | private and return annotations beside one options parameter do not make the operation ambiguous |
| `Synth.GetArgsKwargs` | boiled.py:166-183 | the loop returns `Required` and `Defaulted` of the options type's parameters |
| `Synth.PartitionAppend` | boiled.py:174-181 | both parts keep declaration order: the parts of a + b are the parts of a followed by those of b |
| `Synth.PartitionMembership` | boiled.py:174-181 | a public parameter without default is in `args`; one with a default is in `kwargs` with that default; nothing private is in either |
| `Synth.PartitionDistinct` | boiled.py:170-183 | with distinct constructor names, no name is in both parts and the names of both stay distinct |
| `Synth.MakeParamsPos` | boiled.py:212-216 | the parameters carry the given names in order, none with a default |
| `Synth.MakeParamsKw` | boiled.py:219-223 | the parameters carry the mapping's names in order, each with its default |
| `Synth.MakeSignature` | boiled.py:202-209 | `inspect.Signature` accepts the list iff the names are distinct; it is the required names, then the defaulted ones with their defaults |
| `Synth.SignatureMatchesOptions` | boiled.py:198 | the flattened signature is always accepted and has exactly the public constructor parameters with their own defaults |
| `Synth.ExamplePartition` | boiled.py:166-183 | mandatory `a`, `b` and `c` with a default split into `[a, b]` and `{c: default}` |
| `Synth.ExampleSignature` | boiled.py:202-223 | that split gives the signature `(a, b, c=default)` |
| `Docs.Indent` | boiled.py:150-155 | same length; a line is empty iff it was; a non-empty line is n spaces followed by the original |
| `Docs.DocLines` | boiled.py:133-144 | blank line, header `Parameters for <Name>:`, a dash line as long as the header, one rendered line per parameter in order, blank line |
| `Docs.SignatureToDoc` | boiled.py:129-147 | the built, indented and joined list is `DocText` |
| `Docs.DocReadsBack` | boiled.py:129-155 | read back line by line, the text has one line per parameter plus four, the indented header and underline, and each parameter's line in order |
| `Forward.Zip` | boiled.py:196 | the i-th positional value binds the i-th name; values beyond the names are dropped |
| `Forward.ZipLastWins` | boiled.py:196 | a name repeated among the zipped names keeps the value of its last occurrence |
| `Forward.Apply` | boiled.py:89-93 | a generated operation receives its arguments as given; a wrapper builds the options object through `ConfigCall` and calls the callable it wraps with no positional argument, reaching the generated operation at the bottom; the only failure is a duplicate keyword |
| `Forward.ConfigCall` | boiled.py:195-197 | the constructor gets the zipped values and the keywords; a name given both ways is a duplicate-keyword error |
| `Forward.ExtraPositionalDropped` | boiled.py:196 | positional values beyond the required names change nothing |
| `Forward.CallExamples` | boiled.py:195-197 | `op(1, 2)` passes `a=1, b=2`; `op(a=1, b=2, c=9)` passes `c=9`; `op(1, a=2)` is refused |
| `Forward.WrapperForwards` | boiled.py:89-93 | a wrapper calls the operation with one keyword argument, the options object built from the positional values and keywords |
| `Rewriter.WrapMethod` | boiled.py:75-98 | returns what `Wrap` gives for the attribute |
| `Rewriter.WrapMethodCases` | boiled.py:79-98 | no options parameter returns the callable itself; a detection error is raised; a missing docstring is an error; otherwise the wrapper keeps annotations, appends the parameter text to the docstring, shows `make_signature` of the required and defaulted parameters (exactly the public constructor parameters with their defaults) and forwards every call |
| `Rewriter.WrapAll` | boiled.py:40-45 | the table keeps exactly its names |
| `Rewriter.WrapApi` | boiled.py:36-45 | the table is rewritten in place as `WrapAll` says, and on success the same API object is returned |
| `Rewriter.WrapAllExact` | boiled.py:40-45 | success iff the enumeration succeeds and every eligible entry wraps; then exactly the eligible entries are replaced by `wrap_method` of their old value |
| `Rewriter.WrapAllPartial` | boiled.py:40-43 | whatever the outcome, each entry is unchanged or, for a yielded name, `wrap_method` of its old value |
| `Rewriter.UsageExample` | example/example-boiled.py:8 | after wrapping, `something_post(mandatory1=.., mandatory2=..)` calls the operation with `some_settings=SomeSettings(mandatory1=.., mandatory2=..)` |

## Left out

- `boiled()` and its `contextlib.contextmanager` scope with `ApiClient` (boiled.py:23-33). These are resource lifecycle over the foreign client and transport, so the scoped-release property is not modelled.
- Python reflection itself (`dir`, `getattr`, `setattr`, `__annotations__`, `__signature__`, `functools.wraps`). Explicit descriptors replace it. Copying `__name__`, `__module__` and `__qualname__` onto the wrapper is not modelled.
- The order `dir` lists names in (sorted). The model takes the listed names as given, distinct, and equal to the table's names.
- The text of `str(inspect.Parameter)`. It is the `render` parameter.
- What the options type's constructor does with its keyword arguments (defaults, validation). Errors the generated operation raises when called are also left out. Both belong to the generated client and are only passed through.
- Annotation type arguments that are not options types. `signature_to_doc` on such a type fails in Python.
- `inspect.Parameter` refusing a name that is not an identifier. Names read from a Python signature always are identifiers.
- `example/example-original.py` and the rest of `example/example-boiled.py`. They call the generated client and hold no logic.
- Rewriter.WrapMethodCases: the wrapped case assumes distinct constructor parameter names. A Python signature guarantees this; with duplicates `MakeSignature` gives `InvalidSignature`.
