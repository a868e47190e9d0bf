# docments — per-parameter documentation from comments, in Dafny

This project models the decision logic of fastcore's `docments` module, which works out
per-parameter documentation ("docments") for a Python callable or dataclass. A parameter
gets its documentation from three places. The first is a comment on the parameter's own
line, or a block of comment lines just above it. The second is the numpy-style docstring's
`Parameters` and `Returns` sections. The third is the parameter's annotation, or else the
type of its default. When a callable delegates its keyword arguments to another
(`__delwrap__`), the delegate's docments are folded in underneath the caller's.

The model treats source text, the token stream, the parsed module body, the parsed
docstring, the signature and the evaluated type hints as inputs that are already
extracted. On those inputs every step is a pure function:

| module | file | models |
|---|---|---|
| `Wrappers` | wrappers.dfy | `Option`, `Result`, the two exceptions that escape (`AttributeError`, the signature failure), `dict.get` |
| `PyText` | py_text.dfy | `str.isspace`, `str.strip`, `'\n'.join`, `reversed` |
| `Textwrap` | textwrap.dfy | `textwrap.dedent` on a list of lines |
| `Dicts` | dicts.dfy | insertion-ordered `dict` and item assignment |
| `Comments` | comments.dfy | `_clean_comment`, the line → comment map, `_get_comment` |
| `ParamLocations` | param_locs.dfy | `_param_locs` over an abstract module body |
| `Records` | records.dfy | `_get_full`, `_merge_doc`, `_merge_docs` |
| `Docments` | docments.dfy | `_docments` for one callable, the overlay of `_update_docments`, `docments` |
| `Scenario` | scenario.dfy | a worked example run through the whole pipeline |

Python values are modelled only as far as the code looks at them:

- A value (annotation or default) is `Empty` (`Parameter.empty`), or an object with its
  type name, its text and its truth value.
- Doc text is `Option<string>`. It "has doc" when it is neither `None` nor `""`.

## Model

| member | source | states |
|---|---|---|
| Comments.CleanCommentIsMatch | fastcore/docments.py:62-65 | whatever `_clean_comment` returns is the group of a match of `^\s*#(.*)\s*$`: whitespace, `#`, a newline-free group, then only whitespace |
| Comments.MatchIsCleanComment | fastcore/docments.py:62-65 | whenever the regular expression matches, `_clean_comment` returns exactly that group, so None means the expression does not match |
| Comments.CleanCommentToken | fastcore/docments.py:62-65 | optional whitespace, `#`, then newline-free text gives exactly that text, unstripped |
| Comments.BareHashIsEmpty | fastcore/docments.py:62-65 | a bare `#` gives the empty string, not None |
| Comments.CleanTokenText | fastcore/docments.py:62-65 | a well-formed comment token cleans to the text after its `#` |
| Comments.CommentMapOf | fastcore/docments.py:139 | the comment map's keys are exactly the start lines of the comment tokens; on each line the last comment token's text after `#` is kept |
| Comments.RunAboveIsBlock | fastcore/docments.py:87-91 | the block above a line is the longest run of consecutive comment lines that never reaches line 0 and holds no parameter's line, in line order |
| Comments.CommentFor | fastcore/docments.py:85-92 | a same-line comment gives that comment stripped; otherwise None exactly when the line above has no comment, is a parameter's line or is line 0; otherwise the dedented block above |
| Comments.SameLineCommentWins | fastcore/docments.py:86 | with a same-line comment, neither the lines above nor the parameter lines change the result |
| Comments.CollectAbove | fastcore/docments.py:87-91 | the upward `while` loop collects the block above, bottom to top |
| Comments.GetComment | fastcore/docments.py:85-92 | the loop-based `_get_comment` returns what `CommentFor` specifies |
| PyText.StripIsTrimmed | fastcore/docments.py:86 | `strip` removes a whitespace prefix and suffix and leaves a result that neither starts nor ends with whitespace |
| PyText.TrimmedIsStrip | fastcore/docments.py:86 | every such trimming of a string is the one `strip` performs |
| Textwrap.Margin | fastcore/docments.py:92 | the dedent margin is absent exactly when every line is blank; otherwise it is spaces and tabs and a prefix of every non-blank line |
| Textwrap.MarginIsLongest | fastcore/docments.py:92 | every run of spaces and tabs that all non-blank lines start with is a prefix of the margin |
| Textwrap.DedentLines | fastcore/docments.py:92 | blank lines become empty; every other line is the margin followed by its dedented text |
| Textwrap.DedentOneLine | fastcore/docments.py:92 | a single line loses exactly its own leading spaces and tabs |
| Dicts.Put | fastcore/docments.py:74 | item assignment: the key maps to the value, a new key goes last and an existing key keeps its place |
| ParamLocations.ArgLocsOf | fastcore/docments.py:73 | `{arg.lineno: arg.arg ...}` has one key per argument line, and the last argument on a line gives the name |
| ParamLocations.Fields | fastcore/docments.py:77 | the fields are the annotated assignments of the class body in body order: the `k`-th field is the assignment at the `k`-th of the strictly increasing positions of annotated assignments |
| ParamLocations.ParamLocs | fastcore/docments.py:67-79 | a map exactly for a single `def`, or a single class of a dataclass; AttributeError exactly for a dataclass whose single statement has no body; the return annotation's line maps to `return` when `returns` is set |
| ParamLocations.FunctionLocs | fastcore/docments.py:72-75 | a `def`'s map has the `args.args` lines plus the return line when `returns` is set; the return entry overrides a parameter on the same line |
| ParamLocations.DataclassLocs | fastcore/docments.py:76-78 | a dataclass maps exactly the lines of its annotated fields; each line is mapped to the target of the last annotated field on it |
| Records.GetFull | fastcore/docments.py:94-96 | the default passes through; the doc text is the name's lookup in `docs`; a missing annotation becomes the default's type exactly when there is a default |
| Records.MergeDoc | fastcore/docments.py:99-103 | no entry leaves the record unchanged; a true, non-empty annotation and existing doc text are never replaced; the default is never touched |
| Records.MergeDocIdempotent | fastcore/docments.py:99-103 | merging the same entry twice is the same as merging it once |
| Records.MergeDocFirstWins | fastcore/docments.py:99-103 | over two merges, the first entry with a description and the first with a type decide |
| Records.MergeDocs | fastcore/docments.py:105-109 | the key set is unchanged; each key is merged with its `Parameters` entry, and `return` further with `Returns` |
| Records.DocstringOnlyNamesDropped | fastcore/docments.py:105-109 | a name only the docstring mentions never appears |
| Docments.DocsOf | fastcore/docments.py:141 | the docs comprehension has one key per name, and the name's last line in iteration order decides its doc text |
| Docments.Items | fastcore/docments.py:141 | `parms.items()` lists each key of the dict exactly once, with its value, in insertion order |
| Docments.DocsNames | fastcore/docments.py:140-141 | the names given docs are exactly the names in the location map, each with the comment for its last line |
| Docments.Provisional | fastcore/docments.py:143-145 | one record per signature parameter, built by `_get_full` from its annotation, name and default; plus `return` exactly when `returns` is set, built from the return annotation with no default |
| Docments.Locations | fastcore/docments.py:140 | `_param_locs(...) or {}`: None becomes the empty map, any map is used as it is |
| Docments.ApplyHints | fastcore/docments.py:147-150 | a type hint replaces the annotation of its key and changes nothing else |
| Docments.LevelDocments | fastcore/docments.py:135-151 | `_docments` fails exactly when `_param_locs` does; its keys are the signature's parameters plus `return` when `returns` is set |
| Docments.CommentBeatsDocstring | fastcore/docments.py:141-146 | doc text from the comments is never replaced by the docstring |
| Docments.DefaultTypeIsAnnotation | fastcore/docments.py:144-146 | with no annotation and no type hint, a parameter with a default is annotated with the default's type |
| Docments.ParameterRecordKept | fastcore/docments.py:143-150 | a parameter's default is always kept; a non-missing annotation is kept unless a type hint for the name applies |
| Docments.ReturnDocFallback | fastcore/docments.py:105-109 | the `return` doc text is the comment's if it has doc text; otherwise the `Parameters` entry named `return`, joined, if not empty; otherwise, when a `Returns` entry exists, its joined description, even if empty; with neither entry, the comment's value |
| Docments.DocstringFillsGap | fastcore/docments.py:141-146 | a parameter the comments leave undocumented takes its `Parameters` description |
| Wrappers.AllOrFirstFailure | fastcore/docments.py:161-163 | the levels' results all succeed, or the evaluation fails exactly when some level fails |
| Docments.LevelResults | fastcore/docments.py:161-163 | each level of the delegation chain is run through `_docments` |
| Docments.FoldLevels | fastcore/docments.py:161-166 | the folded result only has keys among the caller's parameters and `return` |
| Docments.FoldPicksWinner | fastcore/docments.py:161-163 | a key is kept exactly when it is a caller parameter some level has; its record is the outermost one with doc text, or else the outermost one |
| Docments.DelegationPrecedence | fastcore/docments.py:161-163 | a wrapper's own doc text wins over its delegate's; without one, the delegate's shows through |
| Docments.DocmentsOf | fastcore/docments.py:154-168 | a signature failure propagates; `full` decides records versus doc text; keys are among the parameters plus `return` |
| Docments.DocmentsResult | fastcore/docments.py:154-168 | each key of `docments` and its value, for both `full` settings, in terms of the chain's levels |
| Scenario.FComments | fastcore/docments.py:139 | in the example, the comment map holds lines 2 and 4 with their unstripped text |
| Scenario.FDocs | fastcore/docments.py:141 | in the example, `a` takes the comment block above it and `b` its stripped same-line comment |
| Scenario.FullRecords | fastcore/docments.py:154-168 | the example's full records, with `b` annotated by its default's type and `return` undocumented |
| Scenario.DocTextOnly | fastcore/docments.py:166-167 | the example's doc-text projection keeps `return`, with None as its doc text |

## Left out

- Source retrieval, tokenizing and parsing (`getsource`, `get_source`, `get_dataclass_source`, `_tokens`, `_parses`, `tokenize`, `ast.parse`) are library calls. The model takes their results as inputs: the comment tokens with their lines, and the module body's statements.
- The docstring parser (`docscrape.NumpyDocString`, `docstring`, `parse_docstring`) is not part of this model. A parsed docstring is a map from names to `Parameters` entries plus one optional `Returns` entry.
- `signature`, `signature_ex` and `type_hints` are introspection. The signature and the evaluated hints are inputs, and a failing `signature(elt)` is an input flag.
- `get_name`, `qual_name` and `_get_property_name` probe attributes dynamically and feed nothing in the modelled logic.
- The constructor swap for a plain class (`s = s.__init__`, fastcore/docments.py:138) is not modelled. Each level is given directly as the callable whose source and signature are used.
- Delegation is a finite chain of levels. A cyclic `__delwrap__` chain, which recurses without end in Python, is not expressible.
- `AttrDict`'s attribute access and key order are not modelled. Results are unordered maps.
- Python equality on annotations and defaults is taken to be structural. Objects with unusual `==` or `!=`, such as numpy arrays, are not modelled.
- `\s` in `_clean_comment` is taken to be the set of characters `str.isspace` accepts. The tokenizer's guarantee that a comment token starts with `#` and holds no newline is a precondition (`WellFormed`).
- The unused `arg` parameter of `_get_comment` is dropped.
- `returns` is renamed `withReturn`, because `returns` is a Dafny keyword.
- `getsource` raises `OSError` or `TypeError` for a function whose source cannot be found (fastcore/docments.py:50, 59). Nothing catches it, so `docments` raises too. That exception is not represented: a level always comes with its tokens and its body.
- A dataclass defined in `__main__` has source `""` (fastcore/docments.py:45). It is represented by its inputs, an empty token list and an empty body, which the model maps to no comments and no located parameters.
- `arg.target.id` (fastcore/docments.py:77) raises `AttributeError` for an annotated field whose target is not a plain name, such as `self.x: int`. An `Item.AnnAssign` always has a name, so that exception is not represented.
- `Textwrap` follows `textwrap.dedent` as in Python 3.13 and earlier, where only lines of spaces and tabs are emptied. From Python 3.14 on, every line of `str.isspace` characters is emptied.

Where the code and its prose description differ, the model follows the code:

- The comment map keeps the text after `#` unstripped, including trailing whitespace. Only a same-line comment is stripped. A block above is dedented, which does not strip trailing whitespace.
- A bare `#` is an empty comment, not an absent one. On the parameter's own line it gives the doc text `""`, which later steps treat as no doc.
- Only `args.args` are located, and doc text is looked up by name. Positional-only, starred and keyword-only parameters therefore never get a comment. A line they share with an `args.args` parameter goes to that parameter.
- `return` is merged twice: first against a `Parameters` entry named `return`, then against `Returns`.
- In the overlay, a level's entry also replaces an accumulated entry whose doc text is `""` or None, not only an absent one.
