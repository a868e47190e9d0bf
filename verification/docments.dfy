/** `_docments` for one callable, and `docments`, which folds the results of a
    delegation chain together and keeps only the caller's own parameters. */
module Docments {
  import opened Wrappers
  import opened Dicts
  import opened Comments
  import opened ParamLocations
  import opened Records

  // ---------------------------------------------------------------------------
  // The doc text each located parameter name gets from the comments
  // ---------------------------------------------------------------------------

  /** No item among the first `n` after `items[i]` names the same parameter. */
  predicate LastForName<N(==)>(items: seq<(nat, N)>, n: int, i: int)
    requires 0 <= i < n <= |items|
  {
    forall j :: i < j < n ==> items[j].1 != items[i].1
  }

  /** The names among the first `n` items. */
  function Names<N>(items: seq<(nat, N)>, n: nat): set<N>
    requires n <= |items|
  {
    set i | 0 <= i < n :: items[i].1
  }

  lemma NamesSnoc<N>(items: seq<(nat, N)>, n: nat)
    requires 1 <= n <= |items|
    ensures Names(items, n) == Names(items, n - 1) + {items[n - 1].1}
  {
    forall x | x in Names(items, n) ensures x in Names(items, n - 1) + {items[n - 1].1} {
      var i :| 0 <= i < n && items[i].1 == x;
      if i < n - 1 {
        assert x in Names(items, n - 1);
      }
    }
    forall x | x in Names(items, n - 1) ensures x in Names(items, n) {
      var i :| 0 <= i < n - 1 && items[i].1 == x;
    }
  }

  /** One step of the comprehension: the `n`-th item's entry added to the
      docs of the first `n - 1` items gives the docs of the first `n`. */
  lemma DocsStep<N, D>(items: seq<(nat, N)>, n: nat, docAt: nat -> D, prev: map<N, D>)
    requires 0 < n <= |items|
    requires prev.Keys == Names(items, n - 1)
    requires forall i :: 0 <= i < n - 1 && LastForName(items, n - 1, i) ==> prev[items[i].1] == docAt(items[i].0)
    ensures var docs := prev[items[n - 1].1 := docAt(items[n - 1].0)];
      && docs.Keys == Names(items, n)
      && forall i :: 0 <= i < n && LastForName(items, n, i) ==> docs[items[i].1] == docAt(items[i].0)
  {
    NamesSnoc(items, n);
    var docs := prev[items[n - 1].1 := docAt(items[n - 1].0)];
    forall i | 0 <= i < n && LastForName(items, n, i) ensures docs[items[i].1] == docAt(items[i].0) {
      if i < n - 1 {
        assert items[n - 1].1 != items[i].1;
        assert LastForName(items, n - 1, i);
      }
    }
  }

  /** The comprehension over the first `n` (line, name) items, with `docAt`
      giving the doc text found for a line: the last item naming a parameter
      decides its doc text. */
  function DocsOf<N(==), D>(items: seq<(nat, N)>, n: nat, docAt: nat -> D): (docs: map<N, D>)
    requires n <= |items|
    ensures docs.Keys == Names(items, n)
    ensures forall i :: 0 <= i < n && LastForName(items, n, i) ==> docs[items[i].1] == docAt(items[i].0)
  {
    if n == 0 then map[]
    else
      var prev := DocsOf(items, n - 1, docAt);
      DocsStep(items, n, docAt, prev);
      prev[items[n - 1].1 := docAt(items[n - 1].0)]
  }

  /** The (line, name) entries of a dict of locations, in insertion order:
      each line listed once, every line of the dict listed, each with its name. */
  function Items(parms: Dict<nat, string>): (items: seq<(nat, string)>)
    requires Valid(parms)
    ensures |items| == |parms.order|
    ensures forall i, j :: 0 <= i < j < |items| ==> items[i].0 != items[j].0
    ensures (set i | 0 <= i < |items| :: items[i].0) == parms.entries.Keys
    ensures forall i :: 0 <= i < |items| ==>
      items[i].0 == parms.order[i] && items[i].0 in parms.entries && items[i].1 == parms.entries[items[i].0]
  {
    var items := seq(|parms.order|, i requires 0 <= i < |parms.order| =>
      assert parms.order[i] in parms.order;
      (parms.order[i], parms.entries[parms.order[i]]));
    forall line | line in parms.entries.Keys ensures line in (set i | 0 <= i < |items| :: items[i].0) {
      assert line in parms.order;
      var i :| 0 <= i < |parms.order| && parms.order[i] == line;
      assert items[i].0 == line;
    }
    items
  }

  /** Parameter name to the doc text its comments give. When two lines carry
      the same name, the line that comes later in the dict wins. */
  function Docs(parms: Dict<nat, string>, comments: map<nat, string>): (docs: map<string, Option<string>>)
    requires Valid(parms)
  {
    DocsOf(Items(parms), |parms.order|, (line: nat) => CommentFor(line, comments, parms.entries.Keys))
  }

  /** The names of a dict of locations are exactly its values, and each name
      gets the doc text of the last of its lines. */
  lemma DocsNames(parms: Dict<nat, string>, comments: map<nat, string>)
    requires Valid(parms)
    ensures Docs(parms, comments).Keys == parms.entries.Values
    ensures forall i :: 0 <= i < |parms.order| && LastForName(Items(parms), |parms.order|, i) ==>
      Docs(parms, comments)[Items(parms)[i].1] == CommentFor(parms.order[i], comments, parms.entries.Keys)
  {
    var docs := Docs(parms, comments);
    forall name | name in parms.entries.Values ensures name in docs {
      var line :| line in parms.entries && parms.entries[line] == name;
      assert line in parms.order;
      var i :| 0 <= i < |parms.order| && parms.order[i] == line;
    }
  }

  // ---------------------------------------------------------------------------
  // `_docments(s, returns, eval_str)` for one callable
  // ---------------------------------------------------------------------------

  /** A parameter as the signature reports it. */
  datatype Param = Param(anno: Value, default: Value)

  /** A signature: parameters by name, and the return annotation. */
  datatype Signature = Signature(params: map<string, Param>, returnAnno: Value)

  /** Everything `_docments` learns about one callable from the outside: its
      parsed docstring, its source as tokens and as a parsed body, whether it
      is a dataclass, its signature and its evaluated type hints. */
  datatype Target = Target(
    docstring: Docstring,
    tokens: seq<Token>,
    body: seq<Stmt>,
    isDataclass: bool,
    sig: Signature,
    hints: map<string, Value>)

  predicate TokensWellFormed(t: Target) {
    AllWellFormed(t.tokens)
  }

  /** The located parameters of a level, empty when the body has no recognised shape. */
  function Locations(t: Target, withReturn: bool): (d: Dict<nat, string>)
    requires ParamLocs(t.body, t.isDataclass, withReturn).Success?
    ensures Valid(d)
    ensures ParamLocs(t.body, t.isDataclass, withReturn).value.None? ==> d.entries == map[]
    ensures ParamLocs(t.body, t.isDataclass, withReturn).value.Some? ==>
      d == ParamLocs(t.body, t.isDataclass, withReturn).value.value
  {
    match ParamLocs(t.body, t.isDataclass, withReturn).value
    case Some(d) => d
    case None => EmptyDict()
  }

  /** The doc text each located name gets from the comments. */
  function CommentDocs(t: Target, withReturn: bool): map<string, Option<string>>
    requires TokensWellFormed(t)
    requires ParamLocs(t.body, t.isDataclass, withReturn).Success?
  {
    Docs(Locations(t, withReturn), CommentMap(t.tokens))
  }

  /** The records before the docstring is merged in: one per signature
      parameter, built from its annotation and default, and one for `return`
      from the return annotation when `withReturn` is set. */
  function Provisional(t: Target, withReturn: bool, docs: map<string, Option<string>>)
    : (res: map<string, Docment>)
    ensures res.Keys == t.sig.params.Keys + (if withReturn then {"return"} else {})
    ensures forall n :: n in t.sig.params && !(withReturn && n == "return") ==>
      res[n] == GetFull(t.sig.params[n].anno, n, t.sig.params[n].default, docs)
    ensures withReturn ==> res["return"] == GetFull(t.sig.returnAnno, "return", Empty, docs)
  {
    var res := map name | name in t.sig.params ::
      GetFull(t.sig.params[name].anno, name, t.sig.params[name].default, docs);
    if withReturn then res["return" := GetFull(t.sig.returnAnno, "return", Empty, docs)]
    else res
  }

  /** `eval_str`: an evaluated type hint replaces the annotation of its key. */
  function ApplyHints(res: map<string, Docment>, hints: map<string, Value>): (r: map<string, Docment>)
    ensures r.Keys == res.Keys
    ensures forall k :: k in res && k in hints ==> r[k] == res[k].(anno := hints[k])
    ensures forall k :: k in res && k !in hints ==> r[k] == res[k]
  {
    map k | k in res :: if k in hints then res[k].(anno := hints[k]) else res[k]
  }

  /** `_docments(s, returns, eval_str)` for one callable. */
  function LevelDocments(t: Target, withReturn: bool, evalStr: bool)
    : (r: Result<map<string, Docment>, Exception>)
    requires TokensWellFormed(t)
    ensures r.Failure? <==> ParamLocs(t.body, t.isDataclass, withReturn).Failure?
    ensures r.Success? ==> r.value.Keys == t.sig.params.Keys + (if withReturn then {"return"} else {})
  {
    var _ :- ParamLocs(t.body, t.isDataclass, withReturn);
    var res := MergeDocs(Provisional(t, withReturn, CommentDocs(t, withReturn)), t.docstring);
    Success(if evalStr then ApplyHints(res, t.hints) else res)
  }

  /** Doc text from the source's comments is never replaced by the docstring. */
  lemma CommentBeatsDocstring(t: Target, withReturn: bool, evalStr: bool, name: string)
    requires TokensWellFormed(t)
    requires ParamLocs(t.body, t.isDataclass, withReturn).Success?
    requires name in t.sig.params || (withReturn && name == "return")
    requires name in CommentDocs(t, withReturn) && HasDoc(CommentDocs(t, withReturn)[name])
    requires name != "return" || withReturn
    ensures LevelDocments(t, withReturn, evalStr).value[name].doc == CommentDocs(t, withReturn)[name]
  {
    var docs := CommentDocs(t, withReturn);
    var pre := Provisional(t, withReturn, docs);
    assert pre[name].doc == docs[name];
  }

  /** With no annotation and no type hint, a parameter with a default is
      annotated with the type of its default, whatever the docstring says. */
  lemma DefaultTypeIsAnnotation(t: Target, withReturn: bool, evalStr: bool, name: string)
    requires TokensWellFormed(t)
    requires ParamLocs(t.body, t.isDataclass, withReturn).Success?
    requires name in t.sig.params && (name != "return" || !withReturn)
    requires t.sig.params[name].anno == Empty && t.sig.params[name].default != Empty
    requires !evalStr || name !in t.hints
    ensures LevelDocments(t, withReturn, evalStr).value[name].anno == TypeOf(t.sig.params[name].default)
  {
    var pre := Provisional(t, withReturn, CommentDocs(t, withReturn));
    assert pre[name].anno == TypeOf(t.sig.params[name].default);
  }

  /** A parameter's default always comes through, and so does an annotation
      that is present and true, unless a type hint replaces it. */
  lemma ParameterRecordKept(t: Target, withReturn: bool, evalStr: bool, name: string)
    requires TokensWellFormed(t)
    requires ParamLocs(t.body, t.isDataclass, withReturn).Success?
    requires name in t.sig.params && (name != "return" || !withReturn)
    ensures LevelDocments(t, withReturn, evalStr).value[name].default == t.sig.params[name].default
    ensures !MissingAnno(t.sig.params[name].anno) && (!evalStr || name !in t.hints) ==>
      LevelDocments(t, withReturn, evalStr).value[name].anno == t.sig.params[name].anno
  {
  }

  /** The doc text of `return`: its comment if that has text, else the
      description of a `Parameters` entry named `return` if that has text, else
      the `Returns` description, else whatever the comment gave (None or ""). */
  lemma ReturnDocFallback(t: Target, evalStr: bool)
    requires TokensWellFormed(t)
    requires ParamLocs(t.body, t.isDataclass, true).Success?
    ensures var doc := LevelDocments(t, true, evalStr).value["return"].doc;
      var c := Lookup(CommentDocs(t, true), "return").GetOr(None);
      var ps := t.docstring.parameters;
      var ret := t.docstring.returnSection;
      && (HasDoc(c) ==> doc == c)
      && (!HasDoc(c) && "return" in ps && PyText.Join(ps["return"].desc, "\n") != "" ==>
            doc == Some(PyText.Join(ps["return"].desc, "\n")))
      && (!HasDoc(c) && ("return" !in ps || PyText.Join(ps["return"].desc, "\n") == "") && ret.Some? ==>
            doc == Some(PyText.Join(ret.value.desc, "\n")))
      && (!HasDoc(c) && "return" !in ps && ret.None? ==> doc == c)
  {
    var docs := CommentDocs(t, true);
    var pre := Provisional(t, true, docs);
    assert pre["return"].doc == Lookup(docs, "return").GetOr(None);
    var res := MergeDocs(pre, t.docstring);
    var once := MergeDoc(pre["return"], Lookup(t.docstring.parameters, "return"));
    assert res["return"] == MergeDoc(once, t.docstring.returnSection);
    assert LevelDocments(t, true, evalStr).value["return"].doc == res["return"].doc;
  }

  /** A parameter the comments leave undocumented takes its description from
      the docstring's `Parameters` section. */
  lemma DocstringFillsGap(t: Target, withReturn: bool, evalStr: bool, name: string)
    requires TokensWellFormed(t)
    requires ParamLocs(t.body, t.isDataclass, withReturn).Success?
    requires name in t.sig.params && name != "return"
    requires name !in CommentDocs(t, withReturn) || !HasDoc(CommentDocs(t, withReturn)[name])
    requires name in t.docstring.parameters
    ensures LevelDocments(t, withReturn, evalStr).value[name].doc ==
      Some(PyText.Join(t.docstring.parameters[name].desc, "\n"))
  {
    var docs := CommentDocs(t, withReturn);
    var pre := Provisional(t, withReturn, docs);
    assert !HasDoc(pre[name].doc);
  }

  // ---------------------------------------------------------------------------
  // `docments(elt, full, **kwargs)` and `_update_docments`
  // ---------------------------------------------------------------------------

  /** One level laid over the accumulated records: each kept name of the level
      whose record has doc text, or whose accumulated record has none, takes
      the level's record. */
  function Overlay(acc: map<string, Docment>, level: map<string, Docment>, params: set<string>)
    : (r: map<string, Docment>)
  {
    acc + map k | k in level && k in params &&
                  (HasDoc(level[k].doc) || !(k in acc && HasDoc(acc[k].doc))) :: level[k]
  }

  /** The results of a delegation chain folded together, the innermost level
      (the last one) first: `levels[0]` is the caller, `levels[i + 1]` is what
      `levels[i]` delegates to. */
  function FoldLevels(levels: seq<map<string, Docment>>, params: set<string>): (r: map<string, Docment>)
    ensures r.Keys <= params
  {
    if |levels| == 0 then map[]
    else Overlay(FoldLevels(levels[1..], params), levels[0], params)
  }

  /** The outermost level whose entry for `k` has doc text. */
  function FirstDocumented(levels: seq<map<string, Docment>>, k: string): (r: Option<nat>)
    ensures r.Some? ==> r.value < |levels| && k in levels[r.value] && HasDoc(levels[r.value][k].doc)
    ensures r.Some? ==> forall j :: 0 <= j < r.value ==> !(k in levels[j] && HasDoc(levels[j][k].doc))
    ensures r.None? ==> forall j :: 0 <= j < |levels| ==> !(k in levels[j] && HasDoc(levels[j][k].doc))
  {
    if |levels| == 0 then None
    else if k in levels[0] && HasDoc(levels[0][k].doc) then Some(0)
    else
      match FirstDocumented(levels[1..], k)
      case None => None
      case Some(i) => Some(i + 1)
  }

  /** The outermost level that has an entry for `k`. */
  function FirstPresent(levels: seq<map<string, Docment>>, k: string): (r: Option<nat>)
    ensures r.Some? ==> r.value < |levels| && k in levels[r.value]
    ensures r.Some? ==> forall j :: 0 <= j < r.value ==> k !in levels[j]
    ensures r.None? ==> forall j :: 0 <= j < |levels| ==> k !in levels[j]
  {
    if |levels| == 0 then None
    else if k in levels[0] then Some(0)
    else
      match FirstPresent(levels[1..], k)
      case None => None
      case Some(i) => Some(i + 1)
  }

  /** The level whose record for `k` ends up in the result: the outermost one
      with doc text for it, or, when none has any, the outermost with an entry. */
  function Winner(levels: seq<map<string, Docment>>, k: string): Option<nat> {
    match FirstDocumented(levels, k)
    case Some(i) => Some(i)
    case None => FirstPresent(levels, k)
  }

  /** The fold keeps a key exactly when it is a kept parameter some level
      documents, and its record is the winning level's. */
  lemma {:induction false} FoldPicksWinner(levels: seq<map<string, Docment>>, params: set<string>, k: string)
    ensures k in FoldLevels(levels, params) <==> k in params && FirstPresent(levels, k).Some?
    ensures k in FoldLevels(levels, params) ==>
      Winner(levels, k).Some? && FoldLevels(levels, params)[k] == levels[Winner(levels, k).value][k]
    decreases |levels|
  {
    if |levels| > 0 {
      var rest := levels[1..];
      FoldPicksWinner(rest, params, k);
      var inner := FoldLevels(rest, params);
      assert forall j :: 0 <= j < |rest| ==> rest[j] == levels[j + 1];
      if k in inner && k in params {
        var w := Winner(rest, k).value;
        assert HasDoc(inner[k].doc) <==> FirstDocumented(rest, k).Some?;
      }
    }
  }

  /** Delegation precedence: a wrapper's own doc text for a parameter wins over
      the delegate's, and without one the delegate's doc text shows through. */
  lemma DelegationPrecedence(own: map<string, Docment>, target: map<string, Docment>,
                             params: set<string>, k: string)
    requires k in params && k in own && k in target
    ensures HasDoc(own[k].doc) ==> FoldLevels([own, target], params)[k] == own[k]
    ensures !HasDoc(own[k].doc) && HasDoc(target[k].doc) ==>
      FoldLevels([own, target], params)[k] == target[k]
  {
    FoldPicksWinner([own, target], params, k);
  }

  /** The result of `docments`: full records, or doc text only. */
  datatype Docmented =
    | Full(records: map<string, Docment>)
    | DocsOnly(docs: map<string, Option<string>>)

  /** `_docments` on each level of the chain, each with its outcome. */
  function LevelResults(chain: seq<Target>, withReturn: bool, evalStr: bool)
    : (rs: seq<Result<map<string, Docment>, Exception>>)
    requires forall i :: 0 <= i < |chain| ==> TokensWellFormed(chain[i])
    ensures |rs| == |chain|
    ensures forall i :: 0 <= i < |chain| ==> rs[i] == LevelDocments(chain[i], withReturn, evalStr)
  {
    if |chain| == 0 then []
    else
      assert forall i :: 1 <= i < |chain| ==> chain[1..][i - 1] == chain[i];
      [LevelDocments(chain[0], withReturn, evalStr)] + LevelResults(chain[1..], withReturn, evalStr)
  }

  /** `_docments` on every level of the chain, the innermost first: the
      levels' records, or the first failure met (see `AllOrFirstFailure`
      and `LevelResults`). */
  function LevelsOf(chain: seq<Target>, withReturn: bool, evalStr: bool)
    : Result<seq<map<string, Docment>>, Exception>
    requires forall i :: 0 <= i < |chain| ==> TokensWellFormed(chain[i])
  {
    AllOrFirstFailure(LevelResults(chain, withReturn, evalStr))
  }

  /** `docments(elt, full, returns=withReturn, eval_str=evalStr)`.
      `sigParams` is the parameter names of `signature(elt)`, None when the
      signature cannot be taken; `chain[0]` is `elt` and `chain[i + 1]` is
      `chain[i].__delwrap__`. */
  function DocmentsOf(sigParams: Option<set<string>>, chain: seq<Target>, full: bool,
                      withReturn: bool, evalStr: bool): (r: Result<Docmented, Exception>)
    requires forall i :: 0 <= i < |chain| ==> TokensWellFormed(chain[i])
    ensures sigParams.None? ==> r == Failure(SignatureError)
    ensures r.Success? ==> r.value.Full? == full
    ensures r.Success? && full ==> r.value.records.Keys <= sigParams.value + {"return"}
    ensures r.Success? && !full ==> r.value.docs.Keys <= sigParams.value + {"return"}
  {
    if sigParams.None? then Failure(SignatureError)
    else
      var params := sigParams.value + {"return"};
      var levels :- LevelsOf(chain, withReturn, evalStr);
      var r := FoldLevels(levels, params);
      if full then Success(Full(r))
      else Success(DocsOnly(map k | k in r :: r[k].doc))
  }

  /** What `docments` returns for each key: a key is present exactly when it is
      the caller's parameter (or `return`) and some level of the chain has it;
      its doc text is that of the outermost level with doc text for it. */
  lemma DocmentsResult(sigParams: set<string>, chain: seq<Target>, full: bool,
                       withReturn: bool, evalStr: bool, k: string)
    requires forall i :: 0 <= i < |chain| ==> TokensWellFormed(chain[i])
    requires LevelsOf(chain, withReturn, evalStr).Success?
    ensures var levels := LevelsOf(chain, withReturn, evalStr).value;
      var r := DocmentsOf(Some(sigParams), chain, full, withReturn, evalStr);
      && r.Success?
      && (full ==> (k in r.value.records <==> k in sigParams + {"return"} && FirstPresent(levels, k).Some?))
      && (!full ==> (k in r.value.docs <==> k in sigParams + {"return"} && FirstPresent(levels, k).Some?))
      && (full && k in r.value.records ==> r.value.records[k] == levels[Winner(levels, k).value][k])
      && (!full && k in r.value.docs ==> r.value.docs[k] == levels[Winner(levels, k).value][k].doc)
  {
    var levels := LevelsOf(chain, withReturn, evalStr).value;
    FoldPicksWinner(levels, sigParams + {"return"}, k);
  }
}
