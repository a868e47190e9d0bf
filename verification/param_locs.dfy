/** `_param_locs`: where each parameter of a callable, or each field of a
    dataclass, is declared. The parsed module body is given in the abstract
    shape below; parsing itself is not modelled. */
module ParamLocations {
  import opened Wrappers
  import opened Dicts

  /** A parameter of a `def` (an `ast.arg`): its line and its name. */
  datatype Arg = Arg(line: nat, name: string)

  /** A statement in the body of a compound statement: an annotated
      assignment `name: T` (`ast.AnnAssign`), or anything else. */
  datatype Item = AnnAssign(line: nat, target: string) | OtherItem

  /** A top-level statement of the parsed source. */
  datatype Stmt =
    | FunctionDef(args: seq<Arg>, otherArgs: seq<Arg>, returnLine: Option<nat>)
      // `def` or `async def`: `args` is `args.args` (the positional-or-keyword
      // parameters), `otherArgs` the positional-only, starred and keyword-only
      // ones, `returnLine` the line of the return annotation if there is one
    | WithBody(items: seq<Item>)   // a class definition or other compound statement
    | NoBody                       // a simple statement, which has no `.body`

  /** No argument among the first `n` after `args[i]` is declared on its line. */
  predicate LastOnLine(args: seq<Arg>, n: int, i: int)
    requires 0 <= i < n <= |args|
  {
    forall j :: i < j < n ==> args[j].line != args[i].line
  }

  /** The lines of the first `n` arguments. */
  lemma LinesSnoc(args: seq<Arg>, n: nat)
    requires 0 < n <= |args|
    ensures (set i | 0 <= i < n :: args[i].line) == (set i | 0 <= i < n - 1 :: args[i].line) + {args[n - 1].line}
  {
  }

  /** An argument last on its line among `n` is last among the first `n - 1`. */
  lemma LastOnLineShrinks(args: seq<Arg>, n: nat)
    requires 0 < n <= |args|
    ensures forall i :: 0 <= i < n - 1 && LastOnLine(args, n, i) ==> LastOnLine(args, n - 1, i)
  {
  }

  /** One step of the comprehension: adding the `n`-th argument to the dict of
      the first `n - 1` gives the dict of the first `n`. */
  lemma PutArg(args: seq<Arg>, n: nat, prev: Dict<nat, string>)
    requires 0 < n <= |args|
    requires Valid(prev)
    requires prev.entries.Keys == set i | 0 <= i < n - 1 :: args[i].line
    requires forall i :: 0 <= i < n - 1 && LastOnLine(args, n - 1, i) ==> prev.entries[args[i].line] == args[i].name
    ensures var d := Put(prev, args[n - 1].line, args[n - 1].name);
      && d.entries.Keys == (set i | 0 <= i < n :: args[i].line)
      && forall i :: 0 <= i < n && LastOnLine(args, n, i) ==> d.entries[args[i].line] == args[i].name
  {
    var d := Put(prev, args[n - 1].line, args[n - 1].name);
    LinesSnoc(args, n);
    LastOnLineShrinks(args, n);
    forall i | 0 <= i < n && LastOnLine(args, n, i) ensures d.entries[args[i].line] == args[i].name {
      if i < n - 1 {
        assert args[n - 1].line != args[i].line;
      }
    }
  }

  /** The dict comprehension over the first `n` arguments. */
  function ArgLocsOf(args: seq<Arg>, n: nat): (d: Dict<nat, string>)
    requires n <= |args|
    ensures Valid(d)
    ensures d.entries.Keys == set i | 0 <= i < n :: args[i].line
    ensures forall i :: 0 <= i < n && LastOnLine(args, n, i) ==> d.entries[args[i].line] == args[i].name
  {
    if n == 0 then EmptyDict()
    else
      var prev := ArgLocsOf(args, n - 1);
      PutArg(args, n, prev);
      Put(prev, args[n - 1].line, args[n - 1].name)
  }

  /** Line number to parameter name for a list of arguments: one entry per
      line, the last argument declared on a line giving the name. */
  function ArgLocs(args: seq<Arg>): (d: Dict<nat, string>)
    ensures Valid(d)
  {
    ArgLocsOf(args, |args|)
  }

  /** The positions of the annotated assignments among the first `n` items,
      in increasing order. */
  function AnnIndices(items: seq<Item>, n: nat): (idx: seq<nat>)
    requires n <= |items|
    ensures forall k :: 0 <= k < |idx| ==> idx[k] < n && items[idx[k]].AnnAssign?
    ensures forall k, l :: 0 <= k < l < |idx| ==> idx[k] < idx[l]
    ensures forall i :: 0 <= i < n && items[i].AnnAssign? ==> i in idx
  {
    if n == 0 then []
    else
      var prev := AnnIndices(items, n - 1);
      if items[n - 1].AnnAssign? then prev + [n - 1] else prev
  }

  /** The annotated assignments of a class body, as arguments, in body order:
      the `k`-th field is the `k`-th annotated assignment. */
  function Fields(items: seq<Item>): (fs: seq<Arg>)
    ensures var idx := AnnIndices(items, |items|);
      && |fs| == |idx|
      && forall k :: 0 <= k < |fs| ==> fs[k] == Arg(items[idx[k]].line, items[idx[k]].target)
    ensures forall f :: f in fs <==>
      (exists i :: 0 <= i < |items| && items[i].AnnAssign? && f == Arg(items[i].line, items[i].target))
  {
    var idx := AnnIndices(items, |items|);
    var fs := seq(|idx|, k requires 0 <= k < |idx| => Arg(items[idx[k]].line, items[idx[k]].target));
    forall i | 0 <= i < |items| && items[i].AnnAssign? ensures Arg(items[i].line, items[i].target) in fs {
      var k :| 0 <= k < |idx| && idx[k] == i;
      assert fs[k] == Arg(items[i].line, items[i].target);
    }
    fs
  }

  /** No annotated assignment after `items[i]` is on its line. */
  predicate LastFieldOnLine(items: seq<Item>, i: int)
    requires 0 <= i < |items| && items[i].AnnAssign?
  {
    forall j :: i < j < |items| && items[j].AnnAssign? ==> items[j].line != items[i].line
  }

  /** `_param_locs(s, returns)` (`withReturn` is `returns`): line number to
      parameter name for a body that is a single `def`, with the return
      annotation's line mapped to `return` when `withReturn` is set, or, for a
      dataclass, a single class; None for any other body. */
  function ParamLocs(body: seq<Stmt>, isDataclass: bool, withReturn: bool)
    : (r: Result<Option<Dict<nat, string>>, Exception>)
    ensures r.Failure? <==> |body| == 1 && body[0].NoBody? && isDataclass
    ensures r.Success? && r.value.Some? ==> Valid(r.value.value)
    ensures r.Success? && r.value.Some? <==>
      |body| == 1 && (body[0].FunctionDef? || (body[0].WithBody? && isDataclass))
    ensures |body| == 1 && body[0].FunctionDef? && withReturn && body[0].returnLine.Some? ==>
      && r.Success? && r.value.Some?
      && body[0].returnLine.value in r.value.value.entries
      && r.value.value.entries[body[0].returnLine.value] == "return"
  {
    if |body| == 1 then
      match body[0]
      case FunctionDef(args, _, ret) =>
        var res := ArgLocs(args);
        if withReturn && ret.Some? then Success(Some(Put(res, ret.value, "return")))
        else Success(Some(res))
      case WithBody(items) =>
        if isDataclass then Success(Some(ArgLocs(Fields(items)))) else Success(None)
      case NoBody =>
        if isDataclass then Failure(AttributeError) else Success(None)
    else Success(None)
  }

  /** Every line of a `def`'s map is a line of one of its `args.args` or the
      line of the return annotation; lines of the other parameters (positional
      only, starred, keyword only) are located only if an `args.args`
      parameter shares them. */
  lemma FunctionLocs(args: seq<Arg>, other: seq<Arg>, ret: Option<nat>, isDataclass: bool, withReturn: bool)
    ensures var r := ParamLocs([FunctionDef(args, other, ret)], isDataclass, withReturn);
      && r.Success? && r.value.Some?
      && r.value.value.entries.Keys ==
         (set i | 0 <= i < |args| :: args[i].line) + (if withReturn && ret.Some? then {ret.value} else {})
      && (forall i :: 0 <= i < |args| && LastOnLine(args, |args|, i) && !(withReturn && ret == Some(args[i].line)) ==>
            r.value.value.entries[args[i].line] == args[i].name)
      && (!(withReturn && ret.Some?) ==> r.value.value.entries == ArgLocs(args).entries)
  {
  }

  /** The lines of the fields are the lines of the annotated assignments. */
  lemma FieldLines(items: seq<Item>)
    ensures ArgLocs(Fields(items)).entries.Keys ==
      set i | 0 <= i < |items| && items[i].AnnAssign? :: items[i].line
  {
    var fs := Fields(items);
    var d := ArgLocs(fs);
    forall line | line in d.entries.Keys
      ensures exists i :: 0 <= i < |items| && items[i].AnnAssign? && items[i].line == line
    {
      var k :| 0 <= k < |fs| && fs[k].line == line;
      assert fs[k] in fs;
    }
    forall i | 0 <= i < |items| && items[i].AnnAssign? ensures items[i].line in d.entries.Keys {
      var f := Arg(items[i].line, items[i].target);
      assert f in fs;
      var k :| 0 <= k < |fs| && fs[k] == f;
    }
  }

  /** The field last on its line in the class body is last on its line among
      the fields, so it names that line. */
  lemma FieldNamesLine(items: seq<Item>, i: nat)
    requires i < |items| && items[i].AnnAssign? && LastFieldOnLine(items, i)
    ensures ArgLocs(Fields(items)).entries[items[i].line] == items[i].target
  {
    var fs := Fields(items);
    var idx := AnnIndices(items, |items|);
    var k :| 0 <= k < |idx| && idx[k] == i;
    assert fs[k] == Arg(items[i].line, items[i].target);
    forall l | k < l < |fs| ensures fs[l].line != fs[k].line {
      assert idx[k] < idx[l];
    }
    assert LastOnLine(fs, |fs|, k);
  }

  /** A dataclass maps the line of each annotated field to its name; of two
      fields on one line, the later one gives the name. */
  lemma DataclassLocs(items: seq<Item>, withReturn: bool)
    ensures var r := ParamLocs([WithBody(items)], true, withReturn);
      && r.Success? && r.value.Some?
      && r.value.value.entries.Keys ==
         (set i | 0 <= i < |items| && items[i].AnnAssign? :: items[i].line)
      && forall i :: 0 <= i < |items| && items[i].AnnAssign? && LastFieldOnLine(items, i) ==>
           r.value.value.entries[items[i].line] == items[i].target
  {
    FieldLines(items);
    forall i | 0 <= i < |items| && items[i].AnnAssign? && LastFieldOnLine(items, i)
      ensures ArgLocs(Fields(items)).entries[items[i].line] == items[i].target
    {
      FieldNamesLine(items, i);
    }
  }
}
