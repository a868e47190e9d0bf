/** A worked example through the whole pipeline:

      1  def f(
      2      # the input value
      3      a,
      4      b=2):  # the scale

    with no docstring. `a` takes the comment line above it, `b` its trailing
    comment and the type of its default, and `return` has no doc text. */
module Scenario {
  import opened Wrappers
  import opened PyText
  import Textwrap
  import opened Comments
  import opened ParamLocations
  import opened Records
  import opened Docments

  function Two(): Value {
    Obj("int", "2", true)
  }

  function F(): Target {
    Target(
      Docstring(map[], None),
      [Token(CommentToken, 2, "# the input value"), Token(CommentToken, 4, "# the scale")],
      [FunctionDef([Arg(3, "a"), Arg(4, "b")], [], None)],
      false,
      Signature(map["a" := Param(Empty, Empty), "b" := Param(Empty, Two())], Empty),
      map[])
  }

  lemma FTokensWellFormed()
    ensures TokensWellFormed(F())
  {
    var toks := F().tokens;
    assert WellFormed(toks[0]) by {
      assert forall k :: 0 <= k < |toks[0].text| ==> toks[0].text[k] != '\n';
    }
    assert WellFormed(toks[1]) by {
      assert forall k :: 0 <= k < |toks[1].text| ==> toks[1].text[k] != '\n';
    }
  }

  lemma CleanInputValue()
    ensures CleanComment("# the input value") == Some(" the input value")
  {
    var text := "# the input value";
    assert text == "" + "#" + text[1..];
    assert '\n' !in text[1..] by {
      assert forall k :: 0 <= k < |text| - 1 ==> text[1..][k] != '\n';
    }
    CleanCommentToken("", text[1..]);
  }

  lemma CleanScale()
    ensures CleanComment("# the scale") == Some(" the scale")
  {
    var text := "# the scale";
    assert text == "" + "#" + text[1..];
    assert '\n' !in text[1..] by {
      assert forall k :: 0 <= k < |text| - 1 ==> text[1..][k] != '\n';
    }
    CleanCommentToken("", text[1..]);
  }

  lemma FCommentsFirst()
    ensures CommentMapOf(F().tokens, 1) == map[2 := " the input value"]
  {
    FTokensWellFormed();
    CleanInputValue();
  }

  lemma FComments()
    ensures CommentMap(F().tokens) == map[2 := " the input value", 4 := " the scale"]
  {
    FTokensWellFormed();
    FCommentsFirst();
    CleanScale();
  }

  function FComments0(): map<nat, string> {
    map[2 := " the input value", 4 := " the scale"]
  }

  lemma FLocations()
    ensures Locations(F(), true) == Dicts.Dict([3, 4], map[3 := "a", 4 := "b"])
  {
    var args := [Arg(3, "a"), Arg(4, "b")];
    assert ArgLocsOf(args, 1) == Dicts.Dict([3], map[3 := "a"]);
  }

  lemma StripScale()
    ensures Strip(" the scale") == "the scale"
  {
    TrimmedIsStrip(" the scale", 1, 10);
  }

  lemma DedentInputValue()
    ensures Textwrap.Dedent([" the input value"]) == "the input value"
  {
    var line := " the input value";
    assert !Textwrap.Blank(line) by {
      assert !Textwrap.IsIndentChar(line[1]);
    }
    assert line[1..] == "the input value";
    assert Textwrap.Indent(line[1..]) == "";
    assert Textwrap.Indent(line) == " ";
    Textwrap.DedentOneLine(line);
  }

  lemma CommentForA()
    ensures CommentFor(3, FComments0(), {3, 4}) == Some("the input value")
  {
    assert RunAbove(2, FComments0(), {3, 4}) == [" the input value"] by {
      assert RunAbove(1, FComments0(), {3, 4}) == [];
    }
    DedentInputValue();
  }

  lemma CommentForB()
    ensures CommentFor(4, FComments0(), {3, 4}) == Some("the scale")
  {
    StripScale();
  }

  /** Two items naming two parameters: each name gets the doc text of its line. */
  lemma DocsOfPair<N, D>(items: seq<(nat, N)>, docAt: nat -> D)
    requires |items| == 2 && items[0].1 != items[1].1
    ensures DocsOf(items, 2, docAt) == map[items[0].1 := docAt(items[0].0), items[1].1 := docAt(items[1].0)]
  {
    NamesSnoc(items, 2);
    NamesSnoc(items, 1);
    assert LastForName(items, 2, 0) && LastForName(items, 2, 1);
  }

  /** Two parameters on two lines: each gets the comment for its own line. */
  lemma DocsOfTwo(parms: Dicts.Dict<nat, string>, comments: map<nat, string>,
                  l1: nat, n1: string, l2: nat, n2: string)
    requires l1 != l2 && n1 != n2
    requires parms == Dicts.Dict([l1, l2], map[l1 := n1, l2 := n2])
    ensures Dicts.Valid(parms)
    ensures Docs(parms, comments) ==
      map[n1 := CommentFor(l1, comments, {l1, l2}), n2 := CommentFor(l2, comments, {l1, l2})]
  {
    assert parms.entries.Keys == {l1, l2};
    var items := Items(parms);
    assert items == [(l1, n1), (l2, n2)];
    DocsOfPair(items, (line: nat) => CommentFor(line, comments, parms.entries.Keys));
  }

  lemma FDocs()
    ensures CommentDocs(F(), true) == map["a" := Some("the input value"), "b" := Some("the scale")]
  {
    FTokensWellFormed();
    FComments();
    FLocations();
    DocsOfTwo(Locations(F(), true), FComments0(), 3, "a", 4, "b");
    CommentForA();
    CommentForB();
  }

  /** The records of `f` itself. */
  function FRecords(): map<string, Docment> {
    map["a" := Docment(Some("the input value"), Empty, Empty),
        "b" := Docment(Some("the scale"), TypeOf(Two()), Two()),
        "return" := Docment(None, Empty, Empty)]
  }

  lemma FProvisional()
    ensures Provisional(F(), true, map["a" := Some("the input value"), "b" := Some("the scale")]) == FRecords()
  {
  }

  /** An empty docstring changes no record. */
  lemma MergeNothing(dms: map<string, Docment>)
    ensures MergeDocs(dms, Docstring(map[], None)) == dms
  {
  }

  /** A single level is its own result, restricted to the kept names. */
  lemma FoldSingle(m: map<string, Docment>, params: set<string>)
    requires m.Keys <= params
    ensures FoldLevels([m], params) == m
  {
    assert [m][1..] == [];
  }

  lemma FLevel()
    ensures TokensWellFormed(F())
    ensures LevelDocments(F(), true, false) == Success(FRecords())
  {
    FTokensWellFormed();
    FDocs();
    FProvisional();
    MergeNothing(FRecords());
  }

  /** A chain of one callable: `docments` is that callable's own result,
      as records or as their doc text. */
  lemma SingleLevel(sigParams: set<string>, t: Target, withReturn: bool, evalStr: bool)
    requires TokensWellFormed(t)
    requires LevelDocments(t, withReturn, evalStr).Success?
    requires LevelDocments(t, withReturn, evalStr).value.Keys <= sigParams + {"return"}
    ensures var m := LevelDocments(t, withReturn, evalStr).value;
      && DocmentsOf(Some(sigParams), [t], true, withReturn, evalStr) == Success(Full(m))
      && DocmentsOf(Some(sigParams), [t], false, withReturn, evalStr) ==
         Success(DocsOnly(map k | k in m :: m[k].doc))
  {
    var m := LevelDocments(t, withReturn, evalStr).value;
    assert [t][1..] == [];
    assert LevelsOf([], withReturn, evalStr) == Success([]);
    assert [t][0] == t;
    assert LevelsOf([t], withReturn, evalStr) == Success([m] + []);
    assert [m] + [] == [m];
    FoldSingle(m, sigParams + {"return"});
  }

  /** The doc text of a three-entry record map, entry by entry. */
  lemma DocTextsOfThree(k1: string, k2: string, k3: string, d1: Docment, d2: Docment, d3: Docment)
    requires k1 != k2 && k1 != k3 && k2 != k3
    ensures var m := map[k1 := d1, k2 := d2, k3 := d3];
      (map k | k in m :: m[k].doc) == map[k1 := d1.doc, k2 := d2.doc, k3 := d3.doc]
  {
  }

  /** `docments(f, full=True)`. */
  lemma FullRecords()
    ensures TokensWellFormed(F())
    ensures DocmentsOf(Some({"a", "b"}), [F()], true, true, false) == Success(Full(FRecords()))
  {
    FLevel();
    SingleLevel({"a", "b"}, F(), true, false);
  }

  /** `docments(f)`: doc text only, `return` present with no doc text. */
  lemma DocTextOnly()
    ensures TokensWellFormed(F())
    ensures DocmentsOf(Some({"a", "b"}), [F()], false, true, false) == Success(DocsOnly(map[
      "a" := Some("the input value"),
      "b" := Some("the scale"),
      "return" := None]))
  {
    FLevel();
    SingleLevel({"a", "b"}, F(), true, false);
    DocTextsOfThree("a", "b", "return",
      Docment(Some("the input value"), Empty, Empty),
      Docment(Some("the scale"), TypeOf(Two()), Two()),
      Docment(None, Empty, Empty));
  }
}
