/** `textwrap.dedent`, on text given as its lines (the text is the lines
    joined with newlines; no line contains a newline of its own). Lines made
    only of spaces and tabs are emptied; every other line loses the longest
    run of spaces and tabs that all of them start with. This is `dedent` as
    in Python 3.13 and earlier; from Python 3.14 on, a line of any whitespace
    characters (`str.isspace`) is emptied and does not count towards the
    margin. */
module Textwrap {
  import opened Wrappers
  import opened PyText

  predicate IsIndentChar(c: char) {
    c == ' ' || c == '\t'
  }

  /** A line that `dedent` empties: nothing but spaces and tabs, or nothing at all. */
  predicate Blank(line: string) {
    forall i :: 0 <= i < |line| ==> IsIndentChar(line[i])
  }

  /** The run of spaces and tabs a line starts with. */
  function Indent(line: string): (w: string)
    ensures IsPrefix(w, line) && Blank(w)
    ensures |w| == |line| || !IsIndentChar(line[|w|])
  {
    if |line| == 0 || !IsIndentChar(line[0]) then ""
    else
      var w := Indent(line[1..]);
      assert line[..1 + |w|] == [line[0]] + line[1..][..|w|];
      [line[0]] + w
  }

  /** The longest common prefix of two strings. */
  function CommonPrefix(a: string, b: string): (p: string)
    ensures IsPrefix(p, a) && IsPrefix(p, b)
    ensures |p| == |a| || |p| == |b| || a[|p|] != b[|p|]
  {
    if |a| == 0 || |b| == 0 || a[0] != b[0] then ""
    else
      var p := CommonPrefix(a[1..], b[1..]);
      assert a[..1 + |p|] == [a[0]] + a[1..][..|p|];
      assert b[..1 + |p|] == [b[0]] + b[1..][..|p|];
      [a[0]] + p
  }

  lemma PrefixTransitive(p: string, q: string, s: string)
    requires IsPrefix(p, q) && IsPrefix(q, s)
    ensures IsPrefix(p, s)
  {
    assert s[..|p|] == s[..|q|][..|p|];
  }

  lemma BlankPrefix(p: string, q: string)
    requires IsPrefix(p, q) && Blank(q)
    ensures Blank(p)
  {
    forall i | 0 <= i < |p| ensures IsIndentChar(p[i]) {
      assert p[i] == q[..|p|][i];
    }
  }

  /** The margin `dedent` removes: the common indentation of the non-blank
      lines, or None when every line is blank. */
  function Margin(lines: seq<string>): (m: Option<string>)
    ensures m.None? <==> forall i :: 0 <= i < |lines| ==> Blank(lines[i])
    ensures m.Some? ==> Blank(m.value)
    ensures m.Some? ==>
      forall i :: 0 <= i < |lines| && !Blank(lines[i]) ==> IsPrefix(m.value, lines[i])
  {
    if |lines| == 0 then None
    else
      var front := lines[..|lines| - 1];
      var rest := Margin(front);
      var line := lines[|lines| - 1];
      assert forall i :: 0 <= i < |lines| - 1 ==> lines[i] == front[i];
      if Blank(line) then rest
      else
        match rest
        case None => Some(Indent(line))
        case Some(w) =>
          var p := CommonPrefix(w, Indent(line));
          PrefixTransitive(p, Indent(line), line);
          BlankPrefix(p, w);
          forall i | 0 <= i < |front| && !Blank(front[i]) ensures IsPrefix(p, front[i]) {
            PrefixTransitive(p, w, front[i]);
          }
          Some(p)
  }

  /** A run of spaces and tabs that a line starts with is part of its indentation. */
  lemma BlankPrefixOfIndent(p: string, line: string)
    requires Blank(p) && IsPrefix(p, line)
    ensures IsPrefix(p, Indent(line))
  {
    var w := Indent(line);
    forall i | 0 <= i < |p| ensures IsIndentChar(line[i]) {
      assert line[..|p|][i] == line[i];
    }
    assert |p| <= |w|;
    assert line[..|w|][..|p|] == line[..|p|];
  }

  /** Every common prefix of two strings is a prefix of their longest one. */
  lemma CommonPrefixIsLongest(p: string, a: string, b: string)
    requires IsPrefix(p, a) && IsPrefix(p, b)
    ensures IsPrefix(p, CommonPrefix(a, b))
  {
    var c := CommonPrefix(a, b);
    forall i | 0 <= i < |p| ensures a[i] == b[i] {
      assert a[..|p|][i] == a[i] && b[..|p|][i] == b[i];
    }
    assert |p| <= |c|;
    assert a[..|c|][..|p|] == a[..|p|];
  }

  /** The margin is the longest: every run of spaces and tabs that all
      non-blank lines start with is a prefix of it. */
  lemma {:induction false} MarginIsLongest(lines: seq<string>, p: string)
    requires Blank(p)
    requires forall i :: 0 <= i < |lines| && !Blank(lines[i]) ==> IsPrefix(p, lines[i])
    requires Margin(lines).Some?
    ensures IsPrefix(p, Margin(lines).value)
  {
    var front := lines[..|lines| - 1];
    var line := lines[|lines| - 1];
    assert forall i :: 0 <= i < |lines| - 1 ==> lines[i] == front[i];
    if !Blank(line) {
      BlankPrefixOfIndent(p, line);
      if Margin(front).Some? {
        MarginIsLongest(front, p);
        CommonPrefixIsLongest(p, Margin(front).value, Indent(line));
      }
    } else {
      MarginIsLongest(front, p);
    }
  }

  /** The lines of `dedent`'s result. */
  function DedentLines(lines: seq<string>): (r: seq<string>)
    ensures |r| == |lines|
    ensures forall i :: 0 <= i < |lines| && Blank(lines[i]) ==> r[i] == ""
    ensures forall i :: 0 <= i < |lines| && !Blank(lines[i]) ==>
      lines[i] == Margin(lines).value + r[i]
  {
    match Margin(lines)
    case None => seq(|lines|, i => "")
    case Some(w) =>
      var r := seq(|lines|, i requires 0 <= i < |lines| =>
                 if Blank(lines[i]) then "" else lines[i][|w|..]);
      assert forall i :: 0 <= i < |lines| && !Blank(lines[i]) ==> lines[i] == w + r[i] by {
        forall i | 0 <= i < |lines| && !Blank(lines[i]) ensures lines[i] == w + r[i] {
          assert lines[i] == lines[i][..|w|] + lines[i][|w|..];
        }
      }
      r
  }

  /** `textwrap.dedent('\n'.join(lines))`. */
  function Dedent(lines: seq<string>): string {
    Join(DedentLines(lines), "\n")
  }

  /** A single line loses exactly its own indentation. */
  lemma DedentOneLine(line: string)
    ensures Dedent([line]) == if Blank(line) then "" else line[|Indent(line)|..]
  {
    var r := DedentLines([line]);
    if !Blank(line) {
      assert Margin([line]) == Some(Indent(line)) by {
        assert [line][..0] == [];
      }
      assert line == Indent(line) + r[0];
      assert line == Indent(line) + line[|Indent(line)|..];
    }
  }
}
