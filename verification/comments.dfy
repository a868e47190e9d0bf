/** Comments in a callable's source: cleaning one comment token
    (`_clean_comment`), the line-number-to-comment map built from the token
    stream, and the association of comments with a parameter (`_get_comment`). */
module Comments {
  import opened Wrappers
  import opened PyText
  import Textwrap

  // ---------------------------------------------------------------------------
  // `_clean_comment`: `re.findall(r'^\s*#(.*)\s*$', s)`, first group or None
  // ---------------------------------------------------------------------------

  /** How far `.` reaches in `t`: the index of its first newline, or `|t|`. */
  function LineEnd(t: string): (n: nat)
    ensures n <= |t|
    ensures forall k :: 0 <= k < n ==> t[k] != '\n'
    ensures n == |t| || t[n] == '\n'
  {
    if |t| == 0 || t[0] == '\n' then 0 else 1 + LineEnd(t[1..])
  }

  /** The regular expression `^\s*#(.*)\s*$` run greedily: skip the leading
      whitespace, require a `#`, take everything up to the first newline as the
      group, and succeed only if nothing but whitespace follows it. */
  function CleanComment(s: string): Option<string> {
    var i := SpacePrefix(s);
    if i == |s| || s[i] != '#' then None
    else
      var t := s[i + 1..];
      var n := LineEnd(t);
      if AllSpace(t[n..]) then Some(t[..n]) else None
  }

  /** The regular expression matches `s` with its `#` at `i` and its group
      `s[i + 1..j]`: whitespace before the `#`, no newline in the group,
      whitespace after it, and the group as long as `.*` can make it. */
  ghost predicate RegexMatch(s: string, i: int, j: int) {
    && 0 <= i < j <= |s|
    && AllSpace(s[..i])
    && s[i] == '#'
    && (forall k :: i < k < j ==> s[k] != '\n')
    && AllSpace(s[j..])
    && (j == |s| || s[j] == '\n')
  }

  /** Whatever `CleanComment` returns is the group of a match ... */
  lemma CleanCommentIsMatch(s: string)
    requires CleanComment(s).Some?
    ensures exists i, j :: RegexMatch(s, i, j) && CleanComment(s).value == s[i + 1..j]
  {
    var i := SpacePrefix(s);
    var t := s[i + 1..];
    var n := LineEnd(t);
    assert t[n..] == s[i + 1 + n..];
    assert forall k :: i < k < i + 1 + n ==> s[k] == t[k - i - 1];
    assert RegexMatch(s, i, i + 1 + n);
  }

  /** ... and every match is found: when the expression matches, `CleanComment`
      returns its group, so `None` means there is no match at all. */
  lemma MatchIsCleanComment(s: string, i: int, j: int)
    requires RegexMatch(s, i, j)
    ensures CleanComment(s) == Some(s[i + 1..j])
  {
    var i' := SpacePrefix(s);
    SpacesBefore(s, i);
    SpacesBefore(s, i');
    assert i' == i;
    var t := s[i + 1..];
    var n := LineEnd(t);
    assert forall k :: 0 <= k < j - i - 1 ==> t[k] == s[k + i + 1];
    assert j < |s| ==> t[j - i - 1] == s[j];
    assert n == j - i - 1;
    assert t[n..] == s[j..];
    assert t[..n] == s[i + 1..j];
  }

  /** A comment token as `tokenize` produces it, optionally indented: the
      result is exactly the text after the `#`, not stripped. */
  lemma CleanCommentToken(w: string, text: string)
    requires AllSpace(w)
    requires '\n' !in text
    ensures CleanComment(w + "#" + text) == Some(text)
  {
    var s := w + "#" + text;
    assert forall k :: 0 <= k < |text| ==> text[k] in text;
    assert s[..|w|] == w;
    assert s[|s|..] == [];
    assert s[|w|] == '#';
    assert forall k :: |w| < k < |s| ==> s[k] == text[k - |w| - 1];
    assert forall k :: |w| < k < |s| ==> s[k] != '\n';
    assert RegexMatch(s, |w|, |s|);
    MatchIsCleanComment(s, |w|, |s|);
    assert s[|w| + 1..|s|] == text;
  }

  /** A bare `#` is an empty comment, not an absent one. */
  lemma BareHashIsEmpty()
    ensures CleanComment("#") == Some("")
  {
    CleanCommentToken("", "");
    assert "" + "#" + "" == "#";
  }

  // ---------------------------------------------------------------------------
  // The comment map: line number to the cleaned text of the comment on it
  // ---------------------------------------------------------------------------

  datatype TokenKind = CommentToken | OtherToken

  /** A token of the source: its kind, the line it starts on, and its text. */
  datatype Token = Token(kind: TokenKind, line: nat, text: string)

  /** What the tokenizer guarantees of a comment token: it starts with `#` and
      does not run past the end of its line. */
  predicate WellFormed(tok: Token) {
    tok.kind == CommentToken ==> |tok.text| > 0 && tok.text[0] == '#' && '\n' !in tok.text
  }

  predicate AllWellFormed(tokens: seq<Token>) {
    forall i :: 0 <= i < |tokens| ==> WellFormed(tokens[i])
  }

  /** The cleaned text of a comment token is what follows its `#`. */
  lemma CleanTokenText(tok: Token)
    requires tok.kind == CommentToken && WellFormed(tok)
    ensures CleanComment(tok.text) == Some(tok.text[1..])
  {
    assert tok.text == "" + "#" + tok.text[1..];
    CleanCommentToken("", tok.text[1..]);
  }

  /** No comment token among the first `n` after `tokens[i]` starts on its line. */
  predicate LastCommentOnLine(tokens: seq<Token>, n: int, i: int)
    requires 0 <= i < n <= |tokens|
  {
    forall j :: i < j < n && tokens[j].kind == CommentToken ==> tokens[j].line != tokens[i].line
  }

  /** The comment map of the first `n` tokens: line number to cleaned comment
      text, a later comment on a line replacing an earlier one. */
  function CommentMapOf(tokens: seq<Token>, n: nat): (m: map<nat, string>)
    requires n <= |tokens| && AllWellFormed(tokens)
    ensures m.Keys == set i | 0 <= i < n && tokens[i].kind == CommentToken :: tokens[i].line
    ensures forall i :: 0 <= i < n && tokens[i].kind == CommentToken && LastCommentOnLine(tokens, n, i) ==>
      m[tokens[i].line] == tokens[i].text[1..]
  {
    if n == 0 then map[]
    else
      var m := CommentMapOf(tokens, n - 1);
      var tok := tokens[n - 1];
      if tok.kind == CommentToken then
        CleanTokenText(tok);
        m[tok.line := CleanComment(tok.text).value]
      else m
  }

  /** The comment map of the whole token stream. */
  function CommentMap(tokens: seq<Token>): map<nat, string>
    requires AllWellFormed(tokens)
  {
    CommentMapOf(tokens, |tokens|)
  }

  // ---------------------------------------------------------------------------
  // `_get_comment(line, arg, comments, parms)`
  // ---------------------------------------------------------------------------

  /** The block of comment lines ending at line `k`, top to bottom: each line
      from `k` upwards that holds a comment and is no parameter's line, until
      line 0 or the first line that does not qualify. */
  function RunAbove(k: nat, comments: map<nat, string>, parms: set<nat>): seq<string> {
    if k == 0 || k !in comments || k in parms then []
    else RunAbove(k - 1, comments, parms) + [comments[k]]
  }

  /** The block is the longest run of consecutive lines ending at `k` that
      each hold a comment, never reach line 0 and hold no parameter's line,
      in line order. */
  lemma {:induction false} RunAboveIsBlock(k: nat, comments: map<nat, string>, parms: set<nat>)
    ensures var r := RunAbove(k, comments, parms);
      && |r| <= k
      && (forall j :: k - |r| < j <= k ==>
            j in comments && j !in parms && r[j - (k - |r|) - 1] == comments[j])
      && (var stop := k - |r|; stop == 0 || stop !in comments || stop in parms)
  {
    if k != 0 && k in comments && k !in parms {
      RunAboveIsBlock(k - 1, comments, parms);
    }
  }

  /** The doc text a parameter declared on `line` gets from the comments. */
  function CommentFor(line: nat, comments: map<nat, string>, parms: set<nat>): (r: Option<string>)
    ensures line in comments ==> r == Some(Strip(comments[line]))
    ensures line !in comments ==>
      (r.None? <==> line <= 1 || line - 1 !in comments || line - 1 in parms)
    ensures line !in comments && r.Some? ==>
      r.value == Textwrap.Dedent(RunAbove(line - 1, comments, parms))
  {
    if line in comments then Some(Strip(comments[line]))
    else if line == 0 then None
    else
      var run := RunAbove(line - 1, comments, parms);
      if run == [] then None else Some(Textwrap.Dedent(run))
  }

  /** A comment on the parameter's own line decides alone: the lines above,
      and which lines are parameters, make no difference. */
  lemma SameLineCommentWins(line: nat, c1: map<nat, string>, p1: set<nat>,
                            c2: map<nat, string>, p2: set<nat>)
    requires line in c1 && line in c2 && c1[line] == c2[line]
    ensures CommentFor(line, c1, p1) == CommentFor(line, c2, p2)
  {
  }

  /** Part way up the walk, stopped at line `k`: the lines collected so far,
      reversed, are the tail of the block ending at `l`. */
  predicate Walked(l: nat, k: nat, comments: map<nat, string>, parms: set<nat>, res: seq<string>) {
    RunAbove(l, comments, parms) == RunAbove(k, comments, parms) + Reverse(res)
  }

  /** One step of the upward walk keeps `Walked`. */
  lemma WalkStep(l: nat, k: nat, comments: map<nat, string>, parms: set<nat>, res: seq<string>)
    requires k != 0 && k in comments && k !in parms
    requires Walked(l, k, comments, parms, res)
    ensures Walked(l, k - 1, comments, parms, res + [comments[k]])
  {
    var c := comments[k];
    ReverseSnoc(res, c);
    assert RunAbove(k, comments, parms) == RunAbove(k - 1, comments, parms) + [c];
    assert RunAbove(k - 1, comments, parms) + [c] + Reverse(res) ==
           RunAbove(k - 1, comments, parms) + ([c] + Reverse(res));
  }

  /** Where the walk stops, the collected lines, reversed, are the whole block. */
  lemma WalkDone(l: nat, k: nat, comments: map<nat, string>, parms: set<nat>, res: seq<string>)
    requires k == 0 || k !in comments || k in parms
    requires Walked(l, k, comments, parms, res)
    ensures Reverse(res) == RunAbove(l, comments, parms)
  {
    assert RunAbove(k, comments, parms) == [];
  }

  /** The upward walk of `_get_comment`: starting at `l`, append each comment
      line until a line is 0, holds no comment or is a parameter's line; the
      collected lines come out bottom to top. */
  method CollectAbove(l: nat, comments: map<nat, string>, parms: set<nat>)
    returns (res: seq<string>)
    ensures Reverse(res) == RunAbove(l, comments, parms)
  {
    var k: nat := l;
    res := [];
    assert Walked(l, k, comments, parms, res) by {
      assert Reverse(res) == [];
    }
    while k != 0 && k in comments && k !in parms
      invariant k <= l
      invariant Walked(l, k, comments, parms, res)
      decreases k
    {
      WalkStep(l, k, comments, parms, res);
      res := res + [comments[k]];
      k := k - 1;
    }
    WalkDone(l, k, comments, parms, res);
  }

  /** `_get_comment` as written: a comment on the parameter's own line,
      stripped, or else the collected lines above, reversed and dedented. */
  method GetComment(line: nat, comments: map<nat, string>, parms: set<nat>)
    returns (r: Option<string>)
    ensures r == CommentFor(line, comments, parms)
  {
    if line in comments {
      return Some(Strip(comments[line]));
    }
    if line == 0 {
      // Python goes on with line -1, which no comment is on.
      return None;
    }
    var res := CollectAbove(line - 1, comments, parms);
    if res == [] {
      return None;
    }
    return Some(Textwrap.Dedent(Reverse(res)));
  }
}
