/** The few operations on Python `str` that the docments code relies on:
    `str.isspace` (which is also what `\s` matches in a `str` regular
    expression), `str.strip`, `str.startswith`, `sep.join` and `reversed`. */
module PyText {

  /** `c.isspace()`: the Unicode whitespace characters CPython recognises. */
  predicate IsSpace(c: char) {
    || ('\t' <= c <= '\r')                // \t \n \v \f \r
    || ('\U{1C}' <= c <= '\U{1F}')        // file, group, record and unit separators
    || c == ' ' || c == '\U{85}' || c == '\U{A0}' || c == '\U{1680}'
    || ('\U{2000}' <= c <= '\U{200A}')
    || c == '\U{2028}' || c == '\U{2029}' || c == '\U{202F}' || c == '\U{205F}' || c == '\U{3000}'
  }

  predicate AllSpace(s: string) {
    forall i :: 0 <= i < |s| ==> IsSpace(s[i])
  }

  /** `p` is a prefix of `s`, i.e. `s.startswith(p)`. */
  predicate IsPrefix<T(==)>(p: seq<T>, s: seq<T>) {
    |p| <= |s| && s[..|p|] == p
  }

  /** Length of the longest all-whitespace prefix of `s`. */
  function SpacePrefix(s: string): (n: nat)
    ensures n <= |s|
    ensures AllSpace(s[..n])
    ensures n == |s| || !IsSpace(s[n])
  {
    if |s| == 0 || !IsSpace(s[0]) then 0
    else
      var k := SpacePrefix(s[1..]);
      assert s[..1 + k] == [s[0]] + s[1..][..k];
      1 + k
  }

  /** Start of the longest all-whitespace suffix of `s`. */
  function SpaceSuffix(s: string): (n: nat)
    ensures n <= |s|
    ensures AllSpace(s[n..])
    ensures n == 0 || !IsSpace(s[n - 1])
  {
    if |s| == 0 || !IsSpace(s[|s| - 1]) then |s|
    else
      var k := SpaceSuffix(s[..|s| - 1]);
      assert s[k..] == s[..|s| - 1][k..] + [s[|s| - 1]];
      k
  }

  /** `s[i..j]` is `s` with its leading and trailing whitespace cut off. */
  ghost predicate Trimmed(s: string, i: int, j: int) {
    && 0 <= i <= j <= |s|
    && AllSpace(s[..i])
    && AllSpace(s[j..])
    && (i == j || (!IsSpace(s[i]) && !IsSpace(s[j - 1])))
  }

  /** `s.strip()` with no argument. */
  function Strip(s: string): (r: string)
    ensures |r| <= |s|
  {
    var i := SpacePrefix(s);
    var j := SpaceSuffix(s);
    if j <= i then "" else s[i..j]
  }

  /** Every character of `s[..i]` is whitespace, spelled out index by index. */
  lemma SpacesBefore(s: string, i: int)
    requires 0 <= i <= |s| && AllSpace(s[..i])
    ensures forall k :: 0 <= k < i ==> IsSpace(s[k])
  {
    forall k | 0 <= k < i ensures IsSpace(s[k]) {
      assert s[..i][k] == s[k];
    }
  }

  /** Every character of `s[j..]` is whitespace, spelled out index by index. */
  lemma SpacesFrom(s: string, j: int)
    requires 0 <= j <= |s| && AllSpace(s[j..])
    ensures forall k :: j <= k < |s| ==> IsSpace(s[k])
  {
    forall k | j <= k < |s| ensures IsSpace(s[k]) {
      assert s[j..][k - j] == s[k];
    }
  }

  /** `Strip` yields a trimmed infix of its argument ... */
  lemma StripIsTrimmed(s: string)
    ensures exists i, j :: Trimmed(s, i, j) && Strip(s) == s[i..j]
  {
    var i := SpacePrefix(s);
    var j := SpaceSuffix(s);
    if j <= i {
      SpacesFrom(s, j);
      assert i == |s|;
      assert s[..i] == s;
      assert Trimmed(s, i, i);
    } else {
      assert Trimmed(s, i, j);
    }
  }

  /** ... and it is the only one: any trimmed infix is what `Strip` returns. */
  lemma TrimmedIsStrip(s: string, i: int, j: int)
    requires Trimmed(s, i, j)
    ensures Strip(s) == s[i..j]
  {
    var i' := SpacePrefix(s);
    var j' := SpaceSuffix(s);
    SpacesBefore(s, i);
    SpacesFrom(s, j);
    SpacesBefore(s, i');
    SpacesFrom(s, j');
    if i == j {
      assert i' == |s|;
    } else {
      assert i' == i;
      assert j' == j;
    }
  }

  /** `sep.join(parts)`. */
  function Join(parts: seq<string>, sep: string): (r: string)
    ensures |parts| == 1 ==> r == parts[0]
  {
    if |parts| == 0 then ""
    else if |parts| == 1 then parts[0]
    else parts[0] + sep + Join(parts[1..], sep)
  }

  /** `list(reversed(s))`. */
  function Reverse<T>(s: seq<T>): (r: seq<T>)
    ensures |r| == |s|
    ensures forall i :: 0 <= i < |s| ==> r[i] == s[|s| - 1 - i]
  {
    if |s| == 0 then [] else [s[|s| - 1]] + Reverse(s[..|s| - 1])
  }

  /** Reversing after appending puts the new element first. */
  lemma ReverseSnoc<T>(s: seq<T>, x: T)
    ensures Reverse(s + [x]) == [x] + Reverse(s)
  {
    assert (s + [x])[..|s|] == s;
  }
}
