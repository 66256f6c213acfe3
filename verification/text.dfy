/** String helpers the core relies on: Python's substring operator `a in b`,
    `s.split("/")[-1]`, `f"{k: <w}"` left-justification and `sep.join(xs)`. */
module Text {

  /** `sub` occurs in `s` starting at index `i`. */
  predicate OccursAt(s: string, sub: string, i: int) {
    0 <= i && i + |sub| <= |s| && s[i..i + |sub|] == sub
  }

  /** Python's `sub in s`. */
  function Contains(s: string, sub: string): (b: bool)
    ensures b <==> exists i :: OccursAt(s, sub, i)
    decreases |s|
  {
    if |sub| > |s| then false
    else if s[..|sub|] == sub then (assert OccursAt(s, sub, 0); true)
    else
      var rest := Contains(s[1..], sub);
      assert forall i :: OccursAt(s[1..], sub, i) ==> OccursAt(s, sub, i + 1);
      assert forall i :: OccursAt(s, sub, i) && i > 0 ==> OccursAt(s[1..], sub, i - 1);
      rest
  }

  /** A one-character needle occurs iff some character of `s` equals it. */
  lemma ContainsChar(s: string, c: char)
    ensures Contains(s, [c]) <==> exists i :: 0 <= i < |s| && s[i] == c
  {
    if Contains(s, [c]) {
      var i :| OccursAt(s, [c], i);
      assert s[i..i + 1][0] == s[i];
    }
    if i :| 0 <= i < |s| && s[i] == c {
      assert s[i..i + 1] == [c];
      assert OccursAt(s, [c], i);
    }
  }

  /** A needle found in the second part is found in the whole. */
  lemma ContainsAfter(a: string, b: string, sub: string)
    requires Contains(b, sub) || sub == b
    ensures Contains(a + b, sub)
  {
    var j := if sub == b then 0 else var j :| OccursAt(b, sub, j); j;
    assert OccursAt(b, sub, j);
    assert (a + b)[|a| + j..|a| + j + |sub|] == b[j..j + |sub|];
    assert OccursAt(a + b, sub, |a| + j);
  }

  /** A needle found in the first part is found in the whole. */
  lemma ContainsBefore(b: string, c: string, sub: string)
    requires Contains(b, sub) || sub == b
    ensures Contains(b + c, sub)
  {
    var j := if sub == b then 0 else var j :| OccursAt(b, sub, j); j;
    assert OccursAt(b, sub, j);
    assert (b + c)[j..j + |sub|] == b[j..j + |sub|];
    assert OccursAt(b + c, sub, j);
  }

  /** `s.endswith(e)`. */
  predicate EndsWith(s: string, e: string) {
    |e| <= |s| && s[|s| - |e|..] == e
  }

  /** A text that ends with `e` still does after something is put before it. */
  lemma EndsWithAppend(a: string, b: string, e: string)
    requires EndsWith(b, e) || e == b
    ensures EndsWith(a + b, e)
  {
    assert (a + b)[|a + b| - |e|..] == b[|b| - |e|..];
  }

  /** `s` contains no `/`. */
  predicate NoSlash(s: string) {
    forall i :: 0 <= i < |s| ==> s[i] != '/'
  }

  /** `t` is what `s.split("/")[-1]` returns: a slash-free suffix of `s`
      that is either all of `s` or directly preceded by a slash. */
  predicate IsLastSegment(s: string, t: string) {
    && |t| <= |s|
    && t == s[|s| - |t|..]
    && NoSlash(t)
    && (|t| == |s| || s[|s| - |t| - 1] == '/')
  }

  /** `s.split("/")[-1]`: the text after the last slash, or `s` if it has none. */
  function LastSegment(s: string): (t: string)
    ensures IsLastSegment(s, t)
    decreases |s|
  {
    if |s| == 0 then ""
    else if s[|s| - 1] == '/' then ""
    else
      var init := s[..|s| - 1];
      var t := LastSegment(init) + [s[|s| - 1]];
      assert t[..|t| - 1] == LastSegment(init);
      assert s[|s| - |t|..] == init[|init| - (|t| - 1)..] + [s[|s| - 1]];
      t
  }

  /** There is only one last segment: the characterisation determines it. */
  lemma LastSegmentUnique(s: string, t: string)
    requires IsLastSegment(s, t)
    ensures t == LastSegment(s)
  {
  }

  /** Joining a directory and a slash-free name with `/` gives back the name. */
  lemma LastSegmentOfJoin(dir: string, name: string)
    requires NoSlash(name)
    ensures LastSegment(dir + "/" + name) == name
  {
    var s := dir + "/" + name;
    assert s[|s| - |name|..] == name;
    assert s[|s| - |name| - 1] == '/';
    LastSegmentUnique(s, name);
  }

  function Spaces(n: nat): (s: string)
    ensures |s| == n
    ensures forall i :: 0 <= i < n ==> s[i] == ' '
  {
    seq(n, _ => ' ')
  }

  /** `f"{s: <w}"`: `s` followed by spaces up to width `w`; never truncates. */
  function PadRight(s: string, w: int): (r: string)
    ensures |r| == if |s| >= w then |s| else w
    ensures r[..|s|] == s
    ensures forall i :: |s| <= i < |r| ==> r[i] == ' '
  {
    if |s| >= w then s else s + Spaces(w - |s|)
  }

  /** `sep.join(xs)`. */
  function Join(sep: string, xs: seq<string>): string
    decreases |xs|
  {
    if |xs| == 0 then ""
    else if |xs| == 1 then xs[0]
    else xs[0] + sep + Join(sep, xs[1..])
  }

  /** Joining one more item appends the separator and the item. */
  lemma {:induction false} JoinSnoc(sep: string, xs: seq<string>, x: string)
    requires |xs| > 0
    ensures Join(sep, xs + [x]) == Join(sep, xs) + sep + x
    decreases |xs|
  {
    if |xs| > 1 {
      assert (xs + [x])[1..] == xs[1..] + [x];
      JoinSnoc(sep, xs[1..], x);
    } else {
      assert (xs + [x])[1..] == [x];
    }
  }
}
