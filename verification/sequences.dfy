/** Order-preserving selection (Python's `[x for x in s if p(x)]`) and
    flattening of a sequence of pages. */
module Sequences {

  /** The elements of `s` that satisfy `p`, in their original order. */
  function Select<T>(p: T -> bool, s: seq<T>): (r: seq<T>)
    ensures |r| <= |s|
    ensures forall i :: 0 <= i < |r| ==> p(r[i])
    ensures forall i :: 0 <= i < |r| ==> r[i] in s
    ensures forall i :: 0 <= i < |s| && p(s[i]) ==> s[i] in r
    decreases |s|
  {
    if |s| == 0 then []
    else
      var init := s[..|s| - 1];
      var last := s[|s| - 1];
      assert s == init + [last];
      Select(p, init) + (if p(last) then [last] else [])
  }

  /** `r` reads off the elements of `s` at the increasing positions `idx`. */
  ghost predicate ReadsOff<T>(s: seq<T>, r: seq<T>, idx: seq<int>) {
    && |idx| == |r|
    && (forall k :: 0 <= k < |idx| ==> 0 <= idx[k] < |s| && r[k] == s[idx[k]])
    && (forall k, l :: 0 <= k < l < |idx| ==> idx[k] < idx[l])
  }

  /** `idx` names exactly the positions of `s` whose element satisfies `p`. */
  ghost predicate NamesPassing<T>(p: T -> bool, s: seq<T>, idx: seq<int>) {
    forall i :: 0 <= i < |s| ==> (p(s[i]) <==> i in idx)
  }

  /** `idx` lists, in increasing order, exactly the positions of `s` whose
      element satisfies `p`, and `r` holds those elements in that order. */
  ghost predicate Picks<T>(p: T -> bool, s: seq<T>, r: seq<T>, idx: seq<int>) {
    ReadsOff(s, r, idx) && NamesPassing(p, s, idx)
  }

  /** The positions of `s` whose elements satisfy `p`, in increasing order. */
  ghost function PassingIndices<T>(p: T -> bool, s: seq<T>): (idx: seq<int>)
    ensures forall k :: 0 <= k < |idx| ==> 0 <= idx[k] < |s|
    decreases |s|
  {
    if |s| == 0 then []
    else PassingIndices(p, s[..|s| - 1]) + (if p(s[|s| - 1]) then [|s| - 1] else [])
  }

  lemma {:induction false} SelectReadsOff<T>(p: T -> bool, s: seq<T>)
    ensures ReadsOff(s, Select(p, s), PassingIndices(p, s))
    decreases |s|
  {
    if |s| > 0 {
      var n := |s| - 1;
      var init := s[..n];
      SelectReadsOff(p, init);
      var idx0 := PassingIndices(p, init);
      var r0 := Select(p, init);
      var idx := PassingIndices(p, s);
      var r := Select(p, s);
      if p(s[n]) {
        assert idx == idx0 + [n];
        assert r == r0 + [s[n]];
        forall k | 0 <= k < |idx|
          ensures 0 <= idx[k] < |s| && r[k] == s[idx[k]]
        {
          if k < |idx0| {
            assert idx[k] == idx0[k] && r[k] == r0[k] && s[idx0[k]] == init[idx0[k]];
          }
        }
        forall k, l | 0 <= k < l < |idx|
          ensures idx[k] < idx[l]
        {
          assert idx[k] == idx0[k];
          if l < |idx0| {
            assert idx[l] == idx0[l];
          }
        }
      } else {
        assert idx == idx0 && r == r0;
        forall k | 0 <= k < |idx|
          ensures 0 <= idx[k] < |s| && r[k] == s[idx[k]]
        {
          assert s[idx0[k]] == init[idx0[k]];
        }
      }
    }
  }

  lemma {:induction false} SelectNamesPassing<T>(p: T -> bool, s: seq<T>)
    ensures NamesPassing(p, s, PassingIndices(p, s))
    decreases |s|
  {
    if |s| > 0 {
      var n := |s| - 1;
      var init := s[..n];
      SelectNamesPassing(p, init);
      var idx0 := PassingIndices(p, init);
      var idx := PassingIndices(p, s);
      assert idx == idx0 + (if p(s[n]) then [n] else []);
      forall i | 0 <= i < |s|
        ensures p(s[i]) <==> i in idx
      {
        if i < n {
          assert s[i] == init[i];
          assert i in idx <==> i in idx0;
        } else {
          assert n !in idx0;
        }
      }
    }
  }

  /** `Select` keeps exactly the satisfying elements, in their original
      relative order. */
  lemma SelectPicksExactly<T>(p: T -> bool, s: seq<T>)
    ensures Picks(p, s, Select(p, s), PassingIndices(p, s))
  {
    SelectReadsOff(p, s);
    SelectNamesPassing(p, s);
  }

  /** Selection distributes over concatenation. */
  lemma {:induction false} SelectAppend<T>(p: T -> bool, a: seq<T>, b: seq<T>)
    ensures Select(p, a + b) == Select(p, a) + Select(p, b)
    decreases |b|
  {
    if |b| == 0 {
      assert a + b == a;
    } else {
      var init := b[..|b| - 1];
      assert (a + b)[..|a + b| - 1] == a + init;
      SelectAppend(p, a, init);
    }
  }

  /** A sequence whose elements all satisfy `p` is selected unchanged. */
  lemma {:induction false} SelectAll<T>(p: T -> bool, s: seq<T>)
    requires forall i :: 0 <= i < |s| ==> p(s[i])
    ensures Select(p, s) == s
    decreases |s|
  {
    if |s| > 0 {
      var init := s[..|s| - 1];
      SelectAll(p, init);
      assert s == init + [s[|s| - 1]];
    }
  }

  /** Selecting twice is selecting once. */
  lemma SelectIdempotent<T>(p: T -> bool, s: seq<T>)
    ensures Select(p, Select(p, s)) == Select(p, s)
  {
    SelectAll(p, Select(p, s));
  }

  /** The number of entries over all pages. */
  function TotalLength<T>(pages: seq<seq<T>>): nat
    decreases |pages|
  {
    if |pages| == 0 then 0 else TotalLength(pages[..|pages| - 1]) + |pages[|pages| - 1]|
  }

  /** Pages of at most `m` entries each hold at most `m` entries per page. */
  lemma {:induction false} TotalLengthBound<T>(pages: seq<seq<T>>, m: nat)
    requires forall i :: 0 <= i < |pages| ==> |pages[i]| <= m
    ensures TotalLength(pages) <= m * |pages|
    decreases |pages|
  {
    if |pages| > 0 {
      TotalLengthBound(pages[..|pages| - 1], m);
    }
  }

  /** The concatenation of `pages`, in order. */
  function Flatten<T>(pages: seq<seq<T>>): (r: seq<T>)
    ensures |r| == TotalLength(pages)
    ensures forall i, j :: 0 <= i < |pages| && 0 <= j < |pages[i]| ==> pages[i][j] in r
    decreases |pages|
  {
    if |pages| == 0 then []
    else
      var init := pages[..|pages| - 1];
      var r := Flatten(init) + pages[|pages| - 1];
      assert forall i :: 0 <= i < |init| ==> init[i] == pages[i];
      r
  }

  /** Flattening distributes over concatenation of page sequences. */
  lemma {:induction false} FlattenAppend<T>(a: seq<seq<T>>, b: seq<seq<T>>)
    ensures Flatten(a + b) == Flatten(a) + Flatten(b)
    decreases |b|
  {
    if |b| == 0 {
      assert a + b == a;
    } else {
      var init := b[..|b| - 1];
      assert (a + b)[..|a + b| - 1] == a + init;
      FlattenAppend(a, init);
    }
  }

  /** Reading fewer pages yields a prefix of what reading more pages yields. */
  lemma FlattenPrefix<T>(pages: seq<seq<T>>, k: nat, m: nat)
    requires k <= m <= |pages|
    ensures Flatten(pages[..k]) <= Flatten(pages[..m])
  {
    assert pages[..m] == pages[..k] + pages[k..m];
    FlattenAppend(pages[..k], pages[k..m]);
  }
}
