/** `Array.prototype.filter` over sequences, with the facts about it the store
    and the pages use: what it keeps, that it keeps order, how it composes. */
module Seqs {

  /** `s.filter(keep)`: the elements of `s` that satisfy `keep`, in their order. */
  function Filter<T(==,!new)>(s: seq<T>, keep: T -> bool): (r: seq<T>)
    ensures |r| <= |s|
    ensures forall x :: x in r <==> x in s && keep(x)
  {
    if s == [] then [] else (if keep(s[0]) then [s[0]] else []) + Filter(s[1..], keep)
  }

  /** A filter whose test holds of every element returns its input unchanged. */
  lemma {:induction false} FilterKeepsAll<T(!new)>(s: seq<T>, keep: T -> bool)
    requires forall i :: 0 <= i < |s| ==> keep(s[i])
    ensures Filter(s, keep) == s
  {
    if s != [] {
      FilterKeepsAll(s[1..], keep);
      assert s == [s[0]] + s[1..];
    }
  }

  /** A filter whose test holds of no element returns the empty sequence. */
  lemma {:induction false} FilterKeepsNone<T(!new)>(s: seq<T>, keep: T -> bool)
    requires forall i :: 0 <= i < |s| ==> !keep(s[i])
    ensures Filter(s, keep) == []
  {
    if s != [] {
      FilterKeepsNone(s[1..], keep);
    }
  }

  /** Filtering a sequence with a given first element. */
  lemma FilterCons<T(!new)>(x: T, s: seq<T>, keep: T -> bool)
    ensures Filter([x] + s, keep) == (if keep(x) then [x] else []) + Filter(s, keep)
  {
    assert ([x] + s)[1..] == s;
  }

  /** Two front elements that are never both kept can trade places. */
  lemma FilterSwap<T(!new)>(a: T, b: T, s: seq<T>, keep: T -> bool)
    requires !(keep(a) && keep(b))
    ensures Filter([a] + ([b] + s), keep) == Filter([b] + ([a] + s), keep)
  {
    FilterCons(a, [b] + s, keep);
    FilterCons(b, s, keep);
    FilterCons(b, [a] + s, keep);
    FilterCons(a, s, keep);
  }

  /** Filtering distributes over concatenation, which is what keeps the order. */
  lemma {:induction false} FilterAppend<T(!new)>(a: seq<T>, b: seq<T>, keep: T -> bool)
    ensures Filter(a + b, keep) == Filter(a, keep) + Filter(b, keep)
  {
    if a != [] {
      assert (a + b)[1..] == a[1..] + b;
      FilterAppend(a[1..], b, keep);
    } else {
      assert a + b == b;
    }
  }

  /** Two tests that agree on every element give the same filter. */
  lemma {:induction false} FilterAgree<T(!new)>(s: seq<T>, f: T -> bool, g: T -> bool)
    requires forall i :: 0 <= i < |s| ==> f(s[i]) == g(s[i])
    ensures Filter(s, f) == Filter(s, g)
  {
    if s != [] {
      FilterAgree(s[1..], f, g);
    }
  }

  /** Filtering twice is filtering once by the conjunction of the two tests. */
  lemma {:induction false} FilterTwice<T(!new)>(s: seq<T>, f: T -> bool, g: T -> bool, both: T -> bool)
    requires forall i :: 0 <= i < |s| ==> both(s[i]) == (f(s[i]) && g(s[i]))
    ensures Filter(Filter(s, f), g) == Filter(s, both)
  {
    if s != [] {
      FilterTwice(s[1..], f, g, both);
      var head := if f(s[0]) then [s[0]] else [];
      assert Filter(s, f) == head + Filter(s[1..], f);
      FilterAppend(head, Filter(s[1..], f), g);
    }
  }

  /** Elements satisfying two mutually exclusive tests are counted apart. */
  lemma {:induction false} FilterDisjointCount<T(!new)>(s: seq<T>, f: T -> bool, g: T -> bool)
    requires forall i :: 0 <= i < |s| ==> !(f(s[i]) && g(s[i]))
    ensures |Filter(s, f)| + |Filter(s, g)| <= |s|
  {
    if s != [] {
      FilterDisjointCount(s[1..], f, g);
    }
  }

  /** A test that is the union of two mutually exclusive tests counts as many
      elements as the two together. */
  lemma {:induction false} FilterSplitCount<T(!new)>(s: seq<T>, f: T -> bool, g: T -> bool, either: T -> bool)
    requires forall i :: 0 <= i < |s| ==> !(f(s[i]) && g(s[i]))
    requires forall i :: 0 <= i < |s| ==> either(s[i]) == (f(s[i]) || g(s[i]))
    ensures |Filter(s, either)| == |Filter(s, f)| + |Filter(s, g)|
  {
    if s != [] {
      FilterSplitCount(s[1..], f, g, either);
    }
  }

  /** The positions of `s` whose element passes `keep`. */
  ghost function Positions<T>(s: seq<T>, keep: T -> bool): set<int> {
    set i | 0 <= i < |s| && keep(s[i])
  }

  /** Appending one element adds its position exactly when it passes. */
  lemma PositionsSnoc<T>(s: seq<T>, x: T, keep: T -> bool)
    ensures Positions(s + [x], keep) == Positions(s, keep) + (if keep(x) then {|s|} else {})
  {
    var t := s + [x];
    forall i | 0 <= i < |s|
      ensures t[i] == s[i]
    {
    }
  }

  /** Appending one element keeps it exactly when it passes. */
  lemma FilterSnoc<T(!new)>(s: seq<T>, x: T, keep: T -> bool)
    ensures |Filter(s + [x], keep)| == |Filter(s, keep)| + (if keep(x) then 1 else 0)
  {
    FilterAppend(s, [x], keep);
    assert Filter([x], keep) == (if keep(x) then [x] else []) + Filter([], keep);
  }

  /** A filter keeps as many elements as there are positions whose element
      passes the test. */
  lemma {:induction false} FilterCountsPositions<T(!new)>(s: seq<T>, keep: T -> bool)
    ensures |Filter(s, keep)| == |Positions(s, keep)|
  {
    if s != [] {
      var n := |s| - 1;
      var init := s[..n];
      FilterCountsPositions(init, keep);
      assert s == init + [s[n]];
      FilterSnoc(init, s[n], keep);
      PositionsSnoc(init, s[n], keep);
      assert n !in Positions(init, keep);
    }
  }
}
