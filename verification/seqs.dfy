/** Sequence operations the privilege planner relies on: the order-preserving
    `Array.prototype.filter` by membership in a valid-privilege list, and the
    comma join that `Array.prototype.toString` performs on a list of names,
    together with its inverse. */
module Seqs {

  /** `a` can be obtained from `b` by deleting elements (order kept, duplicates kept). */
  predicate IsSubsequence<T(==)>(a: seq<T>, b: seq<T>)
    decreases |b|
  {
    if |a| == 0 then true
    else if |b| == 0 then false
    else if a[0] == b[0] then IsSubsequence(a[1..], b[1..])
    else IsSubsequence(a, b[1..])
  }

  /** `xs.filter(x => valid.includes(x))`: the elements of `xs` that occur in `valid`,
      in their original order and with their original multiplicity. */
  function Filter<T(==,!new)>(xs: seq<T>, valid: seq<T>): (r: seq<T>)
    ensures |r| <= |xs|
    ensures forall x :: x in r <==> x in xs && x in valid
  {
    if |xs| == 0 then []
    else (if xs[0] in valid then [xs[0]] else []) + Filter(xs[1..], valid)
  }

  /** Every element of `xs` that `valid` lists survives the filter as many times as it
      occurs in `xs`; every other element is dropped completely. */
  lemma {:induction false} FilterMultiplicity<T(!new)>(xs: seq<T>, valid: seq<T>, x: T)
    ensures multiset(Filter(xs, valid))[x] == if x in valid then multiset(xs)[x] else 0
  {
    if |xs| > 0 {
      FilterMultiplicity(xs[1..], valid, x);
      assert xs == [xs[0]] + xs[1..];
    }
  }

  /** The filter keeps the relative order of the elements it keeps. */
  lemma {:induction false} FilterIsSubsequence<T(!new)>(xs: seq<T>, valid: seq<T>)
    ensures IsSubsequence(Filter(xs, valid), xs)
  {
    if |xs| > 0 {
      FilterIsSubsequence(xs[1..], valid);
      var rest := Filter(xs[1..], valid);
      if xs[0] in valid {
        assert Filter(xs, valid) == [xs[0]] + rest;
        assert ([xs[0]] + rest)[1..] == rest;
      } else {
        assert Filter(xs, valid) == rest;
        SubsequenceOfTail(rest, xs);
      }
    }
  }

  /** A subsequence of the tail of `b` is a subsequence of `b`. */
  lemma {:induction false} SubsequenceOfTail<T>(a: seq<T>, b: seq<T>)
    requires |b| > 0
    requires IsSubsequence(a, b[1..])
    ensures IsSubsequence(a, b)
    decreases |b|, 0
  {
    if |a| > 0 && a[0] == b[0] {
      SubsequenceDropHead(a, b[1..]);
    }
  }

  /** Dropping the first element of a subsequence keeps it a subsequence. */
  lemma {:induction false} SubsequenceDropHead<T>(a: seq<T>, c: seq<T>)
    requires |a| > 0
    requires IsSubsequence(a, c)
    ensures IsSubsequence(a[1..], c)
    decreases |c|, 1
  {
    if a[0] == c[0] {
      SubsequenceOfTail(a[1..], c);
    } else {
      SubsequenceDropHead(a, c[1..]);
      SubsequenceOfTail(a[1..], c);
    }
  }

  /** Filtering changes nothing exactly when every element is already valid. */
  lemma {:induction false} FilterKeepsAllIff<T(!new)>(xs: seq<T>, valid: seq<T>)
    ensures Filter(xs, valid) == xs <==> forall i :: 0 <= i < |xs| ==> xs[i] in valid
  {
    if |xs| > 0 {
      var tail := xs[1..];
      FilterKeepsAllIff(tail, valid);
      assert xs == [xs[0]] + tail;
      if xs[0] in valid {
        assert Filter(xs, valid) == [xs[0]] + Filter(tail, valid);
        assert (forall i :: 0 <= i < |xs| ==> xs[i] in valid)
            <==> (forall i :: 0 <= i < |tail| ==> tail[i] in valid) by {
          forall i | 0 <= i < |tail| ensures tail[i] == xs[i + 1] {}
        }
      } else {
        assert |Filter(xs, valid)| <= |tail|;
      }
    }
  }

  /** Filtering twice by the same list is filtering once. */
  lemma {:induction false} FilterIdempotent<T(!new)>(xs: seq<T>, valid: seq<T>)
    ensures Filter(Filter(xs, valid), valid) == Filter(xs, valid)
  {
    var r := Filter(xs, valid);
    forall i | 0 <= i < |r| ensures r[i] in valid {
      assert r[i] in r;
    }
    FilterKeepsAllIff(r, valid);
  }

  /** `xs.join(sep)`, which is what `xs.toString()` computes for a list of strings
      with `sep == ','`: the empty list gives the empty string. */
  function Join(xs: seq<string>, sep: char): (r: string)
    ensures |xs| == 0 ==> r == []
    ensures |xs| > 0 ==> xs[0] <= r
  {
    if |xs| == 0 then []
    else if |xs| == 1 then xs[0]
    else xs[0] + [sep] + Join(xs[1..], sep)
  }

  /** Joining separator-free pieces puts exactly one separator between neighbours. */
  lemma {:induction false} JoinSeparatorCount(xs: seq<string>, sep: char)
    requires |xs| > 0
    requires forall i :: 0 <= i < |xs| ==> sep !in xs[i]
    ensures multiset(Join(xs, sep))[sep] == |xs| - 1
  {
    if |xs| > 1 {
      JoinSeparatorCount(xs[1..], sep);
      assert multiset(xs[0])[sep] == 0 by { assert sep !in xs[0]; }
      assert multiset(xs[0] + [sep] + Join(xs[1..], sep))
          == multiset(xs[0]) + multiset([sep]) + multiset(Join(xs[1..], sep));
    } else {
      assert sep !in xs[0];
    }
  }

  /** Index of the first occurrence of `c` in `s`. */
  function IndexOf(s: string, c: char): (i: nat)
    requires c in s
    ensures i < |s| && s[i] == c && c !in s[..i]
  {
    if s[0] == c then 0 else 1 + IndexOf(s[1..], c)
  }

  /** `s.split(sep)` for a one-character separator: the pieces between separators,
      always at least one piece, none containing the separator. */
  function Split(s: string, sep: char): (r: seq<string>)
    ensures |r| > 0
    ensures forall i :: 0 <= i < |r| ==> sep !in r[i]
    decreases |s|
  {
    if sep in s then
      var i := IndexOf(s, sep);
      [s[..i]] + Split(s[i + 1..], sep)
    else
      [s]
  }

  /** Splitting at the first separator: a separator-free head followed by the
      separator is cut off as the first piece. */
  lemma SplitStep(head: string, sep: char, tail: string)
    requires sep !in head
    ensures Split(head + [sep] + tail, sep) == [head] + Split(tail, sep)
  {
    var s := head + [sep] + tail;
    assert s[|head|] == sep;
    assert s[..|head|] == head;
    var i := IndexOf(s, sep);
    assert i == |head|;
    assert s[i + 1..] == tail;
  }

  /** Splitting a join recovers the list, provided the list is non-empty and no
      element contains the separator. */
  lemma {:induction false} SplitJoin(xs: seq<string>, sep: char)
    requires |xs| > 0
    requires forall i :: 0 <= i < |xs| ==> sep !in xs[i]
    ensures Split(Join(xs, sep), sep) == xs
  {
    if |xs| == 1 {
      assert sep !in xs[0];
    } else {
      var rest := xs[1..];
      var joined := Join(rest, sep);
      forall i | 0 <= i < |rest| ensures sep !in rest[i] {
        assert rest[i] == xs[i + 1];
      }
      SplitJoin(rest, sep);
      assert sep !in xs[0];
      SplitStep(xs[0], sep, joined);
      calc {
        Split(Join(xs, sep), sep);
        Split(xs[0] + [sep] + joined, sep);
        [xs[0]] + Split(joined, sep);
        [xs[0]] + rest;
        xs;
      }
    }
  }
}
