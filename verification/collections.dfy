/** Sequence and set facts shared by the agents. */
module Collections {

  /** No element occurs twice. */
  predicate Distinct<T(==)>(s: seq<T>) {
    forall i, j :: 0 <= i < j < |s| ==> s[i] != s[j]
  }

  /** `a` can be obtained from `b` by deleting elements. */
  predicate Subsequence<T(==)>(a: seq<T>, b: seq<T>)
    decreases |b|
  {
    |a| == 0 || (|b| > 0 && if a[0] == b[0] then Subsequence(a[1..], b[1..]) else Subsequence(a, b[1..]))
  }

  /** Skipping the head of `b` keeps `a` a subsequence of it. */
  lemma {:induction false} SubsequenceSkip<T>(a: seq<T>, b: seq<T>)
    requires |b| > 0 && Subsequence(a, b[1..])
    ensures Subsequence(a, b)
    decreases |b|, 0
  {
    if |a| > 0 && a[0] == b[0] {
      SubsequenceTail(a, b[1..]);
    }
  }

  lemma {:induction false} SubsequenceTail<T>(a: seq<T>, b: seq<T>)
    requires |a| > 0 && Subsequence(a, b)
    ensures Subsequence(a[1..], b)
    decreases |b|, 1
  {
    if a[0] == b[0] {
      SubsequenceSkip(a[1..], b);
    } else {
      SubsequenceTail(a, b[1..]);
      SubsequenceSkip(a[1..], b);
    }
  }

  /** `s.index(x)`: the first position holding `x`. */
  function IndexOf<T(==)>(s: seq<T>, x: T): (k: nat)
    requires x in s
    ensures k < |s| && s[k] == x
    ensures forall j :: 0 <= j < k ==> s[j] != x
  {
    if s[0] == x then 0 else 1 + IndexOf(s[1..], x)
  }

  /** In a sequence without repeats, the first position of each element is its only one. */
  lemma FirstIndexOfDistinct<T>(s: seq<T>, k: nat)
    requires k < |s| && Distinct(s)
    ensures IndexOf(s, s[k]) == k
  {
    var j := IndexOf(s, s[k]);
    assert s[j] == s[k];
  }

  /** Python's `s[-n:]` for n > 0: the last `n` elements, or all of them. */
  function LastN<T>(s: seq<T>, n: nat): (r: seq<T>)
    requires n > 0
    ensures |r| == if |s| <= n then |s| else n
    ensures r == s[|s| - |r|..]
  {
    if |s| <= n then s else s[|s| - n..]
  }

  /** Keeping the last n of a buffer and then appending is the same as keeping the last n of the
      whole history: the buffer evicts oldest first. */
  lemma LastNOfLastN<T>(a: seq<T>, b: seq<T>, n: nat)
    requires n > 0
    ensures LastN(LastN(a, n) + b, n) == LastN(a + b, n)
  {
    var t := LastN(a, n);
    var c := t + b;
    var l := LastN(c, n);
    var r := LastN(a + b, n);
    assert |l| == |r|;
    forall i | 0 <= i < |l|
      ensures l[i] == r[i]
    {
      assert l[i] == c[|c| - |l| + i];
      assert r[i] == (a + b)[|a| + |b| - |r| + i];
      if |c| - |l| + i < |t| {
        assert c[|c| - |l| + i] == t[|c| - |l| + i] == a[|a| - |t| + |c| - |l| + i];
      } else {
        assert c[|c| - |l| + i] == b[|c| - |l| + i - |t|];
      }
    }
  }

  lemma DistinctAppend<T>(a: seq<T>, b: seq<T>)
    requires Distinct(a) && Distinct(b)
    requires forall x :: x in a ==> x !in b
    ensures Distinct(a + b)
  {
    forall i, j | 0 <= i < j < |a + b|
      ensures (a + b)[i] != (a + b)[j]
    {
      if i < |a| && j >= |a| {
        assert (a + b)[i] in a && (a + b)[j] in b;
      }
    }
  }

  /** A duplicate-free sequence has as many elements as its set. */
  lemma {:induction false} DistinctCard<T>(s: seq<T>)
    requires Distinct(s)
    ensures |set x | x in s| == |s|
  {
    if s != [] {
      DistinctCard(s[1..]);
      assert (set x | x in s) == {s[0]} + (set x | x in s[1..]);
      assert s[0] !in (set x | x in s[1..]);
    }
  }

  lemma {:induction false} SubsetCard<T>(a: set<T>, b: set<T>)
    requires a <= b
    ensures |a| <= |b|
    decreases |b|
  {
    if a != {} {
      var x :| x in a;
      SubsetCard(a - {x}, b - {x});
    }
  }

  /** `random.choice(options)` with the draw as the oracle's answer. */
  function Choice<T>(options: seq<T>, draw: nat): (r: T)
    requires |options| > 0
    ensures r in options
  {
    options[draw % |options|]
  }

  /** Every option is chosen by some draw: the one at its index. */
  lemma ChoiceReachable<T>(options: seq<T>, i: nat)
    requires i < |options|
    ensures Choice(options, i) == options[i]
  {
    assert i % |options| == i;
  }
}
