/** Vocabulary shared by the simulators: expert keys, sets of sequence elements, and the
    cardinality facts the counting arguments rest on. */
module Base {

  /** A (layer, expert) pair flattened to `layer * experts + expert`. */
  type Key = int

  /** Access groups in (step, layer) order. */
  type Trace = seq<seq<Key>>

  type byte = b: int | 0 <= b < 256

  datatype Option<+T> = None | Some(value: T)

  function ToSet<T>(s: seq<T>): set<T> {
    set x | x in s
  }

  ghost predicate Distinct<T>(s: seq<T>) {
    forall i, j :: 0 <= i < j < |s| ==> s[i] != s[j]
  }

  /** The members of the first `g` groups, in order. */
  function Flat<T>(groups: seq<seq<T>>, g: nat): seq<T>
    requires g <= |groups|
  {
    if g == 0 then [] else Flat(groups, g - 1) + groups[g - 1]
  }

  function Min(a: int, b: int): int {
    if a <= b then a else b
  }

  /** `m.get(k, 0)`. */
  function Get<K(==)>(m: map<K, int>, k: K): int {
    if k in m then m[k] else 0
  }

  /** The numbers from `lo` up to but not including `hi`. */
  function Range(lo: int, hi: int): (s: seq<int>)
    requires lo <= hi
    ensures |s| == hi - lo && forall i :: 0 <= i < |s| ==> s[i] == lo + i
  {
    seq(hi - lo, i => lo + i)
  }

  /** The set of those from zero up to but not including `n`. */
  ghost function Indices(n: nat): (r: set<int>)
    ensures |r| == n
    ensures forall j :: j in r <==> 0 <= j < n
  {
    if n == 0 then {} else Indices(n - 1) + {n - 1}
  }

  function Sum(s: seq<int>): int {
    if s == [] then 0 else Sum(s[..|s| - 1]) + s[|s| - 1]
  }

  lemma {:induction false} SumAppend(s: seq<int>, t: seq<int>)
    ensures Sum(s + t) == Sum(s) + Sum(t)
  {
    if t == [] {
      assert s + t == s;
    } else {
      assert (s + t)[..|s + t| - 1] == s + t[..|t| - 1];
      SumAppend(s, t[..|t| - 1]);
    }
  }

  lemma {:induction false} CardMono<T>(a: set<T>, b: set<T>)
    requires a <= b
    ensures |a| <= |b|
  {
    assert b == a + (b - a);
    assert |b| == |a| + |b - a|;
  }

  lemma SameCard<T>(a: set<T>, b: set<T>)
    requires a <= b && |a| == |b|
    ensures a == b
  {
    assert |b| == |a| + |b - a|;
    assert b == a + (b - a);
  }

  /** Each member of `s` with the same mark. */
  ghost function Marked<T>(mark: int, s: set<T>): set<(int, T)> {
    set x | x in s :: (mark, x)
  }

  lemma {:induction false} MarkedCard<T>(mark: int, s: set<T>)
    ensures |Marked(mark, s)| == |s|
  {
    if s == {} {
      assert Marked(mark, s) == {};
    } else {
      var x := Pick(s);
      MarkedCard(mark, s - {x});
      assert Marked(mark, s) == Marked(mark, s - {x}) + {(mark, x)};
    }
  }

  lemma {:induction false} CardSplit<T>(a: set<T>, b: set<T>)
    ensures |a| == |a * b| + |a - b|
  {
    assert a == (a * b) + (a - b);
  }

  lemma Pick<T>(s: set<T>) returns (x: T)
    requires s != {}
    ensures x in s
  {
    x :| x in s;
  }

  lemma PickOutside<T>(a: set<T>, b: set<T>) returns (x: T)
    requires !(a <= b)
    ensures x in a && x !in b
  {
    x :| x in a && x !in b;
  }

  lemma ToSetAppend<T>(s: seq<T>, t: seq<T>)
    ensures ToSet(s + t) == ToSet(s) + ToSet(t)
  {
  }

  lemma PrefixSet<T>(s: seq<T>, n: nat)
    requires 0 < n <= |s|
    ensures ToSet(s[..n]) == ToSet(s[..n - 1]) + {s[n - 1]}
  {
    assert s[..n] == s[..n - 1] + [s[n - 1]];
  }

  lemma {:induction false} ToSetCard<T>(s: seq<T>)
    ensures |ToSet(s)| <= |s|
  {
    if s != [] {
      ToSetCard(s[1..]);
      assert ToSet(s) == {s[0]} + ToSet(s[1..]);
    }
  }

  lemma {:induction false} DistinctCard<T>(s: seq<T>)
    requires Distinct(s)
    ensures |ToSet(s)| == |s|
  {
    if s != [] {
      DistinctCard(s[1..]);
      assert s == [s[0]] + s[1..];
      ToSetAppend([s[0]], s[1..]);
      assert ToSet([s[0]]) == {s[0]};
    }
  }

  lemma {:induction false} LastPosition<T>(s: seq<T>, x: T) returns (p: nat)
    requires x in s
    ensures p < |s| && s[p] == x && x !in s[p + 1..]
  {
    var front, last := s[..|s| - 1], s[|s| - 1];
    assert s == front + [last];
    if last == x {
      p := |s| - 1;
    } else {
      p := LastPosition(front, x);
      assert s[p + 1..] == front[p + 1..] + [last];
    }
  }

  lemma CountAppend<T>(a: seq<T>, b: seq<T>, x: T)
    ensures multiset(a + b)[x] == multiset(a)[x] + multiset(b)[x]
  {
  }

  lemma MulMono(x: nat, a: int, b: int)
    requires a <= b
    ensures x * a <= x * b
  {
    assert x * b == x * a + x * (b - a);
  }

  lemma MulSucc(x: int, a: int)
    ensures x * (a + 1) == x * a + x
  {
  }
}
