/**
 * The `Array.prototype` operations the handlers rely on: `filter`, `reverse`, `slice`
 * from the start, and `sort` with a comparator. The sort is stable, modelled as
 * insertion of each element before the first element of the sorted rest that it may
 * precede; the comparator is given as "a may come before b".
 */
module Arrays {
  import opened Text

  /** `s.filter(p)`: the elements satisfying p, in their order. */
  function Filter<T>(s: seq<T>, p: T -> bool): (r: seq<T>)
    ensures |r| <= |s|
    ensures forall i | 0 <= i < |r| :: p(r[i]) && r[i] in s
    ensures forall i | 0 <= i < |s| && p(s[i]) :: s[i] in r
    ensures multiset(r) <= multiset(s)
  {
    if s == [] then []
    else
      assert s == [s[0]] + s[1..];
      (if p(s[0]) then [s[0]] else []) + Filter(s[1..], p)
  }

  /** A single element is kept exactly when it satisfies p. */
  lemma {:induction false} FilterSingle<T>(x: T, p: T -> bool)
    ensures Filter([x], p) == if p(x) then [x] else []
  {
    assert [x][1..] == [];
  }

  /** A filter every element passes keeps the sequence as it is. */
  lemma {:induction false} FilterAll<T>(s: seq<T>, p: T -> bool)
    requires forall i | 0 <= i < |s| :: p(s[i])
    ensures Filter(s, p) == s
  {
    if s != [] {
      FilterAll(s[1..], p);
      assert s == [s[0]] + s[1..];
    }
  }

  /** Filtering a concatenation filters each part. */
  lemma {:induction false} FilterAppend<T>(a: seq<T>, b: seq<T>, p: T -> bool)
    ensures Filter(a + b, p) == Filter(a, p) + Filter(b, p)
  {
    if a == [] {
      assert a + b == b;
    } else {
      var h := if p(a[0]) then [a[0]] else [];
      var fa, fb := Filter(a[1..], p), Filter(b, p);
      assert (a + b)[0] == a[0] && (a + b)[1..] == a[1..] + b;
      FilterAppend(a[1..], b, p);
      assert Filter(a + b, p) == h + (fa + fb);
      AppendAssoc(h, fa, fb);
    }
  }

  /** Filtering keeps a sorted sequence sorted. */
  lemma {:induction false} FilterSorted<T>(s: seq<T>, p: T -> bool, le: (T, T) -> bool)
    requires SortedBy(s, le)
    ensures SortedBy(Filter(s, p), le)
  {
    if s != [] {
      var rest := Filter(s[1..], p);
      FilterSorted(s[1..], p, le);
      if p(s[0]) {
        var r := [s[0]] + rest;
        forall i, j | 0 <= i < j < |r| ensures le(r[i], r[j]) {
          if i == 0 {
            assert r[j] == rest[j - 1] && rest[j - 1] in s[1..];
            var m :| 0 <= m < |s[1..]| && s[1..][m] == r[j];
            assert s[m + 1] == r[j];
          } else {
            assert r[i] == rest[i - 1] && r[j] == rest[j - 1];
          }
        }
      }
    }
  }

  /** An element occurs in a filtered sequence as often as in the sequence when it passes, else never. */
  lemma {:induction false} FilterCount<T>(s: seq<T>, p: T -> bool, x: T)
    ensures multiset(Filter(s, p))[x] == if p(x) then multiset(s)[x] else 0
  {
    if s != [] {
      var h := if p(s[0]) then [s[0]] else [];
      FilterCount(s[1..], p, x);
      assert multiset(Filter(s, p)) == multiset(h) + multiset(Filter(s[1..], p));
      MultisetCons(s);
    }
  }

  /** The elements of a sequence are its first and those of its rest. */
  lemma {:induction false} MultisetCons<T>(s: seq<T>)
    requires s != []
    ensures multiset(s) == multiset{s[0]} + multiset(s[1..])
  {
    assert s == [s[0]] + s[1..];
  }

  /** Rearranging a sequence rearranges its filtering. */
  lemma {:induction false} FilterPermutation<T>(a: seq<T>, b: seq<T>, p: T -> bool)
    requires multiset(a) == multiset(b)
    ensures multiset(Filter(a, p)) == multiset(Filter(b, p))
    ensures |Filter(a, p)| == |Filter(b, p)|
  {
    forall x ensures multiset(Filter(a, p))[x] == multiset(Filter(b, p))[x] {
      FilterCount(a, p, x);
      FilterCount(b, p, x);
    }
    assert multiset(Filter(a, p)) == multiset(Filter(b, p));
    assert |multiset(Filter(a, p))| == |Filter(a, p)|;
    assert |multiset(Filter(b, p))| == |Filter(b, p)|;
  }

  /** What a loop pushing f(x) for each x of xs in turn builds. */
  function FlatMap<A, B>(xs: seq<A>, f: A -> seq<B>): seq<B> {
    if xs == [] then [] else FlatMap(xs[..|xs| - 1], f) + f(xs[|xs| - 1])
  }

  /** One more element pushes its part after the rest. */
  lemma {:induction false} FlatMapStep<A, B>(xs: seq<A>, i: nat, f: A -> seq<B>)
    requires i < |xs|
    ensures FlatMap(xs[..i + 1], f) == FlatMap(xs[..i], f) + f(xs[i])
  {
    assert xs[..i + 1][..i] == xs[..i];
  }

  /** The parts of a concatenation are the parts of each half. */
  lemma {:induction false} FlatMapAppend<A, B>(a: seq<A>, b: seq<A>, f: A -> seq<B>)
    ensures FlatMap(a + b, f) == FlatMap(a, f) + FlatMap(b, f)
    decreases |b|
  {
    if b == [] {
      assert a + b == a;
    } else {
      assert (a + b)[..|a + b| - 1] == a + b[..|b| - 1];
      FlatMapAppend(a, b[..|b| - 1], f);
    }
  }

  /** `s.reverse()`. */
  function Reverse<T>(s: seq<T>): (r: seq<T>)
    ensures |r| == |s|
    ensures forall i | 0 <= i < |s| :: r[i] == s[|s| - 1 - i]
  {
    if s == [] then [] else Reverse(s[1..]) + [s[0]]
  }

  /** `s.slice(0, n)`: the first n elements, or all of s when it is shorter. */
  function Take<T>(s: seq<T>, n: nat): (r: seq<T>)
    ensures |r| == if |s| <= n then |s| else n
    ensures forall i | 0 <= i < |r| :: r[i] == s[i]
  {
    if |s| <= n then s else s[..n]
  }

  /** The comparator orders every pair and is transitive. */
  ghost predicate TotalPreorder<T(!new)>(le: (T, T) -> bool) {
    (forall a, b :: le(a, b) || le(b, a))
    && (forall a, b, c :: le(a, b) && le(b, c) ==> le(a, c))
  }

  predicate SortedBy<T>(s: seq<T>, le: (T, T) -> bool) {
    forall i, j | 0 <= i < j < |s| :: le(s[i], s[j])
  }

  /**
   * Cutting a sorted sequence to its first n elements drops only elements that may
   * follow every element kept.
   */
  lemma {:induction false} TakeKeepsFirst<T>(s: seq<T>, n: nat, le: (T, T) -> bool)
    requires SortedBy(s, le)
    ensures multiset(Take(s, n)) <= multiset(s)
    ensures forall x, y | x in Take(s, n) && y in multiset(s) - multiset(Take(s, n)) :: le(x, y)
  {
    if |s| > n {
      assert s == s[..n] + s[n..];
      forall x, y | x in Take(s, n) && y in multiset(s) - multiset(Take(s, n)) ensures le(x, y) {
        LeftOver(s[..n], s[n..], y);
        HeadBeforeTail(s, n, le, x, y);
      }
    }
  }

  /** In a sorted sequence every element before position n may precede every element from n on. */
  lemma {:induction false} HeadBeforeTail<T>(s: seq<T>, n: nat, le: (T, T) -> bool, x: T, y: T)
    requires SortedBy(s, le) && n <= |s|
    requires x in s[..n] && y in s[n..]
    ensures le(x, y)
  {
    var a :| 0 <= a < n && s[..n][a] == x;
    var b :| 0 <= b < |s| - n && s[n..][b] == y;
    assert s[a] == x && s[n + b] == y;
  }

  /** What a concatenation holds beyond its first part is in its second part. */
  lemma {:induction false} LeftOver<T>(a: seq<T>, b: seq<T>, y: T)
    requires y in multiset(a + b) - multiset(a)
    ensures y in b
  {
    assert multiset(a + b) == multiset(a) + multiset(b);
  }

  /** x placed before the first element of s it may precede; s itself keeps its order. */
  function Insert<T>(x: T, s: seq<T>, le: (T, T) -> bool): (r: seq<T>)
    ensures |r| == |s| + 1
  {
    if s == [] || le(x, s[0]) then [x] + s
    else [s[0]] + Insert(x, s[1..], le)
  }

  /** Insertion adds exactly one copy of the element and loses none. */
  lemma {:induction false} InsertPermutes<T>(x: T, s: seq<T>, le: (T, T) -> bool)
    ensures multiset(Insert(x, s, le)) == multiset(s) + multiset{x}
  {
    if s != [] && !le(x, s[0]) {
      InsertPermutes(x, s[1..], le);
      MultisetCons(s);
    }
  }

  /** `s.sort(compare)` where `le(a, b)` means `compare(a, b) <= 0`. */
  function SortBy<T>(s: seq<T>, le: (T, T) -> bool): (r: seq<T>)
    ensures |r| == |s|
    ensures multiset(r) == multiset(s)
  {
    if s == [] then []
    else
      var rest := SortBy(s[1..], le);
      InsertPermutes(s[0], rest, le);
      MultisetCons(s);
      Insert(s[0], rest, le)
  }

  lemma {:induction false} InsertSorted<T(!new)>(x: T, s: seq<T>, le: (T, T) -> bool)
    requires TotalPreorder(le)
    requires SortedBy(s, le)
    ensures SortedBy(Insert(x, s, le), le)
  {
    if s == [] {
    } else if le(x, s[0]) {
      var r := [x] + s;
      forall i, j | 0 <= i < j < |r| ensures le(r[i], r[j]) {
        if i == 0 && j > 1 {
          assert le(x, s[0]) && le(s[0], s[j - 1]);
        }
      }
    } else {
      var tail := s[1..];
      assert SortedBy(tail, le);
      InsertSorted(x, tail, le);
      var rest := Insert(x, tail, le);
      InsertPermutes(x, tail, le);
      assert le(s[0], x);
      forall k | 0 <= k < |rest| ensures le(s[0], rest[k]) {
        assert rest[k] in multiset(rest);
        if rest[k] != x {
          assert rest[k] in multiset(tail);
          var m :| 0 <= m < |tail| && tail[m] == rest[k];
          assert s[m + 1] == rest[k];
        }
      }
      var r := [s[0]] + rest;
      forall i, j | 0 <= i < j < |r| ensures le(r[i], r[j]) {
        if i == 0 {
          assert r[j] == rest[j - 1];
        } else {
          assert r[i] == rest[i - 1] && r[j] == rest[j - 1];
        }
      }
    }
  }

  /** The result of the sort is in the comparator's order. */
  lemma {:induction false} SortBySorts<T(!new)>(s: seq<T>, le: (T, T) -> bool)
    requires TotalPreorder(le)
    ensures SortedBy(SortBy(s, le), le)
  {
    if s != [] {
      SortBySorts(s[1..], le);
      InsertSorted(s[0], SortBy(s[1..], le), le);
    }
  }

  /** The elements tied with c: each of c and the element may come before the other. */
  function TiedWith<T>(le: (T, T) -> bool, c: T): T -> bool {
    y => le(c, y) && le(y, c)
  }

  /**
   * Among the elements tied with c, an inserted element lands before every one already
   * there: it may precede the first of them, so insertion stops at it or earlier.
   */
  lemma {:induction false} InsertBeforeTies<T>(x: T, s: seq<T>, le: (T, T) -> bool, c: T)
    requires forall y, z | TiedWith(le, c)(y) && TiedWith(le, c)(z) :: le(y, z)
    ensures Filter(Insert(x, s, le), TiedWith(le, c))
            == (if TiedWith(le, c)(x) then [x] else []) + Filter(s, TiedWith(le, c))
  {
    var p := TiedWith(le, c);
    var hx := if p(x) then [x] else [];
    if s == [] || le(x, s[0]) {
      FilterAppend([x], s, p);
      FilterSingle(x, p);
    } else {
      var t := s[1..];
      var h0, ft := if p(s[0]) then [s[0]] else [], Filter(t, p);
      InsertBeforeTies(x, t, le, c);
      FilterAppend([s[0]], Insert(x, t, le), p);
      FilterSingle(s[0], p);
      assert Filter(Insert(x, s, le), p) == h0 + (hx + ft);
      assert Filter(s, p) == h0 + ft;
      SwapPastEmpty(h0, hx, ft);
    }
  }

  /** Two parts of which one is empty can be put in either order. */
  lemma {:induction false} SwapPastEmpty<T>(a: seq<T>, b: seq<T>, f: seq<T>)
    requires a == [] || b == []
    ensures a + (b + f) == b + (a + f)
  {
    if a == [] {
      assert a + (b + f) == b + f;
    } else {
      assert a + (b + f) == a + f;
    }
  }

  /** Under a total preorder, any two elements tied with c may precede each other. */
  lemma {:induction false} TiesAreTied<T(!new)>(le: (T, T) -> bool, c: T)
    requires TotalPreorder(le)
    ensures forall y, z | TiedWith(le, c)(y) && TiedWith(le, c)(z) :: le(y, z)
  {
    forall y, z | TiedWith(le, c)(y) && TiedWith(le, c)(z) ensures le(y, z) {
      assert le(y, c) && le(c, z);
    }
  }

  /** The sort is stable: the elements tied with any c come out in their input order. */
  lemma {:induction false} SortByStable<T(!new)>(s: seq<T>, le: (T, T) -> bool, c: T)
    requires TotalPreorder(le)
    ensures Filter(SortBy(s, le), TiedWith(le, c)) == Filter(s, TiedWith(le, c))
  {
    if s != [] {
      var p := TiedWith(le, c);
      SortByStable(s[1..], le, c);
      TiesAreTied(le, c);
      InsertBeforeTies(s[0], SortBy(s[1..], le), le, c);
      assert s == [s[0]] + s[1..];
      FilterAppend([s[0]], s[1..], p);
      FilterSingle(s[0], p);
    }
  }

  /**
   * Insertion of `a[i]` into the sorted run `a[i + 1..]`: the elements it may not
   * precede move one place left and it lands in the gap.
   */
  method InsertInto<T>(a: array<T>, i: int, le: (T, T) -> bool)
    requires 0 <= i < a.Length
    modifies a
    ensures a[..i] == old(a[..i])
    ensures a[i..] == Insert(old(a[i]), old(a[i + 1..]), le)
  {
    ghost var t := a[i + 1..];
    ghost var head := a[..i];
    var x := a[i];
    var j := ShiftPast(a, i, x, le);
    assert forall m | 0 <= m < j - i :: !le(x, t[m]) by {
      forall m | 0 <= m < j - i ensures !le(x, t[m]) {
        assert t[m] == old(a[i + 1 + m]);
      }
    }
    InsertLands(x, t, j - i, le);
    a[j] := x;
    ghost var r := Insert(x, t, le);
    forall k | i <= k < a.Length ensures a[k] == r[k - i] {
      if k < j {
        assert a[k] == t[k - i];
      } else if k > j {
        assert a[k] == t[k - 1 - i];
      }
    }
    assert a[i..] == r;
    assert a[..i] == head;
  }

  /**
   * The elements after `a[i]` that `x` may not precede each move one place left; `j` is
   * the gap they leave, just before the first element `x` may precede, if any.
   */
  method ShiftPast<T>(a: array<T>, i: int, x: T, le: (T, T) -> bool) returns (j: int)
    requires 0 <= i < a.Length
    modifies a
    ensures i <= j < a.Length
    ensures forall k | 0 <= k < i :: a[k] == old(a[k])
    ensures forall k | i <= k < j :: a[k] == old(a[k + 1])
    ensures forall k | j < k < a.Length :: a[k] == old(a[k])
    ensures forall k | i < k <= j :: !le(x, old(a[k]))
    ensures j + 1 == a.Length || le(x, a[j + 1])
  {
    j := i;
    while j + 1 < a.Length && !le(x, a[j + 1])
      invariant i <= j < a.Length
      invariant forall k | 0 <= k < i :: a[k] == old(a[k])
      invariant forall k | i <= k < j :: a[k] == old(a[k + 1])
      invariant forall k | j < k < a.Length :: a[k] == old(a[k])
      invariant forall k | i < k <= j :: !le(x, old(a[k]))
    {
      a[j] := a[j + 1];
      j := j + 1;
    }
  }

  /**
   * Where x lands: after the first d elements of t, when it may precede none of them but
   * may precede the next one (or there is none).
   */
  lemma {:induction false} InsertLands<T>(x: T, t: seq<T>, d: nat, le: (T, T) -> bool)
    requires d <= |t|
    requires forall m | 0 <= m < d :: !le(x, t[m])
    requires d == |t| || le(x, t[d])
    ensures var r := Insert(x, t, le);
            |r| == |t| + 1 && r[d] == x
            && (forall k | 0 <= k < d :: r[k] == t[k])
            && (forall k | d < k < |r| :: r[k] == t[k - 1])
  {
    if d > 0 {
      var tail := t[1..];
      assert !le(x, t[0]);
      assert forall m | 0 <= m < d - 1 :: !le(x, tail[m]) by {
        forall m | 0 <= m < d - 1 ensures !le(x, tail[m]) {
          assert tail[m] == t[m + 1];
        }
      }
      InsertLands(x, tail, d - 1, le);
    }
  }

  /** `a.sort(compare)` in place: the array ends as the stable sort of its old contents. */
  method SortInPlace<T>(a: array<T>, le: (T, T) -> bool)
    modifies a
    ensures a[..] == SortBy(old(a[..]), le)
  {
    ghost var s := a[..];
    var i := a.Length;
    while i > 0
      invariant 0 <= i <= a.Length
      invariant a[..i] == s[..i]
      invariant a[i..] == SortBy(s[i..], le)
    {
      i := i - 1;
      assert s[i..][1..] == s[i + 1..];
      InsertInto(a, i, le);
    }
    assert a[..] == a[0..];
  }
}
