/** Lexicographic order and the uniqueness of strictly sorted listings. */
module Order {

  /** Lexicographic `<` on integer sequences: bytes or code points. */
  predicate LexLess(a: seq<int>, b: seq<int>) {
    b != [] && (a == [] || a[0] < b[0] || (a[0] == b[0] && LexLess(a[1..], b[1..])))
  }

  /** It means: at the first place where they differ the left one is smaller, or has ended there. */
  lemma {:induction false} LexMeans(a: seq<int>, b: seq<int>)
    ensures LexLess(a, b) <==>
      exists k: nat :: k <= |a| && k < |b| && a[..k] == b[..k] && (k == |a| || a[k] < b[k])
  {
    if LexLess(a, b) {
      var k := LexWitness(a, b);
    } else if k: nat :| k <= |a| && k < |b| && a[..k] == b[..k] && (k == |a| || a[k] < b[k]) {
      LexFrom(a, b, k);
    }
  }

  lemma {:induction false} LexWitness(a: seq<int>, b: seq<int>) returns (k: nat)
    requires LexLess(a, b)
    ensures k <= |a| && k < |b| && a[..k] == b[..k] && (k == |a| || a[k] < b[k])
  {
    if a == [] || a[0] < b[0] {
      k := 0;
    } else {
      var j := LexWitness(a[1..], b[1..]);
      k := j + 1;
      assert a[..k] == [a[0]] + a[1..][..j] && b[..k] == [b[0]] + b[1..][..j];
    }
  }

  lemma {:induction false} LexFrom(a: seq<int>, b: seq<int>, k: nat)
    requires k <= |a| && k < |b| && a[..k] == b[..k] && (k == |a| || a[k] < b[k])
    ensures LexLess(a, b)
  {
    if k > 0 {
      assert a[0] == a[..k][0] && b[0] == b[..k][0];
      assert a[1..][..k - 1] == a[..k][1..] && b[1..][..k - 1] == b[..k][1..];
      LexFrom(a[1..], b[1..], k - 1);
    }
  }

  lemma {:induction false} LexTransitive(a: seq<int>, b: seq<int>, c: seq<int>)
    requires LexLess(a, b) && LexLess(b, c)
    ensures LexLess(a, c)
  {
    if a != [] && a[0] == b[0] == c[0] {
      LexTransitive(a[1..], b[1..], c[1..]);
    }
  }

  lemma {:induction false} LexIrreflexive(a: seq<int>)
    ensures !LexLess(a, a)
  {
    if a != [] {
      LexIrreflexive(a[1..]);
    }
  }

  lemma {:induction false} LexTotal(a: seq<int>, b: seq<int>)
    requires a != b
    ensures LexLess(a, b) || LexLess(b, a)
  {
    if a != [] && b != [] && a[0] == b[0] {
      assert a == [a[0]] + a[1..] && b == [b[0]] + b[1..];
      LexTotal(a[1..], b[1..]);
    }
  }

  /** Only the tails after a common prefix decide. */
  lemma {:induction false} LexPrefix(p: seq<int>, a: seq<int>, b: seq<int>)
    ensures LexLess(p + a, p + b) == LexLess(a, b)
  {
    if p == [] {
      assert p + a == a && p + b == b;
    } else {
      assert (p + a)[1..] == p[1..] + a && (p + b)[1..] == p[1..] + b;
      LexPrefix(p[1..], a, b);
    }
  }

  // -- strictly sorted listings -------------------------------------------------

  ghost predicate Sorted<T>(less: (T, T) -> bool, xs: seq<T>) {
    forall i, j :: 0 <= i < j < |xs| ==> less(xs[i], xs[j])
  }

  /** `less` is a strict total order on the elements of `s`. */
  ghost predicate StrictOrderOn<T(!new)>(less: (T, T) -> bool, s: set<T>) {
    && (forall x :: x in s ==> !less(x, x))
    && (forall x, y, z :: x in s && y in s && z in s && less(x, y) && less(y, z) ==> less(x, z))
    && (forall x, y :: x in s && y in s && x != y ==> less(x, y) || less(y, x))
  }

  function Elements<T>(xs: seq<T>): set<T> {
    set x | x in xs
  }

  /** Two strictly sorted listings of one set are the same sequence. */
  lemma {:induction false} SortedUnique<T(!new)>(less: (T, T) -> bool, xs: seq<T>, ys: seq<T>)
    requires StrictOrderOn(less, Elements(xs))
    requires Sorted(less, xs) && Sorted(less, ys)
    requires Elements(xs) == Elements(ys)
    ensures xs == ys
  {
    assert xs != [] ==> xs[0] in Elements(xs);
    assert ys != [] ==> ys[0] in Elements(ys);
    if xs != [] {
      HeadIsLeast(less, xs, ys);
      TailElements(less, xs);
      TailElements(less, ys);
      SortedUnique(less, xs[1..], ys[1..]);
      assert xs == [xs[0]] + xs[1..] && ys == [ys[0]] + ys[1..];
    }
  }

  lemma HeadIsLeast<T(!new)>(less: (T, T) -> bool, xs: seq<T>, ys: seq<T>)
    requires xs != [] && ys != []
    requires StrictOrderOn(less, Elements(xs))
    requires Sorted(less, xs) && Sorted(less, ys)
    requires Elements(xs) == Elements(ys)
    ensures xs[0] == ys[0]
  {
    assert xs[0] in Elements(ys) && ys[0] in Elements(xs);
    assert forall x :: x in xs ==> x == xs[0] || less(xs[0], x);
    assert forall y :: y in ys ==> y == ys[0] || less(ys[0], y);
  }

  lemma TailElements<T(!new)>(less: (T, T) -> bool, xs: seq<T>)
    requires xs != [] && Sorted(less, xs) && StrictOrderOn(less, Elements(xs))
    ensures Elements(xs[1..]) == Elements(xs) - {xs[0]}
    ensures Sorted(less, xs[1..]) && StrictOrderOn(less, Elements(xs[1..]))
  {
    assert xs == [xs[0]] + xs[1..];
    forall x | x in xs[1..]
      ensures x in Elements(xs) && x != xs[0]
    {
      var k :| 0 <= k < |xs[1..]| && xs[1..][k] == x;
      assert less(xs[0], xs[k + 1]);
      assert xs[0] in Elements(xs) && xs[k + 1] in Elements(xs);
    }
  }

  /** Insertion into a sorted listing, after every entry not above `x` (stable). */
  function Insert<T>(less: (T, T) -> bool, x: T, xs: seq<T>): (r: seq<T>)
    ensures multiset(r) == multiset(xs) + multiset{x}
  {
    if xs == [] then [x]
    else if less(x, xs[0]) then [x] + xs
    else
      assert xs == [xs[0]] + xs[1..];
      [xs[0]] + Insert(less, x, xs[1..])
  }

  /** `sort` of a vector: stable, by the strict order `less`. */
  function Sort<T>(less: (T, T) -> bool, xs: seq<T>): (r: seq<T>)
    ensures multiset(r) == multiset(xs)
  {
    if xs == [] then []
    else
      assert xs == xs[..|xs| - 1] + [xs[|xs| - 1]];
      Insert(less, xs[|xs| - 1], Sort(less, xs[..|xs| - 1]))
  }

  ghost predicate Distinct<T>(xs: seq<T>) {
    forall i, j :: 0 <= i < j < |xs| ==> xs[i] != xs[j]
  }

  lemma {:induction false} SortIsSorted<T(!new)>(less: (T, T) -> bool, xs: seq<T>)
    requires Distinct(xs) && StrictOrderOn(less, Elements(xs))
    ensures Sorted(less, Sort(less, xs))
    ensures Elements(Sort(less, xs)) == Elements(xs)
  {
    SameElements(Sort(less, xs), xs);
    if xs != [] {
      var front, x := xs[..|xs| - 1], xs[|xs| - 1];
      SubsetOrder(less, Elements(front), Elements(xs));
      SortIsSorted(less, front);
      assert x !in Elements(front);
      InsertIsSorted(less, x, Sort(less, front), Elements(xs));
    }
  }

  lemma SubsetOrder<T(!new)>(less: (T, T) -> bool, s: set<T>, t: set<T>)
    requires s <= t && StrictOrderOn(less, t)
    ensures StrictOrderOn(less, s)
  {
  }

  lemma InsertElements<T>(less: (T, T) -> bool, x: T, xs: seq<T>)
    ensures Elements(Insert(less, x, xs)) == Elements(xs) + {x}
    ensures forall y :: y in Insert(less, x, xs) <==> y in xs || y == x
  {
    assert multiset(Insert(less, x, xs)) == multiset([x] + xs);
    SameElements(Insert(less, x, xs), [x] + xs);
    assert forall y :: y in Insert(less, x, xs) <==> y in Elements(Insert(less, x, xs));
    assert forall y :: y in [x] + xs <==> y in Elements([x] + xs);
  }

  lemma {:induction false} InsertIsSorted<T(!new)>(less: (T, T) -> bool, x: T, xs: seq<T>, all: set<T>)
    requires StrictOrderOn(less, all) && x in all && Elements(xs) <= all
    requires Sorted(less, xs) && x !in xs
    ensures Sorted(less, Insert(less, x, xs))
  {
    if xs != [] {
      assert xs[0] in Elements(xs);
      assert xs == [xs[0]] + xs[1..];
      if less(x, xs[0]) {
        forall k | 0 <= k < |xs|
          ensures less(x, xs[k])
        {
          assert xs[k] in Elements(xs);
        }
      } else {
        InsertIsSorted(less, x, xs[1..], all) by {
          assert Elements(xs[1..]) <= Elements(xs);
        }
        assert forall y :: y in xs[1..] ==> less(xs[0], y);
        assert less(xs[0], x);
        assert forall y :: y in Insert(less, x, xs[1..]) ==> y in xs[1..] || y == x by {
          InsertElements(less, x, xs[1..]);
        }
      }
    }
  }

  lemma SameElements<T>(xs: seq<T>, ys: seq<T>)
    requires multiset(xs) == multiset(ys)
    ensures Elements(xs) == Elements(ys)
    ensures |xs| == |ys|
  {
    assert |multiset(xs)| == |multiset(ys)|;
    forall x
      ensures x in xs <==> x in ys
    {
      assert x in xs <==> x in multiset(xs);
      assert x in ys <==> x in multiset(ys);
    }
  }
}
