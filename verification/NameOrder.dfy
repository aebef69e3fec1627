/** The order a subkey list is written in: a stable sort by lower-cased name. */
module NameOrder {
  import opened Text

  /** Python's <= on str, by code point. */
  predicate LexLe(a: string, b: string) {
    a == [] || (b != [] && (a[0] < b[0] || (a[0] == b[0] && LexLe(a[1..], b[1..]))))
  }

  lemma {:induction false} LexTotal(a: string, b: string)
    ensures LexLe(a, b) || LexLe(b, a)
  {
    if a != [] && b != [] && a[0] == b[0] {
      LexTotal(a[1..], b[1..]);
    }
  }

  lemma {:induction false} LexTransitive(a: string, b: string, c: string)
    requires LexLe(a, b) && LexLe(b, c)
    ensures LexLe(a, c)
  {
    if a != [] && a[0] == b[0] && b[0] == c[0] {
      LexTransitive(a[1..], b[1..], c[1..]);
    }
  }

  lemma {:induction false} LexAntisymmetric(a: string, b: string)
    requires LexLe(a, b) && LexLe(b, a)
    ensures a == b
  {
    if a == [] {
    } else {
      LexAntisymmetric(a[1..], b[1..]);
      assert a == [a[0]] + a[1..] && b == [b[0]] + b[1..];
    }
  }

  /** One text stands before another as a front of it, or with the smaller character where they first differ. */
  lemma {:induction false} LexLeMeans(a: string, b: string)
    ensures LexLe(a, b) <==> a <= b || exists k :: 0 <= k < |a| && k < |b| && DiffersFirst(a, b, k) && a[k] < b[k]
  {
    if a != [] && b != [] && a[0] == b[0] {
      LexLeMeans(a[1..], b[1..]);
      assert a == [a[0]] + a[1..] && b == [b[0]] + b[1..];
      if k :| 0 <= k < |a[1..]| && k < |b[1..]| && DiffersFirst(a[1..], b[1..], k) && a[1..][k] < b[1..][k] {
        assert a[..k + 1] == [a[0]] + a[1..][..k] && b[..k + 1] == [b[0]] + b[1..][..k];
        assert DiffersFirst(a, b, k + 1);
      }
      if k :| 0 <= k < |a| && k < |b| && DiffersFirst(a, b, k) && a[k] < b[k] {
        assert k > 0 && a[1..][..k - 1] == a[..k][1..] && b[1..][..k - 1] == b[..k][1..];
        assert DiffersFirst(a[1..], b[1..], k - 1);
      }
    } else if a != [] && b != [] {
      assert DiffersFirst(a, b, 0);
      if k :| 0 <= k < |a| && k < |b| && DiffersFirst(a, b, k) && k > 0 {
        assert a[..k][0] == b[..k][0];
      }
    }
  }

  predicate DiffersFirst(a: string, b: string, k: nat)
    requires k < |a| && k < |b|
  {
    a[..k] == b[..k] && a[k] != b[k]
  }

  /** Names that differ by ASCII capitals only compare as equal. */
  lemma CapitalsDoNotCount(a: string, b: string, m: string)
    requires IsSmall(m) && SameButCapitals(a, m) && SameButCapitals(b, m)
    ensures Lower(a) == m == Lower(b) && LexLe(Lower(a), Lower(b)) && LexLe(Lower(b), Lower(a))
  {
    hide Lower, LexLe;
    LowersTo(a, m);
    LowersTo(b, m);
    LexTotal(m, m);
  }

  /** Name i may stand before name j in a stable sort by lower-cased name. */
  predicate Before(names: seq<string>, i: nat, j: nat)
    requires i < |names| && j < |names|
  {
    LexLe(Lower(names[i]), Lower(names[j])) && (Lower(names[i]) == Lower(names[j]) ==> i < j)
  }

  /** `order` lists each of the first n indices once, as a stable sort by name does. */
  ghost predicate IsOrder(names: seq<string>, n: nat, order: seq<nat>)
    requires n <= |names|
  {
    && |order| == n
    && (forall p :: 0 <= p < n ==> order[p] < n)
    && (forall i :: 0 <= i < n ==> i in order)
    && (forall p, q :: 0 <= p < q < n ==> order[p] != order[q] && Before(names, order[p], order[q]))
  }

  function Insert(names: seq<string>, order: seq<nat>, k: nat): (r: seq<nat>)
    requires k < |names| && forall p :: 0 <= p < |order| ==> order[p] < |names|
    ensures |r| == |order| + 1
    ensures forall x :: x in r <==> x in order || x == k
  {
    if order == [] then [k]
    else if LexLe(Lower(names[order[0]]), Lower(names[k])) then [order[0]] + Insert(names, order[1..], k)
    else [k] + order
  }

  function OrderUpTo(names: seq<string>, n: nat): (order: seq<nat>)
    requires n <= |names|
    ensures |order| == n && forall p :: 0 <= p < n ==> order[p] < n
  {
    if n == 0 then []
    else
      var r := Insert(names, OrderUpTo(names, n - 1), n - 1);
      assert forall p :: 0 <= p < n ==> r[p] in r;
      r
  }

  /** The indices of `names` in sorted order. */
  function Order(names: seq<string>): (order: seq<nat>)
    ensures |order| == |names| && forall p :: 0 <= p < |order| ==> order[p] < |names|
  {
    OrderUpTo(names, |names|)
  }

  ghost predicate Chain(names: seq<string>, order: seq<nat>) {
    && (forall p :: 0 <= p < |order| ==> order[p] < |names|)
    && (forall p, q :: 0 <= p < q < |order| ==> order[p] != order[q] && Before(names, order[p], order[q]))
  }

  lemma {:induction false} InsertKeepsChain(names: seq<string>, order: seq<nat>, k: nat)
    requires k < |names| && Chain(names, order)
    requires forall p :: 0 <= p < |order| ==> order[p] < k
    ensures Chain(names, Insert(names, order, k))
  {
    hide LexLe, Lower;
    var r := Insert(names, order, k);
    if order == [] {
    } else {
      var h := order[0];
      if LexLe(Lower(names[h]), Lower(names[k])) {
        InsertKeepsChain(names, order[1..], k);
        var rest := Insert(names, order[1..], k);
        assert r == [h] + rest;
        forall q | 0 <= q < |rest|
          ensures h != rest[q] && Before(names, h, rest[q])
        {
          assert rest[q] in rest;
          if rest[q] in order[1..] {
            var i :| 0 <= i < |order[1..]| && order[1..][i] == rest[q];
            assert order[i + 1] == rest[q];
          }
        }
      } else {
        LexTotal(Lower(names[h]), Lower(names[k]));
        forall q | 0 <= q < |order|
          ensures Before(names, k, order[q])
        {
          assert order[q] in order;
          if q > 0 {
            assert Before(names, h, order[q]);
            LexTransitive(Lower(names[k]), Lower(names[h]), Lower(names[order[q]]));
          }
        }
      }
    }
  }

  lemma ChainSteps(names: seq<string>, order: seq<nat>)
    requires Chain(names, order)
    ensures forall p :: 0 <= p < |order| ==> order[p] < |names|
    ensures order != [] ==> Chain(names, order[1..])
  {
    hide Before;
  }

  /** A name that goes in front of a sorted list is not in it. */
  lemma FrontNameIsNew(names: seq<string>, order: seq<nat>, k: nat)
    requires k < |names| && Chain(names, order) && order != []
    requires !LexLe(Lower(names[order[0]]), Lower(names[k]))
    ensures forall p :: 0 <= p < |order| ==> names[order[p]] != names[k]
  {
    hide LexLe, Lower;
    LexTotal(Lower(names[k]), Lower(names[k]));
    forall p | 0 <= p < |order|
      ensures names[order[p]] != names[k]
    {
      assert p > 0 ==> Before(names, order[0], order[p]);
    }
  }

  lemma {:induction false} OrderUpToSorts(names: seq<string>, n: nat)
    requires n <= |names|
    ensures IsOrder(names, n, OrderUpTo(names, n))
  {
    hide Before, Insert, OrderUpTo;
    OrderNext(names, n);
    if n > 0 {
      OrderUpToSorts(names, n - 1);
      InsertKeepsChain(names, OrderUpTo(names, n - 1), n - 1);
    }
  }

  lemma OrderNext(names: seq<string>, n: nat)
    requires n <= |names|
    ensures n == 0 ==> OrderUpTo(names, n) == []
    ensures n > 0 ==> OrderUpTo(names, n) == Insert(names, OrderUpTo(names, n - 1), n - 1)
  {
    hide Insert;
  }

  lemma OrderIsChain(names: seq<string>, n: nat)
    requires n <= |names|
    ensures Chain(names, OrderUpTo(names, n))
  {
    hide Before;
    OrderUpToSorts(names, n);
  }

  /** Order() is a stable sort by lower-cased name ... */
  lemma OrderSorts(names: seq<string>)
    ensures IsOrder(names, |names|, Order(names))
  {
    OrderUpToSorts(names, |names|);
  }

  /** ... and a stable sort is unique, so any sorting algorithm gives the same list. */
  lemma StableSortIsUnique(names: seq<string>, a: seq<nat>, b: seq<nat>)
    requires IsOrder(names, |names|, a) && IsOrder(names, |names|, b)
    ensures a == b
  {
    ChainsWithTheSameMembersAgree(names, a, b);
  }

  lemma {:induction false} ChainsWithTheSameMembersAgree(names: seq<string>, a: seq<nat>, b: seq<nat>)
    requires Chain(names, a) && Chain(names, b) && |a| == |b|
    requires forall x :: x in a <==> x in b
    ensures a == b
  {
    if a == [] {
    } else {
      assert a[0] in a && b[0] in b;
      var i :| 0 <= i < |b| && b[i] == a[0];
      var j :| 0 <= j < |a| && a[j] == b[0];
      if i > 0 {
        assert Before(names, b[0], b[i]);
        if j > 0 {
          assert Before(names, a[0], a[j]);
          LexAntisymmetric(Lower(names[a[0]]), Lower(names[b[0]]));
        }
      }
      assert a[0] == b[0];
      forall x
        ensures x in a[1..] <==> x in b[1..]
      {
        assert a == [a[0]] + a[1..] && b == [b[0]] + b[1..];
        MembersOfTail(a, x);
        MembersOfTail(b, x);
      }
      ChainsWithTheSameMembersAgree(names, a[1..], b[1..]);
      assert a == [a[0]] + a[1..] && b == [b[0]] + b[1..];
    }
  }

  lemma MembersOfTail(a: seq<nat>, x: nat)
    requires a != [] && forall q :: 0 < q < |a| ==> a[q] != a[0]
    ensures x in a[1..] <==> x in a && x != a[0]
  {
    if x in a && x != a[0] {
      var i :| 0 <= i < |a| && a[i] == x;
      assert a[1..][i - 1] == x;
    }
  }

  /** The elements of xs in the given order. */
  function Pick<T>(xs: seq<T>, order: seq<nat>): (r: seq<T>)
    requires forall p :: 0 <= p < |order| ==> order[p] < |xs|
    ensures |r| == |order| && forall p :: 0 <= p < |order| ==> r[p] == xs[order[p]]
  {
    seq(|order|, p requires 0 <= p < |order| => xs[order[p]])
  }

  /** Sorting loses nothing and adds nothing. */
  lemma {:induction false} SortingPermutes<T>(names: seq<string>, xs: seq<T>, n: nat)
    requires |xs| == |names| && n <= |names|
    ensures multiset(Pick(xs, OrderUpTo(names, n))) == multiset(xs[..n])
  {
    hide Insert, OrderUpTo;
    OrderNext(names, n);
    if n > 0 {
      SortingPermutes(names, xs, n - 1);
      InsertAddsOne(names, xs, OrderUpTo(names, n - 1), n - 1);
      assert xs[..n] == xs[..n - 1] + [xs[n - 1]];
    }
  }

  lemma {:induction false} InsertAddsOne<T>(names: seq<string>, xs: seq<T>, order: seq<nat>, k: nat)
    requires |xs| == |names| && k < |names| && forall p :: 0 <= p < |order| ==> order[p] < |names|
    ensures var r := Insert(names, order, k);
            && (forall p :: 0 <= p < |r| ==> r[p] < |names|)
            && multiset(Pick(xs, r)) == multiset(Pick(xs, order)) + multiset{xs[k]}
  {
    hide LexLe, Lower, Pick;
    if order == [] {
      PickOfMore(xs, k, []);
    } else {
      InsertAddsOne(names, xs, order[1..], k);
      var rest := Insert(names, order[1..], k);
      assert order == [order[0]] + order[1..];
      PickOfMore(xs, order[0], rest);
      PickOfMore(xs, order[0], order[1..]);
      PickOfMore(xs, k, order);
    }
  }

  lemma PickOfMore<T>(xs: seq<T>, k: nat, order: seq<nat>)
    requires k < |xs| && forall p :: 0 <= p < |order| ==> order[p] < |xs|
    ensures forall p :: 0 <= p < |[k] + order| ==> ([k] + order)[p] < |xs|
    ensures Pick(xs, [k] + order) == [xs[k]] + Pick(xs, order)
    ensures multiset(Pick(xs, [k] + order)) == multiset{xs[k]} + multiset(Pick(xs, order))
    ensures order == [] ==> [k] + order == [k] && multiset(Pick(xs, order)) == multiset{}
  {
  }
}
