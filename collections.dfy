/**
 * Sequence helpers for the list comprehensions the scheduler is built from: `range`-repetition,
 * and the nested two-generator comprehension, a Cartesian product.
 */
module Collections {
  import opened Wrappers

  /** `[x for _ in range(n)]`: empty for `n <= 0`, as `range` is. */
  function Repeat<T>(x: T, n: int): (r: seq<T>)
    ensures |r| == if n <= 0 then 0 else n
    ensures forall i :: 0 <= i < |r| ==> r[i] == x
  {
    if n <= 0 then [] else [x] + Repeat(x, n - 1)
  }

  /** One row of a product: `[(x, y) for y in ys]`. */
  function Row<A, B>(x: A, ys: seq<B>): (r: seq<(A, B)>)
    ensures |r| == |ys|
    ensures forall j :: 0 <= j < |ys| ==> r[j] == (x, ys[j])
  {
    seq(|ys|, j requires 0 <= j < |ys| => (x, ys[j]))
  }

  /** `[(x, y) for x in xs for y in ys]`: `xs` is the outer loop, `ys` the inner one. */
  function Product<A, B>(xs: seq<A>, ys: seq<B>): seq<(A, B)>
  {
    if |xs| == 0 then [] else Row(xs[0], ys) + Product(xs[1..], ys)
  }

  /** The product has one entry per pair, and pair `(i, j)` sits at `i * |ys| + j`. */
  lemma ProductAt<A, B>(xs: seq<A>, ys: seq<B>, i: nat, j: nat)
    requires i < |xs| && j < |ys|
    ensures |Product(xs, ys)| == |xs| * |ys|
    ensures i * |ys| + j < |Product(xs, ys)|
    ensures Product(xs, ys)[i * |ys| + j] == (xs[i], ys[j])
  {
    ProductLength(xs, ys);
    ProductAtRow(xs, ys, i, j);
    RowStartIsProduct(i, |ys|);
    RowStartIsProduct(|xs|, |ys|);
  }

  /** Where row `i` of a product with rows of length `m` starts: `m` added `i` times. */
  function RowStart(i: nat, m: nat): nat
  {
    if i == 0 then 0 else RowStart(i - 1, m) + m
  }

  lemma {:induction false} RowStartIsProduct(i: nat, m: nat)
    ensures RowStart(i, m) == i * m
  {
    if i > 0 {
      RowStartIsProduct(i - 1, m);
      assert i * m == (i - 1) * m + m;
    }
  }

  /** Pair `(i, j)` sits `j` entries into row `i`, which lies inside the product. */
  lemma {:induction false} ProductAtRow<A, B>(xs: seq<A>, ys: seq<B>, i: nat, j: nat)
    requires i < |xs| && j < |ys|
    ensures RowStart(i, |ys|) + j < |Product(xs, ys)| == RowStart(|xs|, |ys|)
    ensures Product(xs, ys)[RowStart(i, |ys|) + j] == (xs[i], ys[j])
  {
    var row, rest := Row(xs[0], ys), Product(xs[1..], ys);
    assert Product(xs, ys) == row + rest;
    if i > 0 {
      ProductAtRow(xs[1..], ys, i - 1, j);
      assert (row + rest)[|ys| + (RowStart(i - 1, |ys|) + j)] == rest[RowStart(i - 1, |ys|) + j];
    } else {
      assert (row + rest)[j] == row[j];
      if |xs| > 1 {
        ProductAtRow(xs[1..], ys, 0, j);
      } else {
        assert rest == [];
      }
    }
  }

  lemma {:induction false} ProductLength<A, B>(xs: seq<A>, ys: seq<B>)
    ensures |Product(xs, ys)| == |xs| * |ys|
  {
    if |xs| > 0 {
      ProductLength(xs[1..], ys);
      assert |xs| * |ys| == |ys| + (|xs| - 1) * |ys|;
    }
  }

  /** Every entry of the product is some pair `(xs[i], ys[j])`. */
  lemma {:induction false} ProductMember<A, B>(xs: seq<A>, ys: seq<B>, k: nat)
    requires k < |Product(xs, ys)|
    ensures exists i, j :: 0 <= i < |xs| && 0 <= j < |ys| && Product(xs, ys)[k] == (xs[i], ys[j])
  {
    if k < |ys| {
      assert Product(xs, ys)[k] == (xs[0], ys[k]);
    } else {
      ProductMember(xs[1..], ys, k - |ys|);
      var i, j :| 0 <= i < |xs| - 1 && 0 <= j < |ys| && Product(xs[1..], ys)[k - |ys|] == (xs[1..][i], ys[j]);
      assert Product(xs, ys)[k] == (xs[i + 1], ys[j]);
    }
  }

  // ---------------------------------------------------------------------------------------------
  // a loop that may raise

  /**
   * `[f(x) for x in xs]` where `f` may raise: the results in order, or the error of the first
   * element that fails, since the loop stops there.
   */
  function MapResult<A, B, E>(xs: seq<A>, f: A -> Result<B, E>): (r: Result<seq<B>, E>)
    ensures r.Ok? <==> forall i :: 0 <= i < |xs| ==> f(xs[i]).Ok?
    ensures r.Ok? ==> |r.value| == |xs|
    ensures r.Ok? ==> forall i :: 0 <= i < |xs| ==> f(xs[i]) == Ok(r.value[i])
    ensures r.Err? ==>
      exists i :: 0 <= i < |xs| && f(xs[i]) == Err(r.error) && (forall j :: 0 <= j < i ==> f(xs[j]).Ok?)
  {
    if |xs| == 0 then Ok([])
    else
      var front := xs[..|xs| - 1];
      assert forall i :: 0 <= i < |front| ==> front[i] == xs[i];
      match MapResult(front, f)
      case Err(e) => Err(e)
      case Ok(done) =>
        match f(xs[|xs| - 1])
        case Err(e) => Err(e)
        case Ok(y) => Ok(done + [y])
  }

  /** Running the loop over two lists in turn is running it over their concatenation. */
  lemma {:induction false} MapResultAppend<A, B, E>(xs: seq<A>, ys: seq<A>, f: A -> Result<B, E>)
    ensures MapResult(xs + ys, f) ==
      match MapResult(xs, f)
      case Err(e) => Err(e)
      case Ok(done) =>
        match MapResult(ys, f)
        case Err(e) => Err(e)
        case Ok(more) => Ok(done + more)
    decreases |ys|
  {
    if |ys| == 0 {
      assert xs + ys == xs;
      assert MapResult(ys, f) == Ok([]);
      if MapResult(xs, f).Ok? {
        assert MapResult(xs, f).value + [] == MapResult(xs, f).value;
      }
    } else {
      var front := ys[..|ys| - 1];
      assert (xs + ys)[..|xs + ys| - 1] == xs + front;
      assert (xs + ys)[|xs + ys| - 1] == ys[|ys| - 1];
      MapResultAppend(xs, front, f);
      if MapResult(xs, f).Ok? && MapResult(front, f).Ok? && f(ys[|ys| - 1]).Ok? {
        var a, b, c := MapResult(xs, f).value, MapResult(front, f).value, f(ys[|ys| - 1]).value;
        assert a + b + [c] == a + (b + [c]);
      }
    }
  }

  /** One more pass of the loop, when it does not raise. */
  lemma MapResultStep<A, B, E>(xs: seq<A>, f: A -> Result<B, E>, i: nat)
    requires i < |xs| && MapResult(xs[..i], f).Ok? && f(xs[i]).Ok?
    ensures MapResult(xs[..i + 1], f) == Ok(MapResult(xs[..i], f).value + [f(xs[i]).value])
  {
    assert xs[..i + 1][..i] == xs[..i];
  }

  /** The loop stops at the first element that raises, with that element's error. */
  lemma MapResultStopsAt<A, B, E>(xs: seq<A>, f: A -> Result<B, E>, i: nat)
    requires i < |xs| && MapResult(xs[..i], f).Ok? && f(xs[i]).Err?
    ensures MapResult(xs, f) == Err(f(xs[i]).error)
  {
    var head, tail := xs[..i + 1], xs[i + 1..];
    assert head[..i] == xs[..i] && head[i] == xs[i];
    assert MapResult(head, f) == Err(f(xs[i]).error);
    MapResultAppend(head, tail, f);
    assert head + tail == xs;
  }

  // ---------------------------------------------------------------------------------------------
  // filtering and flattening

  /** `[x for x in xs if p(x)]`. */
  function Filter<T(!new)>(xs: seq<T>, p: T -> bool): (r: seq<T>)
    ensures forall x :: x in r <==> x in xs && p(x)
  {
    if |xs| == 0 then []
    else
      var front := Filter(xs[..|xs| - 1], p);
      assert xs == xs[..|xs| - 1] + [xs[|xs| - 1]];
      if p(xs[|xs| - 1]) then front + [xs[|xs| - 1]] else front
  }

  /** `[y for x in xs for y in f(x)]`. */
  function FlatMap<T, P(!new)>(xs: seq<T>, f: T -> seq<P>): (r: seq<P>)
    ensures forall y :: y in r <==> exists i :: 0 <= i < |xs| && y in f(xs[i])
  {
    if |xs| == 0 then []
    else
      var front := xs[..|xs| - 1];
      assert forall i :: 0 <= i < |front| ==> front[i] == xs[i];
      FlatMap(front, f) + f(xs[|xs| - 1])
  }

  // ---------------------------------------------------------------------------------------------
  // sets of seen keys

  function ToSet<T>(s: seq<T>): set<T>
  {
    set x | x in s
  }

  /** How many entries repeat an earlier one: each key seen `k` times counts `k - 1`. */
  function Repeats<T(==)>(s: seq<T>): nat
  {
    if |s| == 0 then 0
    else Repeats(s[..|s| - 1]) + (if s[|s| - 1] in s[..|s| - 1] then 1 else 0)
  }

  /** The repeats are the entries minus the distinct keys. */
  lemma {:induction false} RepeatsCount<T>(s: seq<T>)
    ensures Repeats(s) + |ToSet(s)| == |s|
  {
    if |s| > 0 {
      var front := s[..|s| - 1];
      var x := s[|s| - 1];
      RepeatsCount(front);
      ToSetAppend(front, x);
      assert s == front + [x];
      if x in front {
        assert ToSet(s) == ToSet(front);
      } else {
        assert x !in ToSet(front);
        assert |ToSet(front) + {x}| == |ToSet(front)| + 1;
      }
    }
  }

  lemma ToSetAppend<T>(s: seq<T>, x: T)
    ensures ToSet(s + [x]) == ToSet(s) + {x}
    ensures (s + [x])[..|s|] == s
    ensures x in ToSet(s) <==> x in s
  {
    assert (s + [x])[..|s|] == s;
  }

  predicate NoRepeats<T(==)>(s: seq<T>)
  {
    forall i, j :: 0 <= i < j < |s| ==> s[i] != s[j]
  }

  lemma {:induction false} RepeatsZero<T>(s: seq<T>)
    ensures Repeats(s) == 0 <==> NoRepeats(s)
  {
    if |s| > 0 {
      var front := s[..|s| - 1];
      RepeatsZero(front);
      assert forall i :: 0 <= i < |front| ==> front[i] == s[i];
      if s[|s| - 1] in front {
        var i :| 0 <= i < |front| && front[i] == s[|s| - 1];
        assert s[i] == s[|s| - 1];
      }
    }
  }
}
