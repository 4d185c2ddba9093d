/**
 * The list comprehension `[f(x) for x in xs if keep(x)]` and the loop
 * `for x in xs: if ...: out.append(...)`, both written as one filter-map:
 * `g(x)` is `Some(y)` when `x` is kept as `y`, `None` when `x` is dropped.
 */
module Lists {
  import opened Wrappers

  function Keep<T, U>(xs: seq<T>, g: T -> Option<U>): (ys: seq<U>)
    ensures |ys| <= |xs|
  {
    if xs == [] then []
    else (match g(xs[0]) case Some(y) => [y] case None => []) + Keep(xs[1..], g)
  }

  /** Filtering distributes over concatenation: what happens to one element never affects the others. */
  lemma {:induction false} KeepAppend<T, U>(xs: seq<T>, zs: seq<T>, g: T -> Option<U>)
    ensures Keep(xs + zs, g) == Keep(xs, g) + Keep(zs, g)
  {
    if xs == [] {
      assert xs + zs == zs;
    } else {
      assert (xs + zs)[1..] == xs[1..] + zs;
      KeepAppend(xs[1..], zs, g);
    }
  }

  /** A one-element list is kept exactly when `g` keeps its element. */
  lemma KeepSingle<T, U>(x: T, g: T -> Option<U>)
    ensures Keep([x], g) == (match g(x) case Some(y) => [y] case None => [])
  {
    assert [x][1..] == [];
  }

  /** Dropping one element between two segments leaves exactly the kept parts of both segments, in order. */
  lemma DropOne<T, U>(xs: seq<T>, x: T, zs: seq<T>, g: T -> Option<U>)
    requires g(x).None?
    ensures Keep(xs + [x] + zs, g) == Keep(xs, g) + Keep(zs, g)
  {
    KeepAppend(xs + [x], zs, g);
    KeepAppend(xs, [x], g);
    KeepSingle(x, g);
  }

  /** When every element is kept, nothing is lost: the output has the input's length and maps it pointwise. */
  lemma {:induction false} KeepAll<T, U>(xs: seq<T>, g: T -> Option<U>)
    requires forall i :: 0 <= i < |xs| ==> g(xs[i]).Some?
    ensures |Keep(xs, g)| == |xs|
    ensures forall i :: 0 <= i < |xs| ==> Keep(xs, g)[i] == g(xs[i]).value
  {
    if xs != [] {
      KeepAll(xs[1..], g);
    }
  }

  /** Every output element is the image of some kept input element. */
  lemma {:induction false} KeepSound<T, U>(xs: seq<T>, g: T -> Option<U>, k: nat)
    requires k < |Keep(xs, g)|
    ensures exists i :: 0 <= i < |xs| && g(xs[i]) == Some(Keep(xs, g)[k])
  {
    if g(xs[0]).Some? && k == 0 {
      assert g(xs[0]) == Some(Keep(xs, g)[k]);
    } else {
      var k' := if g(xs[0]).Some? then k - 1 else k;
      KeepSound(xs[1..], g, k');
      var i :| 0 <= i < |xs[1..]| && g(xs[1..][i]) == Some(Keep(xs[1..], g)[k']);
      assert g(xs[i + 1]) == Some(Keep(xs, g)[k]);
    }
  }

  /** Every kept input element appears in the output. */
  lemma {:induction false} KeepComplete<T, U>(xs: seq<T>, g: T -> Option<U>, i: nat)
    requires i < |xs| && g(xs[i]).Some?
    ensures g(xs[i]).value in Keep(xs, g)
  {
    if i > 0 {
      KeepComplete(xs[1..], g, i - 1);
    }
  }
}
