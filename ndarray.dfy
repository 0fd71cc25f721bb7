/**
 The numpy array operations the face verification script relies on, over nested
 sequences: row-major flattening and reshaping, the axis swap applied to every
 loaded image, `meshgrid` and the full transpose `.T` of a three-axis array.
 An n-axis array is an n-fold nested sequence whose shape is stated by a predicate.
 */
module NdArray {

  /** Every row of `rows` has length `w`. */
  predicate Uniform<T>(rows: seq<seq<T>>, w: nat)
  {
    forall i :: 0 <= i < |rows| ==> |rows[i]| == w
  }

  /** `a` has shape (d0, d1, d2). */
  predicate HasShape3<T>(a: seq<seq<seq<T>>>, d0: nat, d1: nat, d2: nat)
  {
    |a| == d0 && forall i :: 0 <= i < d0 ==> |a[i]| == d1 && Uniform(a[i], d2)
  }

  /** Row-major merge of the two outermost axes: the rows laid end to end. */
  function Concat<T>(rows: seq<seq<T>>): seq<T>
  {
    if rows == [] then [] else rows[0] + Concat(rows[1..])
  }

  /** `Concat` applied to every element of the outermost axis. */
  function ConcatEach<T>(x: seq<seq<seq<T>>>): (r: seq<seq<T>>)
    ensures |r| == |x|
  {
    seq(|x|, i requires 0 <= i < |x| => Concat(x[i]))
  }

  /**
   numpy `reshape((rows, w))` of a one-axis array: the elements of `s`, in order,
   regrouped into `rows` rows of `w` elements each.
   */
  function Reshape<T>(s: seq<T>, rows: nat, w: nat): (r: seq<seq<T>>)
    requires |s| == rows * w
    ensures |r| == rows && Uniform(r, w)
    decreases rows
  {
    if rows == 0 then []
    else
      MulSucc(rows, w);
      [s[..w]] + Reshape(s[w..], rows - 1, w)
  }

  /** numpy `swapaxes(g, 0, 1)` of an array of shape (|g|, w, ...). */
  function SwapAxes<T>(g: seq<seq<T>>, w: nat): (r: seq<seq<T>>)
    requires Uniform(g, w)
    ensures |r| == w && Uniform(r, |g|)
    ensures forall x, y :: 0 <= x < w && 0 <= y < |g| ==> r[x][y] == g[y][x]
  {
    seq(w, x requires 0 <= x < w => seq(|g|, y requires 0 <= y < |g| => g[y][x]))
  }

  /** numpy `meshgrid(xs, ys)` with its default Cartesian indexing: two arrays of shape (|ys|, |xs|). */
  function MeshGrid(xs: seq<int>, ys: seq<int>): (m: seq<seq<seq<int>>>)
    ensures HasShape3(m, 2, |ys|, |xs|)
    ensures forall r, c :: 0 <= r < |ys| && 0 <= c < |xs| ==> m[0][r][c] == xs[c] && m[1][r][c] == ys[r]
  {
    [ seq(|ys|, r => xs),
      seq(|ys|, r requires 0 <= r < |ys| => seq(|xs|, c => ys[r])) ]
  }

  /** numpy `.T` of a three-axis array: the axes reversed, so shape (d0, d1, d2) becomes (d2, d1, d0). */
  function Transpose3<T>(a: seq<seq<seq<T>>>, d0: nat, d1: nat, d2: nat): (t: seq<seq<seq<T>>>)
    requires HasShape3(a, d0, d1, d2)
    ensures HasShape3(t, d2, d1, d0)
    ensures forall i, j, k :: 0 <= i < d2 && 0 <= j < d1 && 0 <= k < d0 ==> t[i][j][k] == a[k][j][i]
  {
    seq(d2, i requires 0 <= i < d2 =>
      seq(d1, j requires 0 <= j < d1 =>
        seq(d0, k requires 0 <= k < d0 => a[k][j][i])))
  }

  /** One row fewer: a * b == (a - 1) * b + b. */
  lemma MulSucc(a: nat, b: nat)
    requires a > 0
    ensures a * b == (a - 1) * b + b
  {
  }

  lemma {:induction false} ConcatAppend<T>(a: seq<seq<T>>, b: seq<seq<T>>)
    ensures Concat(a + b) == Concat(a) + Concat(b)
  {
    if a == [] {
      assert a + b == b;
    } else {
      assert (a + b)[0] == a[0];
      assert (a + b)[1..] == a[1..] + b;
      ConcatAppend(a[1..], b);
    }
  }

  /** Flattening `n` rows of width `w` gives `n * w` elements. */
  lemma {:induction false} ConcatLength<T>(rows: seq<seq<T>>, w: nat)
    requires Uniform(rows, w)
    ensures |Concat(rows)| == |rows| * w
  {
    if rows != [] {
      ConcatLength(rows[1..], w);
      MulSucc(|rows|, w);
    }
  }

  /** Element (i, j) of a matrix of width `w` sits at `i * w + j` once flattened. */
  lemma {:induction false} ConcatAt<T>(rows: seq<seq<T>>, w: nat, i: nat, j: nat)
    requires Uniform(rows, w) && i < |rows| && j < w
    ensures i * w + j < |Concat(rows)| && Concat(rows)[i * w + j] == rows[i][j]
  {
    ConcatLength(rows, w);
    if i == 0 {
      assert Concat(rows) == rows[0] + Concat(rows[1..]);
    } else {
      ConcatAt(rows[1..], w, i - 1, j);
      assert i * w + j == w + ((i - 1) * w + j);
    }
  }

  /** Merging the two outer axes of a (d0, d1, d2) array gives d0 * d1 rows of width d2. */
  lemma {:induction false} ConcatShape3<T>(a: seq<seq<seq<T>>>, d0: nat, d1: nat, d2: nat)
    requires HasShape3(a, d0, d1, d2)
    ensures |Concat(a)| == d0 * d1 && Uniform(Concat(a), d2)
  {
    if a != [] {
      ConcatShape3(a[1..], d0 - 1, d1, d2);
      MulSucc(d0, d1);
      assert Concat(a) == a[0] + Concat(a[1..]);
    }
  }

  /** Flattening then regrouping by the row width gives the matrix back. */
  lemma {:induction false} ReshapeConcat<T>(m: seq<seq<T>>, w: nat)
    requires Uniform(m, w)
    ensures |Concat(m)| == |m| * w && Reshape(Concat(m), |m|, w) == m
  {
    ConcatLength(m, w);
    if m != [] {
      var flat := Concat(m);
      assert flat == m[0] + Concat(m[1..]);
      assert flat[..w] == m[0];
      assert flat[w..] == Concat(m[1..]);
      ReshapeConcat(m[1..], w);
    }
  }

  /** Regrouping then flattening gives the original elements back. */
  lemma {:induction false} ConcatReshape<T>(s: seq<T>, rows: nat, w: nat)
    requires |s| == rows * w
    ensures Concat(Reshape(s, rows, w)) == s
    decreases rows
  {
    if rows > 0 {
      MulSucc(rows, w);
      var r := Reshape(s, rows, w);
      assert r[0] == s[..w] && r[1..] == Reshape(s[w..], rows - 1, w);
      ConcatReshape(s[w..], rows - 1, w);
      assert s == s[..w] + s[w..];
    }
  }

  /** Flattening two levels at once equals flattening each element first. */
  lemma {:induction false} ConcatConcat<T>(x: seq<seq<seq<T>>>)
    ensures Concat(Concat(x)) == Concat(ConcatEach(x))
  {
    if x != [] {
      assert Concat(x) == x[0] + Concat(x[1..]);
      ConcatAppend(x[0], Concat(x[1..]));
      ConcatConcat(x[1..]);
      assert ConcatEach(x)[0] == Concat(x[0]);
      assert ConcatEach(x)[1..] == ConcatEach(x[1..]);
    }
  }

  /** Swapping the two outermost axes twice is the identity. */
  lemma SwapAxesInvolution<T>(g: seq<seq<T>>, w: nat)
    requires Uniform(g, w)
    ensures SwapAxes(SwapAxes(g, w), |g|) == g
  {
    var back := SwapAxes(SwapAxes(g, w), |g|);
    forall y | 0 <= y < |g|
      ensures back[y] == g[y]
    {
    }
  }
}
