/**
 Training-set construction of the face verification script: loading a directory of
 images (`images_to_list`), labelling every image with the index of its person's
 directory and pairing every image with every image (`data_pre_processing`), and
 flattening images into vectors (`list_to_flatten`).

 Reading a directory and decoding and resizing its files is file and library I/O: a
 directory is given as the sequence of its decoded `dims` x `dims` RGB rasters, in
 listing order, and the training root as the sequence of its person directories.
 Pixel values are an opaque type `P`.
 */
module Dataset {
  import opened NdArray

  /** An image: rows x columns x colour channels. */
  type Image<P> = seq<seq<seq<P>>>

  /** Images are decoded as RGB, so every pixel has three channels. */
  const Channels: nat := 3

  predicate IsImage<P>(g: Image<P>, dims: nat)
  {
    HasShape3(g, dims, dims, Channels)
  }

  predicate AllImages<P>(gs: seq<Image<P>>, dims: nat)
  {
    forall k :: 0 <= k < |gs| ==> IsImage(gs[k], dims)
  }

  predicate AllPeople<P>(people: seq<seq<Image<P>>>, dims: nat)
  {
    forall i :: 0 <= i < |people| ==> AllImages(people[i], dims)
  }

  // ---------------------------------------------------------------------------
  // images_to_list
  // ---------------------------------------------------------------------------

  /** A decoded raster as the script keeps it: its two spatial axes swapped. */
  function Oriented<P>(raster: Image<P>, dims: nat): (g: Image<P>)
    requires IsImage(raster, dims)
    ensures IsImage(g, dims)
    ensures forall x, y, c :: 0 <= x < dims && 0 <= y < dims && 0 <= c < Channels ==>
              g[x][y][c] == raster[y][x][c]
  {
    SwapAxes(raster, dims)
  }

  /** The images of one directory, in listing order. */
  function OrientAll<P>(rasters: seq<Image<P>>, dims: nat): (gs: seq<Image<P>>)
    requires AllImages(rasters, dims)
    ensures |gs| == |rasters| && AllImages(gs, dims)
    ensures forall k :: 0 <= k < |rasters| ==> gs[k] == Oriented(rasters[k], dims)
  {
    seq(|rasters|, k requires 0 <= k < |rasters| => Oriented(rasters[k], dims))
  }

  /** Loads every image of a directory, one per entry, each with its axes swapped. */
  method ImagesToList<P>(rasters: seq<Image<P>>, dims: nat) returns (images: seq<Image<P>>)
    requires AllImages(rasters, dims)
    ensures images == OrientAll(rasters, dims)
    ensures |images| == |rasters|
    ensures forall k, x, y, c :: 0 <= k < |rasters| && 0 <= x < dims && 0 <= y < dims && 0 <= c < Channels ==>
              images[k][x][y][c] == rasters[k][y][x][c]
  {
    images := [];
    var k := 0;
    while k < |rasters|
      invariant 0 <= k <= |rasters|
      invariant images == OrientAll(rasters[..k], dims)
    {
      images := images + [Oriented(rasters[k], dims)];
      k := k + 1;
    }
    assert rasters[..k] == rasters;
  }

  /** Swapping the axes once more gives back the decoded raster. */
  lemma OrientedInvolution<P>(raster: Image<P>, dims: nat)
    requires IsImage(raster, dims)
    ensures Oriented(Oriented(raster, dims), dims) == raster
  {
    SwapAxesInvolution(raster, dims);
  }

  // ---------------------------------------------------------------------------
  // Labels
  // ---------------------------------------------------------------------------

  /** The number of entries of each person directory, in listing order. */
  function Counts<P>(people: seq<seq<Image<P>>>): seq<nat>
  {
    seq(|people|, i requires 0 <= i < |people| => |people[i]|)
  }

  function Repeat(x: nat, n: nat): seq<nat>
  {
    seq(n, _ => x)
  }

  /** The label list built directory by directory: directory i adds counts[i] copies of i. */
  function Labels(counts: seq<nat>): (r: seq<nat>)
    ensures |r| == Sum(counts)
  {
    if counts == [] then []
    else Labels(counts[..|counts| - 1]) + Repeat(|counts| - 1, counts[|counts| - 1])
  }

  function Sum(s: seq<nat>): nat
  {
    if s == [] then 0 else Sum(s[..|s| - 1]) + s[|s| - 1]
  }

  function SumSquares(s: seq<nat>): nat
  {
    if s == [] then 0 else SumSquares(s[..|s| - 1]) + s[|s| - 1] * s[|s| - 1]
  }

  /**
   All training images, directory after directory, in listing order: one image per
   directory entry, so exactly as many as there are labels.
   */
  function Loaded<P>(people: seq<seq<Image<P>>>, dims: nat): (r: seq<Image<P>>)
    requires AllPeople(people, dims)
    ensures |r| == Sum(Counts(people)) && AllImages(r, dims)
  {
    if people == [] then []
    else
      var m := |people| - 1;
      assert Counts(people)[..m] == Counts(people[..m]);
      Loaded(people[..m], dims) + OrientAll(people[m], dims)
  }

  /** Every label names one of the directories. */
  lemma {:induction false} LabelsBound(counts: seq<nat>)
    ensures forall k :: 0 <= k < |Labels(counts)| ==> Labels(counts)[k] < |counts|
  {
    if counts != [] {
      LabelsBound(counts[..|counts| - 1]);
    }
  }

  /** Labels never decrease along the list. */
  lemma {:induction false} LabelsSorted(counts: seq<nat>)
    ensures forall a, b :: 0 <= a <= b < |Labels(counts)| ==> Labels(counts)[a] <= Labels(counts)[b]
  {
    if counts != [] {
      var m := |counts| - 1;
      LabelsSorted(counts[..m]);
      LabelsBound(counts[..m]);
    }
  }

  /**
   Image j of directory i sits at position Sum(counts[..i]) + j of the image list,
   and the label at that position is i.
   */
  lemma {:induction false} LabelsTagImages<P>(people: seq<seq<Image<P>>>, dims: nat, i: nat, j: nat)
    requires AllPeople(people, dims) && i < |people| && j < |people[i]|
    ensures var o := Sum(Counts(people)[..i]);
      |Loaded(people, dims)| == |Labels(Counts(people))|
      && o + j < |Loaded(people, dims)|
      && Loaded(people, dims)[o + j] == Oriented(people[i][j], dims)
      && Labels(Counts(people))[o + j] == i
  {
    var m := |people| - 1;
    var init := people[..m];
    assert Counts(people)[..m] == Counts(init);
    if i == m {
      assert Counts(people)[..i] == Counts(init);
    } else {
      assert Counts(people)[..i] == Counts(init)[..i];
      LabelsTagImages(init, dims, i, j);
    }
  }

  /** The labels rebuilt before matching, one list of copies per directory: group e is counts[e] copies of e. */
  function LabelGroups(counts: seq<nat>): seq<seq<nat>>
  {
    seq(|counts|, e requires 0 <= e < |counts| => Repeat(e, counts[e]))
  }

  /** Chaining the groups together gives the same list as the training pass. */
  lemma {:induction false} GalleryLabelsAgree(counts: seq<nat>)
    ensures Concat(LabelGroups(counts)) == Labels(counts)
  {
    if counts != [] {
      var m := |counts| - 1;
      assert LabelGroups(counts) == LabelGroups(counts[..m]) + [Repeat(m, counts[m])];
      ConcatAppend(LabelGroups(counts[..m]), [Repeat(m, counts[m])]);
      assert Concat([Repeat(m, counts[m])]) == Repeat(m, counts[m]) + Concat([]);
      GalleryLabelsAgree(counts[..m]);
    }
  }

  /** The chained label groups: the label of every training image, as in the training pass. */
  function GalleryLabels(counts: seq<nat>): (r: seq<nat>)
    ensures r == Labels(counts)
  {
    GalleryLabelsAgree(counts);
    Concat(LabelGroups(counts))
  }

  // ---------------------------------------------------------------------------
  // Combinations and pair labels
  // ---------------------------------------------------------------------------

  function Range(n: nat): seq<int>
  {
    seq(n, i => i)
  }

  /**
   Every ordered pair of image indices, built as the script builds it: the mesh
   grid of range(n) with itself, transposed and reshaped to rows of two.
   */
  function Combinations(n: nat): (r: seq<seq<int>>)
    ensures |r| == n * n && Uniform(r, 2)
  {
    var t := Transpose3(MeshGrid(Range(n), Range(n)), 2, n, n);
    ConcatShape3(t, n, n, 2);
    ConcatLength(Concat(t), 2);
    var flat := Concat(Concat(t));
    assert |flat| / 2 == n * n;
    Reshape(flat, |flat| / 2, 2)
  }

  /** Every combination is a pair of indices below n. */
  predicate IndexPairs(comb: seq<seq<int>>, n: nat)
  {
    forall k :: 0 <= k < |comb| ==> |comb[k]| == 2 && 0 <= comb[k][0] < n && 0 <= comb[k][1] < n
  }

  /** The pair (i, j) is entry i * n + j: the first index varies slowest. */
  lemma CombinationsAt(n: nat, i: nat, j: nat)
    requires i < n && j < n
    ensures |Combinations(n)| == n * n
    ensures i * n + j < n * n && Combinations(n)[i * n + j] == [i, j]
  {
    var t := Transpose3(MeshGrid(Range(n), Range(n)), 2, n, n);
    ConcatShape3(t, n, n, 2);
    ReshapeConcat(Concat(t), 2);
    assert Combinations(n) == Concat(t);
    assert t[i][j] == [i, j];
    ConcatAt(t, n, i, j);
  }

  /** Entry k of the n * n combinations is (k / n, k % n). */
  lemma CombinationsEntry(n: nat, k: nat)
    requires k < n * n
    ensures |Combinations(n)| == n * n && 0 <= k / n < n && k % n < n
    ensures Combinations(n)[k] == [k / n, k % n]
  {
    DivModBelow(k, n);
    CombinationsAt(n, k / n, k % n);
  }

  /** There are n * n combinations, entry k being (k / n, k % n). */
  lemma CombinationsSpec(n: nat)
    ensures |Combinations(n)| == n * n && IndexPairs(Combinations(n), n)
    ensures forall k :: 0 <= k < n * n ==> Combinations(n)[k] == [k / n, k % n]
  {
    forall k | 0 <= k < n * n
      ensures Combinations(n)[k] == [k / n, k % n]
      ensures |Combinations(n)[k]| == 2 && 0 <= Combinations(n)[k][0] < n && 0 <= Combinations(n)[k][1] < n
    {
      CombinationsEntry(n, k);
    }
  }

  /** The `IndexPairs` half of `CombinationsSpec` alone, so that proofs needing only it stay free of the div/mod quantifier. */
  lemma CombinationsArePairs(n: nat)
    ensures IndexPairs(Combinations(n), n)
  {
    CombinationsSpec(n);
  }

  lemma DivModBelow(k: nat, n: nat)
    requires k < n * n
    ensures 0 <= k / n < n && k % n < n && k == (k / n) * n + k % n
  {
  }

  /** The first element of every pair: one per combination, each one of xs. */
  function PairFirsts<X>(xs: seq<X>, comb: seq<seq<int>>): (r: seq<X>)
    requires IndexPairs(comb, |xs|)
    ensures |r| == |comb| && forall k :: 0 <= k < |r| ==> r[k] in xs
  {
    seq(|comb|, k requires 0 <= k < |comb| => xs[comb[k][0]])
  }

  /** The second element of every pair: one per combination, each one of xs. */
  function PairSeconds<X>(xs: seq<X>, comb: seq<seq<int>>): (r: seq<X>)
    requires IndexPairs(comb, |xs|)
    ensures |r| == |comb| && forall k :: 0 <= k < |r| ==> r[k] in xs
  {
    seq(|comb|, k requires 0 <= k < |comb| => xs[comb[k][1]])
  }

  /** A boolean same-person flag converted to an integer. */
  function Same(a: nat, b: nat): int
  {
    if a == b then 1 else 0
  }

  /** The same-person flag of every pair, as an integer: one per combination, each 0 or 1. */
  function PairLabels(labels: seq<nat>, comb: seq<seq<int>>): (r: seq<int>)
    requires IndexPairs(comb, |labels|)
    ensures |r| == |comb| && forall k :: 0 <= k < |r| ==> r[k] == 0 || r[k] == 1
  {
    seq(|comb|, k requires 0 <= k < |comb| => Same(labels[comb[k][0]], labels[comb[k][1]]))
  }

  /**
   Entry k of the pairs holds image k / n first, image k % n second, and the flag
   comparing their labels.
   */
  lemma PairsAt<X>(xs: seq<X>, labels: seq<nat>)
    requires |xs| == |labels|
    ensures var n := |labels|;
      IndexPairs(Combinations(n), n) && |Combinations(n)| == n * n
      && forall k :: 0 <= k < n * n ==>
           k / n < n && k % n < n
           && PairFirsts(xs, Combinations(n))[k] == xs[k / n]
           && PairSeconds(xs, Combinations(n))[k] == xs[k % n]
           && PairLabels(labels, Combinations(n))[k] == Same(labels[k / n], labels[k % n])
  {
    var n := |labels|;
    CombinationsSpec(n);
    forall k | 0 <= k < n * n
      ensures k / n < n && k % n < n
    {
      DivModBelow(k, n);
    }
  }

  /** Pairs of images are images. */
  lemma PairImagesShape<P>(images: seq<Image<P>>, comb: seq<seq<int>>, dims: nat)
    requires AllImages(images, dims) && IndexPairs(comb, |images|)
    ensures AllImages(PairFirsts(images, comb), dims) && AllImages(PairSeconds(images, comb), dims)
  {
  }

  /** Every image is paired with itself, and a self-pair is always labelled 1. */
  lemma SelfPairsPositive<X>(xs: seq<X>, labels: seq<nat>, i: nat)
    requires |xs| == |labels| && i < |labels|
    ensures var n := |labels|;
      IndexPairs(Combinations(n), n) && |Combinations(n)| == n * n
      && i * n + i < n * n
      && PairFirsts(xs, Combinations(n))[i * n + i] == xs[i]
      && PairSeconds(xs, Combinations(n))[i * n + i] == xs[i]
      && PairLabels(labels, Combinations(n))[i * n + i] == 1
  {
    CombinationsArePairs(|labels|);
    CombinationsAt(|labels|, i, i);
  }

  /** The pair (j, i) is the mirror of the pair (i, j) and carries the same label. */
  lemma PairsSymmetric<X>(xs: seq<X>, labels: seq<nat>, i: nat, j: nat)
    requires |xs| == |labels| && i < |labels| && j < |labels|
    ensures var n := |labels|;
      IndexPairs(Combinations(n), n) && |Combinations(n)| == n * n
      && i * n + j < n * n && j * n + i < n * n
      && PairFirsts(xs, Combinations(n))[i * n + j] == PairSeconds(xs, Combinations(n))[j * n + i]
      && PairSeconds(xs, Combinations(n))[i * n + j] == PairFirsts(xs, Combinations(n))[j * n + i]
      && PairLabels(labels, Combinations(n))[i * n + j] == PairLabels(labels, Combinations(n))[j * n + i]
  {
    CombinationsArePairs(|labels|);
    CombinationsAt(|labels|, i, j);
    CombinationsAt(|labels|, j, i);
  }

  /** The first n second components are the images themselves, in order. */
  lemma GalleryIsImages<X>(xs: seq<X>)
    ensures var n := |xs|;
      IndexPairs(Combinations(n), n) && |Combinations(n)| == n * n
      && n <= n * n && PairSeconds(xs, Combinations(n))[..n] == xs
  {
    var n := |xs|;
    CombinationsArePairs(n);
    if n > 0 {
      MulSucc(n, n);
      forall k | 0 <= k < n
        ensures PairSeconds(xs, Combinations(n))[k] == xs[k]
      {
        CombinationsAt(n, 0, k);
      }
    }
  }

  // ---------------------------------------------------------------------------
  // Counting positive pairs
  // ---------------------------------------------------------------------------

  function CountOnes(y: seq<int>): nat
  {
    if y == [] then 0 else (if y[0] == 1 then 1 else 0) + CountOnes(y[1..])
  }

  /** How many entries of m equal x. */
  function Occ(m: seq<nat>, x: nat): nat
  {
    if m == [] then 0 else (if m[0] == x then 1 else 0) + Occ(m[1..], x)
  }

  /** For each element of xs, how many entries of m equal it, summed. */
  function Matches(xs: seq<nat>, m: seq<nat>): nat
  {
    if xs == [] then 0 else Occ(m, xs[0]) + Matches(xs[1..], m)
  }

  function SameRow(x: nat, m: seq<nat>): seq<int>
  {
    seq(|m|, j requires 0 <= j < |m| => Same(x, m[j]))
  }

  function SameRows(xs: seq<nat>, m: seq<nat>): seq<seq<int>>
  {
    seq(|xs|, i requires 0 <= i < |xs| => SameRow(xs[i], m))
  }

  lemma {:induction false} CountOnesAppend(a: seq<int>, b: seq<int>)
    ensures CountOnes(a + b) == CountOnes(a) + CountOnes(b)
  {
    if a == [] {
      assert a + b == b;
    } else {
      assert (a + b)[1..] == a[1..] + b;
      CountOnesAppend(a[1..], b);
    }
  }

  lemma {:induction false} OccAppend(a: seq<nat>, b: seq<nat>, x: nat)
    ensures Occ(a + b, x) == Occ(a, x) + Occ(b, x)
  {
    if a == [] {
      assert a + b == b;
    } else {
      assert (a + b)[1..] == a[1..] + b;
      OccAppend(a[1..], b, x);
    }
  }

  lemma {:induction false} OccRepeat(v: nat, c: nat, x: nat)
    ensures Occ(Repeat(v, c), x) == if x == v then c else 0
  {
    if c > 0 {
      assert Repeat(v, c)[1..] == Repeat(v, c - 1);
      OccRepeat(v, c - 1, x);
    }
  }

  lemma {:induction false} OccAbsent(m: seq<nat>, x: nat)
    requires forall k :: 0 <= k < |m| ==> m[k] != x
    ensures Occ(m, x) == 0
  {
    if m != [] {
      OccAbsent(m[1..], x);
    }
  }

  lemma {:induction false} MatchesAppendLeft(a: seq<nat>, b: seq<nat>, m: seq<nat>)
    ensures Matches(a + b, m) == Matches(a, m) + Matches(b, m)
  {
    if a == [] {
      assert a + b == b;
    } else {
      assert (a + b)[1..] == a[1..] + b;
      MatchesAppendLeft(a[1..], b, m);
    }
  }

  lemma {:induction false} MatchesAppendRight(xs: seq<nat>, a: seq<nat>, b: seq<nat>)
    ensures Matches(xs, a + b) == Matches(xs, a) + Matches(xs, b)
  {
    if xs != [] {
      OccAppend(a, b, xs[0]);
      MatchesAppendRight(xs[1..], a, b);
    }
  }

  lemma {:induction false} MatchesRepeatLeft(v: nat, c: nat, m: seq<nat>)
    ensures Matches(Repeat(v, c), m) == c * Occ(m, v)
  {
    if c > 0 {
      assert Repeat(v, c)[1..] == Repeat(v, c - 1);
      MatchesRepeatLeft(v, c - 1, m);
    }
  }

  lemma {:induction false} MatchesAbsentRight(xs: seq<nat>, v: nat, c: nat)
    requires forall k :: 0 <= k < |xs| ==> xs[k] != v
    ensures Matches(xs, Repeat(v, c)) == 0
  {
    if xs != [] {
      OccRepeat(v, c, xs[0]);
      MatchesAbsentRight(xs[1..], v, c);
    }
  }

  lemma {:induction false} CountOnesRow(x: nat, m: seq<nat>)
    ensures CountOnes(SameRow(x, m)) == Occ(m, x)
  {
    if m != [] {
      assert SameRow(x, m)[1..] == SameRow(x, m[1..]);
      CountOnesRow(x, m[1..]);
    }
  }

  lemma {:induction false} CountOnesRows(xs: seq<nat>, m: seq<nat>)
    ensures CountOnes(Concat(SameRows(xs, m))) == Matches(xs, m)
  {
    if xs != [] {
      var rows := SameRows(xs, m);
      assert rows[0] == SameRow(xs[0], m);
      assert rows[1..] == SameRows(xs[1..], m);
      CountOnesAppend(rows[0], Concat(rows[1..]));
      CountOnesRow(xs[0], m);
      CountOnesRows(xs[1..], m);
    }
  }

  /** Summed over every image, the number of images sharing its label is the sum of squared counts. */
  lemma {:induction false} LabelsSelfMatches(counts: seq<nat>)
    ensures Matches(Labels(counts), Labels(counts)) == SumSquares(counts)
  {
    if counts != [] {
      var m := |counts| - 1;
      var c := counts[m];
      var pre := Labels(counts[..m]);
      var rep := Repeat(m, c);
      LabelsBound(counts[..m]);
      MatchesAppendLeft(pre, rep, pre + rep);
      MatchesAppendRight(pre, pre, rep);
      MatchesAppendRight(rep, pre, rep);
      MatchesAbsentRight(pre, m, c);
      MatchesRepeatLeft(m, c, pre);
      OccAbsent(pre, m);
      MatchesRepeatLeft(m, c, rep);
      OccRepeat(m, c, m);
      LabelsSelfMatches(counts[..m]);
    }
  }

  /** The pair labels, read row by row: row i compares image i with every image. */
  lemma PairLabelsRows(labels: seq<nat>)
    ensures IndexPairs(Combinations(|labels|), |labels|) && |Combinations(|labels|)| == |labels| * |labels|
    ensures PairLabels(labels, Combinations(|labels|)) == Concat(SameRows(labels, labels))
  {
    var n := |labels|;
    CombinationsSpec(n);
    ConcatLength(SameRows(labels, labels), n);
    forall k | 0 <= k < n * n
      ensures PairLabels(labels, Combinations(n))[k] == Concat(SameRows(labels, labels))[k]
    {
      PairLabelsRowsAt(labels, k);
    }
  }

  lemma PairLabelsRowsAt(labels: seq<nat>, k: nat)
    requires IndexPairs(Combinations(|labels|), |labels|) && k < |labels| * |labels|
    ensures k < |Combinations(|labels|)| && k < |Concat(SameRows(labels, labels))|
    ensures PairLabels(labels, Combinations(|labels|))[k] == Concat(SameRows(labels, labels))[k]
  {
    var n := |labels|;
    var rows := SameRows(labels, labels);
    var i, j := k / n, k % n;
    DivModBelow(k, n);
    CombinationsEntry(n, k);
    assert Combinations(n)[k] == [i, j];
    ConcatAt(rows, n, i, j);
    assert Concat(rows)[k] == rows[i][j] == Same(labels[i], labels[j]);
  }

  /**
   The number of pairs labelled 1 is the sum, over people, of the square of the
   number of images of that person.
   */
  lemma PositivePairs(counts: seq<nat>)
    ensures var labels := Labels(counts);
      IndexPairs(Combinations(|labels|), |labels|)
      && CountOnes(PairLabels(labels, Combinations(|labels|))) == SumSquares(counts)
  {
    var labels := Labels(counts);
    PairLabelsRows(labels);
    CountOnesRows(labels, labels);
    LabelsSelfMatches(counts);
  }

  /** Two images of one person and one of another: nine pairs, five of them labelled 1. */
  lemma TwoAndOneScenario()
    ensures Labels([2, 1]) == [0, 0, 1]
    ensures IndexPairs(Combinations(3), 3) && |Combinations(3)| == 9
    ensures CountOnes(PairLabels([0, 0, 1], Combinations(3))) == 5
  {
    var counts: seq<nat> := [2, 1];
    assert counts[..1] == [2] && [2][..0] == [];
    assert Labels(counts) == [0, 0, 1];
    PositivePairs(counts);
    CombinationsSpec(3);
  }

  // ---------------------------------------------------------------------------
  // data_pre_processing
  // ---------------------------------------------------------------------------

  /**
   Loads every person directory, labels each image with its directory's position in
   the listing, and returns every ordered pair of images with a same-person flag.
   */
  method DataPreProcessing<P>(people: seq<seq<Image<P>>>, dims: nat)
    returns (c1: seq<Image<P>>, c2: seq<Image<P>>, y: seq<int>)
    requires AllPeople(people, dims)
    ensures var images, labels := Loaded(people, dims), Labels(Counts(people));
      |images| == |labels| && IndexPairs(Combinations(|labels|), |labels|)
      && c1 == PairFirsts(images, Combinations(|labels|))
      && c2 == PairSeconds(images, Combinations(|labels|))
      && y == PairLabels(labels, Combinations(|labels|))
    ensures CountOnes(y) == SumSquares(Counts(people))
    ensures AllImages(c1, dims) && AllImages(c2, dims)
    ensures |Loaded(people, dims)| <= |c2| && c2[..|Loaded(people, dims)|] == Loaded(people, dims)
  {
    var images: seq<Image<P>> := [];
    var labels: seq<nat> := [];
    var i := 0;
    while i < |people|
      invariant 0 <= i <= |people|
      invariant images == Loaded(people[..i], dims)
      invariant labels == Labels(Counts(people)[..i])
    {
      var loaded := ImagesToList(people[i], dims);
      assert people[..i + 1][..i] == people[..i];
      assert Counts(people)[..i + 1][..i] == Counts(people)[..i];
      images := images + loaded;
      labels := labels + Repeat(i, |people[i]|);
      i := i + 1;
    }
    assert people[..i] == people;
    assert Counts(people)[..i] == Counts(people);
    CombinationsArePairs(|labels|);
    var combinations := Combinations(|labels|);
    c1 := PairFirsts(images, combinations);
    c2 := PairSeconds(images, combinations);
    y := PairLabels(labels, combinations);
    PositivePairs(Counts(people));
    PairImagesShape(images, combinations, dims);
    GalleryIsImages(images);
  }

  // ---------------------------------------------------------------------------
  // list_to_flatten
  // ---------------------------------------------------------------------------

  /** One image as a vector of dims * dims * 3 values: row-major over rows, columns and channels. */
  function Ravel<P>(g: Image<P>, dims: nat): (v: seq<P>)
    requires IsImage(g, dims)
    ensures |v| == dims * dims * Channels
  {
    ConcatShape3(g, dims, dims, Channels);
    ConcatLength(Concat(g), Channels);
    Concat(Concat(g))
  }

  /** Value (x, y, c) of an image is at (x * dims + y) * 3 + c of its vector. */
  lemma RavelAt<P>(g: Image<P>, dims: nat, x: nat, y: nat, c: nat)
    requires IsImage(g, dims) && x < dims && y < dims && c < Channels
    ensures (x * dims + y) * Channels + c < |Ravel(g, dims)|
    ensures Ravel(g, dims)[(x * dims + y) * Channels + c] == g[x][y][c]
  {
    ConcatShape3(g, dims, dims, Channels);
    ConcatAt(g, dims, x, y);
    ConcatAt(Concat(g), Channels, x * dims + y, c);
  }

  /** The values of a stack of images, in order, are the vectors of the images laid end to end. */
  lemma StackRavel<P>(imgs: seq<Image<P>>, dims: nat)
    requires AllImages(imgs, dims)
    ensures var vectors := ConcatEach(ConcatEach(imgs));
      Concat(Concat(Concat(imgs))) == Concat(vectors)
      && Uniform(vectors, dims * dims * Channels)
      && |Concat(Concat(Concat(imgs)))| == |imgs| * (dims * dims * Channels)
  {
    var vectors := ConcatEach(ConcatEach(imgs));
    ConcatConcat(imgs);
    ConcatConcat(ConcatEach(imgs));
    forall n | 0 <= n < |imgs|
      ensures |vectors[n]| == dims * dims * Channels
    {
      ConcatShape3(imgs[n], dims, dims, Channels);
      ConcatLength(Concat(imgs[n]), Channels);
    }
    ConcatLength(vectors, dims * dims * Channels);
  }

  /** Reshapes a stack of images (n, dims, dims, 3) into n vectors of dims * dims * 3 values. */
  function ListToFlatten<P>(imgs: seq<Image<P>>, dims: nat): (r: seq<seq<P>>)
    requires AllImages(imgs, dims)
    ensures |r| == |imgs| && Uniform(r, dims * dims * Channels)
  {
    StackRavel(imgs, dims);
    Reshape(Concat(Concat(Concat(imgs))), |imgs|, dims * dims * Channels)
  }

  /** Row n of the flattened stack is image n as a vector. */
  lemma ListToFlattenRows<P>(imgs: seq<Image<P>>, dims: nat)
    requires AllImages(imgs, dims)
    ensures forall n :: 0 <= n < |imgs| ==> ListToFlatten(imgs, dims)[n] == Ravel(imgs[n], dims)
  {
    StackRavel(imgs, dims);
    ReshapeConcat(ConcatEach(ConcatEach(imgs)), dims * dims * Channels);
  }

  /** Reshaping a vector back to (dims, dims, 3), as done before display and in the network's input layer. */
  function Unflatten<P>(v: seq<P>, dims: nat): (g: Image<P>)
    requires |v| == dims * dims * Channels
    ensures IsImage(g, dims)
  {
    var rows := Reshape(v, dims * dims, Channels);
    ReshapeShape3(rows, dims, dims, Channels);
    Reshape(rows, dims, dims)
  }

  /** Flattening loses nothing: each row of the flattened stack reshapes back to its image. */
  lemma FlattenRoundTrip<P>(imgs: seq<Image<P>>, dims: nat, n: nat)
    requires AllImages(imgs, dims) && n < |imgs|
    ensures Unflatten(ListToFlatten(imgs, dims)[n], dims) == imgs[n]
  {
    ListToFlattenRows(imgs, dims);
    var g := imgs[n];
    ConcatShape3(g, dims, dims, Channels);
    ReshapeConcat(Concat(g), Channels);
    ReshapeConcat(g, dims);
  }

  /** Reshaping a vector to an image and flattening it again gives the vector back. */
  lemma UnflattenRoundTrip<P>(v: seq<P>, dims: nat)
    requires |v| == dims * dims * Channels
    ensures Ravel(Unflatten(v, dims), dims) == v
  {
    var rows := Reshape(v, dims * dims, Channels);
    ConcatReshape(v, dims * dims, Channels);
    ConcatReshape(rows, dims, dims);
  }

  /** Regrouping d0 * d1 rows of width w into d0 groups of d1 gives a (d0, d1, w) array. */
  lemma ReshapeShape3<T>(rows: seq<seq<T>>, d0: nat, d1: nat, w: nat)
    requires |rows| == d0 * d1 && Uniform(rows, w)
    ensures HasShape3(Reshape(rows, d0, d1), d0, d1, w)
  {
    forall x | 0 <= x < d0
      ensures Uniform(Reshape(rows, d0, d1)[x], w)
    {
      ElementsOfReshape(rows, d0, d1, w, x);
    }
  }

  lemma ElementsOfReshape<T>(rows: seq<seq<T>>, d0: nat, d1: nat, w: nat, x: nat)
    requires |rows| == d0 * d1 && Uniform(rows, w) && x < d0
    ensures Uniform(Reshape(rows, d0, d1)[x], w)
    decreases d0
  {
    MulSucc(d0, d1);
    var rest := rows[d1..];
    var r := Reshape(rows, d0, d1);
    assert r == [rows[..d1]] + Reshape(rest, d0 - 1, d1);
    if x == 0 {
      assert r[0] == rows[..d1];
    } else {
      assert r[x] == Reshape(rest, d0 - 1, d1)[x - 1];
      ElementsOfReshape(rest, d0 - 1, d1, w, x - 1);
    }
  }
}
