/**
 Nearest-match identification at the end of the face verification script. Every
 probe image is scored against every training image, the first best-scoring training
 image is taken, and the name of its person is reported with that score as the
 confidence. The trained network is a parameter: a total function from two image
 vectors to a score.
 */
module Matching {
  import opened NdArray
  import opened Dataset

  /** Why the probe loop stops early: argmax over no scores, or a label with no name. */
  datatype MatchError = EmptyGallery | UnknownIdentity(identity: nat)

  datatype Result<T> = Ok(value: T) | Err(error: MatchError)

  /** The predicted person and the score of the chosen training image. */
  datatype Match = Match(name: string, confidence: real)

  /** One reported line: probe index, predicted name, confidence. */
  datatype Line = Line(probe: nat, name: string, confidence: real)

  /** The lines reported, and the error that ended the loop before the last probe, if any. */
  datatype Report = Finished(lines: seq<Line>) | Aborted(lines: seq<Line>, error: MatchError)

  /** i is a position of the largest score, and no earlier position holds that score. */
  predicate IsFirstMax(s: seq<real>, i: int)
  {
    0 <= i < |s|
    && (forall j :: 0 <= j < |s| ==> s[j] <= s[i])
    && (forall j :: 0 <= j < i ==> s[j] < s[i])
  }

  /** The position argmax reports: the first position of the largest score. */
  function ArgMax(s: seq<real>): (i: nat)
    requires |s| > 0
    ensures IsFirstMax(s, i)
  {
    if |s| == 1 then 0
    else
      var best := ArgMax(s[..|s| - 1]);
      if s[|s| - 1] > s[best] then |s| - 1 else best
  }

  /** At most one position is the first maximum. */
  lemma FirstMaxUnique(s: seq<real>, i: int, j: int)
    requires IsFirstMax(s, i) && IsFirstMax(s, j)
    ensures i == j
  {
    if i < j {
      FirstMaxBefore(s, j, i);
      assert false;
    } else if j < i {
      FirstMaxBefore(s, i, j);
      assert false;
    }
  }

  lemma FirstMaxBefore(s: seq<real>, m: int, i: int)
    requires IsFirstMax(s, m) && 0 <= i < m
    ensures s[i] < s[m]
  {
  }

  /** The score of a probe against each image of the gallery, in gallery order. */
  function Scores<P>(probe: seq<P>, gallery: seq<seq<P>>, score: (seq<P>, seq<P>) -> real): (r: seq<real>)
    ensures |r| == |gallery|
    ensures forall s :: 0 <= s < |gallery| ==> r[s] == score(probe, gallery[s])
  {
    seq(|gallery|, s requires 0 <= s < |gallery| => score(probe, gallery[s]))
  }

  /**
   Identifies one probe from its scores: the name of the person of the first
   best-scoring gallery image, with that image's score.
   */
  function MatchProbe(scores: seq<real>, labels: seq<nat>, names: seq<string>): (r: Result<Match>)
    requires |labels| == |scores|
    ensures r == Err(EmptyGallery) <==> |scores| == 0
    ensures r.Ok? <==> exists i :: IsFirstMax(scores, i) && labels[i] < |names|
    ensures r.Ok? ==> forall i :: IsFirstMax(scores, i) ==>
              labels[i] < |names| && r.value == Match(names[labels[i]], scores[i])
    ensures r.Ok? ==> forall j :: 0 <= j < |scores| ==> scores[j] <= r.value.confidence
    ensures r.Err? && |scores| > 0 ==>
              exists i :: IsFirstMax(scores, i) && |names| <= labels[i] && r.error == UnknownIdentity(labels[i])
  {
    if |scores| == 0 then Err(EmptyGallery)
    else
      var idx := ArgMax(scores);
      var id := labels[idx];
      if id < |names| then Ok(Match(names[id], scores[idx])) else Err(UnknownIdentity(id))
  }

  /** With a single gallery image, that image's person and raw score are reported. */
  lemma SingleEntryGallery(scores: seq<real>, labels: seq<nat>, names: seq<string>)
    requires |scores| == 1 && |labels| == 1 && labels[0] < |names|
    ensures MatchProbe(scores, labels, names) == Ok(Match(names[labels[0]], scores[0]))
  {
    assert IsFirstMax(scores, 0);
  }

  /**
   When there are names for all directories and the gallery is not empty, every probe
   is identified.
   */
  lemma NamesCoverIdentities(scores: seq<real>, counts: seq<nat>, names: seq<string>)
    requires |Labels(counts)| == |scores| > 0 && |counts| <= |names|
    ensures MatchProbe(scores, Labels(counts), names).Ok?
  {
    LabelsBound(counts);
    assert IsFirstMax(scores, ArgMax(scores));
  }

  /** Two reference images of two people, the second scoring higher: the second person is named. */
  lemma TwoPersonScenario()
    ensures MatchProbe([0.3, 0.9], [0, 1], ["Angelina", "Brad"]) == Ok(Match("Brad", 0.9))
  {
    var s: seq<real> := [0.3, 0.9];
    assert IsFirstMax(s, 1);
    FirstMaxUnique(s, 1, ArgMax(s));
  }

  /**
   `report` is what the probe loop prints: one line per probe, in order, each the
   match of that probe, stopping at the first probe whose match fails.
   */
  ghost predicate IsReport<P>(report: Report, probes: seq<seq<P>>, gallery: seq<seq<P>>, labels: seq<nat>,
                              names: seq<string>, score: (seq<P>, seq<P>) -> real)
    requires |labels| == |gallery|
  {
    var lines := report.lines;
    |lines| <= |probes|
    && (forall e :: 0 <= e < |lines| ==>
          lines[e].probe == e
          && MatchProbe(Scores(probes[e], gallery, score), labels, names)
             == Ok(Match(lines[e].name, lines[e].confidence)))
    && (if report.Finished? then |lines| == |probes|
        else |lines| < |probes|
             && MatchProbe(Scores(probes[|lines|], gallery, score), labels, names) == Err(report.error))
  }

  /** The inputs determine the report: two reports of the same run are equal. */
  lemma ReportUnique<P>(r1: Report, r2: Report, probes: seq<seq<P>>, gallery: seq<seq<P>>, labels: seq<nat>,
                        names: seq<string>, score: (seq<P>, seq<P>) -> real)
    requires |labels| == |gallery|
    requires IsReport(r1, probes, gallery, labels, names, score)
    requires IsReport(r2, probes, gallery, labels, names, score)
    ensures r1 == r2
  {
    ReportLength(r1, r2, probes, gallery, labels, names, score);
    ReportLength(r2, r1, probes, gallery, labels, names, score);
    assert r1.lines == r2.lines;
  }

  /** A report cannot be shorter than another one of the same run. */
  lemma ReportLength<P>(r1: Report, r2: Report, probes: seq<seq<P>>, gallery: seq<seq<P>>, labels: seq<nat>,
                        names: seq<string>, score: (seq<P>, seq<P>) -> real)
    requires |labels| == |gallery|
    requires IsReport(r1, probes, gallery, labels, names, score)
    requires IsReport(r2, probes, gallery, labels, names, score)
    ensures |r2.lines| <= |r1.lines|
    ensures |r1.lines| == |r2.lines| ==> r1.Finished? == r2.Finished?
  {
  }

  /** With no gallery images the loop stops at the first probe, reporting nothing. */
  lemma EmptyGalleryReport<P>(report: Report, probes: seq<seq<P>>, labels: seq<nat>,
                              names: seq<string>, score: (seq<P>, seq<P>) -> real)
    requires |labels| == 0 && |probes| > 0
    requires IsReport(report, probes, [], labels, names, score)
    ensures report == Aborted([], EmptyGallery)
  {
    assert MatchProbe(Scores(probes[0], [], score), labels, names) == Err(EmptyGallery);
  }

  /** The probe loop: score, take the argmax, look up the label and the name, report. */
  method RunMatches<P>(probes: seq<seq<P>>, gallery: seq<seq<P>>, labels: seq<nat>,
                       names: seq<string>, score: (seq<P>, seq<P>) -> real) returns (report: Report)
    requires |labels| == |gallery|
    ensures IsReport(report, probes, gallery, labels, names, score)
  {
    var lines: seq<Line> := [];
    for e := 0 to |probes|
      invariant |lines| == e
      invariant forall k :: 0 <= k < e ==>
                  lines[k].probe == k
                  && MatchProbe(Scores(probes[k], gallery, score), labels, names)
                     == Ok(Match(lines[k].name, lines[k].confidence))
    {
      var scores := Scores(probes[e], gallery, score);
      if |scores| == 0 {
        return Aborted(lines, EmptyGallery);
      }
      var idx := ArgMax(scores);
      var id := labels[idx];
      if id >= |names| {
        return Aborted(lines, UnknownIdentity(id));
      }
      lines := lines + [Line(e, names[id], scores[idx])];
    }
    report := Finished(lines);
  }

  /** The first n flattened second images are the n training images, flattened, in order. */
  lemma FlattenedGallery<P>(c2: seq<Image<P>>, images: seq<Image<P>>, dims: nat)
    requires AllImages(images, dims) && AllImages(c2, dims)
    requires |images| <= |c2| && c2[..|images|] == images
    ensures ListToFlatten(c2, dims)[..|images|] == ListToFlatten(images, dims)
  {
    ListToFlattenRows(c2, dims);
    ListToFlattenRows(images, dims);
    forall k | 0 <= k < |images|
      ensures ListToFlatten(c2, dims)[k] == ListToFlatten(images, dims)[k]
    {
      assert c2[k] == c2[..|images|][k];
    }
  }

  /**
   The whole script around the network: build and flatten the training pairs, load
   and flatten the probes, rebuild the labels, take the first n flattened second
   images as the gallery and run the probe loop. The trained network is `score`.
   */
  method Evaluate<P>(people: seq<seq<Image<P>>>, testRasters: seq<Image<P>>, names: seq<string>,
                     dims: nat, score: (seq<P>, seq<P>) -> real)
    returns (x1: seq<seq<P>>, x2: seq<seq<P>>, y: seq<int>, report: Report)
    requires AllPeople(people, dims) && AllImages(testRasters, dims)
    ensures var images, labels := Loaded(people, dims), Labels(Counts(people));
      var comb := Combinations(|labels|);
      |images| == |labels| && IndexPairs(comb, |labels|) && AllImages(images, dims)
      && AllImages(PairFirsts(images, comb), dims) && AllImages(PairSeconds(images, comb), dims)
      && x1 == ListToFlatten(PairFirsts(images, comb), dims)
      && x2 == ListToFlatten(PairSeconds(images, comb), dims)
      && y == PairLabels(labels, comb)
    ensures CountOnes(y) == SumSquares(Counts(people))
    ensures IsReport(report, ListToFlatten(OrientAll(testRasters, dims), dims),
                     ListToFlatten(Loaded(people, dims), dims), Labels(Counts(people)), names, score)
  {
    ghost var images := Loaded(people, dims);
    var c1, c2;
    c1, c2, y := DataPreProcessing(people, dims);
    FlattenedGallery(c2, images, dims);
    x1 := ListToFlatten(c1, dims);
    x2 := ListToFlatten(c2, dims);

    var test := ImagesToList(testRasters, dims);
    var probes := ListToFlatten(test, dims);

    var labels := GalleryLabels(Counts(people));
    var gallery := x2[..|labels|];
    report := RunMatches(probes, gallery, labels, names, score);
  }
}
