/**
 * The templated-file records and the decomposition they are built from. A text is decomposed
 * into segments, each with its span in the source, its source text and its output text; the
 * output is the segments' output texts in order, and each segment gives one templated-file slice
 * and one raw-file slice.
 */
module Slices {

  /** A half-open range [start, end), a Python `slice(start, end, None)`. */
  datatype Span = Span(start: nat, end: nat)

  datatype SliceType = Literal | Templated

  /** Maps a region of the source to the region of the output that replaces it. */
  datatype TemplatedFileSlice = TemplatedFileSlice(sliceType: SliceType, sourceSlice: Span, templatedSlice: Span)

  /** A region of the source: its text, its kind and where it starts. */
  datatype RawFileSlice = RawFileSlice(raw: string, sliceType: SliceType, sourceIdx: nat)

  /** The result of templating one text. */
  datatype TemplatedFile = TemplatedFile(
    sourceStr: string,
    templatedStr: string,
    fname: string,
    slicedFile: seq<TemplatedFileSlice>,
    rawSliced: seq<RawFileSlice>)

  /** One region of a decomposition: its kind, its span in the source, its source text and its output text. */
  datatype Segment = Segment(sliceType: SliceType, source: Span, raw: string, text: string)

  /** What the templating loop has built so far: the output, the templated-file slices and the raw-file slices. */
  datatype Built = Built(out: string, templateSlices: seq<TemplatedFileSlice>, rawSlices: seq<RawFileSlice>)

  /** Extends what was built by one segment: its output text, and one slice of each kind whose output span starts where the output ended. */
  function Push(b: Built, s: Segment): Built {
    Built(
      b.out + s.text,
      b.templateSlices + [TemplatedFileSlice(s.sliceType, s.source, Span(|b.out|, |b.out| + |s.text|))],
      b.rawSlices + [RawFileSlice(s.raw, s.sliceType, s.source.start)])
  }

  /** Pushes the segments in order, starting from nothing. */
  function Build(segs: seq<Segment>): Built
    decreases |segs|
  {
    if segs == [] then Built("", [], []) else Push(Build(segs[..|segs| - 1]), segs[|segs| - 1])
  }

  /** The output: the segments' output texts in order. */
  function Rendered(segs: seq<Segment>): string {
    Build(segs).out
  }

  /** One templated-file slice per segment. */
  function TemplatedSlices(segs: seq<Segment>): seq<TemplatedFileSlice> {
    Build(segs).templateSlices
  }

  /** One raw-file slice per segment. */
  function RawSlices(segs: seq<Segment>): seq<RawFileSlice> {
    Build(segs).rawSlices
  }

  /** Concatenation of the `raw` texts of raw-file slices. */
  function JoinRaw(rs: seq<RawFileSlice>): string
    decreases |rs|
  {
    if rs == [] then "" else JoinRaw(rs[..|rs| - 1]) + rs[|rs| - 1].raw
  }

  /** The templated file a decomposition of source gives. */
  function Assemble(source: string, fname: string, segs: seq<Segment>): TemplatedFile {
    TemplatedFile(source, Rendered(segs), fname, TemplatedSlices(segs), RawSlices(segs))
  }

  /** The spans follow one another without gap or overlap and cover exactly [0, n). */
  ghost predicate Tiles(spans: seq<Span>, n: nat) {
    && (forall j :: 0 <= j < |spans| ==> spans[j].start <= spans[j].end)
    && (forall j :: 0 < j < |spans| ==> spans[j - 1].end == spans[j].start)
    && (if |spans| == 0 then n == 0 else spans[0].start == 0 && spans[|spans| - 1].end == n)
  }

  function SegmentSpans(segs: seq<Segment>): (r: seq<Span>)
    ensures |r| == |segs| && forall j :: 0 <= j < |segs| ==> r[j] == segs[j].source
  {
    seq(|segs|, j requires 0 <= j < |segs| => segs[j].source)
  }

  function SourceSpans(ts: seq<TemplatedFileSlice>): (r: seq<Span>)
    ensures |r| == |ts| && forall j :: 0 <= j < |ts| ==> r[j] == ts[j].sourceSlice
  {
    seq(|ts|, j requires 0 <= j < |ts| => ts[j].sourceSlice)
  }

  function TemplatedSpans(ts: seq<TemplatedFileSlice>): (r: seq<Span>)
    ensures |r| == |ts| && forall j :: 0 <= j < |ts| ==> r[j] == ts[j].templatedSlice
  {
    seq(|ts|, j requires 0 <= j < |ts| => ts[j].templatedSlice)
  }

  /** Segment j lies inside source and its raw text is the source text it spans; a literal is copied unchanged. */
  ghost predicate SegmentFits(source: string, s: Segment) {
    && s.source.start <= s.source.end <= |source|
    && s.raw == source[s.source.start..s.source.end]
    && (s.sliceType == Literal ==> s.text == s.raw)
  }

  /** segs cover source up to n: their spans tile [0, n) and each segment fits source. */
  ghost predicate Covers(segs: seq<Segment>, source: string, n: nat) {
    && n <= |source|
    && Tiles(SegmentSpans(segs), n)
    && forall j :: 0 <= j < |segs| ==> SegmentFits(source, segs[j])
  }

  /** segs decompose the whole of source. */
  ghost predicate Decomposes(segs: seq<Segment>, source: string) {
    Covers(segs, source, |source|)
  }

  /** Slice j of a templated file agrees with its raw slice and with both texts. */
  ghost predicate SliceAgrees(tf: TemplatedFile, j: nat)
    requires j < |tf.slicedFile| && j < |tf.rawSliced|
  {
    var t, r := tf.slicedFile[j], tf.rawSliced[j];
    && r.sliceType == t.sliceType
    && r.sourceIdx == t.sourceSlice.start
    && t.sourceSlice.start <= t.sourceSlice.end <= |tf.sourceStr|
    && r.raw == tf.sourceStr[t.sourceSlice.start..t.sourceSlice.end]
    && t.templatedSlice.start <= t.templatedSlice.end <= |tf.templatedStr|
    && (t.sliceType == Literal ==> tf.templatedStr[t.templatedSlice.start..t.templatedSlice.end] == r.raw)
  }

  /**
   * The invariants of a templated file: as many raw slices as templated-file slices; the source
   * spans tile the source and the output spans tile the output; each slice agrees with its raw
   * slice, and a literal slice's output is its source text; the raw texts rebuild the source.
   */
  ghost predicate Consistent(tf: TemplatedFile) {
    && |tf.slicedFile| == |tf.rawSliced|
    && Tiles(SourceSpans(tf.slicedFile), |tf.sourceStr|)
    && Tiles(TemplatedSpans(tf.slicedFile), |tf.templatedStr|)
    && (forall j :: 0 <= j < |tf.slicedFile| ==> SliceAgrees(tf, j))
    && JoinRaw(tf.rawSliced) == tf.sourceStr
  }

  /** Building one more segment pushes it onto what was built. */
  lemma BuildSnoc(segs: seq<Segment>, s: Segment)
    ensures Build(segs + [s]) == Push(Build(segs), s)
  {
    assert (segs + [s])[..|segs|] == segs;
  }

  lemma RenderedSnoc(segs: seq<Segment>, s: Segment)
    ensures Rendered(segs + [s]) == Rendered(segs) + s.text
  {
    BuildSnoc(segs, s);
  }

  lemma RawSlicesSnoc(segs: seq<Segment>, s: Segment)
    ensures RawSlices(segs + [s]) == RawSlices(segs) + [RawFileSlice(s.raw, s.sliceType, s.source.start)]
  {
    BuildSnoc(segs, s);
  }

  lemma {:induction false} RenderedAppend(a: seq<Segment>, b: seq<Segment>)
    ensures Rendered(a + b) == Rendered(a) + Rendered(b)
    decreases |b|
  {
    if b == [] {
      assert a + b == a;
    } else {
      var init, last := b[..|b| - 1], b[|b| - 1];
      RenderedAppend(a, init);
      assert a + b == (a + init) + [last];
      RenderedSnoc(a + init, last);
      RenderedSnoc(init, last);
      assert init + [last] == b;
    }
  }

  /** Slice j's output span runs from the length of the output before segment j to the length after it. */
  lemma {:induction false} TemplatedSlicesAt(segs: seq<Segment>)
    ensures |TemplatedSlices(segs)| == |segs|
    ensures forall j :: 0 <= j < |segs| ==>
      TemplatedSlices(segs)[j] ==
        TemplatedFileSlice(segs[j].sliceType, segs[j].source, Span(|Rendered(segs[..j])|, |Rendered(segs[..j + 1])|))
    decreases |segs|
  {
    if segs != [] {
      var n := |segs| - 1;
      var init := segs[..n];
      TemplatedSlicesAt(init);
      forall j | 0 <= j < |segs|
        ensures TemplatedSlices(segs)[j] ==
          TemplatedFileSlice(segs[j].sliceType, segs[j].source, Span(|Rendered(segs[..j])|, |Rendered(segs[..j + 1])|))
      {
        if j < n {
          assert init[..j] == segs[..j] && init[..j + 1] == segs[..j + 1];
        } else {
          assert segs[..j + 1] == segs;
        }
      }
    }
  }

  lemma TemplatedSliceAt(segs: seq<Segment>, j: nat)
    requires j < |segs|
    ensures |TemplatedSlices(segs)| == |segs|
    ensures TemplatedSlices(segs)[j] ==
      TemplatedFileSlice(segs[j].sliceType, segs[j].source, Span(|Rendered(segs[..j])|, |Rendered(segs[..j + 1])|))
  {
    TemplatedSlicesAt(segs);
  }

  lemma {:induction false} RawSlicesAt(segs: seq<Segment>)
    ensures |RawSlices(segs)| == |segs|
    ensures forall j :: 0 <= j < |segs| ==> RawSlices(segs)[j] == RawFileSlice(segs[j].raw, segs[j].sliceType, segs[j].source.start)
    decreases |segs|
  {
    if segs != [] {
      RawSlicesAt(segs[..|segs| - 1]);
    }
  }

  /** The output text of segment j sits in the output where slice j says. */
  lemma RenderedAt(segs: seq<Segment>, j: nat)
    requires j < |segs|
    ensures |Rendered(segs[..j + 1])| == |Rendered(segs[..j])| + |segs[j].text| <= |Rendered(segs)|
    ensures Rendered(segs)[|Rendered(segs[..j])|..|Rendered(segs[..j + 1])|] == segs[j].text
  {
    assert segs[..j + 1] == segs[..j] + [segs[j]];
    RenderedSnoc(segs[..j], segs[j]);
    assert segs == segs[..j + 1] + segs[j + 1..];
    RenderedAppend(segs[..j + 1], segs[j + 1..]);
  }

  /** A segment that fits and starts where a covering ends extends the covering to its own end. */
  lemma CoversSnoc(segs: seq<Segment>, source: string, n: nat, s: Segment)
    requires Covers(segs, source, n)
    requires SegmentFits(source, s) && s.source.start == n
    ensures Covers(segs + [s], source, s.source.end)
  {
    assert SegmentSpans(segs + [s]) == SegmentSpans(segs) + [s.source];
  }

  /** The raw texts of a covering rebuild the source up to where it ends. */
  lemma {:induction false} JoinRawCovers(segs: seq<Segment>, source: string, n: nat)
    requires Covers(segs, source, n)
    ensures JoinRaw(RawSlices(segs)) == source[..n]
    decreases |segs|
  {
    if segs != [] {
      var m := |segs| - 1;
      var init, last := segs[..m], segs[m];
      assert SegmentSpans(init) == SegmentSpans(segs)[..m];
      assert SegmentFits(source, last);
      JoinRawCovers(init, source, last.source.start);
      assert segs == init + [last];
      RawSlicesSnoc(init, last);
      var rs := RawSlices(init);
      assert (rs + [RawFileSlice(last.raw, last.sliceType, last.source.start)])[..|rs|] == rs;
      assert source[..n] == source[..last.source.start] + source[last.source.start..n];
    }
  }

  /** The output spans of the slices tile the output. */
  lemma TemplatedTiles(segs: seq<Segment>)
    ensures Tiles(TemplatedSpans(TemplatedSlices(segs)), |Rendered(segs)|)
  {
    TemplatedSlicesAt(segs);
    var ts := TemplatedSpans(TemplatedSlices(segs));
    forall j | 0 <= j < |segs| ensures ts[j].start <= ts[j].end {
      TemplatedSliceAt(segs, j);
      RenderedAt(segs, j);
    }
    forall j | 0 < j < |segs| ensures ts[j - 1].end == ts[j].start {
      var i := j - 1;
      assert i + 1 == j;
      TemplatedSliceAt(segs, i);
      TemplatedSliceAt(segs, j);
    }
    if |segs| > 0 {
      assert segs[..0] == [];
      assert Build([]) == Built("", [], []);
      TemplatedSliceAt(segs, 0);
      TemplatedSliceAt(segs, |segs| - 1);
      assert segs[..|segs|] == segs;
    }
  }

  lemma SliceAgreesAt(source: string, fname: string, segs: seq<Segment>, j: nat)
    requires Decomposes(segs, source)
    requires j < |segs|
    ensures |TemplatedSlices(segs)| == |RawSlices(segs)| == |segs|
    ensures SliceAgrees(Assemble(source, fname, segs), j)
  {
    TemplatedSlicesAt(segs);
    RawSlicesAt(segs);
    RenderedAt(segs, j);
    assert SegmentFits(source, segs[j]);
  }

  lemma SourceSpansOfSlices(segs: seq<Segment>)
    ensures |TemplatedSlices(segs)| == |RawSlices(segs)| == |segs|
    ensures SourceSpans(TemplatedSlices(segs)) == SegmentSpans(segs)
  {
    TemplatedSlicesAt(segs);
    RawSlicesAt(segs);
    forall j | 0 <= j < |segs| ensures SourceSpans(TemplatedSlices(segs))[j] == segs[j].source {
      TemplatedSliceAt(segs, j);
    }
  }

  /** Assembling a decomposition gives a consistent templated file. */
  lemma AssembleConsistent(source: string, fname: string, segs: seq<Segment>)
    requires Decomposes(segs, source)
    ensures Consistent(Assemble(source, fname, segs))
  {
    var tf := Assemble(source, fname, segs);
    SourceSpansOfSlices(segs);
    TemplatedTiles(segs);
    forall j | 0 <= j < |tf.slicedFile| ensures SliceAgrees(tf, j) {
      SliceAgreesAt(source, fname, segs, j);
    }
    JoinRawCovers(segs, source, |source|);
    assert source[..|source|] == source;
  }
}
