/**
 * What templating promises about its result: the slices tile both texts and agree with each
 * other, each match gives a literal slice and a templated slice in order, the raw slices rebuild
 * the source, and a text without placeholders comes out unchanged.
 */
module Properties {
  import opened Wrappers
  import opened Strings
  import opened Regex
  import opened Context
  import opened Slices
  import opened Templating

  /** The gaps and replacements of the first |reps| matches cover the text up to the end of the last of them. */
  lemma {:induction false} MatchSegmentsCover(inStr: string, ms: seq<Match>, reps: seq<string>)
    requires WellFormed(ms, |inStr|) && |reps| <= |ms|
    ensures Covers(MatchSegments(inStr, ms, reps), inStr, Prev(ms, |reps|))
    decreases |reps|
  {
    if reps == [] {
      assert SegmentSpans([]) == [];
    } else {
      var n := |reps| - 1;
      MatchSegmentsCover(inStr, ms, reps[..n]);
      MatchStepCovers(inStr, ms, MatchSegments(inStr, ms, reps[..n]), n, reps[n]);
    }
  }

  /** Adding the gap before match n and match n itself extends a cover up to match n's end. */
  lemma MatchStepCovers(inStr: string, ms: seq<Match>, segs: seq<Segment>, n: nat, x: string)
    requires WellFormed(ms, |inStr|) && n < |ms|
    requires Covers(segs, inStr, Prev(ms, n))
    ensures Covers(segs + [Gap(inStr, ms, n), Replaced(inStr, ms[n], x)], inStr, ms[n].end)
  {
    PrevBound(ms, |inStr|, n);
    var gap, rep := Gap(inStr, ms, n), Replaced(inStr, ms[n], x);
    CoversSnoc(segs, inStr, Prev(ms, n), gap);
    CoversSnoc(segs + [gap], inStr, ms[n].start, rep);
    assert segs + [gap] + [rep] == segs + [gap, rep];
  }

  /** The segments of all matches, with the rest of the text, decompose the whole text. */
  lemma SegmentsDecompose(inStr: string, ms: seq<Match>, reps: seq<string>)
    requires WellFormed(ms, |inStr|) && |ms| == |reps|
    ensures Decomposes(Segments(inStr, ms, reps), inStr)
  {
    MatchSegmentsCover(inStr, ms, reps);
    TailSegments(inStr, ms, reps);
    var segs := MatchSegments(inStr, ms, reps);
    if End(ms) < |inStr| {
      CoversSnoc(segs, inStr, End(ms), Tail(inStr, ms)[0]);
    } else {
      assert Segments(inStr, ms, reps) == segs;
    }
  }

  /**
   * A successful substitution is a consistent templated file of the input: both span lists
   * tile their texts, each slice agrees with its raw slice, literals are copied unchanged, and
   * the raw slices rebuild the input.
   */
  lemma ExpectedConsistent(inStr: string, fname: string, ctx: map<string, Value>, named: bool, ms: seq<Match>)
    requires WellFormed(ms, |inStr|)
    ensures var r := Expected(inStr, fname, ctx, named, ms);
      r.Success? ==> Consistent(r.value) && r.value.sourceStr == inStr && r.value.fname == fname
  {
    match ResolveAll(ctx, named, ms)
    case Failure(_) =>
    case Success(reps) =>
      SegmentsDecompose(inStr, ms, reps);
      AssembleConsistent(inStr, fname, Segments(inStr, ms, reps));
  }

  /** Whatever templating returns on success is a consistent templated file of its input. */
  lemma TemplateConsistent(t: Templater, loaded: map<string, Value>, inStr: string, fname: string, custom: CustomMatches)
    requires WellFormed(custom.found, |inStr|)
    ensures var r := Template(t, loaded, inStr, fname, custom);
      r.Success? ==> Consistent(r.value) && r.value.sourceStr == inStr && r.value.fname == fname
  {
    match GetContext(t, loaded)
    case Failure(_) =>
    case Success(ctx) =>
      GetContextSuccess(t, loaded);
      var (ms, named) := FindParams(ctx[BindParamRegex].pattern, inStr, custom);
      ExpectedConsistent(inStr, fname, ctx, named, ms);
  }

  /** k matches give 2k slices of each list, and one more when text follows the last match. */
  lemma SliceCount(inStr: string, fname: string, ctx: map<string, Value>, named: bool, ms: seq<Match>)
    requires WellFormed(ms, |inStr|)
    requires Expected(inStr, fname, ctx, named, ms).Success?
    ensures End(ms) <= |inStr|
    ensures var tf := Expected(inStr, fname, ctx, named, ms).value;
      && |tf.slicedFile| == |tf.rawSliced| == 2 * |ms| + (if End(ms) < |inStr| then 1 else 0)
      && (End(ms) < |inStr| ==>
            && tf.slicedFile[2 * |ms|].sliceType == Literal
            && tf.slicedFile[2 * |ms|].sourceSlice == Span(End(ms), |inStr|)
            && tf.rawSliced[2 * |ms|] == RawFileSlice(inStr[End(ms)..], Literal, End(ms)))
  {
    var reps := ResolveAll(ctx, named, ms).value;
    var segs := Segments(inStr, ms, reps);
    TailSegments(inStr, ms, reps);
    TemplatedSlicesAt(segs);
    RawSlicesAt(segs);
    if End(ms) < |inStr| {
      TemplatedSliceAt(segs, 2 * |ms|);
    }
  }

  /** Slice j of the templated file of a decomposition is segment j: its kind, its spans and its texts. */
  lemma SliceOfSegment(source: string, fname: string, segs: seq<Segment>, j: nat)
    requires j < |segs|
    ensures var tf := Assemble(source, fname, segs);
      && j < |tf.slicedFile| && j < |tf.rawSliced|
      && tf.slicedFile[j].sliceType == segs[j].sliceType
      && tf.slicedFile[j].sourceSlice == segs[j].source
      && tf.rawSliced[j] == RawFileSlice(segs[j].raw, segs[j].sliceType, segs[j].source.start)
      && var out := tf.slicedFile[j].templatedSlice;
         && out.start <= out.end <= |tf.templatedStr|
         && tf.templatedStr[out.start..out.end] == segs[j].text
  {
    TemplatedSliceAt(segs, j);
    RawSlicesAt(segs);
    RenderedAt(segs, j);
  }

  /** Segments 2i and 2i + 1 of all the segments are the gap before match i and match i replaced. */
  lemma SegmentsAt(inStr: string, ms: seq<Match>, reps: seq<string>, i: nat)
    requires WellFormed(ms, |inStr|) && i < |ms| == |reps|
    ensures 2 * i + 1 < |Segments(inStr, ms, reps)|
    ensures Segments(inStr, ms, reps)[2 * i] == Gap(inStr, ms, i)
    ensures Segments(inStr, ms, reps)[2 * i + 1] == Replaced(inStr, ms[i], reps[i])
  {
    MatchSegmentsAt(inStr, ms, reps, i);
  }

  /**
   * Match i gives slice 2i, the literal gap from the end of the previous match (or 0) to its
   * start, and slice 2i + 1, the templated match whose output region is the parameter's
   * replacement; a gap between adjacent matches still gives an empty literal slice.
   */
  lemma MatchSlices(inStr: string, fname: string, ctx: map<string, Value>, named: bool, ms: seq<Match>, i: nat)
    requires WellFormed(ms, |inStr|) && i < |ms|
    requires Expected(inStr, fname, ctx, named, ms).Success?
    ensures Prev(ms, i) <= ms[i].start <= ms[i].end <= |inStr|
    ensures ResolveParam(ctx, named, ms[i], i).Success?
    ensures var tf := Expected(inStr, fname, ctx, named, ms).value;
      && 2 * i + 1 < |tf.slicedFile| && 2 * i + 1 < |tf.rawSliced|
      && tf.slicedFile[2 * i].sliceType == Literal
      && tf.slicedFile[2 * i].sourceSlice == Span(Prev(ms, i), ms[i].start)
      && tf.rawSliced[2 * i] == RawFileSlice(inStr[Prev(ms, i)..ms[i].start], Literal, Prev(ms, i))
      && tf.slicedFile[2 * i + 1].sliceType == Templated
      && tf.slicedFile[2 * i + 1].sourceSlice == Span(ms[i].start, ms[i].end)
      && tf.rawSliced[2 * i + 1] == RawFileSlice(inStr[ms[i].start..ms[i].end], Templated, ms[i].start)
      && var out := tf.slicedFile[2 * i + 1].templatedSlice;
         && out.start <= out.end <= |tf.templatedStr|
         && tf.templatedStr[out.start..out.end] == ResolveParam(ctx, named, ms[i], i).value
  {
    PrevBound(ms, |inStr|, i);
    var reps := ResolveAll(ctx, named, ms).value;
    ResolveFirstSpec(ctx, named, ms, |ms|);
    var segs := Segments(inStr, ms, reps);
    SegmentsAt(inStr, ms, reps, i);
    SliceOfSegment(inStr, fname, segs, 2 * i);
    SliceOfSegment(inStr, fname, segs, 2 * i + 1);
  }

  /** Without matches the segments are the whole input as one literal, or none when it is empty. */
  lemma NoMatchSegments(inStr: string)
    ensures Segments(inStr, [], []) ==
      if inStr == "" then [] else [Segment(Literal, Span(0, |inStr|), inStr, inStr)]
  {
    TailSegments(inStr, [], []);
    assert inStr[0..] == inStr;
  }

  /** Without matches the output is the input, as one literal slice, or no slice when the input is empty. */
  lemma NoMatchesIdentity(inStr: string, fname: string, ctx: map<string, Value>, named: bool)
    ensures Expected(inStr, fname, ctx, named, []) == Success(TemplatedFile(inStr, inStr, fname,
      if inStr == "" then [] else [TemplatedFileSlice(Literal, Span(0, |inStr|), Span(0, |inStr|))],
      if inStr == "" then [] else [RawFileSlice(inStr, Literal, 0)]))
  {
    assert ResolveAll(ctx, named, []) == Success([]);
    NoMatchSegments(inStr);
    if inStr != "" {
      var seg := Segment(Literal, Span(0, |inStr|), inStr, inStr);
      assert [seg][..0] == [];
      assert Build([seg]) == Push(Build([]), seg);
      assert "" + inStr == inStr;
      assert Build([seg]) == Built(inStr, [TemplatedFileSlice(Literal, Span(0, |inStr|), Span(0, |inStr|))],
        [RawFileSlice(inStr, Literal, 0)]);
    }
  }

  /** With the sqlc style, a text without `@` holds no placeholder and comes out unchanged. */
  lemma SqlcWithoutPlaceholders(t: Templater, loaded: map<string, Value>, inStr: string, fname: string, custom: CustomMatches)
    requires WellFormed(custom.found, |inStr|)
    requires var live := LiveContext(t, loaded);
      "param_style" in live && live["param_style"] == Str("sqlc") && "param_regex" !in live
    requires forall k :: 0 <= k < |inStr| ==> inStr[k] != '@'
    ensures Template(t, loaded, inStr, fname, custom).Success?
    ensures Template(t, loaded, inStr, fname, custom).value.templatedStr == inStr
  {
    var ctx := GetContext(t, loaded).value;
    assert ctx[BindParamRegex] == Compiled(SqlcPattern);
    NoAtSignNoMatches(inStr);
    NoMatchesIdentity(inStr, fname, ctx, true);
  }

  /** Without a name group, two matches share a parameter name exactly when they are the same match. */
  lemma PositionalNamesDistinct(m1: Match, m2: Match, i: nat, j: nat)
    ensures ParamName(false, m1, i) == ParamName(false, m2, j) <==> i == j
  {
    if ParamName(false, m1, i) == ParamName(false, m2, j) {
      DecimalInjective(i + 1, j + 1);
    }
  }

  /** Without a name group the first match is parameter "1", the second "2", and so on. */
  lemma PositionalNamesCount(m: Match)
    ensures ParamName(false, m, 0) == Some("1")
    ensures ParamName(false, m, 1) == Some("2")
    ensures ParamName(false, m, 9) == Some("10")
  {
    assert Decimal(10) == Decimal(1) + [DigitChar(0)];
    assert Decimal(1) == [DigitChar(1)];
    assert DigitChar(1) == '1' && DigitChar(0) == '0';
    assert ['1'] + ['0'] == "10";
  }
}
