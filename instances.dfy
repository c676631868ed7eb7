/**
 * Templating worked through on single placeholders: a general account of what one match yields,
 * with the text after it and without, and concrete texts run through it for an autofilled
 * parameter, a bound parameter and a missing one.
 */
module Instances {
  import opened Wrappers
  import opened Regex
  import opened Context
  import opened Slices
  import opened Autofill
  import opened Templating

  /** Two segments pushed onto nothing give two slices, the second starting where the first output ends. */
  lemma PushTwo(s1: Segment, s2: Segment)
    ensures Push(Push(Built("", [], []), s1), s2) ==
      Built(s1.text + s2.text,
        [TemplatedFileSlice(s1.sliceType, s1.source, Span(0, |s1.text|)),
         TemplatedFileSlice(s2.sliceType, s2.source, Span(|s1.text|, |s1.text| + |s2.text|))],
        [RawFileSlice(s1.raw, s1.sliceType, s1.source.start), RawFileSlice(s2.raw, s2.sliceType, s2.source.start)])
  {
    assert "" + s1.text == s1.text;
  }

  /** A third segment pushed after two slices. */
  lemma PushThird(out: string, t1: TemplatedFileSlice, t2: TemplatedFileSlice, r1: RawFileSlice, r2: RawFileSlice, s: Segment)
    ensures Push(Built(out, [t1, t2], [r1, r2]), s) ==
      Built(out + s.text, [t1, t2, TemplatedFileSlice(s.sliceType, s.source, Span(|out|, |out| + |s.text|))],
        [r1, r2, RawFileSlice(s.raw, s.sliceType, s.source.start)])
  {
    assert [t1, t2] + [TemplatedFileSlice(s.sliceType, s.source, Span(|out|, |out| + |s.text|))]
      == [t1, t2, TemplatedFileSlice(s.sliceType, s.source, Span(|out|, |out| + |s.text|))];
    assert [r1, r2] + [RawFileSlice(s.raw, s.sliceType, s.source.start)] == [r1, r2, RawFileSlice(s.raw, s.sliceType, s.source.start)];
  }

  /** The gap before a lone match is the text before it. */
  lemma GapFirst(inStr: string, m: Match)
    requires m.start <= m.end <= |inStr|
    ensures WellFormed([m], |inStr|)
    ensures Gap(inStr, [m], 0) == Segment(Literal, Span(0, m.start), inStr[..m.start], inStr[..m.start])
  {
    assert WellFormed([m], |inStr|);
    assert inStr[0..m.start] == inStr[..m.start];
  }

  /** After one match the loop has pushed its gap and its replacement. */
  lemma PartialOne(inStr: string, m: Match, x: string)
    requires m.start <= m.end <= |inStr|
    ensures WellFormed([m], |inStr|)
    ensures Partial(inStr, [m], [x]) == Push(Push(Built("", [], []), Gap(inStr, [m], 0)), Replaced(inStr, m, x))
  {
    assert WellFormed([m], |inStr|);
    PartialStep(inStr, [m], [], x);
    assert [] + [x] == [x];
  }

  lemma PartialOneSegments(inStr: string, m: Match, x: string)
    requires m.start <= m.end <= |inStr|
    ensures WellFormed([m], |inStr|)
    ensures Partial(inStr, [m], [x]) == Push(Push(Built("", [], []),
      Segment(Literal, Span(0, m.start), inStr[..m.start], inStr[..m.start])),
      Segment(Templated, Span(m.start, m.end), inStr[m.start..m.end], x))
  {
    PartialOne(inStr, m, x);
    GapFirst(inStr, m);
  }

  lemma PushGapReplaced(inStr: string, m: Match, x: string)
    requires m.start <= m.end <= |inStr|
    ensures Push(Push(Built("", [], []), Segment(Literal, Span(0, m.start), inStr[..m.start], inStr[..m.start])),
      Segment(Templated, Span(m.start, m.end), inStr[m.start..m.end], x)) == Built(inStr[..m.start] + x,
      [TemplatedFileSlice(Literal, Span(0, m.start), Span(0, m.start)),
       TemplatedFileSlice(Templated, Span(m.start, m.end), Span(m.start, m.start + |x|))],
      [RawFileSlice(inStr[..m.start], Literal, 0), RawFileSlice(inStr[m.start..m.end], Templated, m.start)])
  {
    PushTwo(Segment(Literal, Span(0, m.start), inStr[..m.start], inStr[..m.start]),
            Segment(Templated, Span(m.start, m.end), inStr[m.start..m.end], x));
  }

  /** What the loop has built after one match: the text before it and its replacement, as two slices. */
  lemma OneMatchPartial(inStr: string, m: Match, x: string)
    requires m.start <= m.end <= |inStr|
    ensures WellFormed([m], |inStr|)
    ensures Partial(inStr, [m], [x]) == Built(inStr[..m.start] + x,
      [TemplatedFileSlice(Literal, Span(0, m.start), Span(0, m.start)),
       TemplatedFileSlice(Templated, Span(m.start, m.end), Span(m.start, m.start + |x|))],
      [RawFileSlice(inStr[..m.start], Literal, 0), RawFileSlice(inStr[m.start..m.end], Templated, m.start)])
  {
    PartialOneSegments(inStr, m, x);
    PushGapReplaced(inStr, m, x);
  }

  /** A lone match that resolves gives the templated file its segments build. */
  lemma ExpectedOne(inStr: string, fname: string, ctx: map<string, Value>, named: bool, m: Match, x: string)
    requires m.start <= m.end <= |inStr|
    requires ResolveParam(ctx, named, m, 0) == Success(x)
    ensures WellFormed([m], |inStr|)
    ensures Expected(inStr, fname, ctx, named, [m]) == Success(TemplatedFile(inStr,
      Build(Segments(inStr, [m], [x])).out, fname,
      Build(Segments(inStr, [m], [x])).templateSlices, Build(Segments(inStr, [m], [x])).rawSlices))
  {
    assert WellFormed([m], |inStr|);
    ResolveFirstStep(ctx, named, [m], 0, [], x);
    assert [] + [x] == [x];
  }

  /** The segments of a lone match: the loop's two, then the rest of the text when some remains. */
  lemma SegmentsOne(inStr: string, m: Match, x: string)
    requires m.start <= m.end <= |inStr|
    ensures WellFormed([m], |inStr|)
    ensures Build(Segments(inStr, [m], [x])) == if m.end < |inStr|
      then Push(Partial(inStr, [m], [x]), Segment(Literal, Span(m.end, |inStr|), inStr[m.end..], inStr[m.end..]))
      else Partial(inStr, [m], [x])
  {
    assert WellFormed([m], |inStr|);
    BuildsSegments(inStr, [m], [x]);
    assert End([m]) == m.end;
  }

  /** One match that runs to the end of the text: the text before it, then its replacement. */
  lemma OneMatchAtEnd(inStr: string, fname: string, ctx: map<string, Value>, named: bool, m: Match, x: string)
    requires m.start <= m.end == |inStr|
    requires ResolveParam(ctx, named, m, 0) == Success(x)
    ensures Expected(inStr, fname, ctx, named, [m]) == Success(TemplatedFile(inStr, inStr[..m.start] + x, fname,
      [TemplatedFileSlice(Literal, Span(0, m.start), Span(0, m.start)),
       TemplatedFileSlice(Templated, Span(m.start, m.end), Span(m.start, m.start + |x|))],
      [RawFileSlice(inStr[..m.start], Literal, 0), RawFileSlice(inStr[m.start..m.end], Templated, m.start)]))
  {
    ExpectedOne(inStr, fname, ctx, named, m, x);
    SegmentsOne(inStr, m, x);
    OneMatchPartial(inStr, m, x);
  }

  /** One match with text after it: the text before it, its replacement, then the rest. */
  lemma OneMatchInside(inStr: string, fname: string, ctx: map<string, Value>, named: bool, m: Match, x: string)
    requires m.start <= m.end < |inStr|
    requires ResolveParam(ctx, named, m, 0) == Success(x)
    ensures Expected(inStr, fname, ctx, named, [m]) == Success(TemplatedFile(inStr, inStr[..m.start] + x + inStr[m.end..], fname,
      [TemplatedFileSlice(Literal, Span(0, m.start), Span(0, m.start)),
       TemplatedFileSlice(Templated, Span(m.start, m.end), Span(m.start, m.start + |x|)),
       TemplatedFileSlice(Literal, Span(m.end, |inStr|), Span(m.start + |x|, m.start + |x| + (|inStr| - m.end)))],
      [RawFileSlice(inStr[..m.start], Literal, 0), RawFileSlice(inStr[m.start..m.end], Templated, m.start),
       RawFileSlice(inStr[m.end..], Literal, m.end)]))
  {
    ExpectedOne(inStr, fname, ctx, named, m, x);
    SegmentsOne(inStr, m, x);
    OneMatchPartial(inStr, m, x);
    PushThird(inStr[..m.start] + x, TemplatedFileSlice(Literal, Span(0, m.start), Span(0, m.start)),
      TemplatedFileSlice(Templated, Span(m.start, m.end), Span(m.start, m.start + |x|)),
      RawFileSlice(inStr[..m.start], Literal, 0), RawFileSlice(inStr[m.start..m.end], Templated, m.start),
      Segment(Literal, Span(m.end, |inStr|), inStr[m.end..], inStr[m.end..]));
  }

  /** An integer-array parameter missing from a context that asks for autofill gets the integer-array stand-in. */
  lemma AutofilledInstance()
    ensures Expected("a = @p::integer[]", "f", map["autofill_missing_params" := Bool(true)], true,
                     [Match(4, 17, Some("p"), Some("integer[]"))]) ==
      Success(TemplatedFile("a = @p::integer[]", "a = ARRAY[1,2,3]", "f",
        [TemplatedFileSlice(Literal, Span(0, 4), Span(0, 4)), TemplatedFileSlice(Templated, Span(4, 17), Span(4, 16))],
        [RawFileSlice("a = ", Literal, 0), RawFileSlice("@p::integer[]", Templated, 4)]))
  {
    var s, ctx, m := "a = @p::integer[]", map["autofill_missing_params" := Bool(true)], Match(4, 17, Some("p"), Some("integer[]"));
    AutofillIntegerArray();
    assert ResolveParam(ctx, true, m, 0) == Success("ARRAY[1,2,3]");
    OneMatchAtEnd(s, "f", ctx, true, m, "ARRAY[1,2,3]");
    AutofilledPieces();
  }

  /** The pieces of the autofilled example: the text before the match, the match, the output. */
  lemma AutofilledPieces()
    ensures "a = @p::integer[]"[..4] == "a = " && "a = @p::integer[]"[4..17] == "@p::integer[]"
    ensures "a = " + "ARRAY[1,2,3]" == "a = ARRAY[1,2,3]"
  {
  }

  /** A parameter the context binds is replaced by its value, even when autofill is on. */
  lemma BoundInstance()
    ensures Expected("x = @e;", "f", map["autofill_missing_params" := Bool(true), "e" := Str("v")], true,
                     [Match(4, 6, Some("e"), None)]) ==
      Success(TemplatedFile("x = @e;", "x = v;", "f",
        [TemplatedFileSlice(Literal, Span(0, 4), Span(0, 4)), TemplatedFileSlice(Templated, Span(4, 6), Span(4, 5)),
         TemplatedFileSlice(Literal, Span(6, 7), Span(5, 6))],
        [RawFileSlice("x = ", Literal, 0), RawFileSlice("@e", Templated, 4), RawFileSlice(";", Literal, 6)]))
  {
    var s, ctx, m := "x = @e;", map["autofill_missing_params" := Bool(true), "e" := Str("v")], Match(4, 6, Some("e"), None);
    assert ResolveParam(ctx, true, m, 0) == Success("v");
    OneMatchInside(s, "f", ctx, true, m, "v");
    BoundPieces();
  }

  /** The pieces of the bound example. */
  lemma BoundPieces()
    ensures "x = @e;"[..4] == "x = " && "x = @e;"[4..6] == "@e" && "x = @e;"[6..] == ";"
    ensures "x = " + "v" + ";" == "x = v;"
  {
  }

  /** A parameter neither bound nor autofilled stops templating with an error that names it. */
  lemma MissingInstance()
    ensures Expected("id = @user_id", "f", map["param_style" := Str("sqlc")], true,
                     [Match(5, 13, Some("user_id"), None)]) == Failure(MissingParam(Some("user_id")))
  {
    var ctx, ms := map["param_style" := Str("sqlc")], [Match(5, 13, Some("user_id"), None)];
    assert ResolveParam(ctx, true, ms[0], 0) == Failure(MissingParam(Some("user_id")));
    ResolveStopsAt(ctx, true, ms, 0);
  }
}
