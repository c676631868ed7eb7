/**
 * Templating one text: every parameter the bound pattern finds is replaced by its value, and
 * the result records which regions of the output came from which regions of the source.
 */
module Templating {
  import opened Wrappers
  import opened Strings
  import opened Regex
  import opened Context
  import opened Autofill
  import opened Slices

  /**
   * What scanning with a user-supplied pattern yields: whether the pattern defines a group named
   * `param_name`, and its matches in order. Such patterns are not interpreted by this model.
   */
  datatype CustomMatches = CustomMatches(hasNameGroup: bool, found: seq<Match>)

  /** The matches the bound pattern finds in inStr, and whether they carry names. */
  function FindParams(p: Pattern, inStr: string, custom: CustomMatches): (r: (seq<Match>, bool))
    requires WellFormed(custom.found, |inStr|)
    ensures WellFormed(r.0, |inStr|)
    ensures p.SqlcPattern? ==> r.1 && forall k :: 0 <= k < |r.0| ==> IsSqlcToken(inStr, r.0[k])
  {
    match p
    case SqlcPattern => ScanSqlcTokens(inStr); (ScanSqlc(inStr), true)
    case CustomPattern(_) => (custom.found, custom.hasNameGroup)
  }

  /** The name of match i: its own name when the pattern has a name group, else its 1-based position. */
  function ParamName(named: bool, m: Match, i: nat): (r: Option<string>)
    ensures !named ==> r.Some? && |r.value| >= 1 && (forall c :: c in r.value ==> '0' <= c <= '9')
    ensures named ==> r == m.name
  {
    if named then m.name else Some(Decimal(i + 1))
  }

  /**
   * The replacement of one parameter. Autofill applies only when `autofill_missing_params` is
   * truthy and the name is not a key of the context; otherwise the context's value is used, and
   * a name the context lacks, or a value that is not text, is an error naming the parameter.
   */
  function Resolve(ctx: map<string, Value>, name: Option<string>, typ: Option<string>): (r: Result<string, TemplaterError>)
    ensures name.Some? && name.value in ctx && ctx[name.value].Str? ==> r == Success(ctx[name.value].s)
    ensures !(name.Some? && name.value in ctx) && Truthy(ctx, "autofill_missing_params") ==>
      r == Success(AutofillValue(typ))
    ensures !(name.Some? && name.value in ctx) && !Truthy(ctx, "autofill_missing_params") ==>
      r == Failure(MissingParam(name))
    ensures name.Some? && name.value in ctx && !ctx[name.value].Str? ==>
      r == Failure(ReplacementNotText(name, ctx[name.value]))
  {
    if Truthy(ctx, "autofill_missing_params") && !(name.Some? && name.value in ctx) then
      Success(AutofillValue(typ))
    else if name.None? || name.value !in ctx then
      Failure(MissingParam(name))
    else
      match ctx[name.value]
      case Str(s) => Success(s)
      case v => Failure(ReplacementNotText(name, v))
  }

  function ResolveParam(ctx: map<string, Value>, named: bool, m: Match, i: nat): Result<string, TemplaterError> {
    Resolve(ctx, ParamName(named, m, i), m.typ)
  }

  /** Match i is the first whose parameter does not resolve. */
  predicate FirstFailure(ctx: map<string, Value>, named: bool, ms: seq<Match>, i: int) {
    && 0 <= i < |ms|
    && ResolveParam(ctx, named, ms[i], i).Failure?
    && forall j :: 0 <= j < i ==> ResolveParam(ctx, named, ms[j], j).Success?
  }

  /** The replacements of the first k matches in order, or the error of the first of them that fails. */
  function ResolveFirst(ctx: map<string, Value>, named: bool, ms: seq<Match>, k: nat): (r: Result<seq<string>, TemplaterError>)
    requires k <= |ms|
    ensures r.Success? ==> |r.value| == k
  {
    if k == 0 then Success([])
    else
      match ResolveFirst(ctx, named, ms, k - 1)
      case Failure(e) => Failure(e)
      case Success(reps) =>
        match ResolveParam(ctx, named, ms[k - 1], k - 1)
        case Failure(e) => Failure(e)
        case Success(x) => Success(reps + [x])
  }

  /** The replacements of all matches in order, or the error of the first one that fails. */
  function ResolveAll(ctx: map<string, Value>, named: bool, ms: seq<Match>): (r: Result<seq<string>, TemplaterError>)
    ensures r.Success? ==> |r.value| == |ms|
  {
    ResolveFirst(ctx, named, ms, |ms|)
  }

  /** Resolution succeeds exactly when every match resolves, and then yields each match's replacement in order. */
  lemma {:induction false} ResolveFirstSpec(ctx: map<string, Value>, named: bool, ms: seq<Match>, k: nat)
    requires k <= |ms|
    ensures var r := ResolveFirst(ctx, named, ms, k);
      && (r.Success? <==> forall i :: 0 <= i < k ==> ResolveParam(ctx, named, ms[i], i).Success?)
      && (r.Success? ==> forall i :: 0 <= i < k ==> r.value[i] == ResolveParam(ctx, named, ms[i], i).value)
  {
    if k > 0 {
      ResolveFirstSpec(ctx, named, ms, k - 1);
    }
  }

  /** Once the first k matches fail to resolve, so do the first j for every j from k on, with the same error. */
  lemma {:induction false} FailureSticks(ctx: map<string, Value>, named: bool, ms: seq<Match>, k: nat, j: nat)
    requires k <= j <= |ms|
    requires ResolveFirst(ctx, named, ms, k).Failure?
    ensures ResolveFirst(ctx, named, ms, j) == ResolveFirst(ctx, named, ms, k)
    decreases j - k
  {
    if j > k {
      FailureSticks(ctx, named, ms, k, j - 1);
    }
  }

  /** A failure at match k after k successful matches is what resolving all matches reports. */
  lemma ResolveStopsAt(ctx: map<string, Value>, named: bool, ms: seq<Match>, k: nat)
    requires k < |ms|
    requires ResolveFirst(ctx, named, ms, k).Success?
    requires ResolveParam(ctx, named, ms[k], k).Failure?
    ensures ResolveAll(ctx, named, ms) == Failure(ResolveParam(ctx, named, ms[k], k).error)
  {
    FailureSticks(ctx, named, ms, k + 1, |ms|);
  }

  /** Resolution stops at the first match whose parameter does not resolve and reports its error. */
  lemma ResolveFirstFailure(ctx: map<string, Value>, named: bool, ms: seq<Match>, k: nat)
    requires FirstFailure(ctx, named, ms, k)
    ensures ResolveAll(ctx, named, ms) == Failure(ResolveParam(ctx, named, ms[k], k).error)
  {
    ResolveFirstSpec(ctx, named, ms, k);
    ResolveStopsAt(ctx, named, ms, k);
  }

  /** The text before match i starts no later than the match, and no match ends past the text. */
  lemma PrevBound(ms: seq<Match>, n: nat, i: nat)
    requires WellFormed(ms, n) && i <= |ms|
    ensures Prev(ms, i) <= n
    ensures i < |ms| ==> Prev(ms, i) <= ms[i].start
  {
  }

  /** The literal gap before match i: from the end of the previous match (or 0) to the match's start. */
  function Gap(inStr: string, ms: seq<Match>, i: nat): Segment
    requires WellFormed(ms, |inStr|) && i < |ms|
  {
    PrevBound(ms, |inStr|, i);
    var p := Prev(ms, i);
    Segment(Literal, Span(p, ms[i].start), inStr[p..ms[i].start], inStr[p..ms[i].start])
  }

  /** A match and the text that replaces it. */
  function Replaced(inStr: string, m: Match, x: string): Segment
    requires m.start <= m.end <= |inStr|
  {
    Segment(Templated, Span(m.start, m.end), inStr[m.start..m.end], x)
  }

  /** For each of the first |reps| matches, its gap and then its replacement. */
  function MatchSegments(inStr: string, ms: seq<Match>, reps: seq<string>): (segs: seq<Segment>)
    requires WellFormed(ms, |inStr|) && |reps| <= |ms|
    ensures |segs| == 2 * |reps|
    decreases |reps|
  {
    if reps == [] then []
    else
      var n := |reps| - 1;
      MatchSegments(inStr, ms, reps[..n]) + [Gap(inStr, ms, n), Replaced(inStr, ms[n], reps[n])]
  }

  /** Segment 2i is the gap before match i and segment 2i + 1 is match i replaced. */
  lemma {:induction false} MatchSegmentsAt(inStr: string, ms: seq<Match>, reps: seq<string>, i: nat)
    requires WellFormed(ms, |inStr|) && i < |reps| <= |ms|
    ensures MatchSegments(inStr, ms, reps)[2 * i] == Gap(inStr, ms, i)
    ensures MatchSegments(inStr, ms, reps)[2 * i + 1] == Replaced(inStr, ms[i], reps[i])
    decreases |reps|
  {
    var n := |reps| - 1;
    if i < n {
      MatchSegmentsAt(inStr, ms, reps[..n], i);
    }
  }

  /** The text after the last match, when there is any. */
  function Tail(inStr: string, ms: seq<Match>): seq<Segment>
    requires WellFormed(ms, |inStr|)
  {
    PrevBound(ms, |inStr|, |ms|);
    var p := End(ms);
    if p < |inStr| then [Segment(Literal, Span(p, |inStr|), inStr[p..], inStr[p..])] else []
  }

  /** The decomposition of inStr the matches give: each match's gap and replacement, then the rest. */
  function Segments(inStr: string, ms: seq<Match>, reps: seq<string>): seq<Segment>
    requires WellFormed(ms, |inStr|) && |ms| == |reps|
  {
    MatchSegments(inStr, ms, reps) + Tail(inStr, ms)
  }

  /** The templated file for matches ms over inStr in context ctx, or the first resolution error. */
  function Expected(inStr: string, fname: string, ctx: map<string, Value>, named: bool, ms: seq<Match>)
    : Result<TemplatedFile, TemplaterError>
    requires WellFormed(ms, |inStr|)
  {
    match ResolveAll(ctx, named, ms)
    case Failure(e) => Failure(e)
    case Success(reps) => Success(Assemble(inStr, fname, Segments(inStr, ms, reps)))
  }

  /** The whole of templating: the context, then the matches of its pattern, then the replacements. */
  function Template(t: Templater, loaded: map<string, Value>, inStr: string, fname: string, custom: CustomMatches)
    : Result<TemplatedFile, TemplaterError>
    requires WellFormed(custom.found, |inStr|)
  {
    match GetContext(t, loaded)
    case Failure(e) => Failure(e)
    case Success(ctx) =>
      GetContextSuccess(t, loaded);
      var (ms, named) := FindParams(ctx[BindParamRegex].pattern, inStr, custom);
      Expected(inStr, fname, ctx, named, ms)
  }

  /** What the loop has built after the first |reps| matches. */
  function Partial(inStr: string, ms: seq<Match>, reps: seq<string>): Built
    requires WellFormed(ms, |inStr|) && |reps| <= |ms|
    decreases |reps|
  {
    if reps == [] then Built("", [], [])
    else
      var n := |reps| - 1;
      Push(Push(Partial(inStr, ms, reps[..n]), Gap(inStr, ms, n)), Replaced(inStr, ms[n], reps[n]))
  }

  lemma {:induction false} PartialBuilds(inStr: string, ms: seq<Match>, reps: seq<string>)
    requires WellFormed(ms, |inStr|) && |reps| <= |ms|
    ensures Partial(inStr, ms, reps) == Build(MatchSegments(inStr, ms, reps))
    decreases |reps|
  {
    if reps != [] {
      var n := |reps| - 1;
      PartialBuilds(inStr, ms, reps[..n]);
      var segs := MatchSegments(inStr, ms, reps[..n]);
      var gap, rep := Gap(inStr, ms, n), Replaced(inStr, ms[n], reps[n]);
      BuildSnoc(segs, gap);
      BuildSnoc(segs + [gap], rep);
      assert segs + [gap, rep] == segs + [gap] + [rep];
    }
  }

  method Process(t: Templater, loaded: map<string, Value>, inStr: string, fname: string, custom: CustomMatches)
    returns (r: Result<TemplatedFile, TemplaterError>)
    requires WellFormed(custom.found, |inStr|)
    ensures r == Template(t, loaded, inStr, fname, custom)
  {
    var ctxResult := GetContext(t, loaded);
    if ctxResult.Failure? {
      return Failure(ctxResult.error);
    }
    var context := ctxResult.value;
    GetContextSuccess(t, loaded);
    var regex := context[BindParamRegex];
    var (found, named) := FindParams(regex.pattern, inStr, custom);
    r := Substitute(inStr, fname, context, named, found);
  }

  /** The replacement loop: walks the matches in order, building the output and both slice lists. */
  method Substitute(inStr: string, fname: string, context: map<string, Value>, named: bool, found: seq<Match>)
    returns (r: Result<TemplatedFile, TemplaterError>)
    requires WellFormed(found, |inStr|)
    ensures r == Expected(inStr, fname, context, named, found)
  {
    var templateSlices: seq<TemplatedFileSlice> := [];
    var rawSlices: seq<RawFileSlice> := [];
    var lastPosRaw, lastPosTemplated := 0, 0;
    var outStr := "";
    var paramCounter := 1;
    ghost var reps: seq<string> := [];
    var k := 0;
    while k < |found|
      invariant 0 <= k <= |found|
      invariant lastPosRaw == Prev(found, k)
      invariant paramCounter == if named then 1 else k + 1
      invariant ResolveFirst(context, named, found, k) == Success(reps)
      invariant Built(outStr, templateSlices, rawSlices) == Partial(inStr, found, reps)
      invariant lastPosTemplated == |outStr|
    {
      var resolved: Result<string, TemplaterError>;
      resolved, paramCounter := ResolveNext(context, named, found[k], k, paramCounter);
      if resolved.Failure? {
        ResolveStopsAt(context, named, found, k);
        return Failure(resolved.error);
      }
      var replacement := resolved.value;
      ResolveFirstStep(context, named, found, k, reps, replacement);
      PartialStep(inStr, found, reps, replacement);
      outStr, templateSlices, rawSlices, lastPosTemplated :=
        AppendMatch(inStr, found, k, replacement, outStr, templateSlices, rawSlices, lastPosRaw, lastPosTemplated);
      lastPosRaw := found[k].end;
      reps := reps + [replacement];
      k := k + 1;
    }
    BuildsSegments(inStr, found, reps);
    outStr, templateSlices, rawSlices :=
      AppendTail(inStr, found, outStr, templateSlices, rawSlices, lastPosRaw, lastPosTemplated);
    return Success(TemplatedFile(inStr, outStr, fname, templateSlices, rawSlices));
  }

  /**
   * The value of match k: its name (the captured group, or the counter when the pattern has no
   * name group, which then advances), then its resolution.
   */
  method ResolveNext(context: map<string, Value>, named: bool, foundParam: Match, k: nat, paramCounter: nat)
    returns (r: Result<string, TemplaterError>, paramCounter': nat)
    requires paramCounter == if named then 1 else k + 1
    ensures r == ResolveParam(context, named, foundParam, k)
    ensures paramCounter' == if named then 1 else k + 2
  {
    var paramName: Option<string>;
    paramCounter' := paramCounter;
    if !named {
      paramName := Some(Decimal(paramCounter));
      paramCounter' := paramCounter + 1;
    } else {
      paramName := foundParam.name;
    }
    r := Resolve(context, paramName, foundParam.typ);
  }

  /** Resolving one more match after k successes appends its replacement. */
  lemma ResolveFirstStep(ctx: map<string, Value>, named: bool, ms: seq<Match>, k: nat, reps: seq<string>, x: string)
    requires k < |ms|
    requires ResolveFirst(ctx, named, ms, k) == Success(reps)
    requires ResolveParam(ctx, named, ms[k], k) == Success(x)
    ensures ResolveFirst(ctx, named, ms, k + 1) == Success(reps + [x])
  {
  }

  /** The segments of all matches build what the loop built, then the text after the last match, if any. */
  lemma BuildsSegments(inStr: string, ms: seq<Match>, reps: seq<string>)
    requires WellFormed(ms, |inStr|) && |reps| == |ms|
    ensures Build(Segments(inStr, ms, reps)) ==
      if Tail(inStr, ms) == [] then Partial(inStr, ms, reps) else Push(Partial(inStr, ms, reps), Tail(inStr, ms)[0])
  {
    PartialBuilds(inStr, ms, reps);
    TailSegments(inStr, ms, reps);
    if Tail(inStr, ms) == [] {
      assert Segments(inStr, ms, reps) == MatchSegments(inStr, ms, reps);
    } else {
      BuildSnoc(MatchSegments(inStr, ms, reps), Tail(inStr, ms)[0]);
    }
  }

  /** After the loop: the text after the last match, if any, appended to what was built. */
  method AppendTail(inStr: string, ms: seq<Match>,
                    outStr: string, templateSlices: seq<TemplatedFileSlice>, rawSlices: seq<RawFileSlice>,
                    lastPosRaw: nat, lastPosTemplated: nat)
    returns (outStr': string, templateSlices': seq<TemplatedFileSlice>, rawSlices': seq<RawFileSlice>)
    requires WellFormed(ms, |inStr|)
    requires lastPosRaw == End(ms) && lastPosTemplated == |outStr|
    ensures var b := Built(outStr, templateSlices, rawSlices);
      Built(outStr', templateSlices', rawSlices') == if Tail(inStr, ms) == [] then b else Push(b, Tail(inStr, ms)[0])
  {
    PrevBound(ms, |inStr|, |ms|);
    outStr', templateSlices', rawSlices' := outStr, templateSlices, rawSlices;
    // the text after the last match, when some remains
    if |inStr| > lastPosRaw {
      TailStep(inStr, outStr, templateSlices, rawSlices, lastPosRaw, lastPosTemplated);
      templateSlices' := templateSlices + [TemplatedFileSlice(Literal, Span(lastPosRaw, |inStr|),
        Span(lastPosTemplated, lastPosTemplated + (|inStr| - lastPosRaw)))];
      rawSlices' := rawSlices + [RawFileSlice(inStr[lastPosRaw..], Literal, lastPosRaw)];
      outStr' := outStr + inStr[lastPosRaw..];
    }
  }

  /** One pass of the loop: the gap before match k, then match k replaced by x, appended to what was built. */
  method AppendMatch(inStr: string, ms: seq<Match>, k: nat, x: string,
                     outStr: string, templateSlices: seq<TemplatedFileSlice>, rawSlices: seq<RawFileSlice>,
                     lastPosRaw: nat, lastPosTemplated: nat)
    returns (outStr': string, templateSlices': seq<TemplatedFileSlice>, rawSlices': seq<RawFileSlice>,
             lastPosTemplated': nat)
    requires WellFormed(ms, |inStr|) && k < |ms|
    requires lastPosRaw == Prev(ms, k) && lastPosTemplated == |outStr|
    ensures Built(outStr', templateSlices', rawSlices') ==
      Push(Push(Built(outStr, templateSlices, rawSlices), Gap(inStr, ms, k)), Replaced(inStr, ms[k], x))
    ensures lastPosTemplated' == |outStr'|
  {
    var foundParam := ms[k];
    PrevBound(ms, |inStr|, k);
    var lastLiteralLength := foundParam.start - lastPosRaw;
    GapStep(inStr, ms, k, outStr, templateSlices, rawSlices, lastPosRaw, lastPosTemplated, lastLiteralLength);
    // the gap segment: the source text from the previous match's end to this match
    templateSlices' := templateSlices + [TemplatedFileSlice(Literal, Span(lastPosRaw, foundParam.start),
      Span(lastPosTemplated, lastPosTemplated + lastLiteralLength))];
    rawSlices' := rawSlices + [RawFileSlice(inStr[lastPosRaw..foundParam.start], Literal, lastPosRaw)];
    outStr' := outStr + inStr[lastPosRaw..foundParam.start];
    // the templated segment: the match's span, with the replacement as its output
    var startTemplatePos := lastPosTemplated + lastLiteralLength;
    ReplaceStep(inStr, foundParam, x, outStr', templateSlices', rawSlices', startTemplatePos);
    templateSlices' := templateSlices' + [TemplatedFileSlice(Templated, Span(foundParam.start, foundParam.end),
      Span(startTemplatePos, startTemplatePos + |x|))];
    rawSlices' := rawSlices' + [RawFileSlice(inStr[foundParam.start..foundParam.end], Templated, foundParam.start)];
    outStr' := outStr' + x;
    lastPosTemplated' := startTemplatePos + |x|;
  }

  /** Resolving one more match pushes its gap and its replacement onto what was built. */
  lemma PartialStep(inStr: string, ms: seq<Match>, reps: seq<string>, x: string)
    requires WellFormed(ms, |inStr|) && |reps| < |ms|
    ensures Partial(inStr, ms, reps + [x]) ==
      Push(Push(Partial(inStr, ms, reps), Gap(inStr, ms, |reps|)), Replaced(inStr, ms[|reps|], x))
  {
    assert (reps + [x])[..|reps|] == reps;
  }

  /** Appending the gap before match k, as the loop writes it, pushes that gap. */
  lemma GapStep(inStr: string, ms: seq<Match>, k: nat, out: string, ts: seq<TemplatedFileSlice>, rs: seq<RawFileSlice>,
                lastPosRaw: nat, lastPosTemplated: nat, lastLiteralLength: nat)
    requires WellFormed(ms, |inStr|) && k < |ms|
    requires lastPosRaw == Prev(ms, k) && lastPosTemplated == |out|
    requires lastLiteralLength == ms[k].start - lastPosRaw
    ensures lastPosRaw <= ms[k].start
    ensures Push(Built(out, ts, rs), Gap(inStr, ms, k)) ==
      Built(out + inStr[lastPosRaw..ms[k].start],
            ts + [TemplatedFileSlice(Literal, Span(lastPosRaw, ms[k].start),
                    Span(lastPosTemplated, lastPosTemplated + lastLiteralLength))],
            rs + [RawFileSlice(inStr[lastPosRaw..ms[k].start], Literal, lastPosRaw)])
  {
    PrevBound(ms, |inStr|, k);
  }

  /** Appending a replaced match, as the loop writes it, pushes that match. */
  lemma ReplaceStep(inStr: string, m: Match, x: string, out: string, ts: seq<TemplatedFileSlice>, rs: seq<RawFileSlice>,
                    startTemplatePos: nat)
    requires m.start <= m.end <= |inStr|
    requires startTemplatePos == |out|
    ensures Push(Built(out, ts, rs), Replaced(inStr, m, x)) ==
      Built(out + x,
            ts + [TemplatedFileSlice(Templated, Span(m.start, m.end), Span(startTemplatePos, startTemplatePos + |x|))],
            rs + [RawFileSlice(inStr[m.start..m.end], Templated, m.start)])
  {
  }

  /** Appending the text after the last match, as the loop writes it, pushes that text. */
  lemma TailStep(inStr: string, out: string, ts: seq<TemplatedFileSlice>, rs: seq<RawFileSlice>,
                 lastPosRaw: nat, lastPosTemplated: nat)
    requires lastPosRaw < |inStr| && lastPosTemplated == |out|
    ensures Push(Built(out, ts, rs), Segment(Literal, Span(lastPosRaw, |inStr|), inStr[lastPosRaw..], inStr[lastPosRaw..])) ==
      Built(out + inStr[lastPosRaw..],
            ts + [TemplatedFileSlice(Literal, Span(lastPosRaw, |inStr|),
                    Span(lastPosTemplated, lastPosTemplated + (|inStr| - lastPosRaw)))],
            rs + [RawFileSlice(inStr[lastPosRaw..], Literal, lastPosRaw)])
  {
  }

  /** The segments of all matches, followed by the text after the last match when there is any. */
  lemma TailSegments(inStr: string, ms: seq<Match>, reps: seq<string>)
    requires WellFormed(ms, |inStr|) && |ms| == |reps|
    ensures End(ms) <= |inStr|
    ensures Segments(inStr, ms, reps) == MatchSegments(inStr, ms, reps) +
      if End(ms) < |inStr| then [Segment(Literal, Span(End(ms), |inStr|), inStr[End(ms)..], inStr[End(ms)..])] else []
  {
    PrevBound(ms, |inStr|, |ms|);
  }
}
