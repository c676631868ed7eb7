/**
 * The templater's settings and their resolution: the three layers of the live context,
 * the choice between `param_regex` and `param_style`, and the errors those choices raise.
 */
module Context {
  import opened Wrappers
  import opened Regex

  /**
   * A value held in the context: text, a boolean flag such as `autofill_missing_params`,
   * or a compiled pattern such as the one stored under `__bind_param_regex`.
   */
  datatype Value = Str(s: string) | Bool(b: bool) | Compiled(pattern: Pattern)

  /** Python's truth value of `context.get(key)`: an absent key and the empty string are false. */
  predicate Truthy(ctx: map<string, Value>, key: string) {
    key in ctx &&
    match ctx[key]
    case Str(s) => s != ""
    case Bool(b) => b
    case Compiled(_) => true
  }

  /** Everything that can make templating fail. */
  datatype TemplaterError =
    /** both `param_regex` and `param_style` were given */
    | BothGiven
    /** neither `param_regex` nor `param_style` was given */
    | NeitherGiven
    /** `param_style` names no registered style; `available` lists the registered ones */
    | UnknownStyle(style: Value, available: seq<string>)
    /** `param_regex` holds a flag, which cannot be compiled (a TypeError in Python) */
    | RegexNotText(given: Value)
    /** a placeholder has no value and is not autofilled; None when the name group did not match */
    | MissingParam(name: Option<string>)
    /** a placeholder's value is not text, so it has no length (a TypeError in Python) */
    | ReplacementNotText(name: Option<string>, value: Value)

  const BindParamRegex: string := "__bind_param_regex"

  /** The registered styles and their patterns. */
  const KnownStyles: map<string, Pattern> := map["sqlc" := SqlcPattern]

  /** `list(KNOWN_STYLES.keys())`, as the unknown-style error reports it. */
  const KnownStyleNames: seq<string> := ["sqlc"]

  /** The templater's two fixed layers: its defaults and the caller's overrides. */
  datatype Templater = Templater(defaultContext: map<string, Value>, overrideContext: map<string, Value>)

  /** The templater as constructed: an absent override context counts as an empty one. */
  function NewTemplater(overrideContext: Option<map<string, Value>>): Templater {
    Templater(
      map["test_value" := Str("__test__")],
      match overrideContext case Some(o) => o case None => map[])
  }

  /** The live context before validation: defaults, then loaded settings, then overrides; later layers win. */
  function LiveContext(t: Templater, loaded: map<string, Value>): (live: map<string, Value>)
    ensures forall k :: k in live <==> k in t.overrideContext || k in loaded || k in t.defaultContext
    ensures forall k :: k in t.overrideContext ==> live[k] == t.overrideContext[k]
    ensures forall k :: k in loaded && k !in t.overrideContext ==> live[k] == loaded[k]
    ensures forall k :: k in t.defaultContext && k !in loaded && k !in t.overrideContext ==>
      live[k] == t.defaultContext[k]
  {
    t.defaultContext + loaded + t.overrideContext
  }

  /** `regex.compile` of a `param_regex` value: text is compiled, a compiled pattern passes through. */
  function CompileRegex(v: Value): (r: Result<Pattern, TemplaterError>)
    ensures r.Failure? <==> v.Bool?
  {
    match v
    case Str(source) => Success(CustomPattern(source))
    case Compiled(p) => Success(p)
    case Bool(_) => Failure(RegexNotText(v))
  }

  /** A `param_style` value that names a registered style. */
  predicate IsKnownStyle(v: Value) {
    v.Str? && v.s in KnownStyles
  }

  /**
   * The validated context: the live context extended with the chosen compiled pattern under
   * `__bind_param_regex`, or the configuration error, checked in the order "not both",
   * then the regex, then the style, then "neither".
   */
  function GetContext(t: Templater, loaded: map<string, Value>): (r: Result<map<string, Value>, TemplaterError>)
    ensures var live := LiveContext(t, loaded);
      && (r == Failure(BothGiven) <==> "param_regex" in live && "param_style" in live)
      && (r == Failure(NeitherGiven) <==> "param_regex" !in live && "param_style" !in live)
      && ("param_style" in live && "param_regex" !in live && !IsKnownStyle(live["param_style"]) ==>
            r == Failure(UnknownStyle(live["param_style"], KnownStyleNames)))
      && (r.Failure? && r.error.UnknownStyle? ==>
            "param_style" in live && "param_regex" !in live && !IsKnownStyle(live["param_style"]))
      && ("param_regex" in live && "param_style" !in live ==>
            r == match CompileRegex(live["param_regex"])
                 case Success(p) => Success(live[BindParamRegex := Compiled(p)])
                 case Failure(e) => Failure(e))
      && ("param_style" in live && "param_regex" !in live && IsKnownStyle(live["param_style"]) ==>
            r == Success(live[BindParamRegex := Compiled(KnownStyles[live["param_style"].s])]))
  {
    var live := LiveContext(t, loaded);
    if "param_regex" in live && "param_style" in live then
      Failure(BothGiven)
    else if "param_regex" in live then
      match CompileRegex(live["param_regex"])
      case Success(p) => Success(live[BindParamRegex := Compiled(p)])
      case Failure(e) => Failure(e)
    else if "param_style" in live then
      var style := live["param_style"];
      if IsKnownStyle(style) then Success(live[BindParamRegex := Compiled(KnownStyles[style.s])])
      else Failure(UnknownStyle(style, KnownStyleNames))
    else
      Failure(NeitherGiven)
  }

  /** On success the context keeps every live key and holds a compiled pattern under `__bind_param_regex`. */
  lemma GetContextSuccess(t: Templater, loaded: map<string, Value>)
    requires GetContext(t, loaded).Success?
    ensures var ctx := GetContext(t, loaded).value;
      && BindParamRegex in ctx && ctx[BindParamRegex].Compiled?
      && ctx.Keys == LiveContext(t, loaded).Keys + {BindParamRegex}
      && forall k :: k in ctx && k != BindParamRegex ==> ctx[k] == LiveContext(t, loaded)[k]
  {
  }

  /**
   * The merge order of a constructed templater, key by key: the override if there is one,
   * else the loaded setting, else the single default `test_value = "__test__"`, else nothing.
   */
  lemma MergeOrder(overrideContext: Option<map<string, Value>>, loaded: map<string, Value>, k: string)
    ensures var o := match overrideContext case Some(o) => o case None => map[];
      var live := LiveContext(NewTemplater(overrideContext), loaded);
      && (k in o ==> k in live && live[k] == o[k])
      && (k !in o && k in loaded ==> k in live && live[k] == loaded[k])
      && (k !in o && k !in loaded ==> if k == "test_value" then k in live && live[k] == Str("__test__") else k !in live)
  {
  }

  /** A templater given neither option, only a binding, reports that neither was given. */
  lemma SetupWithoutStyle()
    ensures GetContext(NewTemplater(Some(map["name" := Str("'john'")])), map[]) == Failure(NeitherGiven)
  {
  }

  /** Both options given: "not both" is reported before the unknown style is looked at. */
  lemma SetupWithBoth()
    ensures GetContext(NewTemplater(Some(map["param_style" := Str("bla"), "param_regex" := Str("bli")])), map[]) ==
      Failure(BothGiven)
  {
  }

  /** An unregistered style is reported with the list of registered ones. */
  lemma SetupWithUnknownStyle()
    ensures GetContext(NewTemplater(Some(map["param_style" := Str("pperccent")])), map[]) ==
      Failure(UnknownStyle(Str("pperccent"), ["sqlc"]))
  {
  }
}
