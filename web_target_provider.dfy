/** The value-factory provider for `@Uri`-annotated handler parameters
    (`WebTargetValueFactoryProvider`). At bind time it decides whether it applies to a
    parameter and, when it does, builds an immutable factory holding the URI template (the
    parameter's source name) and the optional named client configuration. At request time
    the factory substitutes the request's path parameters into the template, appends a
    relative result to the request's base URI, and pairs the URI with the client to use. */
module WebTargetProvider {
  import opened Wrappers
  import opened UriLibrary

  /** The Java class of a parameter, as far as this provider tells classes apart. */
  datatype TypeTag = WebTargetClass | OtherClass(name: string)

  /** What the provider reads of a handler parameter: its source name (the annotation's
      value, `null` as `None`) and its raw type. */
  datatype Parameter = Parameter(sourceName: Option<string>, rawType: TypeTag)

  /** Outbound-client settings; their contents mean nothing to this provider. */
  datatype ClientConfig = ClientConfig(properties: map<string, string>)

  /** A value stored in the override map: `null`, a `ClientConfig`, or an object of some
      other class. */
  datatype MapEntry = NullEntry | ConfigEntry(config: ClientConfig) | OtherEntry

  /** The server property `WEBTARGET_CONFIGURATION`: not set, set to something that is not a
      `Map`, or a `Map` from parameter names to entries. */
  datatype ConfigProperty = Absent | NotAMap | AMap(entries: map<string, MapEntry>)

  /** The bind-time fault: the map entry for the parameter name is not a `ClientConfig`,
      so the assignment at the lookup raises `ClassCastException`. */
  datatype BindFault = NotAClientConfig(name: string)

  /** The immutable value factory: URI template and optional client configuration. */
  datatype Factory = Factory(uriValue: string, clientConfig: Option<ClientConfig>)

  /** The request-scoped state `get` reads: the matched path parameters (every value the
      router captured, in order) and the request's base URI. A base URI the container
      supplies always has a path starting with `/` (at least the application root), so
      `AppendPath`'s empty-base-path case, which gives no `/` between authority and path,
      does not arise for it. */
  datatype HttpContext = HttpContext(pathParameters: map<string, seq<string>>, baseUri: Uri)

  /** Which client the target is built on: `ClientFactory.newClient()` or
      `ClientFactory.newClient(config)`. */
  datatype ClientChoice = DefaultClient | Configured(config: ClientConfig)

  /** The produced web target: a client bound to one URI. */
  datatype Target = Target(uri: Uri, client: ClientChoice)

  /* ---------------------------------------------------------------------------------------
     Bind time
     --------------------------------------------------------------------------------------- */

  /** The forgiving override lookup: only a `Map` property is consulted, and its entry for
      `name` is the configuration; a missing entry or `null` means "no override". An entry of
      another class is the one case that fails. */
  function LookupClientConfig(name: string, property: ConfigProperty): (r: Result<Option<ClientConfig>, BindFault>)
    ensures !property.AMap? ==> r == Success(None)
    ensures property.AMap? && name !in property.entries ==> r == Success(None)
    ensures property.AMap? && name in property.entries && property.entries[name].NullEntry? ==>
      r == Success(None)
    ensures property.AMap? && name in property.entries && property.entries[name].ConfigEntry? ==>
      r == Success(Some(property.entries[name].config))
    ensures r.Failure? <==>
      property.AMap? && name in property.entries && property.entries[name].OtherEntry?
  {
    match property
    case Absent => Success(None)
    case NotAMap => Success(None)
    case AMap(entries) =>
      if name !in entries then Success(None)
      else match entries[name]
        case NullEntry => Success(None)
        case ConfigEntry(c) => Success(Some(c))
        case OtherEntry => Failure(NotAClientConfig(name))
  }

  /** A map holding only `ClientConfig` values (or `null`). */
  predicate WellTyped(property: ConfigProperty) {
    property.AMap? ==> forall n :: n in property.entries ==> !property.entries[n].OtherEntry?
  }

  /** With a well-typed property the lookup never fails. */
  lemma LookupNeverFailsWhenWellTyped(name: string, property: ConfigProperty)
    requires WellTyped(property)
    ensures LookupClientConfig(name, property).Success?
  {
  }

  /** True when the parameter has a usable source name. */
  predicate HasName(p: Parameter) {
    p.sourceName.Some? && p.sourceName.value != []
  }

  /** `createValueFactory`: `Success(None)` is Java's `null` (the provider declines),
      `Success(Some(f))` a new factory, `Failure` an exception from the lookup. */
  function CreateValueFactory(p: Parameter, property: ConfigProperty): (r: Result<Option<Factory>, BindFault>)
    ensures !HasName(p) ==> r == Success(None)
    ensures p.rawType != WebTargetClass ==> r == Success(None)
    ensures r.Success? && r.value.Some? ==>
      HasName(p) && p.rawType == WebTargetClass &&
      r.value.value.uriValue == p.sourceName.value &&
      LookupClientConfig(p.sourceName.value, property) == Success(r.value.value.clientConfig)
    ensures HasName(p) && p.rawType == WebTargetClass ==>
      (r.Failure? <==> LookupClientConfig(p.sourceName.value, property).Failure?)
    ensures HasName(p) && p.rawType == WebTargetClass && LookupClientConfig(p.sourceName.value, property).Success? ==>
      r == Success(Some(Factory(p.sourceName.value, LookupClientConfig(p.sourceName.value, property).value)))
  {
    if !HasName(p) then
      Success(None)
    else if p.rawType == WebTargetClass then
      var clientConfig :- LookupClientConfig(p.sourceName.value, property);
      Success(Some(Factory(p.sourceName.value, clientConfig)))
    else
      Success(None)
  }

  /** With the override map `{"backend": cfg}`, a parameter
      named "backend" gets `cfg` and one named "other" gets the default client. */
  lemma NamedOverrideSelection(cfg: ClientConfig)
    ensures CreateValueFactory(Parameter(Some("backend"), WebTargetClass), AMap(map["backend" := ConfigEntry(cfg)]))
      == Success(Some(Factory("backend", Some(cfg))))
    ensures CreateValueFactory(Parameter(Some("other"), WebTargetClass), AMap(map["backend" := ConfigEntry(cfg)]))
      == Success(Some(Factory("other", None)))
  {
  }

  /* ---------------------------------------------------------------------------------------
     Request time
     --------------------------------------------------------------------------------------- */

  /** The first captured value of every path parameter, `None` (Java's `null`) for an empty
      list. */
  function FirstValues(pathParameters: map<string, seq<string>>): (r: map<string, Option<string>>)
    ensures r.Keys == pathParameters.Keys
    ensures forall n :: n in pathParameters ==>
      (r[n].None? <==> pathParameters[n] == []) &&
      (r[n].Some? ==> r[n].value == pathParameters[n][0])
  {
    map n | n in pathParameters :: if pathParameters[n] == [] then None else Some(pathParameters[n][0])
  }

  /** Later captured values are never used: only a list's head counts. */
  lemma LaterValuesIgnored(pathParameters: map<string, seq<string>>, n: string, first: string, later: seq<string>)
    ensures FirstValues(pathParameters[n := [first] + later]) == FirstValues(pathParameters[n := [first]])
  {
    var a := FirstValues(pathParameters[n := [first] + later]);
    var b := FirstValues(pathParameters[n := [first]]);
    assert a.Keys == b.Keys;
    forall m | m in a ensures a[m] == b[m] {
      if m == n {
        assert ([first] + later)[0] == first;
      }
    }
  }

  /** A name has a substitution value exactly when the router captured at least one value
      for it. */
  lemma BoundIffCaptured(pathParameters: map<string, seq<string>>, n: string)
    ensures Bound(FirstValues(pathParameters), n) <==> n in pathParameters && pathParameters[n] != []
  {
  }

  /** Every placeholder name of `t` was captured with at least one value. */
  predicate AllCaptured(t: Template, pathParameters: map<string, seq<string>>) {
    forall i :: 0 <= i < |t| && t[i].Var? ==>
      t[i].name in pathParameters && pathParameters[t[i].name] != []
  }

  /** The template with the first path-parameter values substituted: a malformed template
      fails as such, and a well-formed one succeeds exactly when every placeholder name was
      captured with at least one value. */
  function Substitute(uriValue: string, pathParameters: map<string, seq<string>>): (r: Result<string, Fault>)
    ensures ParseTemplate(uriValue).Failure? ==> r == Failure(MalformedTemplate)
    ensures ParseTemplate(uriValue).Success? ==>
      (r.Success? <==> AllCaptured(ParseTemplate(uriValue).value, pathParameters))
    ensures r.Failure? && r.error.UnboundVariable? ==>
      r.error.name !in pathParameters || pathParameters[r.error.name] == []
    ensures r.Failure? && r.error.UnboundVariable? ==>
      exists i :: 0 <= i < |ParseTemplate(uriValue).value| && ParseTemplate(uriValue).value[i] == Var(r.error.name)
  {
    var template :- ParseTemplate(uriValue);
    var values := FirstValues(pathParameters);
    assert forall n :: Bound(values, n) <==> n in pathParameters && pathParameters[n] != [];
    assert AllBound(template, values) <==> AllCaptured(template, pathParameters);
    Expand(template, values)
  }

  /** The text of any well-formed template substitutes to that template's expansion with
      the first captured values; with `ExpandLiteral`, `ExpandVar` and `ExpandAppend` this
      fixes the substituted text for every template. */
  lemma SubstituteRendered(t: Template, pathParameters: map<string, seq<string>>)
    requires WellFormed(t)
    ensures Substitute(Render(t), pathParameters) == Expand(t, FirstValues(pathParameters))
  {
    RenderThenParse(t);
  }

  /** A template without placeholders is passed through unchanged, whatever was captured. */
  lemma NoPlaceholderUnchanged(uriValue: string, pathParameters: map<string, seq<string>>)
    requires '{' !in uriValue
    ensures Substitute(uriValue, pathParameters) == Success(uriValue)
  {
    LiteralParses(uriValue);
    ExpandLiteral(Literal(uriValue), FirstValues(pathParameters));
    RenderLiteral(uriValue);
  }

  /** Literal text and one placeholder, against a path parameter captured for it: the
      placeholder becomes the first captured value. */
  lemma PrefixThenVarSubstituted(prefix: string, n: string, pathParameters: map<string, seq<string>>)
    requires '{' !in prefix && ValidName(n)
    requires n in pathParameters && pathParameters[n] != []
    ensures Substitute(prefix + "{" + n + "}", pathParameters) == Success(prefix + pathParameters[n][0])
  {
    LiteralThenVarParses(prefix, n);
    LiteralThenVarExpands(prefix, n, FirstValues(pathParameters));
  }

  /** The client `get` builds the target on. */
  function ChooseClient(clientConfig: Option<ClientConfig>): (r: ClientChoice)
    ensures r == DefaultClient <==> clientConfig.None?
    ensures clientConfig.Some? ==> r == Configured(clientConfig.value)
  {
    match clientConfig
    case None => DefaultClient
    case Some(c) => Configured(c)
  }

  /** `WebTargetValueFactory.get`: substitutes, appends a relative result to the base URI,
      and picks the client. No fault is caught: any substitution fault is the result. */
  function Get(f: Factory, context: HttpContext): (r: Result<Target, Fault>)
    ensures r.Success? <==> Substitute(f.uriValue, context.pathParameters).Success?
    ensures r.Failure? ==> r.error == Substitute(f.uriValue, context.pathParameters).error
    ensures r.Success? ==> r.value.client == ChooseClient(f.clientConfig)
  {
    var substituted :- Substitute(f.uriValue, context.pathParameters);
    var uri := ParseUri(substituted);
    var resolved := if IsAbsolute(uri) then uri else AppendPath(context.baseUri, ToText(uri));
    Success(Target(resolved, ChooseClient(f.clientConfig)))
  }

  /** An absolute substituted URI is the result as it is; the base URI plays no part. */
  lemma AbsoluteIgnoresBase(f: Factory, context: HttpContext, otherBase: Uri)
    requires Substitute(f.uriValue, context.pathParameters).Success?
    requires IsAbsolute(ParseUri(Substitute(f.uriValue, context.pathParameters).value))
    ensures Get(f, context).Success?
    ensures ToText(Get(f, context).value.uri) == Substitute(f.uriValue, context.pathParameters).value
    ensures Get(f, context.(baseUri := otherBase)) == Get(f, context)
  {
    ParseUriText(Substitute(f.uriValue, context.pathParameters).value);
  }

  /** A relative substituted URI is appended, as text, to the base URI's path. */
  lemma RelativeAppendsToBase(f: Factory, context: HttpContext)
    requires Substitute(f.uriValue, context.pathParameters).Success?
    requires !IsAbsolute(ParseUri(Substitute(f.uriValue, context.pathParameters).value))
    ensures Get(f, context).Success?
    ensures Get(f, context).value.uri
      == AppendPath(context.baseUri, Substitute(f.uriValue, context.pathParameters).value)
    ensures Get(f, context).value.uri.scheme == context.baseUri.scheme
    ensures Get(f, context).value.uri.authority == context.baseUri.authority
  {
    ParseUriText(Substitute(f.uriValue, context.pathParameters).value);
  }

  /** A placeholder whose name the router did not capture, or captured with no value,
      makes `get` fail with that fault kind rather than produce a URI. */
  lemma MissingValueFails(f: Factory, context: HttpContext, i: nat)
    requires ParseTemplate(f.uriValue).Success?
    requires i < |ParseTemplate(f.uriValue).value| && ParseTemplate(f.uriValue).value[i].Var?
    requires var n := ParseTemplate(f.uriValue).value[i].name;
      n !in context.pathParameters || context.pathParameters[n] == []
    ensures Get(f, context).Failure? && Get(f, context).error.UnboundVariable?
  {
    var t := ParseTemplate(f.uriValue).value;
    BoundIffCaptured(context.pathParameters, t[i].name);
  }

  /** Conversely, a well-formed template all of whose placeholders have a captured value
      always yields a target. */
  lemma AllCapturedSucceeds(f: Factory, context: HttpContext)
    requires ParseTemplate(f.uriValue).Success?
    requires AllCaptured(ParseTemplate(f.uriValue).value, context.pathParameters)
    ensures Get(f, context).Success?
  {
  }

  /** `get` sees the path parameters only through their first values: contexts that agree on
      the base URI, on the captured names and on each name's first value (or its absence)
      produce the same result. */
  lemma OnlyFirstValuesMatter(f: Factory, c1: HttpContext, c2: HttpContext)
    requires c1.baseUri == c2.baseUri
    requires c1.pathParameters.Keys == c2.pathParameters.Keys
    requires forall n :: n in c1.pathParameters ==>
      (c1.pathParameters[n] == [] <==> c2.pathParameters[n] == []) &&
      (c1.pathParameters[n] != [] ==> c1.pathParameters[n][0] == c2.pathParameters[n][0])
    ensures Get(f, c1) == Get(f, c2)
  {
    var v1 := FirstValues(c1.pathParameters);
    var v2 := FirstValues(c2.pathParameters);
    forall n | n in v1 ensures v1[n] == v2[n] {
    }
    assert v1 == v2;
  }

  /** Without an override map the provider binds a factory with no configuration, and every
      target it produces is on the default client. */
  lemma NoOverrideMapMeansDefaultClient(p: Parameter, property: ConfigProperty, context: HttpContext)
    requires !property.AMap? && HasName(p) && p.rawType == WebTargetClass
    ensures CreateValueFactory(p, property) == Success(Some(Factory(p.sourceName.value, None)))
    ensures var r := Get(Factory(p.sourceName.value, None), context);
      r.Success? ==> r.value.client == DefaultClient
  {
  }
}
