# Web-target parameter binding, modelled in Dafny

This project models Jersey's `WebTargetValueFactoryProvider`, the value-factory provider that
turns a `@Uri`-annotated resource-method parameter into an outbound `WebTarget`. It works in
two phases, and the model keeps them as two functions over immutable values.

- **Bind time** (`WebTargetProvider.CreateValueFactory`): the provider declines (Java `null`)
  when the parameter's source name is null or empty, or when its raw type is not `WebTarget`.
  Otherwise it looks up an optional named `ClientConfig` in the server property
  `WEBTARGET_CONFIGURATION` (`WebTargetProvider.LookupClientConfig`). It then builds an
  immutable factory holding the source name, which doubles as the URI template, and that
  configuration.
- **Request time** (`WebTargetProvider.Get`): the factory takes the first captured value of
  every path parameter (`None` for an empty list), substitutes those values into the template
  as already-encoded values, and appends a relative result to the request's base URI as a
  path. An absolute result (one with a scheme) is kept as it is. The URI is then paired with
  the default client or the configured one.

Files:

- `wrappers.dfy`: `Option` (Java's nullable references) and `Result` (a value, or the
  exception the Java code would throw).
- `uri_library.dfy`: a model of the URI library that the factory calls, which is not part of
  the modelled source: template parsing and encoded expansion (`UriBuilder.fromUri`,
  `buildFromEncodedMap`), scheme detection (`java.net.URI.isAbsolute`, section 4.3 of
  RFC 3986) and path appending (`UriBuilder.path`). Its behaviour is an ASSUMPTION about the
  library. In particular, following the `buildFromEncodedMap` contract of JAX-RS, a
  placeholder with no value (missing name, or `null`) is a fault. The lemmas in that file
  are proved about this model, not about the library.
- `web_target_provider.dfy`: the provider and the factory.
- `scenarios.dfy`: concrete cases: first value wins, relative append, absolute pass-through,
  and missing value.

Inputs the Java code reads from the environment are passed in as arguments:
- the property value that `Configuration.getProperty` would return (`ConfigProperty`);
- the request's path parameters and base URI (`HttpContext`).

The override lookup tolerates a missing property and a property that is not a `Map`, but
line 149 assigns the map entry to a `ClientConfig` variable, a cast the compiler inserts. An
entry of another class therefore raises `ClassCastException` at bind time.
`LookupClientConfig` models this as a `Failure`, and `LookupNeverFailsWhenWellTyped` proves
that the lookup never fails when the map holds only `ClientConfig` values or `null`.

Because the model is made of functions over immutable values, two calls of `Get` with the
same factory and context always give the same result. No state is carried from one request to
the next.

## Model

| member | source | states |
|---|---|---|
| WebTargetProvider.LookupClientConfig | core-server/src/main/java/org/glassfish/jersey/server/internal/inject/WebTargetValueFactoryProvider.java:145-150 | no property, or a non-`Map` property, gives no override; a `Map` gives its entry for the name, and a missing or `null` entry gives no override; an entry that is not a `ClientConfig` is the only failure |
| WebTargetProvider.LookupNeverFailsWhenWellTyped | core-server/src/main/java/org/glassfish/jersey/server/internal/inject/WebTargetValueFactoryProvider.java:147-149 | when the map holds only `ClientConfig` or `null` values, the lookup always succeeds |
| WebTargetProvider.CreateValueFactory | core-server/src/main/java/org/glassfish/jersey/server/internal/inject/WebTargetValueFactoryProvider.java:136-156 | declines when the source name is null or empty, whatever the type; declines when the raw type is not `WebTarget`; a produced factory's template equals the source name exactly and its config is the lookup's result; with a good name and type it fails exactly when the lookup fails, and a successful lookup always yields the factory holding the name and the looked-up config |
| WebTargetProvider.NamedOverrideSelection | core-server/src/main/java/org/glassfish/jersey/server/internal/inject/WebTargetValueFactoryProvider.java:145-152 | with override map {"backend": cfg}, parameter "backend" is bound with cfg and parameter "other" with no override |
| WebTargetProvider.NoOverrideMapMeansDefaultClient | core-server/src/main/java/org/glassfish/jersey/server/internal/inject/WebTargetValueFactoryProvider.java:145-152 | without a `Map` property the factory has no config, and every target it yields uses the default client |
| WebTargetProvider.FirstValues | core-server/src/main/java/org/glassfish/jersey/server/internal/inject/WebTargetValueFactoryProvider.java:104-111 | the substitution map has exactly the path-parameter keys; each key maps to the first captured value, or to no value when its list is empty |
| WebTargetProvider.LaterValuesIgnored | core-server/src/main/java/org/glassfish/jersey/server/internal/inject/WebTargetValueFactoryProvider.java:106-110 | values captured after the first never change the substitution map |
| WebTargetProvider.BoundIffCaptured | core-server/src/main/java/org/glassfish/jersey/server/internal/inject/WebTargetValueFactoryProvider.java:104-111 | a name has a substitution value exactly when the router captured at least one value for it |
| WebTargetProvider.Substitute | core-server/src/main/java/org/glassfish/jersey/server/internal/inject/WebTargetValueFactoryProvider.java:104-112 | a malformed template fails as such; a well-formed one succeeds exactly when every placeholder name was captured at least once; an unbound-variable fault names a placeholder of the parsed template, and that name has no captured value |
| WebTargetProvider.SubstituteRendered | core-server/src/main/java/org/glassfish/jersey/server/internal/inject/WebTargetValueFactoryProvider.java:104-112 | the text of any well-formed template substitutes to that template's expansion with the first captured values, so with the expansion lemmas the substituted text is fixed for every template |
| WebTargetProvider.NoPlaceholderUnchanged | core-server/src/main/java/org/glassfish/jersey/server/internal/inject/WebTargetValueFactoryProvider.java:104-112 | a template without placeholders comes out of substitution unchanged, whatever the path parameters |
| WebTargetProvider.PrefixThenVarSubstituted | core-server/src/main/java/org/glassfish/jersey/server/internal/inject/WebTargetValueFactoryProvider.java:104-112 | literal text followed by one placeholder substitutes to the text followed by the placeholder's first captured value |
| WebTargetProvider.ChooseClient | core-server/src/main/java/org/glassfish/jersey/server/internal/inject/WebTargetValueFactoryProvider.java:117-121 | the default client is chosen exactly when the factory has no config; otherwise the client is built with that config |
| WebTargetProvider.Get | core-server/src/main/java/org/glassfish/jersey/server/internal/inject/WebTargetValueFactoryProvider.java:100-122 | succeeds exactly when substitution does; a substitution fault comes out as the result, not caught; a produced target's client follows the factory's config |
| WebTargetProvider.AbsoluteIgnoresBase | core-server/src/main/java/org/glassfish/jersey/server/internal/inject/WebTargetValueFactoryProvider.java:113-115 | an absolute substituted URI is the result unchanged (its text is the substituted text), and replacing the base URI does not change the result |
| WebTargetProvider.RelativeAppendsToBase | core-server/src/main/java/org/glassfish/jersey/server/internal/inject/WebTargetValueFactoryProvider.java:113-115 | a relative substituted URI gives the base URI with the substituted text appended as a path, keeping the base's scheme and authority |
| WebTargetProvider.MissingValueFails | core-server/src/main/java/org/glassfish/jersey/server/internal/inject/WebTargetValueFactoryProvider.java:104-112 | a placeholder whose name was not captured, or was captured with an empty list, makes `get` fail with an unbound-variable fault |
| WebTargetProvider.AllCapturedSucceeds | core-server/src/main/java/org/glassfish/jersey/server/internal/inject/WebTargetValueFactoryProvider.java:104-115 | a well-formed template whose placeholders all have captured values always yields a target |
| WebTargetProvider.OnlyFirstValuesMatter | core-server/src/main/java/org/glassfish/jersey/server/internal/inject/WebTargetValueFactoryProvider.java:103-115 | contexts that agree on the base URI, the captured names and each name's first value give the same result |
| UriLibrary.ParseTemplate | core-server/src/main/java/org/glassfish/jersey/server/internal/inject/WebTargetValueFactoryProvider.java:104 | its own contract is only that parsing fails as "malformed template" and never otherwise; what a parse produces is fixed by `ParseThenRender` and `RenderThenParse` |
| UriLibrary.ParseThenRender | core-server/src/main/java/org/glassfish/jersey/server/internal/inject/WebTargetValueFactoryProvider.java:104 | a parsed template is well formed and renders back to the exact text it was parsed from |
| UriLibrary.RenderThenParse | core-server/src/main/java/org/glassfish/jersey/server/internal/inject/WebTargetValueFactoryProvider.java:104 | every well-formed template is recovered by parsing its text |
| UriLibrary.Expand | core-server/src/main/java/org/glassfish/jersey/server/internal/inject/WebTargetValueFactoryProvider.java:104-112 | expansion succeeds exactly when every placeholder is bound; a failure names an unbound placeholder of the template |
| UriLibrary.ExpandLiteral | core-server/src/main/java/org/glassfish/jersey/server/internal/inject/WebTargetValueFactoryProvider.java:104 | a template with no placeholders expands to its own text, whatever the values |
| UriLibrary.ExpandAppend | core-server/src/main/java/org/glassfish/jersey/server/internal/inject/WebTargetValueFactoryProvider.java:104 | expanding a concatenation of templates concatenates their expansions |
| UriLibrary.ExpandVar | core-server/src/main/java/org/glassfish/jersey/server/internal/inject/WebTargetValueFactoryProvider.java:104-112 | a single bound placeholder expands to exactly its value |
| UriLibrary.LiteralParses | core-server/src/main/java/org/glassfish/jersey/server/internal/inject/WebTargetValueFactoryProvider.java:104 | text without `{` parses to its characters as literal pieces |
| UriLibrary.ExpandFrame | core-server/src/main/java/org/glassfish/jersey/server/internal/inject/WebTargetValueFactoryProvider.java:104-112 | only the values of the template's own placeholder names affect the expansion |
| UriLibrary.ParseUri | core-server/src/main/java/org/glassfish/jersey/server/internal/inject/WebTargetValueFactoryProvider.java:113-114 | reading the built text as a URI: a scheme, when present, is a valid scheme name holding no `:`; an authority holds no `/`, `?` or `#` and is followed by an empty path or one starting with one of them; text starting with `/` has no scheme (its meaning is fixed by `ParseUriText`, `ParseUriAbsolute` and `TextThenParseUri`) |
| UriLibrary.ParseUriText | core-server/src/main/java/org/glassfish/jersey/server/internal/inject/WebTargetValueFactoryProvider.java:114 | `ToText` (`uri.toString()`) of a URI read from a string is that string, so the substituted text is handed on unchanged |
| UriLibrary.ParseUriAbsolute | core-server/src/main/java/org/glassfish/jersey/server/internal/inject/WebTargetValueFactoryProvider.java:113 | `IsAbsolute` (`uri.isAbsolute()`) holds for a URI read from text exactly when the text starts with a scheme name and its first `:` |
| UriLibrary.TextThenParseUri | core-server/src/main/java/org/glassfish/jersey/server/internal/inject/WebTargetValueFactoryProvider.java:113-114 | writing out a well-formed URI and reading it back gives the same URI |
| UriLibrary.AppendPath | core-server/src/main/java/org/glassfish/jersey/server/internal/inject/WebTargetValueFactoryProvider.java:114 | appending keeps scheme and authority; empty text changes nothing; an empty base path becomes the text; otherwise exactly one `/` separates the base path from the text |
| UriLibrary.AppendPathKeepsBoth | core-server/src/main/java/org/glassfish/jersey/server/internal/inject/WebTargetValueFactoryProvider.java:114 | the new path starts with the base path and ends with the appended text |
| Scenarios.QueryEndsAuthority | core-server/src/main/java/org/glassfish/jersey/server/internal/inject/WebTargetValueFactoryProvider.java:104-113 | the built text `http://h?q=1` is read with scheme `http`, authority `h` and `?q=1` after it, so a query directly after the authority is not taken into it |
| Scenarios.FirstValueWinsScenario | core-server/src/main/java/org/glassfish/jersey/server/internal/inject/WebTargetValueFactoryProvider.java:104-111 | `/items/{id}` with `id` captured as 7 then 8 substitutes to `/items/7` |
| Scenarios.RelativeScenario | core-server/src/main/java/org/glassfish/jersey/server/internal/inject/WebTargetValueFactoryProvider.java:113-118 | `/items/{id}` with `id` = 42 against base `https://api.example.com/v1/` gives `https://api.example.com/v1/items/42` on the default client |
| Scenarios.AbsoluteScenario | core-server/src/main/java/org/glassfish/jersey/server/internal/inject/WebTargetValueFactoryProvider.java:113-118 | `https://other.example.com/items/{id}` with `id` = 42 gives `https://other.example.com/items/42` for every base URI |
| Scenarios.MissingValueScenario | core-server/src/main/java/org/glassfish/jersey/server/internal/inject/WebTargetValueFactoryProvider.java:104-112 | `/items/{id}` with no `id` key, or an empty list for it, fails with an unbound-variable fault for `id` |

## Left out

- Client construction and transport: `ClientFactory.newClient(...)` and `.target(uri)` (lines 117-121) become the pair `Target(uri, ClientChoice)`.
- Dependency-injection wiring: the `InjectionResolver` (lines 78-86), the `ServiceLocator` constructor (lines 130-133) and the `@Context Configuration` field (lines 72-73). The property value is passed in as an argument.
- Java reflection: the raw type becomes a `TypeTag`, and `instanceof Map` becomes the `ConfigProperty` sum type.
- Provider dispatch across several providers: the framework tries each provider in turn, and that loop is not in this file.
- `Maps.transformValues` is a lazy view in Java; here it is a plain map comprehension with the same contents.
- Concurrent use of one factory by many requests: the factory is an immutable value, so there is nothing to model.
- UriLibrary.ParseTemplate: the JAX-RS `{name: regex}` placeholder form, whitespace trimming in names, and parsing the template into URI components before substitution are not modelled. Substitution is done on the whole text, and the result is then read as a URI.
- UriLibrary.Expand: percent-encoding of characters a value may not contain is not modelled. Values are inserted as given, and whether the context had already decoded them is not modelled either.
- UriLibrary.ParseUri: `java.net.URI` rejects malformed text with `URISyntaxException` (for example, a `:` before any `/` that does not follow a valid scheme name). The model reads such text as a relative URI. Query and fragment are not split off: they stay in the path field, after the authority, which ends at the first `/`, `?` or `#`.
- UriLibrary.AppendPath: with an authority and an empty base path the appended text follows the authority with no `/` in between; a request's base URI always has a path starting with `/`, so `Get` never meets that case.
- UriLibrary.AppendPath: the path encoding that `UriBuilder.path` applies, and any URI syntax check made by `build()`, are not modelled.
