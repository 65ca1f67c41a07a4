/** Worked scenarios: the provider's behaviour on concrete templates and requests. */
module Scenarios {
  import opened Wrappers
  import opened UriLibrary
  import opened WebTargetProvider

  /** The template `/items/{id}` as pieces. */
  function ItemsTemplate(): Template {
    Literal("/items/") + [Var("id")]
  }

  lemma ItemsTemplateParses()
    ensures ParseTemplate("/items/{id}") == Success(ItemsTemplate())
  {
    LiteralThenVarParses("/items/", "id");
    assert "/items/" + "{" + "id" + "}" == "/items/{id}";
  }

  /** The base URI `https://api.example.com/v1/`. */
  function ApiBase(): Uri {
    Uri(Some("https"), Some("api.example.com"), "/v1/")
  }

  /** `/items/{id}` against one captured path parameter `id`. */
  lemma ItemsSubstituted(pathParameters: map<string, seq<string>>)
    requires "id" in pathParameters && pathParameters["id"] != []
    ensures Substitute("/items/{id}", pathParameters) == Success("/items/" + pathParameters["id"][0])
  {
    PrefixThenVarSubstituted("/items/", "id", pathParameters);
    assert "/items/" + "{" + "id" + "}" == "/items/{id}";
  }

  /** First value wins: with `id` captured as 7 then 8, the URI holds 7. */
  lemma FirstValueWinsScenario()
    ensures Substitute("/items/{id}", map["id" := ["7", "8"]]) == Success("/items/7")
  {
    var pathParameters := map["id" := ["7", "8"]];
    assert pathParameters["id"][0] == "7";
    ItemsSubstituted(pathParameters);
    assert "/items/" + "7" == "/items/7";
  }

  function ItemsPath(): Uri {
    Uri(None, None, "/items/42")
  }

  lemma ItemsPathText()
    ensures ToText(ItemsPath()) == "/items/42"
  {
  }

  lemma ItemsPathWellFormed()
    ensures WellFormedUri(ItemsPath())
  {
    var p := ItemsPath().path;
    assert p[..2][1] == 'i';
    forall i | 0 <= i < |p| && p[i] == ':' ensures '/' in p[..i] {
      assert p[..i][0] == '/';
    }
  }

  /** `/items/42` reads as a relative URI. */
  lemma ItemsPathParses()
    ensures ParseUri("/items/42") == ItemsPath()
  {
    ItemsPathText();
    ItemsPathWellFormed();
    TextThenParseUri(ItemsPath());
  }

  lemma ApiBaseAppend()
    ensures AppendPath(ApiBase(), "/items/42") == Uri(Some("https"), Some("api.example.com"), "/v1/items/42")
  {
    assert DropTrailingSlash("/v1/") == "/v1";
    assert DropLeadingSlash("/items/42") == "items/42";
    assert "/v1" + "/" + "items/42" == "/v1/items/42";
  }

  /** A relative template is appended to the base URI: `/items/{id}` with `id` = 42 against
      the base `https://api.example.com/v1/` gives `https://api.example.com/v1/items/42`, on the
      default client. */
  lemma RelativeScenario()
    ensures Get(Factory("/items/{id}", None), HttpContext(map["id" := ["42"]], ApiBase()))
      == Success(Target(Uri(Some("https"), Some("api.example.com"), "/v1/items/42"), DefaultClient))
  {
    var f := Factory("/items/{id}", None);
    var context := HttpContext(map["id" := ["42"]], ApiBase());
    assert context.pathParameters["id"][0] == "42";
    ItemsSubstituted(context.pathParameters);
    assert "/items/" + "42" == "/items/42";
    ItemsPathParses();
    RelativeAppendsToBase(f, context);
    ApiBaseAppend();
  }

  /** A missing or empty path parameter is a fault, never a URI holding the placeholder. */
  lemma MissingValueScenario()
    ensures Get(Factory("/items/{id}", None), HttpContext(map[], ApiBase())) == Failure(UnboundVariable("id"))
    ensures Get(Factory("/items/{id}", None), HttpContext(map["id" := []], ApiBase())) == Failure(UnboundVariable("id"))
  {
    ItemsTemplateParses();
    LiteralThenVarUnbound("/items/", "id", FirstValues(map[]));
    LiteralThenVarUnbound("/items/", "id", FirstValues(map["id" := []]));
  }

  lemma OtherSubstituted(pathParameters: map<string, seq<string>>)
    requires pathParameters == map["id" := ["42"]]
    ensures Substitute("https://other.example.com/items/{id}", pathParameters) == Success("https://other.example.com/items/42")
  {
    var prefix := "https://other.example.com/items/";
    assert pathParameters["id"][0] == "42";
    PrefixThenVarSubstituted(prefix, "id", pathParameters);
    assert prefix + "{" + "id" + "}" == "https://other.example.com/items/{id}";
    assert prefix + "42" == "https://other.example.com/items/42";
  }

  /** The URI `https://other.example.com/items/42`. */
  function OtherUri(): Uri {
    Uri(Some("https"), Some("other.example.com"), "/items/42")
  }

  lemma OtherUriText()
    ensures ToText(OtherUri()) == "https://other.example.com/items/42"
  {
  }

  lemma OtherUriWellFormed()
    ensures WellFormedUri(OtherUri())
  {
  }

  lemma OtherUriParses()
    ensures ParseUri("https://other.example.com/items/42") == OtherUri()
  {
    OtherUriText();
    OtherUriWellFormed();
    TextThenParseUri(OtherUri());
  }

  /** An absolute template ignores the base URI: `https://other.example.com/items/{id}` with
      `id` = 42 gives `https://other.example.com/items/42` whatever the base. */
  lemma AbsoluteScenario(base: Uri)
    ensures Get(Factory("https://other.example.com/items/{id}", None), HttpContext(map["id" := ["42"]], base))
      == Success(Target(OtherUri(), DefaultClient))
  {
    var context := HttpContext(map["id" := ["42"]], base);
    OtherSubstituted(context.pathParameters);
    OtherUriParses();
  }

  /** A query directly after the authority ends the authority: `http://h?q=1` has authority
      `h`, and the query stays in the path field. */
  lemma QueryEndsAuthority()
    ensures ParseUri("http://h?q=1") == Uri(Some("http"), Some("h"), "?q=1")
  {
    var u := Uri(Some("http"), Some("h"), "?q=1");
    assert ToText(u) == "http://h?q=1";
    TextThenParseUri(u);
  }
}
