/**
 * The error pages: `all_errors`, registered for twenty HTTP status codes,
 * renders one template with a title and description from a four-entry table.
 */
module ErrorPages {
  import opened Wrappers
  import opened Strings
  import opened Application
  import opened RequestContext

  /** What reaches the handler: an exception with a `code` attribute, or one without. */
  datatype Raised = Coded(code: int) | Uncoded

  datatype ErrorText = ErrorText(title: string, description: string)

  /** The rendered page and the status it is returned with. */
  datatype ErrorResponse = ErrorResponse(body: string, status: int)

  /** The status codes `all_errors` is registered for. */
  const Registered: set<int> :=
    {400, 401, 403, 404, 405, 408, 409, 410, 411, 412, 413, 414, 415, 416, 417, 418, 500, 501, 502, 503}

  /** The curated messages. */
  function Errors(): map<int, ErrorText>
  {
    map[
      404 := ErrorText("Page not found", "The requested address does not exists."),
      410 := ErrorText("Page not available", "The requested address is no longer available."),
      500 := ErrorText("An error happened", "We had some problems displaying this page. Maybe later we can show it to you."),
      503 := ErrorText("Service unavailable", "This page is temporarily unavailable. Please try again later.")
    ]
  }

  /** The effective status: the exception's code, or 500 when it has none. */
  function EffectiveCode(e: Raised): (r: int)
    ensures e.Coded? ==> r == e.code
    ensures e.Uncoded? ==> r == 500
  {
    match e
    case Coded(c) => c
    case Uncoded => 500
  }

  /** The title and description for a code, the 500 pair for any code without its own. */
  function TextFor(code: int): (r: ErrorText)
    ensures r in Errors().Values
    ensures code in Errors() ==> r == Errors()[code]
    ensures code !in Errors() ==> r == Errors()[500]
  {
    var table := Errors();
    table[if code in table then code else 500]
  }

  /** The locale of an error page: the two characters after the leading `/`, else `en`. */
  function ErrorLang(path: string): (r: string)
    ensures |r| == 2
    ensures |path| > 2 ==> r == path[1..3]
    ensures |path| <= 2 ==> r == "en"
  {
    if |path| > 2 then path[1..3] else "en"
  }

  /**
   * Exactly the codes other than 404, 410 and 503 share the 500 message: the
   * four curated entries are pairwise distinct.
   */
  lemma SharedMessageIffUncurated(code: int)
    ensures TextFor(code) == TextFor(500) <==> code !in {404, 410, 503}
  {
    assert Errors()[404].title != Errors()[500].title;
    assert Errors()[410].title != Errors()[500].title;
    assert Errors()[503].title != Errors()[500].title;
  }

  /** A localised path `/xx/...` gives an error page in locale `xx`. */
  lemma ErrorLangOfLocalisedPath(lang: string, rest: string)
    requires |lang| == 2
    ensures ErrorLang("/" + lang + "/" + rest) == lang
  {
    assert ("/" + lang + "/" + rest)[1..3] == lang;
  }

  /** Examples: 404 has its own title; 408, registered but uncurated, shows the 500 text. */
  lemma ErrorTableExamples()
    ensures TextFor(404).title == "Page not found"
    ensures 408 in Registered && TextFor(408) == TextFor(500)
    ensures 499 !in Registered
  {
  }

  /**
   * `all_errors(e)`. `path` and `urlRoot` are the request's, `searchBot` is
   * what `is_search_bot()` answered and `render` stands for rendering
   * `error.html` with a code, a title and a description. The result is
   * `None` when `init_g` raises inside the handler.
   */
  method AllErrors(e: Raised, path: string, app: App, g: Globals, urlRoot: string, searchBot: bool,
                   render: (string, string, string) -> string) returns (r: Option<ErrorResponse>)
    modifies g, app`assetsUrl
    ensures g.lang == ErrorLang(path)
    ensures r.Some? <==> Contains(urlRoot, "//")
    ensures r.None? ==> InitAborted(app, g, searchBot)
    ensures r.Some? ==>
      Initialized(app, g, urlRoot, searchBot)
      && var code := EffectiveCode(e);
         var text := TextFor(code);
         r.value == ErrorResponse(render(IntToString(code), text.title, text.description), code)
  {
    var error := EffectiveCode(e);
    var text := TextFor(error);
    g.lang := ErrorLang(path);
    var ok := InitG(app, g, urlRoot, searchBot);
    if !ok {
      return None;
    }
    r := Some(ErrorResponse(render(IntToString(error), text.title, text.description), error));
  }
}
