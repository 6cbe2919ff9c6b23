/**
 * The per-request context `g` and `init_g`, which fills it at the start of
 * every non-static request and again when an error page is rendered.
 */
module RequestContext {
  import opened Wrappers
  import opened Strings
  import opened Application

  /** One entry of the category table: a display name and its tag query `{"q": q}`. */
  datatype Category = Category(name: string, q: string)

  /** The fixed category table `init_g` publishes as `g.categories`, in its declared order. */
  function Categories(): (r: seq<Category>)
    ensures |r| == 10
    ensures forall i, j :: 0 <= i < j < |r| ==> r[i].name != r[j].name && r[i].q != r[j].q
  {
    [ Category("movies", "movie"), Category("games", "game"), Category("tv", "series"),
      Category("music", "audio"), Category("anime", "anime"), Category("books", "ebook"),
      Category("adult", "porn"), Category("software", "software"), Category("mobile", "mobile"),
      Category("pictures", "image") ]
  }

  /**
   * `g.beta_request`: whether the host part of `url_root`, the text after its
   * first `//`, starts with `beta.`. `None` is the `ValueError` that
   * `str.index` raises when `url_root` holds no `//`.
   */
  function BetaRequest(urlRoot: string): (r: Option<bool>)
    ensures r.None? <==> !Contains(urlRoot, "//")
  {
    var k := Find(urlRoot, "//");
    if k < 0 then None else Some("beta." <= urlRoot[k + 2..])
  }

  /** For a URL root `scheme://rest`, the beta test looks at `rest` alone. */
  lemma BetaRequestOfHost(scheme: string, rest: string)
    requires '/' !in scheme
    ensures BetaRequest(scheme + "//" + rest) == Some("beta." <= rest)
  {
    var u := scheme + "//" + rest;
    assert u[|scheme|..|scheme| + 2] == "//";
    forall j | 0 <= j < |scheme| ensures !At(u, "//", j) {
      assert u[j] == scheme[j];
      assert u[j..j + 2][0] == u[j];
    }
    FindFirst(u, "//", |scheme|);
    assert u[|scheme| + 2..] == rest;
  }

  /** `g.home_route`: the entry endpoint of the configured mode, `files.home` by default. */
  function HomeRoute(mode: string): (r: string)
    ensures r == "extras.home" <==> mode == "extras"
    ensures r == "files.home" <==> mode != "extras"
  {
    if mode == "search" then "files.home"
    else if mode == "extras" then "extras.home"
    else "files.home"
  }

  /**
   * The static-asset prefix: the application's own static path for beta hosts,
   * otherwise `STATIC_PREFIX` when it is set and non-empty.
   */
  function StaticPrefix(beta: bool, setting: Option<string>, staticUrlPath: string): (r: string)
    ensures r == staticUrlPath || r == setting.GetOr([])
    ensures r == staticUrlPath <== beta || setting.GetOr([]) == []
    ensures r == setting.GetOr([]) <== !beta && setting.GetOr([]) != []
  {
    if beta then staticUrlPath
    else if setting.Some? && setting.value != [] then setting.value
    else staticUrlPath
  }

  /** Flask's `g` for one request, holding the attributes this layer sets. */
  class Globals {
    var lang: string
    var licenseName: string
    var searchBot: bool
    var betaRequest: bool
    var homeRoute: string
    var staticPrefix: string
    var keywords: set<string>
    var args: map<string, string>
    var pageDescription: string
    var title: string
    var tosLink: string
    var privacyLink: string
    var categories: seq<Category>

    /** A fresh request context, before any hook has set an attribute. */
    constructor ()
      ensures lang == [] && licenseName == [] && !searchBot && !betaRequest
      ensures homeRoute == [] && staticPrefix == [] && keywords == {} && args == map[]
      ensures pageDescription == [] && title == [] && tosLink == [] && privacyLink == []
      ensures categories == []
    {
      lang, licenseName, searchBot, betaRequest := [], [], false, false;
      homeRoute, staticPrefix, keywords, args := [], [], {}, map[];
      pageDescription, title, tosLink, privacyLink := [], [], [], [];
      categories := [];
    }
  }

  /** The state `init_g` leaves when it completes for a request to `urlRoot`. */
  ghost predicate Initialized(app: App, g: Globals, urlRoot: string, searchBot: bool)
    reads app, g
  {
    g.licenseName == "torrents" && g.searchBot == searchBot
    && Some(g.betaRequest) == BetaRequest(urlRoot)
    && g.homeRoute == HomeRoute(app.appwebMode)
    && g.staticPrefix == StaticPrefix(g.betaRequest, app.staticPrefixSetting, app.staticUrlPath)
    && app.assetsUrl == g.staticPrefix
    && g.keywords == {} && g.args == map[]
    && g.pageDescription == [] && g.title == []
    && g.tosLink == app.tosLink && g.privacyLink == app.privacyLink
    && g.categories == Categories()
  }

  /**
   * The state `init_g` leaves when it raises: it has set the license name and
   * the bot flag, and nothing else of `g` (the locale aside) or `app` changed.
   */
  twostate predicate InitAborted(app: App, g: Globals, searchBot: bool)
    reads app, g
  {
    g.licenseName == "torrents" && g.searchBot == searchBot
    && g.betaRequest == old(g.betaRequest) && g.homeRoute == old(g.homeRoute)
    && g.staticPrefix == old(g.staticPrefix) && g.keywords == old(g.keywords)
    && g.args == old(g.args) && g.pageDescription == old(g.pageDescription)
    && g.title == old(g.title) && g.tosLink == old(g.tosLink)
    && g.privacyLink == old(g.privacyLink) && g.categories == old(g.categories)
    && app.assetsUrl == old(app.assetsUrl)
  }

  /**
   * `init_g(app)`. `urlRoot` is `request.url_root` and `searchBot` is what
   * `is_search_bot()` answered. Returns false when `url_root` holds no `//`:
   * `init_g` raises there, after setting the license name and the bot flag.
   */
  method InitG(app: App, g: Globals, urlRoot: string, searchBot: bool) returns (ok: bool)
    modifies g, app`assetsUrl
    ensures ok <==> Contains(urlRoot, "//")
    ensures g.licenseName == "torrents" && g.searchBot == searchBot && g.lang == old(g.lang)
    ensures !ok ==> InitAborted(app, g, searchBot)
    ensures ok ==> Initialized(app, g, urlRoot, searchBot)
  {
    g.licenseName := "torrents";
    g.searchBot := searchBot;
    var beta := BetaRequest(urlRoot);
    if beta.None? {
      return false;
    }
    g.betaRequest := beta.value;
    g.homeRoute := HomeRoute(app.appwebMode);
    var prefix := StaticPrefix(g.betaRequest, app.staticPrefixSetting, app.staticUrlPath);
    g.staticPrefix := prefix;
    app.assetsUrl := prefix;
    g.keywords := {};
    g.args := map[];
    g.pageDescription, g.title := [], [];
    g.tosLink := app.tosLink;
    g.privacyLink := app.privacyLink;
    g.categories := Categories();
    ok := true;
  }
}
