/**
 * `before_request`: static requests pass untouched; every other request gets
 * its context from `init_g`, and a request that matched no blueprint and whose
 * path ends in `/` is sent, with a permanent redirect, to the same URL without
 * the trailing slashes.
 */
module Normalizer {
  import opened Wrappers
  import opened Strings
  import opened Application
  import opened RequestContext

  /** A redirect response: its `Location` and status code. */
  datatype Redirect = Redirect(location: string, status: int)

  /** What `before_request` does with a request. */
  datatype BeforeResult =
    | PassThrough             // returns None: the view runs
    | Respond(redirect: Redirect)
    | InitFailed              // `init_g` raised

  const Slash: set<char> := {'/'}

  /** Requests under `/static/` are not preprocessed. */
  predicate IsStaticPath(path: string)
  {
    "/static/" <= path
  }

  /** The redirect condition: no blueprint, a path longer than `/`, ending in `/`. */
  predicate NeedsRedirect(path: string, blueprint: Option<string>)
  {
    blueprint.None? && |path| > 1 && path[|path| - 1] == '/'
  }

  /** Python's `s[:-1]`. */
  function DropLast(s: string): (r: string)
    ensures r <= s && |r| == if s == [] then 0 else |s| - 1
  {
    if s == [] then [] else s[..|s| - 1]
  }

  /**
   * The redirect target: with a query string, the root without its last
   * character, the path without trailing slashes and the URL from its first
   * `?`; without one, the URL without trailing slashes.
   */
  function RedirectTarget(path: string, url: string, urlRoot: string): (r: string)
    ensures !Contains(url, "?") ==> r <= url && (r == [] || r[|r| - 1] != '/')
    ensures !Contains(url, "?") ==> forall i :: |r| <= i < |url| ==> url[i] == '/'
    ensures Contains(url, "?") ==>
      var q := url[Find(url, "?")..];
      |q| <= |r| && r[|r| - |q|..] == q && q[0] == '?'
    ensures Contains(url, "?") ==> r == DropLast(urlRoot) + RStrip(path, Slash) + url[Find(url, "?")..]
  {
    if Contains(url, "?") then
      var q := url[Find(url, "?")..];
      assert q[0] == url[Find(url, "?")..Find(url, "?") + 1][0];
      var r := DropLast(urlRoot) + RStrip(path, Slash) + q;
      assert r[|r| - |q|..] == q;
      r
    else
      RStrip(url, Slash)
  }

  /** The redirect `before_request` returns, if any, for a non-static request. */
  function CanonicalRedirect(path: string, blueprint: Option<string>, url: string, urlRoot: string): (r: Option<Redirect>)
    ensures r.Some? <==> NeedsRedirect(path, blueprint)
    ensures r.Some? ==> r.value.status == 301
  {
    if NeedsRedirect(path, blueprint) then Some(Redirect(RedirectTarget(path, url, urlRoot), 301))
    else None
  }

  /** Without a query, the target is the URL with the path's trailing slashes removed. */
  lemma TargetWithoutQuery(base: string, path: string, root: string)
    requires base == DropLast(root)
    requires '?' !in base && '?' !in path
    requires base == [] || base[|base| - 1] != '/'
    ensures RedirectTarget(path, base + path, root) == base + RStrip(path, Slash)
  {
    var url := base + path;
    assert '?' !in url;
    FindCharAbsent(url, '?');
    RStripAppend(base, path, Slash);
  }

  /** With a query, the target's query part is exactly the query. */
  lemma TargetWithQuery(base: string, path: string, query: string, root: string)
    requires base == DropLast(root)
    requires '?' !in base && '?' !in path
    requires query != [] && query[0] == '?'
    ensures RedirectTarget(path, base + path + query, root) == base + RStrip(path, Slash) + query
  {
    var url := base + path + query;
    assert '?' !in base + path;
    assert '?' in query by { assert query[0] in query; }
    FindCharAfter(base + path, query, '?');
    FindCharAbsent(query, '?');
    FindCharFirst(query, '?', 0);
    assert Find(url, "?") == |base + path|;
    assert url[|base + path|..] == query;
  }

  /** A path with its trailing slashes removed never needs a redirect. */
  lemma StrippedPathNeedsNoRedirect(path: string, blueprint: Option<string>)
    ensures !NeedsRedirect(RStrip(path, Slash), blueprint)
  {
  }

  /**
   * For a URL made of the root (less its final `/`), the path and an optional
   * query, both branches of the target agree: the root, the path without its
   * trailing slashes, the query unchanged. The path redirected to does not
   * itself need a redirect.
   */
  lemma RedirectLandsOnCanonicalPath(root: string, path: string, query: string, blueprint: Option<string>)
    requires root != [] && root[|root| - 1] == '/'
    requires '?' !in root && '?' !in path
    requires query == [] || query[0] == '?'
    requires DropLast(root) == [] || DropLast(root)[|DropLast(root)| - 1] != '/'
    ensures RedirectTarget(path, DropLast(root) + path + query, root)
            == DropLast(root) + RStrip(path, Slash) + query
    ensures !NeedsRedirect(RStrip(path, Slash), blueprint)
  {
    var base := DropLast(root);
    assert '?' !in base by {
      assert forall i :: 0 <= i < |base| ==> base[i] == root[i];
    }
    if query == [] {
      assert base + path + query == base + path;
      TargetWithoutQuery(base, path, root);
    } else {
      TargetWithQuery(base, path, query, root);
    }
    StrippedPathNeedsNoRedirect(path, blueprint);
  }

  /** `/tv/` without a query is sent to `/tv`, and `/tv` is left alone. */
  lemma TrailingSlashExample()
    ensures CanonicalRedirect("/tv/", None, "http://h/tv/", "http://h/")
            == Some(Redirect("http://h/tv", 301))
    ensures CanonicalRedirect("/tv", None, "http://h/tv", "http://h/") == None
  {
    var root, path := "http://h/", "/tv/";
    assert RStrip("/tv", Slash) == "/tv";
    assert RStrip(path, Slash) == "/tv";
    assert '?' !in root;
    assert '?' !in path;
    RedirectLandsOnCanonicalPath(root, path, [], None);
    assert DropLast(root) + path + [] == "http://h/tv/";
    assert DropLast(root) + "/tv" + [] == "http://h/tv";
  }

  /**
   * `before_request()`. `path`, `blueprint`, `url` and `urlRoot` are the
   * request's; `searchBot` is what `is_search_bot()` answered.
   */
  method BeforeRequest(app: App, g: Globals, path: string, blueprint: Option<string>,
                       url: string, urlRoot: string, searchBot: bool) returns (r: BeforeResult)
    modifies g, app`assetsUrl
    ensures IsStaticPath(path) ==> r == PassThrough && unchanged(g) && app.assetsUrl == old(app.assetsUrl)
    ensures !IsStaticPath(path) && !Contains(urlRoot, "//") ==>
      r == InitFailed && InitAborted(app, g, searchBot) && g.lang == old(g.lang)
    ensures !IsStaticPath(path) && Contains(urlRoot, "//") ==>
      Initialized(app, g, urlRoot, searchBot) && g.lang == old(g.lang)
      && r == match CanonicalRedirect(path, blueprint, url, urlRoot)
              case Some(redirect) => Respond(redirect)
              case None => PassThrough
  {
    if IsStaticPath(path) {
      return PassThrough;
    }
    var ok := InitG(app, g, urlRoot, searchBot);
    if !ok {
      return InitFailed;
    }
    var redirect := CanonicalRedirect(path, blueprint, url, urlRoot);
    match redirect {
      case Some(red) => r := Respond(red);
      case None => r := PassThrough;
    }
  }
}
