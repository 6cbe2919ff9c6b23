/**
 * The locale hooks: `pull_lang_code` takes the `lang` route value out of an
 * incoming request's values, and `add_language_code` puts the active locale
 * back into the values of an outgoing URL.
 */
module Locale {
  import opened Wrappers
  import opened RequestContext

  const DefaultLang := "en"

  /** A route's values dictionary, updated in place by the hooks. */
  class RouteValues {
    var entries: map<string, string>

    constructor (entries: map<string, string>)
      ensures this.entries == entries
    {
      this.entries := entries;
    }
  }

  /** The locale `pull_lang_code` selects: the `lang` value, or `en` when there is none. */
  function PulledLang(values: Option<map<string, string>>): string
  {
    if values.Some? && "lang" in values.value then values.value["lang"] else DefaultLang
  }

  /** The values `add_language_code` leaves behind for an endpoint that does or does not expect `lang`. */
  function WithLang(m: map<string, string>, lang: string, expectsLang: bool): (r: map<string, string>)
    ensures "lang" in m ==> r == m
    ensures "lang" in r <==> "lang" in m || expectsLang
    ensures "lang" !in m && expectsLang ==> r["lang"] == lang
    ensures forall k :: k != "lang" ==> (k in r <==> k in m) && (k in m ==> r[k] == m[k])
  {
    if "lang" !in m && expectsLang then m["lang" := lang] else m
  }

  /** `pull_lang_code(endpoint, values)`; `values` is null when no route matched. */
  method PullLangCode(endpoint: string, values: RouteValues?, g: Globals)
    modifies g`lang, values
    ensures values == null ==> g.lang == DefaultLang
    ensures values != null ==>
      g.lang == PulledLang(Some(old(values.entries)))
      && values.entries == old(values.entries) - {"lang"}
  {
    if values == null {
      g.lang := DefaultLang;
    } else {
      var lang := PulledLang(Some(values.entries));
      values.entries := values.entries - {"lang"};
      g.lang := lang;
    }
  }

  /**
   * `add_language_code(endpoint, values)`; `expecting(endpoint, name)` is the
   * URL map's answer to whether `endpoint` takes the parameter `name`.
   */
  method AddLanguageCode(endpoint: string, values: RouteValues, g: Globals,
                         expecting: (string, string) -> bool)
    modifies values
    ensures values.entries == WithLang(old(values.entries), g.lang, expecting(endpoint, "lang"))
  {
    if "lang" !in values.entries && expecting(endpoint, "lang") {
      values.entries := values.entries["lang" := g.lang];
    }
  }

  /**
   * Pulling the locale out of a route's values and then building a URL for an
   * endpoint that expects `lang` gives back the values the route matched.
   */
  lemma PullThenAddRestores(m: map<string, string>)
    requires "lang" in m
    ensures WithLang(m - {"lang"}, PulledLang(Some(m)), true) == m
  {
    var r := WithLang(m - {"lang"}, PulledLang(Some(m)), true);
    assert r.Keys == m.Keys;
  }

  /** Pulling removes `lang` and only `lang`, and an absent `lang` selects `en`. */
  lemma PullRemovesOnlyLang(m: map<string, string>)
    ensures "lang" !in m - {"lang"}
    ensures forall k :: k in m && k != "lang" ==> k in m - {"lang"} && (m - {"lang"})[k] == m[k]
    ensures "lang" !in m ==> PulledLang(Some(m)) == DefaultLang && m - {"lang"} == m
    ensures PulledLang(None) == DefaultLang
  {
  }

  /** Adding the locale twice is the same as adding it once, whatever the second locale is. */
  lemma WithLangIdempotent(m: map<string, string>, lang: string, other: string, expectsLang: bool)
    ensures WithLang(WithLang(m, lang, expectsLang), other, expectsLang) == WithLang(m, lang, expectsLang)
  {
  }
}
