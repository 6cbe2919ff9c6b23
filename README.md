# appweb request pipeline, modelled in Dafny

A model of the request preprocessing and presentation rules of the torrents
web front end (`appweb/web.py`): the deployment revision manifest and the
cache key prefix derived from it, the locale hooks on incoming and outgoing
URLs, the trailing-slash redirect of `before_request`, the unified error page
handler, the per-request context filled by `init_g`, and `torrents_data2`,
which remaps a file's display category from its tags.

Modules, one per part of the file:

- `Strings` — the Python 2 `str` operations the code relies on (`strip`,
  `rstrip`, `split`, `split()`, `find`, `in`, `str(int)`), with the facts the
  rest needs (split/join, words against the non-whitespace characters, first
  occurrence, decimal round trip).
- `Revision` — manifest parsing (`REVISION`) and the `CACHE_KEY_PREFIX` text.
- `Application` — the `App` object reduced to the configuration this layer
  reads and writes; `LoadRevision` is the revision block of `create_app`.
- `RequestContext` — the request context `g` (class `Globals`), the category
  table, and `InitG`.
- `Locale` — `pull_lang_code` and `add_language_code` on a route values
  dictionary (class `RouteValues`).
- `Normalizer` — `before_request` and its redirect target.
- `ErrorPages` — the error table and `all_errors`.
- `CategoryRemap` — `torrents_data2` over a file record (class `FileRecord`)
  that it changes in place.

Exceptions the code can raise are results, not preconditions: `init_g` raises
`ValueError` when `url_root` holds no `//` (`InitG` returns false,
`BeforeRequest` gives `InitFailed`, `AllErrors` gives `None`);
`torrents_data2` raises `KeyError` for a missing `file_type` or a missing
rendered `tags`, and `TypeError` for tags that support no `in` or for a
list-valued type looked up in the fallback table. In each of those cases the
record is left as it was, which the model proves.

The tag loop of `torrents_data2` has no `break`: every matching category
overwrites the type, so a file carrying several category tags ends up in the
LAST matching category in table order. The model follows the code
(`TagType`), keeps beside it the reading the loop would have with a `break`
(`FirstTagType`, first match wins), proves that the two agree whenever at most
one category matches, and exhibits a file tagged `movie` and `game` on which
they differ. `all_errors` is registered for 20 status codes
(`appweb/web.py:224-225`).

The tags are read from the base renderer's output, while the test for their
presence is made on the input record's view (`appweb/web.py:302`); the model
keeps that asymmetry (`FileTags`), and a missing rendered `tags` is a
`KeyError`. The remapped type is written to the input record only; the
returned payload is the renderer's output, untouched.

## Model

| member | source | states |
|---|---|---|
| `Revision.KeptLineRecord` | appweb/web.py:72-75 | the record of a kept line is the whitespace-separated words of its text before the first `#`; it is non-empty and every field is non-empty and free of whitespace and `#` |
| `Revision.RecordsFromKeptLines` | appweb/web.py:72-75 | every record comes from a kept line, every kept line contributes its record, and every record is a non-empty tuple of well-formed fields |
| `Revision.KeepMapAppend` | appweb/web.py:72-75 | the record tuple is built line by line in file order: the records of two runs of lines are the records of each, concatenated |
| `Revision.DroppedLinesAddNothing` | appweb/web.py:75 | a blank line or a line whose stripped form starts with `#` adds no record |
| `Revision.RevisionsWellFormed` | appweb/web.py:72-75 | every record of any manifest text is non-empty, and no field is empty or holds whitespace or `#` |
| `Revision.CacheKeyPrefix` | appweb/web.py:78-81 | the new prefix is the configured prefix (or the empty text when there is none), then the hash, then a final `/` |
| `Revision.CacheKeyPrefixInjective` | appweb/web.py:76-81 | under the same configured prefix, different manifest hashes give different cache key prefixes |
| `Application.App.LoadRevision` | appweb/web.py:67-89 | without a revision file the hash is `None`, the revision tuple is empty and the cache key prefix is untouched; with one, the hash is the file's digest, the revision tuple is its parsed records and the prefix is extended by the hash; every record is well formed |
| `Strings.SplitOn` | appweb/web.py:73-74 | `split(sep)` yields at least one piece, no piece holds the separator, joining the pieces with the separator gives the text back, and the first piece is the text up to the first separator |
| `Strings.Words` | appweb/web.py:73 | `split()` yields non-empty words with no whitespace, made only of characters of the text |
| `Strings.WordsConcat` | appweb/web.py:73 | the words, put together, are exactly the non-whitespace characters of the text in order |
| `Strings.WordsSkipsSpace` | appweb/web.py:73 | `split()` skips leading whitespace: it neither starts nor ends a word |
| `Strings.WordsCutsAtSpace` | appweb/web.py:73 | a run of non-whitespace followed by whitespace or the end of the text is exactly one word, cut there |
| `Strings.WordsJoinWords` | appweb/web.py:73 | `split()` takes back words joined by single spaces: `" ".join(ws).split() == ws` |
| `Strings.RStrip` | appweb/web.py:204-208 | `rstrip("/")` gives a prefix of the text that does not end in `/`, and everything it removed is `/` |
| `Strings.Find` | appweb/web.py:206 | `find` gives the first index where the pattern occurs, or -1 when it occurs nowhere |
| `Strings.IntToStringRoundTrip` | appweb/web.py:231 | `str(code)` reads back as `code` |
| `RequestContext.Categories` | appweb/web.py:280-290 | the category table has ten entries with pairwise distinct names and pairwise distinct tag queries |
| `RequestContext.BetaRequest` | appweb/web.py:254 | the beta test fails (raises) exactly when `url_root` holds no `//` |
| `RequestContext.BetaRequestOfHost` | appweb/web.py:254 | for a root `scheme://rest`, the request is beta exactly when `rest` starts with `beta.` |
| `RequestContext.HomeRoute` | appweb/web.py:257-263 | the home route is `extras.home` exactly in `extras` mode and `files.home` in every other mode |
| `RequestContext.StaticPrefix` | appweb/web.py:266-270 | beta hosts and an unset or empty `STATIC_PREFIX` use the static URL path; otherwise `STATIC_PREFIX` is used |
| `RequestContext.InitG` | appweb/web.py:237-290 | sets the license name and bot flag, then either raises (nothing else changes) or sets the beta flag, home route, static prefix (also as the assets URL), empty keywords and args, empty title and description, the links and the category table; the locale is never touched |
| `Locale.PullLangCode` | appweb/web.py:180-185 | without values the locale is `en`; otherwise it is the `lang` value or `en`, and afterwards `lang` is gone from the values while every other entry is unchanged |
| `Locale.AddLanguageCode` | appweb/web.py:187-190 | the values become `WithLang` of the old values, the active locale and the URL map's answer for the endpoint |
| `Locale.WithLang` | appweb/web.py:189-190 | an explicit `lang` is never overwritten; `lang` is present afterwards exactly when it was or the endpoint expects it, and then holds the active locale; no other key changes |
| `Locale.PullThenAddRestores` | appweb/web.py:181-190 | pulling `lang` from a route's values and adding it back for an endpoint that expects it restores the values exactly |
| `Locale.PullRemovesOnlyLang` | appweb/web.py:182-185 | pulling removes `lang` and nothing else; an absent `lang` or absent values select `en` |
| `Locale.WithLangIdempotent` | appweb/web.py:189-190 | adding the locale a second time changes nothing |
| `Normalizer.RedirectTarget` | appweb/web.py:202-208 | without `?` the target is the URL less its trailing slashes and does not end in `/`; with `?` the target is the root less its last character, then the path without trailing slashes, then the URL from its first `?` |
| `Normalizer.DropLast` | appweb/web.py:203 | `url_root[:-1]` is a prefix of the root one character shorter, or empty for an empty root |
| `Normalizer.CanonicalRedirect` | appweb/web.py:201-208 | a redirect is issued exactly when there is no blueprint, the path is longer than one character and ends in `/`, and its status is always 301 |
| `Normalizer.RedirectLandsOnCanonicalPath` | appweb/web.py:201-208 | for a URL made of the root (less its final `/`), the path and an optional query, both branches give the root, the path without trailing slashes and the query, and that path does not trigger the redirect again; paths made only of slashes included |
| `Normalizer.TrailingSlashExample` | appweb/web.py:201-208 | `/tv/` is redirected to `/tv` with 301, and `/tv` is not redirected |
| `Normalizer.BeforeRequest` | appweb/web.py:193-208 | static paths pass with nothing changed; otherwise `init_g` runs, and when it raises only the license name and bot flag have changed; when it completes, the redirect, if the path needs one, is returned |
| `ErrorPages.EffectiveCode` | appweb/web.py:227 | the effective code is the exception's code when it has one, else 500 |
| `ErrorPages.TextFor` | appweb/web.py:217-228 | a code in the table gets its own title and description; every other code gets the 500 pair |
| `ErrorPages.SharedMessageIffUncurated` | appweb/web.py:217-228 | a code shows the 500 message exactly when it is not 404, 410 or 503 |
| `ErrorPages.ErrorLang` | appweb/web.py:229 | the error locale has two characters: characters 1 and 2 of a path longer than two, else `en` |
| `ErrorPages.ErrorLangOfLocalisedPath` | appweb/web.py:229 | an error on `/xx/...` is shown in locale `xx` |
| `ErrorPages.ErrorTableExamples` | appweb/web.py:217-225 | 404 is titled "Page not found"; 408 is registered and shows the 500 text; 499 is not registered |
| `ErrorPages.AllErrors` | appweb/web.py:224-232 | sets the error locale, runs `init_g` (when it raises, only the license name and bot flag of `g` change besides the locale), and renders the template with `str(code)` and the table text, returning the effective code as status |
| `CategoryRemap.TorrentsData2` | appweb/web.py:295-312 | returns exactly the base renderer's output and leaves the record's view as `Remap` gives it; on every error the view is unchanged |
| `CategoryRemap.TagTypeIsLastMatch` | appweb/web.py:303-305 | without a matching tag the type is kept; otherwise it is the name of the last matching category in table order |
| `CategoryRemap.FirstTagTypeIsFirstMatch` | appweb/web.py:303-305 | the first-match reading keeps the type without a match and otherwise takes the first matching category |
| `CategoryRemap.SingleMatchAgrees` | appweb/web.py:303-305 | when at most one category matches, the loop as written and the first-match reading give the same type |
| `CategoryRemap.LastMatchWinsExample` | appweb/web.py:303-305 | a video tagged `movie` and `game` becomes `games`, where stopping at the first match would give `movies` |
| `CategoryRemap.TagTypeIsOrigOrMatch` | appweb/web.py:303-305 | the loop's result is the original type or the name of a matching category, and the latter whenever some category matches |
| `CategoryRemap.FallbackOnlyWithoutMatch` | appweb/web.py:306-308 | with the site's table, once a category tag is present the fallback never changes the loop's result |
| `CategoryRemap.FallbackWithoutMatch` | appweb/web.py:297-308 | without a category tag, video, document, audio and picture become movies, books, music and image, and any other type is kept |
| `CategoryRemap.RemapExamples` | appweb/web.py:297-308 | a `movie`-tagged video becomes `movies`; an untagged picture becomes `image`; an untagged unknown type stays |
| `CategoryRemap.RemapChangesOnlyTypeAndServer` | appweb/web.py:299-312 | a successful remap changes only `file_type` and `first_image_server`, sets the latter to `images.torrents.com`, and the type is the one `NewFileType` chose |

## Left out

- Flask application construction, configuration loading (`from_object`), Sentry, logging, CSRF and blueprint registration (appweb/web.py:50-64, 92-106): framework plumbing; the configuration entries the pipeline reads are fields of `App`.
- Reading the revision file and its MD5 digest (appweb/web.py:67-71, 76): file I/O and hashing; the file's text is an `Option` parameter and the digest a function parameter.
- Web assets, SCSS bundles and static directory creation (appweb/web.py:108-137): file system and foreign library.
- Babel's locale selector, auth, cache, database and profiler set-up (appweb/web.py:139-172): external services.
- The event manager's `once`/`interval` scheduling and `before_first_request` (appweb/web.py:164-178): background concurrency and timers.
- `after_request`'s `X-UA-Compatible` header (appweb/web.py:211-214): a constant header with no logic.
- The analytics script assigned to `g.analytics_code` (appweb/web.py:240-248): constant HTML.
- `is_search_bot`, `render_template` and `old_torrents_data` are foreign calls: their answers are parameters, and the template is a function of code, title and description only (it does not see `g`).
- The base renderer is a pure function of the record: any change it makes to the record, and any sharing between its output and the input's view, is not modelled.
- The UTF-8 decode of `request.url` (appweb/web.py:205) is taken as the identity on text.
- Python 2's distinction between `str` and `unicode` is not modelled; texts are `seq<char>` and whitespace is the ASCII set `strip()` uses.
- View values are strings, lists and other scalars; a dictionary used as `tags` (where `in` tests its keys) is not modelled.
- Route values are text to text; non-text converter values are not modelled.
- `CACHE_KEY_PREFIX` is modelled as absent or text; a non-text value, which `%s` would format (e.g. `None` as "None"), is not modelled.
- An exception whose `code` attribute exists but is `None` is not modelled; exceptions either carry an integer code or have none.
- The registration of `all_errors` (`allerrors` in foofind.web) is not part of this model; `Registered` lists the codes it is called for.
- The constructors of `App` and `Globals` stand for configuration loading and for a fresh `g`; Flask's `g` starts without attributes, which the model represents as empty values.
