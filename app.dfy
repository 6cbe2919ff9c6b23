/**
 * The application object built by `create_app`, reduced to the configuration
 * entries the request pipeline reads or writes.
 */
module Application {
  import opened Wrappers
  import opened Revision

  class App {
    /** `APPWEB_MODE`: "search", "extras" or anything else. */
    var appwebMode: string
    /** `STATIC_PREFIX`; `None` and `""` both fall back to the static URL path. */
    var staticPrefixSetting: Option<string>
    /** `app.static_url_path`. */
    var staticUrlPath: string
    /** `TOS_LINK` and `PRIVACY_LINK`. */
    var tosLink: string
    var privacyLink: string
    /** `CACHE_KEY_PREFIX`: `None` stands for the key being absent from the configuration. */
    var cacheKeyPrefix: Option<string>
    /** `REVISION_HASH` and `REVISION`. */
    var revisionHash: Option<string>
    var revision: seq<seq<string>>
    /** `app.assets.url`, overwritten on every request by `init_g`. */
    var assetsUrl: string

    constructor (mode: string, staticPrefix: Option<string>, staticUrlPath: string,
                 tos: string, privacy: string, cachePrefix: Option<string>)
      ensures appwebMode == mode && staticPrefixSetting == staticPrefix
      ensures this.staticUrlPath == staticUrlPath && tosLink == tos && privacyLink == privacy
      ensures cacheKeyPrefix == cachePrefix && revisionHash == None && revision == []
      ensures assetsUrl == staticUrlPath
    {
      appwebMode, staticPrefixSetting, this.staticUrlPath := mode, staticPrefix, staticUrlPath;
      tosLink, privacyLink := tos, privacy;
      cacheKeyPrefix, revisionHash, revision := cachePrefix, None, [];
      assetsUrl := staticUrlPath;
    }

    /**
     * The revision block of `create_app`. `revisionFile` is the text of the
     * `revision` file beside the application root, `None` when it does not
     * exist; `md5` is the hex digest of a text.
     */
    method LoadRevision(revisionFile: Option<string>, md5: string -> string)
      modifies this`cacheKeyPrefix, this`revisionHash, this`revision
      ensures revisionFile.None? ==>
        revisionHash == None && revision == [] && cacheKeyPrefix == old(cacheKeyPrefix)
      ensures revisionFile.Some? ==>
        var hash := md5(revisionFile.value);
        revisionHash == Some(hash) && revision == Revisions(revisionFile.value)
        && cacheKeyPrefix == Some(CacheKeyPrefix(old(cacheKeyPrefix), hash))
      ensures forall rec :: rec in revision ==> rec != [] && forall tok :: tok in rec ==> Field(tok)
    {
      match revisionFile {
        case Some(data) =>
          var revisions := Revisions(data);
          var hash := md5(data);
          RevisionsWellFormed(data);
          cacheKeyPrefix := Some(CacheKeyPrefix(cacheKeyPrefix, hash));
          revisionHash := Some(hash);
          revision := revisions;
        case None =>
          revisionHash := None;
          revision := [];
      }
    }
  }
}
