/**
 * `torrents_data2`, which replaces the files blueprint's `torrents_data`: it
 * returns the base renderer's output unchanged and, on the side, rewrites the
 * input record's `view.file_type` from its tags and sets its image server.
 */
module CategoryRemap {
  import opened Wrappers
  import opened Strings
  import opened RequestContext

  /** A value stored in a view dictionary. `Scalar` stands for numbers and `None`. */
  datatype Value = Str(s: string) | List(items: seq<Value>) | Scalar(n: int)

  /** The exceptions `torrents_data2` can raise. */
  datatype RemapError = KeyError(key: string) | TypeError

  /** What the base renderer returns: a `view` dictionary and the rest of the payload. */
  datatype Payload = Payload(view: map<string, Value>, others: map<string, Value>)

  /** The file record handed to the renderer and modified in place. */
  class FileRecord {
    var view: map<string, Value>
    var others: map<string, Value>

    constructor (view: map<string, Value>, others: map<string, Value>)
      ensures this.view == view && this.others == others
    {
      this.view, this.others := view, others;
    }
  }

  const ImageServer := "images.torrents.com"

  /** The fallback from a raw file type to a display category. */
  function Defaults(): map<string, string>
  {
    map["video" := "movies", "document" := "books", "audio" := "music", "picture" := "image"]
  }

  /** `q in file_tags`: list membership, or substring search when the tags are a string. */
  predicate HasTag(tags: Value, q: string)
  {
    match tags
    case List(items) => Str(q) in items
    case Str(s) => Contains(s, q)
    case Scalar(_) => false
  }

  /**
   * The file type after the tag loop over `cats`: every matching entry
   * overwrites the type, so the last match in table order is what remains.
   */
  function TagType(cats: seq<Category>, tags: Value, orig: Value): Value
    decreases |cats|
  {
    if cats == [] then orig
    else
      var last := cats[|cats| - 1];
      if HasTag(tags, last.q) then Str(last.name) else TagType(cats[..|cats| - 1], tags, orig)
  }

  /** The first matching entry instead: the reading a `break` in the loop would give. */
  function FirstTagType(cats: seq<Category>, tags: Value, orig: Value): Value
    decreases |cats|
  {
    if cats == [] then orig
    else if HasTag(tags, cats[0].q) then Str(cats[0].name) else FirstTagType(cats[1..], tags, orig)
  }

  /** The tags the loop reads: the rendered view's, when the input view has a `tags` key. */
  function FileTags(view: map<string, Value>, rendered: Payload): Result<Value, RemapError>
  {
    if "tags" !in view then Success(List([]))
    else if "tags" !in rendered.view then Failure(KeyError("tags"))
    else Success(rendered.view["tags"])
  }

  /** The final file type: the tag loop, then the fallback table when the type is unchanged. */
  function NewFileType(cats: seq<Category>, tags: Value, orig: Value): Result<Value, RemapError>
  {
    if tags.Scalar? && cats != [] then Failure(TypeError)
    else
      var t := TagType(cats, tags, orig);
      if t != orig then Success(t)
      else match t
        case Str(s) => Success(if s in Defaults() then Str(Defaults()[s]) else t)
        case List(_) => Failure(TypeError)
        case Scalar(_) => Success(t)
  }

  /** The input view after `torrents_data2`, or the exception it raises. */
  function Remap(view: map<string, Value>, rendered: Payload, cats: seq<Category>): Result<map<string, Value>, RemapError>
  {
    if "file_type" !in view then Failure(KeyError("file_type"))
    else match FileTags(view, rendered)
      case Failure(err) => Failure(err)
      case Success(tags) =>
        match NewFileType(cats, tags, view["file_type"])
        case Failure(err) => Failure(err)
        case Success(t) => Success(view["file_type" := t]["first_image_server" := Str(ImageServer)])
  }

  /** Category `k` of `cats` matches the tags. */
  predicate Matches(cats: seq<Category>, tags: Value, k: int)
    requires 0 <= k < |cats|
  {
    HasTag(tags, cats[k].q)
  }

  /**
   * The tag loop keeps the original type when no entry matches, and otherwise
   * ends on the name of the last matching entry in table order.
   */
  lemma {:induction false} TagTypeIsLastMatch(cats: seq<Category>, tags: Value, orig: Value)
    ensures (forall k :: 0 <= k < |cats| ==> !Matches(cats, tags, k)) ==> TagType(cats, tags, orig) == orig
    ensures forall k :: 0 <= k < |cats| && Matches(cats, tags, k)
                        && (forall j :: k < j < |cats| ==> !Matches(cats, tags, j))
                        ==> TagType(cats, tags, orig) == Str(cats[k].name)
    decreases |cats|
  {
    if cats != [] {
      var init := cats[..|cats| - 1];
      TagTypeIsLastMatch(init, tags, orig);
      assert forall k :: 0 <= k < |init| ==> (Matches(init, tags, k) <==> Matches(cats, tags, k));
      forall k | 0 <= k < |cats| && Matches(cats, tags, k) && (forall j :: k < j < |cats| ==> !Matches(cats, tags, j))
        ensures TagType(cats, tags, orig) == Str(cats[k].name)
      {
        if k < |init| {
          assert !Matches(cats, tags, |cats| - 1);
          assert TagType(cats, tags, orig) == TagType(init, tags, orig);
          assert init[k] == cats[k] && Matches(init, tags, k);
          assert forall j :: k < j < |init| ==> !Matches(init, tags, j);
        }
      }
      if forall k :: 0 <= k < |cats| ==> !Matches(cats, tags, k) {
        assert !Matches(cats, tags, |cats| - 1);
      }
    }
  }

  /** The first-match reading keeps the original type without a match, else takes the first match. */
  lemma {:induction false} FirstTagTypeIsFirstMatch(cats: seq<Category>, tags: Value, orig: Value)
    ensures (forall k :: 0 <= k < |cats| ==> !Matches(cats, tags, k)) ==> FirstTagType(cats, tags, orig) == orig
    ensures forall k :: 0 <= k < |cats| && Matches(cats, tags, k)
                        && (forall j :: 0 <= j < k ==> !Matches(cats, tags, j))
                        ==> FirstTagType(cats, tags, orig) == Str(cats[k].name)
    decreases |cats|
  {
    if cats != [] {
      var tail := cats[1..];
      FirstTagTypeIsFirstMatch(tail, tags, orig);
      assert forall k :: 0 <= k < |tail| ==> (Matches(tail, tags, k) <==> Matches(cats, tags, k + 1));
      if !Matches(cats, tags, 0) {
        forall k | 1 <= k < |cats| && Matches(cats, tags, k) && (forall j :: 0 <= j < k ==> !Matches(cats, tags, j))
          ensures FirstTagType(cats, tags, orig) == Str(cats[k].name)
        {
          assert Matches(tail, tags, k - 1);
          assert forall j :: 0 <= j < k - 1 ==> !Matches(tail, tags, j) by {
            forall j | 0 <= j < k - 1 ensures !Matches(tail, tags, j) {
              assert !Matches(cats, tags, j + 1);
            }
          }
        }
      }
    }
  }

  /** When at most one entry matches, the last match and the first match coincide. */
  lemma SingleMatchAgrees(cats: seq<Category>, tags: Value, orig: Value)
    requires forall i, j :: 0 <= i < j < |cats| && Matches(cats, tags, i) ==> !Matches(cats, tags, j)
    ensures TagType(cats, tags, orig) == FirstTagType(cats, tags, orig)
  {
    TagTypeIsLastMatch(cats, tags, orig);
    FirstTagTypeIsFirstMatch(cats, tags, orig);
    if k :| 0 <= k < |cats| && Matches(cats, tags, k) {
      assert forall j :: k < j < |cats| ==> !Matches(cats, tags, j);
      assert forall j :: 0 <= j < k ==> !Matches(cats, tags, j);
    }
  }

  /**
   * A file tagged both `movie` and `game` ends up in `games`, the later table
   * entry, where stopping at the first match would give `movies`.
   */
  lemma LastMatchWinsExample()
    ensures TagType(Categories(), List([Str("movie"), Str("game")]), Str("video")) == Str("games")
    ensures FirstTagType(Categories(), List([Str("movie"), Str("game")]), Str("video")) == Str("movies")
  {
    var cats, tags := Categories(), List([Str("movie"), Str("game")]);
    forall j | 0 <= j < |cats|
      ensures Matches(cats, tags, j) <==> j <= 1
    {
      MovieGameMatches(j);
    }
    TagTypeIsLastMatch(cats, tags, Str("video"));
    FirstTagTypeIsFirstMatch(cats, tags, Str("video"));
    assert cats[1].name == "games" && cats[0].name == "movies";
  }

  /** Of the table's entries, only the first two match the tags `movie` and `game`. */
  lemma MovieGameMatches(j: int)
    requires 0 <= j < |Categories()|
    ensures Matches(Categories(), List([Str("movie"), Str("game")]), j) <==> j <= 1
  {
    var cats := Categories();
    assert cats[0].q == "movie" && cats[1].q == "game";
    if j > 1 {
      assert cats[j].q != cats[0].q && cats[j].q != cats[1].q;
    }
  }

  /** The tag loop's result is the original type or the name of a matching entry. */
  lemma {:induction false} TagTypeIsOrigOrMatch(cats: seq<Category>, tags: Value, orig: Value)
    ensures TagType(cats, tags, orig) == orig
            || exists k :: 0 <= k < |cats| && Matches(cats, tags, k) && TagType(cats, tags, orig) == Str(cats[k].name)
    ensures (exists k :: 0 <= k < |cats| && Matches(cats, tags, k))
            ==> exists k :: 0 <= k < |cats| && Matches(cats, tags, k) && TagType(cats, tags, orig) == Str(cats[k].name)
    decreases |cats|
  {
    if cats != [] {
      var init := cats[..|cats| - 1];
      TagTypeIsOrigOrMatch(init, tags, orig);
      assert forall k :: 0 <= k < |init| ==> (Matches(init, tags, k) <==> Matches(cats, tags, k));
      if !Matches(cats, tags, |cats| - 1) && exists k :: 0 <= k < |cats| && Matches(cats, tags, k) {
        var k :| 0 <= k < |cats| && Matches(cats, tags, k);
        assert Matches(init, tags, k);
      }
    }
  }

  /**
   * With the site's table, the fallback never undoes a tag match: once some
   * category tag is present, the final type is the tag loop's result.
   */
  lemma FallbackOnlyWithoutMatch(tags: Value, orig: Value)
    requires !tags.Scalar?
    requires exists k :: 0 <= k < |Categories()| && Matches(Categories(), tags, k)
    ensures NewFileType(Categories(), tags, orig) == Success(TagType(Categories(), tags, orig))
  {
    var cats := Categories();
    TagTypeIsOrigOrMatch(cats, tags, orig);
    var k :| 0 <= k < |cats| && Matches(cats, tags, k) && TagType(cats, tags, orig) == Str(cats[k].name);
    CategoryNameNotFallbackKey(k);
  }

  /** No category name is a key of the fallback table. */
  lemma CategoryNameNotFallbackKey(k: int)
    requires 0 <= k < |Categories()|
    ensures Categories()[k].name !in Defaults()
  {
    var names := ["movies", "games", "tv", "music", "anime", "books", "adult", "software", "mobile", "pictures"];
    assert forall i :: 0 <= i < 10 ==> Categories()[i].name == names[i];
    assert Defaults().Keys == {"video", "document", "audio", "picture"};
  }

  /** Without a category tag, a raw type in the fallback table is mapped and any other is kept. */
  lemma FallbackWithoutMatch(tags: Value, orig: string)
    requires !tags.Scalar?
    requires forall k :: 0 <= k < |Categories()| ==> !Matches(Categories(), tags, k)
    ensures NewFileType(Categories(), tags, Str(orig))
            == Success(Str(if orig in Defaults() then Defaults()[orig] else orig))
  {
    TagTypeIsLastMatch(Categories(), tags, Str(orig));
  }

  /** Examples: a `movie` tag makes a video `movies`; untagged, `picture` becomes `image` and an unknown type stays. */
  lemma RemapExamples()
    ensures NewFileType(Categories(), List([Str("movie")]), Str("video")) == Success(Str("movies"))
    ensures NewFileType(Categories(), List([]), Str("picture")) == Success(Str("image"))
    ensures NewFileType(Categories(), List([]), Str("unknown_type")) == Success(Str("unknown_type"))
  {
    var cats := Categories();
    var movie := List([Str("movie")]);
    assert Matches(cats, movie, 0);
    assert forall j :: 0 < j < |cats| ==> !Matches(cats, movie, j) by {
      forall j | 0 < j < |cats| ensures !Matches(cats, movie, j) {
        assert cats[j].q != "movie";
      }
    }
    TagTypeIsLastMatch(cats, movie, Str("video"));
    FallbackWithoutMatch(List([]), "picture");
    FallbackWithoutMatch(List([]), "unknown_type");
  }

  /**
   * A successful remap changes only `file_type` and `first_image_server` of
   * the view, sets the image server, and gives the type `NewFileType` chose.
   */
  lemma RemapChangesOnlyTypeAndServer(view: map<string, Value>, rendered: Payload, cats: seq<Category>)
    requires Remap(view, rendered, cats).Success?
    ensures var v := Remap(view, rendered, cats).value;
      && v.Keys == view.Keys + {"first_image_server"}
      && v["first_image_server"] == Str(ImageServer)
      && Success(v["file_type"]) == NewFileType(cats, FileTags(view, rendered).value, view["file_type"])
      && forall k :: k in view && k != "file_type" && k != "first_image_server" ==> v[k] == view[k]
  {
  }

  /**
   * `torrents_data2(data)`: `render` stands for `old_torrents_data`, taken as
   * a function of the record; the category table is `g.categories`.
   */
  method TorrentsData2(data: FileRecord, g: Globals, render: (map<string, Value>, map<string, Value>) -> Payload)
    returns (r: Result<Payload, RemapError>)
    modifies data`view
    ensures var expected := Remap(old(data.view), render(old(data.view), old(data.others)), g.categories);
      (r.Success? <==> expected.Success?)
      && (r.Success? ==> r.value == render(old(data.view), old(data.others)) && data.view == expected.value)
      && (r.Failure? ==> r.error == expected.error && data.view == old(data.view))
  {
    var newData := render(data.view, data.others);
    if "file_type" !in data.view {
      return Failure(KeyError("file_type"));
    }
    var fileType := data.view["file_type"];
    var fileTags: Value;
    if "tags" in data.view {
      if "tags" !in newData.view {
        return Failure(KeyError("tags"));
      }
      fileTags := newData.view["tags"];
    } else {
      fileTags := List([]);
    }
    var cats := g.categories;
    assert old(data.view)["file_type" := fileType] == old(data.view);
    assert data.view == old(data.view)["file_type" := TagType(cats[..0], fileTags, fileType)];
    var i := 0;
    while i < |cats|
      invariant 0 <= i <= |cats|
      invariant data.view == old(data.view)["file_type" := TagType(cats[..i], fileTags, fileType)]
      invariant fileTags.Scalar? ==> i == 0
    {
      if fileTags.Scalar? {
        return Failure(TypeError);
      }
      assert cats[..i + 1][..i] == cats[..i];
      if HasTag(fileTags, cats[i].q) {
        data.view := data.view["file_type" := Str(cats[i].name)];
      }
      i := i + 1;
    }
    assert cats[..i] == cats;
    var current := data.view["file_type"];
    if fileType == current {
      match current {
        case Str(s) =>
          if s in Defaults() {
            data.view := data.view["file_type" := Str(Defaults()[s])];
          }
        case List(_) =>
          assert data.view == old(data.view);
          return Failure(TypeError);
        case Scalar(_) =>
      }
    }
    data.view := data.view["first_image_server" := Str(ImageServer)];
    r := Success(newData);
  }
}
