/**
 * The deployment revision manifest read by `create_app`: its records and the
 * cache key prefix derived from the manifest's hash.
 */
module Revision {
  import opened Strings
  import opened Wrappers

  /** A manifest line yields a record unless it is blank or, once stripped, starts with `#`. */
  predicate Kept(line: string)
  {
    Strip(line) != [] && Strip(line)[0] != '#'
  }

  /** `line.split("#")[0]`: the text of a line before its first `#`. */
  function BeforeComment(line: string): string
  {
    SplitOn(line, '#')[0]
  }

  /** `i.strip()` applied to every field. */
  function StripEach(ws: seq<string>): (r: seq<string>)
    ensures |r| == |ws| && forall i :: 0 <= i < |ws| ==> r[i] == Strip(ws[i])
  {
    seq(|ws|, i requires 0 <= i < |ws| => Strip(ws[i]))
  }

  /** The record of one kept line: its stripped whitespace-separated fields. */
  function Record(line: string): seq<string>
  {
    StripEach(Words(BeforeComment(line)))
  }

  /** A field of a record: non-empty, no whitespace, no `#`. */
  predicate Field(tok: string)
  {
    tok != [] && forall c :: c in tok ==> c !in Whitespace && c != '#'
  }

  /** `f` of every element that passes `keep`, in order: a generator expression with an `if`. */
  function KeepMap<T, U>(xs: seq<T>, keep: T -> bool, f: T -> U): seq<U>
  {
    if xs == [] then [] else (if keep(xs[0]) then [f(xs[0])] else []) + KeepMap(xs[1..], keep, f)
  }

  lemma {:induction false} KeepMapAppend<T, U>(a: seq<T>, b: seq<T>, keep: T -> bool, f: T -> U)
    ensures KeepMap(a + b, keep, f) == KeepMap(a, keep, f) + KeepMap(b, keep, f)
  {
    if a == [] {
      assert a + b == b;
    } else {
      var head := if keep(a[0]) then [f(a[0])] else [];
      assert (a + b)[0] == a[0];
      assert (a + b)[1..] == a[1..] + b;
      assert KeepMap(a + b, keep, f) == head + KeepMap(a[1..] + b, keep, f);
      KeepMapAppend(a[1..], b, keep, f);
      assert KeepMap(a, keep, f) == head + KeepMap(a[1..], keep, f);
    }
  }

  lemma {:induction false} KeepMapMembers<T, U>(xs: seq<T>, keep: T -> bool, f: T -> U)
    ensures forall y :: y in KeepMap(xs, keep, f) ==> exists x :: x in xs && keep(x) && y == f(x)
    ensures forall x :: x in xs && keep(x) ==> f(x) in KeepMap(xs, keep, f)
  {
    if xs != [] {
      KeepMapMembers(xs[1..], keep, f);
      forall x | x in xs ensures x == xs[0] || x in xs[1..] {
      }
    }
  }

  /** The records of the kept lines, in line order. */
  function Records(lines: seq<string>): seq<seq<string>>
  {
    KeepMap(lines, Kept, Record)
  }

  /** The `REVISION` tuple built from the manifest text. */
  function Revisions(data: string): seq<seq<string>>
  {
    Records(SplitOn(Strip(data), '\n'))
  }

  /** Stripping fields that hold no whitespace changes nothing. */
  lemma StripEachNoSpace(ws: seq<string>)
    requires forall w :: w in ws ==> forall c :: c in w ==> c !in Whitespace
    ensures StripEach(ws) == ws
  {
    forall i | 0 <= i < |ws|
      ensures StripEach(ws)[i] == ws[i]
    {
      assert ws[i] in ws;
      StripNoSpace(ws[i]);
    }
  }

  /** A kept line has a word before its comment. */
  lemma KeptLineHasWord(line: string)
    requires Kept(line)
    ensures Words(BeforeComment(line)) != []
  {
    StripStartsAtFirstNonSpace(line);
    var i :| 0 <= i < |line| && line[i] == Strip(line)[0] && line[i] !in Whitespace
             && forall j :: 0 <= j < i ==> line[j] in Whitespace;
    SplitFirstCovers(line, '#', i);
    var pre := BeforeComment(line);
    assert pre[i] == line[i];
    WordsNonEmpty(pre, i);
  }

  /**
   * The record of a kept line is the whitespace-separated words of its text
   * before the first `#`; there is at least one, and every field is well formed.
   */
  lemma KeptLineRecord(line: string)
    requires Kept(line)
    ensures Record(line) == Words(BeforeComment(line))
    ensures Record(line) != []
    ensures forall tok :: tok in Record(line) ==> Field(tok)
  {
    var pre := BeforeComment(line);
    StripEachNoSpace(Words(pre));
    assert '#' !in pre by {
      assert pre in SplitOn(line, '#');
    }
    KeptLineHasWord(line);
  }

  /**
   * Every record comes from a kept line, every kept line contributes its record,
   * and every record is a non-empty tuple of well-formed fields.
   */
  lemma RecordsFromKeptLines(lines: seq<string>)
    ensures forall rec :: rec in Records(lines) ==> exists l :: l in lines && Kept(l) && rec == Record(l)
    ensures forall l :: l in lines && Kept(l) ==> Record(l) in Records(lines)
    ensures forall rec :: rec in Records(lines) ==> rec != [] && forall tok :: tok in rec ==> Field(tok)
  {
    KeepMapMembers(lines, Kept, Record);
    forall rec | rec in Records(lines) ensures rec != [] && forall tok :: tok in rec ==> Field(tok) {
      var l :| l in lines && Kept(l) && rec == Record(l);
      KeptLineRecord(l);
    }
  }

  /** Blank and comment lines add nothing to the manifest. */
  lemma DroppedLinesAddNothing(lines: seq<string>, line: string)
    requires !Kept(line)
    ensures Records(lines + [line]) == Records(lines)
  {
    KeepMapAppend(lines, [line], Kept, Record);
    assert KeepMap([line], Kept, Record) == [] + KeepMap([], Kept, Record);
  }

  /** Every record of a manifest is a non-empty tuple of fields free of whitespace and `#`. */
  lemma RevisionsWellFormed(data: string)
    ensures forall rec :: rec in Revisions(data) ==> rec != [] && forall tok :: tok in rec ==> Field(tok)
  {
    RecordsFromKeptLines(SplitOn(Strip(data), '\n'));
  }

  /** `"%s%s/" % (existing or "", hash)`: the revision-qualified cache key prefix. */
  function CacheKeyPrefix(existing: Option<string>, hash: string): (r: string)
    ensures var p := existing.GetOr([]);
            |r| == |p| + |hash| + 1 && p <= r && r[|p|..|r| - 1] == hash && r[|r| - 1] == '/'
  {
    existing.GetOr([]) + hash + "/"
  }

  /** Distinct manifest hashes give distinct cache namespaces under the same configured prefix. */
  lemma CacheKeyPrefixInjective(existing: Option<string>, h1: string, h2: string)
    requires CacheKeyPrefix(existing, h1) == CacheKeyPrefix(existing, h2)
    ensures h1 == h2
  {
    var p := existing.GetOr([]);
    assert h1 == CacheKeyPrefix(existing, h1)[|p|..|p| + |h1|];
  }
}
