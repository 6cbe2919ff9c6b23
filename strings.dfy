/**
 * The handful of Python 2 `str` operations the web layer relies on:
 * `strip`, `rstrip(chars)`, `split(sep)`, `split()`, `find`, `in`, `startswith`
 * and `str(int)`, each as a function on `seq<char>` together with the facts
 * the rest of the model needs about it.
 */
module Strings {

  /** Characters Python 2 byte strings treat as whitespace in `strip()` and `split()`. */
  const Whitespace: set<char> := {' ', '\t', '\n', '\r', '\U{000B}', '\U{000C}'}

  /** `s.rstrip(chars)`: drop every trailing character that belongs to `cs`. */
  function RStrip(s: string, cs: set<char>): (r: string)
    ensures r <= s
    ensures r == [] || r[|r| - 1] !in cs
    ensures forall i :: |r| <= i < |s| ==> s[i] in cs
    decreases |s|
  {
    if s != [] && s[|s| - 1] in cs then RStrip(s[..|s| - 1], cs) else s
  }

  /** `s.lstrip(chars)`: drop every leading character that belongs to `cs`. */
  function LStrip(s: string, cs: set<char>): (r: string)
    ensures |r| <= |s| && r == s[|s| - |r|..]
    ensures r == [] || r[0] !in cs
    ensures forall i :: 0 <= i < |s| - |r| ==> s[i] in cs
    decreases |s|
  {
    if s != [] && s[0] in cs then
      var r := LStrip(s[1..], cs);
      DropFirstSuffix(s, r, cs);
      r
    else s
  }

  /**
   * When the first character of `s` is in `cs` and `r` is a suffix of
   * `s[1..]` preceded only by characters in `cs`, the same holds of `r` in `s`.
   */
  lemma DropFirstSuffix(s: string, r: string, cs: set<char>)
    requires s != [] && s[0] in cs
    requires |r| < |s| && r == s[1..][|s| - 1 - |r|..]
    requires forall i :: 0 <= i < |s| - 1 - |r| ==> s[1..][i] in cs
    ensures r == s[|s| - |r|..]
    ensures forall i :: 0 <= i < |s| - |r| ==> s[i] in cs
  {
    forall i | 0 <= i < |s| - |r|
      ensures s[i] in cs
    {
      if i > 0 {
        assert s[i] == s[1..][i - 1];
      }
    }
  }

  /**
   * Stripping the end of `a + b` stays within `b` when `b` is not all stripped
   * away, or when `a` has nothing to strip at its end.
   */
  lemma {:induction false} RStripAppend(a: string, b: string, cs: set<char>)
    requires RStrip(b, cs) != [] || a == [] || a[|a| - 1] !in cs
    ensures RStrip(a + b, cs) == a + RStrip(b, cs)
    decreases |b|
  {
    if b == [] {
      assert a + b == a;
    } else if b[|b| - 1] in cs {
      assert (a + b)[|a + b| - 1] == b[|b| - 1];
      assert (a + b)[..|a + b| - 1] == a + b[..|b| - 1];
      RStripAppend(a, b[..|b| - 1], cs);
    } else {
      assert (a + b)[|a + b| - 1] == b[|b| - 1];
    }
  }

  /** `s.strip()` with no argument. */
  function Strip(s: string): string
  {
    LStrip(RStrip(s, Whitespace), Whitespace)
  }

  /** A non-blank `s` has a first non-whitespace character, and it is where `Strip(s)` begins. */
  lemma StripStartsAtFirstNonSpace(s: string)
    requires Strip(s) != []
    ensures exists i :: 0 <= i < |s| && s[i] == Strip(s)[0] && s[i] !in Whitespace
                        && forall j :: 0 <= j < i ==> s[j] in Whitespace
  {
    var t := RStrip(s, Whitespace);
    var r := LStrip(t, Whitespace);
    var i := |t| - |r|;
    assert r[0] == t[i];
    assert t[i] == s[i];
    assert forall j :: 0 <= j < i ==> s[j] == t[j];
  }

  /** Stripping a string without whitespace leaves it alone. */
  lemma StripNoSpace(s: string)
    requires forall c :: c in s ==> c !in Whitespace
    ensures Strip(s) == s
  {
    if s != [] {
      assert s[|s| - 1] in s && s[0] in s;
    }
  }

  /** `Join(ps, c)` is `c.join(ps)`, the inverse of `SplitOn`. */
  function Join(ps: seq<string>, c: char): string
    requires |ps| >= 1
  {
    if |ps| == 1 then ps[0] else ps[0] + [c] + Join(ps[1..], c)
  }

  /** Putting a character in front of the first piece puts it in front of the joined text. */
  lemma JoinConsFirst(x: char, ps: seq<string>, c: char)
    requires |ps| >= 1
    ensures Join([[x] + ps[0]] + ps[1..], c) == [x] + Join(ps, c)
  {
    var r := [[x] + ps[0]] + ps[1..];
    assert r[0] == [x] + ps[0];
    if |ps| > 1 {
      assert r[1..] == ps[1..];
      assert Join(r, c) == r[0] + [c] + Join(ps[1..], c);
    }
  }

  /** `s.split(c)`: the pieces between occurrences of `c`, empty pieces included. */
  function SplitOn(s: string, c: char): (r: seq<string>)
    ensures |r| >= 1
    ensures forall p :: p in r ==> c !in p
    ensures Join(r, c) == s
    ensures r[0] <= s && (|r[0]| < |s| ==> s[|r[0]|] == c)
    decreases |s|
  {
    if s == [] then [[]]
    else
      var rest := SplitOn(s[1..], c);
      if s[0] == c then
        [[]] + rest
      else
        var r := [[s[0]] + rest[0]] + rest[1..];
        assert r[1..] == rest[1..];
        assert forall p :: p in r ==> p == r[0] || p in rest;
        JoinConsFirst(s[0], rest, c);
        assert s == [s[0]] + s[1..];
        r
  }

  /** The first piece of `s.split(c)` runs at least up to the first `c`. */
  lemma SplitFirstCovers(s: string, c: char, i: nat)
    requires i < |s| && forall j :: 0 <= j <= i ==> s[j] != c
    ensures |SplitOn(s, c)[0]| > i
  {
  }

  /** Every character outside `cs`, in order: what `split()` keeps of a string. */
  function Without(s: string, cs: set<char>): string
    decreases |s|
  {
    if s == [] then [] else (if s[0] in cs then [] else [s[0]]) + Without(s[1..], cs)
  }

  /** Concatenation of a sequence of strings. */
  function Concat(ws: seq<string>): string
  {
    if ws == [] then [] else ws[0] + Concat(ws[1..])
  }

  /** Length of the run of non-whitespace characters at the head of `s`. */
  function WordLen(s: string): (n: nat)
    requires s != [] && s[0] !in Whitespace
    ensures 1 <= n <= |s|
    ensures forall i :: 0 <= i < n ==> s[i] !in Whitespace
    ensures n == |s| || s[n] in Whitespace
    decreases |s|
  {
    if |s| == 1 || s[1] in Whitespace then 1 else 1 + WordLen(s[1..])
  }

  /** `s.split()` with no argument: the maximal runs of non-whitespace characters. */
  function Words(s: string): (r: seq<string>)
    ensures forall w :: w in r ==> w != [] && forall c :: c in w ==> c !in Whitespace
    ensures forall w, c :: w in r && c in w ==> c in s
    decreases |s|
  {
    if s == [] then []
    else if s[0] in Whitespace then
      assert forall c :: c in s[1..] ==> c in s;
      Words(s[1..])
    else
      var n := WordLen(s);
      var rest := Words(s[n..]);
      assert forall c :: c in s[n..] ==> c in s;
      assert forall c :: c in s[..n] ==> c in s;
      assert forall w :: w in [s[..n]] + rest ==> w == s[..n] || w in rest;
      [s[..n]] + rest
  }

  /** Leading whitespace is skipped: it never starts or ends a word. */
  lemma WordsSkipsSpace(s: string)
    requires s != [] && s[0] in Whitespace
    ensures Words(s) == Words(s[1..])
  {
  }

  /**
   * A word followed by the end of the text or by whitespace is cut there:
   * `split()` never joins it to what follows nor splits it inside.
   */
  lemma WordsCutsAtSpace(w: string, t: string)
    requires w != [] && forall c :: c in w ==> c !in Whitespace
    requires t == [] || t[0] in Whitespace
    ensures Words(w + t) == [w] + Words(t)
  {
    var s := w + t;
    assert s[0] == w[0] && w[0] in w;
    assert forall i :: 0 <= i < |w| ==> s[i] == w[i] && w[i] in w;
    var n := WordLen(s);
    assert t != [] ==> s[|w|] == t[0];
    assert n == |w|;
    assert s[..n] == w && s[n..] == t;
  }

  /** A word as `split()` returns it: non-empty, without whitespace. */
  predicate IsWord(w: string)
  {
    w != [] && forall c :: c in w ==> c !in Whitespace
  }

  /** Words joined by single spaces. */
  function JoinWords(ws: seq<string>): string
  {
    if ws == [] then [] else if |ws| == 1 then ws[0] else ws[0] + " " + JoinWords(ws[1..])
  }

  /** `split()` takes back words joined by single spaces: `" ".join(ws).split() == ws`. */
  lemma {:induction false} WordsJoinWords(ws: seq<string>)
    requires forall i :: 0 <= i < |ws| ==> IsWord(ws[i])
    ensures Words(JoinWords(ws)) == ws
  {
    if |ws| == 1 {
      assert IsWord(ws[0]);
      WordsCutsAtSpace(ws[0], []);
      assert ws[0] + [] == ws[0];
    } else if |ws| > 1 {
      var head, tail := ws[0], ws[1..];
      assert IsWord(head);
      assert forall i :: 0 <= i < |tail| ==> IsWord(tail[i]) by {
        forall i | 0 <= i < |tail| ensures IsWord(tail[i]) {
          assert tail[i] == ws[i + 1];
        }
      }
      var rest := " " + JoinWords(tail);
      assert JoinWords(ws) == head + rest;
      WordsCutsAtSpace(head, rest);
      WordsSkipsSpace(rest);
      assert rest[1..] == JoinWords(tail);
      WordsJoinWords(tail);
      assert ws == [head] + tail;
    }
  }

  /** The words of `s`, put back together, are exactly its non-whitespace characters. */
  lemma {:induction false} WordsConcat(s: string)
    ensures Concat(Words(s)) == Without(s, Whitespace)
    decreases |s|
  {
    if s == [] {
    } else if s[0] in Whitespace {
      WordsConcat(s[1..]);
    } else {
      var n := WordLen(s);
      WordsConcat(s[n..]);
      WithoutAppend(s[..n], s[n..], Whitespace);
      assert s == s[..n] + s[n..];
      WithoutNone(s[..n], Whitespace);
      assert ([s[..n]] + Words(s[n..]))[1..] == Words(s[n..]);
    }
  }

  lemma {:induction false} WithoutAppend(a: string, b: string, cs: set<char>)
    ensures Without(a + b, cs) == Without(a, cs) + Without(b, cs)
    decreases |a|
  {
    if a != [] {
      assert (a + b)[0] == a[0];
      assert (a + b)[1..] == a[1..] + b;
      WithoutAppend(a[1..], b, cs);
    } else {
      assert a + b == b;
    }
  }

  lemma {:induction false} WithoutNone(a: string, cs: set<char>)
    requires forall i :: 0 <= i < |a| ==> a[i] !in cs
    ensures Without(a, cs) == a
    decreases |a|
  {
    if a != [] {
      WithoutNone(a[1..], cs);
    }
  }

  /** A string has words exactly when it has a non-whitespace character. */
  lemma {:induction false} WordsNonEmpty(s: string, i: nat)
    requires i < |s| && s[i] !in Whitespace
    ensures Words(s) != []
    decreases |s|
  {
    if s[0] in Whitespace {
      WordsNonEmpty(s[1..], i - 1);
    }
  }

  /** `pat` occurs in `s` starting at index `i`. */
  predicate At(s: string, pat: string, i: int)
  {
    0 <= i <= |s| - |pat| && s[i..i + |pat|] == pat
  }

  /** An occurrence past the first character is an occurrence in the tail. */
  lemma AtShift(s: string, pat: string, i: int)
    requires 1 <= i && s != []
    ensures At(s, pat, i) <==> At(s[1..], pat, i - 1)
  {
    if i <= |s| - |pat| {
      assert forall k {:trigger s[i..i + |pat|][k]} :: 0 <= k < |pat| ==>
        s[i..i + |pat|][k] == s[1..][i - 1..i - 1 + |pat|][k];
      assert s[i..i + |pat|] == s[1..][i - 1..i - 1 + |pat|];
    }
  }

  /** `s.find(pat)`: index of the first occurrence of `pat` in `s`, or -1. */
  function Find(s: string, pat: string): (r: int)
    ensures r >= -1
    ensures r >= 0 ==> At(s, pat, r)
    ensures forall i :: 0 <= i < (if r >= 0 then r else |s|) ==> !At(s, pat, i)
    decreases |s|
  {
    if |s| < |pat| then -1
    else if s[..|pat|] == pat then 0
    else
      var k := Find(s[1..], pat);
      assert forall i :: 1 <= i ==> (At(s, pat, i) <==> At(s[1..], pat, i - 1)) by {
        forall i | 1 <= i {
          AtShift(s, pat, i);
        }
      }
      if k < 0 then -1 else k + 1
  }

  /** The search for a non-empty pattern lands on its first occurrence. */
  lemma FindFirst(s: string, pat: string, i: int)
    requires pat != [] && At(s, pat, i)
    requires forall j :: 0 <= j < i ==> !At(s, pat, j)
    ensures Find(s, pat) == i
  {
  }

  /** `pat in s` for strings. */
  predicate Contains(s: string, pat: string)
  {
    Find(s, pat) >= 0
  }

  /** A one-character pattern occurs exactly where that character stands. */
  lemma AtChar(s: string, c: char, j: int)
    ensures At(s, [c], j) <==> 0 <= j < |s| && s[j] == c
  {
    if 0 <= j < |s| {
      assert s[j..j + 1] == [s[j]];
    }
  }

  /** Searching for one character finds its first occurrence. */
  lemma FindCharFirst(s: string, c: char, i: int)
    requires 0 <= i < |s| && s[i] == c
    requires forall j :: 0 <= j < i ==> s[j] != c
    ensures Find(s, [c]) == i
  {
    var r := Find(s, [c]);
    AtChar(s, c, i);
    AtChar(s, c, r);
  }

  /** Searching for one character fails exactly when it is absent. */
  lemma FindCharAbsent(s: string, c: char)
    ensures Find(s, [c]) < 0 <==> c !in s
  {
    var r := Find(s, [c]);
    if r >= 0 {
      AtChar(s, c, r);
    }
    if c in s {
      var i :| 0 <= i < |s| && s[i] == c;
      AtChar(s, c, i);
    }
  }

  /** A single-character search sees through a prefix that lacks the character. */
  lemma FindCharAfter(a: string, b: string, c: char)
    requires c !in a && c in b
    ensures Find(a + b, [c]) == |a| + Find(b, [c])
  {
    FindCharAbsent(b, c);
    var k := Find(b, [c]);
    AtChar(b, c, k);
    forall j | 0 <= j < |a| + k ensures (a + b)[j] != c {
      if j < |a| {
        assert (a + b)[j] == a[j];
      } else {
        AtChar(b, c, j - |a|);
      }
    }
    FindCharFirst(a + b, c, |a| + k);
  }

  function DigitChar(d: nat): (c: char)
    requires d < 10
  {
    "0123456789"[d]
  }

  function DigitValue(c: char): nat
  {
    if '0' <= c <= '9' then (c as int - '0' as int) as nat else 0
  }

  /** Decimal digits of `n`, most significant first, without leading zeros. */
  function NatToString(n: nat): (r: string)
    ensures r != [] && (|r| > 1 ==> r[0] != '0')
    ensures forall c :: c in r ==> '0' <= c <= '9'
    decreases n
  {
    if n < 10 then [DigitChar(n)]
    else
      var r := NatToString(n / 10) + [DigitChar(n % 10)];
      assert forall c :: c in r ==> c in NatToString(n / 10) || c == DigitChar(n % 10);
      r
  }

  /** Reads back a string of decimal digits. */
  function ParseNat(s: string): nat
    decreases |s|
  {
    if s == [] then 0 else 10 * ParseNat(s[..|s| - 1]) + DigitValue(s[|s| - 1])
  }

  lemma {:induction false} ParseNatToString(n: nat)
    ensures ParseNat(NatToString(n)) == n
    decreases n
  {
    if n >= 10 {
      ParseNatToString(n / 10);
      var r := NatToString(n / 10) + [DigitChar(n % 10)];
      assert r[..|r| - 1] == NatToString(n / 10);
    }
  }

  /** `str(n)` for an integer. */
  function IntToString(n: int): (r: string)
    ensures r != []
  {
    if n < 0 then "-" + NatToString(-n) else NatToString(n)
  }

  /** Reads back the text `str(n)` produces. */
  function ParseInt(s: string): int
  {
    if s != [] && s[0] == '-' then -(ParseNat(s[1..]) as int) else ParseNat(s)
  }

  /** `str` loses nothing: the decimal text of an integer reads back as that integer. */
  lemma IntToStringRoundTrip(n: int)
    ensures ParseInt(IntToString(n)) == n
  {
    if n < 0 {
      var digits := NatToString(-n);
      ParseNatToString(-n);
      var s := "-" + digits;
      assert s[0] == '-' && s[1..] == digits;
      assert IntToString(n) == s;
    } else {
      var digits := NatToString(n);
      ParseNatToString(n);
      assert digits[0] in digits;
      assert digits[0] != '-';
      assert IntToString(n) == digits;
    }
  }
}
