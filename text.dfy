/**
 * The string operations the symbol layer uses: std::string::find, substr
 * cuts around a delimiter, a prefix test, and the `split` helper of the
 * project's base library (splitting the way std::getline does).
 */
module Text {
  import opened Wrappers

  /** The index of the first `c` in `s`, or None where std::string::find gives npos. */
  function IndexOf(s: string, c: char): (r: Option<nat>)
    ensures r.None? <==> c !in s
    ensures r.Some? ==> r.value < |s| && s[r.value] == c && c !in s[..r.value]
  {
    if s == [] then None
    else if s[0] == c then Some(0)
    else match IndexOf(s[1..], c)
      case None => None
      case Some(i) =>
        assert s[..i + 1] == [s[0]] + s[1..][..i];
        Some(i + 1)
  }

  /** Where `c` first occurs after a stretch free of it. */
  lemma {:induction false} IndexOfAfterFreeStretch(p: string, c: char, q: string)
    requires c !in p
    ensures IndexOf(p + [c] + q, c) == Some(|p|)
  {
    if p != [] {
      assert (p + [c] + q)[1..] == p[1..] + [c] + q;
      IndexOfAfterFreeStretch(p[1..], c, q);
    }
  }

  lemma TakeBeforeFreeStretch(p: string, c: char, q: string)
    requires c !in p
    ensures TakeBefore(p + [c] + q, c) == p
  {
    IndexOfAfterFreeStretch(p, c, q);
  }

  /** The text before the first `c`, or all of `s` when there is none: `s.substr(0, s.find(c))`. */
  function TakeBefore(s: string, c: char): (r: string)
    ensures c !in r
    ensures r <= s
    ensures |r| < |s| ==> s[|r|] == c
  {
    match IndexOf(s, c)
    case None => s
    case Some(i) => s[..i]
  }

  /** The text after the first `c`, or all of `s` when there is none. */
  function AfterFirst(s: string, c: char): (r: string)
    ensures c !in s ==> r == s
    ensures c in s ==> |r| < |s| && c !in s[..|s| - |r| - 1] && s == s[..|s| - |r| - 1] + [c] + r
  {
    match IndexOf(s, c)
    case None => s
    case Some(i) =>
      assert s == s[..i] + [c] + s[i + 1..];
      s[i + 1..]
  }

  predicate StartsWith(s: string, prefix: string)
  {
    prefix <= s
  }

  /**
   * Splits `s` at every `d`, as repeated std::getline calls do: the empty
   * string gives no token, and a trailing delimiter does not start an empty one.
   */
  function Split(s: string, d: char): (r: seq<string>)
    ensures r == [] <==> s == []
    ensures forall k :: 0 <= k < |r| ==> d !in r[k]
    decreases |s|
  {
    if s == [] then []
    else match IndexOf(s, d)
      case None => [s]
      case Some(i) => [s[..i]] + Split(s[i + 1..], d)
  }

  /** `s` without one trailing `d`, if it ends with one. */
  function DropTrailing(s: string, d: char): string
  {
    if |s| > 0 && s[|s| - 1] == d then s[..|s| - 1] else s
  }

  /** The longest suffix of `t` free of `d`: the text after the last `d`. */
  function AfterLast(t: string, d: char): (r: string)
    ensures d !in r && |r| <= |t|
  {
    if t == [] then []
    else if t[|t| - 1] == d then []
    else AfterLast(t[..|t| - 1], d) + [t[|t| - 1]]
  }

  /** AfterLast gives a suffix, preceded by `d` unless it is the whole text. */
  lemma {:induction false} AfterLastIsSuffix(t: string, d: char)
    ensures var r := AfterLast(t, d);
      r == t[|t| - |r|..] && (|r| < |t| ==> t[|t| - |r| - 1] == d)
  {
    if t != [] && t[|t| - 1] != d {
      var front := t[..|t| - 1];
      AfterLastIsSuffix(front, d);
      var r := AfterLast(front, d);
      assert front[|front| - |r|..] + [t[|t| - 1]] == t[|t| - |r| - 1..];
    }
  }

  lemma {:induction false} AfterLastOfDelimiterFree(t: string, d: char)
    requires d !in t
    ensures AfterLast(t, d) == t
  {
    if t != [] {
      assert d !in t[..|t| - 1];
      AfterLastOfDelimiterFree(t[..|t| - 1], d);
    }
  }

  lemma {:induction false} AfterLastSkipsDelimiter(x: string, d: char, y: string)
    ensures AfterLast(x + [d] + y, d) == AfterLast(y, d)
    decreases |y|
  {
    var t := x + [d] + y;
    if y == [] {
    } else if y[|y| - 1] == d {
    } else {
      assert t[..|t| - 1] == x + [d] + y[..|y| - 1];
      AfterLastSkipsDelimiter(x, d, y[..|y| - 1]);
    }
  }

  /** After words separated by `d`, the last word is what remains. */
  lemma AfterLastOfLastWord(words: string, d: char, last: string)
    requires words == [] || words[|words| - 1] == d
    requires d !in last
    ensures AfterLast(words + last, d) == last
  {
    if words != [] {
      var w := words[..|words| - 1];
      assert words + last == w + [d] + last by {
        assert words == w + [d];
      }
      AfterLastSkipsDelimiter(w, d, last);
    } else {
      assert words + last == last;
    }
    AfterLastOfDelimiterFree(last, d);
  }

  lemma DropTrailingAfterPrefix(p: string, rest: string, d: char)
    requires rest != []
    ensures DropTrailing(p + rest, d) == p + DropTrailing(rest, d)
  {
    if rest[|rest| - 1] == d {
      assert (p + rest)[..|p + rest| - 1] == p + rest[..|rest| - 1];
    }
  }

  /**
   * The last token `split` yields is the text after the last delimiter,
   * once a single trailing delimiter has been dropped.
   */
  lemma {:induction false} SplitLastToken(s: string, d: char)
    requires s != []
    ensures Split(s, d) != []
    ensures Split(s, d)[|Split(s, d)| - 1] == AfterLast(DropTrailing(s, d), d)
    decreases |s|
  {
    var found := IndexOf(s, d);
    if found.None? {
      assert Split(s, d) == [s];
      AfterLastOfDelimiterFree(s, d);
    } else {
      var i := found.value;
      var rest := s[i + 1..];
      assert Split(s, d) == [s[..i]] + Split(rest, d);
      assert s == s[..i] + [d] + rest;
      if rest == [] {
        assert DropTrailing(s, d) == s[..i];
        AfterLastOfDelimiterFree(s[..i], d);
      } else {
        SplitLastToken(rest, d);
        var tail := Split(rest, d);
        assert Split(s, d)[|Split(s, d)| - 1] == tail[|tail| - 1];
        DropTrailingAfterPrefix(s[..i] + [d], rest, d);
        AfterLastSkipsDelimiter(s[..i], d, DropTrailing(rest, d));
      }
    }
  }
}
