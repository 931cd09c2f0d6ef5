/** The Python built-in string and list operations the parser relies on. */
module Builtins {

  /** U+3000 IDEOGRAPHIC SPACE, the separator between a security's code and its name. */
  const FullWidthSpace: char := '\U{3000}'

  /** Python's `str.split(sep)` with an explicit one-character separator:
      adjacent separators give empty parts, and there is always at least one part. */
  function Split(s: string, sep: char): (parts: seq<string>)
    ensures |parts| >= 1
    ensures forall i :: 0 <= i < |parts| ==> sep !in parts[i]
    decreases |s|
  {
    if s == [] then [[]]
    else
      var rest := Split(s[1..], sep);
      if s[0] == sep then [[]] + rest
      else [[s[0]] + rest[0]] + rest[1..]
  }

  /** There is more than one part exactly when the separator occurs. */
  lemma {:induction false} SplitFindsSeparator(s: string, sep: char)
    ensures |Split(s, sep)| >= 2 <==> sep in s
    decreases |s|
  {
    if s != [] {
      SplitFindsSeparator(s[1..], sep);
      assert s == [s[0]] + s[1..];
    }
  }

  /** Python's `sep.join(parts)`. */
  function Join(parts: seq<string>, sep: char): string
    requires |parts| >= 1
    decreases |parts|
  {
    if |parts| == 1 then parts[0] else parts[0] + [sep] + Join(parts[1..], sep)
  }

  /** Splitting and joining again gives back the original text. */
  lemma {:induction false} JoinSplit(s: string, sep: char)
    ensures Join(Split(s, sep), sep) == s
    decreases |s|
  {
    if s != [] {
      var rest := Split(s[1..], sep);
      JoinSplit(s[1..], sep);
      if s[0] == sep {
        assert Split(s, sep)[1..] == rest;
      } else if |rest| == 1 {
        assert Join(Split(s, sep), sep) == [s[0]] + rest[0];
      } else {
        var parts := Split(s, sep);
        assert parts[1..] == rest[1..];
        assert Join(parts, sep) == [s[0]] + rest[0] + [sep] + Join(rest[1..], sep);
        assert Join(rest, sep) == rest[0] + [sep] + Join(rest[1..], sep);
        assert s == [s[0]] + s[1..];
      }
    }
  }

  /** Text free of the separator, followed by more text, stays one part glued to the first part of the rest. */
  lemma {:induction false} SplitAfterPlain(a: string, b: string, sep: char)
    requires sep !in a
    ensures Split(a + b, sep) == [a + Split(b, sep)[0]] + Split(b, sep)[1..]
    decreases |a|
  {
    if a != [] {
      SplitAfterPlain(a[1..], b, sep);
      assert a + b == [a[0]] + (a[1..] + b);
      SplitCons(a[0], a[1..] + b, sep);
      assert [a[0]] + (a[1..] + Split(b, sep)[0]) == a + Split(b, sep)[0];
    } else {
      var parts := Split(b, sep);
      assert a + b == b;
      assert [] + parts[0] == parts[0];
      assert parts == [parts[0]] + parts[1..];
    }
  }

  /** A character other than the separator joins the first part. */
  lemma SplitCons(c: char, s: string, sep: char)
    requires c != sep
    ensures Split([c] + s, sep) == [[c] + Split(s, sep)[0]] + Split(s, sep)[1..]
  {
    assert ([c] + s)[1..] == s;
  }

  /** Joining separator-free parts and splitting again gives back the parts. */
  lemma {:induction false} SplitJoin(parts: seq<string>, sep: char)
    requires |parts| >= 1
    requires forall i :: 0 <= i < |parts| ==> sep !in parts[i]
    ensures Split(Join(parts, sep), sep) == parts
    decreases |parts|
  {
    if |parts| == 1 {
      SplitAfterPlain(parts[0], [], sep);
      assert Split([], sep) == [[]];
      assert parts[0] + [] == parts[0];
    } else {
      var tail := Join(parts[1..], sep);
      SplitJoin(parts[1..], sep);
      assert ([sep] + tail)[1..] == tail;
      var after := Split([sep] + tail, sep);
      assert after == [[]] + Split(tail, sep);
      assert after[0] == [] && after[1..] == parts[1..];
      SplitAfterPlain(parts[0], [sep] + tail, sep);
      assert parts[0] + after[0] == parts[0];
      assert parts[0] + [sep] + tail == parts[0] + ([sep] + tail);
      assert parts == [parts[0]] + parts[1..];
    }
  }

  /** When the separator occurs, the first part is everything before its first occurrence
      and the second part runs up to the next occurrence or to the end. */
  lemma SplitHead(s: string, sep: char)
    requires sep in s
    ensures var parts := Split(s, sep);
      |parts| >= 2 && sep !in parts[0] && sep !in parts[1] &&
      s == parts[0] + [sep] + Join(parts[1..], sep) &&
      (|parts| == 2 ==> s == parts[0] + [sep] + parts[1]) &&
      (|parts| > 2 ==> s == parts[0] + [sep] + parts[1] + [sep] + Join(parts[2..], sep))
  {
    var parts := Split(s, sep);
    JoinSplit(s, sep);
    SplitFindsSeparator(s, sep);
    if |parts| > 2 {
      assert parts[1..][1..] == parts[2..];
    }
  }

  /** Python's `s.replace(" ", "")`: every ASCII space removed, every other character kept in order. */
  function RemoveSpaces(s: string): (r: string)
    ensures ' ' !in r
    decreases |s|
  {
    if s == [] then []
    else
      var rest := RemoveSpaces(s[1..]);
      if s[0] == ' ' then rest else [s[0]] + rest
  }

  /** Removing spaces keeps every other character, as often as it occurs. */
  lemma {:induction false} RemoveSpacesKeepsOthers(s: string)
    ensures |RemoveSpaces(s)| <= |s|
    ensures forall c :: c != ' ' ==> multiset(RemoveSpaces(s))[c] == multiset(s)[c]
    decreases |s|
  {
    if s != [] {
      RemoveSpacesKeepsOthers(s[1..]);
      assert s == [s[0]] + s[1..];
    }
  }

  /** Removing spaces works piece by piece, so the order of the remaining characters is kept. */
  lemma {:induction false} RemoveSpacesConcat(a: string, b: string)
    ensures RemoveSpaces(a + b) == RemoveSpaces(a) + RemoveSpaces(b)
    decreases |a|
  {
    if a != [] {
      assert (a + b)[1..] == a[1..] + b;
      assert (a + b)[0] == a[0];
      RemoveSpacesConcat(a[1..], b);
    } else {
      assert a + b == b;
    }
  }

  /** Text without spaces is left as it is; in particular removing spaces twice is removing them once. */
  lemma {:induction false} RemoveSpacesIdentity(s: string)
    requires ' ' !in s
    ensures RemoveSpaces(s) == s
    decreases |s|
  {
    if s != [] {
      assert s[0] in s;
      assert forall c :: c in s[1..] ==> c in s;
      RemoveSpacesIdentity(s[1..]);
    }
  }

  /** The characters Python's `str.isspace()` accepts, which `str.strip()` removes. */
  predicate IsWhitespace(c: char) {
    ('\t' <= c <= '\r') || ('\U{1c}' <= c <= '\U{1f}') || c == ' ' || c == '\U{85}' || c == '\U{a0}' ||
    c == '\U{1680}' || ('\U{2000}' <= c <= '\U{200a}') || c == '\U{2028}' || c == '\U{2029}' ||
    c == '\U{202f}' || c == '\U{205f}' || c == '\U{3000}'
  }

  /** Python's `str.lstrip()`: the longest suffix that does not start with whitespace. */
  function LStrip(s: string): (r: string)
    ensures |r| <= |s| && r == s[|s| - |r|..]
    ensures forall k :: 0 <= k < |s| - |r| ==> IsWhitespace(s[k])
    ensures r != [] ==> !IsWhitespace(r[0])
    decreases |s|
  {
    if s != [] && IsWhitespace(s[0]) then LStrip(s[1..]) else s
  }

  /** Python's `str.rstrip()`: the longest prefix that does not end with whitespace. */
  function RStrip(s: string): (r: string)
    ensures |r| <= |s| && r == s[..|r|]
    ensures forall k :: |r| <= k < |s| ==> IsWhitespace(s[k])
    ensures r != [] ==> !IsWhitespace(r[|r| - 1])
    decreases |s|
  {
    if s != [] && IsWhitespace(s[|s| - 1]) then RStrip(s[..|s| - 1]) else s
  }

  /** Python's `str.strip()`: the text with leading and trailing whitespace removed. */
  function Strip(s: string): (r: string)
    ensures |r| <= |s|
    ensures r != [] ==> !IsWhitespace(r[0]) && !IsWhitespace(r[|r| - 1])
    ensures r == [] <==> forall k :: 0 <= k < |s| ==> IsWhitespace(s[k])
  {
    var l := LStrip(s);
    var r := RStrip(l);
    assert r != [] ==> r[0] == l[0];
    assert l != [] ==> !IsWhitespace(l[0]) && r != [];
    r
  }

  /** Leading whitespace in front of text that does not start with whitespace is what `lstrip` removes. */
  lemma {:induction false} LStripPadded(pre: string, x: string)
    requires forall k :: 0 <= k < |pre| ==> IsWhitespace(pre[k])
    requires x == [] || !IsWhitespace(x[0])
    ensures LStrip(pre + x) == x
    decreases |pre|
  {
    if pre == [] {
      assert pre + x == x;
    } else {
      assert (pre + x)[1..] == pre[1..] + x;
      LStripPadded(pre[1..], x);
    }
  }

  /** Trailing whitespace after text that does not end with whitespace is what `rstrip` removes. */
  lemma {:induction false} RStripPadded(x: string, post: string)
    requires forall k :: 0 <= k < |post| ==> IsWhitespace(post[k])
    requires x == [] || !IsWhitespace(x[|x| - 1])
    ensures RStrip(x + post) == x
    decreases |post|
  {
    if post == [] {
      assert x + post == x;
    } else {
      var shorter := post[..|post| - 1];
      assert (x + post)[..|x + post| - 1] == x + shorter;
      RStripPadded(x, shorter);
    }
  }

  /** Stripping keeps exactly the middle of text padded with whitespace on both sides. */
  lemma StripPadded(pre: string, mid: string, post: string)
    requires forall k :: 0 <= k < |pre| ==> IsWhitespace(pre[k])
    requires forall k :: 0 <= k < |post| ==> IsWhitespace(post[k])
    requires mid != [] && !IsWhitespace(mid[0]) && !IsWhitespace(mid[|mid| - 1])
    ensures Strip(pre + mid + post) == mid
  {
    assert pre + mid + post == pre + (mid + post);
    LStripPadded(pre, mid + post);
    RStripPadded(mid, post);
  }

  /** Python's `list.insert(i, x)` for a non-negative position. */
  function Insert<T>(xs: seq<T>, i: nat, x: T): (r: seq<T>)
    ensures |r| == |xs| + 1
  {
    if i < |xs| then xs[..i] + [x] + xs[i..] else xs + [x]
  }

  /** Where `insert` puts things: `x` at `i` (or at the end), the elements before it in place, and
      the elements from it on one position further. */
  lemma InsertPlaces<T>(xs: seq<T>, i: nat, x: T)
    ensures var r, at := Insert(xs, i, x), if i < |xs| then i else |xs|;
      r[at] == x &&
      (forall k :: 0 <= k < at ==> r[k] == xs[k]) &&
      (forall k :: at <= k < |xs| ==> r[k + 1] == xs[k])
  {
  }
}
