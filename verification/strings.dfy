/** Character classes and the two JavaScript string operations the template
    transforms rely on: `Array.prototype.join` and `String.prototype.split`
    with a one-character separator. A string is a `seq<char>`, and Dafny's
    `char` is a Unicode scalar value, not a UTF-16 code unit as in
    JavaScript: a character outside the Basic Multilingual Plane has length
    1 here and 2 there, and a lone surrogate cannot be written at all. No
    transform's result depends on the difference, because every text a
    transform rewrites is ASCII and `substring(1)` drops an ASCII '#'. */
module Strings {

  /** `\w` in a JavaScript regular expression without the `u` or `i` flag:
      ASCII letters, ASCII digits and the underscore. */
  predicate IsWordChar(c: char) {
    ('A' <= c <= 'Z') || ('a' <= c <= 'z') || ('0' <= c <= '9') || c == '_'
  }

  /** `^\w*$`: every character is a word character (the empty string is). */
  predicate AllWordChars(s: string) {
    forall i :: 0 <= i < |s| ==> IsWordChar(s[i])
  }

  predicate IsPrefix(p: string, s: string) {
    |p| <= |s| && s[..|p|] == p
  }

  /** Two prefixes of the same text: the shorter is a prefix of the longer. */
  lemma PrefixesOfSameText(a: string, b: string, text: string)
    requires IsPrefix(a, text) && IsPrefix(b, text) && |a| <= |b|
    ensures IsPrefix(a, b)
  {
    assert b[..|a|] == text[..|b|][..|a|] == text[..|a|];
  }

  /** `parts.join(sep)`: the empty array gives "", one element gives itself. */
  function Join(parts: seq<string>, sep: string): string
  {
    if |parts| == 0 then ""
    else if |parts| == 1 then parts[0]
    else parts[0] + sep + Join(parts[1..], sep)
  }

  /** Appending one more part adds one separator and the part at the end. */
  lemma {:induction false} JoinSnoc(parts: seq<string>, x: string, sep: string)
    requires |parts| >= 1
    ensures Join(parts + [x], sep) == Join(parts, sep) + sep + x
  {
    if |parts| == 1 {
      assert parts + [x] == [parts[0], x];
      assert ([parts[0], x])[1..] == [x];
    } else {
      assert (parts + [x])[1..] == parts[1..] + [x];
      JoinSnoc(parts[1..], x, sep);
    }
  }

  /** With an empty separator, joining is plain concatenation, one part at a time. */
  lemma ConcatSnoc(parts: seq<string>, x: string)
    ensures Join(parts + [x], "") == Join(parts, "") + x
  {
    if |parts| == 0 {
      assert parts + [x] == [x];
    } else {
      JoinSnoc(parts, x, "");
    }
  }

  /** With an empty separator, joining two lists is joining each. */
  lemma {:induction false} ConcatAppend(a: seq<string>, b: seq<string>)
    ensures Join(a + b, "") == Join(a, "") + Join(b, "")
    decreases |b|
  {
    if |b| == 0 {
      assert a + b == a;
    } else {
      var init := b[..|b| - 1];
      assert b == init + [b[|b| - 1]];
      assert a + b == (a + init) + [b[|b| - 1]];
      ConcatAppend(a, init);
      ConcatSnoc(a + init, b[|b| - 1]);
      ConcatSnoc(init, b[|b| - 1]);
    }
  }

  /** `s.split(d)` for a one-character separator `d`: every occurrence of `d`
      ends a piece, empty pieces are kept, and the text after the last `d`
      is the final piece. */
  function Split(s: string, d: char): (r: seq<string>)
    ensures |r| >= 1
    decreases |s|
  {
    if |s| == 0 then [""]
    else
      var rest := Split(s[1..], d);
      if s[0] == d then [""] + rest
      else [[s[0]] + rest[0]] + rest[1..]
  }

  /** The number of occurrences of `c` in `s`. */
  function Count(s: string, c: char): nat {
    if |s| == 0 then 0 else (if s[0] == c then 1 else 0) + Count(s[1..], c)
  }

  lemma {:induction false} CountConcat(a: string, b: string, c: char)
    ensures Count(a + b, c) == Count(a, c) + Count(b, c)
  {
    if |a| > 0 {
      assert (a + b)[1..] == a[1..] + b;
      CountConcat(a[1..], b, c);
    } else {
      assert a + b == b;
    }
  }

  lemma {:induction false} CountZero(s: string, c: char)
    ensures Count(s, c) == 0 <==> c !in s
  {
    if |s| > 0 {
      CountZero(s[1..], c);
      assert s == [s[0]] + s[1..];
      assert c in s <==> s[0] == c || c in s[1..];
    }
  }

  /** `n` separators give `n + 1` pieces. */
  lemma {:induction false} SplitCount(s: string, d: char)
    ensures |Split(s, d)| == Count(s, d) + 1
    decreases |s|
  {
    if |s| > 0 {
      SplitCount(s[1..], d);
    }
  }

  /** No piece holds a separator. */
  lemma {:induction false} SplitPiecesClean(s: string, d: char)
    ensures forall i :: 0 <= i < |Split(s, d)| ==> d !in Split(s, d)[i]
    decreases |s|
  {
    if |s| > 0 {
      var rest := Split(s[1..], d);
      SplitPiecesClean(s[1..], d);
      if s[0] != d {
        var r := [[s[0]] + rest[0]] + rest[1..];
        assert forall i :: 1 <= i < |r| ==> r[i] == rest[i];
      }
    }
  }

  /** Joining the pieces back with the separator restores the text. */
  lemma {:induction false} SplitJoinBack(s: string, d: char)
    ensures Join(Split(s, d), [d]) == s
    decreases |s|
  {
    if |s| > 0 {
      assert s == [s[0]] + s[1..];
      var rest := Split(s[1..], d);
      SplitJoinBack(s[1..], d);
      if s[0] == d {
        assert ([""] + rest)[1..] == rest;
      } else {
        var r := [[s[0]] + rest[0]] + rest[1..];
        assert r[1..] == rest[1..];
        assert |rest| > 1 ==> rest == [rest[0]] + rest[1..];
      }
    }
  }

  /** A separator-free text is a single piece. */
  lemma SplitWithoutSeparator(s: string, d: char)
    requires d !in s
    ensures Split(s, d) == [s]
  {
    CountZero(s, d);
    SplitCount(s, d);
    SplitJoinBack(s, d);
  }

  /** A text holding the separator splits into at least two pieces. */
  lemma SplitWithSeparator(s: string, d: char)
    requires d in s
    ensures |Split(s, d)| >= 2
  {
    CountZero(s, d);
    SplitCount(s, d);
  }

  /** Splitting a separator-free piece followed by the separator yields the
      piece, then the pieces of the rest. */
  lemma {:induction false} SplitAfterPiece(p: string, t: string, d: char)
    requires d !in p
    ensures Split(p + [d] + t, d) == [p] + Split(t, d)
    decreases |p|
  {
    var s := p + [d] + t;
    if |p| == 0 {
      assert s == [d] + t;
      assert s[1..] == t;
    } else {
      assert s[0] == p[0] && s[1..] == p[1..] + [d] + t;
      SplitAfterPiece(p[1..], t, d);
      var rest := Split(s[1..], d);
      assert rest == [p[1..]] + Split(t, d);
      assert rest[0] == p[1..] && rest[1..] == Split(t, d);
      assert [p[0]] + p[1..] == p;
      assert Split(s, d) == [[s[0]] + rest[0]] + rest[1..];
    }
  }

  /** Splitting undoes joining when no part contains the separator. */
  lemma {:induction false} SplitJoin(parts: seq<string>, d: char)
    requires |parts| >= 1
    requires forall i :: 0 <= i < |parts| ==> d !in parts[i]
    ensures Split(Join(parts, [d]), d) == parts
  {
    if |parts| == 1 {
      SplitWithoutSeparator(parts[0], d);
    } else {
      SplitJoin(parts[1..], d);
      SplitAfterPiece(parts[0], Join(parts[1..], [d]), d);
      assert parts == [parts[0]] + parts[1..];
    }
  }

  /** When no part contains `c`, every occurrence of `c` in the joined text
      comes from a separator: there are `|parts| - 1` of them. */
  lemma {:induction false} JoinCount(parts: seq<string>, sep: string, c: char)
    requires |parts| >= 1
    requires forall i :: 0 <= i < |parts| ==> c !in parts[i]
    ensures Count(Join(parts, sep), c) == (|parts| - 1) * Count(sep, c)
  {
    var k := Count(sep, c);
    CountZero(parts[0], c);
    if |parts| > 1 {
      var tail := Join(parts[1..], sep);
      var m := |parts| - 2;
      JoinCount(parts[1..], sep, c);
      CountConcat(parts[0], sep, c);
      CountConcat(parts[0] + sep, tail, c);
      assert Count(Join(parts, sep), c) == k + m * k;
      assert (m + 1) * k == m * k + k;
    }
  }
}
