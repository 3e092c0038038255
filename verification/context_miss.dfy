/** The `cannot` transform: context-miss interpolation. A variable reference
    made of word characters and dots is turned into a guarded expression
    that yields "" instead of failing when the root variable is undefined or
    a deeper dotted prefix is falsy. Only the generated text is modelled,
    not its evaluation. */
module ContextMiss {
  import opened Strings

  /** `[\.|\w]`: inside a character class the bar is a literal, so a bar
      passes alongside word characters and dots. */
  predicate IsPathChar(c: char) {
    IsWordChar(c) || c == '.' || c == '|'
  }

  /** The guard of the transform: `content.match(/^\w*[\.|\w]*$/)` together
      with `content.length`. The leading `\w*` is subsumed by the class that
      follows it, so the text passes exactly when it is non-empty and every
      character is a path character. */
  predicate Accepts(content: string) {
    |content| > 0 && forall i :: 0 <= i < |content| ==> IsPathChar(content[i])
  }

  /** The dotted path made of the first `k` segments. */
  function PrefixPath(segments: seq<string>, k: nat): string
    requires 1 <= k <= |segments|
  {
    Join(segments[..k], ".")
  }

  /** The chain of a multi-segment reference: the dotted prefixes of 2, 3,
      ..., n segments, in that order. */
  function Chain(segments: seq<string>): seq<string>
    requires |segments| >= 2
  {
    seq(|segments| - 1, i requires 0 <= i < |segments| - 1 => PrefixPath(segments, i + 2))
  }

  const Tail: string := " : \"\")"

  /** The text that opens every generated expression: the defined-check on
      the root segment. */
  function Head(root: string): string {
    "(typeof " + root + " != \"undefined\" ? "
  }

  /** The guarded expression for a split reference: the root check, then
      either the root itself or the chain of dotted prefixes joined by
      " && " and defaulted to "", then the "" branch of the root check. */
  function Guarded(segments: seq<string>): string
    requires |segments| >= 1
  {
    if |segments| == 1 then Head(segments[0]) + segments[0] + Tail
    else Head(segments[0]) + "(" + Join(Chain(segments), " && ") + ") || \"\"" + Tail
  }

  /** The transform: an accepted reference is split on its dots and guarded;
      text the guard rejects is returned unchanged. */
  function Cannot(content: string): string {
    if Accepts(content) then Guarded(Split(content, '.')) else content
  }

  /** Extending the chain by one dotted prefix: the first stands alone,
      each later one follows a " && ". */
  lemma ChainSnoc(segments: seq<string>, i: nat)
    requires 1 <= i < |segments|
    ensures i == 1 ==> Join(Chain(segments)[..i], " && ") == PrefixPath(segments, 2)
    ensures i > 1 ==>
      Join(Chain(segments)[..i], " && ") == Join(Chain(segments)[..i - 1], " && ") + " && " + PrefixPath(segments, i + 1)
  {
    var chain := Chain(segments);
    if i == 1 {
      assert chain[..1] == [chain[0]];
    } else {
      assert chain[..i] == chain[..i - 1] + [chain[i - 1]];
      JoinSnoc(chain[..i - 1], chain[i - 1], " && ");
    }
  }

  /** The loop of mustache.js over the segments of a multi-segment
      reference: for each further segment it pushes " && " (except before
      the first prefix) and then the dotted prefix that ends there. The
      pieces concatenate to the chain joined by " && ". */
  method PushChain(split: seq<string>) returns (pieces: seq<string>)
    requires |split| >= 2
    ensures Join(pieces, "") == Join(Chain(split), " && ")
  {
    pieces := [];
    var i := 1;
    while i < |split|
      invariant 1 <= i <= |split|
      invariant i == 1 ==> Join(pieces, "") == ""
      invariant i > 1 ==> Join(pieces, "") == Join(Chain(split)[..i - 1], " && ")
    {
      var prefix := Join(split[..i + 1], ".");
      assert prefix == PrefixPath(split, i + 1);
      ChainSnoc(split, i);
      if i > 1 {
        ConcatSnoc(pieces, " && ");
        pieces := pieces + [" && "];
      }
      ConcatSnoc(pieces, prefix);
      pieces := pieces + [prefix];
      i := i + 1;
    }
    assert Chain(split)[..|split| - 1] == Chain(split);
  }

  /** The transform as mustache.js writes it: an array of pieces started
      with the root check, grown by `push`, closed with the "" branch and
      joined with "". */
  method CannotBuild(content: string) returns (r: string)
    ensures r == Cannot(content)
  {
    if !Accepts(content) {
      return content;
    }
    var split := Split(content, '.');
    var result := [Head(split[0])];
    if |split| > 1 {
      var pieces := PushChain(split);
      ConcatAppend(result + ["("], pieces);
      ConcatSnoc(result, "(");
      result := result + ["("] + pieces;
      ConcatSnoc(result, ") || \"\"");
      result := result + [") || \"\""];
    } else {
      ConcatSnoc(result, split[0]);
      result := result + [split[0]];
    }
    ConcatSnoc(result, Tail);
    r := Join(result + [Tail], "");
  }

  /** Text outside the accepted shape, including the empty text, passes
      through unchanged; accepted text never does. */
  lemma CannotPassThrough(content: string)
    ensures !Accepts(content) ==> Cannot(content) == content
    ensures Accepts(content) ==> Cannot(content) != content
  {
    if Accepts(content) {
      assert Cannot(content)[0] == '(';
      assert IsPathChar(content[0]);
    }
  }

  /** A reference without a dot is the root alone: it is returned when it
      is defined and "" otherwise. */
  lemma CannotSingleSegment(content: string)
    requires Accepts(content) && '.' !in content
    ensures Cannot(content) == Head(content) + content + Tail
  {
    SplitWithoutSeparator(content, '.');
  }

  /** A reference with `n >= 2` segments: after the root check comes the
      parenthesised chain of its dotted prefixes joined by " && ", then
      `|| ""` and the "" branch. */
  lemma CannotChain(content: string)
    requires Accepts(content) && '.' in content
    ensures |Split(content, '.')| >= 2
    ensures Cannot(content) ==
      Head(Split(content, '.')[0]) + "(" + Join(Chain(Split(content, '.')), " && ") + ") || \"\"" + Tail
  {
    SplitWithSeparator(content, '.');
  }

  /** Each dotted prefix is a proper prefix of the next one. */
  lemma PrefixPathGrows(segments: seq<string>, k: nat)
    requires 1 <= k < |segments|
    ensures |PrefixPath(segments, k)| < |PrefixPath(segments, k + 1)|
    ensures IsPrefix(PrefixPath(segments, k), PrefixPath(segments, k + 1))
  {
    assert segments[..k + 1] == segments[..k] + [segments[k]];
    JoinSnoc(segments[..k], segments[k], ".");
  }

  /** The chain of an n-segment reference lists n - 1 dotted prefixes, each
      a proper prefix of the next, and the last is the whole reference. */
  lemma ChainOrdered(content: string)
    requires Accepts(content) && '.' in content
    ensures |Split(content, '.')| >= 2
    ensures |Chain(Split(content, '.'))| == |Split(content, '.')| - 1
    ensures Chain(Split(content, '.'))[|Split(content, '.')| - 2] == content
    ensures forall k :: 0 <= k < |Split(content, '.')| - 2 ==>
      && |Chain(Split(content, '.'))[k]| < |Chain(Split(content, '.'))[k + 1]|
      && IsPrefix(Chain(Split(content, '.'))[k], Chain(Split(content, '.'))[k + 1])
  {
    SplitWithSeparator(content, '.');
    var segments := Split(content, '.');
    SplitJoinBack(content, '.');
    var n := |segments|;
    assert segments[..n] == segments;
    forall k | 0 <= k < n - 2
      ensures |Chain(segments)[k]| < |Chain(segments)[k + 1]|
      ensures IsPrefix(Chain(segments)[k], Chain(segments)[k + 1])
    {
      PrefixPathGrows(segments, k + 2);
    }
  }

  /** Between the n - 1 conjuncts of an n-segment reference there are
      exactly n - 2 " && ": they hold every '&' of the chain, two each. */
  lemma ChainSeparators(content: string)
    requires Accepts(content) && '.' in content
    ensures |Split(content, '.')| >= 2
    ensures Count(Join(Chain(Split(content, '.')), " && "), '&') == 2 * (|Split(content, '.')| - 2)
  {
    SplitWithSeparator(content, '.');
    var segments := Split(content, '.');
    var chain := Chain(segments);
    forall k | 0 <= k < |chain|
      ensures '&' !in chain[k]
    {
      ChainHasNoAmpersand(content, segments, k + 2);
    }
    assert Count(" && ", '&') == 2;
    JoinCount(chain, " && ", '&');
    assert |chain| - 1 == |segments| - 2;
  }

  /** A dotted prefix of an accepted reference holds no '&'. */
  lemma ChainHasNoAmpersand(content: string, segments: seq<string>, k: nat)
    requires Accepts(content) && segments == Split(content, '.')
    requires 1 <= k <= |segments|
    ensures '&' !in PrefixPath(segments, k)
  {
    PrefixIsPrefixOfContent(content, segments, k);
    var p := PrefixPath(segments, k);
    forall i | 0 <= i < |p|
      ensures p[i] != '&'
    {
      assert p[i] == content[i];
    }
  }

  /** Every dotted prefix of a reference is a prefix of its text. */
  lemma {:induction false} PrefixIsPrefixOfContent(content: string, segments: seq<string>, k: nat)
    requires segments == Split(content, '.')
    requires 1 <= k <= |segments|
    ensures IsPrefix(PrefixPath(segments, k), content)
    decreases |segments| - k
  {
    SplitJoinBack(content, '.');
    if k == |segments| {
      assert segments[..k] == segments;
    } else {
      PrefixIsPrefixOfContent(content, segments, k + 1);
      assert segments[..k + 1] == segments[..k] + [segments[k]];
      JoinSnoc(segments[..k], segments[k], ".");
      var p, q := PrefixPath(segments, k), PrefixPath(segments, k + 1);
      assert q == p + "." + segments[k];
      assert content[..|p|] == content[..|q|][..|p|] == q[..|p|] == p;
    }
  }

  /** The generated expression contains '(', which the guard rejects, so
      applying the transform twice is the same as applying it once. */
  lemma CannotIdempotent(content: string)
    ensures Cannot(Cannot(content)) == Cannot(content)
  {
    CannotPassThrough(content);
    if Accepts(content) {
      assert Cannot(content)[0] == '(';
      assert !Accepts(Cannot(content));
    }
  }

  /** The bar that the character class lets through: "a|b" is accepted
      and guarded as if it were a single name. */
  lemma CannotAcceptsBar()
    ensures Accepts("a|b") && '.' !in "a|b"
    ensures Cannot("a|b") == Head("a|b") + "a|b" + Tail
  {
    assert Accepts("a|b");
    CannotSingleSegment("a|b");
  }

  /** Rejected text: a space, an operator, or nothing at all. */
  lemma CannotRejects()
    ensures Cannot("a b") == "a b"
    ensures Cannot("a-b") == "a-b"
    ensures Cannot("") == ""
  {
    assert !IsPathChar("a b"[1]);
    assert !IsPathChar("a-b"[1]);
  }

  /** The segments of the worked example "a.b.c". */
  lemma SegmentsOfABC()
    ensures Split("a.b.c", '.') == ["a", "b", "c"]
  {
    var segments := ["a", "b", "c"];
    assert Join(segments, ".") == "a.b.c";
    SplitJoin(segments, '.');
  }

  /** The chain of the worked example "a.b.c". */
  lemma ChainOfABC()
    ensures Join(Chain(["a", "b", "c"]), " && ") == "a.b && a.b.c"
  {
    var segments := ["a", "b", "c"];
    assert segments[..2] == ["a", "b"] && segments[..3] == segments;
    assert Join(["a", "b"], ".") == "a.b";
    assert Join(segments, ".") == "a.b.c";
    assert Chain(segments) == ["a.b", "a.b.c"];
    assert Join(["a.b", "a.b.c"], " && ") == "a.b && a.b.c";
  }

  /** A worked three-segment broken chain: the root check on "a", then the
      prefixes "a.b" and "a.b.c". */
  lemma CannotChainExample()
    ensures Cannot("a.b.c") == Head("a") + "(a.b && a.b.c) || \"\"" + Tail
  {
    assert Accepts("a.b.c") && "a.b.c"[1] == '.';
    CannotChain("a.b.c");
    SegmentsOfABC();
    ChainOfABC();
  }

  /** A lone dot is accepted as well: it splits into two empty segments, so
      the generated text checks an empty root and chains on "." alone. */
  lemma CannotLoneDot()
    ensures Cannot(".") == Head("") + "(.) || \"\"" + Tail
  {
    var segments := ["", ""];
    assert Join(segments, ".") == ".";
    SplitJoin(segments, '.');
    assert Accepts(".") && "."[0] == '.';
    CannotChain(".");
    assert segments[..2] == segments;
    assert Chain(segments) == ["."];
  }
}
