/** The Mustache dialect's token table: the delimiters the scanner looks for,
    tried in the order listed. The order is a priority: where one delimiter
    is a prefix of another ("{{" of "{{{"), the longer one must be listed
    first, or the scanner would stop at the shorter one. */
module Tokens {
  import opened Wrappers
  import opened Strings

  /** One row of the table: the token's name, its literal delimiter, and an
      optional regular expression (kept as its source text) that the scanner
      uses instead of the literal to recognise the token. */
  datatype Token = Token(name: string, literal: string, pattern: Option<string>)

  const Table: seq<Token> := [
    Token("templateLeft", "{{$", None),
    Token("templateRight", "$}}", None),
    Token("returnLeft", "{{{", Some("{{[{&]")),
    Token("commentLeft", "{{!", Some("(\\n[\\s\\t]*{{!|{{!)")),
    Token("left", "{{~", None),
    Token("escapeLeft", "{{", None),
    Token("returnRight", "}}}", None),
    Token("right", "}}", None)
  ]

  /** No delimiter is a prefix of a delimiter listed after it (so, in
      particular, no delimiter is listed twice). */
  predicate PriorityOrdered(ts: seq<Token>) {
    forall i, j :: 0 <= i < j < |ts| ==> !IsPrefix(ts[i].literal, ts[j].literal)
  }

  /** Decides the priority ordering of a table, pair by pair. */
  method CheckPriority(ts: seq<Token>) returns (ok: bool)
    ensures ok <==> PriorityOrdered(ts)
  {
    var j := 0;
    while j < |ts|
      invariant 0 <= j <= |ts|
      invariant forall i, k :: 0 <= i < k < j ==> !IsPrefix(ts[i].literal, ts[k].literal)
    {
      var i := 0;
      while i < j
        invariant 0 <= i <= j
        invariant forall h :: 0 <= h < i ==> !IsPrefix(ts[h].literal, ts[j].literal)
      {
        if IsPrefix(ts[i].literal, ts[j].literal) {
          return false;
        }
        i := i + 1;
      }
      j := j + 1;
    }
    return true;
  }

  /** The table of mustache.js is priority-ordered. */
  lemma TokensPriorityOrdered()
    ensures PriorityOrdered(Table)
  {
    forall i, j | 0 <= i < j < |Table|
      ensures !IsPrefix(Table[i].literal, Table[j].literal)
    {
      var a, b := Table[i].literal, Table[j].literal;
      if |a| <= |b| {
        // the two delimiters differ within the shorter one
        var k := if a[0] != b[0] then 0 else if a[1] != b[1] then 1 else 2;
        assert k < |a| && a[k] != b[k];
        assert b[..|a|][k] == b[k];
      }
    }
  }

  /** In a priority-ordered table, a delimiter that is a prefix of another
      delimiter is listed after it. */
  lemma LongerDelimiterFirst(ts: seq<Token>, i: nat, j: nat)
    requires PriorityOrdered(ts)
    requires i < |ts| && j < |ts| && i != j
    requires IsPrefix(ts[j].literal, ts[i].literal)
    ensures i < j
  {
  }

  /** The first row, in table order, whose literal delimiter begins `text`.
      The regular-expression overrides are not interpreted. */
  function FirstMatch(ts: seq<Token>, text: string): (r: Option<nat>)
    ensures r.Some? ==> r.value < |ts| && IsPrefix(ts[r.value].literal, text)
    ensures r.Some? ==> forall j :: 0 <= j < r.value ==> !IsPrefix(ts[j].literal, text)
    ensures r.None? <==> forall j :: 0 <= j < |ts| ==> !IsPrefix(ts[j].literal, text)
  {
    if |ts| == 0 then None
    else if IsPrefix(ts[0].literal, text) then Some(0)
    else
      match FirstMatch(ts[1..], text)
      case None => None
      case Some(i) => Some(i + 1)
  }

  /** Priority ordering makes first-match the longest match: every other
      delimiter that also begins `text` is strictly shorter than the one
      chosen. */
  lemma FirstMatchIsLongest(ts: seq<Token>, text: string, i: nat)
    requires PriorityOrdered(ts)
    requires FirstMatch(ts, text) == Some(i)
    ensures forall j :: 0 <= j < |ts| && j != i && IsPrefix(ts[j].literal, text) ==>
      |ts[j].literal| < |ts[i].literal|
  {
    forall j | 0 <= j < |ts| && j != i && IsPrefix(ts[j].literal, text)
      ensures |ts[j].literal| < |ts[i].literal|
    {
      assert i < j;
      if |ts[i].literal| <= |ts[j].literal| {
        PrefixesOfSameText(ts[i].literal, ts[j].literal, text);
        assert false;
      }
    }
  }

  /** `i` is the first match when its delimiter begins `text` and no
      earlier one does. */
  lemma FirstMatchAt(ts: seq<Token>, text: string, i: nat)
    requires i < |ts| && IsPrefix(ts[i].literal, text)
    requires forall j :: 0 <= j < i ==> !IsPrefix(ts[j].literal, text)
    ensures FirstMatch(ts, text) == Some(i)
  {
    assert FirstMatch(ts, text).Some?;
  }

  /** A triple brace opens an unescaped tag rather than an escaped tag
      whose content starts with a brace. */
  lemma UnescapedBeforeEscaped()
    ensures FirstMatch(Table, "{{{name}}}") == Some(2) && Table[2].name == "returnLeft"
  {
    var t := "{{{name}}}";
    assert t[..3] == "{{{" && t[2] != '$' && t[0] != '$';
    FirstMatchAt(Table, t, 2);
  }

  /** "}}}" closes an unescaped tag rather than an escaped one. */
  lemma UnescapedCloseBeforeClose()
    ensures FirstMatch(Table, "}}}") == Some(6) && Table[6].name == "returnRight"
  {
    var u := "}}}";
    assert u[..3] == "}}}";
    assert forall j :: 0 <= j < 6 ==> Table[j].literal[0] != '}';
    FirstMatchAt(Table, u, 6);
  }

  /** "{{!" opens a comment rather than an escaped tag. */
  lemma CommentBeforeEscaped()
    ensures FirstMatch(Table, "{{!note}}") == Some(3) && Table[3].name == "commentLeft"
  {
    var c := "{{!note}}";
    assert c[..3] == "{{!" && c[2] == '!' && c[0] == '{';
    FirstMatchAt(Table, c, 3);
  }

  /** "{{~" opens a run tag rather than an escaped tag. */
  lemma RunBeforeEscaped()
    ensures FirstMatch(Table, "{{~code}}") == Some(4) && Table[4].name == "left"
  {
    var r := "{{~code}}";
    assert r[..3] == "{{~" && r[2] == '~' && r[0] == '{';
    FirstMatchAt(Table, r, 4);
  }

  /** A plain double brace opens an escaped tag. */
  lemma PlainEscaped()
    ensures FirstMatch(Table, "{{name}}") == Some(5) && Table[5].name == "escapeLeft"
  {
    var e := "{{name}}";
    assert e[..2] == "{{" && e[2] == 'n' && e[0] == '{';
    FirstMatchAt(Table, e, 5);
  }
}
