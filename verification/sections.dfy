/** The section transforms of the Mustache dialect. Each takes the text the
    scanner found between a tag's delimiters and returns the code fragment
    that replaces it in the generated function body, or the text itself
    when the tag is not of the transform's shape. */
module Sections {
  import opened Wrappers
  import opened Strings

  /** `/^#\w*$/`: a section opener, '#' then word characters only (possibly
      none). JavaScript's `$` without the multiline flag is the end of the
      input, so the whole text is checked. */
  predicate OpensSection(content: string) {
    |content| >= 1 && content[0] == '#' && AllWordChars(content[1..])
  }

  /** `/^\/\w*$/`: a section closer, '/' then word characters only. */
  predicate ClosesSection(content: string) {
    |content| >= 1 && content[0] == '/' && AllWordChars(content[1..])
  }

  /** The `if` transform: a section opener becomes the start of a guarded
      block on the section's name; any other text is left alone. */
  function If(content: string): (r: string)
    ensures OpensSection(content) ==> r == "if(" + content[1..] + ") {"
    ensures !OpensSection(content) ==> r == content
    ensures r != content <==> OpensSection(content)
  {
    if OpensSection(content) then "if(" + content[1..] + ") {" else content
  }

  /** The `nonfalse` transform leaves the text as it is. */
  function NonFalse(content: string): (r: string)
    ensures r == content
  {
    content
  }

  /** The `inverted` transform leaves the text as it is: an inverted section
      is told apart by the scanner, not here. */
  function Inverted(content: string): (r: string)
    ensures r == content
  {
    content
  }

  /** The `close` transform: a section closer becomes the end of a block,
      whatever name it carries; any other text is left alone. */
  function Close(content: string): (r: string)
    ensures ClosesSection(content) ==> r == "};"
    ensures !ClosesSection(content) ==> r == content
    ensures r != content <==> ClosesSection(content)
  {
    if ClosesSection(content) then "};" else content
  }

  /** Reads the guard expression back out of a generated block opener. */
  function GuardOf(code: string): Option<string> {
    if |code| >= 6 && code[..3] == "if(" && code[|code| - 3..] == ") {"
    then Some(code[3..|code| - 3])
    else None
  }

  /** The block opener carries the section's name verbatim: reading the
      guard back and putting the '#' in front restores the tag text. */
  lemma IfRoundTrip(content: string)
    requires OpensSection(content)
    ensures GuardOf(If(content)) == Some(content[1..])
    ensures "#" + GuardOf(If(content)).value == content
  {
    var code := If(content);
    assert code[..3] == "if(";
    assert code[|code| - 3..] == ") {";
    assert code[3..|code| - 3] == content[1..];
  }

  /** Hence different section openers give different block openers. */
  lemma IfInjective(a: string, b: string)
    requires OpensSection(a) && OpensSection(b)
    requires If(a) == If(b)
    ensures a == b
  {
    IfRoundTrip(a);
    IfRoundTrip(b);
  }

  /** Unlike an opener, a closer's name is discarded: any two closers give
      the same code, so nothing ties a `{{/name}}` to its `{{#name}}`. */
  lemma CloseIgnoresName(a: string, b: string)
    requires ClosesSection(a) && ClosesSection(b)
    ensures Close(a) == Close(b) == "};"
  {
  }

  /** The block opener does not itself look like a section opener, so a
      second application changes nothing. */
  lemma IfIdempotent(content: string)
    ensures If(If(content)) == If(content)
  {
    if OpensSection(content) {
      assert If(content)[0] == 'i';
    }
  }

  /** The same for the block closer. */
  lemma CloseIdempotent(content: string)
    ensures Close(Close(content)) == Close(content)
  {
    if ClosesSection(content) {
      assert Close(content)[0] == '}';
    }
  }

  /** An anonymous section is legal: "#" opens a block on an empty
      guard; text with a dot is not a section opener. */
  lemma IfExamples()
    ensures If("#") == "if() {"
    ensures If("#person") == "if(person) {"
    ensures If("#a.b") == "#a.b"
  {
    assert "#"[1..] == "";
    assert "#person"[1..] == "person";
    assert "#a.b"[2] == '.';
  }

  /** "/" and "/person" both close a block; text with a space does not. */
  lemma CloseExamples()
    ensures Close("/") == "};"
    ensures Close("/person") == "};"
    ensures Close("/a b") == "/a b"
  {
    assert "/a b"[2] == ' ';
  }
}
