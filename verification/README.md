# Mustache dialect: compile-time core

A Dafny model of the compile-time half of the Mustache template dialect in
`view/mustache/mustache.js`. This half is a set of pure string transforms
and one ordered table. The model covers:

- **Token table** (`tokens.dfy`, module `Tokens`). These are the delimiters
  the scanner looks for, in priority order. Each row is a triple: a name, a
  literal delimiter, and an optional regular-expression override kept as
  text. The table is proved priority-ordered: no delimiter is a prefix of a
  delimiter listed after it. A first-match rule over the table (`FirstMatch`)
  shows why that ordering matters. Under it, the token chosen is always the
  longest one that matches, so `{{{` wins over `{{` and `}}}` wins over `}}`.
- **Section transforms** (`sections.dfy`, module `Sections`):
  - `if` turns `#name` into `if(name) {`.
  - `close` turns `/name` into `};`, whatever the name is.
  - `nonfalse` and `inverted` return their input unchanged.
  - Content that does not match a transform's pattern comes back unchanged.
    Because JavaScript's `$` without the multiline flag means the end of the
    input, each pattern is a character-class check on the whole text.
- **Context-miss interpolation** (`context_miss.dfy`, module `ContextMiss`).
  This is `cannot`: it turns a dotted reference into the text of a guarded
  expression. `Cannot` is the reference definition, built from its parts:
  - `Head(root)` is `(typeof root != "undefined" ? `.
  - Then comes either the root itself, or the parenthesised chain of dotted
    prefixes joined by ` && ` and followed by `|| ""`.
  - `Tail` is ` : "")`.

  `CannotBuild` follows the source's own loop: it pushes pieces onto an
  array and then joins them. It is proved to produce the same text as
  `Cannot`.
- **Helper tables** (`helpers.dfy`, module `Helpers`):
  - The five built-in transforms form a closed enumeration that `Apply`
    dispatches on.
  - `Install` extends the scanner's existing helper table with those five
    transforms when the dialect loads.
  - `RegisterHelper` is a map update.
  - `HelperSet` builds the per-render `Helpers` object as a map.
- **Strings** (`strings.dfy`, module `Strings`). This module holds the `\w`
  character class and JavaScript's `join` and one-character `split`. Split
  keeps empty pieces, so n separators give n + 1 pieces. Joining the pieces
  of a split with the separator restores any text (`SplitJoinBack`).
  The other direction holds only in part: splitting a join recovers the
  parts when the list is non-empty and no part contains the separator
  (`SplitJoin`).

`wrappers.dfy` defines the `Option` type that these modules share.

Some behaviour of the code is easy to miss:

- The `Helpers` object (view/mustache/mustache.js:200-204) does not merge in
  the registered default helpers. It holds only `_data`, `_extras` and the
  extra helpers. The extras are copied in last, so an extra helper named
  `_data` or `_extras` replaces that field.
- The context-miss guard accepts `|` as well as word characters and dots.
  Inside a character class, `[\.|\w]` treats the bar as a literal
  character. `ContextMiss.CannotAcceptsBar` shows that `a|b` is accepted and
  guarded as if it were a name.
- A lone `.` is accepted too. It splits into two empty segments, so the
  generated text has an empty root (`ContextMiss.CannotLoneDot`). That text,
  `(typeof  != "undefined" ? (.) || "" : "")`, is not valid JavaScript. The
  same goes for other accepted references such as `a..b`, `.a` and `1a`. The
  comment at view/mustache/mustache.js:170 says the guard matches only words
  and dots, but it does not check that the words form names.

## Model

| member | source | states |
|---|---|---|
| Tokens.TokensPriorityOrdered | view/mustache/mustache.js:63-77 | the delimiter table, in source order, has no delimiter that is a prefix of one listed after it (so no delimiter appears twice) |
| Tokens.CheckPriority | view/mustache/mustache.js:63-64 | a decision procedure for the ordering the comment asks for, not a model of source code: it returns true exactly when a table is priority-ordered |
| Tokens.LongerDelimiterFirst | view/mustache/mustache.js:63-64 | in a priority-ordered table, a delimiter that is a prefix of another delimiter comes after it |
| Tokens.FirstMatch | view/mustache/mustache.js:63-64 | the chosen row's delimiter begins the text and no earlier row's delimiter does; no row is chosen exactly when no delimiter begins the text |
| Tokens.FirstMatchIsLongest | view/mustache/mustache.js:63-64 | in a priority-ordered table, every other delimiter that begins the text is strictly shorter than the one chosen first |
| Tokens.UnescapedBeforeEscaped | view/mustache/mustache.js:70-74 | `{{{name}}}` opens with returnLeft, not with escapeLeft |
| Tokens.UnescapedCloseBeforeClose | view/mustache/mustache.js:75-76 | `}}}` is returnRight, not right |
| Tokens.CommentBeforeEscaped | view/mustache/mustache.js:72-74 | `{{!note}}` opens with commentLeft |
| Tokens.RunBeforeEscaped | view/mustache/mustache.js:73-74 | `{{~code}}` opens with left (the run tag) |
| Tokens.PlainEscaped | view/mustache/mustache.js:74 | `{{name}}` opens with escapeLeft |
| Sections.If | view/mustache/mustache.js:112-119 | `#` followed only by word characters (possibly none) becomes `if(` + the name + `) {`; any other text comes back unchanged; the output differs from the input exactly when the input is a section opener |
| Sections.IfRoundTrip | view/mustache/mustache.js:113-115 | the guard can be read back out of the block opener, and putting `#` in front of it restores the tag text |
| Sections.IfInjective | view/mustache/mustache.js:113-115 | different section openers give different block openers |
| Sections.IfIdempotent | view/mustache/mustache.js:112-119 | applying `if` twice gives the same result as applying it once |
| Sections.NonFalse | view/mustache/mustache.js:130-132 | `nonfalse` returns its content unchanged, whatever the content |
| Sections.Inverted | view/mustache/mustache.js:143-145 | `inverted` returns its content unchanged; the inverted marker is not checked again here |
| Sections.Close | view/mustache/mustache.js:152-159 | `/` followed only by word characters becomes `};`; any other text comes back unchanged; the output differs from the input exactly when the input is a section closer |
| Sections.CloseIgnoresName | view/mustache/mustache.js:152-159 | any two section closers give the same code, so a closer is never checked against its opener |
| Sections.CloseIdempotent | view/mustache/mustache.js:152-159 | applying `close` twice gives the same result as applying it once |
| Sections.IfExamples | view/mustache/mustache.js:112-119 | `#` alone opens an anonymous block `if() {`; `#person` gives `if(person) {`; `#a.b` is not a section opener |
| Sections.CloseExamples | view/mustache/mustache.js:152-159 | `/` and `/person` both close a block; `/a b` does not |
| ContextMiss.PushChain | view/mustache/mustache.js:180-185 | the pieces pushed by the loop over the segments concatenate to the chain of dotted prefixes joined by ` && ` |
| ContextMiss.CannotBuild | view/mustache/mustache.js:169-195 | the source's push-and-join construction produces exactly the reference text `Cannot` |
| ContextMiss.CannotPassThrough | view/mustache/mustache.js:171-194 | text that is empty or contains a character other than a word character, `.` or `\|` comes back unchanged; accepted text never does |
| ContextMiss.CannotSingleSegment | view/mustache/mustache.js:174-191 | an accepted reference without a dot becomes `Head(x) + x + Tail`, that is `(typeof x != "undefined" ? x : "")` |
| ContextMiss.CannotChain | view/mustache/mustache.js:174-191 | an accepted reference with a dot has at least two segments and becomes `Head(s0)`, then `(`, then the chain joined by ` && `, then `) \|\| ""`, then `Tail` |
| ContextMiss.ChainOrdered | view/mustache/mustache.js:179-185 | the chain of an n-segment reference has n - 1 entries; each entry is a proper prefix of the next; the last entry is the whole reference |
| ContextMiss.ChainSeparators | view/mustache/mustache.js:181-184 | the joined chain of an n-segment reference contains exactly 2(n - 2) `&` characters, two for each of the n - 2 separators |
| ContextMiss.PrefixIsPrefixOfContent | view/mustache/mustache.js:183 | every dotted prefix `split.slice(0, k).join('.')` is a textual prefix of the reference |
| ContextMiss.PrefixPathGrows | view/mustache/mustache.js:183 | each dotted prefix is strictly shorter than the next one and is a prefix of it |
| ContextMiss.CannotIdempotent | view/mustache/mustache.js:169-195 | the generated text starts with `(`, which the guard rejects, so applying `cannot` twice gives the same result as applying it once |
| ContextMiss.CannotAcceptsBar | view/mustache/mustache.js:171 | `a\|b` is accepted and guarded as a single name |
| ContextMiss.CannotRejects | view/mustache/mustache.js:171-194 | `a b`, `a-b` and the empty text come back unchanged |
| ContextMiss.CannotChainExample | view/mustache/mustache.js:174-191 | `a.b.c` becomes `Head("a")` + `(a.b && a.b.c) \|\| ""` + `Tail` |
| ContextMiss.CannotLoneDot | view/mustache/mustache.js:171-191 | `.` is accepted, splits into two empty segments and becomes `Head("")` + `(.) \|\| ""` + `Tail` |
| Strings.SplitCount | view/mustache/mustache.js:174 | `split('.')` gives one more piece than there are dots |
| Strings.SplitWithSeparator | view/mustache/mustache.js:174-179 | text containing a dot splits into at least two pieces, so it takes the broken-chain branch |
| Strings.SplitPiecesClean | view/mustache/mustache.js:174 | no piece of `split('.')` contains a dot |
| Strings.SplitJoinBack | view/mustache/mustache.js:174 | joining the pieces of `split('.')` with `.` restores the text |
| Strings.SplitJoin | view/mustache/mustache.js:174 | splitting on `.` recovers the parts, provided no part contains a dot |
| Helpers.Apply | view/mustache/mustache.js:79-196 | each built-in transform rewrites its content exactly when the content has the transform's shape; `nonfalse` and `inverted` rewrite nothing |
| Helpers.ApplyIdempotent | view/mustache/mustache.js:112-195 | every built-in transform is idempotent |
| Helpers.Install | view/mustache/mustache.js:79-196 | loading the dialect adds the five built-in names to the scanner's helper table; each maps to its transform and every other entry is kept |
| Helpers.RegisterHelper | view/mustache/mustache.js:206-208 | after registration, the name maps to the function, the keys gain only that name, and every other entry is unchanged |
| Helpers.LastRegistrationWins | view/mustache/mustache.js:206-208 | registering the same name twice gives the same table as the last registration alone |
| Helpers.RegistrationsCommute | view/mustache/mustache.js:206-208 | registrations under different names can be made in either order |
| Helpers.InstalledTransforms | view/mustache/mustache.js:79-208 | after loading, each built-in name runs its transform; registering a function under that name replaces the transform |
| Helpers.HelperSet | view/mustache/mustache.js:200-204 | the object's keys are the extras plus `_data` and `_extras`; each extra appears under its own name; `_data` holds the data and `_extras` holds the extras unless an extra of the same name replaces it |

## Left out

- The scanner (`can.view.Scanner`, loaded at view/mustache/mustache.js:3) is an external collaborator and is not modelled. That includes its tokenizing, its lookup and call of helpers, and its assembly of the function body.
- Tokens.FirstMatch: picks a row by its literal delimiter only. The regular-expression overrides of `returnLeft` and `commentLeft` are kept as text but not interpreted, so the model does not show that `{{&` also opens an unescaped tag, or that a comment may begin after a newline and whitespace.
- `render` and the generated `template.fn` are left out. Running them means evaluating generated JavaScript, with its `typeof` and truthiness semantics. For the same reason, the model states the text of the context-miss expression, not the value it evaluates to.
- The constructor's overloading on `this.constructor` and on `typeof options`, and the global `window.Mustache`, are left out. Both are JavaScript object plumbing.
- `can.view.register` and its `script` and `renderer` callbacks are left out. They register the view and wrap scanner output in a string.
- `can.extend` changes the scanner prototype's shared helper table in place. The model treats that table as a map value, passed in and returned (`Install`, `RegisterHelper`), not as shared mutable state.
- Helpers.Invoke: stands in for the scanner's call of a helper only so that `InstalledTransforms` can state the dispatch. It gives no result for a registered function, because that function's code is not visible to the model.
- Sections.If: emits one `if(name) {` and nothing else. The comment at view/mustache/mustache.js:96-108 says a list section is rendered once for each item and a lambda is called with the block. This transform does neither (`Sections.IfExamples` proves `If("#person") == "if(person) {"`), so any repetition or lambda call must come from outside this file.
- Strings: a Dafny `char` is a Unicode scalar value, not a UTF-16 code unit. A character outside the Basic Multilingual Plane has length 1 here and 2 in JavaScript, and lone surrogates cannot be represented. No transform's result changes, because every text a transform rewrites is ASCII.
- Helpers.RegisterHelper: JavaScript objects are modelled as maps. `helpers[name] = fn` (view/mustache/mustache.js:207) with the name `__proto__` sets the object's prototype instead of adding a key. The model adds a key.
- Helpers.HelperSet: for the same reason, an extra helper named `__proto__` copied on by `extend` (view/mustache/mustache.js:203) becomes a key in the model, not the object's prototype.
