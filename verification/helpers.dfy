/** The helper tables of the Mustache dialect: the scanner's table of
    content transforms (the built-in ones plus whatever `registerHelper`
    adds) and the per-render `Helpers` object. Both are modelled as map
    values rather than shared mutable objects. */
module Helpers {
  import opened Wrappers
  import Sections
  import ContextMiss

  /** The five built-in content transforms, by the name they are
      registered under. */
  datatype Transform = IfSection | NonFalseSection | InvertedSection | CloseSection | CannotTransform

  function Name(t: Transform): string {
    match t
    case IfSection => "if"
    case NonFalseSection => "nonfalse"
    case InvertedSection => "inverted"
    case CloseSection => "close"
    case CannotTransform => "cannot"
  }

  const BuiltinNames: set<string> := {"if", "nonfalse", "inverted", "close", "cannot"}

  /** Runs a built-in transform on the text between a tag's delimiters.
      Each one rewrites its input exactly when the input has the shape the
      transform looks for; `nonfalse` and `inverted` look for none. */
  function Apply(t: Transform, content: string): (r: string)
    ensures t == NonFalseSection || t == InvertedSection ==> r == content
    ensures t == IfSection ==> (r != content <==> Sections.OpensSection(content))
    ensures t == CloseSection ==> (r != content <==> Sections.ClosesSection(content))
    ensures t == CannotTransform ==> (r != content <==> ContextMiss.Accepts(content))
  {
    match t
    case IfSection => Sections.If(content)
    case NonFalseSection => Sections.NonFalse(content)
    case InvertedSection => Sections.Inverted(content)
    case CloseSection => Sections.Close(content)
    case CannotTransform =>
      ContextMiss.CannotPassThrough(content);
      ContextMiss.Cannot(content)
  }

  /** Every built-in transform is idempotent: its output, fed back to it,
      comes out unchanged. */
  lemma ApplyIdempotent(t: Transform, content: string)
    ensures Apply(t, Apply(t, content)) == Apply(t, content)
  {
    match t
    case IfSection => Sections.IfIdempotent(content);
    case CloseSection => Sections.CloseIdempotent(content);
    case CannotTransform => ContextMiss.CannotIdempotent(content);
    case NonFalseSection =>
    case InvertedSection =>
  }

  /** An entry of the scanner's helper table: one of the built-in
      transforms, or a function registered by a caller, whose code the model
      cannot see and knows only by an identity. */
  datatype Helper = Builtin(transform: Transform) | Registered(id: nat)

  /** Loading the dialect extends the scanner's existing helpers with the
      five built-in transforms, which replace any entry of the same name. */
  function Install(base: map<string, Helper>): (table: map<string, Helper>)
    ensures table.Keys == base.Keys + BuiltinNames
    ensures forall t: Transform :: Name(t) in table && table[Name(t)] == Builtin(t)
    ensures forall k :: k in base && k !in BuiltinNames ==> table[k] == base[k]
  {
    base[Name(IfSection) := Builtin(IfSection)]
        [Name(NonFalseSection) := Builtin(NonFalseSection)]
        [Name(InvertedSection) := Builtin(InvertedSection)]
        [Name(CloseSection) := Builtin(CloseSection)]
        [Name(CannotTransform) := Builtin(CannotTransform)]
  }

  /** `Mustache.registerHelper(name, fn)`: the table maps `name` to `fn`,
      replacing any earlier entry, and every other entry stays as it was. */
  function RegisterHelper<H>(table: map<string, H>, name: string, fn: H): (table': map<string, H>)
    ensures name in table' && table'[name] == fn
    ensures table'.Keys == table.Keys + {name}
    ensures forall k :: k in table && k != name ==> table'[k] == table[k]
  {
    table[name := fn]
  }

  /** Registering under the same name twice: the last registration wins and
      the first leaves no trace. */
  lemma LastRegistrationWins<H>(table: map<string, H>, name: string, f: H, g: H)
    ensures RegisterHelper(RegisterHelper(table, name, f), name, g) == RegisterHelper(table, name, g)
  {
  }

  /** Registrations under different names do not interfere: their order
      does not matter. */
  lemma RegistrationsCommute<H>(table: map<string, H>, a: string, f: H, b: string, g: H)
    requires a != b
    ensures RegisterHelper(RegisterHelper(table, a, f), b, g) == RegisterHelper(RegisterHelper(table, b, g), a, f)
  {
  }

  /** The text a built-in entry of the table makes of `content`; a
      registered function, or a missing name, gives no result here. Whatever
      a built-in entry produces is a fixed point of that same entry. */
  function Invoke(table: map<string, Helper>, name: string, content: string): (r: Option<string>)
    ensures r.Some? ==> name in table && table[name].Builtin?
    ensures r.Some? ==> Apply(table[name].transform, r.value) == r.value
  {
    if name in table && table[name].Builtin? then
      ApplyIdempotent(table[name].transform, content);
      Some(Apply(table[name].transform, content))
    else None
  }

  /** After loading, each built-in name runs its transform whatever the
      scanner's table held before; registering a function under a built-in
      name replaces the transform. */
  lemma InstalledTransforms(base: map<string, Helper>, t: Transform, content: string, id: nat)
    ensures Invoke(Install(base), Name(t), content) == Some(Apply(t, content))
    ensures Invoke(RegisterHelper(Install(base), Name(t), Registered(id)), Name(t), content) == None
  {
  }

  /** A member of the per-render `Helpers` object: the render's data under
      `_data`, the extra helpers object under `_extras`, and each extra
      helper under its own name. */
  datatype Member<D, H> = Data(data: D) | Extras(extras: map<string, H>) | ExtraHelper(fn: H)

  /** `new Mustache.Helpers(data, extras)`: `_data` and `_extras` are set
      first, then every extra helper is copied on, so an extra named
      `_data` or `_extras` overwrites the field of that name. */
  function HelperSet<D, H>(data: D, extras: map<string, H>): (r: map<string, Member<D, H>>)
    ensures r.Keys == extras.Keys + {"_data", "_extras"}
    ensures forall k :: k in extras ==> r[k] == ExtraHelper(extras[k])
    ensures "_data" !in extras ==> r["_data"] == Data(data)
    ensures "_extras" !in extras ==> r["_extras"] == Extras(extras)
  {
    map["_data" := Data(data), "_extras" := Extras(extras)] + map k | k in extras :: ExtraHelper(extras[k])
  }
}
