/** Python's `template.format(*args)` for templates whose only replacement
    fields are automatically numbered `{}`: each field takes the next
    argument, the arguments are inserted verbatim (braces in them are not
    re-read), unused arguments are ignored, and running out of arguments
    raises IndexError, which is `None` here. */
module StrFormat {
  import opened Options

  const Field: string := "{}"

  predicate FieldAt(t: string) {
    |t| >= 2 && t[0] == '{' && t[1] == '}'
  }

  /** The number of `{}` fields, read left to right as `format` reads them. */
  function FieldCount(t: string): nat
    decreases |t|
  {
    if |t| == 0 then 0
    else if FieldAt(t) then 1 + FieldCount(t[2..])
    else FieldCount(t[1..])
  }

  function Prepend(p: string, o: Option<string>): Option<string> {
    match o
    case Some(s) => Some(p + s)
    case None => None
  }

  function Format(template: string, args: seq<string>): (r: Option<string>)
    ensures r.None? <==> FieldCount(template) > |args|
    decreases |template|
  {
    if |template| == 0 then Some("")
    else if FieldAt(template) then
      if |args| == 0 then None
      else Prepend(args[0], Format(template[2..], args[1..]))
    else Prepend([template[0]], Format(template[1..], args))
  }

  /** Text with no brace in it: `format` copies it unchanged. */
  predicate Literal(p: string) {
    '{' !in p && '}' !in p
  }

  lemma {:induction false} FormatLiteralPrefix(p: string, t: string, args: seq<string>)
    requires Literal(p)
    ensures Format(p + t, args) == Prepend(p, Format(t, args))
    decreases |p|
  {
    if |p| > 0 {
      var s := p + t;
      assert s[0] == p[0] && !FieldAt(s);
      assert s[1..] == p[1..] + t;
      FormatLiteralPrefix(p[1..], t, args);
      assert Format(s, args) == Prepend([p[0]], Prepend(p[1..], Format(t, args)));
      match Format(t, args)
      case Some(r) => assert [p[0]] + (p[1..] + r) == p + r;
      case None =>
    } else {
      assert p + t == t;
      match Format(t, args)
      case Some(r) => assert p + r == r;
      case None =>
    }
  }

  /** A literal piece followed by a field: the piece is copied and the
      field takes the first argument; the rest of the template is formatted
      with the remaining arguments. */
  lemma {:induction false} FormatField(p: string, t: string, args: seq<string>)
    requires Literal(p) && |args| >= 1
    ensures Format(p + Field + t, args) == Prepend(p + args[0], Format(t, args[1..]))
  {
    assert p + Field + t == p + (Field + t);
    FormatLiteralPrefix(p, Field + t, args);
    assert FieldAt(Field + t) && (Field + t)[2..] == t;
    match Format(t, args[1..])
    case Some(r) => assert p + (args[0] + r) == p + args[0] + r;
    case None =>
  }

  /** A template that ends in its last field takes exactly that argument there. */
  lemma FormatLastField(p: string, args: seq<string>)
    requires Literal(p) && |args| >= 1
    ensures Format(p + Field, args) == Some(p + args[0])
  {
    FormatField(p, "", args);
    assert p + Field + "" == p + Field;
    assert p + args[0] + "" == p + args[0];
  }
}
