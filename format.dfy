/** Python's `template.format(**fields)` for templates whose replacement
    fields are plain names (`"Title: {Title}"`). The template is taken already
    split into literal text and fields; brace parsing, escapes, positional
    fields and format specs are not modelled. */
module Formatting {
  import opened Web

  datatype Piece = Literal(text: string) | Field(name: string)

  type Template = seq<Piece>

  /** `format` raises `KeyError(name)` for a field it has no argument for. */
  datatype FormatError = KeyError(name: string)

  /** Every field of `t` is one of `names`. */
  predicate FieldsIn(t: Template, names: set<string>) {
    forall i :: 0 <= i < |t| && t[i].Field? ==> t[i].name in names
  }

  /** `t.format(**args)`: literals are copied, each field is replaced by its
      argument, and the first field (left to right) without an argument raises. */
  function Format(t: Template, args: map<string, string>): (r: Result<string, FormatError>)
    ensures r.Success? <==> FieldsIn(t, args.Keys)
    ensures r.Failure? ==>
      (exists i :: 0 <= i < |t| && t[i] == Field(r.error.name) &&
         r.error.name !in args && FieldsIn(t[..i], args.Keys))
  {
    if t == [] then Success("")
    else
      var head: Result<string, FormatError> :=
        match t[0]
        case Literal(s) => Success(s)
        case Field(n) => if n in args then Success(args[n]) else Failure(KeyError(n));
      if head.Failure? then
        assert FieldsIn(t[..0], args.Keys);
        head
      else
        var rest := Format(t[1..], args);
        if rest.Failure? then
          var i :| 0 <= i < |t[1..]| && t[1..][i] == Field(rest.error.name) &&
            rest.error.name !in args && FieldsIn(t[1..][..i], args.Keys);
          assert t[..i + 1] == [t[0]] + t[1..][..i];
          rest
        else
          assert forall i :: 1 <= i < |t| ==> t[i] == t[1..][i - 1];
          Success(head.value + rest.value)
  }

  /** Formatting a concatenation of templates concatenates the results. */
  lemma {:induction false} FormatConcat(t1: Template, t2: Template, args: map<string, string>)
    requires FieldsIn(t1, args.Keys) && FieldsIn(t2, args.Keys)
    ensures Format(t1 + t2, args).Success?
    ensures Format(t1 + t2, args).value == Format(t1, args).value + Format(t2, args).value
  {
    if t1 == [] {
      assert t1 + t2 == t2;
    } else {
      assert (t1 + t2)[1..] == t1[1..] + t2;
      assert FieldsIn(t1[1..], args.Keys) by {
        forall i | 0 <= i < |t1[1..]| ensures t1[1..][i] == t1[i + 1] { }
      }
      FormatConcat(t1[1..], t2, args);
    }
  }

  /** A literal piece formats to itself and a field to its argument. */
  lemma FormatPiece(p: Piece, args: map<string, string>)
    requires p.Field? ==> p.name in args
    ensures Format([p], args) == Success(if p.Literal? then p.text else args[p.name])
  {
    assert [p][1..] == [];
    assert Format([], args) == Success("");
    var v := if p.Literal? then p.text else args[p.name];
    assert v + "" == v;
  }
}
