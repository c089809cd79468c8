/**
  A directive the compiler does not know: it keeps its name and renders as
  the literal text it was written with.
*/
module UnrecognisedDirective {
  import opened Wrappers
  import opened HostTypes
  import opened ExpressionTree

  /**
    The constructor: the name and the literal must each hold a non-blank
    string (null is `None`).
  */
  function Create(name: Option<string>, literal: Option<string>): (r: Result<Expr>)
    ensures r.Ok? <==> !IsNullOrWhiteSpace(name) && !IsNullOrWhiteSpace(literal)
    ensures r.Ok? ==> r.value == Unrecognised(name.value, literal.value)
    ensures IsNullOrWhiteSpace(name) ==> r == Err(ArgumentOutOfRange("name"))
    ensures !IsNullOrWhiteSpace(name) && IsNullOrWhiteSpace(literal) ==> r == Err(ArgumentOutOfRange("literal"))
  {
    if IsNullOrWhiteSpace(name) then Err(ArgumentOutOfRange("name"))
    else if IsNullOrWhiteSpace(literal) then Err(ArgumentOutOfRange("literal"))
    else Ok(Unrecognised(name.value, literal.value))
  }

  /** `Reduce()`: the literal text as a string constant. */
  function Reduce(directive: Expr): (r: Expr)
    requires directive.Unrecognised?
    ensures TypeOf(r) == TypeOf(directive) == StringTy
  {
    Const(StringLit(directive.text))
  }

  /** A directive built from a name and a literal keeps the name and renders exactly the literal. */
  lemma {:induction false} RendersItsLiteral(name: string, literal: string)
    requires !IsNullOrWhiteSpace(Some(name)) && !IsNullOrWhiteSpace(Some(literal))
    ensures Create(Some(name), Some(literal)).Ok?
    ensures Create(Some(name), Some(literal)).value.directiveName == name
    ensures Reduce(Create(Some(name), Some(literal)).value) == Const(StringLit(literal))
  {
  }

  /** An empty name or literal is never accepted. */
  lemma {:induction false} EmptyRejected(s: string)
    ensures Create(Some(""), Some(s)).Err?
    ensures Create(Some(s), Some("")).Err?
  {
  }
}
