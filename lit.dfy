/** Literal classification of crates/serde_valid_derive/src/attribute/common/lit.rs. */
module LitRules {
  import opened Wrappers
  import opened DeriveTypes

  /** A numeric literal, remembering whether it was written as an integer or a float. */
  datatype LitNumeric = NumericInt(intValue: int) | NumericFloat(floatText: string)

  /** `get_lit`: the literal inside a literal expression. */
  function GetLit(e: Expr): (r: Result<Lit, seq<DeriveError>>)
    ensures r.Ok? <==> e.ExprLit?
    ensures r.Ok? ==> r.value == e.lit
    ensures r.Err? ==> r.error == [LiteralOnly]
  {
    match e
    case ExprLit(lit) => Ok(lit)
    case _ => Err([LiteralOnly])
  }

  /** `get_numeric`: integer and float literals only. */
  function GetNumeric(lit: Lit): (r: Result<LitNumeric, seq<DeriveError>>)
    ensures r.Ok? <==> lit.Int? || lit.Float?
    ensures r.Ok? ==> (r.value.NumericInt? <==> lit.Int?)
    ensures r.Err? ==> r.error == [NumericLiteralOnly]
  {
    match lit
    case Int(v) => Ok(NumericInt(v))
    case Float(t) => Ok(NumericFloat(t))
    case _ => Err([NumericLiteralOnly])
  }

  /** `LitNumeric::to_tokens`: the literal written back out. */
  function NumericToLit(n: LitNumeric): Lit
  {
    match n
    case NumericInt(v) => Int(v)
    case NumericFloat(t) => Float(t)
  }

  /** `get_str`: string literals only. */
  function GetStr(lit: Lit): (r: Result<string, seq<DeriveError>>)
    ensures r.Ok? <==> lit.Str?
    ensures r.Ok? ==> r.value == lit.text
    ensures r.Err? ==> r.error == [StrLiteralOnly]
  {
    match lit
    case Str(text) => Ok(text)
    case _ => Err([StrLiteralOnly])
  }

  /** Classifying a numeric literal and writing it back gives the same literal, and back again. */
  lemma NumericRoundTrip(lit: Lit, n: LitNumeric)
    ensures GetNumeric(lit).Ok? ==> NumericToLit(GetNumeric(lit).value) == lit
    ensures GetNumeric(NumericToLit(n)) == Ok(n)
  {
  }

  /** No literal is both numeric and a string. */
  lemma NumericAndStrExclusive(lit: Lit)
    ensures !(GetNumeric(lit).Ok? && GetStr(lit).Ok?)
  {
  }
}
