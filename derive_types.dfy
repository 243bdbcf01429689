/** Stand-ins for the syn values and diagnostics the derive front end works
    on. Parsing and spans are not modelled: a parsed attribute is given as the
    value syn would have produced. */
module DeriveTypes {
  import opened Wrappers

  /** Rust literals (`syn::Lit`). */
  datatype Lit =
    | Str(text: string)
    | ByteStr(bytes: seq<bv8>)
    | CStr(cbytes: seq<bv8>)
    | Byte(byte: bv8)
    | Char(ch: char)
    | Int(intValue: int)
    | Float(floatText: string)
    | Bool(boolValue: bool)
    | Verbatim(tokens: string)

  /** Expressions (`syn::Expr`): only whether it is a literal matters here. */
  datatype Expr = ExprLit(lit: Lit) | OtherExpr(tokens: string)

  /** One nested item of an attribute list (`syn::Meta`), named by its single-identifier path. */
  datatype Meta =
    | MetaPath(path: string)
    | MetaList(path: string, tokens: string)
    | MetaNameValue(path: string, value: Expr)

  /** The shape of a whole `#[validate ...]` attribute; for a list, the result of parsing
      its arguments as comma-separated metas. */
  datatype AttributeMeta =
    | AttrPath
    | AttrList(nested: Result<seq<Meta>, string>)
    | AttrNameValue(value: Expr)

  datatype Attribute = Attribute(path: string, meta: AttributeMeta)

  /** The compile-time diagnostics the modelled code produces. */
  datatype DeriveError =
    | LiteralOnly
    | NumericLiteralOnly
    | StrLiteralOnly
    | ValidateMetaNameValueNotSupported
    | ValidateAttributeParseError(reason: string)
    | FieldValidationTypeRequired
    | ValidateCustomDoesNotSupportCustomMessage(item: Meta)
    | TooManyListItems(item: Meta)
    | MetaPathValidationNeedValue(name: string)
    | MetaListValidationNeedValue(name: string)
    | MetaNameValueValidationNeedValue(name: string)
    | FieldValidationTypeUnknown(name: string)
    | Reported(text: string)

  datatype Warning = Warning(text: string)

  /** A result together with the warnings gathered while producing it. */
  datatype WithWarnings<T> = WithWarnings(data: T, warnings: seq<Warning>)
}
