/**
  The lexical events a streaming JSON decoder yields: one token per scalar,
  and a start and an end token around every object and array. Object member
  names arrive as ordinary string tokens. Lexing bytes into tokens is the
  decoder's business and is not part of this model.
 */
module JsonTokens {

  /** The kind of a token, as the decoder names it. */
  datatype Kind =
    | NullKind | FalseKind | TrueKind | StringKind | NumberKind
    | ObjectStartKind | ObjectEndKind | ArrayStartKind | ArrayEndKind

  /** A token; numbers keep their verbatim text. */
  datatype Token =
    | Null
    | Bool(b: bool)
    | Str(s: string)
    | Num(text: string)
    | ObjectStart
    | ObjectEnd
    | ArrayStart
    | ArrayEnd

  function KindOf(t: Token): Kind
  {
    match t
    case Null => NullKind
    case Bool(b) => if b then TrueKind else FalseKind
    case Str(_) => StringKind
    case Num(_) => NumberKind
    case ObjectStart => ObjectStartKind
    case ObjectEnd => ObjectEndKind
    case ArrayStart => ArrayStartKind
    case ArrayEnd => ArrayEndKind
  }

  /** A closing token can never begin a value. */
  predicate IsClose(t: Token)
  {
    t == ObjectEnd || t == ArrayEnd
  }

  /** How a kind is printed in an error message: delimiters as themselves,
      the other kinds by name. Only an object start prints as "{". */
  function KindText(k: Kind): (r: string)
    ensures r == "{" <==> k == ObjectStartKind
  {
    match k
    case NullKind => "null"
    case FalseKind => "false"
    case TrueKind => "true"
    case StringKind => "string"
    case NumberKind => "number"
    case ObjectStartKind => "{"
    case ObjectEndKind => "}"
    case ArrayStartKind => "["
    case ArrayEndKind => "]"
  }

  /** Distinct kinds print differently, so a message naming a kind names exactly one. */
  lemma KindTextInjective(k1: Kind, k2: Kind)
    ensures KindText(k1) == KindText(k2) <==> k1 == k2
  {
  }

  /** How a token is printed in an error message: a string by its contents,
      a number by its text, everything else like its kind. Of the tokens that
      carry no text of their own, only an object start prints as "{". */
  function TokenText(t: Token): (r: string)
    ensures !t.Str? && !t.Num? ==> (r == "{" <==> t == ObjectStart)
  {
    match t
    case Str(s) => s
    case Num(text) => text
    case _ => KindText(KindOf(t))
  }

  /** `rest` is what remains of `ts` after a non-empty prefix was consumed. */
  predicate ProperSuffix(rest: seq<Token>, ts: seq<Token>)
  {
    |rest| < |ts| && rest == ts[|ts| - |rest|..]
  }
}
