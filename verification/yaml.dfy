/**
  The YAML document-node tree the converter builds: tagged scalars, sequences
  and mappings whose pairs keep their order. Emitting the tree as YAML text is
  the YAML library's business and is not part of this model.
 */
module YamlNode {

  /** The core-schema tag a scalar carries. */
  datatype Tag = NullTag | BoolTag | IntTag | FloatTag | StrTag

  /** Block style for non-empty collections; flow style (`{}`, `[]`) for empty ones. */
  datatype Style = Block | Flow

  datatype Node =
    | Scalar(tag: Tag, text: string)
    | Sequence(style: Style, items: seq<Node>)
    | Mapping(style: Style, pairs: seq<Pair>)

  datatype Pair = Pair(key: Node, value: Node)

  /** Block style cannot express an empty collection, so an empty one is written in flow style. */
  function StyleFor(size: nat): (s: Style)
    ensures s == Flow <==> size == 0
  {
    if size == 0 then Flow else Block
  }

  function NullNode(): Node
  {
    Scalar(NullTag, "null")
  }

  function BoolNode(b: bool): Node
  {
    Scalar(BoolTag, if b then "true" else "false")
  }

  /** A number literal with a fraction or an exponent is a float; any other is an int. */
  function NumberTag(text: string): (t: Tag)
    ensures t == IntTag || t == FloatTag
  {
    if '.' in text || 'e' in text || 'E' in text then FloatTag else IntTag
  }

  /** A number keeps its literal text verbatim; it is never re-parsed. */
  function NumberNode(text: string): Node
  {
    Scalar(NumberTag(text), text)
  }

  function StringNode(s: string): Node
  {
    Scalar(StrTag, s)
  }

  function SequenceNode(items: seq<Node>): Node
  {
    Sequence(StyleFor(|items|), items)
  }

  function MappingNode(pairs: seq<Pair>): Node
  {
    Mapping(StyleFor(|pairs|), pairs)
  }

  /** The member name a mapping key stands for. */
  function KeyText(key: Node): string
  {
    if key.Scalar? then key.text else ""
  }

  /** The key texts of a mapping's pairs, in pair order. */
  function KeysOf(pairs: seq<Pair>): seq<string>
  {
    seq(|pairs|, k requires 0 <= k < |pairs| => KeyText(pairs[k].key))
  }

  /** The shape every converted tree has: each collection is in flow style
      exactly when it is empty, and every mapping key is a string scalar. */
  predicate WellFormed(n: Node)
  {
    match n
    case Scalar(_, _) => true
    case Sequence(style, items) =>
      && style == StyleFor(|items|)
      && forall k :: 0 <= k < |items| ==> WellFormed(items[k])
    case Mapping(style, pairs) =>
      && style == StyleFor(|pairs|)
      && forall k :: 0 <= k < |pairs| ==>
           pairs[k].key.Scalar? && pairs[k].key.tag == StrTag && WellFormed(pairs[k].value)
  }
}
