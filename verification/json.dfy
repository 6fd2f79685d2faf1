/**
  The JSON documents (RFC 8259) a well-formed token stream denotes, the
  token stream a decoder yields for each, and the node tree each document
  is meant to become. These are the reference definitions the converter is
  proved against.
 */
module JsonValue {
  import opened JsonTokens
  import opened YamlNode

  /** An object is an ordered list of members; a repeated name stays a separate member. */
  datatype Value =
    | JNull
    | JBool(b: bool)
    | JNumber(text: string)
    | JString(s: string)
    | JArray(items: seq<Value>)
    | JObject(members: seq<Member>)

  datatype Member = Member(key: string, value: Value)

  /** The tokens a decoder yields for a document, in document order. */
  function Tokens(v: Value): (r: seq<Token>)
    ensures |r| > 0 && !IsClose(r[0])
  {
    match v
    case JNull => [Null]
    case JBool(b) => [Bool(b)]
    case JNumber(text) => [Num(text)]
    case JString(s) => [Str(s)]
    case JArray(items) => [ArrayStart] + ItemsTokens(items) + [ArrayEnd]
    case JObject(ms) => [ObjectStart] + MembersTokens(ms) + [ObjectEnd]
  }

  function ItemsTokens(items: seq<Value>): seq<Token>
  {
    if items == [] then [] else Tokens(items[0]) + ItemsTokens(items[1..])
  }

  /** Each member contributes its name as a string token, then its value's tokens. */
  function MembersTokens(ms: seq<Member>): seq<Token>
  {
    if ms == [] then [] else [Str(ms[0].key)] + Tokens(ms[0].value) + MembersTokens(ms[1..])
  }

  /** The node tree a document is meant to become. */
  function ToNode(v: Value): Node
  {
    match v
    case JNull => NullNode()
    case JBool(b) => BoolNode(b)
    case JNumber(text) => NumberNode(text)
    case JString(s) => StringNode(s)
    case JArray(items) => SequenceNode(ItemsNodes(items))
    case JObject(ms) => MappingNode(MembersPairs(ms))
  }

  /** Array elements become sequence items one for one, in order. */
  function ItemsNodes(items: seq<Value>): (r: seq<Node>)
    ensures |r| == |items|
    ensures forall k :: 0 <= k < |items| ==> r[k] == ToNode(items[k])
  {
    if items == [] then [] else [ToNode(items[0])] + ItemsNodes(items[1..])
  }

  /** Object members become mapping pairs one for one, in source order,
      each keyed by a string scalar holding the member name. */
  function MembersPairs(ms: seq<Member>): (r: seq<Pair>)
    ensures |r| == |ms|
    ensures forall k :: 0 <= k < |ms| ==>
              r[k].key == StringNode(ms[k].key) && r[k].value == ToNode(ms[k].value)
  {
    if ms == [] then [] else [Pair(StringNode(ms[0].key), ToNode(ms[0].value))] + MembersPairs(ms[1..])
  }

  /** Reads a document back from a node tree; inverse of ToNode on the trees it builds. */
  function FromNode(n: Node): Value
  {
    match n
    case Scalar(tag, text) =>
      (match tag
       case NullTag => JNull
       case BoolTag => JBool(text == "true")
       case IntTag => JNumber(text)
       case FloatTag => JNumber(text)
       case StrTag => JString(text))
    case Sequence(_, items) =>
      JArray(seq(|items|, k requires 0 <= k < |items| => FromNode(items[k])))
    case Mapping(_, pairs) =>
      JObject(seq(|pairs|, k requires 0 <= k < |pairs| => Member(KeyText(pairs[k].key), FromNode(pairs[k].value))))
  }

  /** No information is lost: the document can be read back from its tree. */
  lemma {:induction false} FromToNode(v: Value)
    ensures FromNode(ToNode(v)) == v
  {
    match v
    case JArray(items) =>
      forall k | 0 <= k < |items| ensures FromNode(ToNode(items[k])) == items[k] {
        FromToNode(items[k]);
      }
    case JObject(ms) =>
      forall k | 0 <= k < |ms| ensures FromNode(ToNode(ms[k].value)) == ms[k].value {
        FromToNode(ms[k].value);
      }
    case _ =>
  }

  /** Every tree built from a document is in the converter's output shape. */
  lemma {:induction false} ToNodeWellFormed(v: Value)
    ensures WellFormed(ToNode(v))
  {
    match v
    case JArray(items) =>
      forall k | 0 <= k < |items| ensures WellFormed(ItemsNodes(items)[k]) {
        ToNodeWellFormed(items[k]);
      }
    case JObject(ms) =>
      forall k | 0 <= k < |ms| ensures WellFormed(MembersPairs(ms)[k].value) {
        ToNodeWellFormed(ms[k].value);
      }
    case _ =>
  }

  /** A mapping's keys are the object's member names, in source order, repeats included. */
  lemma ObjectKeysInOrder(ms: seq<Member>)
    ensures ToNode(JObject(ms)).Mapping?
    ensures KeysOf(ToNode(JObject(ms)).pairs) == seq(|ms|, k requires 0 <= k < |ms| => ms[k].key)
  {
  }
}
