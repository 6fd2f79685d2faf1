/**
  The JSON-to-YAML tree builder: a recursive descent over the decoder's token
  stream that builds one node per JSON value, then insists the stream holds
  nothing after the top-level value.

  Where the stream ends early is this model's choice, fitted to the two
  cut-short inputs the repository's tests pin down: it ends where a member
  name, an element or a closing token would come (`[{`), which gives plain end
  of input; or it ends where a member's value would come (`{"foo":`), which
  gives a syntax error at that member's pointer. The separators `,` and `:`
  are not tokens here, so the model cannot tell `{"foo"` from `{"foo":`.
 */
module Convert {
  import opened Wrappers
  import opened JsonTokens
  import opened JsonPointer
  import opened YamlNode

  /** What the decoder says is wrong at a syntax error. */
  datatype Cause = UnexpectedEOF | UnexpectedToken(kind: Kind)

  /** Every way a conversion fails. */
  datatype Error =
    | EOF                              // the stream ended before any value or inside a container
    | Syntax(path: Path, cause: Cause) // the decoder rejected the stream at `path`
    | BadKey(kind: Kind)               // a token that is not a string where a member name belongs
    | Trailing(token: Token)           // a token after the complete top-level value

  /** The caller's "is it end of file" test: it holds for exactly the error
      whose text is that of end of file. */
  predicate IsEOF(e: Error)
    ensures IsEOF(e) <==> Message(e) == "EOF"
  {
    e == EOF
  }

  /** The stream was cut short: more tokens could have completed the document
      (for a failed conversion the two are equivalent). */
  predicate Truncated(e: Error)
  {
    e == EOF || (e.Syntax? && e.cause == UnexpectedEOF)
  }

  /** The text of a syntax error's cause; "unexpected EOF" names a cut-short stream and nothing else. */
  function CauseText(c: Cause): (r: string)
    ensures r == "unexpected EOF" <==> c == UnexpectedEOF
  {
    match c
    case UnexpectedEOF => "unexpected EOF"
    case UnexpectedToken(k) => "unexpected " + KindText(k)
  }

  const TrailingPrefix := "expected EOF, got "
  const BadKeyPrefix := "unexpected kind for mapping key: "

  /** The error's text; for a syntax error, the text of its underlying cause.
      The text tells the error classes apart. */
  function Message(e: Error): (r: string)
    ensures e.Trailing? <==> |r| >= |TrailingPrefix| && r[..|TrailingPrefix|] == TrailingPrefix
    ensures e.BadKey? <==> |r| >= |BadKeyPrefix| && r[..|BadKeyPrefix|] == BadKeyPrefix
  {
    match e
    case EOF => "EOF"
    case Syntax(_, c) => CauseText(c)
    case BadKey(k) =>
      var r := BadKeyPrefix + KindText(k);
      assert r[0] != TrailingPrefix[0];
      r
    case Trailing(t) =>
      var r := TrailingPrefix + TokenText(t);
      assert r[0] != BadKeyPrefix[0];
      r
  }

  /** Errors the builder can raise while reading one value below `path`. */
  predicate BuilderError(e: Error, path: Path)
  {
    && !e.Trailing?
    && (e.Syntax? ==> path <= e.path)
  }

  /** An error raised inside a container at `path`: a syntax error lies strictly below it. */
  predicate InnerError(e: Error, path: Path)
  {
    BuilderError(e, path) && (e.Syntax? ==> |path| < |e.path|)
  }

  /** The tokens consumed before `rest` end with the closing token `close`. */
  predicate ClosedBy(rest: seq<Token>, ts: seq<Token>, close: Token)
  {
    |rest| < |ts| && ts[|ts| - |rest| - 1] == close
  }

  /** Reads one value whose pointer is `path`; returns its node and the tokens after it. */
  function ParseValue(ts: seq<Token>, path: Path): (r: Result<(Node, seq<Token>), Error>)
    ensures r.Ok? ==> ProperSuffix(r.value.1, ts) && WellFormed(r.value.0)
    ensures r.Err? ==> BuilderError(r.error, path)
    decreases |ts|, 1
  {
    if ts == [] then
      Err(if path == [] then EOF else Syntax(path, UnexpectedEOF))
    else
      match ts[0]
      case Null => Ok((NullNode(), ts[1..]))
      case Bool(b) => Ok((BoolNode(b), ts[1..]))
      case Num(text) => Ok((NumberNode(text), ts[1..]))
      case Str(s) => Ok((StringNode(s), ts[1..]))
      case ObjectStart =>
        var members :- ParseMembers(ts[1..], path);
        Ok((MappingNode(members.0), members.1))
      case ArrayStart =>
        var elements :- ParseElements(ts[1..], path, 0);
        Ok((SequenceNode(elements.0), elements.1))
      case ObjectEnd => Err(Syntax(path, UnexpectedToken(ObjectEndKind)))
      case ArrayEnd => Err(Syntax(path, UnexpectedToken(ArrayEndKind)))
  }

  /** Reads the members of an object up to and including its closing token. */
  function ParseMembers(ts: seq<Token>, path: Path): (r: Result<(seq<Pair>, seq<Token>), Error>)
    ensures r.Ok? ==> ProperSuffix(r.value.1, ts) && WellFormed(MappingNode(r.value.0))
    ensures r.Ok? ==> ClosedBy(r.value.1, ts, ObjectEnd)
    ensures r.Err? ==> InnerError(r.error, path)
    decreases |ts|, 0
  {
    if ts == [] then Err(EOF)
    else
      match ts[0]
      case ObjectEnd => Ok(([], ts[1..]))
      case Str(name) =>
        var value :- ParseValue(ts[1..], path + [Key(name)]);
        var members :- ParseMembers(value.1, path);
        Ok(([Pair(StringNode(name), value.0)] + members.0, members.1))
      case _ => Err(BadKey(KindOf(ts[0])))
  }

  /** Reads the elements of an array, the first at index `i`, up to and including its closing token. */
  function ParseElements(ts: seq<Token>, path: Path, i: nat): (r: Result<(seq<Node>, seq<Token>), Error>)
    ensures r.Ok? ==> ProperSuffix(r.value.1, ts) && WellFormed(SequenceNode(r.value.0))
    ensures r.Ok? ==> ClosedBy(r.value.1, ts, ArrayEnd)
    ensures r.Err? ==> InnerError(r.error, path)
    decreases |ts|, 2
  {
    if ts == [] then Err(EOF)
    else if ts[0] == ArrayEnd then Ok(([], ts[1..]))
    else
      var item :- ParseValue(ts, path + [Index(i)]);
      var items :- ParseElements(item.1, path, i + 1);
      Ok(([item.0] + items.0, items.1))
  }

  /** Converts a whole token stream: exactly one value, then the end of the stream. */
  function ConvertTokens(ts: seq<Token>): (r: Result<Node, Error>)
    ensures r.Ok? ==> WellFormed(r.value)
    ensures r.Err? && r.error.Trailing? ==> |ts| > 1 && r.error.token in ts[1..]
  {
    var value :- ParseValue(ts, []);
    if value.1 == [] then Ok(value.0) else Err(Trailing(value.1[0]))
  }
}
