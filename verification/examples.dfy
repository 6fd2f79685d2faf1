/**
  The converter's documented behaviour on concrete inputs, each written as
  the token stream the decoder yields for that JSON text.
 */
module ConvertExamples {
  import opened Wrappers
  import opened JsonTokens
  import opened JsonPointer
  import opened YamlNode
  import opened JsonValue
  import opened Convert
  import opened ConvertProperties

  /** `` (no tokens at all) fails as end of file. */
  lemma EmptyInput()
    ensures ConvertTokens([]).Err? && IsEOF(ConvertTokens([]).error)
  {
  }

  /** `[{` fails as end of file, with no partial tree. */
  lemma UnterminatedContainer()
    ensures ConvertTokens([ArrayStart, ObjectStart]) == Err(EOF)
    ensures IsEOF(ConvertTokens([ArrayStart, ObjectStart]).error)
  {
    ConvertTruncated(JArray([JObject([])]), [ArrayStart, ObjectStart]);
  }

  /** `[{}] {` fails on the trailing `{`, with the text "expected EOF, got {". */
  lemma TrailingContent()
    ensures ConvertTokens([ArrayStart, ObjectStart, ObjectEnd, ArrayEnd, ObjectStart]) == Err(Trailing(ObjectStart))
    ensures Message(ConvertTokens([ArrayStart, ObjectStart, ObjectEnd, ArrayEnd, ObjectStart]).error)
            == "expected EOF, got {"
  {
    TrailingObjectStart();
    TrailingText();
  }

  lemma TrailingText()
    ensures Message(Trailing(ObjectStart)) == "expected EOF, got {"
  {
    assert TokenText(ObjectStart) == "{";
  }

  lemma TrailingObjectStart()
    ensures ConvertTokens([ArrayStart, ObjectStart, ObjectEnd, ArrayEnd, ObjectStart]) == Err(Trailing(ObjectStart))
  {
    var o := JObject([]);
    var v := JArray([o]);
    assert Tokens(o) == [ObjectStart, ObjectEnd];
    assert ItemsTokens([o]) == Tokens(o) + ItemsTokens([]);
    assert Tokens(v) == [ArrayStart, ObjectStart, ObjectEnd, ArrayEnd];
    TrailingRejected(v, [ObjectStart]);
    assert Tokens(v) + [ObjectStart] == [ArrayStart, ObjectStart, ObjectEnd, ArrayEnd, ObjectStart];
  }

  /** `[{{}}]` fails on the `{` used as a member name, with the text
      "unexpected kind for mapping key: {". */
  lemma InvalidMappingKey()
    ensures ConvertTokens([ArrayStart, ObjectStart, ObjectStart, ObjectEnd, ObjectEnd, ArrayEnd])
            == Err(BadKey(ObjectStartKind))
    ensures Message(ConvertTokens([ArrayStart, ObjectStart, ObjectStart, ObjectEnd, ObjectEnd, ArrayEnd]).error)
            == "unexpected kind for mapping key: {"
  {
    BadKeyObjectStart();
    assert KindText(ObjectStartKind) == "{";
  }

  lemma BadKeyObjectStart()
    ensures ConvertTokens([ArrayStart, ObjectStart, ObjectStart, ObjectEnd, ObjectEnd, ArrayEnd])
            == Err(BadKey(ObjectStartKind))
  {
    BadKeyInArrayIsFatal([], [], ObjectStart, [ObjectEnd, ObjectEnd, ArrayEnd]);
    assert [ArrayStart] + ItemsTokens([]) + ([ObjectStart] + MembersTokens([]) + [ObjectStart] + [ObjectEnd, ObjectEnd, ArrayEnd])
           == [ArrayStart, ObjectStart, ObjectStart, ObjectEnd, ObjectEnd, ArrayEnd];
  }

  /** `{"foo":` fails with a syntax error at pointer "/foo" whose cause reads "unexpected EOF". */
  lemma InvalidMap()
    ensures ConvertTokens([ObjectStart, Str("foo")]) == Err(Syntax([Key("foo")], UnexpectedEOF))
    ensures Render(ConvertTokens([ObjectStart, Str("foo")]).error.path) == "/foo"
    ensures CauseText(ConvertTokens([ObjectStart, Str("foo")]).error.cause) == "unexpected EOF"
  {
    MemberFooMissing();
    FooPointer();
  }

  lemma FooPointer()
    ensures Render([Key("foo")]) == "/foo"
  {
    var p := [Key("foo")];
    assert p[1..] == [];
    EscapePlain("foo");
    assert Escape(ReferenceToken(p[0])) == "foo";
    assert Render(p) == "/" + "foo" + [];
  }

  lemma MemberFooMissing()
    ensures ConvertTokens([ObjectStart, Str("foo")]) == Err(Syntax([Key("foo")], UnexpectedEOF))
  {
    ConvertMemberValueMissing([], "foo");
    assert [ObjectStart] + MembersTokens([]) + [Str("foo")] == [ObjectStart, Str("foo")];
  }

  /** A document holding every kind of JSON value:
      `{"list": [1, 2.5, true, null, "s"], "obj": {"k": false}, "empty": {}, "none": []}`. */
  function SampleDocument(): Value
  {
    JObject([
      Member("list", SampleList()),
      Member("obj", JObject([Member("k", JBool(false))])),
      Member("empty", JObject([])),
      Member("none", JArray([]))])
  }

  function SampleList(): Value
  {
    JArray([JNumber("1"), JNumber("2.5"), JBool(true), JNull, JString("s")])
  }

  function SampleListNode(): Node
  {
    Sequence(Block, [
      Scalar(IntTag, "1"), Scalar(FloatTag, "2.5"), Scalar(BoolTag, "true"),
      Scalar(NullTag, "null"), Scalar(StrTag, "s")])
  }

  /** The tree the sample document is meant to become: keys in source order,
      numbers verbatim (a fraction makes a float), empty collections in flow style. */
  function SampleDocumentNode(): Node
  {
    Mapping(Block, [
      Pair(Scalar(StrTag, "list"), SampleListNode()),
      Pair(Scalar(StrTag, "obj"), Mapping(Block, [Pair(Scalar(StrTag, "k"), Scalar(BoolTag, "false"))])),
      Pair(Scalar(StrTag, "empty"), Mapping(Flow, [])),
      Pair(Scalar(StrTag, "none"), Sequence(Flow, []))])
  }

  lemma SampleListTree()
    ensures ToNode(SampleList()) == SampleListNode()
  {
    SampleNumberTags();
  }

  lemma SampleDocumentTree()
    ensures ToNode(SampleDocument()) == SampleDocumentNode()
  {
    SampleListTree();
    var ms := SampleDocument().members;
    var ps := MembersPairs(ms);
    var want := SampleDocumentNode().pairs;
    assert ps[0] == want[0];
    InnerObjectTree();
    assert ps[1] == want[1];
    EmptyTrees();
    assert ps[2] == want[2];
    assert ps[3] == want[3];
    assert ps == want;
  }

  /** Empty collections become flow-style nodes. */
  lemma EmptyTrees()
    ensures ToNode(JObject([])) == Mapping(Flow, [])
    ensures ToNode(JArray([])) == Sequence(Flow, [])
  {
  }

  lemma InnerObjectTree()
    ensures ToNode(JObject([Member("k", JBool(false))]))
            == Mapping(Block, [Pair(Scalar(StrTag, "k"), Scalar(BoolTag, "false"))])
  {
  }

  /** The sample document converts without error to its tree. */
  lemma SampleConverts()
    ensures ConvertTokens(Tokens(SampleDocument())) == Ok(SampleDocumentNode())
  {
    ConvertComplete(SampleDocument());
    SampleDocumentTree();
  }

  /** A fraction makes a float; digits alone make an int. */
  lemma SampleNumberTags()
    ensures NumberTag("2.5") == FloatTag
    ensures NumberTag("1") == IntTag
  {
    assert "2.5"[1] == '.';
    assert "1" == ['1'];
  }
}
