/**
  What the tree builder guarantees for every token stream: it accepts exactly
  the token streams of JSON documents and builds each document's reference
  tree; it rejects a cut-short document as truncated, anything after the
  top-level value as trailing content, and a non-string member name as a bad
  key at any depth of nesting (`BadKeyFatalAtAnyDepth`).
 */
module ConvertProperties {
  import opened Wrappers
  import opened JsonTokens
  import opened JsonPointer
  import opened YamlNode
  import opened JsonValue
  import opened Convert

  // ---------------------------------------------------------------------------
  // One step of the builder, each read's result in terms of the reads it makes.
  // ---------------------------------------------------------------------------

  lemma ObjectStep(ts: seq<Token>, path: Path)
    requires ts != [] && ts[0] == ObjectStart
    ensures var rm := ParseMembers(ts[1..], path);
            ParseValue(ts, path) == if rm.Ok? then Ok((MappingNode(rm.value.0), rm.value.1)) else Err(rm.error)
  {
  }

  lemma ArrayStep(ts: seq<Token>, path: Path)
    requires ts != [] && ts[0] == ArrayStart
    ensures var re := ParseElements(ts[1..], path, 0);
            ParseValue(ts, path) == if re.Ok? then Ok((SequenceNode(re.value.0), re.value.1)) else Err(re.error)
  {
  }

  lemma MemberStep(ts: seq<Token>, path: Path)
    requires ts != [] && ts[0].Str?
    ensures var rv := ParseValue(ts[1..], path + [Key(ts[0].s)]);
            ParseMembers(ts, path) ==
              if rv.Err? then Err(rv.error)
              else
                var rm := ParseMembers(rv.value.1, path);
                if rm.Err? then Err(rm.error)
                else Ok(([Pair(StringNode(ts[0].s), rv.value.0)] + rm.value.0, rm.value.1))
  {
  }

  lemma ElementStep(ts: seq<Token>, path: Path, i: nat)
    requires ts != [] && ts[0] != ArrayEnd
    ensures var rv := ParseValue(ts, path + [Index(i)]);
            ParseElements(ts, path, i) ==
              if rv.Err? then Err(rv.error)
              else
                var re := ParseElements(rv.value.1, path, i + 1);
                if re.Err? then Err(re.error)
                else Ok(([rv.value.0] + re.value.0, re.value.1))
  {
  }

  // ---------------------------------------------------------------------------
  // Completeness: a document's tokens, followed by anything, parse to its tree.
  // ---------------------------------------------------------------------------

  lemma {:induction false} ParseValueComplete(v: Value, rest: seq<Token>, path: Path)
    ensures ParseValue(Tokens(v) + rest, path) == Ok((ToNode(v), rest))
    decreases v
  {
    var ts := Tokens(v) + rest;
    match v
    case JArray(items) =>
      ArrayTokens(items, rest);
      ParseElementsComplete(items, rest, path, 0);
      ArrayStep(ts, path);
    case JObject(ms) =>
      ObjectTokens(ms, rest);
      ParseMembersComplete(ms, rest, path);
      ObjectStep(ts, path);
    case _ =>
      assert ts[1..] == rest;
  }

  lemma {:induction false} ParseMembersComplete(ms: seq<Member>, rest: seq<Token>, path: Path)
    ensures ParseMembers(MembersTokens(ms) + [ObjectEnd] + rest, path) == Ok((MembersPairs(ms), rest))
    decreases ms
  {
    var ts := MembersTokens(ms) + [ObjectEnd] + rest;
    if ms == [] {
      assert ts == [ObjectEnd] + rest;
    } else {
      var tail := MembersTokens(ms[1..]) + [ObjectEnd] + rest;
      assert ts == [Str(ms[0].key)] + (Tokens(ms[0].value) + tail);
      assert ts[1..] == Tokens(ms[0].value) + tail;
      ParseValueComplete(ms[0].value, tail, path + [Key(ms[0].key)]);
      ParseMembersComplete(ms[1..], rest, path);
      MemberStep(ts, path);
      assert MembersPairs(ms) == [Pair(StringNode(ms[0].key), ToNode(ms[0].value))] + MembersPairs(ms[1..]);
    }
  }

  lemma {:induction false} ParseElementsComplete(items: seq<Value>, rest: seq<Token>, path: Path, i: nat)
    ensures ParseElements(ItemsTokens(items) + [ArrayEnd] + rest, path, i) == Ok((ItemsNodes(items), rest))
    decreases items
  {
    var ts := ItemsTokens(items) + [ArrayEnd] + rest;
    if items == [] {
      assert ts == [ArrayEnd] + rest;
    } else {
      var tail := ItemsTokens(items[1..]) + [ArrayEnd] + rest;
      assert ts == Tokens(items[0]) + tail;
      assert ts[0] == Tokens(items[0])[0];
      ParseValueComplete(items[0], tail, path + [Index(i)]);
      ParseElementsComplete(items[1..], rest, path, i + 1);
      ElementStep(ts, path, i);
      assert ItemsNodes(items) == [ToNode(items[0])] + ItemsNodes(items[1..]);
    }
  }

  /** Every JSON document converts, to exactly its reference tree. */
  lemma ConvertComplete(v: Value)
    ensures ConvertTokens(Tokens(v)) == Ok(ToNode(v))
  {
    ParseValueComplete(v, [], []);
    assert Tokens(v) + [] == Tokens(v);
  }

  /** Any token after a complete top-level value is rejected, and it is the one reported. */
  lemma TrailingRejected(v: Value, rest: seq<Token>)
    requires rest != []
    ensures ConvertTokens(Tokens(v) + rest) == Err(Trailing(rest[0]))
  {
    ParseValueComplete(v, rest, []);
  }

  // ---------------------------------------------------------------------------
  // Soundness: whatever parses is a document's tokens, and yields its tree.
  // ---------------------------------------------------------------------------

  lemma {:induction false} ParseValueSound(ts: seq<Token>, path: Path)
    requires ParseValue(ts, path).Ok?
    ensures exists v :: ts == Tokens(v) + ParseValue(ts, path).value.1 && ParseValue(ts, path).value.0 == ToNode(v)
    decreases |ts|, 2
  {
    var r := ParseValue(ts, path);
    assert ts == [ts[0]] + ts[1..];
    match ts[0]
    case ObjectStart => ObjectSound(ts, path);
    case ArrayStart => ArraySound(ts, path);
    case Bool(b) =>
      assert ts == Tokens(JBool(b)) + r.value.1 && r.value.0 == ToNode(JBool(b));
    case Null =>
      assert ts == Tokens(JNull) + r.value.1 && r.value.0 == ToNode(JNull);
    case Num(text) =>
      assert ts == Tokens(JNumber(text)) + r.value.1 && r.value.0 == ToNode(JNumber(text));
    case Str(s) =>
      assert ts == Tokens(JString(s)) + r.value.1 && r.value.0 == ToNode(JString(s));
    case ObjectEnd =>
      assert false;
    case ArrayEnd =>
      assert false;
  }

  lemma {:induction false} ObjectSound(ts: seq<Token>, path: Path)
    requires ts != [] && ts[0] == ObjectStart && ParseValue(ts, path).Ok?
    ensures exists v :: ts == Tokens(v) + ParseValue(ts, path).value.1 && ParseValue(ts, path).value.0 == ToNode(v)
    decreases |ts|, 1
  {
    var r := ParseValue(ts, path);
    var rm := ParseMembers(ts[1..], path);
    ObjectStep(ts, path);
    ParseMembersSound(ts[1..], path);
    var ms :| ts[1..] == MembersTokens(ms) + [ObjectEnd] + rm.value.1 && rm.value.0 == MembersPairs(ms);
    ObjectAssembled(ts, ms, r.value.1, r.value.0);
  }

  lemma {:induction false} ArraySound(ts: seq<Token>, path: Path)
    requires ts != [] && ts[0] == ArrayStart && ParseValue(ts, path).Ok?
    ensures exists v :: ts == Tokens(v) + ParseValue(ts, path).value.1 && ParseValue(ts, path).value.0 == ToNode(v)
    decreases |ts|, 1
  {
    var r := ParseValue(ts, path);
    var re := ParseElements(ts[1..], path, 0);
    ArrayStep(ts, path);
    ParseElementsSound(ts[1..], path, 0);
    var items :| ts[1..] == ItemsTokens(items) + [ArrayEnd] + re.value.1 && re.value.0 == ItemsNodes(items);
    ArrayAssembled(ts, items, r.value.1, r.value.0);
  }

  // Assembling the document a successful read consumed, from its parts.

  lemma ObjectAssembled(ts: seq<Token>, ms: seq<Member>, rest: seq<Token>, node: Node)
    requires ts != [] && ts[0] == ObjectStart
    requires ts[1..] == MembersTokens(ms) + [ObjectEnd] + rest
    requires node == MappingNode(MembersPairs(ms))
    ensures exists v :: ts == Tokens(v) + rest && node == ToNode(v)
  {
    ObjectTokens(ms, rest);
    assert ts == [ObjectStart] + ts[1..];
    assert ts == Tokens(JObject(ms)) + rest;
  }

  lemma ArrayAssembled(ts: seq<Token>, items: seq<Value>, rest: seq<Token>, node: Node)
    requires ts != [] && ts[0] == ArrayStart
    requires ts[1..] == ItemsTokens(items) + [ArrayEnd] + rest
    requires node == SequenceNode(ItemsNodes(items))
    ensures exists v :: ts == Tokens(v) + rest && node == ToNode(v)
  {
    ArrayTokens(items, rest);
    assert ts == [ArrayStart] + ts[1..];
    assert ts == Tokens(JArray(items)) + rest;
  }

  lemma MemberAssembled(ts: seq<Token>, name: string, v: Value, ms: seq<Member>, mid: seq<Token>,
                        rest: seq<Token>, pairs: seq<Pair>)
    requires ts != [] && ts[0] == Str(name)
    requires ts[1..] == Tokens(v) + mid
    requires mid == MembersTokens(ms) + [ObjectEnd] + rest
    requires pairs == [Pair(StringNode(name), ToNode(v))] + MembersPairs(ms)
    ensures exists ms' :: ts == MembersTokens(ms') + [ObjectEnd] + rest && pairs == MembersPairs(ms')
  {
    MemberTokens(Member(name, v), ms, rest);
    MembersCons(Member(name, v), ms);
    assert ts == [Str(name)] + ts[1..];
    var ms' := [Member(name, v)] + ms;
    assert ts == MembersTokens(ms') + [ObjectEnd] + rest;
  }

  lemma ElementAssembled(ts: seq<Token>, v: Value, items: seq<Value>, mid: seq<Token>,
                         rest: seq<Token>, nodes: seq<Node>)
    requires ts == Tokens(v) + mid
    requires mid == ItemsTokens(items) + [ArrayEnd] + rest
    requires nodes == [ToNode(v)] + ItemsNodes(items)
    ensures exists items' :: ts == ItemsTokens(items') + [ArrayEnd] + rest && nodes == ItemsNodes(items')
  {
    ItemsCons(v, items);
    Regroup4(Tokens(v), ItemsTokens(items), [ArrayEnd], rest);
    assert ts == ItemsTokens([v] + items) + [ArrayEnd] + rest;
  }

  lemma ObjectTokens(ms: seq<Member>, rest: seq<Token>)
    ensures Tokens(JObject(ms)) + rest == [ObjectStart] + (MembersTokens(ms) + [ObjectEnd] + rest)
  {
  }

  lemma ArrayTokens(items: seq<Value>, rest: seq<Token>)
    ensures Tokens(JArray(items)) + rest == [ArrayStart] + (ItemsTokens(items) + [ArrayEnd] + rest)
  {
  }

  /** Regrouping a concatenation of five parts. */
  lemma Regroup<T>(a: seq<T>, b: seq<T>, c: seq<T>, d: seq<T>, e: seq<T>)
    ensures a + b + c + d + e == a + (b + (c + d + e))
  {
  }

  lemma Regroup3<T>(a: seq<T>, b: seq<T>, c: seq<T>)
    ensures a + b + c == a + (b + c)
  {
  }

  lemma Regroup4<T>(a: seq<T>, b: seq<T>, c: seq<T>, d: seq<T>)
    ensures a + b + c + d == a + (b + c + d)
  {
  }

  lemma MembersCons(m: Member, ms: seq<Member>)
    ensures MembersTokens([m] + ms) == [Str(m.key)] + Tokens(m.value) + MembersTokens(ms)
    ensures MembersPairs([m] + ms) == [Pair(StringNode(m.key), ToNode(m.value))] + MembersPairs(ms)
  {
    assert ([m] + ms)[1..] == ms;
  }

  lemma MembersHead(ms: seq<Member>, tail: seq<Token>)
    requires ms != []
    ensures MembersTokens(ms) + tail == [Str(ms[0].key)] + (Tokens(ms[0].value) + (MembersTokens(ms[1..]) + tail))
  {
  }

  lemma ItemsHead(items: seq<Value>, tail: seq<Token>)
    requires items != []
    ensures ItemsTokens(items) + tail == Tokens(items[0]) + (ItemsTokens(items[1..]) + tail)
  {
  }

  lemma MemberTokens(m: Member, ms: seq<Member>, rest: seq<Token>)
    ensures MembersTokens([m] + ms) + [ObjectEnd] + rest
            == [Str(m.key)] + (Tokens(m.value) + (MembersTokens(ms) + [ObjectEnd] + rest))
  {
    MembersCons(m, ms);
    Regroup([Str(m.key)], Tokens(m.value), MembersTokens(ms), [ObjectEnd], rest);
  }

  lemma ItemsCons(v: Value, items: seq<Value>)
    ensures ItemsTokens([v] + items) == Tokens(v) + ItemsTokens(items)
    ensures ItemsNodes([v] + items) == [ToNode(v)] + ItemsNodes(items)
  {
    assert ([v] + items)[1..] == items;
  }

  lemma {:induction false} ParseMembersSound(ts: seq<Token>, path: Path)
    requires ParseMembers(ts, path).Ok?
    ensures exists ms :: ts == MembersTokens(ms) + [ObjectEnd] + ParseMembers(ts, path).value.1
                         && ParseMembers(ts, path).value.0 == MembersPairs(ms)
    decreases |ts|, 1
  {
    var r := ParseMembers(ts, path);
    if ts[0] == ObjectEnd {
      assert ts == MembersTokens([]) + [ObjectEnd] + r.value.1;
      assert r.value.0 == MembersPairs([]);
    } else {
      MemberSound(ts, path);
    }
  }

  lemma {:induction false} MemberSound(ts: seq<Token>, path: Path)
    requires ts != [] && ts[0].Str? && ParseMembers(ts, path).Ok?
    ensures exists ms :: ts == MembersTokens(ms) + [ObjectEnd] + ParseMembers(ts, path).value.1
                         && ParseMembers(ts, path).value.0 == MembersPairs(ms)
    decreases |ts|, 0
  {
    var r := ParseMembers(ts, path);
    var name := ts[0].s;
    var rv := ParseValue(ts[1..], path + [Key(name)]);
    MemberStep(ts, path);
    var rm := ParseMembers(rv.value.1, path);
    ParseValueSound(ts[1..], path + [Key(name)]);
    var v :| ts[1..] == Tokens(v) + rv.value.1 && rv.value.0 == ToNode(v);
    ParseMembersSound(rv.value.1, path);
    var ms' :| rv.value.1 == MembersTokens(ms') + [ObjectEnd] + rm.value.1 && rm.value.0 == MembersPairs(ms');
    MemberAssembled(ts, name, v, ms', rv.value.1, r.value.1, r.value.0);
  }

  lemma {:induction false} ParseElementsSound(ts: seq<Token>, path: Path, i: nat)
    requires ParseElements(ts, path, i).Ok?
    ensures exists items :: ts == ItemsTokens(items) + [ArrayEnd] + ParseElements(ts, path, i).value.1
                            && ParseElements(ts, path, i).value.0 == ItemsNodes(items)
    decreases |ts|, 4
  {
    var r := ParseElements(ts, path, i);
    if ts[0] == ArrayEnd {
      assert ts == ItemsTokens([]) + [ArrayEnd] + r.value.1;
      assert r.value.0 == ItemsNodes([]);
    } else {
      ElementSound(ts, path, i);
    }
  }

  lemma {:induction false} ElementSound(ts: seq<Token>, path: Path, i: nat)
    requires ts != [] && ts[0] != ArrayEnd && ParseElements(ts, path, i).Ok?
    ensures exists items :: ts == ItemsTokens(items) + [ArrayEnd] + ParseElements(ts, path, i).value.1
                            && ParseElements(ts, path, i).value.0 == ItemsNodes(items)
    decreases |ts|, 3
  {
    var r := ParseElements(ts, path, i);
    var rv := ParseValue(ts, path + [Index(i)]);
    ElementStep(ts, path, i);
    var re := ParseElements(rv.value.1, path, i + 1);
    ParseValueSound(ts, path + [Index(i)]);
    var v :| ts == Tokens(v) + rv.value.1 && rv.value.0 == ToNode(v);
    ParseElementsSound(rv.value.1, path, i + 1);
    var items' :| rv.value.1 == ItemsTokens(items') + [ArrayEnd] + re.value.1 && re.value.0 == ItemsNodes(items');
    ElementAssembled(ts, v, items', rv.value.1, r.value.1, r.value.0);
  }

  /** A successful conversion read a whole JSON document and returned that document's tree. */
  lemma ConvertSound(ts: seq<Token>)
    requires ConvertTokens(ts).Ok?
    ensures exists v :: ts == Tokens(v) && ConvertTokens(ts).value == ToNode(v)
  {
    ParseValueSound(ts, []);
    var v :| ts == Tokens(v) + ParseValue(ts, []).value.1 && ParseValue(ts, []).value.0 == ToNode(v);
    assert ts == Tokens(v);
  }

  /** Conversion succeeds exactly on the token streams of JSON documents. */
  lemma ConvertAcceptsExactlyDocuments(ts: seq<Token>)
    ensures ConvertTokens(ts).Ok? <==> exists v :: ts == Tokens(v)
  {
    if ConvertTokens(ts).Ok? {
      ConvertSound(ts);
    }
    if v :| ts == Tokens(v) {
      ConvertComplete(v);
    }
  }

  // ---------------------------------------------------------------------------
  // Truncation: a document cut short is an error of the truncated class.
  // ---------------------------------------------------------------------------

  lemma {:induction false} ValuePrefixTruncated(v: Value, p: seq<Token>, path: Path)
    requires |p| < |Tokens(v)| && p == Tokens(v)[..|p|]
    ensures ParseValue(p, path).Err? && Truncated(ParseValue(p, path).error)
    decreases v
  {
    if p != [] {
      match v
      case JArray(items) =>
        var q := p[1..];
        assert q == (ItemsTokens(items) + [ArrayEnd])[..|q|];
        ElementsPrefixTruncated(items, q, path, 0);
      case JObject(ms) =>
        var q := p[1..];
        assert q == (MembersTokens(ms) + [ObjectEnd])[..|q|];
        MembersPrefixTruncated(ms, q, path);
    }
  }

  lemma {:induction false} MembersPrefixTruncated(ms: seq<Member>, q: seq<Token>, path: Path)
    requires |q| < |MembersTokens(ms) + [ObjectEnd]| && q == (MembersTokens(ms) + [ObjectEnd])[..|q|]
    ensures ParseMembers(q, path).Err? && Truncated(ParseMembers(q, path).error)
    decreases ms
  {
    if q != [] {
      assert ms != [];
      var name := ms[0].key;
      var vt := Tokens(ms[0].value);
      var tail := MembersTokens(ms[1..]) + [ObjectEnd];
      assert MembersTokens(ms) + [ObjectEnd] == [Str(name)] + vt + tail;
      assert q[0] == Str(name);
      var q1 := q[1..];
      if |q1| < |vt| {
        assert q1 == vt[..|q1|];
        ValuePrefixTruncated(ms[0].value, q1, path + [Key(name)]);
      } else {
        var q2 := q1[|vt|..];
        assert q1 == vt + q2;
        assert q2 == tail[..|q2|];
        ParseValueComplete(ms[0].value, q2, path + [Key(name)]);
        MembersPrefixTruncated(ms[1..], q2, path);
      }
    }
  }

  lemma {:induction false} ElementsPrefixTruncated(items: seq<Value>, q: seq<Token>, path: Path, i: nat)
    requires |q| < |ItemsTokens(items) + [ArrayEnd]| && q == (ItemsTokens(items) + [ArrayEnd])[..|q|]
    ensures ParseElements(q, path, i).Err? && Truncated(ParseElements(q, path, i).error)
    decreases items
  {
    if q != [] {
      assert items != [];
      var vt := Tokens(items[0]);
      var tail := ItemsTokens(items[1..]) + [ArrayEnd];
      assert ItemsTokens(items) + [ArrayEnd] == vt + tail;
      assert q[0] == vt[0];
      if |q| < |vt| {
        assert q == vt[..|q|];
        ValuePrefixTruncated(items[0], q, path + [Index(i)]);
      } else {
        var q2 := q[|vt|..];
        assert q == vt + q2;
        assert q2 == tail[..|q2|];
        ParseValueComplete(items[0], q2, path + [Index(i)]);
        ElementsPrefixTruncated(items[1..], q2, path, i + 1);
      }
    }
  }

  /** A document cut short anywhere fails as truncated; no partial tree comes back. */
  lemma ConvertTruncated(v: Value, p: seq<Token>)
    requires |p| < |Tokens(v)| && p == Tokens(v)[..|p|]
    ensures ConvertTokens(p).Err? && Truncated(ConvertTokens(p).error)
  {
    ValuePrefixTruncated(v, p, []);
  }

  /** Cut short right after a member name, the error is a syntax error whose
      pointer already names that member. */
  lemma MemberValueMissing(ms: seq<Member>, name: string, path: Path)
    ensures ParseMembers(MembersTokens(ms) + [Str(name)], path) == Err(Syntax(path + [Key(name)], UnexpectedEOF))
  {
    assert ([Str(name)])[1..] == [];
    MemberStep([Str(name)], path);
    MembersErrorPropagates(ms, [Str(name)], path);
  }

  lemma ConvertMemberValueMissing(ms: seq<Member>, name: string)
    ensures ConvertTokens([ObjectStart] + MembersTokens(ms) + [Str(name)]) == Err(Syntax([Key(name)], UnexpectedEOF))
    ensures Parse(Render([Key(name)])) == Some([name])
  {
    ParseRender([Key(name)]);
    assert seq(1, k requires 0 <= k < 1 => ReferenceToken([Key(name)][k])) == [name];
    var ts := [ObjectStart] + MembersTokens(ms) + [Str(name)];
    assert ts[1..] == MembersTokens(ms) + [Str(name)];
    MemberValueMissing(ms, name, []);
    assert [] + [Key(name)] == [Key(name)];
    ObjectStep(ts, []);
  }

  // ---------------------------------------------------------------------------
  // Bad mapping keys are fatal at any depth.
  // ---------------------------------------------------------------------------

  /** An error after complete members is the object's error, unchanged. */
  lemma {:induction false} MembersErrorPropagates(ms: seq<Member>, tail: seq<Token>, path: Path)
    requires ParseMembers(tail, path).Err?
    ensures ParseMembers(MembersTokens(ms) + tail, path) == ParseMembers(tail, path)
    decreases ms
  {
    if ms != [] {
      var rest := MembersTokens(ms[1..]) + tail;
      var ts := MembersTokens(ms) + tail;
      MembersHead(ms, tail);
      assert ts[1..] == Tokens(ms[0].value) + rest;
      ParseValueComplete(ms[0].value, rest, path + [Key(ms[0].key)]);
      MembersErrorPropagates(ms[1..], tail, path);
      MemberStep(ts, path);
    } else {
      assert MembersTokens(ms) + tail == tail;
    }
  }

  /** An error after complete elements is the array's error, unchanged. */
  lemma {:induction false} ElementsErrorPropagates(items: seq<Value>, tail: seq<Token>, path: Path, i: nat)
    requires ParseElements(tail, path, i + |items|).Err?
    ensures ParseElements(ItemsTokens(items) + tail, path, i) == ParseElements(tail, path, i + |items|)
    decreases items
  {
    if items == [] {
      assert ItemsTokens(items) + tail == tail;
    } else {
      var rest := ItemsTokens(items[1..]) + tail;
      var ts := ItemsTokens(items) + tail;
      ItemsHead(items, tail);
      assert (i + 1) + |items[1..]| == i + |items|;
      ElementsErrorPropagates(items[1..], tail, path, i + 1);
      ErrorAfterElement(items[0], rest, path, i);
    }
  }

  /** An error after one complete element is the array's error, unchanged. */
  lemma ErrorAfterElement(v: Value, rest: seq<Token>, path: Path, i: nat)
    requires ParseElements(rest, path, i + 1).Err?
    ensures ParseElements(Tokens(v) + rest, path, i) == ParseElements(rest, path, i + 1)
  {
    var ts := Tokens(v) + rest;
    ParseValueComplete(v, rest, path + [Index(i)]);
    assert ts[0] == Tokens(v)[0];
    ElementStep(ts, path, i);
  }

  /** A non-string token where a member name belongs ends the object's
      conversion, after any number of complete members and whatever follows. */
  lemma BadKeyInObject(ms: seq<Member>, t: Token, rest: seq<Token>, path: Path)
    requires !t.Str? && t != ObjectEnd
    ensures ParseValue([ObjectStart] + MembersTokens(ms) + [t] + rest, path) == Err(BadKey(KindOf(t)))
  {
    var inner := MembersTokens(ms) + ([t] + rest);
    assert ([ObjectStart] + MembersTokens(ms) + [t] + rest)[1..] == inner;
    assert ParseMembers([t] + rest, path) == Err(BadKey(KindOf(t)));
    MembersErrorPropagates(ms, [t] + rest, path);
  }

  /** The bad key is fatal to the whole conversion, even inside an array after
      other elements. */
  lemma BadKeyInArrayIsFatal(items: seq<Value>, ms: seq<Member>, t: Token, rest: seq<Token>)
    requires !t.Str? && t != ObjectEnd
    ensures ConvertTokens([ArrayStart] + ItemsTokens(items) + ([ObjectStart] + MembersTokens(ms) + [t] + rest))
            == Err(BadKey(KindOf(t)))
  {
    var obj := [ObjectStart] + MembersTokens(ms) + [t] + rest;
    assert [] + [Index(|items|)] == [Index(|items|)];
    BadKeyInObject(ms, t, rest, [Index(|items|)]);
    ArrayFrameError(items, obj, []);
    var ts := [ArrayStart] + (ItemsTokens(items) + obj);
    assert ParseValue(ts, []) == Err(BadKey(KindOf(t)));
    assert [ArrayStart] + ItemsTokens(items) + obj == ts;
  }

  /** One container left open around a point in the stream: an object whose
      member `name` is being read after the complete members `done`, or an
      array after the complete elements `done`. */
  datatype Frame = InObject(done: seq<Member>, name: string) | InArray(items: seq<Value>)

  /** The tokens that open a frame, up to the point where its next value starts. */
  function FrameTokens(f: Frame): (r: seq<Token>)
    ensures r != [] && !IsClose(r[0])
  {
    match f
    case InObject(done, name) => [ObjectStart] + MembersTokens(done) + [Str(name)]
    case InArray(items) => [ArrayStart] + ItemsTokens(items)
  }

  /** The tokens that open a stack of frames, outermost first. */
  function Opening(fs: seq<Frame>): seq<Token>
  {
    if fs == [] then [] else FrameTokens(fs[0]) + Opening(fs[1..])
  }

  /** An error in a member's value is the enclosing object's error. */
  lemma ObjectFrameError(done: seq<Member>, name: string, y: seq<Token>, path: Path)
    requires ParseValue(y, path + [Key(name)]).Err?
    ensures ParseValue([ObjectStart] + (MembersTokens(done) + ([Str(name)] + y)), path)
            == Err(ParseValue(y, path + [Key(name)]).error)
  {
    var e := ParseValue(y, path + [Key(name)]).error;
    var member := [Str(name)] + y;
    assert member[0] == Str(name) && member[1..] == y;
    MemberStep(member, path);
    MembersErrorPropagates(done, member, path);
    var ts := [ObjectStart] + (MembersTokens(done) + member);
    assert ts[0] == ObjectStart && ts[1..] == MembersTokens(done) + member;
    ObjectStep(ts, path);
  }

  /** An error in an element is the enclosing array's error. */
  lemma ArrayFrameError(items: seq<Value>, y: seq<Token>, path: Path)
    requires y != [] && y[0] != ArrayEnd
    requires ParseValue(y, path + [Index(|items|)]).Err?
    ensures ParseValue([ArrayStart] + (ItemsTokens(items) + y), path)
            == Err(ParseValue(y, path + [Index(|items|)]).error)
  {
    ElementStep(y, path, 0 + |items|);
    ElementsErrorPropagates(items, y, path, 0);
    var ts := [ArrayStart] + (ItemsTokens(items) + y);
    assert ts[0] == ArrayStart && ts[1..] == ItemsTokens(items) + y;
    ArrayStep(ts, path);
  }

  lemma ObjectFrameTokens(done: seq<Member>, name: string, y: seq<Token>)
    ensures FrameTokens(InObject(done, name)) + y == [ObjectStart] + (MembersTokens(done) + ([Str(name)] + y))
  {
  }

  lemma ArrayFrameTokens(items: seq<Value>, y: seq<Token>)
    ensures FrameTokens(InArray(items)) + y == [ArrayStart] + (ItemsTokens(items) + y)
  {
  }

  lemma OpeningCons(fs: seq<Frame>, inner: seq<Token>)
    requires fs != []
    ensures Opening(fs) + inner == FrameTokens(fs[0]) + (Opening(fs[1..]) + inner)
  {
  }

  /** Open frames start with an opening token, so they can never look like a closing one. */
  lemma OpeningHead(fs: seq<Frame>, inner: seq<Token>)
    requires inner != [] && !IsClose(inner[0])
    ensures Opening(fs) + inner != [] && !IsClose((Opening(fs) + inner)[0])
  {
    if fs == [] {
      assert Opening(fs) + inner == inner;
    } else {
      OpeningCons(fs, inner);
    }
  }

  /** The pointer segment of the value a frame is reading: the member's name, or the next index. */
  function FrameSegment(f: Frame): Segment
  {
    match f
    case InObject(_, name) => Key(name)
    case InArray(items) => Index(|items|)
  }

  /** The pointer of the value read where a stack of frames leaves off,
      relative to the value that holds them all. */
  function FramePath(fs: seq<Frame>): (r: Path)
    ensures |r| == |fs|
    ensures forall k :: 0 <= k < |fs| ==> r[k] == FrameSegment(fs[k])
  {
    if fs == [] then [] else [FrameSegment(fs[0])] + FramePath(fs[1..])
  }

  lemma FramePathCons(fs: seq<Frame>, path: Path)
    requires fs != []
    ensures path + FramePath(fs) == (path + [FrameSegment(fs[0])]) + FramePath(fs[1..])
  {
  }

  /** An error in the value a frame is reading is the error of the container the frame opens. */
  lemma FrameError(f: Frame, y: seq<Token>, path: Path)
    requires y != [] && !IsClose(y[0])
    requires ParseValue(y, path + [FrameSegment(f)]).Err?
    ensures ParseValue(FrameTokens(f) + y, path) == Err(ParseValue(y, path + [FrameSegment(f)]).error)
  {
    match f
    case InObject(done, name) =>
      ObjectFrameError(done, name, y, path);
      ObjectFrameTokens(done, name, y);
    case InArray(items) =>
      ArrayFrameError(items, y, path);
      ArrayFrameTokens(items, y);
  }

  /** An error where a stack of frames leaves off is the error of the value
      that holds them all, unchanged. */
  lemma {:induction false} ErrorNested(fs: seq<Frame>, inner: seq<Token>, path: Path)
    requires inner != [] && !IsClose(inner[0])
    requires ParseValue(inner, path + FramePath(fs)).Err?
    ensures ParseValue(Opening(fs) + inner, path) == Err(ParseValue(inner, path + FramePath(fs)).error)
    decreases fs
  {
    if fs == [] {
      assert Opening(fs) + inner == inner;
      assert path + FramePath(fs) == path;
    } else {
      var y := Opening(fs[1..]) + inner;
      var q := path + [FrameSegment(fs[0])];
      FramePathCons(fs, path);
      ErrorNested(fs[1..], inner, q);
      OpeningHead(fs[1..], inner);
      FrameError(fs[0], y, path);
      OpeningCons(fs, inner);
    }
  }

  /** A bad key inside any number of open containers fails the value that
      holds them all, with the same bad-key error. */
  lemma BadKeyNested(fs: seq<Frame>, ms: seq<Member>, t: Token, rest: seq<Token>, path: Path)
    requires !t.Str? && t != ObjectEnd
    ensures ParseValue(Opening(fs) + ([ObjectStart] + MembersTokens(ms) + [t] + rest), path) == Err(BadKey(KindOf(t)))
  {
    BadKeyInObject(ms, t, rest, path + FramePath(fs));
    ErrorNested(fs, [ObjectStart] + MembersTokens(ms) + [t] + rest, path);
  }

  /** The bad key ends the whole conversion at any nesting depth, whatever follows it. */
  lemma BadKeyFatalAtAnyDepth(fs: seq<Frame>, ms: seq<Member>, t: Token, rest: seq<Token>)
    requires !t.Str? && t != ObjectEnd
    ensures ConvertTokens(Opening(fs) + ([ObjectStart] + MembersTokens(ms) + [t] + rest)) == Err(BadKey(KindOf(t)))
  {
    BadKeyNested(fs, ms, t, rest, []);
  }

  // ---------------------------------------------------------------------------
  // Where each class of cut-short error comes from, at any depth.
  // ---------------------------------------------------------------------------

  /** An array left open after any complete elements is end of file. */
  lemma UnterminatedArray(items: seq<Value>, path: Path)
    ensures ParseValue([ArrayStart] + ItemsTokens(items), path) == Err(EOF)
  {
    assert ParseElements([], path, 0 + |items|) == Err(EOF);
    ElementsErrorPropagates(items, [], path, 0);
    var ts := [ArrayStart] + ItemsTokens(items);
    assert ts[1..] == ItemsTokens(items) + [];
    ArrayStep(ts, path);
  }

  /** An object left open after any complete members is end of file. */
  lemma UnterminatedObject(ms: seq<Member>, path: Path)
    ensures ParseValue([ObjectStart] + MembersTokens(ms), path) == Err(EOF)
  {
    assert ParseMembers([], path) == Err(EOF);
    MembersErrorPropagates(ms, [], path);
    var ts := [ObjectStart] + MembersTokens(ms);
    assert ts[1..] == MembersTokens(ms) + [];
    ObjectStep(ts, path);
  }

  /** A stream that ends where an element, a member name or a closing token
      would come, inside any stack of open containers, fails as end of file. */
  lemma ConvertUnterminated(fs: seq<Frame>, ms: seq<Member>, items: seq<Value>)
    ensures ConvertTokens(Opening(fs) + ([ArrayStart] + ItemsTokens(items))) == Err(EOF)
    ensures ConvertTokens(Opening(fs) + ([ObjectStart] + MembersTokens(ms))) == Err(EOF)
  {
    UnterminatedArray(items, [] + FramePath(fs));
    ErrorNested(fs, [ArrayStart] + ItemsTokens(items), []);
    UnterminatedObject(ms, [] + FramePath(fs));
    ErrorNested(fs, [ObjectStart] + MembersTokens(ms), []);
  }

  /** A stream that ends where a member's value would start, inside any stack
      of open containers, fails with a syntax error whose pointer runs through
      every open container down to that member. */
  lemma ConvertValueMissing(fs: seq<Frame>, ms: seq<Member>, name: string)
    ensures ConvertTokens(Opening(fs) + ([ObjectStart] + MembersTokens(ms) + [Str(name)]))
            == Err(Syntax(FramePath(fs) + [Key(name)], UnexpectedEOF))
  {
    var path := [] + FramePath(fs);
    var ts := [ObjectStart] + MembersTokens(ms) + [Str(name)];
    assert ts[1..] == MembersTokens(ms) + [Str(name)];
    MemberValueMissing(ms, name, path);
    ObjectStep(ts, path);
    ErrorNested(fs, ts, []);
    assert path == FramePath(fs);
  }

  // ---------------------------------------------------------------------------
  // A cut-short stream is exactly one that more tokens could complete.
  // ---------------------------------------------------------------------------

  /** Tokens added after a value that reads do not change the value, only what is left over. */
  lemma ValueExtends(ts: seq<Token>, path: Path, more: seq<Token>)
    requires ParseValue(ts, path).Ok?
    ensures ParseValue(ts + more, path) == Ok((ParseValue(ts, path).value.0, ParseValue(ts, path).value.1 + more))
  {
    var r := ParseValue(ts, path);
    ParseValueSound(ts, path);
    var v :| ts == Tokens(v) + r.value.1 && r.value.0 == ToNode(v);
    Regroup3(Tokens(v), r.value.1, more);
    ParseValueComplete(v, r.value.1 + more, path);
  }

  /** Adding tokens after a non-empty stream keeps its first token and extends the rest. */
  lemma Extended(ts: seq<Token>, more: seq<Token>)
    requires ts != []
    ensures (ts + more)[0] == ts[0] && (ts + more)[1..] == ts[1..] + more
  {
  }

  /** A value read that fails as truncated reads in full once the right tokens are added. */
  lemma {:induction false} ValueCompletable(ts: seq<Token>, path: Path)
    requires ParseValue(ts, path).Err? && Truncated(ParseValue(ts, path).error)
    ensures exists more :: ParseValue(ts + more, path).Ok? && ParseValue(ts + more, path).value.1 == []
    decreases |ts|, 3
  {
    if ts == [] {
      assert ParseValue(ts + [Null], path) == Ok((NullNode(), []));
    } else if ts[0] == ObjectStart {
      ObjectCompletable(ts, path);
    } else if ts[0] == ArrayStart {
      ArrayCompletable(ts, path);
    } else {
      assert false;
    }
  }

  lemma {:induction false} ObjectCompletable(ts: seq<Token>, path: Path)
    requires ts != [] && ts[0] == ObjectStart
    requires ParseValue(ts, path).Err? && Truncated(ParseValue(ts, path).error)
    ensures exists more :: ParseValue(ts + more, path).Ok? && ParseValue(ts + more, path).value.1 == []
    decreases |ts|, 2
  {
    ObjectStep(ts, path);
    MembersCompletable(ts[1..], path);
    var more :| ParseMembers(ts[1..] + more, path).Ok? && ParseMembers(ts[1..] + more, path).value.1 == [];
    Extended(ts, more);
    ObjectStep(ts + more, path);
  }

  lemma {:induction false} ArrayCompletable(ts: seq<Token>, path: Path)
    requires ts != [] && ts[0] == ArrayStart
    requires ParseValue(ts, path).Err? && Truncated(ParseValue(ts, path).error)
    ensures exists more :: ParseValue(ts + more, path).Ok? && ParseValue(ts + more, path).value.1 == []
    decreases |ts|, 2
  {
    ArrayStep(ts, path);
    ElementsCompletable(ts[1..], path, 0);
    var more :| ParseElements(ts[1..] + more, path, 0).Ok? && ParseElements(ts[1..] + more, path, 0).value.1 == [];
    Extended(ts, more);
    ArrayStep(ts + more, path);
  }

  /** The same for the members of an object. */
  lemma {:induction false} MembersCompletable(ts: seq<Token>, path: Path)
    requires ParseMembers(ts, path).Err? && Truncated(ParseMembers(ts, path).error)
    ensures exists more :: ParseMembers(ts + more, path).Ok? && ParseMembers(ts + more, path).value.1 == []
    decreases |ts|, 1
  {
    if ts == [] {
      assert ParseMembers(ts + [ObjectEnd], path) == Ok(([], []));
    } else if ts[0].Str? {
      MemberStep(ts, path);
      if ParseValue(ts[1..], path + [Key(ts[0].s)]).Err? {
        MemberValueCompletable(ts, path);
      } else {
        LaterMembersCompletable(ts, path);
      }
    } else {
      assert false;
    }
  }

  /** Cut short inside a member's value: complete the value, then close the object. */
  lemma {:induction false} MemberValueCompletable(ts: seq<Token>, path: Path)
    requires ts != [] && ts[0].Str?
    requires ParseValue(ts[1..], path + [Key(ts[0].s)]).Err?
    requires Truncated(ParseValue(ts[1..], path + [Key(ts[0].s)]).error)
    ensures exists more :: ParseMembers(ts + more, path).Ok? && ParseMembers(ts + more, path).value.1 == []
    decreases |ts|, 0
  {
    var q := path + [Key(ts[0].s)];
    ValueCompletable(ts[1..], q);
    var more :| ParseValue(ts[1..] + more, q).Ok? && ParseValue(ts[1..] + more, q).value.1 == [];
    ValueExtends(ts[1..] + more, q, [ObjectEnd]);
    Extended(ts, more + [ObjectEnd]);
    Regroup3(ts[1..], more, [ObjectEnd]);
    LastMember(ts + (more + [ObjectEnd]), path);
  }

  /** A member whose value is followed by just `}` ends the object and the stream. */
  lemma LastMember(ts: seq<Token>, path: Path)
    requires ts != [] && ts[0].Str?
    requires ParseValue(ts[1..], path + [Key(ts[0].s)]).Ok?
    requires ParseValue(ts[1..], path + [Key(ts[0].s)]).value.1 == [ObjectEnd]
    ensures ParseMembers(ts, path).Ok? && ParseMembers(ts, path).value.1 == []
  {
    assert ParseMembers([ObjectEnd], path) == Ok(([], []));
    MemberStep(ts, path);
  }

  /** Cut short after a complete member: complete the members that follow. */
  lemma {:induction false} LaterMembersCompletable(ts: seq<Token>, path: Path)
    requires ts != [] && ts[0].Str?
    requires ParseValue(ts[1..], path + [Key(ts[0].s)]).Ok?
    requires ParseMembers(ts, path).Err? && Truncated(ParseMembers(ts, path).error)
    ensures exists more :: ParseMembers(ts + more, path).Ok? && ParseMembers(ts + more, path).value.1 == []
    decreases |ts|, 0
  {
    var q := path + [Key(ts[0].s)];
    var rest := ParseValue(ts[1..], q).value.1;
    MemberStep(ts, path);
    MembersCompletable(rest, path);
    var more :| ParseMembers(rest + more, path).Ok? && ParseMembers(rest + more, path).value.1 == [];
    ValueExtends(ts[1..], q, more);
    Extended(ts, more);
    MemberStep(ts + more, path);
  }

  /** The same for the elements of an array. */
  lemma {:induction false} ElementsCompletable(ts: seq<Token>, path: Path, i: nat)
    requires ParseElements(ts, path, i).Err? && Truncated(ParseElements(ts, path, i).error)
    ensures exists more :: ParseElements(ts + more, path, i).Ok? && ParseElements(ts + more, path, i).value.1 == []
    decreases |ts|, 5
  {
    if ts == [] {
      assert ParseElements(ts + [ArrayEnd], path, i) == Ok(([], []));
    } else if ts[0] != ArrayEnd {
      ElementStep(ts, path, i);
      if ParseValue(ts, path + [Index(i)]).Err? {
        ElementValueCompletable(ts, path, i);
      } else {
        LaterElementsCompletable(ts, path, i);
      }
    } else {
      assert false;
    }
  }

  /** Cut short inside an element: complete the element, then close the array. */
  lemma {:induction false} ElementValueCompletable(ts: seq<Token>, path: Path, i: nat)
    requires ts != [] && ts[0] != ArrayEnd
    requires ParseValue(ts, path + [Index(i)]).Err? && Truncated(ParseValue(ts, path + [Index(i)]).error)
    ensures exists more :: ParseElements(ts + more, path, i).Ok? && ParseElements(ts + more, path, i).value.1 == []
    decreases |ts|, 4
  {
    var q := path + [Index(i)];
    ValueCompletable(ts, q);
    var more :| ParseValue(ts + more, q).Ok? && ParseValue(ts + more, q).value.1 == [];
    ValueExtends(ts + more, q, [ArrayEnd]);
    Extended(ts, more + [ArrayEnd]);
    Regroup3(ts, more, [ArrayEnd]);
    LastElement(ts + (more + [ArrayEnd]), path, i);
  }

  /** An element followed by just `]` ends the array and the stream. */
  lemma LastElement(ts: seq<Token>, path: Path, i: nat)
    requires ts != [] && ts[0] != ArrayEnd
    requires ParseValue(ts, path + [Index(i)]).Ok?
    requires ParseValue(ts, path + [Index(i)]).value.1 == [ArrayEnd]
    ensures ParseElements(ts, path, i).Ok? && ParseElements(ts, path, i).value.1 == []
  {
    assert ParseElements([ArrayEnd], path, i + 1) == Ok(([], []));
    ElementStep(ts, path, i);
  }

  /** Cut short after a complete element: complete the elements that follow. */
  lemma {:induction false} LaterElementsCompletable(ts: seq<Token>, path: Path, i: nat)
    requires ts != [] && ts[0] != ArrayEnd
    requires ParseValue(ts, path + [Index(i)]).Ok?
    requires ParseElements(ts, path, i).Err? && Truncated(ParseElements(ts, path, i).error)
    ensures exists more :: ParseElements(ts + more, path, i).Ok? && ParseElements(ts + more, path, i).value.1 == []
    decreases |ts|, 4
  {
    var q := path + [Index(i)];
    var rest := ParseValue(ts, q).value.1;
    ElementStep(ts, path, i);
    ElementsCompletable(rest, path, i + 1);
    var more :| ParseElements(rest + more, path, i + 1).Ok? && ParseElements(rest + more, path, i + 1).value.1 == [];
    ValueExtends(ts, q, more);
    Extended(ts, more);
    ElementStep(ts + more, path, i);
  }

  /** A failed conversion is of the truncated class exactly when some further
      tokens would have made the stream a document. */
  lemma TruncatedCompletable(ts: seq<Token>)
    requires ConvertTokens(ts).Err?
    ensures Truncated(ConvertTokens(ts).error) <==> exists more :: ConvertTokens(ts + more).Ok?
  {
    assert ts + [] == ts;
    if Truncated(ConvertTokens(ts).error) {
      ValueCompletable(ts, []);
      var more :| ParseValue(ts + more, []).Ok? && ParseValue(ts + more, []).value.1 == [];
      assert ConvertTokens(ts + more).Ok?;
    }
    if more :| ConvertTokens(ts + more).Ok? {
      ConvertSound(ts + more);
      var v :| ts + more == Tokens(v);
      assert more != [];
      assert ts == Tokens(v)[..|ts|];
      ConvertTruncated(v, ts);
    }
  }
}
