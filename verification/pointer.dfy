/**
  JSON Pointer paths (RFC 6901) as the converter reports them in syntax
  errors: a path is the list of member names and array indices from the
  document root down to where decoding stopped.
 */
module JsonPointer {
  import opened Wrappers

  /** One step of a path: into an object member or an array element. */
  datatype Segment = Key(name: string) | Index(i: nat)

  type Path = seq<Segment>

  /** Section 3 of RFC 6901: '~' is written "~0" and '/' is written "~1". */
  function Escape(s: string): (r: string)
    ensures '/' !in r
    ensures |r| >= |s|
  {
    if s == [] then []
    else
      (if s[0] == '~' then "~0" else if s[0] == '/' then "~1" else [s[0]])
      + Escape(s[1..])
  }

  /** Section 4 of RFC 6901: undoes Escape; a '~' not followed by '0' or '1' is malformed. */
  function Unescape(s: string): Option<string>
  {
    if s == [] then Some([])
    else if s[0] == '~' then
      if |s| >= 2 && (s[1] == '0' || s[1] == '1') then
        var t :- Unescape(s[2..]);
        Some([if s[1] == '0' then '~' else '/'] + t)
      else None
    else
      var t :- Unescape(s[1..]);
      Some([s[0]] + t)
  }

  lemma {:induction false} UnescapeEscape(s: string)
    ensures Unescape(Escape(s)) == Some(s)
  {
    if s != [] {
      UnescapeEscape(s[1..]);
      var e := Escape(s[1..]);
      if s[0] == '~' {
        assert Escape(s) == "~0" + e;
        assert ("~0" + e)[2..] == e;
      } else if s[0] == '/' {
        assert Escape(s) == "~1" + e;
        assert ("~1" + e)[2..] == e;
      } else {
        assert Escape(s) == [s[0]] + e;
        assert ([s[0]] + e)[1..] == e;
      }
      assert s == [s[0]] + s[1..];
    }
  }

  /** A name with no '~' and no '/' is its own escaped form. */
  lemma {:induction false} EscapePlain(s: string)
    requires '~' !in s && '/' !in s
    ensures Escape(s) == s
  {
    if s != [] {
      assert s[0] != '~' && s[0] != '/';
      assert '~' !in s[1..] && '/' !in s[1..] by {
        forall c | c in s[1..] ensures c in s {
          var k :| 0 <= k < |s[1..]| && s[1..][k] == c;
          assert s[k + 1] == c;
        }
      }
      EscapePlain(s[1..]);
      assert s == [s[0]] + s[1..];
    }
  }

  predicate IsDigit(c: char)
  {
    '0' <= c <= '9'
  }

  function DigitChar(d: nat): char
    requires d < 10
  {
    "0123456789"[d]
  }

  function DigitValue(c: char): nat
    requires IsDigit(c)
  {
    (c as int - '0' as int) as nat
  }

  /** The canonical decimal text of an array index: digits only, no leading zero. */
  function Decimal(n: nat): (r: string)
    ensures |r| > 0
    ensures forall k :: 0 <= k < |r| ==> IsDigit(r[k])
    ensures |r| > 1 ==> r[0] != '0'
  {
    if n < 10 then [DigitChar(n)] else Decimal(n / 10) + [DigitChar(n % 10)]
  }

  /** The number a string of digits denotes. */
  function DecimalValue(s: string): nat
    requires forall k :: 0 <= k < |s| ==> IsDigit(s[k])
  {
    if s == [] then 0 else 10 * DecimalValue(s[..|s| - 1]) + DigitValue(s[|s| - 1])
  }

  lemma {:induction false} DecimalRoundTrip(n: nat)
    ensures DecimalValue(Decimal(n)) == n
  {
    if n >= 10 {
      DecimalRoundTrip(n / 10);
      var d := Decimal(n);
      assert d[..|d| - 1] == Decimal(n / 10);
    }
  }

  /** The reference token a segment contributes to the pointer (before escaping). */
  function ReferenceToken(seg: Segment): string
  {
    match seg
    case Key(name) => name
    case Index(i) => Decimal(i)
  }

  /** The pointer text of a path: "" for the root, otherwise "/" before each escaped token. */
  function Render(p: Path): (r: string)
    ensures r == [] <==> p == []
    ensures p != [] ==> r[0] == '/'
  {
    if p == [] then [] else "/" + Escape(ReferenceToken(p[0])) + Render(p[1..])
  }

  /** Splits text at its first '/': what comes before it, and the rest from the '/' on. */
  function SplitSegment(s: string): (r: (string, string))
    ensures '/' !in r.0
    ensures r.0 + r.1 == s
    ensures r.1 == [] || r.1[0] == '/'
  {
    if s == [] || s[0] == '/' then ([], s)
    else
      var (head, tail) := SplitSegment(s[1..]);
      ([s[0]] + head, tail)
  }

  /** Section 3 of RFC 6901, read back: the unescaped reference tokens of a pointer. */
  function Parse(s: string): Option<seq<string>>
    decreases |s|
  {
    if s == [] then Some([])
    else if s[0] != '/' then None
    else
      var (seg, rest) := SplitSegment(s[1..]);
      var tok :- Unescape(seg);
      var toks :- Parse(rest);
      Some([tok] + toks)
  }

  lemma {:induction false} SplitEscaped(e: string, rest: string)
    requires '/' !in e
    requires rest == [] || rest[0] == '/'
    ensures SplitSegment(e + rest) == (e, rest)
  {
    if e != [] {
      assert (e + rest)[0] == e[0] && e[0] != '/';
      assert (e + rest)[1..] == e[1..] + rest;
      SplitEscaped(e[1..], rest);
      assert e == [e[0]] + e[1..];
    } else {
      assert e + rest == rest;
    }
  }

  /** One step of Parse: a '/', one escaped reference token, then the rest of the pointer. */
  lemma ParseSegment(s: string, tok: string, toks: seq<string>)
    requires s != [] && s[0] == '/'
    requires Unescape(SplitSegment(s[1..]).0) == Some(tok)
    requires Parse(SplitSegment(s[1..]).1) == Some(toks)
    ensures Parse(s) == Some([tok] + toks)
  {
  }

  /** Reading a rendered path back yields the reference tokens of its segments, in order. */
  lemma {:induction false} ParseRender(p: Path)
    ensures Parse(Render(p)) == Some(seq(|p|, k requires 0 <= k < |p| => ReferenceToken(p[k])))
  {
    if p != [] {
      var e := Escape(ReferenceToken(p[0]));
      var rest := Render(p[1..]);
      assert Render(p) == "/" + (e + rest);
      assert ("/" + (e + rest))[1..] == e + rest;
      SplitEscaped(e, rest);
      UnescapeEscape(ReferenceToken(p[0]));
      ParseRender(p[1..]);
      var toks := seq(|p|, k requires 0 <= k < |p| => ReferenceToken(p[k]));
      var tail := seq(|p[1..]|, k requires 0 <= k < |p[1..]| => ReferenceToken(p[1..][k]));
      assert toks == [ReferenceToken(p[0])] + tail;
      var s := Render(p);
      assert s != [] && s[0] == '/';
      assert s[1..] == e + rest;
      ParseSegment(s, ReferenceToken(p[0]), tail);
    } else {
      assert seq(|p|, k requires 0 <= k < |p| => ReferenceToken(p[k])) == [];
    }
  }
}
