# json2yaml `Convert`, modelled in Dafny

`json2yaml.Convert` turns a JSON document into a YAML document-node tree. It drives a
streaming JSON decoder, and a recursive-descent builder consumes the decoder's tokens:

- an object becomes a mapping node whose pairs keep the member order (repeated names stay separate pairs);
- an array becomes a sequence node;
- a string, number, boolean or null becomes a tagged scalar, and a number keeps its literal text.

An empty collection is written in flow style (`{}`, `[]`); a non-empty one in block style.
After the top-level value the stream must end. A conversion returns either a tree or one error,
never both. The error is one of:

- **end of file** (`EOF`): the stream ended before any value, or (in this model) where a member name, an element or a
  closing token would come;
- **syntax error** (`Syntax(path, cause)`): the decoder rejected the stream. It carries the RFC 6901 JSON Pointer of the
  value being read and an underlying cause. In this model a stream that ends where a member's value would start gives
  cause `unexpected EOF`, with the pointer already extended by that member's name;
- **bad mapping key** (`BadKey(kind)`): a token other than a string (or `}`) where a member name belongs. The message is
  `unexpected kind for mapping key: <kind>`, and the error ends the whole conversion;
- **trailing content** (`Trailing(token)`): a token after the complete top-level value, with the message
  `expected EOF, got <token>`.

The input is modelled as the decoder's token sequence (`JsonTokens.Token`), not as bytes.
`JsonValue` gives the reference meaning: the JSON document a token sequence stands for (`Tokens`) and the tree
that document should become (`ToNode`). The builder (`Convert.ConvertTokens`) is proved to accept exactly the
token sequences of documents and to return their reference trees. Separate lemmas state each error class,
for all inputs and for the concrete inputs of the repository's tests. The two cut-short classes are proved at any
nesting depth, and a failure falls in the truncated class exactly when some further tokens would complete the document.

Files: `wrappers.dfy` (the `Option` and `Result` types, usable with `:-`), `tokens.dfy` (tokens and kinds), `pointer.dfy` (JSON Pointer rendering and reading, RFC 6901),
`yaml.dfy` (node tree), `json.dfy` (reference documents), `convert.dfy` (the builder and its errors),
`properties.dfy` (all-input properties), `examples.dfy` (the documented inputs).

The implementation file of `Convert` is not part of this model. Its behaviour is taken from the assertions
of `convert_test.go`, and the model is shaped so that every one of them holds. A cut-short input is not
always the end-of-file class: `[{` is end of file, but `{"foo":` is a syntax error with pointer `/foo`.
The tests pin only these two cut points, so where each class applies is the model's own rule, fitted to them:
`EOF` when the stream ends at the top level or where a member name, an element or a closing token would come, and a
syntax error when it ends where a member's value would start. The predicate `Convert.Truncated` groups both.

## Model

| member | source | states |
|---|---|---|
| Convert.ConvertTokens | convert_test.go:25-28 | A successful conversion's tree has the converter's output shape: collections are flow style exactly when empty, and keys are string scalars. A trailing-content error names a token taken from the stream after its first token. |
| Convert.ParseValue | convert_test.go:25-37 | Reading one value consumes a non-empty prefix of the stream and builds a well-shaped node. Its errors are never trailing-content errors. A syntax error's pointer lies at or below the value's own pointer. |
| Convert.ParseMembers | convert_test.go:66-83 | Reading an object's members consumes a non-empty prefix whose last token is the closing `}`, and yields well-shaped pairs keyed by string scalars. Its errors are never trailing-content errors, and a syntax error lies strictly below the object's pointer. |
| Convert.ParseElements | convert_test.go:25-37 | Reading an array's elements consumes a non-empty prefix whose last token is the closing `]`, and yields well-shaped items. Its errors are never trailing-content errors, and a syntax error lies strictly below the array's pointer. |
| Convert.IsEOF | convert_test.go:46 | The end-of-file test on an error holds exactly for the error whose text is `EOF`. |
| Convert.Message | convert_test.go:58-71 | The error's text tells the classes apart: it starts with `expected EOF, got ` exactly for trailing content, and with `unexpected kind for mapping key: ` exactly for a bad key. |
| Convert.CauseText | convert_test.go:81 | A syntax error's cause reads `unexpected EOF` exactly when the stream was cut short. |
| JsonTokens.KindText | convert_test.go:68 | In a bad-key message, a token kind prints as `{` exactly when it is an object start. |
| JsonTokens.TokenText | convert_test.go:60 | In a trailing-content message, a token without text of its own prints as `{` exactly when it is an object start. |
| ConvertProperties.ConvertComplete | convert_test.go:25-37 | Every JSON document's token stream converts without error, to exactly that document's reference tree. |
| ConvertProperties.ConvertSound | convert_test.go:25-28 | Whenever conversion succeeds, the input was the token stream of some JSON document and the tree is that document's reference tree. No partial tree is ever returned. |
| ConvertProperties.ConvertAcceptsExactlyDocuments | convert_test.go:25-28 | Conversion succeeds if and only if the token stream is that of a JSON document. |
| ConvertProperties.ParseValueComplete | convert_test.go:25-37 | A document's tokens followed by any further tokens read as that document's tree, and the further tokens are left over untouched. |
| ConvertProperties.ParseMembersComplete | convert_test.go:25-37 | An object's member tokens read as its pairs, one per member, in source order. |
| ConvertProperties.ParseElementsComplete | convert_test.go:25-37 | An array's element tokens read as its items, one per element, in order. |
| ConvertProperties.ParseValueSound | convert_test.go:25-28 | Whatever one value-read accepts is a document's tokens followed by the rest, and the node is that document's tree. |
| ConvertProperties.TrailingRejected | convert_test.go:58-62 | After any complete top-level value, any further token fails the conversion as trailing content naming the first extra token. |
| ConvertProperties.ConvertTruncated | convert_test.go:51-56 | A document's token stream cut short at any point fails, and the error is of the truncated class. |
| ConvertProperties.ValuePrefixTruncated | convert_test.go:51-56 | Reading a value from a strict prefix of its tokens fails as truncated, at any nesting depth. |
| ConvertProperties.MemberValueMissing | convert_test.go:75-83 | A stream that ends right after a member name (after any complete members) fails with a syntax error. Its pointer is the object's pointer extended by that name, and its cause is unexpected EOF. |
| ConvertProperties.ConvertMemberValueMissing | convert_test.go:75-83 | The same at top level: `{ ... "name":` fails with a syntax error at pointer `[name]` with cause unexpected EOF, and that pointer's text reads back as the one-token path `name` (RFC 6901). |
| ConvertProperties.ConvertValueMissing | convert_test.go:75-83 | A stream that ends where a member's value would start, inside any stack of open objects and arrays, fails with a syntax error with cause unexpected EOF. Its pointer runs through every open container's member name or element index, down to that member. |
| ConvertProperties.UnterminatedArray | convert_test.go:51-56 | An array left open after any complete elements fails as end of file, at any pointer. |
| ConvertProperties.UnterminatedObject | convert_test.go:51-56 | An object left open after any complete members fails as end of file, at any pointer. |
| ConvertProperties.ConvertUnterminated | convert_test.go:51-56 | A stream that ends where an element, a member name or a closing token would come, inside any stack of open containers, fails as end of file. |
| ConvertProperties.ErrorNested | convert_test.go:51-83 | An error where a stack of open containers leaves off, read at the pointer those containers lead to, is the error of the value that holds them all, unchanged. |
| ConvertProperties.FrameError | convert_test.go:51-83 | An error in the value one open container is reading is that container's error, unchanged. |
| ConvertProperties.TruncatedCompletable | convert_test.go:46-56 | A failed conversion is of the truncated class exactly when some further tokens would make the stream convert. |
| ConvertProperties.ValueCompletable | convert_test.go:51-56 | A value read that fails as truncated reads in full, leaving nothing over, once suitable tokens are appended. |
| ConvertProperties.MembersCompletable | convert_test.go:51-56 | The same for an object's members: appended tokens complete them through the closing `}`. |
| ConvertProperties.ElementsCompletable | convert_test.go:51-56 | The same for an array's elements: appended tokens complete them through the closing `]`. |
| ConvertProperties.ValueExtends | convert_test.go:25-37 | Tokens appended after a value that reads change neither the value's tree nor where it ends; they are only added to what is left over. |
| ConvertProperties.BadKeyInObject | convert_test.go:65-71 | A non-string token where a member name belongs fails the object with a bad-key error for that token's kind, whatever follows it. |
| ConvertProperties.BadKeyInArrayIsFatal | convert_test.go:65-71 | That bad-key error ends the whole conversion even inside an array after other elements, with nothing after it changing the outcome. |
| ConvertProperties.BadKeyFatalAtAnyDepth | convert_test.go:65-71 | A bad key inside any stack of open objects and arrays, each after any complete members or elements, ends the whole conversion with that bad-key error, whatever follows. |
| ConvertProperties.BadKeyNested | convert_test.go:65-71 | The same for a value read at any pointer: the outermost open container fails with the innermost bad-key error. |
| ConvertProperties.ObjectFrameError | convert_test.go:65-83 | An error in a member's value, after any complete members, is the enclosing object's error, unchanged. |
| ConvertProperties.ArrayFrameError | convert_test.go:65-71 | An error in an element, after any complete elements, is the enclosing array's error, unchanged. |
| ConvertProperties.MembersErrorPropagates | convert_test.go:65-71 | An error after complete members is the object's error, unchanged. |
| ConvertProperties.ElementsErrorPropagates | convert_test.go:65-71 | An error after complete elements is the array's error, unchanged. |
| ConvertExamples.EmptyInput | convert_test.go:43-49 | The empty input fails, and the error is end of file. |
| ConvertExamples.UnterminatedContainer | convert_test.go:51-56 | `[{` fails, and the error is end of file. |
| ConvertExamples.TrailingContent | convert_test.go:58-62 | `[{}] {` fails with a trailing-content error whose message is exactly `expected EOF, got {`. |
| ConvertExamples.InvalidMappingKey | convert_test.go:65-71 | `[{{}}]` fails with a bad-key error whose message is exactly `unexpected kind for mapping key: {`. |
| ConvertExamples.InvalidMap | convert_test.go:73-84 | `{"foo":` fails with a syntax error whose pointer reads `/foo` and whose cause reads `unexpected EOF`. |
| ConvertExamples.SampleConverts | convert_test.go:25-37 | A nested sample document with every JSON kind converts without error to its expected tree. Keys are in source order, numbers verbatim, and empty collections in flow style. |
| JsonValue.ItemsNodes | convert_test.go:25-37 | Array elements become sequence items one for one, in the same order. |
| JsonValue.MembersPairs | convert_test.go:25-37 | Object members become mapping pairs one for one, in source order, each keyed by a string scalar holding the member name. |
| JsonValue.FromToNode | convert_test.go:25-37 | The reference tree loses nothing: the document can be read back from it. |
| JsonValue.ToNodeWellFormed | convert_test.go:25-37 | Every reference tree has flow style exactly on its empty collections and string-scalar keys throughout. |
| JsonValue.ObjectKeysInOrder | convert_test.go:25-37 | A mapping's keys are the object's member names in source order, repeats included. |
| JsonTokens.KindTextInjective | convert_test.go:68 | Distinct token kinds print differently, so a bad-key message identifies the kind. |
| JsonPointer.Render | convert_test.go:79 | A pointer is empty exactly for the root path, and otherwise starts with `/`. |
| JsonPointer.ParseRender | convert_test.go:79 | Reading a rendered pointer back gives each path segment's reference token, in order (RFC 6901, sections 3 and 4). |
| JsonPointer.UnescapeEscape | convert_test.go:79 | Escaping a member name for a pointer (`~` to `~0`, `/` to `~1`) is undone by unescaping. |
| JsonPointer.EscapePlain | convert_test.go:79 | A member name with no `~` and no `/`, such as `foo`, appears in the pointer unchanged. |
| JsonPointer.DecimalRoundTrip | convert_test.go:79 | An array index's decimal text reads back as the same index. |

## Left out

- Lexing JSON bytes into tokens (RFC 8259) and checking their syntax belong to the external decoder. The model starts from its token sequence, and "end of stream" is the end of that sequence.
- Number literals are not validated as numeric; the decoder does that. A number keeps its text verbatim.
- YamlNode.NumberTag: the int/float split (a fraction or exponent makes a float) follows the YAML core schema. The tests do not show the implementation's choice of scalar tags or quoting styles.
- Emitting the tree as YAML text belongs to the external YAML library. The golden files `example.json` and `example.yaml` are not part of this model, so the sample document in `ConvertExamples` stands in for them.
- Go error wrapping (`errors.Is`, `errors.As`) is modelled as the closed `Error` datatype. `IsEOF` plays the role of the end-of-file check.
- Convert.Message: for a syntax error it gives only the underlying cause's text. The decoder's own wording around it is not modelled, and for a closing token where a value belongs the cause text is a stand-in.
- JsonTokens.KindText: only the text of `{` is fixed by the tests. The other kinds follow the decoder's usual names.
- The separators `,` and `:` are not tokens in this model, so `[1` and `[1,` are the same input, and so are `{"foo"` and `{"foo":`. The split of cut-short input between end of file and a syntax error is fitted to the two tested inputs `[{` and `{"foo":`; other cut points follow the same rule with no test behind them.
- A decoder rejects an unbalanced `}` or `]` itself. The model's outcomes on such tokens are stand-ins: a syntax error where a value belongs, a bad key for `]` where a member name belongs, and trailing content after the top-level value (`1 }` reads `expected EOF, got }`).
- Duplicate member names are kept as separate pairs. Whether the decoder rejects them depends on its configuration, which is not part of this model.
- The root document-node wrapper around the tree, parallel execution and any nesting-depth limit are not modelled.
