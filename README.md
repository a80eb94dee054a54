# Inline document descriptor, in Dafny

A model of the part of a source analyzer that deals with inline (embedded)
documents: a `<script>` or `<style>` block inside an HTML file. The model
covers `src/ast/inline-document-descriptor.ts`:

- `InlineParsedDocument`, the record of one inline document: its type tag,
  its raw contents, its AST node, its location offset and its attached
  comment. Later stages fill in its `scannedDocument`.
- `correctSourceLocation`, which maps a location inside the inline document
  to a location in the containing document. The line offset always applies.
  The column offset applies only on the fragment's first line. The file name
  comes from the offset and falls back to the location's own file.
- `getAttachedCommentText`, which decides whether the nearest preceding
  comment becomes documentation. It does not when the comment is missing,
  empty or a `@license` banner. Otherwise the result is the comment
  unindented and trimmed.
- `isLocationInfo` and `getLocationOffsetOfStartOfTextContent`, which find
  where a node's text content starts. They use the first child that has
  parse5 location metadata, or else the node's own. They handle both shapes
  of metadata and fail when no location exists.

Files:

- `wrappers.dfy`: `Option` (for `undefined`) and `Result` (for a thrown `Error`).
- `js_string.dfy`: JavaScript's `String.prototype.trim`, with a
  characterisation that fixes it uniquely. Also a literal regular-expression
  test, which is a substring search.
- `inline_document.dfy`: module `InlineDocumentDescriptor`, the source file itself.
- `inline_document_examples.dfy`: worked cases of each operation.

Line 84 uses `||`, not `??`, so an empty `filename` on the offset falls
back to the location's own `file`. `ZeroOffsetIsIdentity` and
`FileNamePropagation` show this.

The parse5 metadata shapes are a tagged datatype, `Plain(line, col) |
Element(startTag)`. `isLocationInfo` (lines 103-106) is its `Plain?`
discriminator. The source tests for a top-level `line` key. A metadata
record that has both a top-level `line` and a `startTag` is therefore
`Plain` in this model. `TextStartOffset` branches on `Plain?` where the
source calls `isLocationInfo`.

## Model

| member | source | states |
|---|---|---|
| `InlineDocumentDescriptor.InlineParsedDocument.constructor` | src/ast/inline-document-descriptor.ts:60-68 | stores type (as `kind`), contents, node, location offset and attached comment exactly as given; `scannedDocument` is left unset |
| `InlineDocumentDescriptor.CorrectSourceLocation` | src/ast/inline-document-descriptor.ts:71-87 | a missing location or offset passes the location through unchanged; otherwise line = location line + offset line; the column offset is added only when the location is on line 0; the result has a file exactly when the offset has a non-empty filename or the location has a file; a non-empty filename wins, else the location's file is kept |
| `InlineDocumentDescriptor.ZeroOffsetIsIdentity` | src/ast/inline-document-descriptor.ts:77-85 | an offset `{line: 0, col: 0}` with no filename or an empty one maps every location to itself, file included |
| `InlineDocumentDescriptor.CorrectSourceLocationComposes` | src/ast/inline-document-descriptor.ts:71-87 | for non-negative lines, correcting through an inner and then an outer offset equals correcting once through their composition, so nested inline documents can be handled level by level |
| `InlineDocumentDescriptor.GetAttachedCommentText` | src/ast/inline-document-descriptor.ts:89-101 | the result is undefined exactly when there is no prior comment, the nearest one is empty, or it contains `@license`; otherwise it is the unindented nearest comment with white space stripped from both ends, and no white space left at either end |
| `InlineDocumentDescriptor.LicenseCommentIsNeverAttached` | src/ast/inline-document-descriptor.ts:97-98 | a nearest comment containing `@license` anywhere is never attached, whatever comes before it |
| `InlineDocumentDescriptor.NearestCommentDecides` | src/ast/inline-document-descriptor.ts:94-100 | for a non-empty nearest comment without `@license`, the result is `trim(unindent(comment))` of that comment (index 0) alone, whatever comments lie further back |
| `InlineDocumentDescriptor.FirstChildWithLocation` | src/ast/inline-document-descriptor.ts:110 | the `find` stops at a child that has a location with no located child before it, or finds nothing when no child has a location |
| `InlineDocumentDescriptor.BestLocation` | src/ast/inline-document-descriptor.ts:110-113 | the chosen location is that of the first located child in `childNodes` order; the node's own location is used only when no child has one; it is absent exactly when neither exists |
| `InlineDocumentDescriptor.TextStartOffset` | src/ast/inline-document-descriptor.ts:119-126 | with `isLocationInfo` (lines 103-106) telling the shapes apart: a plain location gives line `loc.line - 1` and column `loc.col`; an element location gives line `startTag.line - 1` and column `startTag.endOffset`; neither has a filename |
| `InlineDocumentDescriptor.GetLocationOffsetOfStartOfTextContent` | src/ast/inline-document-descriptor.ts:108-127 | fails exactly when neither the node nor any child has a location, and never returns a default offset; otherwise it gives the text start of the first located child, else of the node itself; the result never has a filename |
| `InlineDocumentDescriptor.TextStartTranslation` | src/ast/inline-document-descriptor.ts:119-126 | correcting through a node's text-content offset puts the fragment's first line right after the metadata position, with the one-based line made zero-based; later fragment lines keep their column |
| `JsString.ContainsIsSplit` | src/ast/inline-document-descriptor.ts:97 | `/@license/.test(s)` holds exactly when `s` is some `a + "@license" + b`, for any pattern in place of `@license` |
| `JsString.LeadingWhiteSpace` | src/ast/inline-document-descriptor.ts:100 | counts the white space at the start of a string: all of it is white space and the next character is not |
| `JsString.TrailingWhiteSpace` | src/ast/inline-document-descriptor.ts:100 | counts the white space at the end of a string: all of it is white space and the character before it is not |
| `JsString.Trim` | src/ast/inline-document-descriptor.ts:100 | `trim` returns a slice of its input with only white space cut from either end, and the slice starts and ends with a non-white-space character (or is empty) |
| `JsString.TrimIsUnique` | src/ast/inline-document-descriptor.ts:100 | any slice of a string that only cuts white space off the ends and has no white space at either end is the result of `trim` |
| `JsString.TrimIsIdempotent` | src/ast/inline-document-descriptor.ts:100 | trimming a trimmed string changes nothing |
| `InlineDocumentExamples.ColumnOffsetOnlyOnFirstLine` | src/ast/inline-document-descriptor.ts:77-82 | `{line 2, column 3}` under offset `{10, 4}` is `{12, 3}`; `{0, 3}` under the same offset is `{10, 7}` |
| `InlineDocumentExamples.FileNamePropagation` | src/ast/inline-document-descriptor.ts:83-85 | the offset's `x.html` wins; without a filename, or with an empty one, the location's `y.html` is kept; an empty filename on a location without a file gives no file |
| `InlineDocumentExamples.MissingInputsPassThrough` | src/ast/inline-document-descriptor.ts:74-76 | an undefined location stays undefined; an undefined offset returns the location itself |
| `InlineDocumentExamples.UnattachedCommentCases` | src/ast/inline-document-descriptor.ts:94-98 | `"@license Foo"`, no comment at all, and an empty nearest comment all give undefined |
| `InlineDocumentExamples.AttachedCommentIsTrimmed` | src/ast/inline-document-descriptor.ts:100 | `"  Does a thing\n  "` gives `"Does a thing"` when unindenting leaves it as it is |
| `InlineDocumentExamples.TextContentOffsetCases` | src/ast/inline-document-descriptor.ts:108-127 | the second child's plain `{5, 2}` beats a later child and the element's own location and gives `{4, 2}`; an element location `{startTag: {5, 20}}` with no located child gives `{4, 20}`; no location anywhere fails |

## Left out

- `dom5.nodeWalkAllPrior` and `dom5.isCommentNode` (line 94) belong to a tree-walking library. The model takes the comments before the node as a sequence, nearest first, and does not re-derive the library's traversal order.
- `jsdoc.unindent` (line 100): its source is not part of this model. It is a function-valued parameter, and nothing is assumed about it.
- `util.inspect` in the error message (line 117) only formats text. The thrown `Error` is the failure `NoLocationInNode`, without a message.
- JavaScript numbers are modelled as unbounded integers. Fractional values, `NaN` and loss of precision above 2^53 are not modelled.
- JavaScript strings are sequences of UTF-16 code units. The model uses Unicode scalar values, so `trim`'s white-space set is written by code point.
- `InlineDocumentDescriptor.CorrectSourceLocation`: when the offset's `filename` is `""` and the location has no `file`, the source still sets the key `file` to `undefined`. The model gives no file. The two read the same to every `!= null` or truthiness test.
- The later assignment of `scannedDocument` by the scanning stage is not in this file. The model only shows that the constructor leaves it unset.
- `ScannedFeature`, `ScannedDocument`, `SourceLocation` and the parse5 node types are external. Only the fields this file reads are modelled: `line`, `column`, `file`, `col`, `startTag.line`, `startTag.endOffset`, `__location` and `childNodes` of tree nodes, and `data` of comment nodes (each string of `priorComments` is one comment's `data`).
- Non-negative offsets: the source does not check that a metadata line is at least 1 (lines 120 and 123). No lemma claims that results are non-negative. `CorrectSourceLocationComposes` requires non-negative lines explicitly.
