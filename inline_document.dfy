/** Inline (embedded) documents, such as a `<script>` or `<style>` block
    inside an HTML document: their descriptor, the translation of locations
    found inside them back to the containing document, and the two pieces of
    metadata read off the parse5 tree (where the text content starts, and
    the documentation comment in front of the node). */
module InlineDocumentDescriptor {
  import opened Wrappers
  import opened JsString

  /** Where an inline document starts inside its container: zero-based line
      and column, and optionally the url of the source file. */
  datatype LocationOffset = LocationOffset(line: int, col: int, filename: Option<string>)

  /** A zero-based point, either inside an inline document or, once
      corrected, inside the containing document. */
  datatype SourceLocation = SourceLocation(line: int, column: int, file: Option<string>)

  /** parse5 location metadata of a node: a plain `{line, col}` record, or
      an element record whose `startTag` holds the opening tag's line and
      end offset. Lines are one-based. */
  datatype TagLocation = TagLocation(line: int, endOffset: int)
  datatype LocationInfo = Plain(line: int, col: int) | Element(startTag: TagLocation)

  /** A parse5 tree node, reduced to its `__location` and its `childNodes`. */
  datatype Node = Node(location: Option<LocationInfo>, childNodes: seq<Node>)

  /** The `Error` thrown when no location can be found. */
  datatype ExtractionError = NoLocationInNode

  /** Represents an inline document. `N` is the AST node type, `D` the type of
      the scanned document that later stages attach. */
  class InlineParsedDocument<N, D> {
    var kind: string
    var contents: string
    var node: N
    var locationOffset: LocationOffset
    var attachedComment: Option<string>
    var scannedDocument: Option<D>

    constructor (kind: string, contents: string, node: N,
                 locationOffset: LocationOffset, attachedComment: Option<string>)
      ensures this.kind == kind && this.contents == contents && this.node == node
      ensures this.locationOffset == locationOffset && this.attachedComment == attachedComment
      ensures scannedDocument == None
    {
      this.kind := kind;
      this.contents := contents;
      this.node := node;
      this.locationOffset := locationOffset;
      this.attachedComment := attachedComment;
      scannedDocument := None;
    }
  }

  /** JavaScript's `a || b` on two optional strings: `undefined` and the
      empty string are falsy. */
  function OrElse(a: Option<string>, b: Option<string>): Option<string> {
    if a.Some? && a.value != "" then a else b
  }

  /** Translates a location inside an inline document to the containing
      document. The line offset always applies; the column offset only on the
      first line, since every later line of the fragment starts at column 0 of
      a real line. */
  function CorrectSourceLocation(sourceLocation: Option<SourceLocation>,
                                 locationOffset: Option<LocationOffset>): (r: Option<SourceLocation>)
    ensures sourceLocation == None || locationOffset == None ==> r == sourceLocation
    ensures sourceLocation.Some? && locationOffset.Some? ==>
      var loc, off := sourceLocation.value, locationOffset.value;
      && r.Some?
      && r.value.line == loc.line + off.line
      && r.value.column == (if loc.line == 0 then loc.column + off.col else loc.column)
      && (r.value.file.Some? <==> (off.filename.Some? && off.filename.value != "") || loc.file.Some?)
      && (off.filename.Some? && off.filename.value != "" ==> r.value.file == off.filename)
      && (off.filename.None? || off.filename == Some("") ==> r.value.file == loc.file)
  {
    if locationOffset.None? || sourceLocation.None? then sourceLocation
    else
      var loc, off := sourceLocation.value, locationOffset.value;
      // `result.file` is only assigned when one of the two is present; when the
      // filename is "" and the input has no file the assigned value is
      // `undefined`, which reads the same as an absent file.
      var file := if off.filename.Some? || loc.file.Some? then OrElse(off.filename, loc.file) else None;
      Some(SourceLocation(loc.line + off.line, loc.column + (if loc.line == 0 then off.col else 0), file))
  }

  /** An offset of zero with no file name (or an empty one, which `||`
      skips) leaves every location as it is. */
  lemma ZeroOffsetIsIdentity(loc: SourceLocation, filename: Option<string>)
    requires filename == None || filename == Some("")
    ensures CorrectSourceLocation(Some(loc), Some(LocationOffset(0, 0, filename))) == Some(loc)
  {
  }

  /** The single offset that does what `inner` followed by `outer` does. */
  function ComposeOffsets(inner: LocationOffset, outer: LocationOffset): LocationOffset {
    LocationOffset(inner.line + outer.line,
                   inner.col + (if inner.line == 0 then outer.col else 0),
                   OrElse(outer.filename, inner.filename))
  }

  /** Correcting through two levels of nesting, one after the other, is
      correcting once by the composed offset (lines are zero-based, so never
      negative). */
  lemma CorrectSourceLocationComposes(loc: SourceLocation, inner: LocationOffset, outer: LocationOffset)
    requires loc.line >= 0 && inner.line >= 0
    ensures CorrectSourceLocation(CorrectSourceLocation(Some(loc), Some(inner)), Some(outer))
         == CorrectSourceLocation(Some(loc), Some(ComposeOffsets(inner, outer)))
  {
  }

  /** The documentation text of a node: none when the nearest prior comment
      is missing, empty or a license banner; otherwise that comment unindented
      and trimmed. `priorComments` holds the comments
      that come before the node in document order, nearest first, and
      `unindent` is the de-indentation routine of the jsdoc helpers. */
  function GetAttachedCommentText(priorComments: seq<string>, unindent: string -> string): (r: Option<string>)
    ensures r == None <==>
      priorComments == [] || priorComments[0] == "" || Contains(priorComments[0], "@license")
    ensures r.Some? ==> IsTrimmed(r.value)
    ensures r.Some? ==> IsStrippingOf(r.value, unindent(priorComments[0]), LeadingWhiteSpace(unindent(priorComments[0])))
  {
    var comment := if priorComments != [] then Some(priorComments[0]) else None;
    if comment.None? || comment.value == "" || Contains(comment.value, "@license") then None
    else Some(Trim(unindent(comment.value)))
  }

  /** A comment holding `@license` anywhere is never attached. */
  lemma LicenseCommentIsNeverAttached(before: string, after: string, rest: seq<string>,
                                      unindent: string -> string)
    ensures GetAttachedCommentText([before + "@license" + after] + rest, unindent) == None
  {
    ContainsIsSplit(before + "@license" + after, "@license");
  }

  /** Only the nearest comment matters: with no license marker in it, its
      unindented and trimmed text is the result whatever lies further back. */
  lemma NearestCommentDecides(comment: string, rest: seq<string>, unindent: string -> string)
    requires comment != "" && !Contains(comment, "@license")
    ensures GetAttachedCommentText([comment] + rest, unindent) == Some(Trim(unindent(comment)))
  {
  }

  /** `i` is the first of `children` that has a location. */
  ghost predicate IsFirstLocated(children: seq<Node>, i: int) {
    && 0 <= i < |children|
    && children[i].location.Some?
    && forall j :: 0 <= j < i ==> children[j].location == None
  }

  /** None of `children` has a location. */
  ghost predicate NoneLocated(children: seq<Node>) {
    forall j :: 0 <= j < |children| ==> children[j].location == None
  }

  /** The index that `childNodes.find(n => !!n.__location)` stops at. */
  function FirstChildWithLocation(children: seq<Node>): (r: Option<nat>)
    ensures r.Some? ==> IsFirstLocated(children, r.value)
    ensures r == None ==> NoneLocated(children)
  {
    if children == [] then None
    else if children[0].location.Some? then Some(0)
    else
      match FirstChildWithLocation(children[1..])
      case None => None
      case Some(i) => Some(i + 1)
  }

  /** The location the text content starts from: that of the first child
      that has one, else the node's own. */
  function BestLocation(node: Node): (r: Option<LocationInfo>)
    ensures r == None <==> node.location == None && NoneLocated(node.childNodes)
    ensures forall i | IsFirstLocated(node.childNodes, i) :: r == node.childNodes[i].location
    ensures NoneLocated(node.childNodes) ==> r == node.location
  {
    match FirstChildWithLocation(node.childNodes)
    case Some(i) => node.childNodes[i].location
    case None => node.location
  }

  /** The zero-based offset at which the text after a location starts. */
  function TextStartOffset(loc: LocationInfo): (off: LocationOffset)
    ensures off.filename == None
    ensures loc.Plain? ==> off.line + 1 == loc.line && off.col == loc.col
    ensures loc.Element? ==> off.line + 1 == loc.startTag.line && off.col == loc.startTag.endOffset
  {
    // `isLocationInfo(loc)`, the test for a top-level `line`, is `loc.Plain?`
    if loc.Plain? then LocationOffset(loc.line - 1, loc.col, None)
    else LocationOffset(loc.startTag.line - 1, loc.startTag.endOffset, None)
  }

  /** Where the text content of `node` starts; fails, rather than return a
      default, when neither the node nor any child has a location. */
  function GetLocationOffsetOfStartOfTextContent(node: Node): (r: Result<LocationOffset, ExtractionError>)
    ensures r.Failure? <==> node.location == None && NoneLocated(node.childNodes)
    ensures r.Success? ==> r.value.filename == None
    ensures forall i | IsFirstLocated(node.childNodes, i) ::
      r == Success(TextStartOffset(node.childNodes[i].location.value))
    ensures NoneLocated(node.childNodes) && node.location.Some? ==>
      r == Success(TextStartOffset(node.location.value))
  {
    var bestLocation := BestLocation(node);
    if bestLocation.None? then Failure(NoLocationInNode)
    else Success(TextStartOffset(bestLocation.value))
  }

  /** Read through the offset of a node whose best location is `loc`, a
      point on the fragment's first line lands after the start of the text
      (the one-based metadata line made zero-based), and a point on a later
      fragment line keeps its column. */
  lemma TextStartTranslation(node: Node, loc: LocationInfo, line: int, column: int)
    requires BestLocation(node) == Some(loc)
    ensures var off := GetLocationOffsetOfStartOfTextContent(node);
      var (metaLine, metaCol) := if loc.Plain? then (loc.line, loc.col) else (loc.startTag.line, loc.startTag.endOffset);
      && off.Success?
      && CorrectSourceLocation(Some(SourceLocation(0, column, None)), Some(off.value))
         == Some(SourceLocation(metaLine - 1, metaCol + column, None))
      && (line != 0 ==>
            CorrectSourceLocation(Some(SourceLocation(line, column, None)), Some(off.value))
            == Some(SourceLocation(metaLine - 1 + line, column, None)))
  {
  }
}
