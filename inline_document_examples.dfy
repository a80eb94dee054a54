/** Worked cases of the inline-document operations. */
module InlineDocumentExamples {
  import opened Wrappers
  import opened JsString
  import opened InlineDocumentDescriptor

  /** Off the first line the column offset is not applied; on it, it is. */
  lemma ColumnOffsetOnlyOnFirstLine()
    ensures CorrectSourceLocation(Some(SourceLocation(2, 3, None)), Some(LocationOffset(10, 4, None)))
         == Some(SourceLocation(12, 3, None))
    ensures CorrectSourceLocation(Some(SourceLocation(0, 3, None)), Some(LocationOffset(10, 4, None)))
         == Some(SourceLocation(10, 7, None))
  {
  }

  /** The offset's file name wins; without one (or with an empty one) the
      location keeps its own file. */
  lemma FileNamePropagation()
    ensures CorrectSourceLocation(Some(SourceLocation(0, 5, None)), Some(LocationOffset(1, 2, Some("x.html"))))
         == Some(SourceLocation(1, 7, Some("x.html")))
    ensures CorrectSourceLocation(Some(SourceLocation(0, 5, Some("y.html"))), Some(LocationOffset(1, 2, None)))
         == Some(SourceLocation(1, 7, Some("y.html")))
    ensures CorrectSourceLocation(Some(SourceLocation(0, 5, Some("y.html"))), Some(LocationOffset(1, 2, Some(""))))
         == Some(SourceLocation(1, 7, Some("y.html")))
    ensures CorrectSourceLocation(Some(SourceLocation(3, 5, None)), Some(LocationOffset(1, 2, Some(""))))
         == Some(SourceLocation(4, 5, None))
  {
  }

  /** A missing location or offset passes through. */
  lemma MissingInputsPassThrough(loc: SourceLocation)
    ensures CorrectSourceLocation(None, Some(LocationOffset(1, 2, None))) == None
    ensures CorrectSourceLocation(Some(loc), None) == Some(loc)
  {
  }

  /** A license banner, a missing comment and an empty nearest comment give
      nothing. */
  lemma UnattachedCommentCases(unindent: string -> string)
    ensures GetAttachedCommentText(["@license Foo"], unindent) == None
    ensures GetAttachedCommentText([], unindent) == None
    ensures GetAttachedCommentText(["", "Older"], unindent) == None
  {
    assert OccursAt("@license Foo", "@license", 0);
  }

  /** The worked comment carries no license marker. */
  lemma WorkedCommentHasNoLicense()
    ensures !Contains("  Does a thing\n  ", "@license")
  {
    var c := "  Does a thing\n  ";
    forall i | 0 <= i <= |c| - 8 ensures !OccursAt(c, "@license", i) {
      assert c[i..i + 8][0] == c[i];
    }
  }

  /** The worked comment trims to its words. */
  lemma WorkedCommentTrims()
    ensures Trim("  Does a thing\n  ") == "Does a thing"
  {
    var c := "  Does a thing\n  ";
    assert IsStrippingOf("Does a thing", c, 2) by {
      assert c[2..14] == "Does a thing";
      assert c[..2] == "  " && c[14..] == "\n  ";
    }
    TrimIsUnique(c, "Does a thing", 2);
  }

  /** A plain comment is unindented and trimmed. */
  lemma AttachedCommentIsTrimmed(unindent: string -> string)
    requires unindent("  Does a thing\n  ") == "  Does a thing\n  "
    ensures GetAttachedCommentText(["  Does a thing\n  "], unindent) == Some("Does a thing")
  {
    WorkedCommentHasNoLicense();
    WorkedCommentTrims();
  }

  /** The first located child decides; an element location gives the end of
      its opening tag; no location at all is an error. */
  lemma TextContentOffsetCases()
    ensures GetLocationOffsetOfStartOfTextContent(
              Node(Some(Element(TagLocation(1, 9))), [Node(None, []), Node(Some(Plain(5, 2)), []), Node(Some(Plain(7, 0)), [])]))
         == Success(LocationOffset(4, 2, None))
    ensures GetLocationOffsetOfStartOfTextContent(Node(Some(Element(TagLocation(5, 20))), [Node(None, [])]))
         == Success(LocationOffset(4, 20, None))
    ensures GetLocationOffsetOfStartOfTextContent(Node(None, [Node(None, []), Node(None, [])])) == Failure(NoLocationInNode)
  {
  }
}
