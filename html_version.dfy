/** `detectHTMLVersion`: the document version named by a doctype literal. */
module HtmlVersion {
  import opened AsciiStrings

  const HTML5 := "HTML5"
  const XHTML := "XHTML"
  /** Written with a space, as the analyzer reports it. */
  const HTML401 := "HTML 4.01"

  /** The doctype as the classifier compares it: trimmed, then lower-cased. */
  function Normalized(doctype: string): string {
    ToLower(TrimSpace(doctype))
  }

  /** The version label of a doctype literal; always one of the three labels. */
  function DetectHTMLVersion(doctype: string): (v: string)
    ensures v == HTML5 || v == XHTML || v == HTML401
  {
    Classify(Normalized(doctype))
  }

  /** The tests applied to the normalized doctype, in the analyzer's order. */
  function Classify(d: string): string {
    if d == "html" then HTML5
    else if Contains(d, "xhtml") then XHTML
    else if Contains(d, "html 4") then HTML401
    else HTML5
  }

  /** What each label means, independently of the order of the tests: the
      exact-"html" test only ever agrees with the default, `xhtml` takes
      precedence over `html 4`, and everything else is HTML5. */
  lemma DetectCharacterization(doctype: string)
    ensures DetectHTMLVersion(doctype) == XHTML <==> Contains(Normalized(doctype), "xhtml")
    ensures DetectHTMLVersion(doctype) == HTML401 <==>
              !Contains(Normalized(doctype), "xhtml") && Contains(Normalized(doctype), "html 4")
    ensures DetectHTMLVersion(doctype) == HTML5 <==>
              !Contains(Normalized(doctype), "xhtml") && !Contains(Normalized(doctype), "html 4")
  {
    var d := Normalized(doctype);
    if d == "html" {
      if Contains(d, "xhtml") { ContainsShorter(d, "xhtml"); }
      if Contains(d, "html 4") { ContainsShorter(d, "html 4"); }
    }
  }

  /** The classification ignores letter case. */
  lemma DetectIgnoresCase(doctype: string)
    ensures DetectHTMLVersion(ToLower(doctype)) == DetectHTMLVersion(doctype)
  {
    TrimSpaceLower(doctype);
    ToLowerIdempotent(TrimSpace(doctype));
  }

  /** The classification ignores white space around the doctype. */
  lemma DetectIgnoresSurroundingSpace(pre: string, doctype: string, post: string)
    requires AllSpace(pre) && AllSpace(post)
    ensures DetectHTMLVersion(pre + doctype + post) == DetectHTMLVersion(doctype)
  {
    TrimSpaceSurrounded(pre, doctype, post);
  }

  /** The HTML5 doctype literal of the analyzer's version tests. */
  lemma DetectPlainHtml()
    ensures DetectHTMLVersion("html") == HTML5
  {
    assert TrimSpace("html") == "html" by {
      assert !IsSpace('h') && !IsSpace('l');
    }
    assert ToLower("html") == "html" by {
      var r := ToLower("html");
      assert r[0] == 'h' && r[1] == 't' && r[2] == 'm' && r[3] == 'l';
    }
  }

  /** The same literal in upper case. */
  lemma DetectUpperHtml()
    ensures DetectHTMLVersion("HTML") == HTML5
  {
    assert ToLower("HTML") == "html" by {
      var r := ToLower("HTML");
      assert r[0] == 'h' && r[1] == 't' && r[2] == 'm' && r[3] == 'l';
    }
    DetectIgnoresCase("HTML");
    DetectPlainHtml();
  }

  /** The same literal padded with blanks. */
  lemma DetectPaddedHtml()
    ensures DetectHTMLVersion("  html  ") == HTML5
  {
    assert "  html  " == "  " + "html" + "  ";
    assert AllSpace("  ");
    DetectIgnoresSurroundingSpace("  ", "html", "  ");
    DetectPlainHtml();
  }

  const Xhtml11Doctype := "html PUBLIC \"-//W3C//DTD XHTML 1.1//EN\""

  /** An XHTML 1.1 doctype literal of the analyzer's version tests, which
      also names "html" up front. */
  lemma DetectXhtmlDoctype()
    ensures DetectHTMLVersion(Xhtml11Doctype) == XHTML
  {
    assert TrimSpace(Xhtml11Doctype) == Xhtml11Doctype by {
      assert !IsSpace(Xhtml11Doctype[0]) && !IsSpace(Xhtml11Doctype[|Xhtml11Doctype| - 1]);
    }
    XhtmlDoctypeLower();
    ContainsAt(ToLower(Xhtml11Doctype), "xhtml");
    DetectCharacterization(Xhtml11Doctype);
  }

  lemma XhtmlDoctypeLower()
    ensures OccursAt(ToLower(Xhtml11Doctype), "xhtml", 25)
  {
    var d := ToLower(Xhtml11Doctype);
    assert d[25] == 'x' && d[26] == 'h' && d[27] == 't' && d[28] == 'm' && d[29] == 'l';
  }

  /** Written in three parts: the root element, the owner, the label. */
  const Html401Doctype := "html PUBLIC " + "\"-//W3C//DTD " + "HTML 4.01//EN\""

  /** An HTML 4.01 doctype literal of the analyzer's version tests: it
      names "HTML 4" and has no "x" anywhere, so no "xhtml" either. */
  lemma DetectHtml401()
    ensures DetectHTMLVersion(Html401Doctype) == HTML401
  {
    assert TrimSpace(Html401Doctype) == Html401Doctype by {
      assert !IsSpace(Html401Doctype[0]) && !IsSpace(Html401Doctype[|Html401Doctype| - 1]);
    }
    var d := ToLower(Html401Doctype);
    assert 'x' !in d by {
      Html401DoctypeHasNoX();
      ToLowerFrom(Html401Doctype, 'x');
    }
    ContainsHasFirst(d, "xhtml");
    Html401DoctypeLower();
    ContainsAt(d, "html 4");
    DetectCharacterization(Html401Doctype);
  }

  lemma Html401DoctypeLower()
    ensures OccursAt(ToLower(Html401Doctype), "html 4", 25)
  {
    var d := ToLower(Html401Doctype);
    assert d[25] == 'h' && d[26] == 't' && d[27] == 'm' && d[28] == 'l' && d[29] == ' ' && d[30] == '4';
  }

  lemma Html401DoctypeHasNoX()
    ensures 'x' !in Html401Doctype && 'X' !in Html401Doctype
  {
    assert 'x' !in "html PUBLIC " && 'X' !in "html PUBLIC ";
    assert 'x' !in "\"-//W3C//DTD " && 'X' !in "\"-//W3C//DTD ";
    assert 'x' !in "HTML 4.01//EN\"" && 'X' !in "HTML 4.01//EN\"";
  }
}
