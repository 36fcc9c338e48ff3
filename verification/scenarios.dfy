/** Concrete runs of the writer, each the situation one of the project's
    test cases describes (tests/test_streamxmlwriter.py), derived from the
    model rather than restated. */
module Scenarios {
  import opened Results
  import opened Lexical
  import opened Escape
  import opened Names
  import opened Ordering
  import opened Writer
  import opened WriterProperties

  /** A writer as `XMLWriter(file)` creates it: utf-8, no pretty-printing,
      alphabetical attributes, abbreviated empty elements. */
  const Default: Config := Config(Utf8, false, Alphabetical, true)

  lemma PlainOpen(w: Writer, name: string)
    requires ParentScope(w) == RootScope && w.newNamespaces == map[]
    requires |name| > 0 && name[0] != '{'
    ensures Open(w, name, [], map[]).Ok?
    ensures var o := Open(w, name, [], map[]).value;
      o.element.scope == RootScope && o.element.tag == name && o.items == []
  {
    DeriveScopeNothingPending(RootScope);
    assert w.newNamespaces + map[] == map[];
    ResolvePlainName(name, RootScope, map[]);
    var t := Resolve(name, RootScope, map[]).value;
    assert t.scope.Keys == RootScope.Keys;
  }

  /** What `start` writes for an element that declares nothing and has no
      attributes. */
  lemma BareStartText(w: Writer, o: Opening, out: string)
    requires o.element.scope == RootScope && ParentScope(w) == RootScope && o.items == []
    requires out == StartLead(w) + "<" + o.element.tag
      + XmlnsText(Declarations(o.element.scope, ParentScope(w)), w.config.encoding)
      + AttributesText(Arrange(w.config.sort, o.element.tag, o.items), w.config.encoding)
    ensures out == StartLead(w) + "<" + o.element.tag
  {
    NothingChangedNothingDeclared(RootScope);
    assert Arrange(w.config.sort, o.element.tag, []) == [];
    assert XmlnsText([], w.config.encoding) == "";
    assert AttributesText([], w.config.encoding) == "";
  }

  lemma PlainStartOut(w: Writer, name: string)
    requires ParentScope(w) == RootScope && w.newNamespaces == map[]
    requires |name| > 0 && name[0] != '{'
    ensures Start(w, name, [], map[]).Ok?
    ensures Start(w, name, [], map[]).value.out == StartLead(w) + "<" + name
  {
    PlainOpen(w, name);
    BareStartText(w, Open(w, name, [], map[]).value, Start(w, name, [], map[]).value.out);
  }

  /** The writer after `start` of an element whose scope is the root scope. */
  lemma BareStartWriter(w: Writer, e: OpenElement, next: Writer)
    requires e.scope == RootScope && w.newNamespaces == map[]
    requires next == w.(tags := w.tags + [e], startTagOpen := true,
        newNamespaces := w.newNamespaces + map[], started := true, wroteData := false)
    ensures && |next.tags| == |w.tags| + 1 && next.tags[..|w.tags|] == w.tags
      && next.tags[|w.tags|] == e && ParentScope(next) == RootScope
      && next.newNamespaces == map[] && next.startTagOpen && !next.wroteData && next.started
  {
    assert w.newNamespaces + map[] == map[];
  }

  lemma PlainStartWriter(w: Writer, name: string)
    requires ParentScope(w) == RootScope && w.newNamespaces == map[]
    requires |name| > 0 && name[0] != '{'
    requires Start(w, name, [], map[]).Ok?
    ensures var next := Start(w, name, [], map[]).value.writer;
      && |next.tags| == |w.tags| + 1 && next.tags[..|w.tags|] == w.tags
      && next.tags[|w.tags|].tag == name && ParentScope(next) == RootScope
      && next.newNamespaces == map[] && next.startTagOpen && !next.wroteData && next.started
  {
    PlainOpen(w, name);
    BareStartWriter(w, Open(w, name, [], map[]).value.element, Start(w, name, [], map[]).value.writer);
  }

  /** An element with a plain name and no attributes, inside elements that
      bind no namespace and with nothing pending, is written as `<name`
      after what finishes the previous output. */
  lemma PlainStart(w: Writer, name: string)
    requires ParentScope(w) == RootScope && w.newNamespaces == map[]
    requires |name| > 0 && name[0] != '{'
    ensures Start(w, name, [], map[]).Ok?
    ensures Start(w, name, [], map[]).value.out == StartLead(w) + "<" + name
    ensures var next := Start(w, name, [], map[]).value.writer;
      && |next.tags| == |w.tags| + 1 && next.tags[..|w.tags|] == w.tags
      && next.tags[|w.tags|].tag == name && ParentScope(next) == RootScope
      && next.newNamespaces == map[] && next.startTagOpen && !next.wroteData && next.started
  {
    PlainStartOut(w, name);
    PlainStartWriter(w, name);
  }

  /** Closing a lone element whose start tag is still open. */
  lemma CloseLoneElement(w: Writer)
    requires |w.tags| == 1 && w.startTagOpen
    ensures Close(w).out == if w.config.abbrevEmpty then " />" else "></" + w.tags[0].tag + ">"
  {
    var e := End(w, None).value;
    assert e.writer.tags == [];
    assert Close(e.writer).out == "";
  }

  lemma EmptyLead(w: Writer)
    requires Valid(w) && w.tags == []
    ensures StartLead(w) + "<" == "<"
  {
  }

  /** The whole of a plain-named empty root element: ` />` or `></name>`
      follows `<name`. */
  lemma PlainRootElement(w: Writer, name: string)
    requires Valid(w) && w.tags == [] && w.newNamespaces == map[]
    requires |name| > 0 && name[0] != '{'
    ensures Start(w, name, [], map[]).Ok?
    ensures var s := Start(w, name, [], map[]).value;
      s.out + Close(s.writer).out == "<" + name + (if w.config.abbrevEmpty then " />" else "></" + name + ">")
  {
    PlainStart(w, name);
    var s := Start(w, name, [], map[]).value;
    EmptyLead(w);
    CloseLoneElement(s.writer);
  }

  lemma SingleElementText()
    ensures "<" + "foo" + " />" == "<foo />"
  {
  }

  /** `<foo />` (lines 35-39 of the tests). */
  lemma SingleElement()
    ensures var s := Start(Init(Default).writer, "foo", [], map[]);
      s.Ok? && s.value.out + Close(s.value.writer).out == "<foo />"
  {
    var w := Init(Default).writer;
    assert "foo"[0] != '{';
    PlainRootElement(w, "foo");
    SingleElementText();
  }

  lemma NoAbbreviationText()
    ensures "<" + "a" + ("></" + "a" + ">") == "<a></a>"
  {
  }

  /** With `abbrev_empty=False`: `<a></a>` (lines 109-113 of the tests). */
  lemma NoAbbreviation()
    ensures var s := Start(Init(Config(Utf8, false, Alphabetical, false)).writer, "a", [], map[]);
      s.Ok? && s.value.out + Close(s.value.writer).out == "<a></a>"
  {
    var w := Init(Config(Utf8, false, Alphabetical, false)).writer;
    assert "a"[0] != '{';
    PlainRootElement(w, "a");
    NoAbbreviationText();
  }

  lemma ExpandCons(ctx: Context, c: char, s: string, enc: Encoding)
    ensures Expand(ctx, [c] + s, enc) == Piece(ctx, c, enc) + Expand(ctx, s, enc)
  {
    assert ([c] + s)[1..] == s;
  }

  lemma CdataTail()
    ensures Expand(CharacterData, ">&", Utf8) == "&gt;" + ("&amp;" + "")
  {
    assert ">&" == ['>'] + "&";
    ExpandCons(CharacterData, '>', "&", Utf8);
    assert "&" == ['&'] + "";
    ExpandCons(CharacterData, '&', "", Utf8);
  }

  lemma CdataWhole()
    ensures Expand(CharacterData, "<>&", Utf8) == "&lt;" + ("&gt;" + ("&amp;" + ""))
  {
    assert "<>&" == ['<'] + ">&";
    ExpandCons(CharacterData, '<', ">&", Utf8);
    CdataTail();
  }

  lemma EscapeCharacterDataText()
    ensures "&lt;" + ("&gt;" + ("&amp;" + "")) == "&lt;&gt;&amp;"
  {
  }

  /** `&lt;&gt;&amp;` (lines 66-71 of the tests). */
  lemma EscapeCharacterData()
    ensures EscapeCdata("<>&", Utf8) == "&lt;&gt;&amp;"
  {
    EscapeCdataIsSinglePass("<>&", Utf8);
    CdataWhole();
    EscapeCharacterDataText();
  }

  lemma AttributeTail()
    ensures Expand(AttributeValue, ">&\"", Utf8) == ">" + ("&amp;" + ("&quot;" + ""))
  {
    assert ">&\"" == ['>'] + "&\"";
    ExpandCons(AttributeValue, '>', "&\"", Utf8);
    assert "&\"" == ['&'] + "\"";
    ExpandCons(AttributeValue, '&', "\"", Utf8);
    assert "\"" == ['"'] + "";
    ExpandCons(AttributeValue, '"', "", Utf8);
  }

  lemma AttributeWhole()
    ensures Expand(AttributeValue, "<>&\"", Utf8) == "&lt;" + (">" + ("&amp;" + ("&quot;" + "")))
  {
    assert "<>&\"" == ['<'] + ">&\"";
    ExpandCons(AttributeValue, '<', ">&\"", Utf8);
    AttributeTail();
  }

  lemma EscapeAttributeText()
    ensures "&lt;" + (">" + ("&amp;" + ("&quot;" + ""))) == "&lt;>&amp;&quot;"
  {
  }

  /** `&lt;>&amp;&quot;`: `>` is left alone in attribute values (lines
      60-64 of the tests). */
  lemma EscapeAttributeValue()
    ensures EscapeAttribute("<>&\"", Utf8) == "&lt;>&amp;&quot;"
  {
    EscapeAttributeIsSinglePass("<>&\"", Utf8);
    AttributeWhole();
    EscapeAttributeText();
  }

  lemma SnowmanDecimal()
    ensures Decimal(9731) == "9731"
  {
    assert Decimal(9) == "9";
    assert Decimal(97) == "9" + "7";
    assert Decimal(973) == "97" + "3";
    assert Decimal(9731) == "973" + "1";
  }

  lemma SnowmanReference(enc: Encoding)
    requires enc != Utf8
    ensures Expand(CharacterData, "\U{2603}", enc) == "&#9731;"
  {
    assert "\U{2603}" == ['\U{2603}'] + "";
    ExpandCons(CharacterData, '\U{2603}', "", enc);
    SnowmanDecimal();
    assert '\U{2603}' as int == 9731;
    assert CharRef('\U{2603}') == "&#" + "9731" + ";";
  }

  /** Under us-ascii the snowman becomes `&#9731;` (lines 73-88 of the tests). */
  lemma SnowmanUnderAscii()
    ensures EscapeCdata("\U{2603}", UsAscii) == "&#9731;"
  {
    EscapeCdataIsSinglePass("\U{2603}", UsAscii);
    SnowmanReference(UsAscii);
  }

  lemma LatinSplit()
    ensures "\U{E5}\U{2603}" == ['\U{E5}'] + "\U{2603}"
  {
  }

  lemma LatinLetterKept()
    ensures Piece(CharacterData, '\U{E5}', Latin1) == "\U{E5}"
  {
  }

  lemma LatinText()
    ensures "\U{E5}" + "&#9731;" == "\U{E5}&#9731;"
  {
  }

  /** Under iso-8859-1 a Latin-1 letter is written as itself, the snowman as
      a character reference. */
  lemma LatinKeepsLatinLetters()
    ensures EscapeCdata("\U{E5}\U{2603}", Latin1) == "\U{E5}&#9731;"
  {
    EscapeCdataIsSinglePass("\U{E5}\U{2603}", Latin1);
    LatinSplit();
    ExpandCons(CharacterData, '\U{E5}', "\U{2603}", Latin1);
    LatinLetterKept();
    SnowmanReference(Latin1);
    LatinText();
  }

  /** Data in an element whose start tag is still open, then its end:
      `>`, the text, and the end tag. */
  lemma DataThenEnd(x: Writer, text: string)
    requires Valid(x) && |x.tags| > 0 && x.startTagOpen
    requires !(x.config.prettyPrint && IsBlank(text))
    requires EscapeCdata(text, x.config.encoding) == text
    ensures var d := Data(x, text);
      && End(d.writer, None).Ok?
      && d.out + End(d.writer, None).value.out == ">" + text + "</" + x.tags[|x.tags| - 1].tag + ">"
  {
    DataAfterOpenTag(x, text);
    EndAfterDataStep(Data(x, text), text, x.tags[|x.tags| - 1].tag);
  }

  lemma DataAfterOpenTag(x: Writer, text: string)
    requires x.startTagOpen && !(x.config.prettyPrint && IsBlank(text))
    requires EscapeCdata(text, x.config.encoding) == text
    ensures var d := Data(x, text);
      d.out == ">" + text && d.writer.tags == x.tags && d.writer.wroteData && !d.writer.startTagOpen
  {
  }

  lemma EndAfterDataStep(d: Step, text: string, tag: string)
    requires d.out == ">" + text
    requires |d.writer.tags| > 0 && d.writer.wroteData && !d.writer.startTagOpen
    requires d.writer.tags[|d.writer.tags| - 1].tag == tag
    ensures End(d.writer, None).Ok?
    ensures d.out + End(d.writer, None).value.out == ">" + text + "</" + tag + ">"
  {
    EndAfterData(d.writer);
    DataThenEndText(text, tag);
  }

  lemma DataThenEndText(text: string, tag: string)
    ensures (">" + text) + ("</" + tag + ">") == ">" + text + "</" + tag + ">"
  {
  }

  lemma EndAfterData(y: Writer)
    requires |y.tags| > 0 && y.wroteData && !y.startTagOpen
    ensures End(y, None).Ok? && End(y, None).value.out == "</" + y.tags[|y.tags| - 1].tag + ">"
  {
    assert EndText(y) == "</" + y.tags[|y.tags| - 1].tag + ">";
  }

  /** A plain root element holding text that needs no escaping:
      `<name>text</name>`. */
  lemma TextInRoot(w: Writer, name: string, text: string)
    requires Valid(w) && w.tags == [] && w.newNamespaces == map[]
    requires |name| > 0 && name[0] != '{'
    requires !(w.config.prettyPrint && IsBlank(text))
    requires EscapeCdata(text, w.config.encoding) == text
    ensures Start(w, name, [], map[]).Ok?
    ensures var s := Start(w, name, [], map[]).value;
      var d := Data(s.writer, text);
      && End(d.writer, None).Ok?
      && s.out + (d.out + End(d.writer, None).value.out) == "<" + name + (">" + text + "</" + name + ">")
  {
    PlainStart(w, name);
    EmptyLead(w);
    var s := Start(w, name, [], map[]).value;
    DataThenEnd(s.writer, text);
    var d := Data(s.writer, text);
    TextInRootText(name, text, s.out, d.out + End(d.writer, None).value.out);
  }

  lemma TextInRootText(name: string, text: string, open: string, rest: string)
    requires open == "<" + name
    requires rest == ">" + text + "</" + name + ">"
    ensures open + rest == "<" + name + (">" + text + "</" + name + ">")
  {
  }

  lemma BarText()
    ensures EscapeCdata("bar", Utf8) == "bar"
  {
    PlainTextUnchanged("bar", Utf8);
  }

  lemma FooBarText()
    ensures "<" + "foo" + (">" + "bar" + "</" + "foo" + ">") == "<foo>bar</foo>"
  {
  }

  /** `<foo>bar</foo>` (lines 41-46 of the tests). */
  lemma TextData()
    ensures var s := Start(Init(Default).writer, "foo", [], map[]);
      && s.Ok?
      && var d := Data(s.value.writer, "bar");
      && End(d.writer, None).Ok?
      && s.value.out + (d.out + End(d.writer, None).value.out) == "<foo>bar</foo>"
  {
    var w := Init(Default).writer;
    BarText();
    assert "foo"[0] != '{';
    TextInRoot(w, "foo", "bar");
    FooBarText();
  }

  /** Closing an inner element whose start tag is open inside one outer
      element, without pretty-printing: ` />` then the outer end tag. */
  lemma CloseInnerAndOuter(x: Writer)
    requires |x.tags| == 2 && x.startTagOpen && !x.config.prettyPrint && x.config.abbrevEmpty
    ensures Close(x).out == " />" + "</" + x.tags[0].tag + ">"
  {
    var first := End(x, None).value;
    assert first.out == " />";
    assert first.writer.tags == [x.tags[0]];
    var second := End(first.writer, None).value;
    assert second.out == "</" + x.tags[0].tag + ">";
    assert Close(second.writer).out == "";
    assert Close(first.writer).out == second.out;
  }

  /** Two nested plain elements started without pretty-printing: `<outer`
      and then `><inner`, with both on the stack and the inner start tag open. */
  lemma NestedOpen(w: Writer, outer: string, inner: string)
    requires Valid(w) && w.tags == [] && w.newNamespaces == map[] && !w.config.prettyPrint
    requires |outer| > 0 && outer[0] != '{' && |inner| > 0 && inner[0] != '{'
    ensures Start(w, outer, [], map[]).Ok?
    ensures var a := Start(w, outer, [], map[]).value;
      && Start(a.writer, inner, [], map[]).Ok?
      && var b := Start(a.writer, inner, [], map[]).value;
      && a.out == "<" + outer && b.out == ">" + "<" + inner
      && |b.writer.tags| == 2 && b.writer.tags[0].tag == outer && b.writer.startTagOpen
      && b.writer.config == w.config
  {
    PlainStart(w, outer);
    EmptyLead(w);
    var a := Start(w, outer, [], map[]).value;
    PlainStart(a.writer, inner);
    assert StartLead(a.writer) == ">";
  }

  /** Two nested plain elements closed by `close`: `<outer><inner /></outer>`. */
  lemma NestedClose(w: Writer, outer: string, inner: string)
    requires Valid(w) && w.tags == [] && w.newNamespaces == map[]
    requires !w.config.prettyPrint && w.config.abbrevEmpty
    requires |outer| > 0 && outer[0] != '{' && |inner| > 0 && inner[0] != '{'
    ensures Start(w, outer, [], map[]).Ok?
    ensures var a := Start(w, outer, [], map[]).value;
      && Start(a.writer, inner, [], map[]).Ok?
      && var b := Start(a.writer, inner, [], map[]).value;
      && a.out + (b.out + Close(b.writer).out) == "<" + outer + ((">" + "<" + inner) + (" />" + "</" + outer + ">"))
  {
    NestedOpen(w, outer, inner);
    var a := Start(w, outer, [], map[]).value;
    var b := Start(a.writer, inner, [], map[]).value;
    CloseInnerAndOuter(b.writer);
  }

  lemma NestedText()
    ensures "<" + "a" + ((">" + "<" + "b") + (" />" + "</" + "a" + ">")) == "<a><b /></a>"
  {
  }

  /** `<a><b /></a>` (lines 90-95 of the tests). */
  lemma CloseNested()
    ensures var a := Start(Init(Default).writer, "a", [], map[]);
      && a.Ok?
      && var b := Start(a.value.writer, "b", [], map[]);
      && b.Ok?
      && a.value.out + (b.value.out + Close(b.value.writer).out) == "<a><b /></a>"
  {
    var w := Init(Default).writer;
    assert "a"[0] != '{' && "b"[0] != '{';
    NestedClose(w, "a", "b");
    NestedText();
  }
}
