/** Concrete runs of a pretty-printing writer: where comments and
    processing instructions go relative to the root element, and how nested
    elements are indented (tests/test_streamxmlwriter.py, lines 123-190). */
module PrettyScenarios {
  import opened Results
  import opened Lexical
  import opened Escape
  import opened Names
  import opened Ordering
  import opened Writer
  import opened WriterProperties
  import opened Scenarios

  /** `XMLWriter(file, pretty_print=True)`. */
  const Pretty: Config := Config(Utf8, true, Alphabetical, true)

  lemma PrettyInit()
    ensures var w := Init(Pretty).writer;
      && Valid(w) && w.tags == [] && w.newNamespaces == map[] && w.config == Pretty
      && !w.started && !w.startTagOpen && !w.wroteData
      && Init(Pretty).out == ""
  {
  }

  lemma PiText()
    ensures "<?" + "foo" + " " + "bar" + "?>" == "<?foo bar?>"
  {
  }

  lemma CommentMarkup()
    ensures "<!--" + "comment" + "-->" == "<!--comment-->"
  {
  }

  lemma CommentText()
    ensures "<!--" + EscapeCdata("comment", Utf8) + "-->" == "<!--comment-->"
  {
    PlainTextUnchanged("comment", Utf8);
    CommentMarkup();
  }

  lemma BeforeRootText(markup: string)
    ensures markup + "\n" + "<a />" == markup + "\n<a />"
  {
  }

  lemma RootText()
    ensures "<" + "a" + " />" == "<a />"
  {
  }

  /** Whatever came before, a lone `a` root adds `<a />` to it. */
  lemma RootElementAfter(w: Writer, before: string)
    requires Valid(w) && w.tags == [] && w.newNamespaces == map[] && w.config.abbrevEmpty
    ensures var s := Start(w, "a", [], map[]);
      s.Ok? && before + (s.value.out + Close(s.value.writer).out) == before + "<a />"
  {
    assert "a"[0] != '{';
    PlainRootElement(w, "a");
    RootText();
  }

  /** Before the root, the markup stands on its own line. */
  lemma MarkupBeforeRoot(w: Writer, markup: string)
    requires Valid(w) && w.tags == [] && w.newNamespaces == map[] && !w.started
    requires w.config.prettyPrint && w.config.abbrevEmpty
    ensures var m := CommentOrPi(w, markup);
      var s := Start(m.writer, "a", [], map[]);
      s.Ok? && m.out + (s.value.out + Close(s.value.writer).out) == markup + "\n<a />"
  {
    var m := CommentOrPi(w, markup);
    assert m.out == markup + "\n";
    assert Valid(m.writer) && m.writer.tags == [] && m.writer.newNamespaces == map[];
    RootElementAfter(m.writer, m.out);
    BeforeRootText(markup);
  }

  /** `<?foo bar?>` then `<a />` on the next line (lines 176-181 of the tests). */
  lemma PiBeforeRoot()
    ensures var m := Pi(Init(Pretty).writer, "foo", "bar");
      var s := Start(m.writer, "a", [], map[]);
      s.Ok? && m.out + (s.value.out + Close(s.value.writer).out) == "<?foo bar?>\n<a />"
  {
    var w := Init(Pretty).writer;
    PrettyInit();
    PiText();
    assert Pi(w, "foo", "bar") == CommentOrPi(w, "<?foo bar?>");
    MarkupBeforeRoot(w, "<?foo bar?>");
    PiBeforeRootText();
  }

  lemma PiBeforeRootText()
    ensures "<?foo bar?>" + "\n<a />" == "<?foo bar?>\n<a />"
  {
  }

  /** `<!--comment-->` then `<a />` on the next line (lines 153-158 of the tests). */
  lemma CommentBeforeRoot()
    ensures var m := Comment(Init(Pretty).writer, "comment");
      var s := Start(m.writer, "a", [], map[]);
      s.Ok? && m.out + (s.value.out + Close(s.value.writer).out) == "<!--comment-->\n<a />"
  {
    var w := Init(Pretty).writer;
    PrettyInit();
    CommentText();
    assert Comment(w, "comment") == CommentOrPi(w, "<!--comment-->");
    MarkupBeforeRoot(w, "<!--comment-->");
    CommentBeforeRootText();
  }

  lemma CommentBeforeRootText()
    ensures "<!--comment-->" + "\n<a />" == "<!--comment-->\n<a />"
  {
  }

  /** An empty root element, started and ended: `<a />`, and the writer is
      back between elements with the root started. */
  lemma EmptyRoot(w: Writer)
    requires Valid(w) && w.tags == [] && w.newNamespaces == map[] && !w.startTagOpen
    requires w.config.abbrevEmpty
    ensures var s := Start(w, "a", [], map[]);
      && s.Ok? && End(s.value.writer, None).Ok?
      && var e := End(s.value.writer, None).value;
      && s.value.out + e.out == "<a />"
      && Valid(e.writer) && e.writer.tags == [] && e.writer.started
      && e.writer.config == w.config
  {
    assert "a"[0] != '{';
    PlainStart(w, "a");
    assert StartLead(w) == "";
    var s := Start(w, "a", [], map[]).value;
    StartThenEnd(w, "a", [], map[]);
    EmptyRootText();
  }

  lemma EmptyRootText()
    ensures "" + "<" + "a" + " />" == "<a />"
  {
  }

  lemma AfterRootText(markup: string)
    ensures "<a />" + ("\n" + markup) + "" == "<a />\n" + markup
  {
  }

  /** After the root, the markup goes on a line of its own. */
  lemma MarkupAfterRoot(w: Writer, markup: string)
    requires Valid(w) && w.tags == [] && w.started && w.config.prettyPrint
    ensures var m := CommentOrPi(w, markup);
      m.out == "\n" + markup && Close(m.writer).out == ""
  {
  }

  /** `<a />` then `<!--comment-->` on the next line (lines 160-166 of the tests). */
  lemma CommentAfterRoot()
    ensures var s := Start(Init(Pretty).writer, "a", [], map[]);
      && s.Ok? && End(s.value.writer, None).Ok?
      && var e := End(s.value.writer, None).value;
      && var m := Comment(e.writer, "comment");
      && s.value.out + e.out + m.out + Close(m.writer).out == "<a />\n<!--comment-->"
  {
    var w := Init(Pretty).writer;
    PrettyInit();
    EmptyRoot(w);
    var s := Start(w, "a", [], map[]).value;
    var e := End(s.writer, None).value;
    CommentText();
    assert Comment(e.writer, "comment") == CommentOrPi(e.writer, "<!--comment-->");
    MarkupAfterRoot(e.writer, "<!--comment-->");
    AfterRootText("<!--comment-->");
    CommentAfterRootText();
  }

  lemma CommentAfterRootText()
    ensures "<a />\n" + "<!--comment-->" == "<a />\n<!--comment-->"
  {
  }

  /** `<a />` then `<?foo bar?>` on the next line (lines 183-189 of the tests). */
  lemma PiAfterRoot()
    ensures var s := Start(Init(Pretty).writer, "a", [], map[]);
      && s.Ok? && End(s.value.writer, None).Ok?
      && var e := End(s.value.writer, None).value;
      && var m := Pi(e.writer, "foo", "bar");
      && s.value.out + e.out + m.out + Close(m.writer).out == "<a />\n<?foo bar?>"
  {
    var w := Init(Pretty).writer;
    PrettyInit();
    EmptyRoot(w);
    var s := Start(w, "a", [], map[]).value;
    var e := End(s.writer, None).value;
    PiText();
    assert Pi(e.writer, "foo", "bar") == CommentOrPi(e.writer, "<?foo bar?>");
    MarkupAfterRoot(e.writer, "<?foo bar?>");
    AfterRootText("<?foo bar?>");
    PiAfterRootText();
  }

  lemma PiAfterRootText()
    ensures "<a />\n" + "<?foo bar?>" == "<a />\n<?foo bar?>"
  {
  }
}
