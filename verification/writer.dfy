/** The `XMLWriter` state machine.

    The writer's state is a stack of open elements (serialized tag, scope,
    name cache), a flag for a start tag whose `>` is not yet written, the
    pending namespace declarations, and three flags (`started`,
    `wrote_declaration`, `wrote_data`).  Every operation is a function from
    a state to the next state and the text appended to the output, or to
    the error the source raises. */
module Writer {
  import opened Results
  import opened Lexical
  import opened Escape
  import opened Names
  import opened Ordering

  /** One level of pretty-printing indentation (line 38). */
  const Indent: string := "  "

  datatype Config = Config(encoding: Encoding, prettyPrint: bool, sort: SortMode, abbrevEmpty: bool)

  /** An entry of `_tags`: serialized tag name, the element's scope and its name cache. */
  datatype OpenElement = OpenElement(tag: string, scope: Scope, cnames: map<string, string>)

  datatype Writer = Writer(
    config: Config,
    tags: seq<OpenElement>,
    startTagOpen: bool,
    newNamespaces: Scope,
    started: bool,
    wroteDeclaration: bool,
    wroteData: bool)

  /** The state after an operation and the text it appended to the output. */
  datatype Step = Step(writer: Writer, out: string)

  /** What every reachable state satisfies: a start tag can only be open
      inside an element and before any data in it, elements exist only once
      the root was started, and every element's cache is a transparent memo. */
  predicate Valid(w: Writer) {
    && (w.startTagOpen ==> |w.tags| > 0 && !w.wroteData)
    && (|w.tags| > 0 ==> w.started)
    && forall i | 0 <= i < |w.tags| :: Coherent(w.tags[i].scope, w.tags[i].cnames)
  }

  /** A line break followed by `depth` indentation levels. */
  function NewLine(depth: nat): (r: string)
    ensures |r| == 1 + 2 * depth && r[0] == '\n'
    ensures forall i | 1 <= i < |r| :: r[i] == ' '
  {
    "\n" + Repeat(Indent, depth)
  }

  /** Python 2's `str.strip()` whitespace. */
  predicate IsSpace(c: char) {
    c == ' ' || c == '\t' || c == '\n' || c == '\r' || c as int == 0x0B || c as int == 0x0C
  }

  /** `not data.strip()`: empty or all whitespace. */
  predicate IsBlank(s: string) {
    forall i | 0 <= i < |s| :: IsSpace(s[i])
  }

  function DeclarationText(enc: Encoding): string {
    "<?xml version='1.0' encoding='" + enc.Name() + "'?>"
  }

  /** `__init__`: an empty writer, which writes the XML declaration at once
      unless the encoding is us-ascii or utf-8 (lines 149-156). */
  function Init(config: Config): (r: Step)
    ensures Valid(r.writer)
    ensures r.writer.config == config && r.writer.tags == [] && r.writer.newNamespaces == map[]
    ensures !r.writer.started && !r.writer.startTagOpen && !r.writer.wroteData
    ensures r.writer.wroteDeclaration <==> config.encoding == Latin1
    ensures r.out == if config.encoding == Latin1
      then DeclarationText(config.encoding) + (if config.prettyPrint then "\n" else "")
      else ""
  {
    var initial := Writer(config, [], false, map[], false, false, false);
    if config.encoding == UsAscii || config.encoding == Utf8 then Step(initial, "")
    else Declare(initial)
  }

  /** `_close_start`: finishes a pending start tag (lines 312-316). */
  function CloseStart(w: Writer): (r: Step)
    ensures Valid(w) ==> Valid(r.writer)
    ensures !r.writer.startTagOpen && r.writer.(startTagOpen := w.startTagOpen) == w
    ensures r.out == ">" <==> w.startTagOpen
    ensures !w.startTagOpen ==> r == Step(w, "")
  {
    Step(w.(startTagOpen := false), if w.startTagOpen then ">" else "")
  }

  /** `_comment_or_pi`: writes `text` with the pretty-printing rules for
      comments and processing instructions (lines 328-338). */
  function CommentOrPi(w: Writer, text: string): (r: Step)
    ensures r.writer == w.(startTagOpen := false)
    ensures Valid(w) && !w.started ==>
      r.out == text + (if w.config.prettyPrint then "\n" else "")
    ensures w.started && |w.tags| == 0 && Valid(w) ==>
      r.out == (if w.config.prettyPrint then "\n" else "") + text
    ensures Valid(w) && |w.tags| > 0 ==>
      r.out == (if w.startTagOpen then ">" else "")
        + (if w.config.prettyPrint && !w.wroteData then NewLine(|w.tags|) else "")
        + text
  {
    var closed := CloseStart(w);
    var pretty := w.config.prettyPrint;
    var lead := if pretty && ((|w.tags| > 0 && !w.wroteData) || (w.started && |w.tags| == 0))
      then NewLine(|w.tags|) else "";
    var trail := if pretty && !w.started then "\n" else "";
    Step(closed.writer, closed.out + lead + text + trail)
  }

  /** `comment`: the text is escaped as character data (line 342). */
  function Comment(w: Writer, text: string): Step {
    CommentOrPi(w, "<!--" + EscapeCdata(text, w.config.encoding) + "-->")
  }

  /** `pi`: target and data are written as given (line 346). */
  function Pi(w: Writer, target: string, text: string): Step {
    CommentOrPi(w, "<?" + target + " " + text + "?>")
  }

  /** The part of `declaration` that runs once no error is possible. */
  function Declare(w: Writer): (r: Step)
    ensures Valid(w) ==> Valid(r.writer)
    ensures r.writer.wroteDeclaration
    ensures w.wroteDeclaration ==> r == Step(w, "")
    ensures Valid(w) && !w.started && !w.wroteDeclaration ==>
      && r.writer == w.(wroteDeclaration := true)
      && r.out == DeclarationText(w.config.encoding) + (if w.config.prettyPrint then "\n" else "")
  {
    if w.wroteDeclaration then Step(w, "")
    else
      var s := Pi(w, "xml", "version='1.0' encoding='" + w.config.encoding.Name() + "'");
      DeclarationIsPi(w.config.encoding.Name());
      Step(s.writer.(wroteDeclaration := true), s.out)
  }

  lemma DeclarationIsPi(name: string)
    ensures "<?" + "xml" + " " + ("version='1.0' encoding='" + name + "'") + "?>"
      == "<?xml version='1.0' encoding='" + name + "'?>"
  {
    assert "<?" + "xml" + " " == "<?xml ";
    assert "<?xml " + "version='1.0' encoding='" == "<?xml version='1.0' encoding='";
  }

  /** `declaration`: an error once the root was started, nothing if already
      written, otherwise the XML declaration (lines 318-325). */
  function Declaration(w: Writer): (r: Result<Step>)
    ensures r.Err? <==> w.started
    ensures r.Err? ==> r.error == LateDeclaration
    ensures Valid(w) && r.Ok? ==> Valid(r.value.writer)
    ensures r.Ok? ==> var after := r.value.writer;
      after.wroteDeclaration && !after.started && Declare(after) == Step(after, "")
    ensures r.Ok? && w.wroteDeclaration ==> r.value == Step(w, "")
    ensures r.Ok? && Valid(w) && !w.wroteDeclaration ==>
      r.value.out == DeclarationText(w.config.encoding) + (if w.config.prettyPrint then "\n" else "")
  {
    if w.started then Err(LateDeclaration) else Ok(Declare(w))
  }

  /** `start_ns`: records a declaration for the next element (line 272). */
  function StartNs(w: Writer, prefix: string, uri: string): (r: Writer)
    ensures r.newNamespaces.Keys == w.newNamespaces.Keys + {uri} && r.newNamespaces[uri] == prefix
    ensures forall u | u in w.newNamespaces && u != uri :: r.newNamespaces[u] == w.newNamespaces[u]
    ensures r == w.(newNamespaces := r.newNamespaces)
  {
    w.(newNamespaces := w.newNamespaces[uri := prefix])
  }

  /** `end_ns` does nothing (lines 274-276). */
  function EndNs(w: Writer): (r: Writer)
    ensures r == w
  {
    w
  }

  /** `data`: whitespace-only text is dropped when pretty-printing;
      otherwise the start tag is finished and the text written escaped
      (lines 278-285).  What follows the `>` is free of `<` and `>`, and its
      entities and character references decode to the text. */
  function Data(w: Writer, text: string): (r: Step)
    ensures Valid(w) ==> Valid(r.writer)
    ensures w.config.prettyPrint && IsBlank(text) ==> r == Step(w, "")
    ensures !(w.config.prettyPrint && IsBlank(text)) ==>
      && r.writer == w.(startTagOpen := false, wroteData := true)
      && r.out == (if w.startTagOpen then ">" else "") + EscapeCdata(text, w.config.encoding)
    ensures !(w.config.prettyPrint && IsBlank(text)) ==> ReadsBack(r.out, w.startTagOpen, text)
  {
    if w.config.prettyPrint && IsBlank(text) then Step(w, "")
    else
      var closed := CloseStart(w);
      var escaped := EscapeCdata(text, w.config.encoding);
      UnescapeEscapeCdata(text, w.config.encoding);
      EscapedCdataIsSafe(text, w.config.encoding);
      AfterLead(closed.out, escaped);
      Step(closed.writer.(wroteData := true), closed.out + escaped)
  }

  /** `out` is an optional `>` followed by character data that contains
      no markup and whose entities and references decode to `text`. */
  predicate ReadsBack(out: string, closesTag: bool, text: string) {
    var skip := if closesTag then 1 else 0;
    && |out| >= skip
    && (closesTag ==> out[0] == '>')
    && Unescape(out[skip..]) == text
    && forall i | skip <= i < |out| :: out[i] != '<' && out[i] != '>'
  }

  /** Text free of `<` and `>` stays free of them behind any lead. */
  lemma AfterLead(lead: string, body: string)
    requires forall i | 0 <= i < |body| :: body[i] != '<' && body[i] != '>'
    ensures (lead + body)[|lead|..] == body
    ensures forall i | |lead| <= i < |lead + body| :: (lead + body)[i] != '<' && (lead + body)[i] != '>'
  {
    var out := lead + body;
    forall i | |lead| <= i < |out| ensures out[i] != '<' && out[i] != '>' {
      assert out[i] == body[i - |lead|];
    }
  }

  /** The scope of the innermost open element, or the root scope. */
  function ParentScope(w: Writer): Scope {
    if |w.tags| == 0 then RootScope else w.tags[|w.tags| - 1].scope
  }

  /** What `start` writes before `<`: the `>` of an open start tag, then
      the indentation when pretty-printing inside an element (lines 185-189). */
  function StartLead(w: Writer): string {
    (if w.startTagOpen then ">" else "")
      + (if w.config.prettyPrint && |w.tags| > 0 && !w.wroteData then NewLine(|w.tags|) else "")
  }

  /** The element `start` pushes, with its resolved attributes. */
  datatype Opening = Opening(element: OpenElement, items: seq<Attribute>)

  /** Lines 191-216 of `start`: the child scope is derived from the
      parent's and the pending declarations; the tag and then each attribute
      is resolved in it, possibly binding synthetic prefixes. */
  function Open(w: Writer, tag: string, attrs: seq<(string, string)>, nsmap: Scope): (r: Result<Opening>)
    ensures r.Ok? <==> ParseName(tag).Ok? && AllParse(attrs)
    ensures r.Ok? ==>
      var e := r.value.element;
      var q := ParseName(tag).value;
      var derived := DeriveScope(ParentScope(w), w.newNamespaces + nsmap);
      && Extends(e.scope, derived)
      && q.uri in e.scope && e.tag == QualifiedName(e.scope[q.uri], q.local)
      && (q.uri !in derived ==> e.scope[q.uri] == SyntheticPrefix(derived))
      && e.scope.Keys == derived.Keys + {q.uri} + ItemUris(r.value.items)
      && SyntheticBetween(derived, e.scope)
      && Coherent(e.scope, e.cnames)
      && |r.value.items| == |attrs|
      && forall i | 0 <= i < |attrs| ::
        var a := r.value.items[i];
        && a.qname == ParseName(attrs[i].0).value
        && a.value == attrs[i].1
        && a.qname.uri in e.scope
        && a.cname == QualifiedName(e.scope[a.qname.uri], a.qname.local)
  {
    var derived := DeriveScope(ParentScope(w), w.newNamespaces + nsmap);
    var t :- Resolve(tag, derived, map[]);
    var resolved :- ResolveAll(attrs, t.scope, t.cnames);
    TagThenAttributes(tag, attrs, derived, t, resolved);
    Ok(Opening(OpenElement(t.cname, resolved.scope, resolved.cnames), resolved.items))
  }

  /** One `xmlns` attribute (lines 221-228). */
  function XmlnsAttribute(uri: string, prefix: string, enc: Encoding): string {
    if prefix == "" then " xmlns=\"" + EscapeAttribute(uri, enc) + "\""
    else " xmlns:" + prefix + "=\"" + EscapeAttribute(uri, enc) + "\""
  }

  function XmlnsText(decls: seq<(string, string)>, enc: Encoding): string
    decreases |decls|
  {
    if |decls| == 0 then "" else XmlnsAttribute(decls[0].0, decls[0].1, enc) + XmlnsText(decls[1..], enc)
  }

  /** One regular attribute (lines 235-238). */
  function AttributeText(a: Attribute, enc: Encoding): string {
    " " + a.cname + "=\"" + EscapeAttribute(a.value, enc) + "\""
  }

  function AttributesText(items: seq<Attribute>, enc: Encoding): string
    decreases |items|
  {
    if |items| == 0 then "" else AttributeText(items[0], enc) + AttributesText(items[1..], enc)
  }

  /** `start`: opens an element; its start tag stays open until the next
      operation decides between `>` and ` />` (lines 177-242). */
  function Start(w: Writer, tag: string, attrs: seq<(string, string)>, nsmap: Scope): (r: Result<Step>)
    ensures r.Ok? <==> ParseName(tag).Ok? && AllParse(attrs)
    ensures Valid(w) && r.Ok? ==> Valid(r.value.writer)
    ensures r.Ok? ==>
      var o := Open(w, tag, attrs, nsmap).value;
      && r.value.writer == w.(tags := w.tags + [o.element], startTagOpen := true,
        newNamespaces := w.newNamespaces + nsmap, started := true, wroteData := false)
      && r.value.out == StartLead(w) + "<" + o.element.tag
        + XmlnsText(Declarations(o.element.scope, ParentScope(w)), w.config.encoding)
        + AttributesText(Arrange(w.config.sort, o.element.tag, o.items), w.config.encoding)
  {
    var o :- Open(w, tag, attrs, nsmap);
    var e := o.element;
    var out := StartLead(w) + "<" + e.tag
      + XmlnsText(Declarations(e.scope, ParentScope(w)), w.config.encoding)
      + AttributesText(Arrange(w.config.sort, e.tag, o.items), w.config.encoding);
    var next := w.(tags := w.tags + [e], startTagOpen := true,
      newNamespaces := w.newNamespaces + nsmap, started := true, wroteData := false);
    PushKeepsValid(w, e, next);
    Ok(Step(next, out))
  }

  lemma PushKeepsValid(w: Writer, e: OpenElement, next: Writer)
    requires Coherent(e.scope, e.cnames)
    requires next.tags == w.tags + [e] && next.started && !next.wroteData
    ensures Valid(w) ==> Valid(next)
  {
    assert forall i | 0 <= i < |w.tags| :: next.tags[i] == w.tags[i];
  }

  /** What `end` writes for the element it closes (lines 257-266). */
  function EndText(w: Writer): string
    requires |w.tags| > 0
  {
    var open := w.tags[|w.tags| - 1];
    if w.startTagOpen then
      if w.config.abbrevEmpty then " />" else "></" + open.tag + ">"
    else
      (if w.config.prettyPrint && !w.wroteData then NewLine(|w.tags| - 1) else "")
        + "</" + open.tag + ">"
  }

  /** `end`: pops the innermost element.  A given name must serialize, in
      that element's scope, to the element's tag (lines 244-267). */
  function End(w: Writer, name: Option<string>): (r: Result<Step>)
    ensures |w.tags| == 0 ==> r == Err(NothingOpen)
    ensures |w.tags| > 0 && name.None? ==> r.Ok?
    ensures |w.tags| > 0 && name.Some? ==>
      var open := w.tags[|w.tags| - 1];
      var resolved := Resolve(name.value, open.scope, open.cnames);
      && (r.Ok? <==> resolved.Ok? && resolved.value.cname == open.tag)
      && (resolved.Ok? && r.Err? ==> r.error == TagMismatch(open.tag, resolved.value.cname))
    ensures Valid(w) && r.Ok? ==> Valid(r.value.writer)
    ensures r.Ok? ==>
      && |w.tags| > 0
      && r.value.writer == w.(tags := w.tags[..|w.tags| - 1], startTagOpen := false, wroteData := false)
      && r.value.out == EndText(w)
  {
    if |w.tags| == 0 then Err(NothingOpen)
    else
      var open := w.tags[|w.tags| - 1];
      var matched: Result<bool> :=
        if name.None? then Ok(true)
        else
          var resolved :- Resolve(name.value, open.scope, open.cnames);
          if resolved.cname == open.tag then Ok(true) else Err(TagMismatch(open.tag, resolved.cname));
      if matched.Err? then Err(matched.error)
      else Ok(Step(w.(tags := w.tags[..|w.tags| - 1], startTagOpen := false, wroteData := false), EndText(w)))
  }

  /** `close`: ends every open element, innermost first (lines 348-351). */
  function Close(w: Writer): (r: Step)
    ensures r.writer.tags == []
    ensures |w.tags| == 0 ==> r == Step(w, "")
    ensures |w.tags| > 0 ==> r.writer == w.(tags := [], startTagOpen := false, wroteData := false)
    ensures Valid(w) ==> Valid(r.writer)
    decreases |w.tags|
  {
    if |w.tags| == 0 then Step(w, "")
    else
      var first := End(w, None).value;
      var rest := Close(first.writer);
      Step(rest.writer, first.out + rest.out)
  }

  /** One call on the writer's public interface. */
  datatype Event =
    | StartEvent(tag: string, attrs: seq<(string, string)>, nsmap: Scope)
    | EndEvent(name: Option<string>)
    | StartNsEvent(prefix: string, uri: string)
    | EndNsEvent
    | DataEvent(text: string)
    | CommentEvent(text: string)
    | PiEvent(target: string, text: string)
    | DeclarationEvent
    | CloseEvent

  function Apply(w: Writer, e: Event): (r: Result<Step>)
    ensures Valid(w) && r.Ok? ==> Valid(r.value.writer)
    ensures r.Err? ==> e.StartEvent? || e.EndEvent? || e.DeclarationEvent?
  {
    match e
    case StartEvent(tag, attrs, nsmap) => Start(w, tag, attrs, nsmap)
    case EndEvent(name) => End(w, name)
    case StartNsEvent(prefix, uri) => Ok(Step(StartNs(w, prefix, uri), ""))
    case EndNsEvent => Ok(Step(EndNs(w), ""))
    case DataEvent(text) => Ok(Data(w, text))
    case CommentEvent(text) => Ok(Comment(w, text))
    case PiEvent(target, text) => Ok(Pi(w, target, text))
    case DeclarationEvent => Declaration(w)
    case CloseEvent => Ok(Close(w))
  }

  /** Appends the output of `first` in front of the outcome of what follows. */
  function Then(first: Step, rest: Result<Step>): (r: Result<Step>)
    ensures r.Ok? <==> rest.Ok?
    ensures r.Ok? ==> r.value.writer == rest.value.writer && r.value.out == first.out + rest.value.out
  {
    match rest
    case Ok(s) => Ok(Step(s.writer, first.out + s.out))
    case Err(e) => Err(e)
  }

  /** A sequence of calls; the first error ends the run. */
  function Run(w: Writer, events: seq<Event>): (r: Result<Step>)
    ensures Valid(w) && r.Ok? ==> Valid(r.value.writer)
    decreases |events|
  {
    if |events| == 0 then Ok(Step(w, ""))
    else
      var first :- Apply(w, events[0]);
      Then(first, Run(first.writer, events[1..]))
  }
}
