/** Properties relating several `XMLWriter` operations: start/end pairing,
    closing, the declaration rules, what a start tag declares, and why the
    order attributes are passed in does not matter. */
module WriterProperties {
  import opened Results
  import opened Lexical
  import opened Escape
  import opened Names
  import opened Ordering
  import opened Writer

  /** The declaration is written at most once. */
  lemma DeclarationOnce(w: Writer)
    requires Valid(w) && Declaration(w).Ok?
    ensures var after := Declaration(w).value.writer;
      Declaration(after) == Ok(Step(after, ""))
  {
  }

  /** Before anything else, the declaration is exactly the XML declaration
      PI, followed by a line break when pretty-printing. */
  lemma DeclarationFirst(w: Writer)
    requires Valid(w) && !w.started && !w.wroteDeclaration
    ensures Declaration(w).Ok?
    ensures Declaration(w).value.out
      == DeclarationText(w.config.encoding) + (if w.config.prettyPrint then "\n" else "")
  {
  }

  /** Once an element has been started, asking for the declaration fails. */
  lemma DeclarationAfterStart(w: Writer, tag: string, attrs: seq<(string, string)>, nsmap: Scope)
    requires ParseName(tag).Ok? && AllParse(attrs)
    ensures Declaration(Start(w, tag, attrs, nsmap).value.writer) == Err(LateDeclaration)
  {
  }

  /** A comment's text is escaped like character data: the escaping can
      be undone by `Unescape`, and the body holds no `<` or `>`.  An XML
      parser decodes no references inside a comment, so what a reader sees
      is the escaped body, not the text. */
  lemma CommentReadsBack(w: Writer, text: string)
    ensures var body := EscapeCdata(text, w.config.encoding);
      && Comment(w, text) == CommentOrPi(w, "<!--" + body + "-->")
      && Unescape(body) == text
      && forall i | 0 <= i < |body| :: body[i] != '<' && body[i] != '>'
  {
    UnescapeEscapeCdata(text, w.config.encoding);
    EscapedCdataIsSafe(text, w.config.encoding);
  }

  /** `end` right after `start` pops what `start` pushed and leaves the
      writer between elements; with `abbrev_empty` the element is written
      as an empty-element tag. */
  lemma StartThenEnd(w: Writer, tag: string, attrs: seq<(string, string)>, nsmap: Scope)
    requires ParseName(tag).Ok? && AllParse(attrs)
    ensures var started := Start(w, tag, attrs, nsmap).value;
      var closed := End(started.writer, None);
      && closed.Ok?
      && closed.value.writer.tags == w.tags
      && !closed.value.writer.startTagOpen && !closed.value.writer.wroteData
      && closed.value.writer.started
      && closed.value.out == if w.config.abbrevEmpty then " />"
        else "></" + started.writer.tags[|w.tags|].tag + ">"
  {
    var started := Start(w, tag, attrs, nsmap).value;
    assert started.writer.tags[..|w.tags|] == w.tags;
    EndJustOpened(w, started.writer);
  }

  lemma EndJustOpened(w: Writer, next: Writer)
    requires |next.tags| == |w.tags| + 1 && next.tags[..|w.tags|] == w.tags
    requires next.startTagOpen && next.started && next.config == w.config
    ensures var closed := End(next, None);
      && closed.Ok?
      && closed.value.writer.tags == w.tags
      && !closed.value.writer.startTagOpen && !closed.value.writer.wroteData
      && closed.value.writer.started
      && closed.value.out == if w.config.abbrevEmpty then " />" else "></" + next.tags[|w.tags|].tag + ">"
  {
  }

  /** `end` given the same name as `start` is accepted: the name serializes
      to the open element's tag in the element's own scope. */
  lemma NamedEndAcceptsOpenTag(w: Writer, tag: string, attrs: seq<(string, string)>, nsmap: Scope)
    requires ParseName(tag).Ok? && AllParse(attrs)
    ensures End(Start(w, tag, attrs, nsmap).value.writer, Some(tag)).Ok?
  {
    StartTop(w, tag, attrs, nsmap);
    LastPushed(w.tags, Open(w, tag, attrs, nsmap).value.element, Start(w, tag, attrs, nsmap).value.writer.tags);
    ResolveOwnTag(tag, Open(w, tag, attrs, nsmap).value.element);
  }

  /** `start` pushes exactly the element `Open` builds. */
  lemma StartTop(w: Writer, tag: string, attrs: seq<(string, string)>, nsmap: Scope)
    requires ParseName(tag).Ok? && AllParse(attrs)
    ensures Start(w, tag, attrs, nsmap).Ok?
    ensures Start(w, tag, attrs, nsmap).value.writer.tags == w.tags + [Open(w, tag, attrs, nsmap).value.element]
  {
  }

  /** An element's own name resolves, in the element's scope, to its tag. */
  lemma ResolveOwnTag(tag: string, e: OpenElement)
    requires ParseName(tag).Ok?
    requires ParseName(tag).value.uri in e.scope
    requires e.tag == QualifiedName(e.scope[ParseName(tag).value.uri], ParseName(tag).value.local)
    ensures Resolve(tag, e.scope, e.cnames).Ok? && Resolve(tag, e.scope, e.cnames).value.cname == e.tag
  {
    var r := Resolve(tag, e.scope, e.cnames).value;
    assert r.scope[ParseName(tag).value.uri] == e.scope[ParseName(tag).value.uri];
  }

  /** The end tags `close` writes after the innermost element's, innermost
      first, each on its own indented line when pretty-printing. */
  function ClosingTags(tags: seq<OpenElement>, pretty: bool): string
    decreases |tags|
  {
    if |tags| == 0 then ""
    else
      (if pretty then NewLine(|tags| - 1) else "")
        + "</" + tags[|tags| - 1].tag + ">"
        + ClosingTags(tags[..|tags| - 1], pretty)
  }

  lemma {:induction false} CloseWritesEndTags(w: Writer)
    requires Valid(w) && |w.tags| > 0
    ensures Close(w).out == EndText(w) + ClosingTags(w.tags[..|w.tags| - 1], w.config.prettyPrint)
    decreases |w.tags|
  {
    var first := End(w, None).value;
    var next := first.writer;
    if |next.tags| > 0 {
      CloseWritesEndTags(next);
      assert next.tags[..|next.tags| - 1] == w.tags[..|w.tags| - 1][..|w.tags| - 2];
    }
  }

  /** Closing twice writes nothing the second time. */
  lemma CloseIsIdempotent(w: Writer)
    ensures var closed := Close(w).writer;
      Close(closed) == Step(closed, "")
  {
  }

  /** Every pending declaration that the parent does not already have is
      written on the start tag, and every `xmlns` written states a binding
      of the new element's scope that differs from its parent's. */
  lemma StartDeclaresPending(w: Writer, tag: string, attrs: seq<(string, string)>, nsmap: Scope, uri: string)
    requires ParseName(tag).Ok? && AllParse(attrs)
    requires uri in w.newNamespaces + nsmap
    ensures var e := Open(w, tag, attrs, nsmap).value.element;
      var p := (w.newNamespaces + nsmap)[uri];
      var parent := ParentScope(w);
      && e.scope[uri] == p
      && ((uri, p) in Declarations(e.scope, parent) <==> uri !in parent || parent[uri] != p)
  {
  }

  /** The tag's prefix is bound on the element: either its start tag
      declares it or it is inherited unchanged from the parent. */
  lemma TagPrefixInScope(w: Writer, tag: string, attrs: seq<(string, string)>, nsmap: Scope)
    requires ParseName(tag).Ok? && AllParse(attrs)
    ensures var e := Open(w, tag, attrs, nsmap).value.element;
      var u := ParseName(tag).value.uri;
      var parent := ParentScope(w);
      (u, e.scope[u]) in Declarations(e.scope, parent) || (u in parent && parent[u] == e.scope[u])
  {
  }

  /** A start tag declares nothing spurious: every binding it declares is
      pending, or binds the tag's or an attribute's URI, which the derived
      scope lacked, under a prefix that line 166 invents. */
  lemma StartDeclaresOnlyNeeded(w: Writer, tag: string, attrs: seq<(string, string)>, nsmap: Scope, u: string, p: string)
    requires ParseName(tag).Ok? && AllParse(attrs)
    requires (u, p) in Declarations(Open(w, tag, attrs, nsmap).value.element.scope, ParentScope(w))
    ensures var o := Open(w, tag, attrs, nsmap).value;
      var derived := DeriveScope(ParentScope(w), w.newNamespaces + nsmap);
      || (u in w.newNamespaces + nsmap && p == (w.newNamespaces + nsmap)[u])
      || (&& u !in derived
          && (u == ParseName(tag).value.uri || u in ItemUris(o.items))
          && exists n: nat | |derived| < n :: p == "ns" + Decimal(n))
  {
    var o := Open(w, tag, attrs, nsmap).value;
    var pending := w.newNamespaces + nsmap;
    var derived := DeriveScope(ParentScope(w), pending);
    var extra := {ParseName(tag).value.uri} + ItemUris(o.items);
    OpenScopeExtra(w, tag, attrs, nsmap, derived, o);
    DeclaredBindingSource(ParentScope(w), pending, o.element.scope, extra, u, p);
  }

  lemma OpenScopeExtra(w: Writer, tag: string, attrs: seq<(string, string)>, nsmap: Scope, derived: Scope, o: Opening)
    requires ParseName(tag).Ok? && AllParse(attrs)
    requires derived == DeriveScope(ParentScope(w), w.newNamespaces + nsmap)
    requires o == Open(w, tag, attrs, nsmap).value
    ensures Extends(o.element.scope, derived) && SyntheticBetween(derived, o.element.scope)
    ensures o.element.scope.Keys == derived.Keys + ({ParseName(tag).value.uri} + ItemUris(o.items))
  {
  }

  /** Likewise for every attribute's prefix. */
  lemma AttributePrefixInScope(w: Writer, tag: string, attrs: seq<(string, string)>, nsmap: Scope, i: nat)
    requires ParseName(tag).Ok? && AllParse(attrs) && i < |attrs|
    ensures var o := Open(w, tag, attrs, nsmap).value;
      var u := o.items[i].qname.uri;
      var parent := ParentScope(w);
      && u in o.element.scope
      && ((u, o.element.scope[u]) in Declarations(o.element.scope, parent) || (u in parent && parent[u] == o.element.scope[u]))
  {
  }

  /** A declaration made with `start_ns` is in force on the next element,
      unless that element's own `nsmap` rebinds the URI. */
  lemma StartNsBindsNextElement(w: Writer, prefix: string, uri: string, tag: string, attrs: seq<(string, string)>, nsmap: Scope)
    requires uri !in nsmap
    requires ParseName(tag).Ok? && AllParse(attrs)
    ensures Open(StartNs(w, prefix, uri), tag, attrs, nsmap).value.element.scope[uri] == prefix
  {
    StartDeclaresPending(StartNs(w, prefix, uri), tag, attrs, nsmap, uri);
  }

  /** Pending declarations are never removed, so after `start_ns(p, u)`,
      an element, and `start_ns(p, v)`, both `u` and `v` are pending under
      `p`.  The next element in `u` inherits the binding of `u` to `p`,
      serializes as `p:local`, and its start tag declares `p` for `v` only:
      an XML reader places it in `v`. */
  lemma StaleBindingAsWritten(w: Writer, tag: string, u: string, v: string, p: string, local: string)
    requires ParseName(tag) == Ok(QName(u, local))
    requires u != v && p != ""
    requires u in ParentScope(w) && ParentScope(w)[u] == p && v !in ParentScope(w)
    requires u in w.newNamespaces && w.newNamespaces[u] == p
    requires v in w.newNamespaces && w.newNamespaces[v] == p
    ensures var e := Open(w, tag, [], map[]).value.element;
      && e.tag == p + ":" + local
      && (v, p) in Declarations(e.scope, ParentScope(w))
      && (u, p) !in Declarations(e.scope, ParentScope(w))
  {
    assert w.newNamespaces + map[] == w.newNamespaces;
    var e := Open(w, tag, [], map[]).value.element;
    assert e.scope[u] == p && e.scope[v] == p;
  }

  /** `start_ns("a", "U"); start("{U}r"); start_ns("a", "V"); start("{U}c")`:
      the child is written `<a:c xmlns:a="V"`. */
  lemma StaleBindingExample()
    ensures var w := Init(Config(Utf8, false, Alphabetical, true)).writer;
      var r := Start(StartNs(w, "a", "U"), "{U}r", [], map[]).value.writer;
      var w2 := StartNs(r, "a", "V");
      var e := Open(w2, "{U}c", [], map[]).value.element;
      && e.tag == "a:c"
      && ("V", "a") in Declarations(e.scope, ParentScope(w2))
      && ("U", "a") !in Declarations(e.scope, ParentScope(w2))
  {
    var w := Init(Config(Utf8, false, Alphabetical, true)).writer;
    var w1 := StartNs(w, "a", "U");
    assert w1.tags == [] && w1.newNamespaces == map["U" := "a"];
    StaleBindingNames();
    StaleBindingFirstElement(w1, "{U}r", "U", "V", "a", "r");
    StartPushesOpened(w1, "{U}r", [], map[]);
    var r := Start(w1, "{U}r", [], map[]).value.writer;
    var w2 := StartNs(r, "a", "V");
    assert ParentScope(w2) == ParentScope(r);
    assert "U" in w2.newNamespaces && w2.newNamespaces["U"] == "a";
    StaleBindingAsWritten(w2, "{U}c", "U", "V", "a", "c");
    PrefixedChild();
  }

  /** A root element opened with one pending binding of `u` binds `u` and
      no other non-empty URI. */
  lemma StaleBindingFirstElement(w1: Writer, tag: string, u: string, v: string, p: string, local: string)
    requires w1.tags == [] && w1.newNamespaces == map[u := p]
    requires ParseName(tag) == Ok(QName(u, local))
    requires v != u && v != ""
    ensures var e := Open(w1, tag, [], map[]).value.element;
      u in e.scope && e.scope[u] == p && v !in e.scope
  {
    OpenBound(w1, tag, [], map[]);
    assert ParentScope(w1) == RootScope;
    var pending := w1.newNamespaces + map[];
    assert pending.Keys == {u} && pending[u] == p;
    OnePendingScope(tag, pending, u, v, p, local);
  }

  /** Resolving a name in `u` at the root with `u` pending as `p` binds
      `u` to `p` and no other non-empty URI. */
  lemma OnePendingScope(tag: string, pending: Scope, u: string, v: string, p: string, local: string)
    requires ParseName(tag) == Ok(QName(u, local))
    requires pending.Keys == {u} && pending[u] == p
    requires v != u && v != ""
    ensures var sc := Resolve(tag, DeriveScope(RootScope, pending), map[]).value.scope;
      u in sc && sc[u] == p && v !in sc
  {
    var derived := DeriveScope(RootScope, pending);
    assert derived.Keys <= {"", u} && derived[u] == p;
  }

  /** After `start`, the innermost scope is the opened element's and the
      element's own declarations stay pending. */
  lemma StartPushesOpened(w: Writer, tag: string, attrs: seq<(string, string)>, nsmap: Scope)
    requires ParseName(tag).Ok? && AllParse(attrs)
    ensures Start(w, tag, attrs, nsmap).Ok?
    ensures var next := Start(w, tag, attrs, nsmap).value.writer;
      && ParentScope(next) == Open(w, tag, attrs, nsmap).value.element.scope
      && next.newNamespaces == w.newNamespaces + nsmap
  {
    StartTop(w, tag, attrs, nsmap);
    LastPushed(w.tags, Open(w, tag, attrs, nsmap).value.element, Start(w, tag, attrs, nsmap).value.writer.tags);
  }

  lemma LastPushed(tags: seq<OpenElement>, e: OpenElement, next: seq<OpenElement>)
    requires next == tags + [e]
    ensures |next| > 0 && next[|next| - 1] == e
  {
  }

  lemma StaleBindingNames()
    ensures ParseName("{U}r") == Ok(QName("U", "r"))
    ensures ParseName("{U}c") == Ok(QName("U", "c"))
  {
    assert ClarkName(QName("U", "r")) == "{U}r";
    ParseClarkName(QName("U", "r"));
    assert ClarkName(QName("U", "c")) == "{U}c";
    ParseClarkName(QName("U", "c"));
  }

  lemma PrefixedChild()
    ensures "a" + ":" + "c" == "a:c"
  {
  }

  /** An attribute named exactly like its element, in the `{uri}local`
      form the cache is keyed by (`{}local` for a plain tag), is resolved
      like any other name: `start` succeeds and writes it with the
      element's own serialized name. */
  lemma AttributeNamedLikeTag(w: Writer, tag: string, value: string, nsmap: Scope)
    requires ParseName(tag).Ok?
    ensures Start(w, tag, [(Normalize(tag), value)], nsmap).Ok?
    ensures var o := Open(w, tag, [(Normalize(tag), value)], nsmap).value;
      o.items == [Attribute(o.element.tag, ParseName(tag).value, value)]
  {
    ParseNormalized(tag);
    assert AllParse([(Normalize(tag), value)]);
    var o := Open(w, tag, [(Normalize(tag), value)], nsmap).value;
    SoleAttributeIsTag(o, ParseName(tag).value, value);
  }

  /** Corrected behaviour for two attributes spelled `local` and `{}local`
      (or any name and its normalized form): both resolve to the same
      serialized name, and `start` succeeds whichever comes first. */
  lemma AttributeNamedLikeEarlierAttribute(w: Writer, tag: string, attrs: seq<(string, string)>, nsmap: Scope, i: nat, j: nat)
    requires ParseName(tag).Ok? && AllParse(attrs)
    requires i < |attrs| && j < |attrs| && Normalize(attrs[i].0) == attrs[j].0
    ensures Start(w, tag, attrs, nsmap).Ok?
    ensures var o := Open(w, tag, attrs, nsmap).value;
      o.items[j] == o.items[i].(value := attrs[j].1)
  {
    ParseNormalized(attrs[i].0);
    var o := Open(w, tag, attrs, nsmap).value;
    SameNameSameItem(o.items[i], o.items[j], attrs[j].1);
  }

  lemma SameNameSameItem(a: Attribute, b: Attribute, value: string)
    requires a.qname == b.qname && b.value == value
    requires a.cname == b.cname
    ensures b == a.(value := value)
  {
  }

  lemma SoleAttributeIsTag(o: Opening, q: QName, value: string)
    requires |o.items| == 1 && o.items[0].qname == q && o.items[0].value == value
    requires q.uri in o.element.scope && o.element.tag == QualifiedName(o.element.scope[q.uri], q.local)
    requires o.items[0].cname == QualifiedName(o.element.scope[q.uri], q.local)
    ensures o.items == [Attribute(o.element.tag, q, value)]
  {
  }

  function MapSeq<A, B>(f: A -> B, xs: seq<A>): (r: seq<B>)
    ensures |r| == |xs| && forall i | 0 <= i < |xs| :: r[i] == f(xs[i])
    decreases |xs|
  {
    if |xs| == 0 then [] else [f(xs[0])] + MapSeq(f, xs[1..])
  }

  lemma {:induction false} MapSeqConcat<A, B>(f: A -> B, a: seq<A>, b: seq<A>)
    ensures MapSeq(f, a + b) == MapSeq(f, a) + MapSeq(f, b)
    ensures multiset(MapSeq(f, a + b)) == multiset(MapSeq(f, a)) + multiset(MapSeq(f, b))
    decreases |a|
  {
    if |a| == 0 {
      assert a + b == b;
    } else {
      assert (a + b)[1..] == a[1..] + b;
      MapSeqConcat(f, a[1..], b);
    }
  }

  /** Where the first element of `xs` sits in a permutation `ys` of it, and
      what remains on either side. */
  lemma RemoveMatchingElement<A>(xs: seq<A>, ys: seq<A>) returns (k: nat)
    requires multiset(xs) == multiset(ys) && |xs| > 0
    ensures k < |ys| && ys[k] == xs[0]
    ensures ys == ys[..k] + ([xs[0]] + ys[k + 1..])
    ensures multiset(xs[1..]) == multiset(ys[..k] + ys[k + 1..])
  {
    assert xs[0] in multiset(ys);
    k :| 0 <= k < |ys| && ys[k] == xs[0];
    var left, right := ys[..k], ys[k + 1..];
    assert ys == left + ([xs[0]] + right);
    assert multiset(xs[1..]) == multiset(xs) - multiset{xs[0]} by {
      assert xs == [xs[0]] + xs[1..];
    }
    assert multiset(left + right) == multiset(ys) - multiset{xs[0]} by {
      assert multiset(ys) == multiset(left + right) + multiset{xs[0]};
    }
  }

  /** Mapping a sequence with `x` taken out of the middle loses exactly `f(x)`. */
  lemma MapSeqSplit<A, B>(f: A -> B, left: seq<A>, x: A, right: seq<A>)
    ensures multiset(MapSeq(f, left + ([x] + right))) == multiset{f(x)} + multiset(MapSeq(f, left + right))
  {
    MapSeqConcat(f, left, [x] + right);
    MapSeqConcat(f, [x], right);
    MapSeqConcat(f, left, right);
    assert MapSeq(f, [x]) == [f(x)];
  }

  lemma {:induction false} MapSeqPermutation<A, B>(f: A -> B, xs: seq<A>, ys: seq<A>)
    requires multiset(xs) == multiset(ys)
    ensures multiset(MapSeq(f, xs)) == multiset(MapSeq(f, ys))
    decreases |xs|
  {
    if |xs| > 0 {
      var k := RemoveMatchingElement(xs, ys);
      var left, right := ys[..k], ys[k + 1..];
      MapSeqPermutation(f, xs[1..], left + right);
      MapSeqSplit(f, left, xs[0], right);
      assert MapSeq(f, xs) == [f(xs[0])] + MapSeq(f, xs[1..]);
    }
  }

  /** An attribute resolved in a scope that binds its URI. */
  function AttributeIn(scope: Scope, attr: (string, string)): Attribute {
    match ParseName(attr.0)
    case Ok(q) => Attribute(QualifiedName(if q.uri in scope then scope[q.uri] else "", q.local), q, attr.1)
    case Err(_) => Attribute("", QName("", ""), attr.1)
  }

  /** The scope the tag's resolution leaves, before any attribute. */
  function TagScope(w: Writer, tag: string, nsmap: Scope): Scope
    requires ParseName(tag).Ok?
  {
    Resolve(tag, DeriveScope(ParentScope(w), w.newNamespaces + nsmap), map[]).value.scope
  }

  lemma OpenBound(w: Writer, tag: string, attrs: seq<(string, string)>, nsmap: Scope)
    requires ParseName(tag).Ok? && AllBound(attrs, TagScope(w, tag, nsmap))
    ensures Open(w, tag, attrs, nsmap).Ok?
    ensures var o := Open(w, tag, attrs, nsmap).value;
      && o.element.scope == TagScope(w, tag, nsmap)
      && o.items == MapSeq(t => AttributeIn(TagScope(w, tag, nsmap), t), attrs)
  {
    var derived := DeriveScope(ParentScope(w), w.newNamespaces + nsmap);
    var t := Resolve(tag, derived, map[]).value;
    ResolveAllBound(attrs, t.scope, t.cnames);
    ItemsAreAttributeIn(attrs, ResolveAll(attrs, t.scope, t.cnames).value.items, t.scope);
  }

  /** Matching items are the attributes resolved one by one in the scope. */
  lemma ItemsAreAttributeIn(attrs: seq<(string, string)>, items: seq<Attribute>, scope: Scope)
    requires ItemsMatch(attrs, items, scope)
    ensures items == MapSeq(t => AttributeIn(scope, t), attrs)
  {
    var mapped := MapSeq(t => AttributeIn(scope, t), attrs);
    forall i | 0 <= i < |attrs| ensures items[i] == mapped[i] {
      assert mapped[i] == AttributeIn(scope, attrs[i]);
    }
  }

  /** When every attribute's namespace is already bound, the start tag
      does not depend on the order the attributes are given in.  (With two
      or more unbound URIs the synthetic prefixes are numbered in that
      order, so it does.) */
  lemma AttributeOrderIrrelevant(w: Writer, tag: string, attrs: seq<(string, string)>, shuffled: seq<(string, string)>, nsmap: Scope)
    requires multiset(shuffled) == multiset(attrs)
    requires ParseName(tag).Ok? && AllBound(attrs, TagScope(w, tag, nsmap))
    ensures Start(w, tag, attrs, nsmap).Ok? && Start(w, tag, shuffled, nsmap).Ok?
    ensures Start(w, tag, shuffled, nsmap).value.out == Start(w, tag, attrs, nsmap).value.out
  {
    var scope := TagScope(w, tag, nsmap);
    assert AllBound(shuffled, scope) by {
      forall i | 0 <= i < |shuffled| ensures ParseName(shuffled[i].0).Ok? && ParseName(shuffled[i].0).value.uri in scope {
        assert shuffled[i] in multiset(attrs);
        var j :| 0 <= j < |attrs| && attrs[j] == shuffled[i];
      }
    }
    OpenBound(w, tag, attrs, nsmap);
    OpenBound(w, tag, shuffled, nsmap);
    var f := t => AttributeIn(scope, t);
    MapSeqPermutation(f, shuffled, attrs);
    var a := Open(w, tag, attrs, nsmap).value;
    var b := Open(w, tag, shuffled, nsmap).value;
    assert a.element.tag == b.element.tag;
    ArrangeIgnoresInputOrder(w.config.sort, a.element.tag, a.items, b.items);
  }

  /** The outcome of running `more` calls after the outcome `r`. */
  function Continue(r: Result<Step>, more: seq<Event>): Result<Step> {
    match r
    case Err(e) => Err(e)
    case Ok(s) => Then(s, Run(s.writer, more))
  }

  lemma ThenThen(first: Step, s: Step, rest: Result<Step>)
    ensures Then(Step(s.writer, first.out + s.out), rest) == Then(first, Then(s, rest))
  {
    match rest
    case Err(_) =>
    case Ok(t) =>
      assert first.out + s.out + t.out == first.out + (s.out + t.out);
  }

  lemma ContinueThen(first: Step, r: Result<Step>, more: seq<Event>)
    ensures Continue(Then(first, r), more) == Then(first, Continue(r, more))
  {
    match r
    case Err(_) =>
    case Ok(s) =>
      ThenThen(first, s, Run(s.writer, more));
  }

  /** A non-empty run followed by more calls is the outcome `r` of its
      first call followed by the rest. */
  lemma RunCons(w: Writer, first: seq<Event>, second: seq<Event>, r: Result<Step>)
    requires |first| > 0 && r == Apply(w, first[0])
    ensures Run(w, first + second) == Continue(r, first[1..] + second)
  {
    ConsTail(first, second);
    RunStep(w, first + second, r);
  }

  lemma ConsTail<T>(first: seq<T>, second: seq<T>)
    requires |first| > 0
    ensures (first + second)[0] == first[0] && (first + second)[1..] == first[1..] + second
  {
  }

  /** One call, then the rest of the run. */
  lemma RunStep(w: Writer, events: seq<Event>, r: Result<Step>)
    requires |events| > 0 && r == Apply(w, events[0])
    ensures Run(w, events) == Continue(r, events[1..])
  {
  }

  /** Output already written is never revised: running two batches of
      calls writes the first batch's output followed by the second's, and
      an error in the first batch ends the run. */
  lemma {:induction false} RunAppend(w: Writer, first: seq<Event>, second: seq<Event>)
    ensures Run(w, first + second) == Continue(Run(w, first), second)
    decreases |first|, 0
  {
    if |first| > 0 {
      var r := Apply(w, first[0]);
      RunStep(w, first, r);
      RunCons(w, first, second, r);
      ContinueAppend(r, first[1..], second);
    } else {
      RunAfterNothing(w, second);
    }
  }

  lemma RunAfterNothing(w: Writer, second: seq<Event>)
    ensures Run(w, [] + second) == Continue(Run(w, []), second)
  {
    assert [] + second == second;
    match Run(w, second)
    case Err(_) =>
    case Ok(t) =>
      assert "" + t.out == t.out;
  }

  lemma {:induction false} ContinueAppend(r: Result<Step>, first: seq<Event>, second: seq<Event>)
    ensures Continue(r, first + second) == Continue(Continue(r, first), second)
    decreases |first|, 1
  {
    match r
    case Err(_) =>
    case Ok(s) =>
      RunAppend(s.writer, first, second);
      ContinueThen(s, Run(s.writer, first), second);
  }

}
