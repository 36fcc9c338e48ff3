/** `_cname` exactly as written, with the places where its result is
    used in a way that breaks (lines 158-175, 215, 234-235, 253-254).

    The cache is looked up with the name as given (line 160) but filled
    under the `{}`-normalized key (lines 162-163, 174), and a hit returns
    the bare serialized name while a miss returns the pair
    `(cname, (uri, local))` (lines 161, 175).  Consequences:
    - `end("a")` after `start("a")` misses the cache, gets a pair, and the
      pair never equals the open tag string, so a matching plain name is
      rejected (line 254);
    - an attribute whose name is any key stored earlier in the same
      `start` hits the cache: the element's tag in `{uri}local` form
      (`{}local` for a plain tag), or the normalized name of an earlier
      attribute, as `{}x` after `x`.  Line 215 then pairs a bare string
      with the value, which the sort key at line 234 (or line 81 for a
      custom order) or the loop at line 235 cannot unpack as
      `((cname, name), value)`.
    The rest of the model uses `Names.Resolve`, which always yields the
    serialized name, and `Writer.End` compares serialized names. */
module CnameCache {
  import opened Results
  import opened Escape
  import opened Names
  import opened Ordering
  import opened Writer

  /** What `_cname` returns. */
  datatype Lookup =
    | Hit(cname: string)
    | Miss(cname: string, qname: QName)

  datatype Cached = Cached(lookup: Lookup, scope: Scope, cnames: map<string, string>)

  function CnameAsWritten(name: string, scope: Scope, cnames: map<string, string>): (r: Result<Cached>)
    ensures name in cnames ==> r == Ok(Cached(Hit(cnames[name]), scope, cnames))
    ensures name !in cnames ==>
      && (r.Ok? <==> Resolve(name, scope, cnames).Ok?)
      && (r.Ok? ==> r.value.lookup == Miss(Resolve(name, scope, cnames).value.cname, ParseName(name).value))
      && (r.Ok? ==> r.value.scope == Resolve(name, scope, cnames).value.scope)
      && (r.Ok? ==> r.value.cnames == Resolve(name, scope, cnames).value.cnames)
  {
    if name in cnames then Ok(Cached(Hit(cnames[name]), scope, cnames))
    else
      var res :- Resolve(name, scope, cnames);
      Ok(Cached(Miss(res.cname, res.qname), res.scope, res.cnames))
  }

  /** Both kinds of result carry the serialized name `Resolve` computes,
      as long as the cache is coherent: the defect is in the shape of the
      result, not in its content. */
  lemma LookupAgreesWithResolve(name: string, scope: Scope, cnames: map<string, string>)
    requires Coherent(scope, cnames)
    requires CnameAsWritten(name, scope, cnames).Ok?
    ensures Resolve(name, scope, cnames).Ok?
    ensures CnameAsWritten(name, scope, cnames).value.lookup.cname == Resolve(name, scope, cnames).value.cname
  {
    if name in cnames {
      CacheHitAgrees(name, scope, cnames);
    }
  }

  /** `open_tag != tag` at line 254: a string equals a hit with the same
      text and never a pair. */
  predicate MatchesAsWritten(openTag: string, l: Lookup) {
    l.Hit? && l.cname == openTag
  }

  /** `end` as written (lines 251-256), up to the point where it raises. */
  function EndAsWritten(w: Writer, name: Option<string>): (r: Result<Step>)
    ensures name.None? ==> r == End(w, None)
    ensures |w.tags| > 0 && name.Some? && name.value !in w.tags[|w.tags| - 1].cnames ==> r.Err?
  {
    if |w.tags| == 0 then Err(NothingOpen)
    else if name.None? then End(w, None)
    else
      var open := w.tags[|w.tags| - 1];
      var found :- CnameAsWritten(name.value, open.scope, open.cnames);
      if MatchesAsWritten(open.tag, found.lookup) then End(w, None)
      else Err(TagMismatch(open.tag, found.lookup.cname))
  }

  /** Every key the cache is filled with starts with `{`. */
  lemma CacheKeysAreNormalized(scope: Scope, cnames: map<string, string>, key: string)
    requires Coherent(scope, cnames) && key in cnames
    ensures |key| > 0 && key[0] == '{'
  {
    assert Memo(key, scope, cnames[key]);
  }

  /** A plain name is never found in a coherent cache, so `end` as
      written rejects it whatever element is open. */
  lemma PlainNameMissesAsWritten(w: Writer, name: string)
    requires |w.tags| > 0 && |name| > 0 && name[0] != '{'
    requires Coherent(w.tags[|w.tags| - 1].scope, w.tags[|w.tags| - 1].cnames)
    ensures EndAsWritten(w, Some(name)).Err?
  {
    var e := w.tags[|w.tags| - 1];
    if name in e.cnames {
      CacheKeysAreNormalized(e.scope, e.cnames, name);
    }
  }

  /** As written, `end` with the plain name just given to `start` fails
      with a mismatch: the plain name is never a cache key. */
  lemma PlainNamedEndRejectedAsWritten(w: Writer, tag: string, attrs: seq<(string, string)>, nsmap: Scope)
    requires |tag| > 0 && tag[0] != '{'
    requires ParseName(tag).Ok? && AllParse(attrs)
    ensures EndAsWritten(Start(w, tag, attrs, nsmap).value.writer, Some(tag)).Err?
  {
    var next := Start(w, tag, attrs, nsmap).value.writer;
    var o := Open(w, tag, attrs, nsmap).value;
    assert next.tags == w.tags + [o.element];
    assert next.tags[|next.tags| - 1] == o.element;
    PlainNameMissesAsWritten(next, tag);
  }

  /** The smallest instance, `start("a")` then `end("a")` on a fresh
      default writer. */
  lemma NamedEndExample()
    ensures var w := Init(Config(Utf8, false, Alphabetical, true)).writer;
      var next := Start(w, "a", [], map[]).value.writer;
      EndAsWritten(next, Some("a")).Err?
  {
    var w := Init(Config(Utf8, false, Alphabetical, true)).writer;
    assert ParseName("a") == Ok(QName("", "a"));
    PlainNamedEndRejectedAsWritten(w, "a", [], map[]);
  }

  /** As written, an attribute whose name is the element's own name in
      `{uri}local` form (`{}local` for a plain tag) hits the cache the tag
      just filled, so `_cname` returns a bare string for it. */
  lemma AttributeNamedLikeTagHitsAsWritten(tag: string, scope: Scope)
    requires ParseName(tag).Ok?
    ensures var t := Resolve(tag, scope, map[]).value;
      CnameAsWritten(Normalize(tag), t.scope, t.cnames) == Ok(Cached(Hit(t.cname), t.scope, t.cnames))
  {
  }

  /** Line 235 unpacks each entry as `((cname, name), value)`: a pair always
      unpacks; a bare string only when it has exactly two characters, and
      then its characters are mistaken for the name and the URI pair. */
  predicate UnpacksAsWritten(l: Lookup) {
    l.Miss? || |l.cname| == 2
  }

  /** Whatever prefix the element's URI gets (inherited, empty or a
      synthetic `ns<N>`), an attribute named like the element in `{uri}local`
      form makes `start` fail as written unless the element's serialized
      name has exactly two characters. */
  lemma AttributeNamedLikeTagBreaksAsWritten(tag: string, scope: Scope)
    requires ParseName(tag).Ok?
    requires |Resolve(tag, scope, map[]).value.cname| != 2
    ensures var t := Resolve(tag, scope, map[]).value;
      var found := CnameAsWritten(Normalize(tag), t.scope, t.cnames);
      found.Ok? && !UnpacksAsWritten(found.value.lookup)
  {
    AttributeNamedLikeTagHitsAsWritten(tag, scope);
  }

  /** A concrete case: `start("{u}x", {"{u}x": "1"})` under a scope binding
      `u` to `a` gives the attribute the bare string `a:x`, which line 235
      cannot unpack. */
  lemma AttributeNamedLikeTagExample()
    ensures var t := Resolve("{u}x", map["u" := "a"], map[]).value;
      var found := CnameAsWritten("{u}x", t.scope, t.cnames);
      found.Ok? && !UnpacksAsWritten(found.value.lookup)
  {
    assert ClarkName(QName("u", "x")) == "{u}x";
    ParseClarkName(QName("u", "x"));
    assert Normalize("{u}x") == "{u}x";
    AttributeNamedLikeTagBreaksAsWritten("{u}x", map["u" := "a"]);
  }

  /** The result of the list built at line 215, as written. */
  datatype Listed = Listed(lookups: seq<Lookup>, scope: Scope, cnames: map<string, string>)

  /** Line 215 as written: `_cname` of every attribute name in the
      dictionary's iteration order, each call seeing the scope and the
      cache that the tag and the earlier attributes filled. */
  function LookupsAsWritten(attrs: seq<(string, string)>, scope: Scope, cnames: map<string, string>): (r: Result<Listed>)
    ensures r.Ok? ==> |r.value.lookups| == |attrs|
    decreases |attrs|
  {
    if |attrs| == 0 then Ok(Listed([], scope, cnames))
    else
      var first :- CnameAsWritten(attrs[0].0, scope, cnames);
      var rest :- LookupsAsWritten(attrs[1..], first.scope, first.cnames);
      Ok(Listed([first.lookup] + rest.lookups, rest.scope, rest.cnames))
  }

  /** The name of `attrs[j]` is already a key when line 215 looks it up:
      a key the cache held before the attributes (the tag's), or the
      normalized name of an earlier attribute. */
  predicate StoredBefore(attrs: seq<(string, string)>, j: nat, cnames: map<string, string>)
    requires j < |attrs|
  {
    || attrs[j].0 in cnames
    || exists i | 0 <= i < j :: |attrs[i].0| > 0 && Normalize(attrs[i].0) == attrs[j].0
  }

  /** As written, an attribute's lookup hits the cache exactly when its
      name was stored before it in the same `start`; every hit is a bare
      string that line 235 may fail to unpack. */
  lemma {:induction false} LookupHitsIffStoredBefore(attrs: seq<(string, string)>, scope: Scope, cnames: map<string, string>)
    requires Coherent(scope, cnames)
    requires LookupsAsWritten(attrs, scope, cnames).Ok?
    ensures var l := LookupsAsWritten(attrs, scope, cnames).value.lookups;
      forall j | 0 <= j < |attrs| :: l[j].Hit? <==> StoredBefore(attrs, j, cnames)
    decreases |attrs|
  {
    if |attrs| > 0 {
      var l := LookupsAsWritten(attrs, scope, cnames).value.lookups;
      var first := CnameAsWritten(attrs[0].0, scope, cnames).value;
      var rest := LookupsAsWritten(attrs[1..], first.scope, first.cnames).value;
      assert l == [first.lookup] + rest.lookups;
      var key := FirstKeyStored(attrs[0].0, scope, cnames);
      LookupHitsIffStoredBefore(attrs[1..], first.scope, first.cnames);
      HitsStep(attrs, cnames, first.cnames, l, first.lookup, rest.lookups);
    }
  }

  /** The first lookup hits iff its name is a key; the rest are shifted by one. */
  lemma HitsStep(attrs: seq<(string, string)>, cnames: map<string, string>, next: map<string, string>,
                 l: seq<Lookup>, first: Lookup, rest: seq<Lookup>)
    requires |attrs| > 0 && |attrs[0].0| > 0 && l == [first] + rest && |rest| == |attrs| - 1
    requires first.Hit? <==> attrs[0].0 in cnames
    requires next.Keys == cnames.Keys + {Normalize(attrs[0].0)}
    requires forall j | 0 <= j < |attrs| - 1 :: rest[j].Hit? <==> StoredBefore(attrs[1..], j, next)
    ensures forall j | 0 <= j < |attrs| :: l[j].Hit? <==> StoredBefore(attrs, j, cnames)
  {
    forall j | 0 <= j < |attrs| ensures l[j].Hit? <==> StoredBefore(attrs, j, cnames) {
      if j > 0 {
        assert l[j] == rest[j - 1];
        StoredBeforeShift(attrs, j, cnames, next);
      }
    }
  }

  /** After one lookup the cache holds that name's normalized key, and
      stays coherent. */
  lemma FirstKeyStored(name: string, scope: Scope, cnames: map<string, string>) returns (key: string)
    requires Coherent(scope, cnames) && CnameAsWritten(name, scope, cnames).Ok?
    ensures |name| > 0 && key == Normalize(name)
    ensures var c := CnameAsWritten(name, scope, cnames).value;
      && c.cnames.Keys == cnames.Keys + {key}
      && Coherent(c.scope, c.cnames)
  {
    if name in cnames {
      CacheKeysAreNormalized(scope, cnames, name);
    } else {
      MissStores(name, scope, cnames, Resolve(name, scope, cnames).value);
    }
    key := Normalize(name);
  }

  lemma MissStores(name: string, scope: Scope, cnames: map<string, string>, res: Resolution)
    requires Coherent(scope, cnames) && name !in cnames && Resolve(name, scope, cnames) == Ok(res)
    ensures |name| > 0 && res.cnames.Keys == cnames.Keys + {Normalize(name)} && Coherent(res.scope, res.cnames)
  {
  }

  lemma StoredBeforeShift(attrs: seq<(string, string)>, j: nat, cnames: map<string, string>, next: map<string, string>)
    requires 0 < j < |attrs| && |attrs[0].0| > 0
    requires next.Keys == cnames.Keys + {Normalize(attrs[0].0)}
    ensures StoredBefore(attrs[1..], j - 1, next) <==> StoredBefore(attrs, j, cnames)
  {
    assert attrs[1..][j - 1] == attrs[j];
    if StoredBefore(attrs[1..], j - 1, next) && attrs[j].0 !in next {
      var i :| 0 <= i < j - 1 && |attrs[1..][i].0| > 0 && Normalize(attrs[1..][i].0) == attrs[j].0;
      assert attrs[i + 1] == attrs[1..][i];
    }
    if StoredBefore(attrs, j, cnames) && attrs[j].0 !in cnames && attrs[j].0 != Normalize(attrs[0].0) {
      var i :| 0 <= i < j && |attrs[i].0| > 0 && Normalize(attrs[i].0) == attrs[j].0;
      assert attrs[1..][i - 1] == attrs[i];
    }
  }

  /** `start("t", {"x": "1", "{}x": "2"})` with `x` iterated first: `x`
      misses and stores the key `{}x`, so `{}x` then hits and gets the bare
      string `x`, which line 234 or 235 cannot unpack. */
  lemma AttributeNamedLikeEarlierAttributeExample()
    ensures var t := Resolve("t", RootScope, map[]).value;
      var l := LookupsAsWritten([("x", "1"), ("{}x", "2")], t.scope, t.cnames);
      && l.Ok? && |l.value.lookups| == 2
      && l.value.lookups[1] == Hit("x") && !UnpacksAsWritten(l.value.lookups[1])
  {
    var t := Resolve("t", RootScope, map[]).value;
    PlainNames();
    var x := PlainTagThenPlainAttribute("t", "x");
    var second := StoredKeyHits("{}x", x.scope, x.cnames);
    TwoLookups([("x", "1"), ("{}x", "2")], t.scope, t.cnames, x, second);
  }

  lemma PlainNames()
    ensures |"t"| > 0 && "t"[0] != '{' && |"x"| > 0 && "x"[0] != '{' && "{}" + "x" == "{}x"
  {
  }

  lemma StoredKeyHits(name: string, scope: Scope, cnames: map<string, string>) returns (c: Cached)
    requires name in cnames
    ensures CnameAsWritten(name, scope, cnames) == Ok(c) && c.lookup == Hit(cnames[name])
  {
    c := CnameAsWritten(name, scope, cnames).value;
  }

  /** At the root, plain tag `t` stores `{}t`; a plain attribute `x`
      then misses and stores `{}x` with the bare name `x`. */
  lemma PlainTagThenPlainAttribute(tag: string, name: string) returns (x: Cached)
    requires |tag| > 0 && tag[0] != '{' && |name| > 0 && name[0] != '{'
    ensures var t := Resolve(tag, RootScope, map[]).value;
      && CnameAsWritten(name, t.scope, t.cnames) == Ok(x)
      && "{}" + name in x.cnames && x.cnames["{}" + name] == name
  {
    ResolvePlainName(tag, RootScope, map[]);
    var t := Resolve(tag, RootScope, map[]).value;
    MissStores(tag, RootScope, map[], t);
    assert name !in t.cnames;
    ResolvePlainName(name, t.scope, t.cnames);
    x := CnameAsWritten(name, t.scope, t.cnames).value;
  }

  /** Line 215 over two attributes is two lookups, the second seeing the
      cache the first left. */
  lemma TwoLookups(attrs: seq<(string, string)>, scope: Scope, cnames: map<string, string>, first: Cached, second: Cached)
    requires |attrs| == 2
    requires CnameAsWritten(attrs[0].0, scope, cnames) == Ok(first)
    requires CnameAsWritten(attrs[1].0, first.scope, first.cnames) == Ok(second)
    ensures LookupsAsWritten(attrs, scope, cnames).Ok?
    ensures LookupsAsWritten(attrs, scope, cnames).value.lookups == [first.lookup, second.lookup]
  {
    var tail := attrs[1..];
    assert tail[0] == attrs[1] && tail[1..] == [];
    var none := Listed([], second.scope, second.cnames);
    LookupsCons(tail, first.scope, first.cnames, second, none);
    assert [second.lookup] + none.lookups == [second.lookup];
    var one := Listed([second.lookup], second.scope, second.cnames);
    LookupsCons(attrs, scope, cnames, first, one);
  }

  lemma LookupsCons(attrs: seq<(string, string)>, scope: Scope, cnames: map<string, string>, c: Cached, rest: Listed)
    requires |attrs| > 0 && CnameAsWritten(attrs[0].0, scope, cnames) == Ok(c)
    requires LookupsAsWritten(attrs[1..], c.scope, c.cnames) == Ok(rest)
    ensures LookupsAsWritten(attrs, scope, cnames) == Ok(Listed([c.lookup] + rest.lookups, rest.scope, rest.cnames))
  {
  }

  /** The same with a plain tag: `start("x", {"{}x": "1"})` at the root,
      where the empty URI has the empty prefix, gives the attribute the bare
      string `x`. */
  lemma AttributeNamedLikePlainTagExample()
    ensures var t := Resolve("x", RootScope, map[]).value;
      var found := CnameAsWritten("{}x", t.scope, t.cnames);
      found.Ok? && !UnpacksAsWritten(found.value.lookup)
  {
    assert "x"[0] != '{';
    assert Normalize("x") == "{}x";
    ResolvePlainName("x", RootScope, map[]);
    AttributeNamedLikeTagBreaksAsWritten("x", RootScope);
  }
}
