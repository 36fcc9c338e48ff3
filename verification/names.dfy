/** Name and namespace resolution of `XMLWriter`: parsing `{uri}local`
    names, turning them into serialized names (`_cname`), deriving an
    element's scope from its parent's and the pending declarations, and
    choosing which `xmlns` attributes a start tag carries.

    A scope maps a namespace URI to its prefix; the empty prefix is the
    default namespace. */
module Names {
  import opened Results
  import opened Lexical

  type Scope = map<string, string>

  datatype QName = QName(uri: string, local: string)

  /** The scope above the root element: the empty URI has the empty prefix. */
  const RootScope: Scope := map["" := ""]

  function IndexOf(s: string, c: char): (r: Option<nat>)
    ensures r.Some? ==> r.value < |s| && s[r.value] == c && c !in s[..r.value]
    ensures r.None? ==> c !in s
    decreases |s|
  {
    if |s| == 0 then None
    else if s[0] == c then Some(0)
    else
      match IndexOf(s[1..], c)
      case None =>
        assert s == [s[0]] + s[1..];
        None
      case Some(k) =>
        assert s[..k + 1] == [s[0]] + s[1..][..k];
        Some(k + 1)
  }

  /** The key `_cname` caches a name under: a plain name gets an empty `{}`. */
  function Normalize(name: string): string
    requires |name| > 0
  {
    if name[0] == '{' then name else "{}" + name
  }

  /** Splits a `{uri}local` or plain name at the first `}`; an empty name
      and a `{` name without `}` raise in the source. */
  function ParseName(name: string): (r: Result<QName>)
    ensures r.Ok? <==> |name| > 0 && (name[0] == '{' ==> '}' in name[1..])
    ensures |name| > 0 && name[0] != '{' ==> r == Ok(QName("", name))
  {
    if |name| == 0 then Err(MalformedName(name))
    else
      var rest := Normalize(name)[1..];
      assert name[0] != '{' ==> rest == "}" + name;
      match IndexOf(rest, '}')
      case None => Err(MalformedName(name))
      case Some(k) => Ok(QName(rest[..k], rest[k + 1..]))
  }

  /** The `{uri}local` form of a qualified name. */
  function ClarkName(q: QName): string {
    "{" + q.uri + "}" + q.local
  }

  /** Parsing undoes the `{uri}local` form, for every URI without a `}`. */
  lemma ParseClarkName(q: QName)
    requires '}' !in q.uri
    ensures ParseName(ClarkName(q)) == Ok(q)
  {
    var name := ClarkName(q);
    var rest := name[1..];
    assert rest == q.uri + "}" + q.local;
    var k := IndexOf(rest, '}').value;
    assert rest[|q.uri|] == '}';
    assert k == |q.uri|;
    assert rest[..k] == q.uri && rest[k + 1..] == q.local;
  }

  /** The cache key parses to the same qualified name as the name itself. */
  lemma ParseNormalized(name: string)
    requires |name| > 0
    ensures ParseName(Normalize(name)) == ParseName(name)
  {
    if name[0] != '{' {
      var n := Normalize(name);
      assert n[1..] == "}" + name;
      assert n[1..][1..] == name;
    }
  }

  /** `prefix:local`, or the bare local name under the empty prefix. */
  function QualifiedName(prefix: string, local: string): string {
    if prefix == "" then local else prefix + ":" + local
  }

  /** The prefix `_cname` invents for a URI the scope does not bind. */
  function SyntheticPrefix(scope: Scope): string {
    "ns" + Decimal(|scope| + 1)
  }

  predicate Extends(big: Scope, small: Scope) {
    forall u | u in small :: u in big && big[u] == small[u]
  }

  /** A cache entry agrees with what resolving its key in `scope` gives. */
  predicate Memo(key: string, scope: Scope, cname: string) {
    && |key| > 0 && key[0] == '{'
    && ParseName(key).Ok?
    && ParseName(key).value.uri in scope
    && cname == QualifiedName(scope[ParseName(key).value.uri], ParseName(key).value.local)
  }

  /** Every cached serialized name is what resolution would compute anyway. */
  predicate Coherent(scope: Scope, cnames: map<string, string>) {
    forall k | k in cnames :: Memo(k, scope, cnames[k])
  }

  lemma CoherentExtends(small: Scope, big: Scope, cnames: map<string, string>)
    requires Coherent(small, cnames) && Extends(big, small)
    ensures Coherent(big, cnames)
  {
  }

  datatype Resolution = Resolution(cname: string, qname: QName, scope: Scope, cnames: map<string, string>)

  /** What resolving `name` in `scope` yields: its qualified name, the
      scope extended by at most the name's URI (under a synthetic prefix
      when it was unbound), the serialized name under that scope, and the
      cache with the result recorded under the normalized key. */
  ghost predicate ResolvesTo(name: string, scope: Scope, cnames: map<string, string>, res: Resolution)
    requires ParseName(name).Ok?
  {
    var q := ParseName(name).value;
    var s := res.scope;
    && res.qname == q
    && Extends(s, scope) && s.Keys == scope.Keys + {q.uri}
    && (q.uri !in scope ==> s[q.uri] == SyntheticPrefix(scope))
    && res.cname == QualifiedName(s[q.uri], q.local)
    && (Coherent(scope, cnames) ==> Coherent(s, res.cnames))
    && Normalize(name) in res.cnames && res.cnames[Normalize(name)] == res.cname
  }

  /** `_cname`: the serialized name of `name` in `scope`.  An unbound URI is
      added to the scope under a synthetic `ns<N>` prefix; the result is
      recorded in the element's cache under the normalized key. */
  function Resolve(name: string, scope: Scope, cnames: map<string, string>): (r: Result<Resolution>)
    ensures r.Ok? <==> ParseName(name).Ok?
    ensures r.Ok? ==> ResolvesTo(name, scope, cnames, r.value)
  {
    match ParseName(name)
    case Err(e) => Err(e)
    case Ok(q) => Ok(Record(name, q, scope, cnames))
  }

  /** The resolution of a name that parsed as `q`. */
  function Record(name: string, q: QName, scope: Scope, cnames: map<string, string>): (res: Resolution)
    requires ParseName(name) == Ok(q)
    ensures ResolvesTo(name, scope, cnames, res)
  {
    var s := if q.uri in scope then scope else scope[q.uri := SyntheticPrefix(scope)];
    var cname := QualifiedName(s[q.uri], q.local);
    RecordKeepsCoherent(name, q, scope, s, cnames, cname);
    assert s.Keys == scope.Keys + {q.uri};
    Resolution(cname, q, s, cnames[Normalize(name) := cname])
  }

  /** Recording a freshly computed name keeps the cache coherent with the
      extended scope. */
  lemma RecordKeepsCoherent(name: string, q: QName, scope: Scope, s: Scope, cnames: map<string, string>, cname: string)
    requires ParseName(name) == Ok(q) && Extends(s, scope) && q.uri in s
    requires cname == QualifiedName(s[q.uri], q.local)
    ensures |name| > 0 && Memo(Normalize(name), s, cname)
    ensures Coherent(scope, cnames) ==> Coherent(s, cnames[Normalize(name) := cname])
  {
    ParseNormalized(name);
    if Coherent(scope, cnames) {
      CoherentExtends(scope, s, cnames);
    }
  }

  /** A plain name is in the empty URI; it is bare exactly when the scope
      gives the empty URI the empty prefix, and otherwise gets a prefix. */
  lemma ResolvePlainName(name: string, scope: Scope, cnames: map<string, string>)
    requires |name| > 0 && name[0] != '{'
    ensures Resolve(name, scope, cnames).Ok?
    ensures Resolve(name, scope, cnames).value.qname == QName("", name)
    ensures Resolve(name, scope, cnames).value.cname == name <==> "" in scope && scope[""] == ""
  {
    var r := Resolve(name, scope, cnames).value;
    var p := r.scope[""];
    assert p == "" <==> "" in scope && scope[""] == "" by {
      if "" !in scope {
        assert p == SyntheticPrefix(scope);
        assert p[0] == 'n';
      }
    }
    QualifiedNameIsBare(p, name);
  }

  /** A serialized name is the bare local name exactly under the empty prefix. */
  lemma QualifiedNameIsBare(prefix: string, local: string)
    ensures QualifiedName(prefix, local) == local <==> prefix == ""
  {
    if prefix != "" {
      assert |QualifiedName(prefix, local)| == |prefix| + 1 + |local|;
    }
  }


  /** Resolving the same name again changes nothing: the cache of
      lines 160-161 only short-cuts a computation that gives the same cname. */
  lemma ResolveIdempotent(name: string, scope: Scope, cnames: map<string, string>)
    requires Resolve(name, scope, cnames).Ok?
    ensures var r := Resolve(name, scope, cnames).value;
      var again := Resolve(name, r.scope, r.cnames);
      again.Ok? && again.value.cname == r.cname && again.value.scope == r.scope
  {
  }

  /** A cache hit returns exactly what recomputation would, and recomputation
      does not change a coherent scope. */
  lemma CacheHitAgrees(key: string, scope: Scope, cnames: map<string, string>)
    requires Coherent(scope, cnames) && key in cnames
    ensures Resolve(key, scope, cnames).Ok?
    ensures Resolve(key, scope, cnames).value.cname == cnames[key]
    ensures Resolve(key, scope, cnames).value.scope == scope
  {
    assert Memo(key, scope, cnames[key]);
  }

  /** An attribute after resolution: its serialized name, qualified name and value. */
  datatype Attribute = Attribute(cname: string, qname: QName, value: string)

  datatype Resolved = Resolved(items: seq<Attribute>, scope: Scope, cnames: map<string, string>)

  predicate AllParse(attrs: seq<(string, string)>) {
    forall i | 0 <= i < |attrs| :: ParseName(attrs[i].0).Ok?
  }

  /** Every attribute `attrs[i]` became `items[i]`: its parsed name, its
      value, and its serialized name under `scope`, which binds its URI. */
  ghost predicate ItemsMatch(attrs: seq<(string, string)>, items: seq<Attribute>, scope: Scope) {
    && |items| == |attrs|
    && forall i | 0 <= i < |attrs| ::
      var a := items[i];
      && ParseName(attrs[i].0).Ok?
      && a.qname == ParseName(attrs[i].0).value
      && a.value == attrs[i].1
      && a.qname.uri in scope
      && a.cname == QualifiedName(scope[a.qname.uri], a.qname.local)
  }

  /** The URIs of resolved attributes. */
  ghost function ItemUris(items: seq<Attribute>): set<string> {
    set i | 0 <= i < |items| :: items[i].qname.uri
  }

  /** Every URI that `big` binds and `small` does not has a synthetic
      `ns<N>` prefix, numbered past `small`'s size and up to `big`'s: the
      only prefixes line 166 invents. */
  ghost predicate SyntheticBetween(small: Scope, big: Scope) {
    forall u | u in big && u !in small :: exists n: nat | |small| < n <= |big| :: big[u] == "ns" + Decimal(n)
  }

  /** What resolving all attribute names yields: the scope gains exactly
      the attributes' URIs, each one it lacked under a synthetic prefix. */
  ghost predicate ResolvesAll(attrs: seq<(string, string)>, scope: Scope, cnames: map<string, string>, res: Resolved) {
    && ItemsMatch(attrs, res.items, res.scope)
    && Extends(res.scope, scope)
    && res.scope.Keys == scope.Keys + ItemUris(res.items)
    && SyntheticBetween(scope, res.scope)
    && (Coherent(scope, cnames) ==> Coherent(res.scope, res.cnames))
  }

  /** Resolves attribute names one after the other (line 215), in the
      dictionary's iteration order; each may bind a synthetic prefix. */
  function ResolveAll(attrs: seq<(string, string)>, scope: Scope, cnames: map<string, string>): (r: Result<Resolved>)
    ensures r.Ok? <==> AllParse(attrs)
    ensures r.Ok? ==> ResolvesAll(attrs, scope, cnames, r.value)
    decreases |attrs|
  {
    if |attrs| == 0 then Ok(Resolved([], scope, cnames))
    else
      match Resolve(attrs[0].0, scope, cnames)
      case Err(e) => Err(e)
      case Ok(first) =>
        match ResolveAll(attrs[1..], first.scope, first.cnames)
        case Err(e) => Err(e)
        case Ok(rest) =>
          var items := [Attribute(first.cname, first.qname, attrs[0].1)] + rest.items;
          ResolveAllStep(attrs, scope, cnames, first, rest);
          Ok(Resolved(items, rest.scope, rest.cnames))
  }

  /** How the first attribute's resolution and the rest combine. */
  lemma ResolveAllStep(attrs: seq<(string, string)>, scope: Scope, cnames: map<string, string>, first: Resolution, rest: Resolved)
    requires |attrs| > 0 && ParseName(attrs[0].0).Ok?
    requires ResolvesTo(attrs[0].0, scope, cnames, first)
    requires ResolvesAll(attrs[1..], first.scope, first.cnames, rest)
    ensures AllParse(attrs)
    ensures ResolvesAll(attrs, scope, cnames, Resolved([Attribute(first.cname, first.qname, attrs[0].1)] + rest.items, rest.scope, rest.cnames))
  {
    var items := [Attribute(first.cname, first.qname, attrs[0].1)] + rest.items;
    ItemsMatchCons(attrs, first, rest);
    ExtendsTransitive(rest.scope, first.scope, scope);
    ItemUrisCons(items);
    assert items[1..] == rest.items;
    KeysStep(scope.Keys, first.scope.Keys, rest.scope.Keys, first.qname.uri, ItemUris(items), ItemUris(rest.items));
    ResolveIsSynthetic(attrs[0].0, scope, cnames, first);
    SyntheticBetweenTransitive(scope, first.scope, rest.scope);
  }

  /** A tag resolved and then its attributes: the scope gains exactly the
      tag's and the attributes' URIs, the new ones under synthetic prefixes. */
  lemma TagThenAttributes(tag: string, attrs: seq<(string, string)>, scope: Scope, t: Resolution, all: Resolved)
    requires ParseName(tag).Ok? && ResolvesTo(tag, scope, map[], t)
    requires ResolvesAll(attrs, t.scope, t.cnames, all)
    ensures all.scope.Keys == scope.Keys + {t.qname.uri} + ItemUris(all.items)
    ensures SyntheticBetween(scope, all.scope)
  {
    ResolveIsSynthetic(tag, scope, map[], t);
    SyntheticBetweenTransitive(scope, t.scope, all.scope);
  }

  lemma KeysStep(scope: set<string>, middle: set<string>, big: set<string>, u: string, all: set<string>, rest: set<string>)
    requires middle == scope + {u} && big == middle + rest && all == {u} + rest
    ensures big == scope + all
  {
  }

  lemma ItemUrisCons(items: seq<Attribute>)
    requires |items| > 0
    ensures ItemUris(items) == {items[0].qname.uri} + ItemUris(items[1..])
  {
    forall u | u in ItemUris(items) ensures u in {items[0].qname.uri} + ItemUris(items[1..]) {
      var i :| 0 <= i < |items| && items[i].qname.uri == u;
      if i > 0 {
        assert items[1..][i - 1] == items[i];
      }
    }
    forall u | u in ItemUris(items[1..]) ensures u in ItemUris(items) {
      var i :| 0 <= i < |items[1..]| && items[1..][i].qname.uri == u;
      assert items[i + 1] == items[1..][i];
    }
  }

  /** One resolution adds at most its URI, under the next synthetic prefix. */
  lemma ResolveIsSynthetic(name: string, scope: Scope, cnames: map<string, string>, res: Resolution)
    requires ParseName(name).Ok? && ResolvesTo(name, scope, cnames, res)
    ensures SyntheticBetween(scope, res.scope)
  {
    var u := ParseName(name).value.uri;
    if u !in scope {
      assert |res.scope.Keys| == |scope.Keys| + 1;
      assert res.scope[u] == "ns" + Decimal(|scope| + 1);
    }
  }

  lemma SyntheticBetweenTransitive(small: Scope, middle: Scope, big: Scope)
    requires SyntheticBetween(small, middle) && SyntheticBetween(middle, big)
    requires Extends(middle, small) && Extends(big, middle)
    ensures SyntheticBetween(small, big)
  {
    SubsetSize(small.Keys, middle.Keys);
    SubsetSize(middle.Keys, big.Keys);
  }

  lemma {:induction false} SubsetSize(small: set<string>, big: set<string>)
    requires small <= big
    ensures |small| <= |big|
    decreases |small|
  {
    if small != {} {
      var x :| x in small;
      SubsetSize(small - {x}, big - {x});
    }
  }

  lemma ExtendsTransitive(big: Scope, middle: Scope, small: Scope)
    requires Extends(big, middle) && Extends(middle, small)
    ensures Extends(big, small)
  {
  }

  lemma ItemsMatchCons(attrs: seq<(string, string)>, first: Resolution, rest: Resolved)
    requires |attrs| > 0 && ParseName(attrs[0].0) == Ok(first.qname)
    requires Extends(rest.scope, first.scope) && first.qname.uri in first.scope
    requires first.cname == QualifiedName(first.scope[first.qname.uri], first.qname.local)
    requires ItemsMatch(attrs[1..], rest.items, rest.scope)
    ensures AllParse(attrs)
    ensures ItemsMatch(attrs, [Attribute(first.cname, first.qname, attrs[0].1)] + rest.items, rest.scope)
  {
    var items := [Attribute(first.cname, first.qname, attrs[0].1)] + rest.items;
    forall i | 0 <= i < |attrs|
      ensures
        var a := items[i];
        && ParseName(attrs[i].0).Ok?
        && a.qname == ParseName(attrs[i].0).value
        && a.value == attrs[i].1
        && a.qname.uri in rest.scope
        && a.cname == QualifiedName(rest.scope[a.qname.uri], a.qname.local)
    {
      if i > 0 {
        assert items[i] == rest.items[i - 1];
        assert attrs[i] == attrs[1..][i - 1];
      }
    }
  }

  /** Every attribute name parses and its URI is already bound in `scope`. */
  predicate AllBound(attrs: seq<(string, string)>, scope: Scope) {
    forall i | 0 <= i < |attrs| :: ParseName(attrs[i].0).Ok? && ParseName(attrs[i].0).value.uri in scope
  }

  /** When every attribute URI is bound, resolution adds nothing to the
      scope, and each attribute's serialized name depends only on itself. */
  lemma {:induction false} ResolveAllBound(attrs: seq<(string, string)>, scope: Scope, cnames: map<string, string>)
    requires AllBound(attrs, scope)
    ensures ResolveAll(attrs, scope, cnames).Ok?
    ensures ResolveAll(attrs, scope, cnames).value.scope == scope
    decreases |attrs|
  {
    assert AllParse(attrs);
    if |attrs| > 0 {
      var first := Resolve(attrs[0].0, scope, cnames).value;
      SameKeysSameScope(first.scope, scope);
      assert AllBound(attrs[1..], scope) by {
        forall i | 0 <= i < |attrs| - 1 ensures attrs[1..][i] == attrs[i + 1] {
        }
      }
      ResolveAllBound(attrs[1..], scope, first.cnames);
    }
  }

  /** A scope extending another with the same URIs is that scope. */
  lemma SameKeysSameScope(big: Scope, small: Scope)
    requires Extends(big, small) && big.Keys == small.Keys
    ensures big == small
  {
  }


  /** The child scope: the parent's entries whose prefix no pending
      declaration reuses, overlaid with the pending declarations (lines 196-205). */
  function DeriveScope(parent: Scope, pending: Scope): (s: Scope)
    ensures forall u :: u in s <==> u in pending || (u in parent && parent[u] !in pending.Values)
    ensures forall u | u in pending :: s[u] == pending[u]
    ensures forall u | u in s && u !in pending :: s[u] == parent[u]
  {
    (map u | u in parent && parent[u] !in pending.Values :: parent[u]) + pending
  }

  /** A binding declared on an element whose scope extends the derived
      scope by the URIs `extra`, new ones under synthetic prefixes, is
      either pending or one of those URIs under a synthetic prefix: an
      inherited binding that was not overridden is never redeclared. */
  lemma DeclaredBindingSource(parent: Scope, pending: Scope, s: Scope, extra: set<string>, u: string, p: string)
    requires Extends(s, DeriveScope(parent, pending))
    requires s.Keys == DeriveScope(parent, pending).Keys + extra
    requires SyntheticBetween(DeriveScope(parent, pending), s)
    requires (u, p) in Declarations(s, parent)
    ensures var derived := DeriveScope(parent, pending);
      || (u in pending && p == pending[u])
      || (u !in derived && u in extra && exists n: nat | |derived| < n :: p == "ns" + Decimal(n))
  {
    var derived := DeriveScope(parent, pending);
    DeclaredIsBound(s, parent, u, p);
    if u in derived {
      InheritedNotRedeclared(parent, pending, derived, s, u, p);
    } else {
      assert u in s.Keys;
      SyntheticAt(derived, s, u);
    }
  }

  lemma DeclaredIsBound(s: Scope, parent: Scope, u: string, p: string)
    requires (u, p) in Declarations(s, parent)
    ensures u in s && s[u] == p && (u !in parent || parent[u] != p)
  {
  }

  lemma InheritedNotRedeclared(parent: Scope, pending: Scope, derived: Scope, s: Scope, u: string, p: string)
    requires derived == DeriveScope(parent, pending) && Extends(s, derived)
    requires u in derived && u in s && s[u] == p && (u !in parent || parent[u] != p)
    ensures u in pending && p == pending[u]
  {
  }

  lemma SyntheticAt(small: Scope, big: Scope, u: string)
    requires SyntheticBetween(small, big) && u in big && u !in small
    ensures exists n: nat | |small| < n :: big[u] == "ns" + Decimal(n)
  {
  }

  /** With nothing pending, a child inherits its parent's scope unchanged. */
  lemma DeriveScopeNothingPending(parent: Scope)
    ensures DeriveScope(parent, map[]) == parent
  {
  }

  /** No inherited URI keeps a prefix that a pending declaration uses. */
  lemma DeclaredPrefixesBelongToPending(parent: Scope, pending: Scope, u: string)
    requires u in DeriveScope(parent, pending)
    requires DeriveScope(parent, pending)[u] in pending.Values
    ensures u in pending
  {
  }

  /** The pending map is never cleared, so it is merged again at every later
      start; merging it into a scope that already absorbed it changes nothing. */
  lemma RemergeIsIdempotent(parent: Scope, pending: Scope)
    ensures DeriveScope(DeriveScope(parent, pending), pending) == DeriveScope(parent, pending)
  {
    var once := DeriveScope(parent, pending);
    var twice := DeriveScope(once, pending);
    assert forall u :: u in twice <==> u in once by {
      forall u ensures u in twice <==> u in once {
        if u in once && u !in pending {
          assert once[u] == parent[u];
        }
      }
    }
  }

  /** The least element of a non-empty set of strings. */
  function Least(s: set<string>): (k: string)
    requires s != {}
    ensures k in s && forall j | j in s :: StrLe(k, j)
  {
    LeastExists(s);
    StrLeIsAntisymmetric();
    var k :| k in s && forall j | j in s :: StrLe(k, j);
    k
  }

  lemma StrLeIsAntisymmetric()
    ensures forall a, b :: StrLe(a, b) && StrLe(b, a) ==> a == b
  {
    forall a, b | StrLe(a, b) && StrLe(b, a) ensures a == b {
      StrLeAntisymmetric(a, b);
    }
  }

  lemma {:induction false} LeastExists(s: set<string>)
    requires s != {}
    ensures exists k :: k in s && forall j | j in s :: StrLe(k, j)
    decreases |s|
  {
    var x :| x in s;
    if s == {x} {
      assert forall j | j in s :: StrLe(x, j);
    } else {
      var rest := s - {x};
      LeastExists(rest);
      var m :| m in rest && forall j | j in rest :: StrLe(m, j);
      var k := LeastAfterAdding(x, m, rest);
      assert rest + {x} == s;
    }
  }

  /** Adding `x` to a set whose least element is `m`: the smaller of the two
      is least. */
  lemma LeastAfterAdding(x: string, m: string, rest: set<string>) returns (k: string)
    requires m in rest && forall j | j in rest :: StrLe(m, j)
    ensures k in rest + {x} && forall j | j in rest + {x} :: StrLe(k, j)
  {
    StrLeTotal(x, m);
    if StrLe(x, m) {
      k := x;
      forall j | j in rest + {x} ensures StrLe(x, j) {
        if j != x {
          StrLeTransitive(x, m, j);
        }
      }
    } else {
      k := m;
    }
  }


  /** Strictly ascending strings. */
  predicate Ascending(ks: seq<string>) {
    forall i, j | 0 <= i < j < |ks| :: StrLt(ks[i], ks[j])
  }

  lemma AscendingCons(k: string, rest: seq<string>)
    requires Ascending(rest)
    requires forall j | 0 <= j < |rest| :: StrLt(k, rest[j])
    ensures Ascending([k] + rest)
  {
    var ks := [k] + rest;
    forall i, j | 0 <= i < j < |ks| ensures StrLt(ks[i], ks[j]) {
      assert ks[j] == rest[j - 1];
      if i > 0 {
        assert ks[i] == rest[i - 1];
      }
    }
  }

  /** The URIs of a scope in ascending order, as `sorted(namespaces.iteritems())`. */
  function SortedKeys(m: Scope): (ks: seq<string>)
    ensures Ascending(ks)
    ensures forall u :: u in m <==> u in ks
    ensures |ks| == |m|
    decreases |m|
  {
    if |m| == 0 then []
    else
      var k := Least(m.Keys);
      var rest := SortedKeys(m - {k});
      assert forall j | 0 <= j < |rest| :: StrLt(k, rest[j]) by {
        forall j | 0 <= j < |rest| ensures StrLt(k, rest[j]) {
          assert rest[j] in rest;
          assert rest[j] in m && rest[j] != k;
        }
      }
      AscendingCons(k, rest);
      [k] + rest
  }

  /** Declarations in strictly ascending URI order. */
  predicate UrisAscending(ds: seq<(string, string)>) {
    forall i, j | 0 <= i < j < |ds| :: StrLt(ds[i].0, ds[j].0)
  }

  /** `ds` lists exactly the entries of `scope` under `keys` whose prefix
      differs from the parent's. */
  ghost predicate ListsChanges(ds: seq<(string, string)>, keys: seq<string>, scope: Scope, parent: Scope) {
    forall u, p :: (u, p) in ds <==> u in keys && u in scope && scope[u] == p && (u !in parent || parent[u] != p)
  }

  /** The namespace declarations a start tag writes (lines 219-228): every
      entry of the element's scope whose prefix differs from the parent's
      value for that URI, in URI order. */
  function Declarations(scope: Scope, parent: Scope): (ds: seq<(string, string)>)
    ensures forall i, j | 0 <= i < j < |ds| :: StrLt(ds[i].0, ds[j].0)
    ensures forall u, p :: (u, p) in ds <==> u in scope && scope[u] == p && (u !in parent || parent[u] != p)
  {
    var ds := Changed(SortedKeys(scope), scope, parent);
    assert ListsChanges(ds, SortedKeys(scope), scope, parent);
    ds
  }

  function Changed(keys: seq<string>, scope: Scope, parent: Scope): (ds: seq<(string, string)>)
    requires forall i | 0 <= i < |keys| :: keys[i] in scope
    requires Ascending(keys)
    ensures UrisAscending(ds)
    ensures forall i | 0 <= i < |ds| :: ds[i].0 in keys
    ensures ListsChanges(ds, keys, scope, parent)
    decreases |keys|
  {
    if |keys| == 0 then []
    else
      var rest := Changed(keys[1..], scope, parent);
      var u := keys[0];
      var ds := if u !in parent || parent[u] != scope[u] then [(u, scope[u])] + rest else rest;
      ChangedCons(keys, scope, parent, rest, ds);
      ds
  }

  lemma ChangedCons(keys: seq<string>, scope: Scope, parent: Scope, rest: seq<(string, string)>, ds: seq<(string, string)>)
    requires |keys| > 0 && keys[0] in scope && Ascending(keys)
    requires UrisAscending(rest) && ListsChanges(rest, keys[1..], scope, parent)
    requires forall i | 0 <= i < |rest| :: rest[i].0 in keys[1..]
    requires ds == if keys[0] !in parent || parent[keys[0]] != scope[keys[0]] then [(keys[0], scope[keys[0]])] + rest else rest
    ensures UrisAscending(ds)
    ensures forall i | 0 <= i < |ds| :: ds[i].0 in keys
    ensures ListsChanges(ds, keys, scope, parent)
  {
    ChangedConsOrder(keys, rest, ds);
    ChangedConsKeys(keys, rest, ds);
    ChangedConsLists(keys, scope, parent, rest, ds);
  }

  /** The first key is below every later key. */
  lemma HeadBelowTail(keys: seq<string>, v: string)
    requires |keys| > 0 && Ascending(keys) && v in keys[1..]
    ensures StrLt(keys[0], v) && v != keys[0]
  {
    var j :| 0 <= j < |keys[1..]| && keys[1..][j] == v;
    assert keys[j + 1] == v;
    StrLtIrreflexive(keys[0]);
  }

  lemma ChangedConsOrder(keys: seq<string>, rest: seq<(string, string)>, ds: seq<(string, string)>)
    requires |keys| > 0 && Ascending(keys) && UrisAscending(rest)
    requires forall i | 0 <= i < |rest| :: rest[i].0 in keys[1..]
    requires ds == rest || (|ds| > 0 && ds[0].0 == keys[0] && ds[1..] == rest)
    ensures UrisAscending(ds)
  {
    if ds != rest {
      forall i, j | 0 <= i < j < |ds| ensures StrLt(ds[i].0, ds[j].0) {
        assert ds[j] == rest[j - 1];
        if i > 0 {
          assert ds[i] == rest[i - 1];
        } else {
          HeadBelowTail(keys, rest[j - 1].0);
        }
      }
    }
  }

  lemma ChangedConsKeys(keys: seq<string>, rest: seq<(string, string)>, ds: seq<(string, string)>)
    requires |keys| > 0
    requires forall i | 0 <= i < |rest| :: rest[i].0 in keys[1..]
    requires ds == rest || (|ds| > 0 && ds[0].0 == keys[0] && ds[1..] == rest)
    ensures forall i | 0 <= i < |ds| :: ds[i].0 in keys
  {
    forall i | 0 <= i < |ds| ensures ds[i].0 in keys {
      if ds != rest && i > 0 {
        assert ds[i] == rest[i - 1];
      }
    }
  }

  lemma ChangedConsLists(keys: seq<string>, scope: Scope, parent: Scope, rest: seq<(string, string)>, ds: seq<(string, string)>)
    requires |keys| > 0 && keys[0] in scope && Ascending(keys)
    requires ListsChanges(rest, keys[1..], scope, parent)
    requires ds == if keys[0] !in parent || parent[keys[0]] != scope[keys[0]] then [(keys[0], scope[keys[0]])] + rest else rest
    ensures ListsChanges(ds, keys, scope, parent)
  {
    var u := keys[0];
    assert forall v :: v in keys <==> v == u || v in keys[1..] by {
      assert keys == [u] + keys[1..];
    }
    forall v | v in keys[1..] ensures v != u {
      HeadBelowTail(keys, v);
    }
  }

  /** A scope compared with itself declares nothing. */
  lemma NothingChangedNothingDeclared(scope: Scope)
    ensures Declarations(scope, scope) == []
  {
    ChangedAgainstItself(SortedKeys(scope), scope);
  }

  lemma {:induction false} ChangedAgainstItself(keys: seq<string>, scope: Scope)
    requires forall i | 0 <= i < |keys| :: keys[i] in scope
    requires Ascending(keys)
    ensures Changed(keys, scope, scope) == []
    decreases |keys|
  {
    if |keys| > 0 {
      ChangedAgainstItself(keys[1..], scope);
    }
  }
}
