/** Attribute ordering of `XMLWriter.start` and `sorter_factory`.

    The source first sorts the resolved attributes as Python tuples
    `((cname, (uri, local)), value)` (line 215) and then, unless `sort` is
    false, sorts that list again with Python's stable sort by a key the
    sort mode chooses (lines 231-234, 76-89).  `Arrange` models exactly
    these two sorts; `ArrangeIsCanonical` shows the result is the unique
    permutation ordered by the mode's key with ties broken by the tuple. */
module Ordering {
  import opened Results
  import opened Lexical
  import opened Names

  /** `sort=False`, `sort=True`, or a dictionary from serialized tag name to
      a list of attribute local names (`None` entries allowed). */
  datatype SortMode = Unsorted | Alphabetical | Custom(order: map<string, seq<Option<string>>>)

  function LastIndex<T(==)>(xs: seq<T>, x: T): (k: nat)
    requires x in xs
    ensures k < |xs| && xs[k] == x
    ensures forall j | k < j < |xs| :: xs[j] != x
    decreases |xs|
  {
    if xs[|xs| - 1] == x then |xs| - 1
    else
      assert x in xs[..|xs| - 1] by {
        var i :| 0 <= i < |xs| && xs[i] == x;
        assert xs[..|xs| - 1][i] == x;
      }
      LastIndex(xs[..|xs| - 1], x)
  }

  /** `sorter_factory`: a listed name ranks at its position in the list
      (a later duplicate overwrites an earlier one); every other name ranks
      at `len(order)`, the number of distinct entries, `None` included. */
  function Rank(names: seq<Option<string>>, local: string): nat {
    if Some(local) in names then LastIndex(names, Some(local))
    else |set x | x in names|
  }

  /** A sort key as Python compares it: an integer, then a tuple of strings. */
  datatype Key = Key(rank: int, fields: seq<string>)

  /** Python's `<` on tuples of strings. */
  predicate FieldsLt(a: seq<string>, b: seq<string>)
    decreases |a|
  {
    if |a| == 0 then |b| > 0
    else if |b| == 0 then false
    else if a[0] != b[0] then StrLt(a[0], b[0])
    else FieldsLt(a[1..], b[1..])
  }

  predicate KeyLt(a: Key, b: Key) {
    a.rank < b.rank || (a.rank == b.rank && FieldsLt(a.fields, b.fields))
  }

  predicate KeyLe(a: Key, b: Key) {
    a == b || KeyLt(a, b)
  }

  lemma {:induction false} FieldsLtIrreflexive(a: seq<string>)
    ensures !FieldsLt(a, a)
    decreases |a|
  {
    if |a| > 0 {
      FieldsLtIrreflexive(a[1..]);
    }
  }

  lemma {:induction false} FieldsLtTransitive(a: seq<string>, b: seq<string>, c: seq<string>)
    requires FieldsLt(a, b) && FieldsLt(b, c)
    ensures FieldsLt(a, c)
    decreases |a|
  {
    if |a| > 0 && |b| > 0 && |c| > 0 {
      if a[0] == b[0] && b[0] == c[0] {
        FieldsLtTransitive(a[1..], b[1..], c[1..]);
      } else if a[0] != b[0] && b[0] != c[0] {
        StrLtTransitive(a[0], b[0], c[0]);
        if a[0] == c[0] {
          StrLtIrreflexive(a[0]);
        }
      }
    }
  }

  lemma {:induction false} FieldsLtTrichotomy(a: seq<string>, b: seq<string>)
    ensures FieldsLt(a, b) || a == b || FieldsLt(b, a)
    decreases |a|
  {
    if |a| > 0 && |b| > 0 {
      if a[0] == b[0] {
        FieldsLtTrichotomy(a[1..], b[1..]);
        if a[1..] == b[1..] {
          assert a == [a[0]] + a[1..] && b == [b[0]] + b[1..];
        }
      } else {
        StrLtTrichotomy(a[0], b[0]);
      }
    }
  }

  lemma KeyLeTotal(a: Key, b: Key)
    ensures KeyLe(a, b) || KeyLe(b, a)
  {
    FieldsLtTrichotomy(a.fields, b.fields);
  }

  lemma KeyLtTransitive(a: Key, b: Key, c: Key)
    requires KeyLt(a, b) && KeyLt(b, c)
    ensures KeyLt(a, c)
  {
    if a.rank == b.rank == c.rank {
      FieldsLtTransitive(a.fields, b.fields, c.fields);
    }
  }

  lemma KeyLtAsymmetric(a: Key, b: Key)
    requires KeyLt(a, b)
    ensures !KeyLt(b, a) && a != b
  {
    FieldsLtIrreflexive(a.fields);
    if KeyLt(b, a) {
      KeyLtTransitive(a, b, a);
    }
  }

  /** The tuple line 215 sorts by: `((cname, (uri, local)), value)`. */
  function FullKey(a: Attribute): Key {
    Key(0, [a.cname, a.qname.uri, a.qname.local, a.value])
  }

  /** The key the sort mode adds (lines 231-234 and 79-88). */
  function ModeKey(mode: SortMode, tag: string, a: Attribute): Key {
    match mode
    case Unsorted => Key(0, [])
    case Alphabetical => Key(0, [a.qname.uri, a.qname.local])
    case Custom(order) =>
      if tag in order then Key(Rank(order[tag], a.qname.local), [a.qname.local])
      else Key(0, [a.qname.local])
  }

  datatype Comparison =
    | Full
    | ByMode(mode: SortMode, tag: string)
    | ModeThenFull(mode: SortMode, tag: string)

  predicate Le(how: Comparison, a: Attribute, b: Attribute) {
    match how
    case Full => KeyLe(FullKey(a), FullKey(b))
    case ByMode(m, t) => KeyLe(ModeKey(m, t, a), ModeKey(m, t, b))
    case ModeThenFull(m, t) =>
      || KeyLt(ModeKey(m, t, a), ModeKey(m, t, b))
      || (ModeKey(m, t, a) == ModeKey(m, t, b) && KeyLe(FullKey(a), FullKey(b)))
  }

  lemma LeTotal(how: Comparison, a: Attribute, b: Attribute)
    ensures Le(how, a, b) || Le(how, b, a)
  {
    KeyLeTotal(FullKey(a), FullKey(b));
    if !how.Full? {
      KeyLeTotal(ModeKey(how.mode, how.tag, a), ModeKey(how.mode, how.tag, b));
    }
  }

  lemma LeTransitive(how: Comparison, a: Attribute, b: Attribute, c: Attribute)
    requires Le(how, a, b) && Le(how, b, c)
    ensures Le(how, a, c)
  {
    var fa, fb, fc := FullKey(a), FullKey(b), FullKey(c);
    if fa != fb && fb != fc && KeyLt(fa, fb) && KeyLt(fb, fc) {
      KeyLtTransitive(fa, fb, fc);
    }
    if !how.Full? {
      var ma, mb, mc := ModeKey(how.mode, how.tag, a), ModeKey(how.mode, how.tag, b), ModeKey(how.mode, how.tag, c);
      if ma != mb && mb != mc && KeyLt(ma, mb) && KeyLt(mb, mc) {
        KeyLtTransitive(ma, mb, mc);
      }
    }
  }

  lemma FullKeyInjective(a: Attribute, b: Attribute)
    requires FullKey(a) == FullKey(b)
    ensures a == b
  {
    assert FullKey(a).fields[0] == FullKey(b).fields[0];
    assert FullKey(a).fields[1] == FullKey(b).fields[1];
    assert FullKey(a).fields[2] == FullKey(b).fields[2];
    assert FullKey(a).fields[3] == FullKey(b).fields[3];
  }

  /** The tuple order, and the mode order refined by it, are antisymmetric:
      they never tie two different attributes. */
  lemma LeAntisymmetric(how: Comparison, a: Attribute, b: Attribute)
    requires !how.ByMode?
    requires Le(how, a, b) && Le(how, b, a)
    ensures a == b
  {
    var fa, fb := FullKey(a), FullKey(b);
    if how.ModeThenFull? {
      var ma, mb := ModeKey(how.mode, how.tag, a), ModeKey(how.mode, how.tag, b);
      FieldsLtIrreflexive(ma.fields);
      if ma != mb {
        if KeyLt(ma, mb) {
          KeyLtAsymmetric(ma, mb);
        } else {
          KeyLtAsymmetric(mb, ma);
        }
      }
    }
    assert KeyLe(fa, fb) && KeyLe(fb, fa);
    if fa != fb {
      KeyLtAsymmetric(fa, fb);
    }
    FullKeyInjective(a, b);
  }

  predicate SortedBy(how: Comparison, xs: seq<Attribute>) {
    forall i, j | 0 <= i < j < |xs| :: Le(how, xs[i], xs[j])
  }

  /** Puts `x` before the first element it is not greater than: an element
      inserted earlier than equal-keyed ones stays before them (stability). */
  function Insert(x: Attribute, ys: seq<Attribute>, how: Comparison): (r: seq<Attribute>)
    ensures multiset(r) == multiset(ys) + multiset{x}
    ensures SortedBy(how, ys) ==> SortedBy(how, r)
    decreases |ys|
  {
    if |ys| == 0 then [x]
    else if Le(how, x, ys[0]) then
      InsertFrontSorted(x, ys, how);
      [x] + ys
    else
      var tail := Insert(x, ys[1..], how);
      assert ys == [ys[0]] + ys[1..];
      InsertBehindSorted(x, ys, how, tail);
      [ys[0]] + tail
  }

  lemma InsertFrontSorted(x: Attribute, ys: seq<Attribute>, how: Comparison)
    requires |ys| > 0 && Le(how, x, ys[0])
    ensures SortedBy(how, ys) ==> SortedBy(how, [x] + ys)
  {
    if SortedBy(how, ys) {
      var r := [x] + ys;
      forall i, j | 0 <= i < j < |r| ensures Le(how, r[i], r[j]) {
        if i == 0 && j > 1 {
          LeTransitive(how, x, ys[0], ys[j - 1]);
        }
      }
    }
  }

  lemma InsertBehindSorted(x: Attribute, ys: seq<Attribute>, how: Comparison, tail: seq<Attribute>)
    requires |ys| > 0 && !Le(how, x, ys[0])
    requires multiset(tail) == multiset(ys[1..]) + multiset{x}
    requires SortedBy(how, ys[1..]) ==> SortedBy(how, tail)
    ensures SortedBy(how, ys) ==> SortedBy(how, [ys[0]] + tail)
  {
    if SortedBy(how, ys) {
      LeTotal(how, x, ys[0]);
      var r := [ys[0]] + tail;
      assert SortedBy(how, ys[1..]);
      forall j | 0 < j < |r| ensures Le(how, ys[0], r[j]) {
        assert r[j] in multiset(tail);
        if r[j] != x {
          assert r[j] in multiset(ys[1..]);
          var k :| 0 <= k < |ys[1..]| && ys[1..][k] == r[j];
          assert ys[k + 1] == r[j];
        }
      }
    }
  }

  /** Insertion sort: a permutation of its input, ordered by `how`. */
  function Sort(xs: seq<Attribute>, how: Comparison): (r: seq<Attribute>)
    ensures multiset(r) == multiset(xs)
    ensures SortedBy(how, r)
    decreases |xs|
  {
    if |xs| == 0 then []
    else
      assert xs == [xs[0]] + xs[1..];
      Insert(xs[0], Sort(xs[1..], how), how)
  }

  /** Under an order that never ties two different attributes, there is
      only one sorted permutation of a collection. */
  lemma {:induction false} SortedPermutationUnique(how: Comparison, p: seq<Attribute>, q: seq<Attribute>)
    requires !how.ByMode?
    requires multiset(p) == multiset(q) && SortedBy(how, p) && SortedBy(how, q)
    ensures p == q
    decreases |p|
  {
    assert |p| == |multiset(p)| == |q|;
    if |p| > 0 {
      HeadIsLeast(how, p, q[0]);
      HeadIsLeast(how, q, p[0]);
      LeAntisymmetric(how, p[0], q[0]);
      TailsAgree(p, q);
      SortedPermutationUnique(how, p[1..], q[1..]);
    }
  }

  lemma HeadIsLeast(how: Comparison, p: seq<Attribute>, x: Attribute)
    requires SortedBy(how, p) && x in multiset(p)
    ensures Le(how, p[0], x)
  {
    var i :| 0 <= i < |p| && p[i] == x;
  }

  lemma TailsAgree(p: seq<Attribute>, q: seq<Attribute>)
    requires |p| > 0 && |q| > 0 && p[0] == q[0] && multiset(p) == multiset(q)
    ensures multiset(p[1..]) == multiset(q[1..])
  {
    assert p == [p[0]] + p[1..] && q == [q[0]] + q[1..];
    assert multiset(p[1..]) == multiset(p) - multiset{p[0]};
    assert multiset(q[1..]) == multiset(q) - multiset{q[0]};
  }

  /** What `start` does to the resolved attributes (lines 215, 231-234). */
  function Arrange(mode: SortMode, tag: string, items: seq<Attribute>): (r: seq<Attribute>)
    ensures multiset(r) == multiset(items) && |r| == |items|
    ensures SortedBy(ModeThenFull(mode, tag), r)
  {
    var base := Sort(items, Full);
    assert |base| == |multiset(base)| == |multiset(items)| == |items|;
    if mode.Unsorted? then
      assert forall a, b :: Le(ModeThenFull(mode, tag), a, b) == Le(Full, a, b);
      base
    else
      StableSortRefines(base, mode, tag);
      Sort(base, ByMode(mode, tag))
  }

  /** A stable sort of a list already in tuple order orders by the mode's
      key with ties left in tuple order. */
  lemma {:induction false} StableSortRefines(xs: seq<Attribute>, mode: SortMode, tag: string)
    requires SortedBy(Full, xs)
    ensures Sort(xs, ByMode(mode, tag)) == Sort(xs, ModeThenFull(mode, tag))
    decreases |xs|
  {
    if |xs| > 0 {
      StableSortRefines(xs[1..], mode, tag);
      var ys := Sort(xs[1..], ModeThenFull(mode, tag));
      forall y | y in ys ensures Le(Full, xs[0], y) {
        assert y in multiset(xs[1..]);
        var k :| 0 <= k < |xs[1..]| && xs[1..][k] == y;
        assert xs[k + 1] == y;
      }
      InsertAgrees(xs[0], ys, mode, tag);
    }
  }

  lemma {:induction false} InsertAgrees(x: Attribute, ys: seq<Attribute>, mode: SortMode, tag: string)
    requires forall y | y in ys :: Le(Full, x, y)
    ensures Insert(x, ys, ByMode(mode, tag)) == Insert(x, ys, ModeThenFull(mode, tag))
    decreases |ys|
  {
    if |ys| > 0 {
      assert ys[0] in ys;
      assert forall y | y in ys[1..] :: y in ys;
      InsertAgrees(x, ys[1..], mode, tag);
    }
  }

  /** The arranged attributes are the one permutation ordered by the
      mode's key, ties broken by `(cname, uri, local, value)`. */
  lemma ArrangeIsCanonical(mode: SortMode, tag: string, items: seq<Attribute>, other: seq<Attribute>)
    requires multiset(other) == multiset(items)
    requires SortedBy(ModeThenFull(mode, tag), other)
    ensures Arrange(mode, tag, items) == other
  {
    SortedPermutationUnique(ModeThenFull(mode, tag), Arrange(mode, tag, items), other);
  }

  /** The order attributes are written in does not depend on the order
      they were given in. */
  lemma ArrangeIgnoresInputOrder(mode: SortMode, tag: string, items: seq<Attribute>, shuffled: seq<Attribute>)
    requires multiset(shuffled) == multiset(items)
    ensures Arrange(mode, tag, shuffled) == Arrange(mode, tag, items)
  {
    ArrangeIsCanonical(mode, tag, items, Arrange(mode, tag, shuffled));
  }

  /** `sort=True`: ordered by (namespace URI, local name). */
  lemma AlphabeticalOrder(tag: string, items: seq<Attribute>, i: nat, j: nat)
    requires i < j < |items|
    ensures var r := Arrange(Alphabetical, tag, items);
      || StrLt(r[i].qname.uri, r[j].qname.uri)
      || (r[i].qname.uri == r[j].qname.uri && StrLe(r[i].qname.local, r[j].qname.local))
  {
    var r := Arrange(Alphabetical, tag, items);
    var a, b := ModeKey(Alphabetical, tag, r[i]).fields, ModeKey(Alphabetical, tag, r[j]).fields;
    assert Le(ModeThenFull(Alphabetical, tag), r[i], r[j]);
    if a != b && FieldsLt(a, b) && a[0] == b[0] {
      assert FieldsLt(a[1..], b[1..]);
    }
  }

  /** `sort=False`: only the tuple sort of line 215, so ordered by serialized name. */
  lemma UnsortedOrder(tag: string, items: seq<Attribute>, i: nat, j: nat)
    requires i < j < |items|
    ensures var r := Arrange(Unsorted, tag, items);
      StrLe(r[i].cname, r[j].cname)
  {
    var r := Arrange(Unsorted, tag, items);
    assert Le(ModeThenFull(Unsorted, tag), r[i], r[j]);
    var a, b := FullKey(r[i]).fields, FullKey(r[j]).fields;
    if a != b && FieldsLt(a, b) && a[0] != b[0] {
      assert StrLt(a[0], b[0]);
    }
  }

  /** A custom order for the tag: ranks never decrease, and equal ranks
      are ordered by local name. */
  lemma CustomOrder(order: map<string, seq<Option<string>>>, tag: string, items: seq<Attribute>, i: nat, j: nat)
    requires tag in order
    requires i < j < |items|
    ensures var r := Arrange(Custom(order), tag, items);
      var ri, rj := Rank(order[tag], r[i].qname.local), Rank(order[tag], r[j].qname.local);
      ri < rj || (ri == rj && StrLe(r[i].qname.local, r[j].qname.local))
  {
    var r := Arrange(Custom(order), tag, items);
    assert Le(ModeThenFull(Custom(order), tag), r[i], r[j]);
    var a, b := ModeKey(Custom(order), tag, r[i]).fields, ModeKey(Custom(order), tag, r[j]).fields;
    if a != b && FieldsLt(a, b) && a[0] != b[0] {
      assert StrLt(a[0], b[0]);
    }
  }

  /** A tag missing from the custom dictionary: ordered by local name only. */
  lemma CustomMissingTagOrder(order: map<string, seq<Option<string>>>, tag: string, items: seq<Attribute>, i: nat, j: nat)
    requires tag !in order
    requires i < j < |items|
    ensures var r := Arrange(Custom(order), tag, items);
      StrLe(r[i].qname.local, r[j].qname.local)
  {
    var r := Arrange(Custom(order), tag, items);
    assert Le(ModeThenFull(Custom(order), tag), r[i], r[j]);
    var a, b := ModeKey(Custom(order), tag, r[i]).fields, ModeKey(Custom(order), tag, r[j]).fields;
    if a != b && FieldsLt(a, b) && a[0] != b[0] {
      assert StrLt(a[0], b[0]);
    }
  }

  predicate Distinct<T(==)>(xs: seq<T>) {
    forall i, j | 0 <= i < j < |xs| :: xs[i] != xs[j]
  }

  lemma {:induction false} DistinctCardinality<T>(xs: seq<T>)
    requires Distinct(xs)
    ensures |set x | x in xs| == |xs|
    decreases |xs|
  {
    if |xs| > 0 {
      var init := xs[..|xs| - 1];
      DistinctCardinality(init);
      assert (set x | x in xs) == (set x | x in init) + {xs[|xs| - 1]};
      assert xs[|xs| - 1] !in (set x | x in init);
    }
  }

  /** With a list free of duplicates, every listed name ranks before every
      unlisted one, so unlisted names always come last (the `None` entry
      is overwritten by line 74 and does not mark a position). */
  lemma ListedRankBeforeUnlisted(names: seq<Option<string>>, listed: string, unlisted: string)
    requires Distinct(names)
    requires Some(listed) in names && Some(unlisted) !in names
    ensures Rank(names, listed) < Rank(names, unlisted)
  {
    DistinctCardinality(names);
  }

  lemma UnlistedLast(order: map<string, seq<Option<string>>>, tag: string, items: seq<Attribute>, i: nat, j: nat)
    requires tag in order && Distinct(order[tag])
    requires i < j < |items|
    ensures var r := Arrange(Custom(order), tag, items);
      Some(r[i].qname.local) !in order[tag] ==> Some(r[j].qname.local) !in order[tag]
  {
    var r := Arrange(Custom(order), tag, items);
    CustomOrder(order, tag, items, i, j);
    if Some(r[i].qname.local) !in order[tag] && Some(r[j].qname.local) in order[tag] {
      ListedRankBeforeUnlisted(order[tag], r[j].qname.local, r[i].qname.local);
    }
  }
}
