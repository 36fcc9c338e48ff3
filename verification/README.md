# streamxmlwriter's `XMLWriter` in Dafny

A model of the serialization engine of `streamxmlwriter.py`, the stream XML
writer. The writer turns a sequence of calls into XML text: `start`, `end`,
`start_ns`, `end_ns`, `data`, `comment`, `pi`, `declaration` and `close`.
The model covers:

- the two escapers and their encoding step, where unrepresentable characters
  become `&#N;` (`xmlcharrefreplace`);
- the `sorter_factory` attribute orders;
- the namespace machinery: the `{uri}local` name parser, `_cname` with its
  synthetic `ns<N>` prefixes, the scope derived for each element, and the
  `xmlns` declarations written for new bindings;
- the writer state machine: open-element stack, open start tag, pending
  declarations, started / declaration / wrote-data flags, and pretty-print
  indentation;
- `XMLSyntaxError` as an `Err` result.

Every call is a pure function from a `Writer` value to a `Step`: the next
writer plus the text the call writes. Calls that can raise return
`Result<Step>`. A sequence of calls is run with `Writer.Run`.

Modules:

| module | file | contents |
|---|---|---|
| `Results` | `results.dfy` | `Option`, `Result`, and the error kinds. |
| `Lexical` | `lexical.dfy` | Python's code-point order on strings, `str(n)` for naturals, `INDENT * n`. |
| `Escape` | `escape.dfy` | `escape_attribute`, `escape_cdata`, the encoder, a one-pass reference escaper and an unescaper. |
| `Names` | `names.dfy` | Name parsing, `_cname`, scope derivation, the ordered list of new namespace bindings. |
| `Ordering` | `ordering.dfy` | `sorted(...)` at line 215 followed by the configured sort (lines 63-90 and 231-234). |
| `Writer` | `writer.dfy` | The writer: one function per public method, plus `_close_start` and `_comment_or_pi`. |
| `WriterProperties` | `writer_properties.dfy` | Properties relating several calls. |
| `CnameCache` | `cname_cache.dfy` | `_cname`'s cache exactly as written, and the defects it causes (see Findings). |
| `Scenarios` | `scenarios.dfy` | Test cases from `tests/test_streamxmlwriter.py` stated as lemmas. |
| `PrettyScenarios` | `pretty_scenarios.dfy` | The pretty-printing test cases from the same file. |

Where the documented design and the code differ, the model follows the code:

- The default ("alphabetical") order compares the attribute's `(uri, local)`
  pair, not its serialized name (line 234).
- With `sort=False`, attributes are still sorted by the whole
  `((cname, (uri, local)), value)` tuple (line 215).
- Pending `start_ns` declarations are never cleared. `_new_namespaces` keeps
  growing and is merged into every later element's scope (lines 197-205).
  When a later `start_ns` gives the same prefix to a second URI, both stay
  pending. A later element in the first URI is then written with that prefix,
  while its start tag declares the prefix for the second URI only, so an XML
  reader places it in the second URI. `start_ns("a", "U"); start("{U}r");
  start_ns("a", "V"); start("{U}c")` writes `<a:c xmlns:a="V"` for the child.
- A `None` wildcard in a custom order has no effect. Line 74 overwrites its
  position with `len(order)`, so every unlisted name sorts after every listed
  one.
- A URI bound to the empty prefix is stored as an ordinary entry (line 205).
  It does not unbind the URI.

## Model

| member | source | states |
|---|---|---|
| Lexical.StrLtIrreflexive | streamxmlwriter.py:215-219 | Python's string order, used by `sorted` for names and URIs, is irreflexive. |
| Lexical.StrLtTransitive | streamxmlwriter.py:215-219 | The string order is transitive. |
| Lexical.StrLtTrichotomy | streamxmlwriter.py:215-219 | Any two strings are equal or ordered one way. |
| Lexical.StrLeTotal | streamxmlwriter.py:215-219 | The non-strict order is total. |
| Lexical.StrLeAntisymmetric | streamxmlwriter.py:215-219 | The non-strict order is antisymmetric. |
| Lexical.Decimal | streamxmlwriter.py:166 | `str(n)` is a non-empty run of decimal digits. |
| Lexical.DecimalRoundTrip | streamxmlwriter.py:166 | Reading the digits of `str(n)` back gives `n`. |
| Lexical.Repeat | streamxmlwriter.py:189 | `INDENT * n` has `n` times the length of `INDENT` and only its characters. |
| Escape.ReplaceAll | streamxmlwriter.py:43-48 | `str.replace` leaves text without the character unchanged, and removes every occurrence when the replacement does not contain it. |
| Escape.ReplaceAllConcat | streamxmlwriter.py:43-48 | Replacing distributes over concatenation. |
| Escape.CharRef | streamxmlwriter.py:49 | A character reference has the form `&#...;` and is pure ASCII. |
| Escape.Encode | streamxmlwriter.py:49 | Every encoded character is representable in the target encoding. Text that is already representable passes unchanged. |
| Escape.EncodeConcat | streamxmlwriter.py:49 | Encoding works character by character. |
| Escape.EscapeAttribute | streamxmlwriter.py:41-49 | The escaped attribute value is representable in the encoding. |
| Escape.EscapeCdata | streamxmlwriter.py:52-60 | The escaped character data is representable in the encoding. |
| Escape.PlainTextUnchanged | streamxmlwriter.py:41-60 | Representable text without `&`, `<`, `>` or `"` comes out of both escapers unchanged. |
| Escape.Expand | streamxmlwriter.py:41-60 | The one-pass reference escaper never writes `<`. It writes no `>` in character data and no `"` in attribute values, and its output is representable. |
| Escape.LaterPassSkips | streamxmlwriter.py:43-48 | Because `&` is replaced first, no later pass or the encoder changes an entity already inserted. |
| Escape.CdataSingleChar | streamxmlwriter.py:52-60 | On one character, the three passes plus the encoder equal the reference piece. |
| Escape.AttributeSingleChar | streamxmlwriter.py:41-49 | The same for attribute values. |
| Escape.EscapeCdataIsSinglePass | streamxmlwriter.py:52-60 | `escape_cdata` equals the one-pass reference on every input. |
| Escape.EscapeAttributeIsSinglePass | streamxmlwriter.py:41-49 | `escape_attribute` equals the one-pass reference on every input. |
| Escape.UnescapeCharRef | streamxmlwriter.py:49 | A character reference from `xmlcharrefreplace` reads back as its character. |
| Escape.UnescapePiece | streamxmlwriter.py:41-60 | Each escaped piece reads back as the character it replaced. |
| Escape.UnescapeExpand | streamxmlwriter.py:41-60 | Unescaping the reference escaper's output gives back the input. |
| Escape.UnescapeEscapeCdata | streamxmlwriter.py:52-60 | Round trip: unescaping `escape_cdata(s)` gives `s`, for every encoding. |
| Escape.UnescapeEscapeAttribute | streamxmlwriter.py:41-49 | Round trip: unescaping `escape_attribute(s)` gives `s`, for every encoding. |
| Escape.EscapedCdataIsSafe | streamxmlwriter.py:52-60 | Escaped character data contains no `<` or `>`. It keeps `"` unescaped. |
| Escape.EscapedAttributeIsSafe | streamxmlwriter.py:41-49 | An escaped attribute value contains no `<` or `"`. It keeps `>` and `'` unescaped. |
| Names.ParseName | streamxmlwriter.py:162-164 | A name parses iff it is non-empty and, when it starts with `{`, has a `}` later. A plain name has the empty URI. |
| Names.ParseClarkName | streamxmlwriter.py:162-164 | `{uri}local` parses back to `(uri, local)` when the URI has no `}`. |
| Names.ParseNormalized | streamxmlwriter.py:162-164 | Prefixing `{}` to a plain name does not change what it parses to. |
| Names.CoherentExtends | streamxmlwriter.py:165-174 | A cache filled consistently with a scope stays consistent when the scope gains bindings. |
| Names.Resolve | streamxmlwriter.py:158-175 | `_cname` succeeds iff the name parses. It then returns `prefix:local`, or `local` for the empty prefix. The URI is bound in the new scope, to `ns<len+1>` if it was unbound. Existing bindings are kept, no other key is added, and the cache gains the normalized key. |
| Names.Record | streamxmlwriter.py:165-175 | The same, for a name already parsed. |
| Names.ResolvePlainName | streamxmlwriter.py:162-173 | A plain name has the empty URI. It serializes to itself exactly when the empty URI is bound to the empty prefix. |
| Names.QualifiedNameIsBare | streamxmlwriter.py:170-173 | The serialized name is the bare local name iff the prefix is empty. |
| Names.ResolveIdempotent | streamxmlwriter.py:158-175 | Resolving a name again in the scope and cache it produced gives the same name and scope. |
| Names.CacheHitAgrees | streamxmlwriter.py:160-161 | In a consistent cache, a hit returns the name that resolution would compute, and leaves the scope alone. |
| Names.ResolveAll | streamxmlwriter.py:158-216 | Attribute names resolve iff all parse. Each item then carries its name's URI and local part, its value, and its serialized name in the final scope. That scope extends the tag's scope by exactly the attributes' URIs. Each URI the tag's scope lacked gets a synthetic `ns<N>` prefix, numbered past the old scope's size and up to the new one's. |
| Names.ResolveAllBound | streamxmlwriter.py:165-169 | When every attribute URI is already bound, no prefix is invented and the scope is unchanged. |
| Names.DeriveScope | streamxmlwriter.py:191-205 | A URI is in the element's scope iff it is pending, or it is in the parent's scope with a prefix that no pending binding reuses. Pending bindings win, and the rest come from the parent. |
| Names.DeriveScopeNothingPending | streamxmlwriter.py:195-205 | With nothing pending, the element inherits the parent's scope. |
| Names.DeclaredPrefixesBelongToPending | streamxmlwriter.py:200-205 | A binding whose prefix is pending came from the pending map. |
| Names.RemergeIsIdempotent | streamxmlwriter.py:197-205 | Deriving a scope a second time with the same pending bindings changes nothing. |
| Names.Least | streamxmlwriter.py:219 | Every non-empty set of URIs has a least element, which is where `sorted` starts. |
| Names.SortedKeys | streamxmlwriter.py:219 | `sorted(namespaces)` lists every URI of the scope once, in strictly ascending order. |
| Names.DeclaredBindingSource | streamxmlwriter.py:164-220 | A binding declared on an element whose scope extends the derived scope by some URIs is either pending, or one of those URIs under a synthetic prefix. An inherited binding that no pending one overrides is never declared again. |
| Names.Declarations | streamxmlwriter.py:219-220 | The `xmlns` list is sorted by URI. `(uri, prefix)` is in it iff the scope binds `uri` to `prefix` and the parent does not. |
| Names.Changed | streamxmlwriter.py:219-220 | The filtering loop over sorted URIs keeps the order and keeps exactly the changed bindings. |
| Names.NothingChangedNothingDeclared | streamxmlwriter.py:219-220 | An element whose scope equals its parent's declares nothing. |
| Ordering.LastIndex | streamxmlwriter.py:72 | A name listed twice in a custom order takes its last position, as the dict comprehension keeps the later entry. |
| Ordering.LeTotal | streamxmlwriter.py:79-89 | Every comparison the sorts use is total. |
| Ordering.LeTransitive | streamxmlwriter.py:79-89 | Every comparison the sorts use is transitive. |
| Ordering.FullKeyInjective | streamxmlwriter.py:215 | Attributes with equal `((cname, (uri, local)), value)` tuples are equal. |
| Ordering.LeAntisymmetric | streamxmlwriter.py:215 | The whole-tuple order and its refinements are antisymmetric. |
| Ordering.Insert | streamxmlwriter.py:215 | Insertion adds exactly the element and keeps a sorted list sorted. |
| Ordering.Sort | streamxmlwriter.py:215 | `sorted` returns a permutation of its input, sorted by the given order. |
| Ordering.SortedPermutationUnique | streamxmlwriter.py:215 | Under an antisymmetric order, two sorted permutations of the same attributes are equal. |
| Ordering.StableSortRefines | streamxmlwriter.py:215-216 | A stable sort by the mode key of a list already sorted by the whole tuple equals one sort by mode key and then tuple. |
| Ordering.Arrange | streamxmlwriter.py:215-234 | The attributes written are a permutation of those given, ordered by the mode's key with ties broken by the whole tuple. |
| Ordering.ArrangeIsCanonical | streamxmlwriter.py:215-234 | Any permutation ordered that way is exactly the arranged list. |
| Ordering.ArrangeIgnoresInputOrder | streamxmlwriter.py:215-234 | The order in which the attributes were given does not change what is written. |
| Ordering.AlphabeticalOrder | streamxmlwriter.py:233-234 | By default, attributes appear by ascending `(uri, local)`. |
| Ordering.UnsortedOrder | streamxmlwriter.py:215 | With `sort=False`, attributes still appear by ascending serialized name. |
| Ordering.CustomOrder | streamxmlwriter.py:76-89 | Under a custom order for the tag, attributes appear by rank and then by local name. |
| Ordering.CustomMissingTagOrder | streamxmlwriter.py:82-83 | For a tag without a custom order, attributes appear by local name. |
| Ordering.ListedRankBeforeUnlisted | streamxmlwriter.py:71-74 | With distinct entries, a listed name ranks before any unlisted one, whether or not `None` is listed. |
| Ordering.UnlistedLast | streamxmlwriter.py:73-88 | When the custom order lists each name at most once, every unlisted attribute comes after every listed one. |
| Writer.NewLine | streamxmlwriter.py:189 | A newline followed by two spaces per nesting level. |
| Writer.Init | streamxmlwriter.py:115-156 | A new writer has no open element, nothing pending and no flags set. It writes the XML declaration iff the encoding is neither us-ascii nor utf-8. |
| Writer.CloseStart | streamxmlwriter.py:312-316 | `_close_start` writes `>` iff a start tag is open and nothing otherwise. Afterwards no start tag is open, nothing else changes, and the writer stays well-formed. |
| Writer.CommentOrPi | streamxmlwriter.py:328-338 | Before the root, the markup is followed by a newline when pretty-printing. After the root, it is preceded by one. Inside an element, it follows the open tag's `>` and the indentation when no data was written. |
| Writer.Declare | streamxmlwriter.py:323-325 | The declaration is written once, as `<?xml version='1.0' encoding='...'?>`. Later requests write nothing. |
| Writer.DeclarationIsPi | streamxmlwriter.py:324 | The declaration is the processing instruction `pi("xml", ...)`. |
| Writer.Declaration | streamxmlwriter.py:318-325 | `declaration` fails with the syntax error iff the root was started. Otherwise the writer stays well-formed, and the text is the declaration the first time and nothing if one was already written. Afterwards a further declaration writes nothing. |
| Writer.StartNs | streamxmlwriter.py:269-272 | `start_ns` binds the URI to the prefix for the next element and changes nothing else. |
| Writer.Data | streamxmlwriter.py:278-285 | When pretty-printing, blank data writes nothing. Other data writes `>` if a start tag is open and then the escaped text. That text contains no `<` or `>`, and decoding its entities and character references gives the data back. The writer stays well-formed. |
| Writer.Open | streamxmlwriter.py:191-216 | `start` succeeds iff the tag and every attribute name parse. The element's scope extends the derived scope by exactly the tag's and the attributes' URIs. The tag's URI gets `ns<len+1>` if it was unbound, and every other new URI gets a synthetic `ns<N>` prefix numbered past the derived scope's size. Each attribute's serialized name comes from the same scope. |
| Writer.Start | streamxmlwriter.py:177-242 | `start` pushes the element, leaves its start tag open and merges `nsmap` into the pending bindings. It writes the lead, `<tag`, the new `xmlns` bindings and the arranged attributes, and keeps the writer well-formed. |
| Writer.PushKeepsValid | streamxmlwriter.py:240-242 | Pushing an element with a consistent cache keeps the writer well-formed. |
| Writer.End | streamxmlwriter.py:244-267 | `end` fails iff nothing is open, or a given name does not serialize to the open tag. It then reports the mismatch. Otherwise it pops the element and writes ` />`, `></tag>` or an (indented) `</tag>`. |
| Writer.Close | streamxmlwriter.py:348-351 | `close` leaves no element open and keeps the writer well-formed. |
| Writer.Apply | streamxmlwriter.py:177-351 | Only `start`, `end` and `declaration` can fail, and every call keeps the writer well-formed. |
| Writer.Run | streamxmlwriter.py:177-351 | A run of calls keeps the writer well-formed. |
| WriterProperties.DeclarationOnce | streamxmlwriter.py:323-325 | A second `declaration` succeeds and writes nothing. |
| WriterProperties.DeclarationFirst | streamxmlwriter.py:318-325 | Before the root, the first `declaration` writes the declaration text. |
| WriterProperties.DeclarationAfterStart | streamxmlwriter.py:320-322 | After any `start`, `declaration` raises the syntax error. |
| WriterProperties.CommentReadsBack | streamxmlwriter.py:340-342 | A comment's body is the text with `&`, `<` and `>` escaped. Decoding its references gives the text back, and it contains no `<` or `>`. |
| WriterProperties.StartThenEnd | streamxmlwriter.py:240-267 | `end` right after `start` restores the stack and writes ` />`, or `></tag>` without abbreviation. |
| WriterProperties.NamedEndAcceptsOpenTag | streamxmlwriter.py:251-256 | `end(name)` with the name given to `start` is accepted. |
| WriterProperties.CloseWritesEndTags | streamxmlwriter.py:348-351 | `close` writes the innermost element's end and then every enclosing end tag, innermost first. |
| WriterProperties.CloseIsIdempotent | streamxmlwriter.py:348-351 | A second `close` writes nothing and changes nothing. |
| WriterProperties.StartDeclaresPending | streamxmlwriter.py:197-228 | A pending binding holds in the new element. It is written as `xmlns` iff the parent did not already bind the URI to that prefix. |
| WriterProperties.TagPrefixInScope | streamxmlwriter.py:209-228 | The tag's prefix is declared on the element or inherited unchanged from the parent. |
| WriterProperties.StartDeclaresOnlyNeeded | streamxmlwriter.py:164-228 | Every `xmlns` declaration `start` writes is a pending binding, or binds the tag's or an attribute's URI, missing from the derived scope, under a synthetic `ns<N>` prefix. |
| WriterProperties.AttributePrefixInScope | streamxmlwriter.py:213-228 | Every attribute's prefix is declared on the element or inherited unchanged from the parent. |
| WriterProperties.StartNsBindsNextElement | streamxmlwriter.py:269-272 | After `start_ns(prefix, uri)`, the next element binds `uri` to `prefix`. |
| WriterProperties.AttributeNamedLikeTag | streamxmlwriter.py:209-216 | An attribute named like its element in `{uri}local` form (`{}local` for a plain tag) serializes to the element's tag. This is the corrected behaviour (Finding 2). |
| WriterProperties.AttributeNamedLikeEarlierAttribute | streamxmlwriter.py:158-216 | Two attributes whose names are a name and its normalized form (`x` and `{}x`) resolve to the same serialized name and URI pair, and `start` succeeds in either order. This is the corrected behaviour (Finding 3). |
| WriterProperties.StaleBindingAsWritten | streamxmlwriter.py:195-228 | When `u` is bound to `p` in the parent and still pending, and `v` is pending with `p` too, an element in `u` is written `p:local`. Its start tag declares `p` for `v` and not for `u`. |
| WriterProperties.StaleBindingExample | streamxmlwriter.py:195-228 | `start_ns("a", "U"); start("{U}r"); start_ns("a", "V"); start("{U}c")` writes the child as `a:c` and declares `a` only for `V`. |
| WriterProperties.OpenBound | streamxmlwriter.py:213-216 | When every attribute URI is bound, each attribute is resolved independently in the tag's scope. |
| WriterProperties.AttributeOrderIrrelevant | streamxmlwriter.py:213-238 | When every attribute URI is bound, a permutation of the attributes gives the same start tag. |
| WriterProperties.RunAppend | streamxmlwriter.py:177-351 | Output is never revised: two batches of calls write the first batch's output followed by the second's, and an error ends the run. |
| CnameCache.CnameAsWritten | streamxmlwriter.py:158-175 | `_cname` as written: a cache hit returns the bare name and changes nothing. A miss returns the name with its `(uri, local)` pair, and extends the scope and the cache as resolution does. |
| CnameCache.LookupAgreesWithResolve | streamxmlwriter.py:158-175 | In a consistent cache, both result shapes carry the name that resolution computes. |
| CnameCache.EndAsWritten | streamxmlwriter.py:251-256 | `end` as written fails whenever a given name misses the open element's cache. |
| CnameCache.CacheKeysAreNormalized | streamxmlwriter.py:162-174 | Every cache key starts with `{`. |
| CnameCache.PlainNameMissesAsWritten | streamxmlwriter.py:160-163 | A plain name never hits a consistent cache, so `end` as written rejects it. |
| CnameCache.PlainNamedEndRejectedAsWritten | streamxmlwriter.py:253-256 | As written, `end(name)` after `start(name)` fails for every plain name (Finding 1). |
| CnameCache.NamedEndExample | tests/test_streamxmlwriter.py:115-121 | As written, `start("a"); end("a")` fails. |
| CnameCache.AttributeNamedLikeTagHitsAsWritten | streamxmlwriter.py:209-215 | An attribute named like its element, in the `{uri}local` form of the cache key (`{}local` for a plain tag), hits the cache the tag filled. |
| CnameCache.AttributeNamedLikeTagBreaksAsWritten | streamxmlwriter.py:215-235 | Whatever prefix the element's URI gets (inherited, empty or synthetic), that hit cannot be unpacked at line 234 or 235 unless the serialized name has two characters (Finding 2). |
| CnameCache.AttributeNamedLikeTagExample | streamxmlwriter.py:215-235 | `start("{u}x", {"{u}x": "1"})` with `u` bound to `a` gives `a:x`, which cannot be unpacked. |
| CnameCache.AttributeNamedLikePlainTagExample | streamxmlwriter.py:160-175 | `start("x", {"{}x": "1"})` at the root gives the bare string `x`, which cannot be unpacked. |
| CnameCache.LookupsAsWritten | streamxmlwriter.py:213-216 | The list built at line 215, as written: one `_cname` result per attribute, in iteration order, each lookup seeing the cache the tag and the earlier attributes filled. |
| CnameCache.LookupHitsIffStoredBefore | streamxmlwriter.py:158-216 | As written, an attribute's lookup hits the cache (and yields a bare string) iff its name is a key stored earlier in the same `start`: the tag's normalized name, or the normalized name of an earlier attribute (Finding 2 and Finding 3). |
| CnameCache.AttributeNamedLikeEarlierAttributeExample | streamxmlwriter.py:158-235 | `start("t", {"x": "1", "{}x": "2"})` with `x` first gives `{}x` the bare string `x`, which cannot be unpacked. |
| Scenarios.PlainStart | streamxmlwriter.py:177-242 | A plain-named element without attributes in the root scope writes `<name>` after the lead and declares nothing. |
| Scenarios.CloseLoneElement | streamxmlwriter.py:348-351 | Closing a lone open element writes ` />` or `></name>`. |
| Scenarios.PlainRootElement | streamxmlwriter.py:177-267 | A plain empty root element is written `<name />`, or `<name></name>` without abbreviation. |
| Scenarios.DataThenEnd | streamxmlwriter.py:278-285 | Data that needs no escaping, in an element whose start tag is open, writes `>` and the text. The following `end` writes `</tag>`. |
| Scenarios.TextInRoot | streamxmlwriter.py:177-285 | A plain root element holding such text is written `<name>text</name>`. |
| Scenarios.CloseInnerAndOuter | streamxmlwriter.py:244-267 | Without pretty-printing, `close` with an open inner start tag writes ` />` and then the outer end tag. |
| Scenarios.NestedClose | streamxmlwriter.py:177-267 | Two nested plain elements closed by `close` are written `<outer><inner /></outer>`. |
| Scenarios.TextData | tests/test_streamxmlwriter.py:41-46 | `start("foo"); data("bar"); end()` writes `<foo>bar</foo>`. |
| Scenarios.CloseNested | tests/test_streamxmlwriter.py:90-95 | `start("a"); start("b"); close()` writes `<a><b /></a>`. |
| Scenarios.SingleElement | tests/test_streamxmlwriter.py:35-39 | `start("foo"); end()` writes `<foo />`. |
| Scenarios.NoAbbreviation | tests/test_streamxmlwriter.py:109-113 | With `abbrev_empty=False`, `<a></a>`. |
| Scenarios.EscapeCharacterData | tests/test_streamxmlwriter.py:66-71 | `<>&` as data is written `&lt;&gt;&amp;`. |
| Scenarios.EscapeAttributeValue | tests/test_streamxmlwriter.py:60-64 | `<>&"` as an attribute value is written `&lt;>&amp;&quot;`. |
| Scenarios.SnowmanUnderAscii | tests/test_streamxmlwriter.py:73-88 | Under us-ascii, U+2603 is written `&#9731;`. |
| Scenarios.LatinKeepsLatinLetters | tests/test_streamxmlwriter.py:73-88 | Under iso-8859-1, U+00E5 is kept and U+2603 becomes `&#9731;`. |
| PrettyScenarios.PrettyInit | streamxmlwriter.py:115-156 | A pretty-printing utf-8 writer starts empty and writes nothing. |
| PrettyScenarios.MarkupBeforeRoot | streamxmlwriter.py:328-338 | When pretty-printing, markup before the root stands on its own line above `<a />`. |
| PrettyScenarios.PiBeforeRoot | tests/test_streamxmlwriter.py:176-181 | `<?foo bar?>` then `<a />` on the next line. |
| PrettyScenarios.CommentBeforeRoot | tests/test_streamxmlwriter.py:153-158 | `<!--comment-->` then `<a />` on the next line. |
| PrettyScenarios.EmptyRoot | streamxmlwriter.py:177-267 | `start("a"); end()` writes `<a />` and leaves the started writer with no element open. |
| PrettyScenarios.MarkupAfterRoot | streamxmlwriter.py:328-351 | When pretty-printing, markup after the root goes on a new line, and `close` adds nothing. |
| PrettyScenarios.CommentAfterRoot | tests/test_streamxmlwriter.py:160-166 | `<a />` then `<!--comment-->` on the next line. |
| PrettyScenarios.PiAfterRoot | tests/test_streamxmlwriter.py:183-190 | `<a />` then `<?foo bar?>` on the next line. |

## Left out

- `element`, `tostring` and `iterwrite` are not modelled. They walk ElementTree objects and only call the modelled methods.
- The output file is not modelled. Each call's text is returned instead of being passed to `file.write`.
- Only the us-ascii, iso-8859-1 and utf-8 codecs are modelled. Output is a sequence of code points rather than encoded bytes.
- Python 2's distinction between `str` and `unicode` is not modelled.
- `str.strip()` is modelled with ASCII whitespace only. Unicode whitespace in blank-data detection is left out.
- `start` takes attributes as one sequence of `(name, value)` pairs in iteration order. Merging `attributes` into `**kwargs` is left out, and that order decides which synthetic prefix a new URI receives.
- Writer state and output after a raised error are not modelled. Python mutates the writer and writes text before some raises, and the model returns only `Err`:
  - `start` sets `_started`, writes a pending `>`, the indentation and `"<" + tag` (lines 184-210) before a bad attribute name raises at line 215;
  - `end` pops the element before comparing names (lines 251-256).
- `Writer.Run` returns only the error once a call fails. The text that earlier successful calls already wrote to the file is dropped from the result.
- `sorter_factory` rewriting the caller's dictionary in place is not modelled. The model derives ranks from the list and does not alter its input.
- Names.Resolve: does not claim that synthetic prefixes never collide with prefixes the user declared. The code does not ensure it either.
- Names.Declarations: does not claim that a prefix denotes one URI only. Distinct URIs may share a prefix, as they can in the code.
- Writer.Comment: has no contract of its own. `--` inside a comment is not escaped, as in the code; `WriterProperties.CommentReadsBack` and the scenarios state its output.
- WriterProperties.CommentReadsBack: decodes the comment body with `Escape.Unescape`. An XML parser decodes no references inside a comment (section 2.5 of XML 1.0), so a reader sees `comment("a<b")` as `a&lt;b`.
- Escape.UnescapeEscapeCdata: inverts the entity and character-reference encoding only, and so does the `ReadsBack` clause of `Writer.Data`. An XML parser also normalizes line ends (section 2.11 of XML 1.0). `escape_cdata` leaves a carriage return alone, so a reader sees `data("a\rb")` as `a` and `b` separated by a line feed. The model also does not state which characters XML allows (section 2.2 of XML 1.0): control characters that the encoding can represent pass through unescaped, and a parser rejects them.
- Escape.UnescapeEscapeAttribute: inverts the entity and character-reference encoding only. It does not model attribute-value normalization (section 3.3.3 of XML 1.0), which turns the tab, newline and carriage return that `escape_attribute` leaves alone into spaces.
- Writer.EndNs: has no contract of its own. `end_ns` does nothing (lines 274-276), and the model returns the writer unchanged.
- Writer.Then: has no contract of its own. It is the helper that joins the output of consecutive calls in `Writer.Run`.
- A correction of the stale prefix binding described above is not modelled. The model keeps the code's behaviour, which `WriterProperties.StaleBindingAsWritten` states.
- Writer.Pi: has no contract of its own. Target and data are written unescaped, as in the code; the scenarios state its output.
- Tag names and attribute names are written as given. Neither the code nor the model checks that they are XML names.
- The nested pretty-printing test (lines 124-143 of the tests) and the namespace tests are not stated as concrete scenarios. `Writer.Start`, `Writer.End` and the namespace lemmas cover them in general.

## Findings

| source | as written | input that shows it | evidently intended | confidence | as-written member | corrected member |
|---|---|---|---|---|---|---|
| streamxmlwriter.py:160-175, 253-254 | `_cname` looks a name up under its raw spelling but stores it under the `{}`-normalized key. A miss returns the pair `(cname, (uri, local))`, which `end` compares with the open tag string. | `start("a")` then `end("a")` raises "Start and end tag mismatch"; the test at tests/test_streamxmlwriter.py:115-121 expects it to pass. | `end(name)` accepts the name the element was started with. | not executed | CnameCache.PlainNamedEndRejectedAsWritten | WriterProperties.NamedEndAcceptsOpenTag |
| streamxmlwriter.py:160-161, 215, 235 | A cache hit returns the bare serialized name. An attribute whose name equals the element's tag in `{uri}local` form therefore hits the entry the tag just stored, and line 235 tries to unpack that string as `(cname, name)`. | `start("{u}x", {"{u}x": "1"})` with `u` bound to prefix `a` unpacks the string `a:x` and fails. `start("x", {"{}x": "1"})` gets the string `x` and fails at line 234 under the default sort (`"x"[1]`), or at line 235 without sorting. | The attribute is written with the element's serialized name, like any other attribute in that namespace. | not executed | CnameCache.AttributeNamedLikeTagBreaksAsWritten | WriterProperties.AttributeNamedLikeTag |
| streamxmlwriter.py:160-163, 174, 215, 234-235 | The same hit happens for any key stored earlier in the same `start`, including one an earlier attribute stored. An attribute named `x` misses and stores the key `{}x`, so a later attribute named `{}x` hits it and gets the bare string `x`. | `start("t", {"x": "1", "{}x": "2"})` with `x` iterated first fails at line 234 under the default sort, at line 235 with `sort=False`, and at line 81 with a custom order. | Both attributes are written with their serialized name, as they are when `{}x` comes first. | not executed | CnameCache.AttributeNamedLikeEarlierAttributeExample | WriterProperties.AttributeNamedLikeEarlierAttribute |
