/** The two escapers of streamxmlwriter.py (`escape_attribute`,
    `escape_cdata`) and the encoding step they end with.

    The source encodes with Python's `"xmlcharrefreplace"` error handler:
    every code point the target encoding cannot hold becomes a decimal
    character reference `&#NNN;`.  Output stays a code-point string; which
    code points an encoding holds is the `Representable` predicate. */
module Escape {
  import opened Lexical

  datatype Encoding = UsAscii | Latin1 | Utf8 {

    /** The codec name, as configured and as written into the XML declaration. */
    function Name(): string {
      match this
      case UsAscii => "us-ascii"
      case Latin1 => "iso-8859-1"
      case Utf8 => "utf-8"
    }
  }

  predicate Representable(enc: Encoding, c: char) {
    match enc
    case UsAscii => c as int < 0x80
    case Latin1 => c as int < 0x100
    case Utf8 => true
  }

  predicate IsScalar(n: int) {
    0 <= n < 0xD800 || 0xE000 <= n < 0x11_0000
  }

  predicate StartsWith(s: string, p: string) {
    |p| <= |s| && s[..|p|] == p
  }

  /** Python's `s.replace(c, rep)` for a one-character pattern. */
  function ReplaceAll(s: string, c: char, rep: string): (r: string)
    ensures c !in s ==> r == s
    ensures c !in rep ==> c !in r
    decreases |s|
  {
    if |s| == 0 then ""
    else
      var rest := ReplaceAll(s[1..], c, rep);
      assert c !in s ==> s == [s[0]] + s[1..] && c !in s[1..];
      (if s[0] == c then rep else [s[0]]) + rest
  }

  lemma {:induction false} ReplaceAllConcat(a: string, b: string, c: char, rep: string)
    ensures ReplaceAll(a + b, c, rep) == ReplaceAll(a, c, rep) + ReplaceAll(b, c, rep)
    decreases |a|
  {
    if |a| > 0 {
      assert (a + b)[0] == a[0] && (a + b)[1..] == a[1..] + b;
      ReplaceAllConcat(a[1..], b, c, rep);
    } else {
      assert a + b == b;
    }
  }

  lemma ReplaceAllSingle(x: char, c: char, rep: string)
    ensures ReplaceAll([x], c, rep) == if x == c then rep else [x]
  {
    assert [x][1..] == [];
  }

  /** A decimal character reference, the `xmlcharrefreplace` replacement for `c`. */
  function CharRef(c: char): (r: string)
    ensures |r| >= 4 && r[0] == '&' && r[1] == '#' && r[|r| - 1] == ';'
    ensures forall i | 0 <= i < |r| :: r[i] as int < 0x80
  {
    "&#" + Decimal(c as int) + ";"
  }

  /** `s.encode(enc, "xmlcharrefreplace")`, kept as code points. */
  function Encode(s: string, enc: Encoding): (r: string)
    ensures forall i | 0 <= i < |r| :: Representable(enc, r[i])
    ensures (forall i | 0 <= i < |s| :: Representable(enc, s[i])) ==> r == s
    decreases |s|
  {
    if |s| == 0 then ""
    else
      var rest := Encode(s[1..], enc);
      assert s == [s[0]] + s[1..];
      (if Representable(enc, s[0]) then [s[0]] else CharRef(s[0])) + rest
  }

  lemma {:induction false} EncodeConcat(a: string, b: string, enc: Encoding)
    ensures Encode(a + b, enc) == Encode(a, enc) + Encode(b, enc)
    decreases |a|
  {
    if |a| > 0 {
      assert (a + b)[0] == a[0] && (a + b)[1..] == a[1..] + b;
      EncodeConcat(a[1..], b, enc);
    } else {
      assert a + b == b;
    }
  }

  lemma EncodeSingle(x: char, enc: Encoding)
    ensures Encode([x], enc) == if Representable(enc, x) then [x] else CharRef(x)
  {
    assert [x][1..] == [];
  }

  /** The replacement passes of `escape_attribute`: `&`, then `<`, then `"`. */
  function AttributeEntities(value: string): string {
    ReplaceAll(ReplaceAll(ReplaceAll(value, '&', "&amp;"), '<', "&lt;"), '"', "&quot;")
  }

  /** The replacement passes of `escape_cdata`: `&`, then `<`, then `>`. */
  function CdataEntities(data: string): string {
    ReplaceAll(ReplaceAll(ReplaceAll(data, '&', "&amp;"), '<', "&lt;"), '>', "&gt;")
  }

  /** `escape_attribute`: entity replacement, then encoding. */
  function EscapeAttribute(value: string, enc: Encoding): (r: string)
    ensures forall i | 0 <= i < |r| :: Representable(enc, r[i])
  {
    Encode(AttributeEntities(value), enc)
  }

  /** `escape_cdata`: entity replacement, then encoding. */
  function EscapeCdata(data: string, enc: Encoding): (r: string)
    ensures forall i | 0 <= i < |r| :: Representable(enc, r[i])
  {
    Encode(CdataEntities(data), enc)
  }

  /** Text with no markup character that the encoding can hold is written
      unchanged by both escapers. */
  lemma PlainTextUnchanged(s: string, enc: Encoding)
    requires forall i | 0 <= i < |s| :: s[i] != '&' && s[i] != '<' && s[i] != '>' && s[i] != '"'
    requires forall i | 0 <= i < |s| :: Representable(enc, s[i])
    ensures EscapeCdata(s, enc) == s && EscapeAttribute(s, enc) == s
  {
    assert '&' !in s && '<' !in s && '>' !in s && '"' !in s;
  }

  /** Where escaped text goes: a double-quoted attribute value or character data. */
  datatype Context = AttributeValue | CharacterData

  /** The reference escaping: what ONE input character becomes, in one pass. */
  function Piece(ctx: Context, c: char, enc: Encoding): string {
    if c == '&' then "&amp;"
    else if c == '<' then "&lt;"
    else if ctx == CharacterData && c == '>' then "&gt;"
    else if ctx == AttributeValue && c == '"' then "&quot;"
    else if Representable(enc, c) then [c]
    else CharRef(c)
  }

  /** Reference single-pass escaper; the escaped text never contains `<`,
      never the delimiter special to its context, and is encodable. */
  function Expand(ctx: Context, s: string, enc: Encoding): (r: string)
    ensures forall i | 0 <= i < |r| :: r[i] != '<' && Representable(enc, r[i])
    ensures ctx == CharacterData ==> forall i | 0 <= i < |r| :: r[i] != '>'
    ensures ctx == AttributeValue ==> forall i | 0 <= i < |r| :: r[i] != '"'
    decreases |s|
  {
    if |s| == 0 then ""
    else
      var p := Piece(ctx, s[0], enc);
      assert forall i | 0 <= i < |p| ::
        && p[i] != '<' && Representable(enc, p[i])
        && (ctx == CharacterData ==> p[i] != '>') && (ctx == AttributeValue ==> p[i] != '"');
      p + Expand(ctx, s[1..], enc)
  }

  lemma EntityIsEncodable(e: string, enc: Encoding)
    requires forall i | 0 <= i < |e| :: e[i] as int < 0x80
    ensures Encode(e, enc) == e
  {
  }

  lemma CdataEntitiesConcat(a: string, b: string)
    ensures CdataEntities(a + b) == CdataEntities(a) + CdataEntities(b)
  {
    ReplaceAllConcat(a, b, '&', "&amp;");
    var a1, b1 := ReplaceAll(a, '&', "&amp;"), ReplaceAll(b, '&', "&amp;");
    ReplaceAllConcat(a1, b1, '<', "&lt;");
    ReplaceAllConcat(ReplaceAll(a1, '<', "&lt;"), ReplaceAll(b1, '<', "&lt;"), '>', "&gt;");
  }

  lemma AttributeEntitiesConcat(a: string, b: string)
    ensures AttributeEntities(a + b) == AttributeEntities(a) + AttributeEntities(b)
  {
    ReplaceAllConcat(a, b, '&', "&amp;");
    var a1, b1 := ReplaceAll(a, '&', "&amp;"), ReplaceAll(b, '&', "&amp;");
    ReplaceAllConcat(a1, b1, '<', "&lt;");
    ReplaceAllConcat(ReplaceAll(a1, '<', "&lt;"), ReplaceAll(b1, '<', "&lt;"), '"', "&quot;");
  }

  /** A literal entity is unchanged by a pass for a character it does not contain. */
  lemma PassSkipsEntity(e: string, c: char, rep: string)
    requires c !in e
    ensures ReplaceAll(e, c, rep) == e
  {
  }

  /** The first two passes turn `&` into `&amp;` and leave it there. */
  lemma FirstPassesAmpersand(x: char)
    requires x == '&'
    ensures ReplaceAll(ReplaceAll([x], '&', "&amp;"), '<', "&lt;") == "&amp;"
  {
    ReplaceAllSingle(x, '&', "&amp;");
    PassSkipsEntity("&amp;", '<', "&lt;");
  }

  /** The first two passes turn `<` into `&lt;`. */
  lemma FirstPassesLessThan(x: char)
    requires x == '<'
    ensures ReplaceAll(ReplaceAll([x], '&', "&amp;"), '<', "&lt;") == "&lt;"
  {
    ReplaceAllSingle(x, '&', "&amp;");
    ReplaceAllSingle(x, '<', "&lt;");
  }

  /** The third pass and the encoder leave an inserted entity alone. */
  lemma LaterPassSkips(e: string, third: char, rep: string, enc: Encoding)
    requires e == "&amp;" || e == "&lt;"
    requires third in ">\"" && third !in e
    ensures Encode(ReplaceAll(e, third, rep), enc) == e
  {
    PassSkipsEntity(e, third, rep);
    EntityIsEncodable(e, enc);
  }

  /** A character none of the passes replaces reaches the encoder unchanged. */
  lemma UntouchedPasses(x: char, third: char, rep: string, enc: Encoding)
    requires x != '&' && x != '<' && x != third
    ensures Encode(ReplaceAll(ReplaceAll(ReplaceAll([x], '&', "&amp;"), '<', "&lt;"), third, rep), enc)
      == if Representable(enc, x) then [x] else CharRef(x)
  {
    ReplaceAllSingle(x, '&', "&amp;");
    ReplaceAllSingle(x, '<', "&lt;");
    ReplaceAllSingle(x, third, rep);
    EncodeSingle(x, enc);
  }

  /** The character only the third pass replaces. */
  lemma ThirdPasses(x: char, rep: string, enc: Encoding)
    requires x != '&' && x != '<'
    requires forall i | 0 <= i < |rep| :: rep[i] as int < 0x80
    ensures Encode(ReplaceAll(ReplaceAll(ReplaceAll([x], '&', "&amp;"), '<', "&lt;"), x, rep), enc) == rep
  {
    ReplaceAllSingle(x, '&', "&amp;");
    ReplaceAllSingle(x, '<', "&lt;");
    ReplaceAllSingle(x, x, rep);
    EntityIsEncodable(rep, enc);
  }

  /** One character through the three passes and the encoder. */
  lemma CdataSingleChar(x: char, enc: Encoding)
    ensures Encode(CdataEntities([x]), enc) == Piece(CharacterData, x, enc)
  {
    if x == '&' {
      FirstPassesAmpersand(x);
      LaterPassSkips("&amp;", '>', "&gt;", enc);
    } else if x == '<' {
      FirstPassesLessThan(x);
      LaterPassSkips("&lt;", '>', "&gt;", enc);
    } else if x == '>' {
      ThirdPasses(x, "&gt;", enc);
    } else {
      UntouchedPasses(x, '>', "&gt;", enc);
    }
  }

  lemma AttributeSingleChar(x: char, enc: Encoding)
    ensures Encode(AttributeEntities([x]), enc) == Piece(AttributeValue, x, enc)
  {
    if x == '&' {
      FirstPassesAmpersand(x);
      LaterPassSkips("&amp;", '"', "&quot;", enc);
    } else if x == '<' {
      FirstPassesLessThan(x);
      LaterPassSkips("&lt;", '"', "&quot;", enc);
    } else if x == '"' {
      ThirdPasses(x, "&quot;", enc);
    } else {
      UntouchedPasses(x, '"', "&quot;", enc);
    }
  }

  /** Replacing `&` first means no later pass touches an inserted entity:
      the three passes of `escape_cdata` equal the one-pass reference. */
  lemma {:induction false} EscapeCdataIsSinglePass(s: string, enc: Encoding)
    ensures EscapeCdata(s, enc) == Expand(CharacterData, s, enc)
    decreases |s|
  {
    if |s| > 0 {
      assert s == [s[0]] + s[1..];
      EscapeCdataIsSinglePass(s[1..], enc);
      CdataEntitiesConcat([s[0]], s[1..]);
      EncodeConcat(CdataEntities([s[0]]), CdataEntities(s[1..]), enc);
      CdataSingleChar(s[0], enc);
    }
  }

  /** The same for `escape_attribute`, whose third pass replaces `"`. */
  lemma {:induction false} EscapeAttributeIsSinglePass(s: string, enc: Encoding)
    ensures EscapeAttribute(s, enc) == Expand(AttributeValue, s, enc)
    decreases |s|
  {
    if |s| > 0 {
      assert s == [s[0]] + s[1..];
      EscapeAttributeIsSinglePass(s[1..], enc);
      AttributeEntitiesConcat([s[0]], s[1..]);
      EncodeConcat(AttributeEntities([s[0]]), AttributeEntities(s[1..]), enc);
      AttributeSingleChar(s[0], enc);
    }
  }

  /** The inverse of the escapers' encoding: the predefined entities and
      decimal character references are read back; any other character
      stands for itself.  It does not model the rest of what an XML parser
      does: line-end normalization, decoding nothing inside comments, and
      whitespace normalization in attribute values. */
  function Unescape(s: string): string
    decreases |s|
  {
    if |s| == 0 then ""
    else if s[0] != '&' || |s| < 2 then [s[0]] + Unescape(s[1..])
    else if StartsWith(s, "&amp;") then "&" + Unescape(s[5..])
    else if StartsWith(s, "&lt;") then "<" + Unescape(s[4..])
    else if StartsWith(s, "&gt;") then ">" + Unescape(s[4..])
    else if StartsWith(s, "&quot;") then "\"" + Unescape(s[6..])
    else if s[1] == '#' then
      var k := DigitRun(s[2..]);
      if 0 < k && 2 + k < |s| && s[2 + k] == ';' && IsScalar(DigitsValue(s[2..2 + k])) then
        [DigitsValue(s[2..2 + k]) as char] + Unescape(s[3 + k..])
      else [s[0]] + Unescape(s[1..])
    else [s[0]] + Unescape(s[1..])
  }

  lemma UnescapeEntity(e: string, c: char, rest: string)
    requires e in ["&amp;", "&lt;", "&gt;", "&quot;"]
    requires c == (if e == "&amp;" then '&' else if e == "&lt;" then '<' else if e == "&gt;" then '>' else '"')
    ensures Unescape(e + rest) == [c] + Unescape(rest)
  {
    var s := e + rest;
    assert s[..|e|] == e && s[|e|..] == rest;
    assert s[0] == '&' && s[1] == e[1];
  }

  /** No predefined entity has `#` as its second character. */
  lemma NoEntityAtHash(s: string)
    requires |s| > 1 && s[1] == '#'
    ensures !StartsWith(s, "&amp;") && !StartsWith(s, "&lt;") && !StartsWith(s, "&gt;") && !StartsWith(s, "&quot;")
  {
  }

  /** A text starting with `&#`, a run of digits and `;` is read back as
      the character the digits number. */
  lemma UnescapeAtCharRef(s: string, k: nat)
    requires |s| > 2 + k && s[0] == '&' && s[1] == '#' && s[2 + k] == ';'
    requires 0 < k == DigitRun(s[2..]) && IsScalar(DigitsValue(s[2..2 + k]))
    ensures Unescape(s) == [DigitsValue(s[2..2 + k]) as char] + Unescape(s[3 + k..])
  {
    NoEntityAtHash(s);
  }

  lemma UnescapeCharRef(c: char, rest: string)
    ensures Unescape(CharRef(c) + rest) == [c] + Unescape(rest)
  {
    var d := Decimal(c as int);
    var s := CharRef(c) + rest;
    assert s == "&#" + (d + (";" + rest));
    assert s[2..] == d + (";" + rest);
    DigitRunStopsAtNonDigit(d, ";" + rest);
    var k := |d|;
    assert s[2..2 + k] == d;
    assert s[3 + k..] == rest;
    DecimalRoundTrip(c as int);
    UnescapeAtCharRef(s, k);
  }

  lemma UnescapePiece(ctx: Context, c: char, enc: Encoding, rest: string)
    ensures Unescape(Piece(ctx, c, enc) + rest) == [c] + Unescape(rest)
  {
    var p := Piece(ctx, c, enc);
    if c == '&' {
      UnescapeEntity("&amp;", c, rest);
    } else if c == '<' {
      UnescapeEntity("&lt;", c, rest);
    } else if ctx == CharacterData && c == '>' {
      UnescapeEntity("&gt;", c, rest);
    } else if ctx == AttributeValue && c == '"' {
      UnescapeEntity("&quot;", c, rest);
    } else if Representable(enc, c) {
      assert (p + rest)[0] == c && (p + rest)[1..] == rest;
    } else {
      UnescapeCharRef(c, rest);
    }
  }

  lemma {:induction false} UnescapeExpand(ctx: Context, s: string, enc: Encoding)
    ensures Unescape(Expand(ctx, s, enc)) == s
    decreases |s|
  {
    if |s| > 0 {
      UnescapeExpand(ctx, s[1..], enc);
      UnescapePiece(ctx, s[0], enc, Expand(ctx, s[1..], enc));
      assert s == [s[0]] + s[1..];
    }
  }

  /** Decoding the entities and references of escaped character data gives
      back the text, whatever the encoding. */
  lemma UnescapeEscapeCdata(s: string, enc: Encoding)
    ensures Unescape(EscapeCdata(s, enc)) == s
  {
    EscapeCdataIsSinglePass(s, enc);
    UnescapeExpand(CharacterData, s, enc);
  }

  /** Decoding the entities and references of an escaped attribute value
      gives back the value.  Attribute-value normalization, which turns tab,
      newline and carriage return into spaces, is not part of this. */
  lemma UnescapeEscapeAttribute(s: string, enc: Encoding)
    ensures Unescape(EscapeAttribute(s, enc)) == s
  {
    EscapeAttributeIsSinglePass(s, enc);
    UnescapeExpand(AttributeValue, s, enc);
  }

  /** Escaped character data holds no `<` and no `>`; quotes pass through. */
  lemma EscapedCdataIsSafe(s: string, enc: Encoding)
    ensures forall i | 0 <= i < |EscapeCdata(s, enc)| :: EscapeCdata(s, enc)[i] != '<' && EscapeCdata(s, enc)[i] != '>'
    ensures '"' in s ==> '"' in EscapeCdata(s, enc)
  {
    EscapeCdataIsSinglePass(s, enc);
    if '"' in s {
      var i :| 0 <= i < |s| && s[i] == '"';
      ExpandKeepsChar(CharacterData, s, enc, i);
    }
  }

  /** An escaped attribute value holds no `<` and no `"`; `>` and `'` pass through. */
  lemma EscapedAttributeIsSafe(s: string, enc: Encoding)
    ensures forall i | 0 <= i < |EscapeAttribute(s, enc)| :: EscapeAttribute(s, enc)[i] != '<' && EscapeAttribute(s, enc)[i] != '"'
    ensures '>' in s ==> '>' in EscapeAttribute(s, enc)
    ensures '\'' in s ==> '\'' in EscapeAttribute(s, enc)
  {
    EscapeAttributeIsSinglePass(s, enc);
    AttributeKeeps(s, enc, '>');
    AttributeKeeps(s, enc, '\'');
  }

  lemma AttributeKeeps(s: string, enc: Encoding, c: char)
    requires c == '>' || c == '\''
    ensures c in s ==> c in Expand(AttributeValue, s, enc)
  {
    if c in s {
      var i :| 0 <= i < |s| && s[i] == c;
      ExpandKeepsChar(AttributeValue, s, enc, i);
    }
  }

  lemma {:induction false} ExpandKeepsChar(ctx: Context, s: string, enc: Encoding, i: nat)
    requires i < |s| && Piece(ctx, s[i], enc) == [s[i]]
    ensures s[i] in Expand(ctx, s, enc)
    decreases i
  {
    var r := Expand(ctx, s, enc);
    if i == 0 {
      assert r[0] == s[0];
    } else {
      ExpandKeepsChar(ctx, s[1..], enc, i - 1);
    }
  }
}
