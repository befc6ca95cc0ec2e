/** The JSON value parser of trace.cpp, as a function on the remaining text, and the layouts
    it inverts. */
module Json {
  import opened Bits

  datatype Json =
    | Null
    | Bool(b: bool)
    | Uint(u: u64)           // an integer literal that fits 64 bits
    | Num(token: Text)     // any other number, kept as its token
    | Str(s: Text)
    | Arr(items: seq<Json>)
    | Obj(members: seq<Member>)
  datatype Member = Member(key: Text, value: Json)

  datatype Parse<T> = Got(value: T, rest: Text) | Bad

  /** Which number tokens std::stod converts; it rejects at least the empty one. */
  type Stod = Text -> bool

  // ---- lexical classes (the C locale) ----

  predicate IsSpace(c: Char) { c == ' ' || '\t' <= c <= '\r' }
  predicate IsDigit(c: Char) { '0' <= c <= '9' }

  function SkipWs(s: Text): (r: Text)
    ensures |r| <= |s|
    decreases |s|
  {
    if s != [] && IsSpace(s[0]) then SkipWs(s[1..]) else s
  }

  function DigitCount(s: Text): (n: nat)
    ensures n <= |s|
    decreases |s|
  {
    if s != [] && IsDigit(s[0]) then 1 + DigitCount(s[1..]) else 0
  }

  // ---- numbers ----

  function Fraction(s: Text, p: nat): (q: nat)
    requires p <= |s|
    ensures p <= q <= |s|
  {
    if p < |s| && s[p] == '.' then p + 1 + DigitCount(s[p + 1..]) else p
  }

  function Exponent(s: Text, p: nat): (q: nat)
    requires p <= |s|
    ensures p <= q <= |s|
  {
    if p < |s| && (s[p] == 'e' || s[p] == 'E') then
      var q := if p + 1 < |s| && (s[p + 1] == '+' || s[p + 1] == '-') then p + 2 else p + 1;
      q + DigitCount(s[q..])
    else p
  }

  function IntegerEnd(s: Text): (q: nat)
    ensures q <= |s|
  {
    var p := if s != [] && s[0] == '-' then 1 else 0;
    p + DigitCount(s[p..])
  }

  function DecValue(digits: Text): nat
    decreases |digits|
  {
    if digits == [] then 0
    else
      var c := digits[|digits| - 1];
      10 * DecValue(digits[..|digits| - 1]) + (if IsDigit(c) then c as int - '0' as int else 0)
  }

  /** An unsigned integer token becomes a 64-bit number if it fits (std::stoull), any other
      number token is left to std::stod. */
  function NumberOf(token: Text, isInt: bool, stod: Stod): Parse<Json>
  {
    if isInt && token != [] && token[0] != '-' && DecValue(token) < WORD then Got(Uint(DecValue(token)), [])
    else if token != [] && stod(token) then Got(Num(token), [])
    else Bad
  }

  function ParseNumber(s: Text, stod: Stod): (r: Parse<Json>)
    ensures r.Got? ==> |r.rest| < |s|
  {
    var i := IntegerEnd(s);
    var f := Fraction(s, i);
    var q := Exponent(s, f);
    match NumberOf(s[..q], q == i, stod)
    case Got(v, _) => Got(v, s[q..])
    case Bad => Bad
  }

  // ---- strings ----

  datatype MaybeChar = Just(c: Char) | Nothing

  function Unescape(c: Char): MaybeChar
  {
    if c == 'n' then Just('\n') else if c == 't' then Just('\t') else if c == 'r' then Just('\r')
    else if c == 'b' then Just(8 as Char) else if c == 'f' then Just(12 as Char)
    else if c == '\"' || c == '\\' || c == '/' then Just(c)
    else Nothing
  }

  function Prefix(c: Char, r: Parse<Text>): Parse<Text>
  {
    match r
    case Got(t, rest) => Got([c] + t, rest)
    case Bad => Bad
  }

  /** The characters of a string up to and including its closing quote. */
  function ParseChars(s: Text): (r: Parse<Text>)
    ensures r.Got? ==> |r.rest| < |s|
    decreases |s|
  {
    if s == [] then Bad
    else if s[0] == '\"' then Got([], s[1..])
    else if s[0] == '\\' then
      if |s| < 2 || Unescape(s[1]).Nothing? then Bad
      else Prefix(Unescape(s[1]).c, ParseChars(s[2..]))
    else if s[0] < ' ' then Bad
    else Prefix(s[0], ParseChars(s[1..]))
  }

  // ---- values ----

  function ParseLit(s: Text, lit: Text, v: Json): (r: Parse<Json>)
    requires lit != []
    ensures r.Got? ==> |r.rest| < |s|
  {
    if lit <= s then Got(v, s[|lit|..]) else Bad
  }

  function ParseValue(s: Text, stod: Stod): (r: Parse<Json>)
    ensures r.Got? ==> |r.rest| < |s|
    decreases |s|, 2
  {
    var t := SkipWs(s);
    if t == [] then Bad
    else if t[0] == '{' then ParseObject(t, stod)
    else if t[0] == '[' then ParseArray(t, stod)
    else if t[0] == '\"' then
      match ParseChars(t[1..])
      case Got(str, rest) => Got(Str(str), rest)
      case Bad => Bad
    else if t[0] == 't' then ParseLit(t, "true", Bool(true))
    else if t[0] == 'f' then ParseLit(t, "false", Bool(false))
    else if t[0] == 'n' then ParseLit(t, "null", Null)
    else ParseNumber(t, stod)
  }

  function ParseArray(s: Text, stod: Stod): (r: Parse<Json>)
    requires s != []
    ensures r.Got? ==> |r.rest| < |s|
    decreases |s|, 1
  {
    var t := SkipWs(s[1..]);
    if t != [] && t[0] == ']' then Got(Arr([]), t[1..])
    else match ParseItems(t, stod)
      case Got(items, rest) => Got(Arr(items), rest)
      case Bad => Bad
  }

  /** value { , value } ] */
  function ParseItems(s: Text, stod: Stod): (r: Parse<seq<Json>>)
    ensures r.Got? ==> |r.rest| < |s|
    decreases |s|, 3
  {
    match ParseValue(s, stod)
    case Bad => Bad
    case Got(v, r) =>
      var t := SkipWs(r);
      if t == [] then Bad
      else if t[0] == ',' then
        match ParseItems(t[1..], stod)
        case Got(vs, rest) => Got([v] + vs, rest)
        case Bad => Bad
      else if t[0] == ']' then Got([v], t[1..])
      else Bad
  }

  function ParseObject(s: Text, stod: Stod): (r: Parse<Json>)
    requires s != []
    ensures r.Got? ==> |r.rest| < |s|
    decreases |s|, 1
  {
    var t := SkipWs(s[1..]);
    if t != [] && t[0] == '}' then Got(Obj([]), t[1..])
    else match ParseMembers(t, stod)
      case Got(ms, rest) => Got(Obj(ms), rest)
      case Bad => Bad
  }

  /** "key" : value { , "key" : value } } */
  function ParseMembers(s: Text, stod: Stod): (r: Parse<seq<Member>>)
    ensures r.Got? ==> |r.rest| < |s|
    decreases |s|, 3
  {
    var t := SkipWs(s);
    if t == [] || t[0] != '\"' then Bad
    else match ParseChars(t[1..])
      case Bad => Bad
      case Got(key, r) =>
        var u := SkipWs(r);
        if u == [] || u[0] != ':' then Bad
        else match ParseValue(u[1..], stod)
          case Bad => Bad
          case Got(v, r2) =>
            var w := SkipWs(r2);
            if w == [] then Bad
            else if w[0] == ',' then
              match ParseMembers(w[1..], stod)
              case Got(ms, rest) => Got([Member(key, v)] + ms, rest)
              case Bad => Bad
            else if w[0] == '}' then Got([Member(key, v)], w[1..])
            else Bad
  }

  /** A whole document: one value with nothing but white space after it. */
  function ParseDocument(s: Text, stod: Stod): Parse<Json>
  {
    match ParseValue(SkipWs(s), stod)
    case Bad => Bad
    case Got(v, rest) => if SkipWs(rest) == [] then Got(v, []) else Bad
  }

  // ---- printing ----

  function Dec(n: nat): (s: Text)
    ensures s != []
  {
    if n < 10 then [('0' as int + n) as Char] else Dec(n / 10) + [('0' as int + n % 10) as Char]
  }

  function HexDigit(n: nat): Char
    requires n < 16
  {
    if n < 10 then ('0' as int + n) as Char else ('a' as int + n - 10) as Char
  }

  function EscapeChar(c: Char): Text
  {
    if c == '\"' then "\\\""
    else if c == '\\' then "\\\\"
    else if c == '\n' then "\\n"
    else if c == '\r' then "\\r"
    else if c == '\t' then "\\t"
    else if c < ' ' then "\\u00" + [HexDigit(c as int / 16), HexDigit(c as int % 16)]
    else [c]
  }

  function Escape(s: Text): Text
    decreases |s|
  {
    if s == [] then [] else EscapeChar(s[0]) + Escape(s[1..])
  }

  /** The characters that json_escape prints in a form parse_string reads back. */
  predicate CharOk(c: Char) { c >= ' ' || c == '\n' || c == '\r' || c == '\t' }
  predicate NameOk(s: Text) { forall i :: 0 <= i < |s| ==> CharOk(s[i]) }

  /** A value with the white space its printer puts around its parts. */
  datatype Layout =
    | LUint(u: u64)
    | LBool(b: bool)
    | LStr(s: Text)
    | LArr(items: seq<Layout>, open: Text, sep: Text, close: Text)
    | LObj(fields: seq<Field>, open: Text, sep: Text, close: Text)
  datatype Field = Field(key: Text, value: Layout)

  function Render(p: Layout): Text
  {
    match p
    case LUint(u) => Dec(u)
    case LBool(b) => if b then "true" else "false"
    case LStr(s) => "\"" + Escape(s) + "\""
    case LArr(items, open, sep, close) => "[" + open + ItemsText(items, sep) + close + "]"
    case LObj(fields, open, sep, close) => "{" + open + FieldsText(fields, sep) + close + "}"
  }

  function ItemsText(items: seq<Layout>, sep: Text): Text
  {
    if items == [] then []
    else if |items| == 1 then Render(items[0])
    else Render(items[0]) + "," + sep + ItemsText(items[1..], sep)
  }

  function FieldText(f: Field): Text { "\"" + f.key + "\": " + Render(f.value) }

  function FieldsText(fields: seq<Field>, sep: Text): Text
  {
    if fields == [] then []
    else if |fields| == 1 then FieldText(fields[0])
    else FieldText(fields[0]) + "," + sep + FieldsText(fields[1..], sep)
  }

  function Value(p: Layout): Json
  {
    match p
    case LUint(u) => Uint(u)
    case LBool(b) => Bool(b)
    case LStr(s) => Str(s)
    case LArr(items, _, _, _) => Arr(Values(items))
    case LObj(fields, _, _, _) => Obj(Members(fields))
  }

  function Values(items: seq<Layout>): seq<Json>
  {
    if items == [] then [] else [Value(items[0])] + Values(items[1..])
  }

  function Members(fields: seq<Field>): seq<Member>
  {
    if fields == [] then [] else [Member(fields[0].key, Value(fields[0].value))] + Members(fields[1..])
  }

  predicate Blank(s: Text) { forall i :: 0 <= i < |s| ==> IsSpace(s[i]) }
  predicate PlainKey(s: Text) { forall i :: 0 <= i < |s| ==> s[i] >= ' ' && s[i] != '\"' && s[i] != '\\' }

  /** White space is white space, keys need no escapes, and strings survive the escaping. */
  predicate Readable(p: Layout)
  {
    match p
    case LUint(_) => true
    case LBool(_) => true
    case LStr(s) => NameOk(s)
    case LArr(items, open, sep, close) =>
      Blank(open) && Blank(sep) && Blank(close) && forall i :: 0 <= i < |items| ==> Readable(items[i])
    case LObj(fields, open, sep, close) =>
      Blank(open) && Blank(sep) && Blank(close)
      && forall i :: 0 <= i < |fields| ==> PlainKey(fields[i].key) && Readable(fields[i].value)
  }

  // What may follow a printed value: nothing that would extend a number token.
  predicate Stop(s: Text)
  {
    s == [] || !(IsDigit(s[0]) || s[0] == '.' || s[0] == 'e' || s[0] == 'E')
  }

  // ---- the parser reads every readable layout back ----

  lemma {:induction false} SkipBlank(w: Text, s: Text)
    requires Blank(w)
    ensures SkipWs(w + s) == SkipWs(s)
    decreases |w|
  {
    if w == [] { assert w + s == s; }
    else { assert (w + s)[1..] == w[1..] + s; SkipBlank(w[1..], s); }
  }

  lemma SkipNone(s: Text)
    requires s != [] && !IsSpace(s[0])
    ensures SkipWs(s) == s
  {
  }

  lemma {:induction false} DigitsThen(d: Text, s: Text)
    requires forall i :: 0 <= i < |d| ==> IsDigit(d[i])
    requires s == [] || !IsDigit(s[0])
    ensures DigitCount(d + s) == |d|
    decreases |d|
  {
    if d == [] { assert d + s == s; }
    else { assert (d + s)[1..] == d[1..] + s; DigitsThen(d[1..], s); }
  }

  lemma {:induction false} DecDigits(n: nat)
    ensures forall i :: 0 <= i < |Dec(n)| ==> IsDigit(Dec(n)[i])
    ensures DecValue(Dec(n)) == n
  {
    if n >= 10 {
      DecDigits(n / 10);
      assert Dec(n)[..|Dec(n)| - 1] == Dec(n / 10);
    } else {
      assert Dec(n)[..0] == [];
    }
  }

  lemma NumberRoundTrip(n: u64, rest: Text, stod: Stod)
    requires Stop(rest)
    ensures ParseNumber(Dec(n) + rest, stod) == Got(Uint(n), rest)
    ensures IsDigit((Dec(n) + rest)[0])
  {
    hide Dec, DecValue, DigitCount;
    DecDigits(n);
    var d := Dec(n);
    var s := d + rest;
    assert IsDigit(d[0]) && s[0] == d[0];
    DigitsThen(d, rest);
    assert s[0..] == s;
    assert s[..|d|] == d && s[|d|..] == rest;
    assert IntegerEnd(s) == |d|;
  }

  lemma {:induction false} CharsRoundTrip(t: Text, rest: Text)
    ensures NameOk(t) ==> ParseChars(Escape(t) + "\"" + rest) == Got(t, rest)
    ensures !NameOk(t) ==> ParseChars(Escape(t) + "\"" + rest) == Bad
    decreases |t|
  {
    hide EscapeChar, CharOk, NameOk, ParseChars;
    if t == [] {
      NameOkNil();
      PlainChars([], rest);
      assert Escape(t) + "\"" + rest == [] + "\"" + rest;
    } else {
      CharsRoundTrip(t[1..], rest);
      EscapedChar(t[0], Escape(t[1..]) + "\"" + rest);
      assert Escape(t) + "\"" + rest == EscapeChar(t[0]) + (Escape(t[1..]) + "\"" + rest);
      assert [t[0]] + t[1..] == t;
      NameOkCons(t);
    }
  }

  lemma NameOkNil()
    ensures NameOk([]) && PlainKey([])
  {
  }

  lemma NameOkCons(t: Text)
    requires t != []
    ensures NameOk(t) <==> CharOk(t[0]) && NameOk(t[1..])
  {
    if CharOk(t[0]) && NameOk(t[1..]) {
      forall i | 0 <= i < |t| ensures CharOk(t[i]) { if i > 0 { assert t[i] == t[1..][i - 1]; } }
    }
  }

  lemma EscapedChar(c: Char, s: Text)
    ensures CharOk(c) ==> ParseChars(EscapeChar(c) + s) == Prefix(c, ParseChars(s))
    ensures !CharOk(c) ==> ParseChars(EscapeChar(c) + s) == Bad
  {
    var e := EscapeChar(c);
    var x := e + s;
    if |e| == 1 { assert x[1..] == s && x[0] == c; }
    else if |e| == 2 { assert x[2..] == s && x[0] == '\\' && x[1] == e[1]; }
    else { assert x[0] == '\\' && x[1] == 'u'; }
  }

  lemma {:induction false} PlainChars(key: Text, rest: Text)
    requires PlainKey(key)
    ensures ParseChars(key + "\"" + rest) == Got(key, rest)
    decreases |key|
  {
    var s := key + "\"" + rest;
    if key == [] {
      assert s[0] == '\"' && s[1..] == rest;
    } else {
      assert s[0] == key[0] && s[1..] == key[1..] + "\"" + rest;
      PlainChars(key[1..], rest);
      assert [key[0]] + key[1..] == key;
    }
  }

  lemma TextHead(p: Layout)
    ensures Render(p) != [] && !IsSpace(Render(p)[0]) && Render(p)[0] != ']' && Render(p)[0] != '}'
  {
    hide Dec;
    if p.LUint? { DecDigits(p.u); }
  }

  lemma ValueAfterBlank(w: Text, s: Text, stod: Stod)
    requires Blank(w)
    ensures ParseValue(w + s, stod) == ParseValue(s, stod)
  {
    hide ParseObject, ParseArray, ParseNumber, ParseChars, SkipWs;
    SkipBlank(w, s);
  }

  lemma StopAfter(close: Text, c: Char, rest: Text)
    requires Blank(close) && (c == ',' || c == ']' || c == '}')
    ensures Stop(close + [c] + rest)
  {
  }

  lemma BlankThen(w: Text, c: Char, rest: Text)
    requires Blank(w) && !IsSpace(c)
    ensures SkipWs(w + [c] + rest) == [c] + rest
  {
    SkipBlank(w, [c] + rest);
    assert w + [c] + rest == w + ([c] + rest);
  }

  lemma ScalarRoundTrip(p: Layout, rest: Text, stod: Stod)
    requires Readable(p) && Stop(rest) && (p.LUint? || p.LBool? || p.LStr?)
    ensures ParseValue(Render(p) + rest, stod) == Got(Value(p), rest)
  {
    hide Dec, ParseNumber, ParseChars, Escape, ParseObject, ParseArray, SkipWs;
    var s := Render(p) + rest;
    TextHead(p);
    SkipNone(s);
    match p {
      case LUint(u) => NumberRoundTrip(u, rest, stod);
      case LBool(b) =>
        var lit := if b then "true" else "false";
        assert lit <= s && s[|lit|..] == rest;
      case LStr(x) =>
        CharsRoundTrip(x, rest);
        assert s[1..] == Escape(x) + "\"" + rest;
    }
  }

  /** Parsing the text of a readable layout gives its value and leaves what follows it. */
  lemma {:induction false} ValueRoundTrip(p: Layout, rest: Text, stod: Stod)
    requires Readable(p) && Stop(rest)
    ensures ParseValue(Render(p) + rest, stod) == Got(Value(p), rest)
    decreases p, 1
  {
    hide Dec, ParseNumber, ParseChars, Escape, ParseItems, ParseMembers, SkipWs, ItemsText, FieldsText;
    match p {
      case LArr(items, open, sep, close) =>
        var body := ItemsText(items, sep) + close + "]" + rest;
        var s := Render(p) + rest;
        assert s == "[" + (open + body);
        SkipNone(s);
        SkipBlank(open, body);
        ArrayBody(items, sep, close, rest);
        if items != [] { ItemsRoundTrip(items, [], sep, close, rest, stod); assert [] + body == body; }
        assert s[1..] == open + body;
      case LObj(fields, open, sep, close) =>
        var body := FieldsText(fields, sep) + close + "}" + rest;
        var s := Render(p) + rest;
        assert s == "{" + (open + body);
        SkipNone(s);
        SkipBlank(open, body);
        ObjectBody(fields, sep, close, rest);
        if fields != [] { FieldsRoundTrip(fields, [], sep, close, rest, stod); assert [] + body == body; }
        assert s[1..] == open + body;
      case _ => ScalarRoundTrip(p, rest, stod);
    }
  }

  // What the array parser sees after the opening bracket and white space.
  lemma ArrayBody(items: seq<Layout>, sep: Text, close: Text, rest: Text)
    requires Blank(close)
    ensures var body := ItemsText(items, sep) + close + "]" + rest;
            && (items == [] ==> SkipWs(body) == "]" + rest && Values(items) == [])
            && (items != [] ==> SkipWs(body) == body && body[0] != ']')
  {
    hide Render, SkipWs;
    if items == [] {
      BlankThen(close, ']', rest);
      assert ItemsText(items, sep) + close + "]" + rest == close + "]" + rest;
    } else {
      TextHead(items[0]);
      SkipNone(ItemsText(items, sep) + close + "]" + rest);
    }
  }

  lemma ObjectBody(fields: seq<Field>, sep: Text, close: Text, rest: Text)
    requires Blank(close)
    ensures var body := FieldsText(fields, sep) + close + "}" + rest;
            && (fields == [] ==> SkipWs(body) == "}" + rest && Members(fields) == [])
            && (fields != [] ==> SkipWs(body) == body && body[0] == '\"')
  {
    hide Render, SkipWs;
    if fields == [] {
      BlankThen(close, '}', rest);
      assert FieldsText(fields, sep) + close + "}" + rest == close + "}" + rest;
    } else {
      FieldsQuote(fields, sep);
      assert (FieldsText(fields, sep) + close + "}" + rest)[0] == '\"';
      SkipNone(FieldsText(fields, sep) + close + "}" + rest);
    }
  }

  lemma FieldsQuote(fields: seq<Field>, sep: Text)
    requires fields != []
    ensures FieldsText(fields, sep) != [] && FieldsText(fields, sep)[0] == '\"'
  {
    hide Render;
    assert FieldText(fields[0])[0] == '\"';
  }

  lemma {:induction false} ItemsRoundTrip(
    items: seq<Layout>, lead: Text, sep: Text, close: Text, rest: Text, stod: Stod)
    requires items != [] && Blank(lead) && Blank(sep) && Blank(close)
    requires forall i :: 0 <= i < |items| ==> Readable(items[i])
    ensures ParseItems(lead + (ItemsText(items, sep) + close + "]" + rest), stod) == Got(Values(items), rest)
    decreases items, 0
  {
    hide ParseValue, SkipWs, Render, Value, Readable;
    var body := ItemsText(items, sep) + close + "]" + rest;
    var v := Render(items[0]);
    ValueAfterBlank(lead, body, stod);
    if |items| == 1 {
      var after := close + "]" + rest;
      assert body == v + after;
      StopAfter(close, ']', rest);
      ValueRoundTrip(items[0], after, stod);
      BlankThen(close, ']', rest);
      assert Values(items) == [Value(items[0])] by { assert Values(items[1..]) == []; }
    } else {
      var more := sep + (ItemsText(items[1..], sep) + close + "]" + rest);
      assert body == v + ("," + more);
      ValueRoundTrip(items[0], "," + more, stod);
      SkipNone("," + more);
      assert ("," + more)[1..] == more;
      ItemsRoundTrip(items[1..], sep, sep, close, rest, stod);
    }
  }

  lemma {:induction false} FieldsRoundTrip(
    fields: seq<Field>, lead: Text, sep: Text, close: Text, rest: Text, stod: Stod)
    requires fields != [] && Blank(lead) && Blank(sep) && Blank(close)
    requires forall i :: 0 <= i < |fields| ==> PlainKey(fields[i].key) && Readable(fields[i].value)
    ensures ParseMembers(lead + (FieldsText(fields, sep) + close + "}" + rest), stod) == Got(Members(fields), rest)
    decreases fields, 0
  {
    hide ParseValue, ParseMembers, SkipWs, Render, Value, Readable, PlainKey, FieldText;
    var f := fields[0];
    var body := FieldsText(fields, sep) + close + "}" + rest;
    if |fields| == 1 {
      var after := close + "}" + rest;
      assert body == FieldText(f) + after;
      StopAfter(close, '}', rest);
      ValueRoundTrip(f.value, after, stod);
      FirstField(f, lead, after, stod);
      BlankThen(close, '}', rest);
      assert SkipWs(after)[1..] == rest;
      assert Members(fields) == [Member(f.key, Value(f.value))] by { assert Members(fields[1..]) == []; }
    } else {
      var more := sep + (FieldsText(fields[1..], sep) + close + "}" + rest);
      assert body == FieldText(f) + ("," + more);
      ValueRoundTrip(f.value, "," + more, stod);
      FirstField(f, lead, "," + more, stod);
      SkipNone("," + more);
      assert ("," + more)[1..] == more;
      FieldsRoundTrip(fields[1..], sep, sep, close, rest, stod);
    }
  }

  // What ParseMembers does after its first member, at the text w.
  ghost function AfterMember(m: Member, w: Text, stod: Stod): Parse<seq<Member>>
  {
    if w == [] then Bad
    else if w[0] == ',' then
      match ParseMembers(w[1..], stod)
      case Got(ms, rest) => Got([m] + ms, rest)
      case Bad => Bad
    else if w[0] == '}' then Got([m], w[1..])
    else Bad
  }

  lemma FirstField(f: Field, lead: Text, after: Text, stod: Stod)
    requires Blank(lead) && PlainKey(f.key)
    requires ParseValue(Render(f.value) + after, stod) == Got(Value(f.value), after)
    ensures ParseMembers(lead + (FieldText(f) + after), stod) ==
        AfterMember(Member(f.key, Value(f.value)), SkipWs(after), stod)
  {
    hide ParseValue, ParseChars, SkipWs, Render, Value, Blank, PlainKey;
    FieldHead(f, lead, after, stod);
  }

  // Reading `"key": value` up to what follows the value.
  lemma FieldHead(f: Field, lead: Text, after: Text, stod: Stod)
    requires Blank(lead) && PlainKey(f.key)
    requires ParseValue(Render(f.value) + after, stod) == Got(Value(f.value), after)
    ensures var t := SkipWs(lead + (FieldText(f) + after));
            && t != [] && t[0] == '\"'
            && ParseChars(t[1..]).Got? && ParseChars(t[1..]).value == f.key
            && (var u := SkipWs(ParseChars(t[1..]).rest);
                u != [] && u[0] == ':' && ParseValue(u[1..], stod) == Got(Value(f.value), after))
  {
    hide ParseValue, ParseChars, Render, Value, SkipWs;
    var s := FieldText(f) + after;
    SkipBlank(lead, s);
    SkipNone(s);
    var colon := ": " + Render(f.value) + after;
    assert s[1..] == f.key + "\"" + colon;
    PlainChars(f.key, colon);
    SkipNone(colon);
    assert colon[1..] == " " + (Render(f.value) + after);
    ValueAfterBlank(" ", Render(f.value) + after, stod);
  }

  /** A string with a character the parser cannot unescape makes the value unreadable ... */
  lemma BadString(x: Text, after: Text, stod: Stod)
    requires !NameOk(x)
    ensures ParseValue(Render(LStr(x)) + after, stod) == Bad
  {
    hide ParseChars, Escape, NameOk;
    var s := Render(LStr(x)) + after;
    SkipNone(s);
    CharsRoundTrip(x, after);
    assert s[1..] == Escape(x) + "\"" + after;
  }

  /** ... and with it the member it belongs to. */
  lemma UnreadableField(f: Field, lead: Text, after: Text, stod: Stod)
    requires Blank(lead) && PlainKey(f.key) && ParseValue(Render(f.value) + after, stod) == Bad
    ensures ParseMembers(lead + (FieldText(f) + after), stod) == Bad
  {
    hide ParseValue, ParseChars, Render, Value, SkipWs, Blank, PlainKey;
    var s := FieldText(f) + after;
    BlankSpace();
    SkipBlank(lead, s);
    SkipNone(s);
    var colon := ": " + Render(f.value) + after;
    assert s[1..] == f.key + "\"" + colon;
    PlainChars(f.key, colon);
    SkipNone(colon);
    assert colon[1..] == " " + (Render(f.value) + after);
    ValueAfterBlank(" ", Render(f.value) + after, stod);
  }

  lemma BlankSpace()
    ensures Blank(" ")
  {
  }
}
