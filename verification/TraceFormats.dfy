/** The two trace formats on fixed traces and fields: what is written byte by byte and character by character, so
    that files of other versions of the program can be read. */
module TraceFormats {
  import opened Bits
  import opened Traces
  import opened Json
  import opened TraceJson
  import B = BinaryCodec

  // ---- binary ----

  // The value of a position.
  lemma {:induction false} Positive(i: nat)
    ensures B.Pow256(i) > 0
  {
    if i > 0 { Positive(i - 1); }
  }

  /** The i-th byte of a little-endian number is its i-th digit to base 256. */
  lemma {:induction false} LeDigit(v: nat, n: nat, i: nat)
    requires i < n
    ensures B.Pow256(i) > 0 && B.Le(v, n)[i] == v / B.Pow256(i) % 256
    decreases i
  {
    Positive(i);
    if i > 0 {
      Positive(i - 1);
      LeDigit(v / 256, n - 1, i - 1);
      DivTwice(v, B.Pow256(i - 1));
    }
  }

  lemma DivTwice(v: nat, d: nat)
    requires d > 0
    ensures v / 256 / d == v / (256 * d)
  {
    var q, r := v / (256 * d), v % (256 * d);
    assert v == 256 * d * q + r;
    assert v == 256 * (d * q) + r;
    assert v / 256 == d * q + r / 256;
    assert r / 256 < d;
    ModUnique(d * q + r / 256, d, q, r / 256);
  }

  lemma Small4(v: byte)
    ensures B.Le(v, 4) == [v, 0, 0, 0]
  {
    assert B.Le(0, 1) == [0] && B.Le(0, 2) == [0, 0] && B.Le(0, 3) == [0, 0, 0];
  }

  lemma Zeros()
    ensures B.Le(0, 4) == [0, 0, 0, 0]
  {
    assert B.Le(0, 1) == [0] && B.Le(0, 2) == [0, 0];
  }

  lemma Small8(v: byte)
    ensures B.Le(v, 8) == [v, 0, 0, 0, 0, 0, 0, 0]
  {
    Zeros();
    assert B.Le(0, 5) == [0, 0, 0, 0, 0] && B.Le(0, 6) == [0, 0, 0, 0, 0, 0] && B.Le(0, 7) == [0, 0, 0, 0, 0, 0, 0];
  }

  function Sample(): Entry
  {
    Entry.Entry(7, 8, ALLOCATE, 9, 0x1000, 16, 1, 3, 4, true, false, 0x0203)
  }

  lemma SampleNumbers()
    ensures B.Le(0x1000, 8) == [0, 16, 0, 0, 0, 0, 0, 0] && B.Le(0x0203, 4) == [3, 2, 0, 0]
    ensures B.Le(TRACE_MAGIC, 4) == [0x52, 0x54, 0x4C, 0x41]
  {
    hide B.Le;
    Le3(2);
    Le7(16);
    LeStep(0, 16, 7);
    LeStep(3, 2, 3);
    LeStep(0x41, 0, 0); LeStep(0x4C, 0x41, 1); LeStep(0x54, 0x414C, 2); LeStep(0x52, 0x41_4C54, 3);
    assert B.Le(0, 0) == [] by { LeNone(0); }
  }

  lemma LeNone(v: nat)
    ensures B.Le(v, 0) == []
  {
  }

  // A number is its lowest byte and the rest.
  lemma LeStep(low: byte, high: nat, n: nat)
    ensures B.Le(low + 256 * high, n + 1) == [low] + B.Le(high, n)
  {
    assert (low + 256 * high) % 256 == low && (low + 256 * high) / 256 == high;
  }

  lemma Le3(v: byte)
    ensures B.Le(v, 3) == [v, 0, 0]
  {
    assert B.Le(0, 1) == [0] && B.Le(0, 2) == [0, 0];
  }

  lemma Le7(v: byte)
    ensures B.Le(v, 7) == [v, 0, 0, 0, 0, 0, 0]
  {
    Zeros();
    assert B.Le(0, 5) == [0, 0, 0, 0, 0] && B.Le(0, 6) == [0, 0, 0, 0, 0, 0];
  }

  /** One entry: 64-bit sequence number and step, 32-bit operation, 64-bit id, size and alignment, and six 32-bit
      fields. */
  lemma EntryBytes()
    ensures B.EncodeEntry(Sample()) ==
            ([7, 0, 0, 0, 0, 0, 0, 0] + [8, 0, 0, 0, 0, 0, 0, 0] + [0, 0, 0, 0]
             + [9, 0, 0, 0, 0, 0, 0, 0] + [0, 16, 0, 0, 0, 0, 0, 0] + [16, 0, 0, 0, 0, 0, 0, 0])
            + ([1, 0, 0, 0] + [3, 0, 0, 0] + [4, 0, 0, 0] + [1, 0, 0, 0] + [0, 0, 0, 0] + [3, 2, 0, 0])
  {
    hide B.Le;
    Small8(7); Small8(8); Small8(9); Small8(16);
    Small4(0); Small4(1); Small4(3); Small4(4);
    SampleNumbers();
  }

  /** A whole trace: "RTLA", the version, the seed, the name with its length, and the count of entries. */
  lemma TraceBytes()
    ensures B.Encode(Trace(1, 5, "ab", [])) ==
            ([0x52, 0x54, 0x4C, 0x41] + [1, 0, 0, 0] + [5, 0, 0, 0, 0, 0, 0, 0] + [2, 0, 0, 0])
            + [97, 98] + [0, 0, 0, 0] + []
  {
    hide B.Le;
    Small8(5);
    Small4(0); Small4(1); Small4(2);
    SampleNumbers();
    assert B.NameBytes("ab") == [97, 98];
  }

  lemma Magic(b: B.Bytes)
    requires |b| >= 4
    ensures b[0..4] == [0x52, 0x54, 0x4C, 0x41] <==> B.Get32(b, 0) == TRACE_MAGIC
  {
    hide B.Le, B.LeValue;
    SampleNumbers();
    B.Field32(b, 0, TRACE_MAGIC);
  }

  lemma Version(b: B.Bytes)
    requires |b| >= 8
    ensures b[4..8] == [1, 0, 0, 0] <==> B.Get32(b, 4) == 1
  {
    hide B.Le, B.LeValue;
    Small4(1);
    B.Field32(b, 4, 1);
  }

  /** What a damaged head is refused for: the first four bytes, then the version, then the length, then a name of
      more than 2^24 bytes. */
  lemma HeadRefusals(b: B.Bytes)
    ensures |b| < 4 || b[0..4] != [0x52, 0x54, 0x4C, 0x41] ==> B.Decode(b) == Error(Malformed(BadMagic))
    ensures |b| >= 4 && b[0..4] == [0x52, 0x54, 0x4C, 0x41] ==>
              && (|b| < 8 ==> B.Decode(b) == Error(Malformed(Truncated)))
              && (|b| >= 8 && b[4..8] != [1, 0, 0, 0] ==> B.Decode(b) == Error(Rejected(UnsupportedVersion)))
              && (|b| >= 8 && b[4..8] == [1, 0, 0, 0] ==>
                    && (|b| < 20 || 20 + B.Get32(b, 16) > |b| ==> B.Decode(b) == Error(Malformed(Truncated)))
                    && (|b| >= 20 && 20 + B.Get32(b, 16) <= |b| && B.Get32(b, 16) > 0x100_0000 ==>
                          B.Decode(b) == Error(Malformed(OversizedName))))
  {
    hide B.LeValue, B.DecodeBody, B.Get32;
    if |b| >= 4 { Magic(b); }
    if |b| >= 8 { Version(b); }
  }

  /** The fields of a decoded entry: operation and domain keep 16 bits, any flag but zero is true, an error code
      above 65535 becomes 65535. */
  lemma EntryFieldsRead(b: B.Bytes, p: nat)
    requires p + 68 <= |b|
    ensures var e := B.DecodeEntry(b, p);
            && e.seqNo == B.Get64(b, p) && e.step == B.Get64(b, p + 8) && e.op == B.Get32(b, p + 16) % 0x1_0000
            && e.id == B.Get64(b, p + 20) && e.size == B.Get64(b, p + 28) && e.alignment == B.Get64(b, p + 36)
            && e.domain == B.Get32(b, p + 44) % 0x1_0000 && e.worker == B.Get32(b, p + 48)
            && e.tag == B.Get32(b, p + 52) && (e.hasStatus <==> B.Get32(b, p + 56) != 0)
            && (e.statusSuccess <==> B.Get32(b, p + 60) != 0)
            && (B.Get32(b, p + 64) <= 65535 ==> e.errorCode == B.Get32(b, p + 64))
            && (B.Get32(b, p + 64) > 65535 ==> e.errorCode == 65535)
  {
    hide B.Get32, B.Get64;
  }

  /** What the entries are refused for: the first one that is cut short, has an operation above 6 or a domain above 5;
      and bytes behind the last one. */
  lemma {:induction false} EntriesRefused(b: B.Bytes, p: nat, count: nat, k: nat)
    requires p + 68 * k <= |b| && k <= count
    requires forall i :: 0 <= i < k ==>
               B.DecodeEntry(b, p + 68 * i).op <= 6 && B.DecodeEntry(b, p + 68 * i).domain <= 5
    ensures k == count ==>
              (B.DecodeEntries(b, p, count).Parsed? <==> p + 68 * k == |b|)
              && (p + 68 * k < |b| ==> B.DecodeEntries(b, p, count) == B.Stopped(Malformed(TrailingBytes)))
    ensures k < count && p + 68 * k + 68 > |b| ==> B.DecodeEntries(b, p, count) == B.Stopped(Malformed(Truncated))
    ensures k < count && p + 68 * k + 68 <= |b| && B.DecodeEntry(b, p + 68 * k).op > 6 ==>
              B.DecodeEntries(b, p, count) == B.Stopped(Malformed(BadOp))
    ensures k < count && p + 68 * k + 68 <= |b| && B.DecodeEntry(b, p + 68 * k).op <= 6
            && B.DecodeEntry(b, p + 68 * k).domain > 5 ==>
              B.DecodeEntries(b, p, count) == B.Stopped(Malformed(BadDomain))
    decreases k
  {
    hide B.DecodeEntry;
    if k > 0 {
      forall i | 0 <= i < k - 1
        ensures B.DecodeEntry(b, p + 68 + 68 * i).op <= 6 && B.DecodeEntry(b, p + 68 + 68 * i).domain <= 5
      {
        assert p + 68 + 68 * i == p + 68 * (i + 1);
      }
      assert p + 68 * 0 == p;
      EntriesRefused(b, p + 68, count - 1, k - 1);
    }
  }

  // ---- JSON ----

  lemma DecStep(n: nat, d: nat)
    requires d < 10
    ensures n > 0 ==> Dec(10 * n + d) == Dec(n) + [('0' as int + d) as Char]
    ensures Dec(d) == [('0' as int + d) as Char]
  {
    assert (10 * n + d) / 10 == n && (10 * n + d) % 10 == d;
  }

  /** Numbers are printed in decimal. */
  lemma Numerals()
    ensures Dec(0) == "0" && Dec(90) == "90" && Dec(12345) == "12345"
  {
    hide Dec;
    DecStep(0, 0);
    DecStep(0, 9); DecStep(9, 0);
    DecStep(0, 1); DecStep(1, 2); DecStep(12, 3); DecStep(123, 4); DecStep(1234, 5);
  }

  /** One digit more means ten times the value and the digit; so numerals with zeros in front are read too. */
  lemma ValueStep(s: Text, c: Char)
    requires IsDigit(c)
    ensures DecValue(s + [c]) == 10 * DecValue(s) + (c as int - 48) && DecValue([]) == 0
  {
    assert (s + [c])[..|s|] == s;
  }

  /** What the printer escapes, and how: quotes, backslashes, line ends and tabs by name, the other control
      characters by number. */
  lemma Escapes(c: Char)
    ensures EscapeChar('\"') == "\\\"" && EscapeChar('\\') == "\\\\"
    ensures EscapeChar('\n') == "\\n" && EscapeChar('\r') == "\\r" && EscapeChar('\t') == "\\t"
    ensures EscapeChar(1 as Char) == "\\u0001" && EscapeChar(31 as Char) == "\\u001f"
    ensures c >= ' ' && c != '\"' && c != '\\' ==> EscapeChar(c) == [c]
  {
    assert HexDigit(0) == '0' && HexDigit(1) == '1' && HexDigit(15) == 'f';
    assert 31 / 16 == 1 && 31 % 16 == 15;
  }

  /** What the parser reads after a backslash; anything else, also a `u`, is refused. */
  lemma Unescapes(c: Char)
    ensures Unescape(c) ==
            if c == 'n' then Just(10 as Char) else if c == 't' then Just(9 as Char)
            else if c == 'r' then Just(13 as Char)
            else if c == 'b' then Just(8 as Char) else if c == 'f' then Just(12 as Char)
            else if c in {'\"', '\\', '/'} then Just(c) else Nothing
  {
  }

  // ---- the layout of the JSON text ----

  function Join(texts: seq<Text>, sep: Text): Text
  {
    if texts == [] then "" else if |texts| == 1 then texts[0] else texts[0] + sep + Join(texts[1..], sep)
  }

  function FieldTexts(fs: seq<Field>): seq<Text> { seq(|fs|, i requires 0 <= i < |fs| => FieldText(fs[i])) }

  function ItemTexts(items: seq<Layout>): seq<Text> { seq(|items|, i requires 0 <= i < |items| => Render(items[i])) }

  lemma {:induction false} FieldsJoined(fs: seq<Field>, sep: Text)
    ensures FieldsText(fs, sep) == Join(FieldTexts(fs), "," + sep)
    decreases |fs|
  {
    hide FieldText;
    if |fs| > 1 {
      FieldsJoined(fs[1..], sep);
      assert FieldTexts(fs)[1..] == FieldTexts(fs[1..]);
      assert FieldText(fs[0]) + "," + sep == FieldText(fs[0]) + ("," + sep);
    }
  }

  lemma {:induction false} ItemsJoined(items: seq<Layout>, sep: Text)
    ensures ItemsText(items, sep) == Join(ItemTexts(items), "," + sep)
    decreases |items|
  {
    hide Render;
    if |items| > 1 {
      ItemsJoined(items[1..], sep);
      assert ItemTexts(items)[1..] == ItemTexts(items[1..]);
      assert Render(items[0]) + "," + sep == Render(items[0]) + ("," + sep);
    }
  }

  function Truth(b: bool): Text { if b then "true" else "false" }

  /** A member: the key in quotes, a colon and a space, the value. */
  function Pair(key: Text, value: Text): Text { "\"" + key + "\": " + value }

  lemma FieldPair(key: Text, v: Layout)
    ensures FieldText(Field(key, v)) == Pair(key, Render(v))
  {
    hide Render;
  }

  /** The members of an entry. */
  function MainPairs(e: Entry): seq<Text>
  {
    [ Pair("seq", Dec(e.seqNo)), Pair("step", Dec(e.step)), Pair("op", Dec(e.op)), Pair("id", Dec(e.id)),
      Pair("size", Dec(e.size)), Pair("alignment", Dec(e.alignment)), Pair("domain", Dec(e.domain)),
      Pair("worker", Dec(e.worker)), Pair("tag", Dec(e.tag)), Pair("has_status", Truth(e.hasStatus)) ]
  }

  function EntryPairs(e: Entry): seq<Text>
  {
    MainPairs(e)
    + if e.hasStatus then
        [ Pair("status_success", Truth(e.statusSuccess)), Pair("error_code", Dec(e.errorCode)) ]
      else []
  }

  lemma PairTexts(e: Entry)
    ensures FieldTexts(EntryFields(e)) == EntryPairs(e)
  {
    hide FieldText, Dec, Pair;
    forall key, v ensures FieldText(Field(key, v)) == Pair(key, Render(v)) { FieldPair(key, v); }
    var fs, ps := EntryFields(e), EntryPairs(e);
    assert |fs| == |ps|;
    forall i | 0 <= i < |fs| ensures FieldText(fs[i]) == ps[i] { PairAt(e, i); }
  }

  lemma PairAt(e: Entry, i: nat)
    requires i < |EntryFields(e)|
    ensures i < |EntryPairs(e)| && FieldText(EntryFields(e)[i]) == EntryPairs(e)[i]
  {
    hide FieldText, Dec, Pair;
    FieldPair(EntryFields(e)[i].key, EntryFields(e)[i].value);
  }

  /** One entry of the text. */
  function Line(e: Entry): Text { "{ " + Join(EntryPairs(e), ", ") + " }" }

  /** An entry is printed as an object on one line, the status fields only for an entry that has one. */
  lemma EntryText(e: Entry)
    ensures Render(EntryLayout(e)) == Line(e)
  {
    hide FieldsText, Join, EntryFields, EntryPairs, FieldTexts;
    FieldsJoined(EntryFields(e), " ");
    PairTexts(e);
    assert "," + " " == ", ";
  }

  /** The entries of the text, one on a line. */
  function EntriesText(es: seq<Entry>): Text
  {
    if es == [] then "[\n  ]" else "[\n    " + Join(Lines(es), ",\n    ") + "\n  ]"
  }

  function Lines(es: seq<Entry>): seq<Text> { seq(|es|, i requires 0 <= i < |es| => Line(es[i])) }

  lemma {:induction false} LayoutAt(es: seq<Entry>, i: nat)
    requires i < |es|
    ensures |EntryLayouts(es)| == |es| && EntryLayouts(es)[i] == EntryLayout(es[i])
    decreases |es|
  {
    hide EntryLayout;
    if |es| > 1 { LayoutAt(es[1..], if i > 0 then i - 1 else 0); }
  }

  lemma EntriesLines(es: seq<Entry>)
    ensures Render(EntriesLayout(es)) == EntriesText(es)
  {
    hide EntryLayout, ItemsText, Line, Join, EntryLayouts;
    if es != [] {
      var ls := EntryLayouts(es);
      LayoutAt(es, 0);
      ItemsJoined(ls, "\n    ");
      assert "," + "\n    " == ",\n    ";
      forall i | 0 <= i < |es| ensures ItemTexts(ls)[i] == Lines(es)[i] {
        LayoutAt(es, i);
        EntryText(es[i]);
      }
      assert ItemTexts(ls) == Lines(es);
    } else {
      ItemsNone();
    }
  }

  lemma ItemsNone()
    ensures ItemsText([], "") == ""
  {
  }

  /** The whole text of a trace. */
  lemma TraceText(t: Trace)
    ensures ToJson(t) ==
            "{\n  " + Join([ Pair("version", Dec(t.version)), Pair("seed", Dec(t.seed)),
                            Pair("name", "\"" + Escape(t.name) + "\""), Pair("entries", EntriesText(t.entries)) ],
                          ",\n  ")
            + "\n}" + "\n"
  {
    hide FieldsText, Join, EntriesLayout, EntriesText, Escape, Dec, FieldText, Pair;
    FieldsJoined(TraceFields(t), "\n  ");
    EntriesLines(t.entries);
    TracePairs(t);
    assert "," + "\n  " == ",\n  ";
  }

  lemma TracePairs(t: Trace)
    ensures FieldTexts(TraceFields(t)) ==
            [ Pair("version", Dec(t.version)), Pair("seed", Dec(t.seed)), Pair("name", "\"" + Escape(t.name) + "\""),
              Pair("entries", Render(EntriesLayout(t.entries))) ]
  {
    hide EntriesLayout, Escape, Dec, FieldText, Pair;
    FieldPair("version", LUint(t.version));
    FieldPair("seed", LUint(t.seed));
    FieldPair("name", LStr(t.name));
    FieldPair("entries", EntriesLayout(t.entries));
  }

  // ---- what the JSON reader takes and refuses ----

  const NO_ENTRIES: Json := Arr([])

  lemma Found(ms: seq<Member>, key: Text)
    requires ms != []
    ensures Get(ms, key) == if ms[0].key == key then Present(ms[0].value) else Get(ms[1..], key)
    ensures Get([], key) == Absent
  {
  }

  /** Seed and name may be missing; the version and the entries may not, and the version must be 1. */
  lemma TraceMembers()
    ensures ReadTrace(Obj([Member("version", Uint(1)), Member("entries", NO_ENTRIES)])) == Ok(Trace(1, 0, "", []))
    ensures ReadTrace(Obj([Member("version", Uint(2)), Member("entries", NO_ENTRIES)])) ==
            Error(Rejected(UnsupportedVersion))
    ensures ReadTrace(Obj([Member("entries", NO_ENTRIES)])) == Error(Malformed(BadField))
    ensures ReadTrace(Obj([Member("version", Uint(1))])) == Error(Malformed(BadField))
    ensures ReadTrace(NO_ENTRIES) == Error(Malformed(NotAnObject))
  {
    hide Get;
    var v1, v2, es := Member("version", Uint(1)), Member("version", Uint(2)), Member("entries", NO_ENTRIES);
    Lookups(v1, es);
    Lookups(v2, es);
    assert [v1, es][1..] == [es] && [v2, es][1..] == [es] && [es][1..] == [] && [v1][1..] == [];
    forall key ensures Get([es], key) == (if key == "entries" then Present(NO_ENTRIES) else Absent) {
      Found([es], key);
    }
    forall key ensures Get([v1], key) == (if key == "version" then Present(Uint(1)) else Absent) {
      Found([v1], key);
    }
  }

  lemma Lookups(v: Member, es: Member)
    requires v.key == "version" && es.key == "entries"
    ensures Get([v, es], "version") == Present(v.value) && Get([v, es], "entries") == Present(es.value)
    ensures Get([v, es], "seed") == Absent && Get([v, es], "name") == Absent
  {
    assert [v, es][1..] == [es] && [es][1..] == [];
    assert |"seed"| == 4 && |"name"| == 4 && |"entries"| == |"version"| == 7 && "version"[0] != "entries"[0];
    forall key ensures Get([v, es], key) == if key == v.key then Present(v.value) else if key == es.key
        then Present(es.value) else Absent {
      Found([v, es], key);
      Found([es], key);
    }
  }

  /** All nine numbers are there. */
  predicate Complete(ms: seq<Member>)
  {
    && HasUint(ms, "seq") && HasUint(ms, "step") && HasUint(ms, "op") && HasUint(ms, "id") && HasUint(ms, "size")
    && HasUint(ms, "alignment") && HasUint(ms, "domain") && HasUint(ms, "worker") && HasUint(ms, "tag")
  }

  /** Every number of an entry is required; without one the entry is refused, for a missing operation or domain as a
      bad one. Status fields are ignored unless has_status is true, and may then be missing. */
  lemma EntryMembersNeeded(ms: seq<Member>)
    ensures !Complete(ms) ==>
              ReadEntry(Obj(ms)).Unreadable? && ReadEntry(Obj(ms)).why in {BadField, BadOp, BadDomain}
    ensures HasUint(ms, "seq") && HasUint(ms, "step") && !HasUint(ms, "op") ==> ReadEntry(Obj(ms)) == Unreadable(BadOp)
    ensures Complete(ms) && UintAt(ms, "op") % 0x1_0000_0000 > 6 ==> ReadEntry(Obj(ms)) == Unreadable(BadOp)
    ensures Complete(ms) && UintAt(ms, "op") % 0x1_0000_0000 <= 6 && UintAt(ms, "domain") % 0x1_0000_0000 > 5 ==>
              ReadEntry(Obj(ms)) == Unreadable(BadDomain)
    ensures Complete(ms) && UintAt(ms, "op") % 0x1_0000_0000 <= 6 && UintAt(ms, "domain") % 0x1_0000_0000 <= 5
            && Get(ms, "has_status").Absent? ==>
              && ReadEntry(Obj(ms)).Read?
              && var e := ReadEntry(Obj(ms)).e;
              && e.seqNo == UintAt(ms, "seq") && e.step == UintAt(ms, "step") && e.id == UintAt(ms, "id")
              && e.size == UintAt(ms, "size") && e.alignment == UintAt(ms, "alignment")
              && e.op == UintAt(ms, "op") % 0x1_0000_0000 && e.domain == UintAt(ms, "domain") % 0x1_0000_0000
              && e.worker == UintAt(ms, "worker") % 0x1_0000_0000 && e.tag == UintAt(ms, "tag") % 0x1_0000_0000
              && !e.hasStatus && !e.statusSuccess && e.errorCode == 0
  {
    hide Get;
  }

  /** With has_status true the status fields are read where present; with it false they are not looked at. */
  lemma StatusMembers(ms: seq<Member>, e: Entry)
    requires !e.statusSuccess && e.errorCode == 0
    ensures Get(ms, "has_status") == Present(Bool(false)) ==> ReadStatus(ms, e) == Read(e.(hasStatus := false))
    ensures Get(ms, "has_status") == Present(Bool(true)) && Get(ms, "status_success").Absent? ==>
              && (Get(ms, "error_code").Absent? ==> ReadStatus(ms, e) == Read(e.(hasStatus := true)))
              && (Get(ms, "error_code") == Present(Uint(65536)) ==> ReadStatus(ms, e) == Unreadable(BadField))
    ensures Get(ms, "has_status") == Present(Uint(1)) ==> ReadStatus(ms, e) == Unreadable(BadField)
  {
    hide Get;
  }
}
