/** The JSON trace format (trace.cpp): the printer's layout, the field-by-field reader, and
    exactly when reading undoes printing. */
module TraceJson {
  import opened Bits
  import opened Traces
  import opened Json

  // ---- printing ----

  function EntryFields(e: Entry): seq<Field>
  {
    [ Field("seq", LUint(e.seqNo)), Field("step", LUint(e.step)), Field("op", LUint(e.op)),
      Field("id", LUint(e.id)), Field("size", LUint(e.size)), Field("alignment", LUint(e.alignment)),
      Field("domain", LUint(e.domain)), Field("worker", LUint(e.worker)), Field("tag", LUint(e.tag)),
      Field("has_status", LBool(e.hasStatus)) ]
    + if e.hasStatus then
        [ Field("status_success", LBool(e.statusSuccess)), Field("error_code", LUint(e.errorCode)) ]
      else []
  }

  // One line per entry.
  function EntryLayout(e: Entry): Layout { LObj(EntryFields(e), " ", " ", " ") }

  function EntryLayouts(es: seq<Entry>): seq<Layout>
  {
    if es == [] then [] else [EntryLayout(es[0])] + EntryLayouts(es[1..])
  }

  function EntriesLayout(es: seq<Entry>): Layout
  {
    if es == [] then LArr([], "\n", "", "  ") else LArr(EntryLayouts(es), "\n    ", "\n    ", "\n  ")
  }

  function TraceFields(t: Trace): seq<Field>
  {
    [ Field("version", LUint(t.version)), Field("seed", LUint(t.seed)), Field("name", LStr(t.name)),
      Field("entries", EntriesLayout(t.entries)) ]
  }

  function TraceLayout(t: Trace): Layout { LObj(TraceFields(t), "\n  ", "\n  ", "\n") }

  function ToJson(t: Trace): Text { Render(TraceLayout(t)) + "\n" }

  // ---- reading ----

  datatype Lookup = Present(value: Json) | Absent

  /** The first member with the key. */
  function Get(ms: seq<Member>, key: Text): Lookup
    decreases |ms|
  {
    if ms == [] then Absent
    else if ms[0].key == key then Present(ms[0].value)
    else Get(ms[1..], key)
  }

  // A required unsigned field.
  predicate HasUint(ms: seq<Member>, key: Text) { Get(ms, key).Present? && Get(ms, key).value.Uint? }

  function UintAt(ms: seq<Member>, key: Text): u64
    requires HasUint(ms, key)
  {
    Get(ms, key).value.u
  }

  datatype EntryRead = Read(e: Entry) | Unreadable(why: Reason)

  /** The optional status fields; they are looked at only when `has_status` is true. */
  function ReadStatus(ms: seq<Member>, e: Entry): EntryRead
  {
    var hs := Get(ms, "has_status");
    if hs.Present? && !hs.value.Bool? then Unreadable(BadField)
    else
      var e1 := e.(hasStatus := hs.Present? && hs.value.b);
      if !e1.hasStatus then Read(e1)
      else
        var ss, ec := Get(ms, "status_success"), Get(ms, "error_code");
        if ss.Present? && !ss.value.Bool? then Unreadable(BadField)
        else if ec.Present? && (!ec.value.Uint? || ec.value.u > 65535) then Unreadable(BadField)
        else Read(e1.(statusSuccess := ss.Present? && ss.value.b, errorCode := if ec.Present? then ec.value.u else 0))
  }

  /** Operation, domain, worker and tag pass through a 32-bit int; a value whose low 32 bits
      read as a negative int is out of range for operation and domain. */
  function ReadEntry(j: Json): EntryRead
  {
    if !j.Obj? then Unreadable(BadField)
    else
      var ms := j.members;
      if !HasUint(ms, "seq") || !HasUint(ms, "step") then Unreadable(BadField)
      else if !HasUint(ms, "op") || UintAt(ms, "op") % WORD32 > 6 then Unreadable(BadOp)
      else if !HasUint(ms, "id") || !HasUint(ms, "size") || !HasUint(ms, "alignment") then Unreadable(BadField)
      else if !HasUint(ms, "domain") || UintAt(ms, "domain") % WORD32 > 5 then Unreadable(BadDomain)
      else if !HasUint(ms, "worker") || !HasUint(ms, "tag") then Unreadable(BadField)
      else
        ReadStatus(ms, Entry.Entry(UintAt(ms, "seq"), UintAt(ms, "step"), UintAt(ms, "op") % WORD32,
          UintAt(ms, "id"), UintAt(ms, "size"), UintAt(ms, "alignment"), UintAt(ms, "domain") % WORD32,
          UintAt(ms, "worker") % WORD32, UintAt(ms, "tag") % WORD32, false, false, 0))
  }

  datatype EntriesRead = Entries(es: seq<Entry>) | BadEntry(why: Reason)

  function ReadEntries(items: seq<Json>): EntriesRead
    decreases |items|
  {
    if items == [] then Entries([])
    else match ReadEntry(items[0])
      case Unreadable(why) => BadEntry(why)
      case Read(e) =>
        match ReadEntries(items[1..])
        case Entries(es) => Entries([e] + es)
        case BadEntry(why) => BadEntry(why)
  }

  function ReadTrace(root: Json): Decoded
  {
    if !root.Obj? then Error(Malformed(NotAnObject))
    else
      var ms := root.members;
      var seed, name, entries := Get(ms, "seed"), Get(ms, "name"), Get(ms, "entries");
      if !HasUint(ms, "version") then Error(Malformed(BadField))
      else if UintAt(ms, "version") != TRACE_VERSION then Error(Rejected(UnsupportedVersion))
      else if seed.Present? && !seed.value.Uint? then Error(Malformed(BadField))
      else if name.Present? && !name.value.Str? then Error(Malformed(BadField))
      else if entries.Absent? || !entries.value.Arr? then Error(Malformed(BadField))
      else match ReadEntries(entries.value.items)
        case BadEntry(why) => Error(Malformed(why))
        case Entries(es) =>
          var t := Trace(TRACE_VERSION, if seed.Present? then seed.value.u else 0,
                         if name.Present? then name.value.s else [], es);
          if CheckTrace(t) == Accepted then Ok(t) else Error(CheckTrace(t))
  }

  function FromJson(text: Text, stod: Stod): Decoded
  {
    match ParseDocument(text, stod)
    case Bad => Error(Malformed(NotAnObject))
    case Got(root, _) => ReadTrace(root)
  }

  // ---- round trip ----

  /** Status fields are printed only for entries that have a status. */
  predicate StatusPrinted(e: Entry) { e.hasStatus || (!e.statusSuccess && e.errorCode == 0) }

  // The entry as it reads back.
  function Printed(e: Entry): Entry { if e.hasStatus then e else e.(statusSuccess := false, errorCode := 0) }

  function PrintedAll(es: seq<Entry>): seq<Entry>
  {
    if es == [] then [] else [Printed(es[0])] + PrintedAll(es[1..])
  }

  lemma {:induction false} MembersAppend(fs: seq<Field>, gs: seq<Field>)
    ensures Members(fs + gs) == Members(fs) + Members(gs)
    decreases |fs|
  {
    if fs == [] {
      assert fs + gs == gs;
    } else {
      assert (fs + gs)[0] == fs[0] && (fs + gs)[1..] == fs[1..] + gs;
      MembersAppend(fs[1..], gs);
    }
  }

  function M(key: Text, v: Json): Member { Member(key, v) }

  lemma EntryMembers(e: Entry)
    ensures Members(EntryFields(e)) ==
      [ M("seq", Uint(e.seqNo)), M("step", Uint(e.step)), M("op", Uint(e.op)), M("id", Uint(e.id)),
        M("size", Uint(e.size)), M("alignment", Uint(e.alignment)), M("domain", Uint(e.domain)),
        M("worker", Uint(e.worker)), M("tag", Uint(e.tag)), M("has_status", Bool(e.hasStatus)) ]
      + if e.hasStatus then [ M("status_success", Bool(e.statusSuccess)), M("error_code", Uint(e.errorCode)) ] else []
  {
    var fs := EntryFields(e);
    MembersIndexed(fs);
  }

  lemma {:induction false} MembersIndexed(fs: seq<Field>)
    ensures |Members(fs)| == |fs|
    ensures forall i :: 0 <= i < |fs| ==> Members(fs)[i] == Member(fs[i].key, Value(fs[i].value))
    decreases |fs|
  {
    if fs != [] { MembersIndexed(fs[1..]); }
  }

  /** Looking up the i-th key when the earlier keys differ. */
  lemma {:induction false} GetAt(ms: seq<Member>, i: nat)
    requires i < |ms| && forall j :: 0 <= j < i ==> ms[j].key != ms[i].key
    ensures Get(ms, ms[i].key) == Present(ms[i].value)
    decreases i
  {
    if i > 0 {
      assert ms[1..][i - 1] == ms[i];
      GetAt(ms[1..], i - 1);
    }
  }

  lemma EntryLookups(e: Entry, ms: seq<Member>)
    requires ms == Members(EntryFields(e))
    ensures Get(ms, "seq") == Present(Uint(e.seqNo)) && Get(ms, "step") == Present(Uint(e.step))
    ensures Get(ms, "op") == Present(Uint(e.op)) && Get(ms, "id") == Present(Uint(e.id))
    ensures Get(ms, "size") == Present(Uint(e.size)) && Get(ms, "alignment") == Present(Uint(e.alignment))
  {
    EntryMembers(e);
    hide Get, Members, EntryFields;
    assert ms[0].key == "seq" && ms[1].key == "step" && ms[2].key == "op" && ms[3].key == "id";
    assert ms[4].key == "size" && ms[5].key == "alignment";
    GetAt(ms, 0);
    GetAt(ms, 1);
    GetAt(ms, 2);
    GetAt(ms, 3);
    GetAt(ms, 4);
    GetAt(ms, 5);
  }

  lemma MoreLookups(e: Entry, ms: seq<Member>)
    requires ms == Members(EntryFields(e))
    ensures Get(ms, "domain") == Present(Uint(e.domain)) && Get(ms, "worker") == Present(Uint(e.worker))
    ensures Get(ms, "tag") == Present(Uint(e.tag)) && Get(ms, "has_status") == Present(Bool(e.hasStatus))
  {
    EntryMembers(e);
    hide Get, Members, EntryFields;
    assert ms[0].key == "seq" && ms[1].key == "step" && ms[2].key == "op" && ms[3].key == "id";
    assert ms[4].key == "size" && ms[5].key == "alignment" && ms[6].key == "domain" && ms[7].key == "worker";
    assert ms[8].key == "tag" && ms[9].key == "has_status";
    GetAt(ms, 6);
    GetAt(ms, 7);
    GetAt(ms, 8);
    GetAt(ms, 9);
  }

  lemma StatusLookups(e: Entry, ms: seq<Member>)
    requires ms == Members(EntryFields(e)) && e.hasStatus
    ensures Get(ms, "status_success") == Present(Bool(e.statusSuccess))
    ensures Get(ms, "error_code") == Present(Uint(e.errorCode))
  {
    EntryMembers(e);
    hide Get, Members, EntryFields;
    assert ms[0].key == "seq" && ms[1].key == "step" && ms[2].key == "op" && ms[3].key == "id";
    assert ms[4].key == "size" && ms[5].key == "alignment" && ms[6].key == "domain" && ms[7].key == "worker";
    assert ms[8].key == "tag" && ms[9].key == "has_status";
    assert ms[10].key == "status_success" && ms[11].key == "error_code";
    GetAt(ms, 10);
    GetAt(ms, 11);
  }

  lemma EntryReadBack(e: Entry)
    requires e.op <= PHASE_MARKER && e.domain <= MAPPED
    ensures ReadEntry(Value(EntryLayout(e))) == Read(Printed(e))
  {
    hide Get, Members, EntryFields;
    var ms := Members(EntryFields(e));
    EntryLookups(e, ms);
    MoreLookups(e, ms);
    if e.hasStatus { StatusLookups(e, ms); }
  }

  lemma {:induction false} EntriesReadBack(es: seq<Entry>)
    requires forall i :: 0 <= i < |es| ==> es[i].op <= PHASE_MARKER && es[i].domain <= MAPPED
    ensures ReadEntries(Values(EntryLayouts(es))) == Entries(PrintedAll(es))
    decreases |es|
  {
    hide ReadEntry, EntryLayout;
    if es != [] {
      var ls := EntryLayouts(es);
      assert ls[0] == EntryLayout(es[0]) && ls[1..] == EntryLayouts(es[1..]);
      var js := Values(ls);
      assert js[0] == Value(ls[0]) && js[1..] == Values(ls[1..]);
      EntryReadBack(es[0]);
      EntriesReadBack(es[1..]);
    }
  }

  // Printing changes nothing the validator looks at.
  lemma {:induction false} PrintedChecks(live: map<u64, u64>, es: seq<Entry>)
    ensures CheckFrom(live, PrintedAll(es)) == CheckFrom(live, es)
    decreases |es|
  {
    hide IsPowerOfTwo;
    if es != [] {
      assert PrintedAll(es)[1..] == PrintedAll(es[1..]);
      PrintedChecks(Next(live, es[0]), es[1..]);
    }
  }

  lemma {:induction false} PrintedSame(es: seq<Entry>)
    ensures PrintedAll(es) == es <==> forall i :: 0 <= i < |es| ==> StatusPrinted(es[i])
    decreases |es|
  {
    if es != [] {
      PrintedSame(es[1..]);
      assert PrintedAll(es)[0] == Printed(es[0]) && PrintedAll(es)[1..] == PrintedAll(es[1..]);
      assert PrintedAll(es) == es <==> Printed(es[0]) == es[0] && PrintedAll(es[1..]) == es[1..] by {
        assert es == [es[0]] + es[1..];
      }
      assert Printed(es[0]) == es[0] <==> StatusPrinted(es[0]);
      AllPrinted(es);
    }
  }

  lemma AllPrinted(es: seq<Entry>)
    requires es != []
    ensures (forall i :: 0 <= i < |es| ==> StatusPrinted(es[i]))
       <==> StatusPrinted(es[0]) && forall i :: 0 <= i < |es[1..]| ==> StatusPrinted(es[1..][i])
  {
    var tail := es[1..];
    if StatusPrinted(es[0]) && forall i :: 0 <= i < |tail| ==> StatusPrinted(tail[i]) {
      forall i | 0 <= i < |es| ensures StatusPrinted(es[i]) { assert i > 0 ==> es[i] == tail[i - 1]; }
    }
    if forall i :: 0 <= i < |es| ==> StatusPrinted(es[i]) {
      forall i | 0 <= i < |tail| ensures StatusPrinted(tail[i]) { assert tail[i] == es[i + 1]; }
    }
  }

  lemma TraceLookups(t: Trace, ms: seq<Member>)
    requires ms == Members(TraceFields(t))
    ensures Get(ms, "version") == Present(Uint(t.version)) && Get(ms, "seed") == Present(Uint(t.seed))
    ensures Get(ms, "name") == Present(Str(t.name))
    ensures Get(ms, "entries") == Present(Value(EntriesLayout(t.entries)))
  {
    MembersIndexed(TraceFields(t));
    hide Get, Members, EntriesLayout;
    assert ms[0].key == "version" && ms[1].key == "seed" && ms[2].key == "name" && ms[3].key == "entries";
    GetAt(ms, 0);
    GetAt(ms, 1);
    GetAt(ms, 2);
    GetAt(ms, 3);
  }

  lemma TraceReadBack(t: Trace)
    requires Valid(t)
    ensures ReadTrace(Value(TraceLayout(t))) == Ok(t.(entries := PrintedAll(t.entries)))
  {
    hide Get, Members, TraceFields, ReadEntries, EntryLayouts, CheckFrom;
    var ms := Members(TraceFields(t));
    TraceLookups(t, ms);
    CheckedRanges(map[], t.entries);
    EntriesReadBack(t.entries);
    PrintedChecks(map[], t.entries);
    assert Value(EntriesLayout(t.entries)) == Arr(Values(EntryLayouts(t.entries))) by { EntriesValue(t.entries); }
  }

  lemma EntriesValue(es: seq<Entry>)
    ensures Value(EntriesLayout(es)) == Arr(Values(EntryLayouts(es)))
  {
    hide EntryLayout;
  }

  lemma {:induction false} EntriesReadable(es: seq<Entry>)
    ensures forall i :: 0 <= i < |EntryLayouts(es)| ==> Readable(EntryLayouts(es)[i])
    decreases |es|
  {
    if es != [] {
      EntriesReadable(es[1..]);
      EntryReadable(es[0]);
    }
  }

  lemma EntryReadable(e: Entry)
    ensures Readable(EntryLayout(e))
  {
    hide PlainKey;
    KeysPlain();
    var fs := EntryFields(e);
    forall i | 0 <= i < |fs| ensures PlainKey(fs[i].key) && Readable(fs[i].value) { FieldReadable(e, i); }
  }

  lemma KeysPlain()
    ensures PlainKey("seq") && PlainKey("step") && PlainKey("op") && PlainKey("id") && PlainKey("size")
    ensures PlainKey("alignment") && PlainKey("domain") && PlainKey("worker") && PlainKey("tag")
    ensures PlainKey("has_status") && PlainKey("status_success") && PlainKey("error_code")
  {
  }

  lemma FieldReadable(e: Entry, i: nat)
    requires i < |EntryFields(e)|
    ensures PlainKey(EntryFields(e)[i].key) && (EntryFields(e)[i].value.LUint? || EntryFields(e)[i].value.LBool?)
  {
    hide PlainKey;
    KeysPlain();
  }

  lemma TraceReadable(t: Trace)
    ensures Readable(TraceLayout(t)) <==> NameOk(t.name)
  {
    hide EntryLayouts;
    EntriesReadable(t.entries);
    assert Readable(EntriesLayout(t.entries));
    var fs := TraceFields(t);
    assert Readable(fs[0].value) && Readable(fs[1].value) && Readable(fs[3].value);
    assert fs[2].value == LStr(t.name);
    assert PlainKey("version") && PlainKey("seed") && PlainKey("name") && PlainKey("entries");
  }

  lemma DocumentRoundTrip(t: Trace, stod: Stod)
    requires NameOk(t.name)
    ensures ParseDocument(ToJson(t), stod) == Got(Value(TraceLayout(t)), [])
  {
    hide Render, ParseValue, TraceLayout, NameOk, Readable;
    TraceReadable(t);
    ValueRoundTrip(TraceLayout(t), "\n", stod);
    TextHead(TraceLayout(t));
    SkipNone(ToJson(t));
  }

  /** A name with any other control character makes the printed trace unreadable: it is
      escaped as a backslash, `u` and four digits, which the string parser rejects. */
  lemma BadNameUnreadable(t: Trace, stod: Stod)
    requires !NameOk(t.name)
    ensures ParseDocument(ToJson(t), stod) == Bad
  {
    hide Render, ParseValue, ParseMembers, NameOk, SkipWs, FieldText, EntriesLayout;
    var fs := TraceFields(t);
    var lead, body := "\n  ", FieldsText(fs, "\n  ") + "\n" + "}" + "\n";
    var s := ToJson(t);
    assert s == "{" + (lead + body) by { ObjectText(fs, lead, lead, "\n"); }
    MembersBad(t, body, stod);
    assert s[1..] == lead + body;
    SkipNone(s);
    SkipBlank(lead, body);
    ObjectBody(fs, lead, "\n", "\n");
    BadObject(s, body, stod);
  }

  lemma ObjectText(fs: seq<Field>, open: Text, sep: Text, close: Text)
    ensures Render(LObj(fs, open, sep, close)) + "\n" == "{" + (open + (FieldsText(fs, sep) + close + "}" + "\n"))
  {
    hide FieldsText;
  }

  lemma BadObject(s: Text, body: Text, stod: Stod)
    requires s != [] && s[0] == '{' && SkipWs(s) == s && SkipWs(s[1..]) == body && body != [] && body[0] == '\"'
    requires ParseMembers(body, stod) == Bad
    ensures ParseDocument(s, stod) == Bad
  {
    hide ParseMembers, SkipWs;
    assert ParseObject(s, stod) == Bad;
    assert ParseValue(s, stod) == Bad;
  }

  lemma MembersBad(t: Trace, body: Text, stod: Stod)
    requires !NameOk(t.name) && body == FieldsText(TraceFields(t), "\n  ") + "\n" + "}" + "\n"
    ensures ParseMembers(body, stod) == Bad
  {
    hide ParseValue, ParseMembers, NameOk, SkipWs, FieldText, EntriesLayout;
    var fs := TraceFields(t);
    var sep := "\n  ";
    var tail := ",\n  " + FieldText(fs[3]) + "\n" + "}" + "\n";
    var third := FieldText(fs[2]) + tail;
    var second := FieldText(fs[1]) + ("," + (sep + third));
    assert body == FieldText(fs[0]) + ("," + (sep + second)) by { FourFields(fs, sep, body, tail); }
    BadString(t.name, tail, stod);
    UnreadableField(fs[2], sep, tail, stod);
    NextField(fs[1], sep, sep + third, stod);
    NextField(fs[0], [], sep + second, stod);
    assert [] + body == body;
  }

  lemma FourFields(fs: seq<Field>, sep: Text, body: Text, tail: Text)
    requires |fs| == 4 && body == FieldsText(fs, sep) + "\n" + "}" + "\n" && sep == "\n  "
    requires tail == ",\n  " + FieldText(fs[3]) + "\n" + "}" + "\n"
    ensures body == FieldText(fs[0]) + ("," + (sep + (FieldText(fs[1]) + ("," + (sep + (FieldText(fs[2]) + tail))))))
  {
    hide FieldText;
    assert FieldsText(fs[3..], sep) == FieldText(fs[3]);
    assert fs[2..][1..] == fs[3..] && fs[1..][1..] == fs[2..];
    assert FieldsText(fs[2..], sep) == FieldText(fs[2]) + "," + sep + FieldText(fs[3]);
    assert FieldsText(fs[1..], sep) == FieldText(fs[1]) + "," + sep + FieldsText(fs[2..], sep);
    assert FieldsText(fs, sep) == FieldText(fs[0]) + "," + sep + FieldsText(fs[1..], sep);
  }

  // A readable numeric member before an unreadable rest.
  lemma NextField(f: Field, lead: Text, more: Text, stod: Stod)
    requires Blank(lead) && PlainKey(f.key) && f.value.LUint? && ParseMembers(more, stod) == Bad
    ensures ParseMembers(lead + (FieldText(f) + ("," + more)), stod) == Bad
  {
    hide ParseValue, ParseMembers, SkipWs, FieldText, Render, Blank, PlainKey;
    ScalarRoundTrip(f.value, "," + more, stod);
    FirstField(f, lead, "," + more, stod);
    SkipNone("," + more);
    assert ("," + more)[1..] == more;
  }

  /** Parsing the printed form of a valid trace gives the trace back exactly when its name has
      no control characters but newline, return and tab, and every entry without a status has
      the status fields at their defaults. */
  lemma JsonRoundTrip(t: Trace, stod: Stod)
    requires Valid(t)
    ensures FromJson(ToJson(t), stod) == Ok(t)
       <==> NameOk(t.name) && forall i :: 0 <= i < |t.entries| ==> StatusPrinted(t.entries[i])
  {
    hide ToJson, ReadTrace, ParseDocument, NameOk, TraceLayout;
    if NameOk(t.name) {
      DocumentRoundTrip(t, stod);
      TraceReadBack(t);
      PrintedSame(t.entries);
    } else {
      BadNameUnreadable(t, stod);
    }
  }
}
