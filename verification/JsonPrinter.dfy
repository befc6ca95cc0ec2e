/** The trace printer as the source runs it: text appended to one output string. */
module JsonPrinter {
  import opened Bits
  import opened Traces
  import opened Json
  import opened TraceJson

  /** json_escape. */
  method JsonEscape(s: Text) returns (out: Text)
    ensures out == Escape(s)
  {
    hide EscapeChar;
    out := [];
    var i := 0;
    while i < |s|
      invariant i <= |s| && out + Escape(s[i..]) == Escape(s)
    {
      assert s[i..][1..] == s[i + 1..];
      Append3(out, EscapeChar(s[i]), Escape(s[i + 1..]));
      out := out + EscapeChar(s[i]);
      i := i + 1;
    }
    assert s[i..] == [];
    assert out + [] == out;
  }

  lemma Append3(a: Text, b: Text, c: Text)
    ensures a + (b + c) == (a + b) + c
  {
  }

  lemma {:induction false} FieldsAppend(fs: seq<Field>, f: Field, sep: Text)
    ensures FieldsText(fs + [f], sep) ==
        if fs == [] then FieldText(f) else FieldsText(fs, sep) + "," + sep + FieldText(f)
  {
    hide FieldText;
    if fs == [] {
      assert fs + [f] == [f];
    } else if |fs| == 1 {
      assert (fs + [f])[1..] == [f] && (fs + [f])[0] == fs[0];
    } else {
      FieldsAppend(fs[1..], f, sep);
      assert (fs + [f])[1..] == fs[1..] + [f] && (fs + [f])[0] == fs[0];
      FieldsHead(fs, sep);
      FieldsHead(fs + [f], sep);
      Regroup(FieldText(fs[0]) + "," + sep, FieldsText(fs[1..], sep), "," , sep, FieldText(f));
    }
  }

  lemma FieldsHead(fs: seq<Field>, sep: Text)
    requires |fs| > 1
    ensures FieldsText(fs, sep) == FieldText(fs[0]) + "," + sep + FieldsText(fs[1..], sep)
  {
    hide FieldText;
  }

  lemma Regroup(a: Text, b: Text, c: Text, d: Text, e: Text)
    ensures a + (b + c + d + e) == (a + b) + c + d + e
  {
  }

  // Appends a field, after a comma and the separator unless it is the first.
  method Put(os: Text, first: bool, sep: Text, key: Text, text: Text, ghost open: Text, ghost fs: seq<Field>,
      ghost v: Layout)
    returns (r: Text)
    requires os == open + FieldsText(fs, sep) && first == (fs == []) && text == Render(v)
    ensures r == open + FieldsText(fs + [Field(key, v)], sep)
  {
    hide Render, FieldsText;
    FieldsAppend(fs, Field(key, v), sep);
    var f := "\"" + key + "\": " + text;
    if first {
      FieldsNone(sep);
      assert open + [] == open;
      r := os + f;
    } else {
      r := os + "," + sep + f;
      Regroup(open, FieldsText(fs, sep), ",", sep, f);
    }
  }

  lemma FieldsNone(sep: Text)
    ensures FieldsText([], sep) == []
  {
  }

  lemma Shapes(u: u64, b: bool)
    ensures Render(LUint(u)) == Dec(u) && Render(LBool(b)) == if b then "true" else "false"
  {
  }

  function U(key: Text, v: u64): Field { Field(key, LUint(v)) }

  method PutUint(os: Text, first: bool, key: Text, v: u64, ghost fs: seq<Field>) returns (r: Text)
    requires os == "{ " + FieldsText(fs, " ") && first == (fs == [])
    ensures r == "{ " + FieldsText(fs + [U(key, v)], " ")
  {
    hide FieldsText, Dec, Render;
    Shapes(v, true);
    r := Put(os, first, " ", key, Dec(v), "{ ", fs, LUint(v));
  }

  // Three numbers in a row.
  method PutThree(os: Text, first: bool, k1: Text, v1: u64, k2: Text, v2: u64, k3: Text, v3: u64,
      ghost fs: seq<Field>)
    returns (r: Text)
    requires os == "{ " + FieldsText(fs, " ") && first == (fs == [])
    ensures r == "{ " + FieldsText(fs + [U(k1, v1), U(k2, v2), U(k3, v3)], " ")
  {
    hide FieldsText, U;
    ghost var f1 := fs + [U(k1, v1)];
    ghost var f2 := f1 + [U(k2, v2)];
    r := PutUint(os, first, k1, v1, fs);
    r := PutUint(r, false, k2, v2, f1);
    r := PutUint(r, false, k3, v3, f2);
    assert f2 + [U(k3, v3)] == fs + [U(k1, v1), U(k2, v2), U(k3, v3)];
  }

  ghost function Nine(e: Entry): seq<Field>
  {
    [U("seq", e.seqNo), U("step", e.step), U("op", e.op)] +
        [U("id", e.id), U("size", e.size), U("alignment", e.alignment)]
    + [U("domain", e.domain), U("worker", e.worker), U("tag", e.tag)]
  }

  lemma FieldsAre(e: Entry)
    ensures EntryFields(e) == Nine(e) + [Field("has_status", LBool(e.hasStatus))]
         + if e.hasStatus then [Field("status_success", LBool(e.statusSuccess)), U("error_code", e.errorCode)] else []
  {
  }

  method NineToJson(e: Entry) returns (os: Text)
    ensures os == "{ " + FieldsText(Nine(e), " ")
  {
    hide FieldsText, U;
    FieldsNone(" ");
    os := "{ ";
    ghost var f1 := [U("seq", e.seqNo), U("step", e.step), U("op", e.op)];
    ghost var f2 := f1 + [U("id", e.id), U("size", e.size), U("alignment", e.alignment)];
    assert os + [] == os;
    os := PutThree(os, true, "seq", e.seqNo, "step", e.step, "op", e.op, []);
    assert [] + f1 == f1;
    os := PutThree(os, false, "id", e.id, "size", e.size, "alignment", e.alignment, f1);
    os := PutThree(os, false, "domain", e.domain, "worker", e.worker, "tag", e.tag, f2);
  }

  /** One entry of the array. */
  method EntryToJson(e: Entry) returns (os: Text)
    ensures os == Render(EntryLayout(e))
  {
    hide Render, FieldsText, Nine, EntryFields, U, EntryLayout;
    os := NineToJson(e);
    FieldsAre(e);
    ghost var fs := Nine(e);
    NineMany(e);
    Shapes(0, e.hasStatus);
    os := Put(os, false, " ", "has_status", if e.hasStatus then "true" else "false", "{ ", fs, LBool(e.hasStatus));
    fs := fs + [Field("has_status", LBool(e.hasStatus))];
    if e.hasStatus {
      Shapes(0, e.statusSuccess);
      os := Put(os, false, " ", "status_success",
          if e.statusSuccess then "true" else "false", "{ ", fs, LBool(e.statusSuccess));
      ghost var f2 := fs + [Field("status_success", LBool(e.statusSuccess))];
      os := PutUint(os, false, "error_code", e.errorCode, f2);
      assert f2 + [U("error_code", e.errorCode)]
          == fs + [Field("status_success", LBool(e.statusSuccess)), U("error_code", e.errorCode)];
    } else {
      assert fs + [] == fs;
    }
    EntryShape(e, os);
    os := os + " }";
  }

  lemma NineMany(e: Entry)
    ensures Nine(e) != []
  {
  }

  lemma EntryShape(e: Entry, os: Text)
    requires os == "{ " + FieldsText(EntryFields(e), " ")
    ensures Render(EntryLayout(e)) == os + " }"
  {
    hide FieldsText, EntryFields;
    EntryRender(e);
    assert Render(EntryLayout(e)) == "{" + " " + FieldsText(EntryFields(e), " ") + " " + "}";
    assert "{" + " " == "{ " && " " + "}" == " }";
  }

  lemma EntryRender(e: Entry)
    ensures Render(EntryLayout(e)) == "{" + " " + FieldsText(EntryFields(e), " ") + " " + "}"
  {
    hide FieldsText, EntryFields;
  }

  // ---- the whole document ----

  /** The lines of the entries from i on, as the loop writes them. */
  ghost function Lines(es: seq<Entry>, i: nat): Text
    requires i <= |es|
    decreases |es| - i
  {
    if i == |es| then []
    else "    " + Render(EntryLayout(es[i])) + (if i + 1 < |es| then "," else []) + "\n" + Lines(es, i + 1)
  }

  lemma {:induction false} LinesAre(es: seq<Entry>, i: nat)
    requires i < |es|
    ensures Lines(es, i) == "    " + ItemsText(EntryLayouts(es[i..]), "\n    ") + "\n"
    decreases |es| - i
  {
    hide Render, EntryLayout;
    LayoutsHead(es, i);
    if i + 1 < |es| {
      LinesAre(es, i + 1);
      LayoutsHead(es, i + 1);
      ItemsHead(EntryLayouts(es[i..]), "\n    ");
      Weave(Render(EntryLayout(es[i])), ItemsText(EntryLayouts(es[i + 1..]), "\n    "));
    } else {
      assert es[i + 1..] == [];
      ItemsOne(EntryLayout(es[i]), "\n    ");
      assert "    " + Render(EntryLayout(es[i])) + [] + "\n" + [] == "    " + Render(EntryLayout(es[i])) + "\n";
    }
  }

  lemma LayoutsHead(es: seq<Entry>, i: nat)
    requires i < |es|
    ensures EntryLayouts(es[i..]) == [EntryLayout(es[i])] + EntryLayouts(es[i + 1..])
  {
    hide EntryLayout;
    assert es[i..][1..] == es[i + 1..];
  }

  lemma ItemsHead(items: seq<Layout>, sep: Text)
    requires |items| > 1
    ensures ItemsText(items, sep) == Render(items[0]) + "," + sep + ItemsText(items[1..], sep)
  {
    hide Render;
  }

  lemma ItemsOne(p: Layout, sep: Text)
    ensures ItemsText([p], sep) == Render(p)
  {
    hide Render;
  }

  lemma Weave(a: Text, b: Text)
    ensures "    " + a + "," + "\n" + ("    " + b + "\n") == "    " + (a + "," + "\n    " + b) + "\n"
  {
    assert "\n" + "    " == "\n    ";
    assert "    " + a + "," + "\n" + ("    " + b + "\n") == "    " + a + "," + ("\n" + "    ") + b + "\n";
  }

  /** The array of entries, one line for each. */
  method EntriesToJson(es: seq<Entry>) returns (os: Text)
    ensures os == Render(EntriesLayout(es))
  {
    hide Render, EntryLayout, EntriesLayout;
    os := "[\n";
    var i := 0;
    while i < |es|
      invariant i <= |es| && os + Lines(es, i) == "[\n" + Lines(es, 0)
    {
      var line := EntryToJson(es[i]);
      LineStep(os, es, i);
      os := os + "    " + line;
      if i + 1 < |es| { os := os + ","; }
      os := os + "\n";
      i := i + 1;
    }
    assert os + [] == os;
    EntriesText(es);
    os := os + "  ]";
  }

  /** trace_to_json: four fields on lines of their own. */
  method TraceToJson(t: Trace) returns (os: Text)
    ensures os == ToJson(t)
  {
    hide Dec, Escape, Render, ToJson, FieldsText, EntriesLayout, TraceLayout;
    FieldsNone("\n  ");
    os := "{\n  ";
    assert os + [] == os;
    ghost var f1 := [Field("version", LUint(t.version))];
    ghost var f2 := f1 + [Field("seed", LUint(t.seed))];
    ghost var f3 := f2 + [Field("name", LStr(t.name))];
    Shapes(t.version, true);
    os := Put(os, true, "\n  ", "version", Dec(t.version), "{\n  ", [], LUint(t.version));
    assert [] + f1 == f1;
    Shapes(t.seed, true);
    os := Put(os, false, "\n  ", "seed", Dec(t.seed), "{\n  ", f1, LUint(t.seed));
    var name := JsonEscape(t.name);
    Quoted(t.name);
    os := Put(os, false, "\n  ", "name", "\"" + name + "\"", "{\n  ", f2, LStr(t.name));
    var entries := EntriesToJson(t.entries);
    os := Put(os, false, "\n  ", "entries", entries, "{\n  ", f3, EntriesLayout(t.entries));
    assert f3 + [Field("entries", EntriesLayout(t.entries))] == TraceFields(t);
    Document(t, os);
    os := os + "\n}\n";
  }

  lemma Quoted(s: Text)
    ensures Render(LStr(s)) == "\"" + Escape(s) + "\""
  {
    hide Escape;
  }

  lemma Document(t: Trace, os: Text)
    requires os == "{\n  " + FieldsText(TraceFields(t), "\n  ")
    ensures ToJson(t) == os + "\n}\n"
  {
    hide FieldsText, TraceFields;
    var x := FieldsText(TraceFields(t), "\n  ");
    TopRender(t);
    assert "{" + "\n  " == "{\n  ";
    assert os + "\n" + "}" + "\n" == os + ("\n" + "}" + "\n");
    assert "\n" + "}" + "\n" == "\n}\n";
  }

  lemma TopRender(t: Trace)
    ensures ToJson(t) == "{" + "\n  " + FieldsText(TraceFields(t), "\n  ") + "\n" + "}" + "\n"
  {
    hide FieldsText, TraceFields;
  }

  lemma LineStep(os: Text, es: seq<Entry>, i: nat)
    requires i < |es|
    ensures var o := os + "    " + Render(EntryLayout(es[i]));
            var p := if i + 1 < |es| then o + "," else o;
            (p + "\n") + Lines(es, i + 1) == os + Lines(es, i)
  {
    hide Render, EntryLayout;
    var comma := if i + 1 < |es| then "," else [];
    assert os + ("    " + Render(EntryLayout(es[i])) + comma + "\n" + Lines(es, i + 1))
        == (os + "    " + Render(EntryLayout(es[i])) + comma + "\n") + Lines(es, i + 1);
    assert os + "    " + Render(EntryLayout(es[i])) + [] == os + "    " + Render(EntryLayout(es[i]));
  }

  lemma EntriesText(es: seq<Entry>)
    ensures Render(EntriesLayout(es)) == "[\n" + Lines(es, 0) + "  ]"
  {
    hide EntryLayout, ItemsText, EntryLayouts;
    if es == [] {
      EmptyText();
    } else {
      LinesAre(es, 0);
      assert es[0..] == es;
      ArrayRender(es);
      FrameText(ItemsText(EntryLayouts(es), "\n    "));
    }
  }

  lemma EmptyText()
    ensures Render(EntriesLayout([])) == "[\n" + [] + "  ]"
  {
    assert Render(EntriesLayout([])) == "[" + "\n" + [] + "  " + "]";
  }

  lemma ArrayRender(es: seq<Entry>)
    requires es != []
    ensures Render(EntriesLayout(es)) == "[" + "\n    " + ItemsText(EntryLayouts(es), "\n    ") + "\n  " + "]"
  {
    hide ItemsText, EntryLayouts;
  }

  lemma FrameText(x: Text)
    ensures "[" + "\n    " + x + "\n  " + "]" == "[\n" + ("    " + x + "\n") + "  ]"
  {
    var l := "[" + "\n    " + x;
    assert "[" + "\n    " == "[\n" + "    ";
    assert l == "[\n" + ("    " + x);
    assert "\n  " + "]" == "\n" + "  ]";
    assert l + "\n  " + "]" == l + ("\n  " + "]");
    assert "[\n" + ("    " + x + "\n") + "  ]" == l + ("\n" + "  ]");
  }
}
