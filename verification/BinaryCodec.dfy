/** The binary trace format (trace.cpp): little-endian fields, a length-prefixed name and
    68 bytes per entry. */
module BinaryCodec {
  import opened Bits
  import opened Traces

  type Bytes = seq<byte>

  const MAX_NAME: nat := 0x100_0000

  // ---- little-endian numbers ----

  function Le(v: nat, n: nat): (s: Bytes)
    ensures |s| == n
    decreases n
  {
    if n == 0 then [] else [v % 256] + Le(v / 256, n - 1)
  }

  function LeValue(s: Bytes): nat
    decreases |s|
  {
    if s == [] then 0 else s[0] + 256 * LeValue(s[1..])
  }

  function Pow256(n: nat): nat { if n == 0 then 1 else 256 * Pow256(n - 1) }

  lemma {:induction false} LeRoundTrip(v: nat, n: nat)
    requires v < Pow256(n)
    ensures LeValue(Le(v, n)) == v
    decreases n
  {
    if n > 0 {
      LeRoundTrip(v / 256, n - 1);
      assert Le(v, n)[1..] == Le(v / 256, n - 1);
    }
  }

  lemma {:induction false} LeInverse(s: Bytes)
    ensures LeValue(s) < Pow256(|s|) && Le(LeValue(s), |s|) == s
    decreases |s|
  {
    if s != [] {
      LeInverse(s[1..]);
      var v := LeValue(s[1..]);
      assert LeValue(s) == s[0] + 256 * v;
      assert LeValue(s) % 256 == s[0] && LeValue(s) / 256 == v;
      assert s == [s[0]] + s[1..];
    }
  }

  lemma Widths()
    ensures Pow256(4) == WORD32 && Pow256(8) == WORD
  {
    assert Pow256(2) == 0x1_0000;
    assert Pow256(4) == 0x1_0000_0000;
    assert Pow256(6) == 0x1_0000_0000_0000;
  }

  // A 32- or 64-bit field.
  function Get32(b: Bytes, p: nat): (v: u32)
    requires p + 4 <= |b|
  {
    Widths();
    LeInverse(b[p..p + 4]);
    LeValue(b[p..p + 4])
  }

  function Get64(b: Bytes, p: nat): (v: u64)
    requires p + 8 <= |b|
  {
    Widths();
    LeInverse(b[p..p + 8]);
    LeValue(b[p..p + 8])
  }

  // ---- specification: encoding ----

  function Flag(b: bool): u32 { if b then 1 else 0 }

  function NameBytes(s: Text): (b: Bytes)
    ensures |b| == |s|
  {
    seq(|s|, i requires 0 <= i < |s| => s[i] as int)
  }

  // seq, step, op, id, size, alignment
  function EncodeHead(e: Entry): (b: Bytes)
    ensures |b| == 44
  {
    Le(e.seqNo, 8) + Le(e.step, 8) + Le(e.op, 4) + Le(e.id, 8) + Le(e.size, 8) + Le(e.alignment, 8)
  }

  // domain, worker, tag and the status fields
  function EncodeTail(e: Entry): (b: Bytes)
    ensures |b| == 24
  {
    Le(e.domain, 4) + Le(e.worker, 4) + Le(e.tag, 4)
    + Le(Flag(e.hasStatus), 4) + Le(Flag(e.statusSuccess), 4) + Le(e.errorCode, 4)
  }

  function EncodeEntry(e: Entry): (b: Bytes)
    ensures |b| == 68
  {
    EncodeHead(e) + EncodeTail(e)
  }

  function EncodeEntries(es: seq<Entry>): (b: Bytes)
    ensures |b| == 68 * |es|
    decreases |es|
  {
    if es == [] then [] else EncodeEntry(es[0]) + EncodeEntries(es[1..])
  }

  // The length fields are cast to 32 bits.
  function Header(t: Trace): (b: Bytes)
    ensures |b| == 20
  {
    Le(TRACE_MAGIC, 4) + Le(t.version, 4) + Le(t.seed, 8) + Le(|t.name| % WORD32, 4)
  }

  function Encode(t: Trace): Bytes
  {
    Header(t) + NameBytes(t.name) + Le(|t.entries| % WORD32, 4) + EncodeEntries(t.entries)
  }

  // ---- specification: decoding ----

  function NameText(b: Bytes): (s: Text)
    ensures |s| == |b|
  {
    seq(|b|, i requires 0 <= i < |b| => b[i] as Char)
  }

  /** One entry at offset p. Operation and domain are cast to 16 bits, the flags to booleans,
      the error code saturates. */
  function DecodeEntry(b: Bytes, p: nat): Entry
    requires p + 68 <= |b|
  {
    var ec := Get32(b, p + 64);
    Entry.Entry(Get64(b, p), Get64(b, p + 8), Get32(b, p + 16) % WORD16, Get64(b, p + 20), Get64(b, p + 28),
                Get64(b, p + 36), Get32(b, p + 44) % WORD16, Get32(b, p + 48), Get32(b, p + 52),
                Get32(b, p + 56) != 0, Get32(b, p + 60) != 0, if ec > 65535 then 65535 else ec)
  }

  datatype Entries = Parsed(entries: seq<Entry>) | Stopped(why: Verdict)

  function DecodeEntries(b: Bytes, p: nat, count: nat): Entries
    requires p <= |b|
    decreases count
  {
    if count == 0 then (if p == |b| then Parsed([]) else Stopped(Malformed(TrailingBytes)))
    else if p + 68 > |b| then Stopped(Malformed(Truncated))
    else
      var e := DecodeEntry(b, p);
      if e.op > PHASE_MARKER then Stopped(Malformed(BadOp))
      else if e.domain > MAPPED then Stopped(Malformed(BadDomain))
      else match DecodeEntries(b, p + 68, count - 1)
        case Parsed(es) => Parsed([e] + es)
        case Stopped(why) => Stopped(why)
  }

  function DecodeBody(b: Bytes, seed: u64, name: Text, p: nat): Decoded
    requires p + 4 <= |b|
  {
    match DecodeEntries(b, p + 4, Get32(b, p))
    case Stopped(why) => Error(why)
    case Parsed(es) =>
      var t := Trace(TRACE_VERSION, seed, name, es);
      if CheckTrace(t) == Accepted then Ok(t) else Error(CheckTrace(t))
  }

  function Decode(b: Bytes): Decoded
  {
    if |b| < 4 || Get32(b, 0) != TRACE_MAGIC then Error(Malformed(BadMagic))
    else if |b| < 8 then Error(Malformed(Truncated))
    else if Get32(b, 4) != TRACE_VERSION then Error(Rejected(UnsupportedVersion))
    else if |b| < 20 then Error(Malformed(Truncated))
    else
      var n := Get32(b, 16);
      if 20 + n > |b| then Error(Malformed(Truncated))
      else if n > MAX_NAME then Error(Malformed(OversizedName))
      else if 24 + n > |b| then Error(Malformed(Truncated))
      else DecodeBody(b, Get64(b, 8), NameText(b[20..20 + n]), 20 + n)
  }

  // ---- the encoder and decoder as the source runs them ----

  method PutLe(out: Bytes, v: nat, n: nat) returns (r: Bytes)
    ensures r == out + Le(v, n)
  {
    r := out;
    var w, i := v, 0;
    while i < n
      invariant i <= n && r + Le(w, n - i) == out + Le(v, n)
    {
      r := r + [w % 256];
      w := w / 256;
      i := i + 1;
      assert r + Le(w, n - i) == r[..|r| - 1] + ([r[|r| - 1]] + Le(w, n - i));
    }
  }

  method PutHead(out: Bytes, e: Entry) returns (r: Bytes)
    ensures r == out + EncodeHead(e)
  {
    hide Le;
    r := PutLe(out, e.seqNo, 8);
    r := PutLe(r, e.step, 8);
    r := PutLe(r, e.op, 4);
    r := PutLe(r, e.id, 8);
    r := PutLe(r, e.size, 8);
    r := PutLe(r, e.alignment, 8);
  }

  method PutTail(out: Bytes, e: Entry) returns (r: Bytes)
    ensures r == out + EncodeTail(e)
  {
    hide Le;
    r := PutLe(out, e.domain, 4);
    r := PutLe(r, e.worker, 4);
    r := PutLe(r, e.tag, 4);
    r := PutLe(r, Flag(e.hasStatus), 4);
    r := PutLe(r, Flag(e.statusSuccess), 4);
    r := PutLe(r, e.errorCode, 4);
  }

  method PutEntry(out: Bytes, e: Entry) returns (r: Bytes)
    ensures r == out + EncodeEntry(e)
  {
    hide EncodeHead, EncodeTail;
    r := PutHead(out, e);
    r := PutTail(r, e);
  }

  method TraceToBinary(t: Trace) returns (r: Bytes)
    ensures r == Encode(t)
  {
    hide Le, EncodeEntry;
    r := PutLe([], TRACE_MAGIC, 4);
    r := PutLe(r, t.version, 4);
    r := PutLe(r, t.seed, 8);
    r := PutLe(r, |t.name| % WORD32, 4);
    assert r == Header(t);
    r := r + NameBytes(t.name);
    r := PutLe(r, |t.entries| % WORD32, 4);
    r := PutEntries(r, t.entries);
  }

  method PutEntries(out: Bytes, es: seq<Entry>) returns (r: Bytes)
    ensures r == out + EncodeEntries(es)
  {
    hide EncodeEntry, EncodeEntries;
    r := out;
    EntriesStart(es);
    for i := 0 to |es|
      invariant r == out + EncodeEntries(es[..i])
    {
      EntriesSnoc(es[..i], es[i]);
      assert es[..i] + [es[i]] == es[..i + 1];
      r := PutEntry(r, es[i]);
    }
    assert es[..|es|] == es;
  }

  lemma EntriesStart(es: seq<Entry>)
    ensures EncodeEntries(es[..0]) == []
  {
  }

  lemma {:induction false} EntriesSnoc(es: seq<Entry>, e: Entry)
    ensures EncodeEntries(es + [e]) == EncodeEntries(es) + EncodeEntry(e)
    decreases |es|
  {
    hide EncodeEntry;
    if es == [] {
      assert ([e])[1..] == [] && es + [e] == [e];
    } else {
      assert (es + [e])[0] == es[0] && (es + [e])[1..] == es[1..] + [e];
      EntriesSnoc(es[1..], e);
    }
  }

  /** Little-endian bytes combined from the highest down to the lowest. */
  method ReadLe(b: Bytes, p: nat, n: nat) returns (v: nat)
    requires p + n <= |b|
    ensures v == LeValue(b[p..p + n])
  {
    v := 0;
    var i := n;
    while i > 0
      invariant 0 <= i <= n && v == LeValue(b[p + i..p + n])
    {
      i := i - 1;
      assert b[p + i..p + n][1..] == b[p + i + 1..p + n];
      v := b[p + i] + 256 * v;
    }
  }

  method Read32(b: Bytes, p: nat) returns (v: u32)
    requires p + 4 <= |b|
    ensures v == Get32(b, p)
  {
    hide LeValue;
    var x := ReadLe(b, p, 4);
    assert x == Get32(b, p);
    v := x;
  }

  method Read64(b: Bytes, p: nat) returns (v: u64)
    requires p + 8 <= |b|
    ensures v == Get64(b, p)
  {
    hide LeValue;
    var x := ReadLe(b, p, 8);
    assert x == Get64(b, p);
    v := x;
  }

  method ReadEntry(b: Bytes, p: nat) returns (e: Entry)
    requires p + 68 <= |b|
    ensures e == DecodeEntry(b, p)
  {
    hide Get32, Get64;
    var seqNo := Read64(b, p);
    var step := Read64(b, p + 8);
    var op := Read32(b, p + 16);
    var id := Read64(b, p + 20);
    var size := Read64(b, p + 28);
    var alignment := Read64(b, p + 36);
    var domain := Read32(b, p + 44);
    var worker := Read32(b, p + 48);
    var tag := Read32(b, p + 52);
    var hs := Read32(b, p + 56);
    var ss := Read32(b, p + 60);
    var ec := Read32(b, p + 64);
    e := Entry.Entry(seqNo, step, op % WORD16, id, size, alignment, domain % WORD16, worker, tag,
                     hs != 0, ss != 0, if ec > 65535 then 65535 else ec);
  }

  method TraceFromBinary(b: Bytes) returns (r: Decoded)
    ensures r == Decode(b)
  {
    hide DecodeEntry, CheckTrace, Get32, Get64, DecodeEntries;
    if |b| < 4 { return Error(Malformed(BadMagic)); }
    var magic := Read32(b, 0);
    if magic != TRACE_MAGIC { return Error(Malformed(BadMagic)); }
    if |b| < 8 { return Error(Malformed(Truncated)); }
    var version := Read32(b, 4);
    if version != TRACE_VERSION { return Error(Rejected(UnsupportedVersion)); }
    if |b| < 16 { return Error(Malformed(Truncated)); }
    var seed := Read64(b, 8);
    if |b| < 20 { return Error(Malformed(Truncated)); }
    var n := Read32(b, 16);
    if 20 + n > |b| { return Error(Malformed(Truncated)); }
    var name := NameText(b[20..20 + n]);
    if n > MAX_NAME { return Error(Malformed(OversizedName)); }
    var p: nat := 20 + n;
    if p + 4 > |b| { return Error(Malformed(Truncated)); }
    var count := Read32(b, p);
    p := p + 4;
    var parsed := ReadEntries(b, p, count);
    if parsed.Stopped? { return Error(parsed.why); }
    var t := Trace(TRACE_VERSION, seed, name, parsed.entries);
    var v := ValidateTrace(t);
    r := if v == Accepted then Ok(t) else Error(v);
  }

  method ReadEntries(b: Bytes, start: nat, count: nat) returns (r: Entries)
    requires start <= |b|
    ensures r == DecodeEntries(b, start, count)
  {
    hide DecodeEntry;
    var es: seq<Entry> := [];
    var p: nat, i: nat := start, 0;
    while i < count
      invariant i <= count && p <= |b|
      invariant DecodeEntries(b, start, count) == Prepend(es, DecodeEntries(b, p, count - i))
    {
      if p + 68 > |b| { return Stopped(Malformed(Truncated)); }
      var e := ReadEntry(b, p);
      if e.op > PHASE_MARKER { return Stopped(Malformed(BadOp)); }
      if e.domain > MAPPED { return Stopped(Malformed(BadDomain)); }
      PrependOne(es, e, DecodeEntries(b, p + 68, count - i - 1));
      es := es + [e];
      p := p + 68;
      i := i + 1;
    }
    assert es + [] == es;
    r := if p != |b| then Stopped(Malformed(TrailingBytes)) else Parsed(es);
  }

  function Prepend(es: seq<Entry>, rest: Entries): Entries
  {
    match rest
    case Parsed(more) => Parsed(es + more)
    case Stopped(why) => Stopped(why)
  }

  lemma PrependOne(es: seq<Entry>, e: Entry, rest: Entries)
    ensures Prepend(es, Prepend([e], rest)) == Prepend(es + [e], rest)
  {
    if rest.Parsed? { assert es + ([e] + rest.entries) == es + [e] + rest.entries; }
  }

  // ---- round trip ----

  lemma NameRoundTrip(s: Text)
    ensures NameText(NameBytes(s)) == s
  {
    var b := NameBytes(s);
    var r := NameText(b);
    forall i | 0 <= i < |s| ensures r[i] == s[i] { assert b[i] == s[i] as int; }
  }

  lemma NameInverse(b: Bytes)
    ensures NameBytes(NameText(b)) == b
  {
    var s := NameText(b);
    forall i | 0 <= i < |b| ensures s[i] as int == b[i] { }
  }

  // A slice of a slice of the entry: field f of width n at offset o inside block x at p.
  lemma Nested(b: Bytes, p: nat, x: Bytes, o: nat, n: nat)
    requires p + |x| <= |b| && b[p..p + |x|] == x && o + n <= |x|
    ensures b[p + o..p + o + n] == x[o..o + n]
  {
    var z := b[p..p + |x|];
    var l, r := b[p + o..p + o + n], x[o..o + n];
    forall i | 0 <= i < n ensures l[i] == r[i] {
      assert z[o + i] == b[p + (o + i)];
    }
  }

  lemma HeadSlices(e: Entry)
    ensures var x := EncodeHead(e);
            && x[0..8] == Le(e.seqNo, 8) && x[8..16] == Le(e.step, 8) && x[16..20] == Le(e.op, 4)
            && x[20..28] == Le(e.id, 8) && x[28..36] == Le(e.size, 8) && x[36..44] == Le(e.alignment, 8)
  {
    hide Le;
  }

  lemma TailSlices(e: Entry)
    ensures var x := EncodeTail(e);
            && x[0..4] == Le(e.domain, 4) && x[4..8] == Le(e.worker, 4) && x[8..12] == Le(e.tag, 4)
            && x[12..16] == Le(Flag(e.hasStatus), 4) && x[16..20] == Le(Flag(e.statusSuccess), 4)
            && x[20..24] == Le(e.errorCode, 4)
  {
    hide Le;
  }

  lemma Value32(b: Bytes, p: nat, v: u32)
    requires p + 4 <= |b| && b[p..p + 4] == Le(v, 4)
    ensures Get32(b, p) == v
  {
    Widths();
    LeRoundTrip(v, 4);
  }

  lemma Value64(b: Bytes, p: nat, v: u64)
    requires p + 8 <= |b| && b[p..p + 8] == Le(v, 8)
    ensures Get64(b, p) == v
  {
    Widths();
    LeRoundTrip(v, 8);
  }

  lemma HeadValues(b: Bytes, p: nat, e: Entry)
    requires p + 44 <= |b| && b[p..p + 44] == EncodeHead(e)
    ensures Get64(b, p) == e.seqNo && Get64(b, p + 8) == e.step && Get32(b, p + 16) == e.op
    ensures Get64(b, p + 20) == e.id && Get64(b, p + 28) == e.size && Get64(b, p + 36) == e.alignment
  {
    hide Le, Get32, Get64, EncodeHead;
    var x := EncodeHead(e);
    HeadSlices(e);
    Nested(b, p, x, 0, 8);
    Value64(b, p, e.seqNo);
    Nested(b, p, x, 8, 8);
    Value64(b, p + 8, e.step);
    Nested(b, p, x, 16, 4);
    Value32(b, p + 16, e.op);
    Nested(b, p, x, 20, 8);
    Value64(b, p + 20, e.id);
    Nested(b, p, x, 28, 8);
    Value64(b, p + 28, e.size);
    Nested(b, p, x, 36, 8);
    Value64(b, p + 36, e.alignment);
  }

  lemma TailValues(b: Bytes, p: nat, e: Entry)
    requires p + 24 <= |b| && b[p..p + 24] == EncodeTail(e)
    ensures Get32(b, p) == e.domain && Get32(b, p + 4) == e.worker && Get32(b, p + 8) == e.tag
    ensures Get32(b, p + 12) == Flag(e.hasStatus) && Get32(b, p + 16) == Flag(e.statusSuccess)
    ensures Get32(b, p + 20) == e.errorCode
  {
    hide Le, Get32, EncodeTail;
    var x := EncodeTail(e);
    TailSlices(e);
    Nested(b, p, x, 0, 4);
    Value32(b, p, e.domain);
    Nested(b, p, x, 4, 4);
    Value32(b, p + 4, e.worker);
    Nested(b, p, x, 8, 4);
    Value32(b, p + 8, e.tag);
    Nested(b, p, x, 12, 4);
    Value32(b, p + 12, Flag(e.hasStatus));
    Nested(b, p, x, 16, 4);
    Value32(b, p + 16, Flag(e.statusSuccess));
    Nested(b, p, x, 20, 4);
    Value32(b, p + 20, e.errorCode);
  }

  lemma EntryRoundTrip(b: Bytes, p: nat, e: Entry)
    requires p + 68 <= |b| && b[p..p + 68] == EncodeEntry(e)
    ensures DecodeEntry(b, p) == e
  {
    hide Get32, Get64, EncodeHead, EncodeTail;
    var x := EncodeEntry(e);
    assert x[0..44] == EncodeHead(e) && x[44..68] == EncodeTail(e);
    Nested(b, p, x, 0, 44);
    Nested(b, p, x, 44, 24);
    HeadValues(b, p, e);
    TailValues(b, p + 44, e);
  }

  lemma {:induction false} EntriesRoundTrip(b: Bytes, p: nat, es: seq<Entry>)
    requires p <= |b| && b[p..] == EncodeEntries(es)
    requires forall i :: 0 <= i < |es| ==> es[i].op <= PHASE_MARKER && es[i].domain <= MAPPED
    ensures DecodeEntries(b, p, |es|) == Parsed(es)
    decreases |es|
  {
    hide EncodeEntry, DecodeEntry;
    if es != [] {
      assert b[p..p + 68] == b[p..][..68] == EncodeEntry(es[0]);
      assert b[p + 68..] == b[p..][68..] == EncodeEntries(es[1..]);
      EntryRoundTrip(b, p, es[0]);
      EntriesRoundTrip(b, p + 68, es[1..]);
      assert [es[0]] + es[1..] == es;
    }
  }

  lemma HeaderSlices(t: Trace)
    ensures var h := Header(t);
            && h[0..4] == Le(TRACE_MAGIC, 4) && h[4..8] == Le(t.version, 4) && h[8..16] == Le(t.seed, 8)
            && h[16..20] == Le(|t.name| % WORD32, 4)
  {
    hide Le;
    var a, b, c, d := Le(TRACE_MAGIC, 4), Le(t.version, 4), Le(t.seed, 8), Le(|t.name| % WORD32, 4);
    var h := Header(t);
    assert h == a + b + c + d;
    assert h[0..4] == a && h[4..8] == b && h[8..16] == c && h[16..20] == d;
  }

  lemma HeaderValues(t: Trace)
    requires |t.name| < WORD32
    ensures var b := Encode(t);
            && |b| == 24 + |t.name| + 68 * |t.entries|
            && Get32(b, 0) == TRACE_MAGIC && Get32(b, 4) == t.version && Get64(b, 8) == t.seed
            && Get32(b, 16) == |t.name|
            && b[20..20 + |t.name|] == NameBytes(t.name)
            && Get32(b, 20 + |t.name|) == |t.entries| % WORD32
            && b[24 + |t.name|..] == EncodeEntries(t.entries)
  {
    hide Le, EncodeEntries, Get32, Get64, Header;
    var b, h := Encode(t), Header(t);
    HeaderSlices(t);
    assert b[0..20] == h;
    Nested(b, 0, h, 0, 4);
    Value32(b, 0, TRACE_MAGIC);
    Nested(b, 0, h, 4, 4);
    Value32(b, 4, t.version);
    Nested(b, 0, h, 8, 8);
    Value64(b, 8, t.seed);
    Nested(b, 0, h, 16, 4);
    Value32(b, 16, |t.name| % WORD32);
    var n := |t.name|;
    assert b[20 + n..24 + n] == Le(|t.entries| % WORD32, 4);
    Value32(b, 20 + n, |t.entries| % WORD32);
  }

  /** Decoding the encoding of a valid trace gives the trace back exactly when its name is at
      most 2^24 bytes and its entry count fits the 32-bit field. */
  lemma BinaryRoundTrip(t: Trace)
    requires Valid(t)
    ensures Decode(Encode(t)) == Ok(t) <==> |t.name| <= MAX_NAME && |t.entries| < WORD32
  {
    hide Encode, EncodeEntries, DecodeEntries, CheckFrom, Get32, Get64, Decode, LeValue;
    if |t.name| <= MAX_NAME { NamedRoundTrip(t); }
    else if Decode(Encode(t)) == Ok(t) { AcceptedLength(Encode(t)); }
  }

  lemma NamedRoundTrip(t: Trace)
    requires Valid(t) && |t.name| <= MAX_NAME
    ensures Decode(Encode(t)) == Ok(t) <==> |t.entries| < WORD32
  {
    hide Encode, EncodeEntries, DecodeEntries, CheckFrom, Get32, Get64;
    HeaderValues(t);
    NameRoundTrip(t.name);
    var b, p := Encode(t), 24 + |t.name|;
    if |t.entries| < WORD32 {
      CheckedRanges(map[], t.entries);
      EntriesRoundTrip(b, p, t.entries);
      assert t == Trace(TRACE_VERSION, t.seed, t.name, t.entries);
    } else if Decode(b) == Ok(t) {
      DecodedCount(b, p, Get32(b, p - 4));
    }
  }

  // ---- what acceptance implies ----

  lemma {:induction false} DecodedCount(b: Bytes, p: nat, count: nat)
    requires p <= |b| && DecodeEntries(b, p, count).Parsed?
    ensures |DecodeEntries(b, p, count).entries| == count && |b| == p + 68 * count
    decreases count
  {
    hide DecodeEntry;
    if count > 0 { DecodedCount(b, p + 68, count - 1); }
  }

  /** Every accepted input has exactly the length its name and entries call for. */
  lemma AcceptedLength(b: Bytes)
    requires Decode(b).Ok?
    ensures var t := Decode(b).trace;
            && Valid(t) && |b| >= 20 && |t.name| == Get32(b, 16) <= MAX_NAME
            && |b| == 24 + |t.name| + 68 * |t.entries|
            && |t.entries| == Get32(b, 20 + |t.name|)
  {
    hide DecodeEntries, Get32, Get64, CheckFrom;
    var n := Get32(b, 16);
    DecodedCount(b, 24 + n, Get32(b, 20 + n));
  }

  /** Accepted inputs are prefix-free: no accepted input is a proper prefix of another. */
  lemma PrefixFree(b: Bytes, c: Bytes)
    requires Decode(b).Ok? && Decode(c).Ok? && b <= c
    ensures b == c
  {
    hide Decode, LeValue;
    AcceptedLength(b);
    AcceptedLength(c);
    assert b[16..20] == c[16..20];
    var n := Get32(b, 16);
    assert b[20 + n..24 + n] == c[20 + n..24 + n];
    assert b == c[..|b|] == c;
  }

  /** Every proper prefix and every extension of an encoding is rejected. */
  lemma TruncationAndExtensionRejected(t: Trace, c: Bytes)
    requires Valid(t) && |t.name| <= MAX_NAME && |t.entries| < WORD32
    requires c != Encode(t) && (c <= Encode(t) || Encode(t) <= c)
    ensures Decode(c).Error?
  {
    hide Encode, Decode;
    BinaryRoundTrip(t);
    if Decode(c).Ok? {
      if c <= Encode(t) { PrefixFree(c, Encode(t)); } else { PrefixFree(Encode(t), c); }
    }
  }

  // ---- canonical bytes ----

  /** The entry at p is stored the way the encoder stores it: no high bits in the operation
      and domain fields, flags 0 or 1, an error code of 16 bits. */
  predicate CanonicalAt(b: Bytes, p: nat)
    requires p + 68 <= |b|
  {
    && Get32(b, p + 16) < WORD16 && Get32(b, p + 44) < WORD16
    && Get32(b, p + 56) <= 1 && Get32(b, p + 60) <= 1 && Get32(b, p + 64) < WORD16
  }

  predicate CanonicalFrom(b: Bytes, p: nat, count: nat)
    requires p + 68 * count <= |b|
    decreases count
  {
    count == 0 || (CanonicalAt(b, p) && CanonicalFrom(b, p + 68, count - 1))
  }

  lemma Field32(b: Bytes, p: nat, v: u32)
    requires p + 4 <= |b|
    ensures b[p..p + 4] == Le(v, 4) <==> Get32(b, p) == v
  {
    Widths();
    LeRoundTrip(v, 4);
    LeInverse(b[p..p + 4]);
  }

  lemma Field64(b: Bytes, p: nat)
    requires p + 8 <= |b|
    ensures b[p..p + 8] == Le(Get64(b, p), 8)
  {
    LeInverse(b[p..p + 8]);
  }

  lemma HeadMatches(b: Bytes, p: nat)
    requires p + 68 <= |b|
    ensures EncodeHead(DecodeEntry(b, p)) == b[p..p + 44] <==> Get32(b, p + 16) < WORD16
  {
    hide Le, Get32, Get64, EncodeHead;
    var e := DecodeEntry(b, p);
    var x, y := EncodeHead(e), b[p..p + 44];
    HeadSlices(e);
    Field64(b, p);
    Field64(b, p + 8);
    Field32(b, p + 16, e.op);
    Field64(b, p + 20);
    Field64(b, p + 28);
    Field64(b, p + 36);
    Nested(b, p, y, 0, 8);
    Nested(b, p, y, 8, 8);
    Nested(b, p, y, 16, 4);
    Nested(b, p, y, 20, 8);
    Nested(b, p, y, 28, 8);
    Nested(b, p, y, 36, 8);
    assert y == y[0..8] + y[8..16] + y[16..20] + y[20..28] + y[28..36] + y[36..44];
    assert x == x[0..8] + x[8..16] + x[16..20] + x[20..28] + x[28..36] + x[36..44];
  }

  lemma TailMatches(b: Bytes, p: nat)
    requires p + 68 <= |b|
    ensures EncodeTail(DecodeEntry(b, p)) == b[p + 44..p + 68]
       <==> Get32(b, p + 44) < WORD16 && Get32(b, p + 56) <= 1 && Get32(b, p + 60) <= 1 && Get32(b, p + 64) < WORD16
  {
    hide Get32, Get64, EncodeTail;
    var e, q := DecodeEntry(b, p), p + 44;
    TailFields(b, q, e);
    assert e.worker == Get32(b, q + 4) && e.tag == Get32(b, q + 8);
  }

  lemma TailFields(b: Bytes, q: nat, e: Entry)
    requires q + 24 <= |b|
    ensures EncodeTail(e) == b[q..q + 24]
       <==> e.domain == Get32(b, q) && e.worker == Get32(b, q + 4) && e.tag == Get32(b, q + 8)
            && Flag(e.hasStatus) == Get32(b, q + 12) && Flag(e.statusSuccess) == Get32(b, q + 16)
            && e.errorCode == Get32(b, q + 20)
  {
    hide Le, Get32, EncodeTail, Flag;
    var x, y := EncodeTail(e), b[q..q + 24];
    TailSlices(e);
    Field32(b, q, e.domain);
    Field32(b, q + 4, e.worker);
    Field32(b, q + 8, e.tag);
    Field32(b, q + 12, Flag(e.hasStatus));
    Field32(b, q + 16, Flag(e.statusSuccess));
    Field32(b, q + 20, e.errorCode);
    assert y[0..4] == b[q..q + 4] && y[4..8] == b[q + 4..q + 8] && y[8..12] == b[q + 8..q + 12];
    assert y[12..16] == b[q + 12..q + 16] && y[16..20] == b[q + 16..q + 20] && y[20..24] == b[q + 20..q + 24];
    SixSlices(x, y);
  }

  lemma SixSlices(x: Bytes, y: Bytes)
    requires |x| == |y| == 24
    ensures x == y <==> x[0..4] == y[0..4] && x[4..8] == y[4..8] && x[8..12] == y[8..12]
                        && x[12..16] == y[12..16] && x[16..20] == y[16..20] && x[20..24] == y[20..24]
  {
    assert y == y[0..4] + y[4..8] + y[8..12] + y[12..16] + y[16..20] + y[20..24];
    assert x == x[0..4] + x[4..8] + x[8..12] + x[12..16] + x[16..20] + x[20..24];
  }

  lemma EntryMatches(b: Bytes, p: nat)
    requires p + 68 <= |b|
    ensures EncodeEntry(DecodeEntry(b, p)) == b[p..p + 68] <==> CanonicalAt(b, p)
  {
    hide Get32, DecodeEntry, EncodeHead, EncodeTail;
    HeadMatches(b, p);
    TailMatches(b, p);
    var e := DecodeEntry(b, p);
    var x, y := EncodeEntry(e), b[p..p + 68];
    assert x[..44] == EncodeHead(e) && x[44..] == EncodeTail(e);
    assert y[..44] == b[p..p + 44] && y[44..] == b[p + 44..p + 68];
    assert x == x[..44] + x[44..] && y == y[..44] + y[44..];
  }

  lemma {:induction false} EntriesMatch(b: Bytes, p: nat, count: nat)
    requires p <= |b| && DecodeEntries(b, p, count).Parsed? && |b| == p + 68 * count
    ensures EncodeEntries(DecodeEntries(b, p, count).entries) == b[p..] <==> CanonicalFrom(b, p, count)
    decreases count
  {
    hide EncodeEntry, DecodeEntry, CanonicalAt;
    if count > 0 {
      EntryMatches(b, p);
      EntriesMatch(b, p + 68, count - 1);
      var es := DecodeEntries(b, p, count).entries;
      var x, y := EncodeEntries(es), b[p..];
      assert es[1..] == DecodeEntries(b, p + 68, count - 1).entries;
      assert x[..68] == EncodeEntry(es[0]) && x[68..] == EncodeEntries(es[1..]);
      assert y[..68] == b[p..p + 68] && y[68..] == b[p + 68..];
      assert x == x[..68] + x[68..] && y == y[..68] + y[68..];
    }
  }

  /** Acceptance does not imply canonical bytes: re-encoding an accepted input gives the
      input back exactly when every entry is stored canonically. */
  lemma ReencodeExactly(b: Bytes)
    requires Decode(b).Ok?
    ensures var t := Decode(b).trace;
            |b| == 24 + |t.name| + 68 * |t.entries|
            && (Encode(t) == b <==> CanonicalFrom(b, 24 + |t.name|, |t.entries|))
  {
    hide Get32, Get64, DecodeEntries, EncodeEntries, CanonicalFrom, CheckFrom, Le;
    AcceptedLength(b);
    var t := Decode(b).trace;
    var n := |t.name|;
    var p := 24 + n;
    EntriesMatch(b, p, |t.entries|);
    Field32(b, 0, TRACE_MAGIC);
    Field32(b, 4, TRACE_VERSION);
    Field64(b, 8);
    Field32(b, 16, n);
    Field32(b, 20 + n, |t.entries|);
    NameInverse(b[20..20 + n]);
    assert Header(t) == b[0..4] + b[4..8] + b[8..16] + b[16..20];
    assert Header(t) == b[0..20];
    var x := Encode(t);
    assert x[..p] == b[0..20] + b[20..20 + n] + b[20 + n..p] == b[..p];
    assert x[p..] == EncodeEntries(t.entries);
    assert x == x[..p] + x[p..] && b == b[..p] + b[p..];
  }

  /** One allocate entry with a status, stored with the flag byte 2 instead of 1. */
  const FLAGGED: Trace :=
    Trace(TRACE_VERSION, 0, [], [Entry.Entry(0, 0, ALLOCATE, 1, 8, 0, 0, 0, 0, true, true, 0)])

  function FlagTwo(): Bytes { HeaderLength(); Encode(FLAGGED)[80 := 2] }

  lemma HeaderLength()
    ensures |Encode(FLAGGED)| == 92
  {
    hide EncodeEntry;
    assert EncodeEntries(FLAGGED.entries) == EncodeEntry(FLAGGED.entries[0]) + EncodeEntries([]);
  }

  lemma SameField(b: Bytes, x: Bytes, p: nat)
    requires |b| == |x|
    ensures p + 4 <= |b| && b[p..p + 4] == x[p..p + 4] ==> Get32(b, p) == Get32(x, p)
    ensures p + 8 <= |b| && b[p..p + 8] == x[p..p + 8] ==> Get64(b, p) == Get64(x, p)
  {
    hide LeValue;
  }

  lemma FlagValue(b: Bytes, x: Bytes, p: nat)
    requires |b| == |x| && p + 4 <= |b| && x[p..p + 4] == Le(1, 4) && b == x[p := 2]
    ensures Get32(b, p) == 2
  {
    assert Le(1, 4) == [1, 0, 0, 0];
    assert b[p..p + 4] == [2, 0, 0, 0];
    assert LeValue([2, 0, 0, 0]) == 2 + 256 * LeValue([0, 0, 0]);
    assert LeValue([0, 0, 0]) == 256 * LeValue([0, 0]) == 256 * (256 * LeValue([0]));
  }

  /** The flag byte is lost: the input is accepted, decodes to the trace, and is not its encoding. */
  lemma FlagTwoAccepted()
    ensures Decode(FlagTwo()) == Ok(FLAGGED) && Encode(FLAGGED) != FlagTwo()
  {
    hide Get32, Get64, Encode, EncodeHead, EncodeTail, LeValue, Le, CheckFrom, DecodeEntries;
    HeaderLength();
    var t, x, b := FLAGGED, Encode(FLAGGED), FlagTwo();
    var e := t.entries[0];
    FlaggedEntry(x, e);
    FlaggedFlag(x, b, e);
    HeaderValues(t);
    SameField(b, x, 0);
    SameField(b, x, 4);
    SameField(b, x, 8);
    SameField(b, x, 16);
    SameField(b, x, 20);
    assert b[0..4] == x[0..4] && b[4..8] == x[4..8] && b[8..16] == x[8..16];
    assert b[16..20] == x[16..20] && b[20..24] == x[20..24];
    FlaggedDecodes(x, b, e);
    FlaggedChecks();
    assert NameText(b[20..20]) == t.name;
  }

  lemma FlaggedChecks()
    ensures CheckTrace(FLAGGED) == Accepted
  {
    var e := FLAGGED.entries[0];
    assert FLAGGED.entries == [e] && [e][1..] == [];
    assert CheckFrom(map[], [e]) == CheckFrom(Next(map[], e), []);
  }

  lemma FlaggedEntry(x: Bytes, e: Entry)
    requires x == Encode(FLAGGED) && e == FLAGGED.entries[0]
    ensures |x| == 92 && x[24..92] == EncodeEntry(e) && x[24..68] == EncodeHead(e) && x[68..92] == EncodeTail(e)
  {
    hide EncodeHead, EncodeTail, Le, Get32, Get64;
    HeaderLength();
    HeaderValues(FLAGGED);
    assert EncodeEntries(FLAGGED.entries) == EncodeEntry(e) + EncodeEntries([]);
    var y := EncodeEntry(e);
    assert x[24..] == y && x[24..] == x[24..92];
    assert y[0..44] == EncodeHead(e) && y[44..68] == EncodeTail(e);
    Nested(x, 24, y, 0, 44);
    Nested(x, 24, y, 44, 24);
  }

  lemma FlaggedFlag(x: Bytes, b: Bytes, e: Entry)
    requires |x| == 92 && x[68..92] == EncodeTail(e) && e.hasStatus && b == x[80 := 2]
    ensures Get32(b, 80) == 2 && x != b
  {
    hide EncodeTail, Get32, Le;
    TailSlices(e);
    Nested(x, 68, EncodeTail(e), 12, 4);
    FlagValue(b, x, 80);
    OneFirst();
    assert x[80..84][0] == x[80];
  }

  lemma OneFirst()
    ensures Le(1, 4)[0] == 1
  {
  }

  lemma FlaggedDecodes(x: Bytes, b: Bytes, e: Entry)
    requires |x| == 92 && x[24..68] == EncodeHead(e) && x[68..92] == EncodeTail(e)
    requires b == x[80 := 2] && Get32(b, 80) == 2 && e.hasStatus && e.op <= PHASE_MARKER && e.domain <= MAPPED
    ensures DecodeEntries(b, 24, 1) == Parsed([e])
  {
    hide EncodeHead, EncodeTail, Get32, Get64;
    HeadValues(x, 24, e);
    TailValues(x, 68, e);
    SameField(b, x, 24);
    SameField(b, x, 32);
    SameField(b, x, 40);
    SameField(b, x, 44);
    SameField(b, x, 52);
    SameField(b, x, 60);
    SameField(b, x, 68);
    SameField(b, x, 72);
    SameField(b, x, 76);
    SameField(b, x, 84);
    SameField(b, x, 88);
    assert b[24..32] == x[24..32] && b[32..40] == x[32..40] && b[40..44] == x[40..44] && b[44..52] == x[44..52];
    assert b[52..60] == x[52..60] && b[60..68] == x[60..68] && b[68..72] == x[68..72] && b[72..76] == x[72..76];
    assert b[76..80] == x[76..80] && b[84..88] == x[84..88] && b[88..92] == x[88..92];
    assert DecodeEntry(b, 24) == e;
    assert DecodeEntries(b, 92, 0) == Parsed([]);
  }
}
