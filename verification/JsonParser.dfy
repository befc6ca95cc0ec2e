/** The recursive-descent parser as the source runs it: a cursor that advances over the text. */
module JsonParser {
  import opened Bits
  import opened Traces
  import opened Json
  import J = Json
  import opened TraceJson

  /** The cursor's outcome is the specification's. */
  ghost predicate Agrees<T>(r: Parse<T>, ok: bool, v: T, rest: Text)
  {
    if ok then r == Got(v, rest) else r == Bad
  }

  // What a loop has collected, followed by what the specification finds next.
  ghost function Extend<T>(done: seq<T>, r: Parse<seq<T>>): Parse<seq<T>>
  {
    match r
    case Got(more, rest) => Got(done + more, rest)
    case Bad => Bad
  }

  lemma ExtendOne<T>(done: seq<T>, v: T, r: Parse<seq<T>>)
    ensures Extend(done, Extend([v], r)) == Extend(done + [v], r)
  {
    if r.Got? { assert done + ([v] + r.value) == done + [v] + r.value; }
  }

  class JsonParser {
    const s: Text
    const stod: Stod
    var pos: nat

    constructor (text: Text, stod: Stod)
      ensures s == text && this.stod == stod && pos == 0
    {
      s, this.stod, pos := text, stod, 0;
    }

    method SkipSpace()
      requires pos <= |s|
      modifies this
      ensures old(pos) <= pos <= |s| && s[pos..] == SkipWs(old(s[pos..]))
    {
      while pos < |s| && IsSpace(s[pos])
        invariant old(pos) <= pos <= |s| && SkipWs(s[pos..]) == SkipWs(old(s[pos..]))
      {
        assert s[pos..][1..] == s[pos + 1..];
        pos := pos + 1;
      }
    }

    method SkipDigits()
      requires pos <= |s|
      modifies this
      ensures pos == old(pos) + DigitCount(old(s[pos..])) <= |s|
    {
      while pos < |s| && IsDigit(s[pos])
        invariant old(pos) <= pos <= |s| && pos + DigitCount(s[pos..]) == old(pos) + DigitCount(old(s[pos..]))
      {
        assert s[pos..][1..] == s[pos + 1..];
        pos := pos + 1;
      }
    }

    method SkipInteger()
      requires pos <= |s|
      modifies this
      ensures old(pos) <= pos <= |s| && pos == old(pos) + IntegerEnd(old(s[pos..]))
    {
      hide DigitCount, IntegerEnd;
      IntegerAt(s, pos);
      if pos < |s| && s[pos] == '-' { pos := pos + 1; }
      SkipDigits();
    }

    method SkipFraction(ghost start: nat) returns (found: bool)
      requires start <= pos <= |s|
      modifies this
      ensures old(pos) <= pos <= |s| && pos == start + Fraction(s[start..], old(pos) - start)
      ensures found <==> pos > old(pos)
    {
      hide DigitCount, Fraction;
      FractionAt(s, start, pos);
      found := pos < |s| && s[pos] == '.';
      if found {
        pos := pos + 1;
        SkipDigits();
      }
    }

    method SkipExponent(ghost start: nat) returns (found: bool)
      requires start <= pos <= |s|
      modifies this
      ensures old(pos) <= pos <= |s| && pos == start + Exponent(s[start..], old(pos) - start)
      ensures found <==> pos > old(pos)
    {
      hide DigitCount, Exponent;
      ExponentAt(s, start, pos);
      found := pos < |s| && (s[pos] == 'e' || s[pos] == 'E');
      if found {
        pos := pos + 1;
        if pos < |s| && (s[pos] == '+' || s[pos] == '-') { pos := pos + 1; }
        SkipDigits();
      }
    }

    method ParseNumber() returns (ok: bool, v: Json)
      requires pos <= |s|
      modifies this
      ensures pos <= |s| && (ok ==> pos > old(pos))
      ensures Agrees(J.ParseNumber(old(s[pos..]), stod), ok, v, s[pos..])
    {
      hide DigitCount, DecValue, IntegerEnd, Fraction, Exponent, NumberOf, J.ParseNumber;
      var start := pos;
      SkipInteger();
      var point := SkipFraction(start);
      var exponent := SkipExponent(start);
      var token := s[start..pos];
      SliceOf(s, start, pos);
      NumberSpec(s[start..], pos - start, !point && !exponent, stod);
      ok, v := Convert(token, !point && !exponent, stod);
    }

    method ParseString() returns (ok: bool, out: Text)
      requires pos < |s| && s[pos] == '\"'
      modifies this
      ensures pos <= |s| && (ok ==> pos > old(pos))
      ensures Agrees(ParseChars(old(s[pos + 1..])), ok, out, s[pos..])
    {
      hide ParseChars;
      pos := pos + 1;
      out, ok := [], false;
      ghost var start := s[pos..];
      ExtendNothing(ParseChars(start));
      while pos < |s|
        invariant old(pos) < pos <= |s|
        invariant ParseChars(start) == Extend(out, ParseChars(s[pos..]))
      {
        var c := s[pos];
        CharsNext(s, pos);
        if c == '\"' {
          pos := pos + 1;
          assert out + [] == out;
          return true, out;
        }
        if c == '\\' {
          pos := pos + 1;
          if pos >= |s| { return; }
          var e := Unescape(s[pos]);
          if e.Nothing? { return; }
          ExtendOne(out, e.c, ParseChars(s[pos + 1..]));
          out := out + [e.c];
          pos := pos + 1;
        } else if c < ' ' {
          return;
        } else {
          ExtendOne(out, c, ParseChars(s[pos + 1..]));
          out := out + [c];
          pos := pos + 1;
        }
      }
      CharsEnd(s, pos);
    }

    method ParseLiteral(lit: Text, value: Json) returns (ok: bool, v: Json)
      requires pos <= |s| && lit != []
      modifies this
      ensures pos <= |s| && (ok ==> pos > old(pos))
      ensures Agrees(ParseLit(old(s[pos..]), lit, value), ok, v, s[pos..])
    {
      LitAt(s, pos, lit);
      ok, v := pos + |lit| <= |s| && s[pos..pos + |lit|] == lit, value;
      if ok { pos := pos + |lit|; }
    }

    method ParseValue() returns (ok: bool, v: Json)
      requires pos <= |s|
      modifies this
      ensures old(pos) <= pos <= |s| || !ok
      ensures pos <= |s| && (ok ==> pos > old(pos))
      ensures Agrees(J.ParseValue(old(s[pos..]), stod), ok, v, s[pos..])
      decreases |s| - pos, 1
    {
      hide SkipWs, ParseLit, J.ParseNumber, ParseChars, J.ParseArray, J.ParseObject;
      SkipSpace();
      ok, v := false, Null;
      if pos >= |s| { return; }
      var c := s[pos];
      if c == '{' { ok, v := ParseObject(); }
      else if c == '[' { ok, v := ParseArray(); }
      else if c == '\"' {
        assert s[pos..][1..] == s[pos + 1..];
        var str;
        ok, str := ParseString();
        v := Str(str);
      }
      else if c == 't' { ok, v := ParseLiteral("true", Bool(true)); }
      else if c == 'f' { ok, v := ParseLiteral("false", Bool(false)); }
      else if c == 'n' { ok, v := ParseLiteral("null", Null); }
      else { ok, v := ParseNumber(); }
    }

    method ParseArray() returns (ok: bool, v: Json)
      requires pos < |s| && s[pos] == '['
      modifies this
      ensures pos <= |s| && (ok ==> pos > old(pos))
      ensures Agrees(J.ParseArray(old(s[pos..]), stod), ok, v, s[pos..])
      decreases |s| - pos, 0
    {
      hide SkipWs, ParseItems, Extend, J.ParseValue, J.ParseArray, IsSpace;
      ghost var t := s[pos..];
      assert t[1..] == s[pos + 1..];
      pos := pos + 1;
      SkipSpace();
      ok, v := false, Null;
      ghost var start := s[pos..];
      ArrayEmpty(t, stod);
      if pos < |s| && s[pos] == ']' {
        assert start[1..] == s[pos + 1..];
        pos := pos + 1;
        return true, Arr([]);
      }
      var items: seq<Json> := [];
      ExtendNothing(ParseItems(start, stod));
      ArrayIs(t, stod);
      while true
        invariant old(pos) < pos <= |s|
        invariant ParseItems(start, stod) == Extend(items, ParseItems(s[pos..], stod))
        decreases |s| - pos
      {
        ghost var u := s[pos..];
        ExtendBad(items);
        var item;
        ok, item := ParseValue();
        if !ok { ItemsBad(u, stod); return; }
        ghost var r := s[pos..];
        SkipSpace();
        ok := false;
        ItemsNext(u, item, r, stod);
        if pos >= |s| { return; }
        assert s[pos..][1..] == s[pos + 1..];
        if s[pos] == ',' {
          ExtendOne(items, item, ParseItems(s[pos + 1..], stod));
          items := items + [item];
          pos := pos + 1;
        } else if s[pos] == ']' {
          ExtendLast(items, item, s[pos + 1..]);
          items := items + [item];
          pos := pos + 1;
          return true, Arr(items);
        } else {
          return;
        }
      }
    }

    /** One `"key": value` of an object. */
    method ParseMember() returns (ok: bool, m: Member)
      requires pos <= |s|
      modifies this
      ensures pos <= |s| && (ok ==> pos > old(pos))
      ensures !ok ==> ParseMembers(old(s[pos..]), stod) == Bad
      ensures ok ==> MemberIs(old(s[pos..]), m, s[pos..], stod)
      decreases |s| - pos, 2
    {
      hide SkipWs, ParseMembers, ParseChars, J.ParseValue;
      ghost var u := s[pos..];
      ok, m := false, Member([], Null);
      SkipSpace();
      MembersNoKey(u, stod);
      if pos >= |s| || s[pos] != '\"' { return; }
      assert s[pos..][1..] == s[pos + 1..];
      var key;
      ok, key := ParseString();
      MembersBadString(u, stod);
      if !ok { return; }
      ok := false;
      ghost var r := s[pos..];
      SkipSpace();
      MembersNoColon(u, key, r, stod);
      if pos >= |s| || s[pos] != ':' { return; }
      assert s[pos..][1..] == s[pos + 1..];
      pos := pos + 1;
      var val;
      ok, val := ParseValue();
      m := Member(key, val);
    }

    method ParseObject() returns (ok: bool, v: Json)
      requires pos < |s| && s[pos] == '{'
      modifies this
      ensures pos <= |s| && (ok ==> pos > old(pos))
      ensures Agrees(J.ParseObject(old(s[pos..]), stod), ok, v, s[pos..])
      decreases |s| - pos, 0
    {
      hide SkipWs, ParseMembers, Extend, MemberIs;
      ghost var t := s[pos..];
      assert t[1..] == s[pos + 1..];
      pos := pos + 1;
      SkipSpace();
      ok, v := false, Null;
      ghost var start := s[pos..];
      if pos < |s| && s[pos] == '}' {
        assert start[1..] == s[pos + 1..];
        pos := pos + 1;
        return true, Obj([]);
      }
      var ms: seq<Member> := [];
      ExtendNothing(ParseMembers(start, stod));
      ObjectIs(t, stod);
      while true
        invariant old(pos) < pos <= |s|
        invariant ParseMembers(start, stod) == Extend(ms, ParseMembers(s[pos..], stod))
        decreases |s| - pos
      {
        ghost var u := s[pos..];
        ExtendBad(ms);
        var m;
        ok, m := ParseMember();
        if !ok { return; }
        ok := false;
        ghost var r := s[pos..];
        SkipSpace();
        MembersNext(u, m, r, stod);
        if pos >= |s| { return; }
        assert s[pos..][1..] == s[pos + 1..];
        if s[pos] == ',' {
          ExtendOne(ms, m, ParseMembers(s[pos + 1..], stod));
          ms := ms + [m];
          pos := pos + 1;
        } else if s[pos] == '}' {
          ExtendLast(ms, m, s[pos + 1..]);
          ms := ms + [m];
          pos := pos + 1;
          return true, Obj(ms);
        } else {
          return;
        }
      }
    }

    method Parse() returns (ok: bool, v: Json)
      requires pos == 0
      modifies this
      ensures if ok then ParseDocument(s, stod) == Got(v, []) else ParseDocument(s, stod) == Bad
    {
      hide SkipWs, J.ParseValue;
      assert s[0..] == s;
      SkipSpace();
      ok, v := ParseValue();
      if ok {
        SkipSpace();
        ok := pos == |s|;
      }
    }
  }

  lemma SliceOf(s: Text, i: nat, p: nat)
    requires i <= p <= |s|
    ensures s[i..][p - i..] == s[p..] && s[i..][..p - i] == s[i..p]
    ensures p < |s| ==> s[i..][p - i] == s[p]
  {
  }

  // std::stoull when the token is a plain run of digits and fits, std::stod otherwise.
  method Convert(token: Text, isInt: bool, stod: Stod) returns (ok: bool, v: Json)
    ensures NumberOf(token, isInt, stod) == if ok then Got(v, []) else Bad
    ensures ok ==> token != []
  {
    ok, v := false, Null;
    if isInt && token != [] && token[0] != '-' && DecValue(token) < WORD {
      ok, v := true, Uint(DecValue(token));
    } else if token != [] && stod(token) {
      ok, v := true, Num(token);
    }
  }

  lemma ExtendBad<T>(done: seq<T>)
    ensures Extend(done, Bad) == Bad
  {
  }

  lemma ExtendLast<T>(done: seq<T>, v: T, rest: Text)
    ensures Extend(done, Got([v], rest)) == Got(done + [v], rest)
  {
  }

  lemma IntegerAt(s: Text, start: nat)
    requires start <= |s|
    ensures var q := if start < |s| && s[start] == '-' then start + 1 else start;
            IntegerEnd(s[start..]) == q - start + DigitCount(s[q..])
  {
    var q := if start < |s| && s[start] == '-' then start + 1 else start;
    SliceOf(s, start, q);
  }

  lemma FractionAt(s: Text, start: nat, p: nat)
    requires start <= p <= |s|
    ensures Fraction(s[start..], p - start)
         == p - start + (if p < |s| && s[p] == '.' then 1 + DigitCount(s[p + 1..]) else 0)
  {
    if p < |s| { SliceOf(s, start, p); SliceOf(s, start, p + 1); }
  }

  // Past an optional sign at p.
  function SignEnd(s: Text, p: nat): (q: nat)
    requires p <= |s|
    ensures p <= q <= |s|
  {
    if p < |s| && (s[p] == '+' || s[p] == '-') then p + 1 else p
  }

  lemma ExponentAt(s: Text, start: nat, p: nat)
    requires start <= p <= |s|
    ensures Exponent(s[start..], p - start)
         == if p < |s| && (s[p] == 'e' || s[p] == 'E')
             then SignEnd(s, p + 1) - start + DigitCount(s[SignEnd(s, p + 1)..])
            else p - start
  {
    hide DigitCount;
    if p < |s| {
      SliceOf(s, start, p);
      SliceOf(s, start, p + 1);
      SliceOf(s, start, SignEnd(s, p + 1));
    }
  }

  lemma NumberSpec(t: Text, n: nat, isInt: bool, stod: Stod)
    requires n == Exponent(t, Fraction(t, IntegerEnd(t))) && isInt == (n == IntegerEnd(t))
    ensures J.ParseNumber(t, stod)
         == match NumberOf(t[..n], isInt, stod) { case Got(v, _) => Got(v, t[n..]) case Bad => Bad }
  {
    hide DigitCount, DecValue, IntegerEnd, Fraction, Exponent;
  }

  // One character of a string, in terms of the specification.
  lemma CharsNext(s: Text, p: nat)
    requires p < |s|
    ensures var r := ParseChars(s[p..]);
            if s[p] == '\"' then r == Got([], s[p + 1..])
            else if s[p] == '\\' then
              if p + 1 == |s| || Unescape(s[p + 1]).Nothing? then r == Bad
              else r == Extend([Unescape(s[p + 1]).c], ParseChars(s[p + 2..]))
            else if s[p] < ' ' then r == Bad
            else r == Extend([s[p]], ParseChars(s[p + 1..]))
  {
    hide Unescape;
    SliceOf(s, p, p + 1);
    if p + 1 < |s| { SliceOf(s, p, p + 2); }
    CharsUnfold(s[p..]);
  }

  lemma CharsUnfold(t: Text)
    requires t != []
    ensures ParseChars(t)
         == if t[0] == '\"' then Got([], t[1..])
            else if t[0] == '\\' then
              if |t| < 2 || Unescape(t[1]).Nothing? then Bad
              else Extend([Unescape(t[1]).c], ParseChars(t[2..]))
            else if t[0] < ' ' then Bad
            else Extend([t[0]], ParseChars(t[1..]))
  {
    hide Unescape;
  }

  lemma CharsEnd(s: Text, p: nat)
    requires p == |s|
    ensures ParseChars(s[p..]) == Bad
  {
  }

  lemma LitAt(s: Text, i: nat, lit: Text)
    requires i <= |s|
    ensures lit <= s[i..] <==> i + |lit| <= |s| && s[i..i + |lit|] == lit
    ensures i + |lit| <= |s| ==> s[i..][|lit|..] == s[i + |lit|..]
  {
    if lit <= s[i..] { assert s[i..][..|lit|] == s[i..i + |lit|]; }
    if i + |lit| <= |s| && s[i..i + |lit|] == lit { assert s[i..][..|lit|] == lit; }
  }

  lemma ExtendNothing<T>(r: Parse<seq<T>>)
    ensures Extend([], r) == r
  {
    if r.Got? { assert [] + r.value == r.value; }
  }

  lemma ArrayEmpty(t: Text, stod: Stod)
    requires t != []
    ensures SkipWs(t[1..]) != [] && SkipWs(t[1..])[0] == ']' ==>
        J.ParseArray(t, stod) == Got(Arr([]), SkipWs(t[1..])[1..])
  {
    hide ParseItems;
  }

  lemma ArrayIs(t: Text, stod: Stod)
    requires t != [] && (SkipWs(t[1..]) == [] || SkipWs(t[1..])[0] != ']')
    ensures J.ParseArray(t, stod)
         == match ParseItems(SkipWs(t[1..]), stod) { case Got(v, rest) => Got(Arr(v), rest) case Bad => Bad }
  {
    hide ParseItems;
  }

  lemma ObjectIs(t: Text, stod: Stod)
    requires t != [] && (SkipWs(t[1..]) == [] || SkipWs(t[1..])[0] != '}')
    ensures J.ParseObject(t, stod)
         == match ParseMembers(SkipWs(t[1..]), stod) { case Got(v, rest) => Got(Obj(v), rest) case Bad => Bad }
  {
    hide ParseMembers;
  }

  lemma ItemsBad(u: Text, stod: Stod)
    requires J.ParseValue(u, stod) == Bad
    ensures ParseItems(u, stod) == Bad
  {
  }

  // One round of the array loop, in terms of the specification.
  lemma ItemsNext(u: Text, v: Json, r: Text, stod: Stod)
    requires J.ParseValue(u, stod) == Got(v, r)
    ensures var t := SkipWs(r);
            && (t == [] ==> ParseItems(u, stod) == Bad)
            && (t != [] && t[0] == ',' ==> ParseItems(u, stod) == Extend([v], ParseItems(t[1..], stod)))
            && (t != [] && t[0] == ']' ==> ParseItems(u, stod) == Got([v], t[1..]))
            && (t != [] && t[0] != ',' && t[0] != ']' ==> ParseItems(u, stod) == Bad)
  {
    hide J.ParseValue, SkipWs;
  }

  // One round of the object loop, step by step.
  lemma MembersNoKey(u: Text, stod: Stod)
    ensures SkipWs(u) == [] || SkipWs(u)[0] != '\"' ==> ParseMembers(u, stod) == Bad
  {
    hide J.ParseValue, SkipWs, ParseChars;
  }

  lemma MembersBadString(u: Text, stod: Stod)
    ensures SkipWs(u) != [] && SkipWs(u)[0] == '\"' && ParseChars(SkipWs(u)[1..]) == Bad
            ==> ParseMembers(u, stod) == Bad
  {
    hide J.ParseValue, SkipWs, ParseChars;
  }

  ghost predicate KeyIs(u: Text, key: Text, r: Text)
  {
    SkipWs(u) != [] && SkipWs(u)[0] == '\"' && ParseChars(SkipWs(u)[1..]) == Got(key, r)
  }

  lemma MembersNoColon(u: Text, key: Text, r: Text, stod: Stod)
    requires KeyIs(u, key, r)
    ensures var w := SkipWs(r);
            && (w == [] || w[0] != ':' ==> ParseMembers(u, stod) == Bad)
            && (w != [] && w[0] == ':' && J.ParseValue(w[1..], stod) == Bad ==> ParseMembers(u, stod) == Bad)
  {
    hide J.ParseValue, SkipWs, ParseChars;
  }

  /** The text u starts with the member m, and r is left after it. */
  ghost predicate MemberIs(u: Text, m: Member, r: Text, stod: Stod)
  {
    exists k: Text :: KeyIs(u, m.key, k)
      && SkipWs(k) != [] && SkipWs(k)[0] == ':' && J.ParseValue(SkipWs(k)[1..], stod) == Got(m.value, r)
  }

  lemma MembersNext(u: Text, m: Member, r: Text, stod: Stod)
    requires MemberIs(u, m, r, stod)
    ensures ParseMembers(u, stod)
         == if SkipWs(r) == [] then Bad
            else if SkipWs(r)[0] == ',' then Extend([m], ParseMembers(SkipWs(r)[1..], stod))
            else if SkipWs(r)[0] == '}' then Got([m], SkipWs(r)[1..])
            else Bad
  {
    hide J.ParseValue, SkipWs, ParseChars;
  }

  /** trace_from_json. */
  method TraceFromJson(text: Text, stod: Stod) returns (r: Decoded)
    ensures r == FromJson(text, stod)
  {
    hide ParseDocument;
    var p := new JsonParser(text, stod);
    var ok, root := p.Parse();
    if !ok || !root.Obj? { return Error(Malformed(NotAnObject)); }
    r := ReadTrace(root);
  }
}
