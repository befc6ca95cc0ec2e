/** What the JSON parser takes, in the terms of its grammar: white space, number tokens, and where a value has to
    stand. */
module JsonGrammar {
  import opened Bits
  import opened Json

  /** White space is the six characters that std::isspace takes in the C locale. */
  lemma Spaces(c: Char)
    ensures IsSpace(c) <==> c as int in {9, 10, 11, 12, 13, 32}
  {
  }

  predicate Digits(s: Text) { forall i :: 0 <= i < |s| ==> '0' <= s[i] <= '9' }

  predicate NoDigit(s: Text) { s == [] || !('0' <= s[0] <= '9') }

  lemma {:induction false} CountDigits(ds: Text, rest: Text)
    requires Digits(ds) && NoDigit(rest)
    ensures DigitCount(ds + rest) == |ds|
    decreases |ds|
  {
    if ds == [] {
      assert ds + rest == rest;
    } else {
      assert (ds + rest)[0] == ds[0] && (ds + rest)[1..] == ds[1..] + rest;
      CountDigits(ds[1..], rest);
    }
  }

  /** The parts of a number token. */
  datatype Number = Number(negative: bool, whole: Text, fraction: Text, exponent: Text)

  /** A fraction is a point and digits; an exponent an `e` of either case, a sign or none, and digits; each may be
      missing, and so may the digits. */
  predicate IsFraction(f: Text) { f == [] || (f[0] == '.' && Digits(f[1..])) }

  predicate IsExponent(x: Text)
  {
    || x == []
    || ((x[0] == 'e' || x[0] == 'E')
        && (Digits(x[1..]) || (|x| > 1 && (x[1] == '+' || x[1] == '-') && Digits(x[2..]))))
  }

  predicate Formed(n: Number)
  {
    Digits(n.whole) && IsFraction(n.fraction) && IsExponent(n.exponent)
  }

  function Sign(n: Number): Text { if n.negative then "-" else "" }

  function Token(n: Number): Text { Sign(n) + n.whole + n.fraction + n.exponent }

  /** What follows does not continue the token. */
  predicate Ends(n: Number, rest: Text)
  {
    rest != [] ==>
      && !('0' <= rest[0] <= '9') && (n.exponent == [] ==> rest[0] != 'e' && rest[0] != 'E')
      && (n.exponent == [] && n.fraction == [] ==> rest[0] != '.')
      && (|n.exponent| == 1 ==> rest[0] != '+' && rest[0] != '-')
      && (n.whole == [] && n.fraction == [] && n.exponent == [] && !n.negative ==> rest[0] != '-')
  }

  lemma Behind(a: Text, b: Text)
    ensures (a + b)[|a|..] == b && (b != [] ==> (a + b)[|a|] == b[0])
    ensures |b| > 1 ==> (a + b)[|a| + 1] == b[1]
  {
  }

  lemma WholeAt(negative: bool, whole: Text, tail: Text)
    requires Digits(whole) && NoDigit(tail) && (!negative && whole == [] ==> tail == [] || tail[0] != '-')
    ensures var sign: Text := if negative then "-" else "";
            IntegerEnd(sign + (whole + tail)) == |sign| + |whole|
  {
    var sign: Text := if negative then "-" else "";
    Behind(sign, whole + tail);
    CountDigits(whole, tail);
    if whole != [] { assert (whole + tail)[0] == whole[0]; } else { assert whole + tail == tail; }
    assert sign == [] ==> sign + (whole + tail) == whole + tail;
  }

  lemma FractionAt(a: Text, f: Text, tail: Text)
    requires IsFraction(f) && NoDigit(tail) && (f == [] ==> tail == [] || tail[0] != '.')
    ensures |a| <= |a + (f + tail)| && Fraction(a + (f + tail), |a|) == |a| + |f|
  {
    hide DigitCount;
    Behind(a, f + tail);
    if f == [] {
      assert f + tail == tail;
    } else {
      assert f == ['.'] + f[1..];
      assert a + (f + tail) == (a + ['.']) + (f[1..] + tail);
      Behind(a + ['.'], f[1..] + tail);
      CountDigits(f[1..], tail);
    }
  }

  /** The mark of an exponent, `e` or `e` and a sign, and what follows. */
  lemma MarkedAt(a: Text, mark: Text, tail: Text)
    requires mark != [] && (mark[0] == 'e' || mark[0] == 'E') && |mark| <= 2
    requires if |mark| == 2 then mark[1] == '+' || mark[1] == '-' else tail == [] || (tail[0] != '+' && tail[0] != '-')
    ensures |a| <= |a + (mark + tail)| && Exponent(a + (mark + tail), |a|) == |a| + |mark| + DigitCount(tail)
  {
    hide DigitCount;
    var s := a + (mark + tail);
    assert s[|a|] == mark[0];
    assert s[|a| + |mark|..] == tail;
    if |mark| == 2 { assert s[|a| + 1] == mark[1]; } else if tail != [] { assert s[|a| + 1] == tail[0]; }
  }

  lemma ExponentAt(a: Text, x: Text, rest: Text)
    requires IsExponent(x) && NoDigit(rest) && (x == [] ==> rest == [] || (rest[0] != 'e' && rest[0] != 'E'))
    requires |x| == 1 ==> rest == [] || (rest[0] != '+' && rest[0] != '-')
    ensures |a| <= |a + (x + rest)| && Exponent(a + (x + rest), |a|) == |a| + |x|
  {
    if x == [] {
      Behind(a, rest);
      assert x + rest == rest;
    } else {
      ExponentMarked(a, x, rest);
    }
  }

  lemma ExponentMarked(a: Text, x: Text, rest: Text)
    requires x != [] && IsExponent(x) && NoDigit(rest)
    requires |x| == 1 ==> rest == [] || (rest[0] != '+' && rest[0] != '-')
    ensures |a| <= |a + (x + rest)| && Exponent(a + (x + rest), |a|) == |a| + |x|
  {
    hide Exponent, DigitCount, Digits;
    var k := if |x| > 1 && (x[1] == '+' || x[1] == '-') then 2 else 1;
    var tail := x[k..] + rest;
    assert x + rest == x[..k] + tail;
    SignedDigits(x);
    CountDigits(x[k..], rest);
    assert k < |x| ==> tail[0] == x[k];
    assert k == |x| ==> tail == rest;
    MarkedAt(a, x[..k], tail);
  }

  lemma SignedDigits(x: Text)
    requires x != [] && IsExponent(x)
    ensures Digits(x[if |x| > 1 && (x[1] == '+' || x[1] == '-') then 2 else 1..])
  {
    if |x| > 1 && Digits(x[1..]) { assert x[1..][0] == x[1]; }
  }

  lemma TokenEnd(n: Number, rest: Text)
    requires Formed(n) && Ends(n, rest)
    ensures var s := Token(n) + rest;
            var i := IntegerEnd(s);
            var f := Fraction(s, i);
            i == |Sign(n)| + |n.whole| && f == i + |n.fraction| && Exponent(s, f) == |Token(n)|
  {
    hide IntegerEnd, Fraction, Exponent, Digits, IsFraction, IsExponent;
    var s, a := Token(n) + rest, Sign(n) + n.whole;
    var tail := n.exponent + rest;
    TailStarts(n, rest);
    assert s == Sign(n) + (n.whole + (n.fraction + tail));
    WholeAt(n.negative, n.whole, n.fraction + tail);
    assert s == a + (n.fraction + tail);
    FractionAt(a, n.fraction, tail);
    assert s == (a + n.fraction) + (n.exponent + rest);
    ExponentAt(a + n.fraction, n.exponent, rest);
  }

  // How the text goes on behind the whole part and behind the fraction.
  lemma TailStarts(n: Number, rest: Text)
    requires Formed(n) && Ends(n, rest)
    ensures var tail := n.exponent + rest;
            && NoDigit(tail) && (n.fraction == [] ==> tail == [] || tail[0] != '.')
            && NoDigit(n.fraction + tail)
            && (!n.negative && n.whole == [] ==> n.fraction + tail == [] || (n.fraction + tail)[0] != '-')
  {
    hide Digits;
    var tail := n.exponent + rest;
    if n.exponent != [] { assert tail[0] == n.exponent[0]; } else { assert tail == rest; }
    if n.fraction != [] { assert (n.fraction + tail)[0] == '.'; } else { assert n.fraction + tail == tail; }
  }

  /** A number is read up to its end. Without sign, fraction and exponent it is a 64-bit number if it fits; otherwise
      it is kept as its token if std::stod takes that. */
  lemma NumberMeaning(n: Number, rest: Text, stod: Stod)
    requires Formed(n) && Ends(n, rest)
    ensures ParseNumber(Token(n) + rest, stod) ==
            if !n.negative && n.fraction == [] && n.exponent == [] && n.whole != [] && DecValue(n.whole) < WORD
            then Got(Uint(DecValue(n.whole)), rest)
            else if Token(n) != [] && stod(Token(n)) then Got(Num(Token(n)), rest)
            else Bad
  {
    hide IntegerEnd, Fraction, Exponent, DecValue, Formed, Ends;
    var s := Token(n) + rest;
    TokenEnd(n, rest);
    assert s[..|Token(n)|] == Token(n) && s[|Token(n)|..] == rest;
    FirstChar(n);
  }

  lemma FirstChar(n: Number)
    requires Formed(n)
    ensures Token(n) != [] && n.fraction == [] && n.exponent == [] ==>
              (Token(n)[0] == '-' <==> n.negative) && (!n.negative ==> Token(n) == n.whole)
  {
  }

  /** Characters that no value starts with. */
  predicate NoStart(c: Char)
  {
    c !in {'{', '[', '\"', 't', 'f', 'n', '-', '.', 'e', 'E'} && !('0' <= c <= '9')
  }

  /** Where a value is missing the text is refused: at its end, and before any character that starts none. */
  lemma NoValue(s: Text, stod: Stod)
    requires SkipWs(s) == [] || NoStart(SkipWs(s)[0])
    ensures ParseValue(s, stod) == Bad
  {
    hide SkipWs;
    var t := SkipWs(s);
    if t != [] {
      var n := Number(false, [], [], []);
      assert Token(n) + t == t;
      NumberMeaning(n, t, stod);
    }
  }

  /** A list or object does not end behind a comma. */
  lemma NoTrailingComma(s: Text, stod: Stod)
    requires SkipWs(s) != [] && (SkipWs(s)[0] == ']' || SkipWs(s)[0] == '}')
    ensures ParseItems(s, stod) == Bad && ParseMembers(s, stod) == Bad
  {
    hide SkipWs;
    NoValue(s, stod);
  }

  /** After a value comes a comma or the end of the list. */
  lemma NeedsComma(s: Text, stod: Stod, v: Json, rest: Text)
    requires ParseValue(s, stod) == Got(v, rest)
    requires SkipWs(rest) == [] || (SkipWs(rest)[0] != ',' && SkipWs(rest)[0] != ']')
    ensures ParseItems(s, stod) == Bad
  {
    hide SkipWs, ParseValue;
  }

  /** Nothing but white space may follow the document. */
  lemma NothingBehind(s: Text, stod: Stod, v: Json, rest: Text)
    requires ParseValue(SkipWs(s), stod) == Got(v, rest)
    ensures ParseDocument(s, stod) == if SkipWs(rest) == [] then Got(v, []) else Bad
  {
    hide SkipWs, ParseValue;
  }

  /** A string ends at its quote; without one, or with a raw control character, it is refused. */
  lemma {:induction false} Unterminated(s: Text)
    requires forall i :: 0 <= i < |s| ==> s[i] != '\"'
    ensures ParseChars(s) == Bad
    decreases |s|
  {
    if |s| > 1 && s[0] == '\\' { Unterminated(s[2..]); }
    else if s != [] { Unterminated(s[1..]); }
  }

  lemma RawControl(c: Char, rest: Text)
    requires c < ' '
    ensures ParseChars([c] + rest) == Bad
  {
  }
}
