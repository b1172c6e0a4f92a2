/** Queries, the text they are printed as, and the tokens and the query that a text stands for. */
module QueryText {

  // ---- queries ----

  datatype Expression = Field(name: string) | IntConst(i: int) | StrConst(s: string)

  datatype Term = Term(lhs: Expression, rhs: Expression)

  datatype Query = Query(fields: seq<string>, tables: seq<string>, terms: seq<Term>)

  // ---- printing ----

  function Digit(d: nat): char
    requires d < 10
  {
    "0123456789"[d]
  }

  function NatText(n: nat): (s: string)
    ensures s != ""
  {
    if n < 10 then [Digit(n)] else NatText(n / 10) + [Digit(n % 10)]
  }

  function IntText(i: int): string {
    if i < 0 then "-" + NatText(-i) else NatText(i)
  }

  /** A string constant is printed without quotes. */
  function ExpressionText(e: Expression): string {
    match e
    case Field(name) => name
    case IntConst(i) => IntText(i)
    case StrConst(s) => s
  }

  function TermText(t: Term): string {
    ExpressionText(t.lhs) + " = " + ExpressionText(t.rhs)
  }

  function ListText(names: seq<string>): string
    requires names != []
  {
    if |names| == 1 then names[0] else names[0] + ", " + ListText(names[1..])
  }

  function TermsText(terms: seq<Term>): string
    requires terms != []
  {
    if |terms| == 1 then TermText(terms[0]) else TermText(terms[0]) + " and " + TermsText(terms[1..])
  }

  function WhereText(terms: seq<Term>): string {
    if terms == [] then "" else " where " + TermsText(terms)
  }

  function QueryString(q: Query): string
    requires q.fields != [] && q.tables != []
  {
    "select " + (ListText(q.fields) + (" from " + (ListText(q.tables) + WhereText(q.terms))))
  }

  lemma Grouped(a: string, b: string, c: string)
    ensures a + b + c == a + (b + c)
  {
  }

  // ---- tokens ----

  /** A number has the digits read and the count of those after a point. */
  datatype Token = Word(s: string) | Number(neg: bool, digits: nat, decimals: nat) | Delim(c: char)

  // The character classes that the lexer sets up.

  predicate White(c: char) {
    c <= ' '
  }

  predicate DigitChar(c: char) {
    '0' <= c <= '9'
  }

  predicate NumberChar(c: char) {
    DigitChar(c) || c == '-'
  }

  predicate Upper(c: char) {
    'A' <= c <= 'Z'
  }

  predicate Alpha(c: char) {
    'a' <= c <= 'z' || Upper(c) || c == '_' || 160 <= c as int
  }

  predicate WordChar(c: char) {
    Alpha(c) || NumberChar(c)
  }

  predicate Quote(c: char) {
    c == '\'' || c == '"'
  }

  predicate NoQuotes(s: string) {
    forall i :: 0 <= i < |s| ==> !Quote(s[i])
  }

  predicate LineEnd(c: char) {
    c == '\n' || c == '\r'
  }

  function LowerChar(c: char): char {
    if Upper(c) then c - 'A' + 'a' else c
  }

  function Lower(s: string): (l: string)
    ensures |l| == |s| && forall i :: 0 <= i < |s| ==> l[i] == LowerChar(s[i])
  {
    if s == "" then "" else [LowerChar(s[0])] + Lower(s[1..])
  }

  function DigitValue(c: char): nat
    requires DigitChar(c)
  {
    (c - '0') as int
  }

  function WordEnd(r: string, i: nat): (e: nat)
    requires i <= |r|
    ensures i <= e <= |r| && (forall k :: i <= k < e ==> WordChar(r[k])) && (e < |r| ==> !WordChar(r[e]))
    decreases |r| - i
  {
    if i < |r| && WordChar(r[i]) then WordEnd(r, i + 1) else i
  }

  /** A number's loop: digits, and one point. */
  datatype Scan = Scan(end: nat, digits: nat, decimals: nat)

  function ScanNumber(r: string, i: nat, dot: bool, v: nat, decimals: nat): (s: Scan)
    requires i <= |r|
    ensures i <= s.end <= |r|
    decreases |r| - i
  {
    if i < |r| && r[i] == '.' && !dot then ScanNumber(r, i + 1, true, v, decimals)
    else if i < |r| && DigitChar(r[i]) then
      ScanNumber(r, i + 1, dot, v * 10 + DigitValue(r[i]), if dot then decimals + 1 else decimals)
    else Scan(i, v, decimals)
  }

  predicate NumberFollows(r: string) {
    r != "" && (r[0] == '.' || DigitChar(r[0]))
  }

  function SkipLine(r: string): (rest: string)
    ensures |rest| <= |r|
  {
    if r == "" || LineEnd(r[0]) then r else SkipLine(r[1..])
  }

  datatype Next = End | Next(token: Token, rest: string)

  /** The first token of a text without quotes. */
  function NextOf(r: string): (n: Next)
    ensures n.Next? ==> |n.rest| < |r|
    decreases |r|
  {
    if r == "" then End
    else if White(r[0]) then NextOf(r[1..])
    else if NumberChar(r[0]) then
      if r[0] == '-' && !NumberFollows(r[1..]) then Next(Delim('-'), r[1..])
      else
        var start := if r[0] == '-' then 1 else 0;
        var s := ScanNumber(r, start, false, 0, 0);
        NumberMoves(r, start);
        Next(Number(r[0] == '-', s.digits, s.decimals), r[s.end..])
    else if Alpha(r[0]) then
      var e := WordEnd(r, 1);
      Next(Word(Lower(r[..e])), r[e..])
    else if r[0] == '/' then NextOf(SkipLine(r[1..]))
    else Next(Delim(r[0]), r[1..])
  }

  lemma {:induction false} NumberMoves(r: string, i: nat)
    requires i <= |r| && NumberFollows(r[i..])
    ensures ScanNumber(r, i, false, 0, 0).end > i
  {
  }

  function Tokens(r: string): (ts: seq<Token>)
    decreases |r|
  {
    match NextOf(r)
    case End => []
    case Next(token, rest) => [token] + Tokens(rest)
  }

  // ---- parsing ----

  const Keywords := {"select", "from", "where", "and", "insert", "into", "values", "delete", "update", "set", "create",
                     "table", "int", "varchar", "view", "as", "index", "on"}

  datatype Parsed<T> = BadSyntax | Parsed(value: T, rest: seq<Token>)

  predicate IsId(ts: seq<Token>) {
    ts != [] && ts[0].Word? && ts[0].s !in Keywords
  }

  predicate IsKeyword(ts: seq<Token>, w: string) {
    ts != [] && ts[0] == Word(w)
  }

  predicate IsDelim(ts: seq<Token>, c: char) {
    ts != [] && ts[0] == Delim(c)
  }

  function Pow10(n: nat): (p: nat)
    ensures p > 0
  {
    if n == 0 then 1 else 10 * Pow10(n - 1)
  }

  /** The conversion of the number to an int drops its decimals. */
  function IntOf(t: Token): int
    requires t.Number?
  {
    var v := t.digits / Pow10(t.decimals);
    if t.neg then -v else v
  }

  function ExpressionOf(ts: seq<Token>): Parsed<Expression> {
    if IsId(ts) then Parsed(Field(ts[0].s), ts[1..])
    else if ts != [] && ts[0].Number? then Parsed(IntConst(IntOf(ts[0])), ts[1..])
    else BadSyntax
  }

  function TermOf(ts: seq<Token>): (p: Parsed<Term>)
    ensures p.Parsed? ==> |p.rest| < |ts|
  {
    var lhs := ExpressionOf(ts);
    if lhs.BadSyntax? || !IsDelim(lhs.rest, '=') then BadSyntax
    else
      var rhs := ExpressionOf(lhs.rest[1..]);
      if rhs.BadSyntax? then BadSyntax else Parsed(Term(lhs.value, rhs.value), rhs.rest)
  }

  function TermsOf(ts: seq<Token>): (p: Parsed<seq<Term>>)
    ensures p.Parsed? ==> p.value != []
    decreases |ts|
  {
    var t := TermOf(ts);
    if t.BadSyntax? then BadSyntax
    else if IsKeyword(t.rest, "and") then
      var more := TermsOf(t.rest[1..]);
      if more.BadSyntax? then BadSyntax else Parsed([t.value] + more.value, more.rest)
    else Parsed([t.value], t.rest)
  }

  function ListOf(ts: seq<Token>): (p: Parsed<seq<string>>)
    ensures p.Parsed? ==> p.value != []
    decreases |ts|
  {
    if !IsId(ts) then BadSyntax
    else if IsDelim(ts[1..], ',') then
      var more := ListOf(ts[2..]);
      if more.BadSyntax? then BadSyntax else Parsed([ts[0].s] + more.value, more.rest)
    else Parsed([ts[0].s], ts[1..])
  }

  function WhereOf(ts: seq<Token>): Parsed<seq<Term>> {
    if IsKeyword(ts, "where") then TermsOf(ts[1..]) else Parsed([], ts)
  }

  /** What follows the query in the text is not looked at. */
  function QueryOf(ts: seq<Token>): (p: Parsed<Query>)
    ensures p.Parsed? ==> p.value.fields != [] && p.value.tables != []
  {
    if !IsKeyword(ts, "select") then BadSyntax
    else
      var fields := ListOf(ts[1..]);
      if fields.BadSyntax? || !IsKeyword(fields.rest, "from") then BadSyntax
      else
        var tables := ListOf(fields.rest[1..]);
        if tables.BadSyntax? then BadSyntax
        else
          var terms := WhereOf(tables.rest);
          if terms.BadSyntax? then BadSyntax
          else Parsed(Query(fields.value, tables.value, terms.value), terms.rest)
  }

  // ---- names and numbers as tokens ----

  /** A lower-case identifier that is not a keyword. */
  predicate IsName(s: string) {
    && s != "" && Alpha(s[0]) && (forall i :: 0 <= i < |s| ==> WordChar(s[i]) && !Upper(s[i]))
    && s !in Keywords
  }

  predicate IsWordText(s: string) {
    s != "" && Alpha(s[0]) && forall i :: 0 <= i < |s| ==> WordChar(s[i]) && !Upper(s[i])
  }

  /** Where a word or a number ends. */
  predicate Ends(r: string) {
    r == "" || (!WordChar(r[0]) && r[0] != '.')
  }

  lemma {:induction false} WordToken(w: string, r: string)
    requires IsWordText(w) && Ends(r)
    ensures Tokens(w + r) == [Word(w)] + Tokens(r)
  {
    var all := w + r;
    WordEndIs(all, 1, |w|);
    assert all[..|w|] == w && all[|w|..] == r && all[0] == w[0];
    assert Lower(w) == w;
    assert !NumberChar(all[0]) && !White(all[0]);
  }

  lemma {:induction false} WordEndIs(r: string, i: nat, e: nat)
    requires i <= e <= |r| && (forall k :: i <= k < e ==> WordChar(r[k])) && (e < |r| ==> !WordChar(r[e]))
    ensures WordEnd(r, i) == e
  {
    var f := WordEnd(r, i);
    assert forall k :: i <= k < f ==> WordChar(r[k]);
  }

  lemma {:induction false} SpaceToken(r: string)
    ensures Tokens(" " + r) == Tokens(r)
  {
    assert (" " + r)[1..] == r;
  }

  lemma {:induction false} DelimToken(c: char, r: string)
    requires c == ',' || c == '='
    ensures Tokens([c] + r) == [Delim(c)] + Tokens(r)
  {
    assert ([c] + r)[1..] == r;
  }

  // The value of a string of digits.

  predicate AllDigits(s: string) {
    forall i :: 0 <= i < |s| ==> DigitChar(s[i])
  }

  function ValueOf(s: string): nat
    requires AllDigits(s)
  {
    if s == "" then 0 else ValueOf(s[..|s| - 1]) * 10 + DigitValue(s[|s| - 1])
  }

  lemma {:induction false} NatTextValue(n: nat)
    ensures AllDigits(NatText(n)) && ValueOf(NatText(n)) == n
  {
    if n < 10 {
      assert DigitChar(Digit(n)) && DigitValue(Digit(n)) == n;
      assert NatText(n)[..0] == "";
    } else {
      NatTextValue(n / 10);
      var last := Digit(n % 10);
      assert DigitChar(last) && DigitValue(last) == n % 10;
      assert NatText(n)[..|NatText(n)| - 1] == NatText(n / 10);
    }
  }

  lemma {:induction false} ScanDigits(a: string, s: string, r: string, i: nat)
    requires AllDigits(s) && i <= |s| && Ends(r)
    ensures ScanNumber(a + s + r, |a| + i, false, ValueOf(s[..i]), 0) == Scan(|a| + |s|, ValueOf(s), 0)
    decreases |s| - i
  {
    var all := a + s + r;
    if i < |s| {
      assert all[|a| + i] == s[i];
      assert s[..i + 1][..i] == s[..i];
      ScanDigits(a, s, r, i + 1);
    } else {
      assert s[..i] == s;
      assert |a| + i < |all| ==> all[|a| + i] == r[0];
    }
  }

  lemma {:induction false} DigitsNext(neg: bool, s: string, r: string)
    requires AllDigits(s) && s != "" && Ends(r)
    ensures NextOf((if neg then "-" else "") + s + r) == Next(Number(neg, ValueOf(s), 0), r)
  {
    var a := if neg then "-" else "";
    var all := a + s + r;
    assert s[..0] == "";
    ScanDigits(a, s, r, 0);
    assert all[|a|] == s[0] && all[0] == if neg then '-' else s[0];
    assert neg ==> all[1..][0] == s[0];
    assert all[|a| + |s|..] == r;
    hide ScanNumber, ValueOf;
  }

  /** A printed number is read back as one token with its value. */
  lemma {:induction false} NumberToken(i: int, r: string) returns (t: Token)
    requires Ends(r)
    ensures t.Number? && IntOf(t) == i && Tokens(IntText(i) + r) == [t] + Tokens(r)
  {
    var n: nat := if i < 0 then -i else i;
    NatTextValue(n);
    DigitsNext(i < 0, NatText(n), r);
    assert IntText(i) + r == (if i < 0 then "-" else "") + NatText(n) + r;
    t := Number(i < 0, n, 0);
    hide NextOf, NatText, IntText, ValueOf, IntOf;
    WholeNumber(i < 0, n);
  }

  lemma {:induction false} WholeNumber(neg: bool, n: nat)
    ensures IntOf(Number(neg, n, 0)) == if neg then 0 - n else n
  {
    assert Pow10(0) == 1;
  }

  // ---- numbers with decimals ----

  lemma {:induction false} ValueOfBoth(s: string, d: string)
    requires AllDigits(s) && AllDigits(d)
    ensures AllDigits(s + d) && ValueOf(d) < Pow10(|d|)
    ensures ValueOf(s + d) == ValueOf(s) * Pow10(|d|) + ValueOf(d)
    decreases |d|
  {
    if d == "" {
      assert s + d == s;
    } else {
      var n := |d| - 1;
      ValueOfBoth(s, d[..n]);
      assert (s + d)[..|s| + n] == s + d[..n] && (s + d)[|s| + n] == d[n];
      assert Pow10(|d|) == 10 * Pow10(n);
      TenTimes(ValueOf(s), Pow10(n));
    }
  }

  lemma TenTimes(v: nat, p: nat)
    ensures v * (10 * p) == 10 * (v * p)
  {
  }

  lemma {:induction false} ScanDecimals(a: string, s: string, d: string, r: string, i: nat)
    requires AllDigits(s) && AllDigits(d) && AllDigits(s + d) && i <= |d| && Ends(r)
    ensures AllDigits(s + d[..i])
    ensures ScanNumber(a + s + "." + d + r, |a| + |s| + 1 + i, true, ValueOf(s + d[..i]), i) ==
            Scan(|a| + |s| + 1 + |d|, ValueOf(s + d), |d|)
    decreases |d| - i
  {
    var all := a + s + "." + d + r;
    if i < |d| {
      assert all[|a| + |s| + 1 + i] == d[i];
      var more := s + d[..i + 1];
      assert more[..|more| - 1] == s + d[..i] && more[|more| - 1] == d[i];
      ScanDecimals(a, s, d, r, i + 1);
    } else {
      assert d[..i] == d;
      assert |a| + |s| + 1 + i < |all| ==> all[|a| + |s| + 1 + i] == r[0];
    }
  }

  /** The digits before the point, then the point and the decimals. */
  lemma {:induction false} ScanBoth(a: string, s: string, d: string, r: string, i: nat)
    requires AllDigits(s) && AllDigits(d) && AllDigits(s + d) && i <= |s| && Ends(r)
    ensures ScanNumber(a + s + "." + d + r, |a| + i, false, ValueOf(s[..i]), 0) ==
            Scan(|a| + |s| + 1 + |d|, ValueOf(s + d), |d|)
    decreases |s| - i
  {
    var all := a + s + "." + d + r;
    if i < |s| {
      assert all[|a| + i] == s[i];
      assert s[..i + 1][..i] == s[..i];
      ScanBoth(a, s, d, r, i + 1);
    } else {
      assert all[|a| + |s|] == '.';
      assert s[..i] == s && s + d[..0] == s;
      ScanDecimals(a, s, d, r, 0);
    }
  }

  /** As an integer, a number loses its decimals, on both sides of 0. */
  lemma {:induction false} DecimalToken(neg: bool, s: string, d: string, r: string) returns (t: Token)
    requires AllDigits(s) && AllDigits(d) && s != "" && Ends(r)
    ensures NextOf((if neg then "-" else "") + s + "." + d + r) == Next(t, r)
    ensures t.Number? && IntOf(t) == if neg then 0 - ValueOf(s) else ValueOf(s)
  {
    var a := if neg then "-" else "";
    var all := a + s + "." + d + r;
    ValueOfBoth(s, d);
    assert s[..0] == "";
    ScanBoth(a, s, d, r, 0);
    assert all[|a|] == s[0] && all[0] == if neg then '-' else s[0];
    assert neg ==> all[1..][0] == s[0];
    assert all[|a| + |s| + 1 + |d|..] == r;
    t := Number(neg, ValueOf(s + d), |d|);
    Truncated(ValueOf(s), ValueOf(d), Pow10(|d|));
    hide ScanNumber, ValueOf, Pow10;
  }

  lemma {:induction false} Truncated(v: nat, rest: nat, p: nat)
    requires rest < p
    ensures (v * p + rest) / p == v
  {
    var x := v * p + rest;
    var q := x / p;
    assert x == q * p + x % p;
    if q < v {
      TimesGrows(q + 1, v, p);
    } else if q > v {
      TimesGrows(v + 1, q, p);
    }
  }

  lemma {:induction false} TimesGrows(a: nat, b: nat, p: nat)
    requires a <= b
    ensures a * p <= b * p && (a > 0 ==> a * p == (a - 1) * p + p)
  {
    if a < b {
      TimesGrows(a, b - 1, p);
      assert b * p == (b - 1) * p + p;
    }
  }
}
