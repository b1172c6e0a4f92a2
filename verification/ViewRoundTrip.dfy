/** A view is stored as the text of its query: what reading that text back gives. */
module ViewRoundTrip {
  import opened QueryText

  predicate GoodExpression(e: Expression) {
    match e
    case Field(name) => IsName(name)
    case IntConst(_) => true
    case StrConst(_) => false
  }

  predicate GoodTerm(t: Term) {
    GoodExpression(t.lhs) && GoodExpression(t.rhs)
  }

  predicate GoodNames(names: seq<string>) {
    names != [] && forall i :: 0 <= i < |names| ==> IsName(names[i])
  }

  predicate GoodTerms(terms: seq<Term>) {
    forall i :: 0 <= i < |terms| ==> GoodTerm(terms[i])
  }

  /** Lower-case names that are not keywords, and terms over fields and integers. */
  predicate GoodQuery(q: Query) {
    GoodNames(q.fields) && GoodNames(q.tables) && GoodTerms(q.terms)
  }

  // ---- what is printed is parsed ----

  lemma {:induction false} ExpressionRound(e: Expression, r: string)
    requires GoodExpression(e) && Ends(r)
    ensures ExpressionOf(Tokens(ExpressionText(e) + r)) == Parsed(e, Tokens(r))
  {
    match e
    case Field(name) =>
      WordToken(name, r);
    case IntConst(i) =>
      var t := NumberToken(i, r);
  }

  lemma {:induction false} TermRound(t: Term, r: string)
    requires GoodTerm(t) && Ends(r)
    ensures TermOf(Tokens(TermText(t) + r)) == Parsed(t, Tokens(r))
  {
    var rhs := ExpressionText(t.rhs) + r;
    var after := " = " + rhs;
    ExpressionRound(t.lhs, after);
    EqualsToken(rhs);
    ExpressionRound(t.rhs, r);
    assert TermText(t) + r == ExpressionText(t.lhs) + after;
    hide ExpressionText, ExpressionOf, Tokens;
    assert ([Delim('=')] + Tokens(rhs))[1..] == Tokens(rhs);
  }

  lemma {:induction false} EqualsToken(r: string)
    ensures Tokens(" = " + r) == [Delim('=')] + Tokens(r)
  {
    SpaceToken("= " + r);
    assert " = " + r == " " + ("= " + r);
    DelimToken('=', " " + r);
    assert "= " + r == ['='] + (" " + r);
    SpaceToken(r);
  }

  /** A keyword between blanks. */
  lemma {:induction false} KeywordToken(w: string, r: string)
    requires IsWordText(w)
    ensures Tokens(" " + w + " " + r) == [Word(w)] + Tokens(r)
    ensures Tokens(w + " " + r) == [Word(w)] + Tokens(r)
  {
    assert Ends(" " + r);
    hide Tokens, IsWordText, Ends;
    Chained(" ", w, " ", r);
    Grouped(w, " ", r);
    SpaceToken(w + (" " + r));
    WordToken(w, " " + r);
    SpaceToken(r);
  }

  lemma Chained(a: string, b: string, c: string, d: string)
    ensures a + b + c + d == a + (b + (c + d))
  {
  }

  lemma {:induction false} AndToken(r: string)
    ensures Tokens(" and " + r) == [Word("and")] + Tokens(r) && Ends(" and " + r)
  {
    KeywordToken("and", r);
    assert " " + "and" + " " + r == " and " + r;
  }

  lemma {:induction false} FromToken(r: string)
    ensures Tokens(" from " + r) == [Word("from")] + Tokens(r) && Ends(" from " + r)
  {
    KeywordToken("from", r);
    assert " " + "from" + " " + r == " from " + r;
  }

  lemma {:induction false} WhereToken(r: string)
    ensures Tokens(" where " + r) == [Word("where")] + Tokens(r) && Ends(" where " + r)
  {
    KeywordToken("where", r);
    assert " " + "where" + " " + r == " where " + r;
  }

  lemma {:induction false} SelectToken(r: string)
    ensures Tokens("select " + r) == [Word("select")] + Tokens(r)
  {
    KeywordToken("select", r);
    assert "select" + " " + r == "select " + r;
  }

  lemma Behind(t: Token, ts: seq<Token>)
    ensures ([t] + ts)[1..] == ts && ([t] + ts)[0] == t
  {
  }

  lemma {:induction false} TermsRound(terms: seq<Term>, r: string)
    requires terms != [] && GoodTerms(terms) && Ends(r) && !IsKeyword(Tokens(r), "and")
    ensures TermsOf(Tokens(TermsText(terms) + r)) == Parsed(terms, Tokens(r))
  {
    hide Tokens, TermOf, TermText, GoodTerm, Ends;
    if |terms| == 1 {
      TermRound(terms[0], r);
      assert [terms[0]] == terms;
    } else {
      var more := TermsText(terms[1..]) + r;
      AndToken(more);
      TermRound(terms[0], " and " + more);
      TermsRound(terms[1..], r);
      Chained(TermText(terms[0]), " and ", TermsText(terms[1..]), r);
      Behind(Word("and"), Tokens(more));
      assert [terms[0]] + terms[1..] == terms;
    }
  }

  lemma {:induction false} CommaToken(r: string)
    ensures Tokens(", " + r) == [Delim(',')] + Tokens(r) && Ends(", " + r)
  {
    DelimToken(',', " " + r);
    assert ", " + r == [','] + (" " + r);
    SpaceToken(r);
  }

  lemma {:induction false} ListRound(names: seq<string>, r: string)
    requires GoodNames(names) && Ends(r) && !IsDelim(Tokens(r), ',')
    ensures ListOf(Tokens(ListText(names) + r)) == Parsed(names, Tokens(r))
  {
    hide Tokens, Ends;
    if |names| == 1 {
      WordToken(names[0], r);
      Behind(Word(names[0]), Tokens(r));
      assert [names[0]] == names;
    } else {
      var more := ListText(names[1..]) + r;
      CommaToken(more);
      WordToken(names[0], ", " + more);
      ListRound(names[1..], r);
      Chained(names[0], ", ", ListText(names[1..]), r);
      ListStep(names[0], Tokens(more));
      assert [names[0]] + names[1..] == names;
    }
  }

  lemma {:induction false} ListStep(name: string, more: seq<Token>)
    requires IsName(name)
    ensures var ts := [Word(name)] + ([Delim(',')] + more);
            ListOf(ts) == if ListOf(more).BadSyntax? then BadSyntax
                          else Parsed([name] + ListOf(more).value, ListOf(more).rest)
  {
    var ts := [Word(name)] + ([Delim(',')] + more);
    assert ts[1..] == [Delim(',')] + more && ts[2..] == more;
  }

  /** The WHERE part, at the end of the text. */
  lemma {:induction false} WhereRound(terms: seq<Term>)
    requires GoodTerms(terms)
    ensures Ends(WhereText(terms)) && WhereOf(Tokens(WhereText(terms))) == Parsed(terms, [])
    ensures !IsDelim(Tokens(WhereText(terms)), ',')
  {
    assert Tokens("") == [];
    if terms != [] {
      hide Tokens, TermsOf, TermsText, GoodTerms;
      var text := TermsText(terms);
      TermsRound(terms, "");
      assert text + "" == text;
      WhereToken(text);
      Behind(Word("where"), Tokens(text));
    }
  }

  /** The text of a view's query is read back as the same query, with nothing left over. */
  lemma {:induction false} ViewRoundTrip(q: Query)
    requires GoodQuery(q)
    ensures QueryOf(Tokens(QueryString(q))) == Parsed(q, [])
  {
    hide Tokens, ListOf, WhereOf, ListText, WhereText, GoodTerms, Ends;
    var whereText := WhereText(q.terms);
    WhereRound(q.terms);
    ListRound(q.tables, whereText);
    var tableText := ListText(q.tables) + whereText;
    FromToken(tableText);
    Behind(Word("from"), Tokens(tableText));
    ListRound(q.fields, " from " + tableText);
    var fieldText := ListText(q.fields) + (" from " + tableText);
    SelectToken(fieldText);
    Behind(Word("select"), Tokens(fieldText));
  }

  // ---- what is parsed can be printed ----

  lemma {:induction false} LowerWord(w: string)
    requires w != "" && Alpha(w[0]) && forall i :: 0 <= i < |w| ==> WordChar(w[i])
    ensures IsWordText(Lower(w))
  {
  }

  predicate WordsOk(ts: seq<Token>) {
    forall i :: 0 <= i < |ts| && ts[i].Word? ==> IsWordText(ts[i].s)
  }

  lemma {:induction false} NextWord(r: string)
    ensures NextOf(r).Next? && NextOf(r).token.Word? ==> IsWordText(NextOf(r).token.s)
    decreases |r|
  {
    if r == "" {
    } else if White(r[0]) {
      NextWord(r[1..]);
    } else if NumberChar(r[0]) {
    } else if Alpha(r[0]) {
      LowerWord(r[..WordEnd(r, 1)]);
    } else if r[0] == '/' {
      NextWord(SkipLine(r[1..]));
    }
  }

  lemma {:induction false} TokenWords(r: string)
    ensures WordsOk(Tokens(r))
    decreases |r|
  {
    NextWord(r);
    match NextOf(r)
    case End =>
    case Next(_, rest) => TokenWords(rest);
  }

  /** The rest of a list of tokens. */
  ghost predicate Suffix(a: seq<Token>, b: seq<Token>) {
    |a| <= |b| && a == b[|b| - |a|..]
  }

  lemma {:induction false} SuffixWords(a: seq<Token>, b: seq<Token>)
    requires Suffix(a, b) && WordsOk(b)
    ensures WordsOk(a)
  {
    forall i | 0 <= i < |a| && a[i].Word? ensures IsWordText(a[i].s) {
      assert a[i] == b[|b| - |a| + i];
    }
  }

  lemma {:induction false} ParsedTerm(ts: seq<Token>)
    requires WordsOk(ts) && TermOf(ts).Parsed?
    ensures GoodTerm(TermOf(ts).value) && WordsOk(TermOf(ts).rest)
  {
    var lhs := ExpressionOf(ts);
    SuffixWords(lhs.rest[1..], ts);
    var rhs := ExpressionOf(lhs.rest[1..]);
    SuffixWords(rhs.rest, lhs.rest[1..]);
  }

  lemma {:induction false} ParsedTerms(ts: seq<Token>)
    requires WordsOk(ts) && TermsOf(ts).Parsed?
    ensures GoodTerms(TermsOf(ts).value)
    decreases |ts|
  {
    ParsedTerm(ts);
    var t := TermOf(ts);
    if IsKeyword(t.rest, "and") {
      SuffixWords(t.rest[1..], t.rest);
      ParsedTerms(t.rest[1..]);
    }
  }

  lemma {:induction false} ParsedList(ts: seq<Token>)
    requires WordsOk(ts) && ListOf(ts).Parsed?
    ensures GoodNames(ListOf(ts).value) && WordsOk(ListOf(ts).rest)
    decreases |ts|
  {
    assert IsWordText(ts[0].s);
    SuffixWords(ts[1..], ts);
    if IsDelim(ts[1..], ',') {
      SuffixWords(ts[2..], ts);
      ParsedList(ts[2..]);
    }
  }

  lemma {:induction false} ParsedQuery(ts: seq<Token>)
    requires WordsOk(ts) && QueryOf(ts).Parsed?
    ensures GoodQuery(QueryOf(ts).value)
  {
    SuffixWords(ts[1..], ts);
    ParsedList(ts[1..]);
    var fields := ListOf(ts[1..]);
    SuffixWords(fields.rest[1..], fields.rest);
    ParsedList(fields.rest[1..]);
    var tables := ListOf(fields.rest[1..]);
    if IsKeyword(tables.rest, "where") {
      SuffixWords(tables.rest[1..], tables.rest);
      ParsedTerms(tables.rest[1..]);
    }
  }

  /** Every query that the parser accepts is stored and read back unchanged. */
  lemma {:induction false} ParsedViewRoundTrip(text: string)
    requires NoQuotes(text) && QueryOf(Tokens(text)).Parsed?
    ensures var q := QueryOf(Tokens(text)).value;
            GoodQuery(q) && QueryOf(Tokens(QueryString(q))) == Parsed(q, [])
  {
    TokenWords(text);
    ParsedQuery(Tokens(text));
    ViewRoundTrip(QueryOf(Tokens(text)).value);
  }

  /** A stored query comes back just when its names are lower-case and not keywords and it has no string constant:
      strings lose their quotes. */
  lemma {:induction false} RoundTripIff(q: Query)
    requires q.fields != [] && q.tables != [] && NoQuotes(QueryString(q))
    ensures QueryOf(Tokens(QueryString(q))) == Parsed(q, []) <==> GoodQuery(q)
  {
    if GoodQuery(q) {
      ViewRoundTrip(q);
    } else if QueryOf(Tokens(QueryString(q))).Parsed? {
      TokenWords(QueryString(q));
      ParsedQuery(Tokens(QueryString(q)));
    }
  }

  /** The string constant in "select a from t where a = 'b'" is printed as b, and read back as the field b. */
  lemma {:induction false} StringReadAsField()
    ensures var q := Query(["a"], ["t"], [Term(Field("a"), StrConst("b"))]);
            QueryOf(Tokens(QueryString(q))) == Parsed(Query(["a"], ["t"], [Term(Field("a"), Field("b"))]), [])
  {
    var q := Query(["a"], ["t"], [Term(Field("a"), StrConst("b"))]);
    var read := Query(["a"], ["t"], [Term(Field("a"), Field("b"))]);
    assert TermText(q.terms[0]) == TermText(read.terms[0]);
    assert QueryString(q) == QueryString(read);
    ViewRoundTrip(read);
  }
}
