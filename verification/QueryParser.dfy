/** The tokenizer, lexer and parser over a text, and the printing loops. */
module QueryParser {
  import opened QueryText

  const EOF := -1
  const NEED_CHAR := 0x7fff_ffff

  const TT_EOF := -1
  const TT_NUMBER := -2
  const TT_WORD := -3
  const TT_NOTHING := -4

  predicate IsCode(n: int) {
    0 <= n < 0xd800 || 0xe000 <= n < 0x11_0000
  }

  /** Reads a text without quotes, with the character classes of the lexer and a lookahead of one character. */
  class StreamTokenizer {
    const input: string
    var pos: nat
    var peekc: int
    var ttype: int
    var sval: string
    var nval: Token

    ghost predicate Valid()
      reads this
    {
      && pos <= |input| && nval.Number?
      && (peekc == NEED_CHAR || (peekc == EOF && pos == |input|) || (pos > 0 && peekc == input[pos - 1] as int))
    }

    /** The text not yet made into tokens. */
    ghost function Rest(): string
      reads this
      requires Valid()
    {
      if peekc == NEED_CHAR || peekc == EOF then input[pos..] else input[pos - 1..]
    }

    /** The character in hand and the text behind it. */
    ghost predicate At(c: int, r: string)
      reads this
    {
      pos <= |input| && if c == EOF then r == "" && pos == |input|
                        else pos > 0 && c == input[pos - 1] as int && r == input[pos - 1..]
    }

    ghost predicate HasToken()
      reads this
    {
      ttype == TT_EOF || ttype == TT_NUMBER || ttype == TT_WORD || IsCode(ttype)
    }

    /** The current token, for a type that is not the end of the text. */
    ghost function Current(): Next
      reads this
      requires Valid() && HasToken()
    {
      if ttype == TT_EOF then End
      else Next(if ttype == TT_WORD then Word(sval) else if ttype < 0 then nval else Delim(ttype as char), Rest())
    }

    constructor (input: string)
      requires NoQuotes(input)
      ensures this.input == input && Valid() && Rest() == input && ttype == TT_NOTHING
    {
      this.input := input;
      pos, peekc, ttype, sval, nval := 0, NEED_CHAR, TT_NOTHING, "", Number(false, 0, 0);
    }

    method Get() returns (c: int)
      requires pos <= |input|
      modifies this`pos
      ensures At(c, input[old(pos)..])
      ensures pos == if old(pos) < |input| then old(pos) + 1 else old(pos)
    {
      if pos < |input| {
        c := input[pos] as int;
        pos := pos + 1;
      } else {
        c := EOF;
      }
    }

    /** One token on. */
    method NextToken()
      requires Valid()
      modifies this
      ensures Valid() && HasToken() && Current() == NextOf(old(Rest()))
      ensures ttype == TT_EOF ==> Rest() == ""
      decreases |Rest()|
    {
      ghost var r := Rest();
      sval := "";
      var c := peekc;
      if c == EOF {
        c := NEED_CHAR;
      }
      if c == NEED_CHAR {
        c := Get();
        if c == EOF {
          ttype := TT_EOF;
          return;
        }
      }
      ttype := c;
      peekc := NEED_CHAR;
      c := SkipWhite(c, r);
      if c == EOF {
        ttype := TT_EOF;
        return;
      }
      ReadToken(c, input[pos - 1..]);
    }

    method SkipWhite(c0: int, ghost r0: string) returns (c: int)
      requires At(c0, r0) && c0 != EOF && peekc == NEED_CHAR
      modifies this`pos
      ensures pos <= |input| && (c == EOF ==> NextOf(r0) == End && pos == |input|)
      ensures c != EOF ==> pos > 0 && At(c, input[pos - 1..]) && !White(input[pos - 1])
      ensures c != EOF ==> NextOf(input[pos - 1..]) == NextOf(r0) && |input| - pos < |r0|
    {
      c := c0;
      ghost var r := r0;
      while c != EOF && White(input[pos - 1])
        invariant At(c, r) && NextOf(r) == NextOf(r0) && |r| <= |r0|
        decreases |r|
      {
        if c == '\r' as int {
          c := Get();
          r := r[1..];
          if c == '\n' as int {
            c := Get();
            r := r[1..];
          }
        } else {
          c := Get();
          r := r[1..];
        }
      }
    }

    method ReadToken(c: int, ghost r: string)
      requires At(c, r) && c != EOF && !White(r[0]) && peekc == NEED_CHAR && nval.Number?
      modifies this
      ensures Valid() && HasToken() && Current() == NextOf(r)
      ensures ttype == TT_EOF ==> Rest() == ""
      decreases |r|, 0
    {
      var ch := input[pos - 1];
      if NumberChar(ch) {
        ReadNumber(c, r);
      } else if Alpha(ch) {
        ReadWord(c, r);
      } else if ch == '/' {
        SkipComment(r);
        NextToken();
      } else {
        ttype := c;
      }
    }

    method ReadWord(c: int, ghost r: string)
      requires At(c, r) && c != EOF && Alpha(r[0]) && nval.Number?
      modifies this
      ensures Valid() && nval == old(nval) && ttype == TT_WORD
      ensures var e := WordEnd(r, 1); sval == Lower(r[..e]) && Rest() == r[e..]
    {
      hide Alpha, Lower, WordEnd;
      var next, buf := ReadChars(r);
      peekc := next;
      sval := Lower(buf);
      ttype := TT_WORD;
    }

    method ReadChars(ghost r: string) returns (c: int, buf: string)
      requires r != "" && At(r[0] as int, r)
      modifies this`pos
      ensures var e := WordEnd(r, 1); At(c, r[e..]) && buf == r[..e]
    {
      buf := [input[pos - 1]];
      assert r[..1] == buf;
      c := Get();
      ghost var n := 1;
      hide Alpha, NumberChar;
      while c != EOF && WordChar(input[pos - 1])
        invariant 1 <= n <= |r| && At(c, r[n..]) && buf == r[..n] && WordEnd(r, n) == WordEnd(r, 1)
        decreases |r| - n
      {
        assert r[n] == input[pos - 1] && r[..n + 1] == r[..n] + [r[n]];
        buf := buf + [input[pos - 1]];
        c := Get();
        n := n + 1;
      }
    }

    /** The rest of the line is a comment. */
    method SkipComment(ghost r: string)
      requires r != "" && At(r[0] as int, r) && nval.Number?
      modifies this
      ensures Valid() && Rest() == SkipLine(r[1..]) && nval == old(nval)
    {
      var c := Get();
      ghost var left := r[1..];
      while c != EOF && !LineEnd(input[pos - 1])
        invariant At(c, left) && SkipLine(left) == SkipLine(r[1..]) && nval == old(nval)
        decreases |left|
      {
        c := Get();
        left := left[1..];
      }
      peekc := c;
    }

    method ReadNumber(c0: int, ghost r: string)
      requires At(c0, r) && c0 != EOF && NumberChar(r[0]) && !White(r[0]) && nval.Number?
      modifies this
      ensures Valid() && HasToken() && Current() == NextOf(r) && ttype != TT_EOF
    {
      var c := c0;
      var neg := c == '-' as int;
      if neg {
        c := Get();
        if c == EOF || !(input[pos - 1] == '.' || DigitChar(input[pos - 1])) {
          peekc := c;
          ttype := '-' as int;
          return;
        }
      }
      ReadDigits(c, r, if neg then 1 else 0, neg);
    }

    method ReadDigits(c0: int, ghost r: string, ghost start: nat, neg: bool)
      requires start <= |r| && At(c0, r[start..])
      modifies this
      ensures Valid() && ttype == TT_NUMBER
      ensures var s := ScanNumber(r, start, false, 0, 0);
              nval == Number(neg, s.digits, s.decimals) && Rest() == r[s.end..]
    {
      var c := c0;
      ghost var n := start;
      var dot := false;
      var v: nat, decimals: nat := 0, 0;
      while c != EOF && ((input[pos - 1] == '.' && !dot) || DigitChar(input[pos - 1]))
        invariant start <= n <= |r| && At(c, r[n..])
        invariant ScanNumber(r, n, dot, v, decimals) == ScanNumber(r, start, false, 0, 0)
        decreases |r| - n
      {
        assert r[n] == input[pos - 1];
        if input[pos - 1] == '.' && !dot {
          dot := true;
        } else {
          v := v * 10 + DigitValue(input[pos - 1]);
          decimals := if dot then decimals + 1 else decimals;
        }
        c := Get();
        n := n + 1;
      }
      peekc := c;
      nval := Number(neg, v, decimals);
      ttype := TT_NUMBER;
    }
  }

  /** The current token against what the parser expects. False is the exception for bad syntax. */
  class Lexer {
    const tokenizer: StreamTokenizer

    ghost predicate Valid()
      reads this, tokenizer
    {
      tokenizer.Valid() && tokenizer.HasToken() && (tokenizer.ttype == TT_EOF ==> tokenizer.Rest() == "")
    }

    /** The current token and those to come. */
    ghost function Ahead(): seq<Token>
      reads this, tokenizer
      requires Valid()
    {
      match tokenizer.Current()
      case End => []
      case Next(token, rest) => [token] + Tokens(rest)
    }

    constructor (text: string)
      requires NoQuotes(text)
      ensures fresh(tokenizer) && Valid() && Ahead() == Tokens(text)
    {
      tokenizer := new StreamTokenizer(text);
      new;
      tokenizer.NextToken();
    }

    method NextToken()
      requires Valid() && Ahead() != []
      modifies tokenizer
      ensures Valid() && Ahead() == old(Ahead())[1..]
    {
      tokenizer.NextToken();
    }

    predicate MatchDelim(c: char)
      reads tokenizer
    {
      tokenizer.ttype == c as int
    }

    predicate MatchIntConstant()
      reads tokenizer
    {
      tokenizer.ttype == TT_NUMBER
    }

    predicate MatchKeyword(w: string)
      reads tokenizer
    {
      tokenizer.ttype == TT_WORD && tokenizer.sval == w
    }

    predicate MatchId()
      reads tokenizer
    {
      tokenizer.ttype == TT_WORD && tokenizer.sval !in Keywords
    }

    /** The tests look at the token that is ahead. */
    lemma MatchesAhead(c: char, w: string)
      requires Valid()
      ensures MatchDelim(c) == IsDelim(Ahead(), c) && MatchKeyword(w) == IsKeyword(Ahead(), w)
      ensures MatchId() == IsId(Ahead()) && MatchIntConstant() == (Ahead() != [] && Ahead()[0].Number?)
    {
    }

    method EatDelim(c: char) returns (ok: bool)
      requires Valid()
      modifies tokenizer
      ensures Valid() && ok == IsDelim(old(Ahead()), c)
      ensures Ahead() == if ok then old(Ahead())[1..] else old(Ahead())
    {
      MatchesAhead(c, "");
      ok := MatchDelim(c);
      if ok {
        NextToken();
      }
    }

    method EatKeyword(w: string) returns (ok: bool)
      requires Valid()
      modifies tokenizer
      ensures Valid() && ok == IsKeyword(old(Ahead()), w)
      ensures Ahead() == if ok then old(Ahead())[1..] else old(Ahead())
    {
      MatchesAhead(',', w);
      ok := MatchKeyword(w);
      if ok {
        NextToken();
      }
    }

    method EatIntConstant() returns (ok: bool, i: int)
      requires Valid()
      modifies tokenizer
      ensures Valid() && ok == (old(Ahead()) != [] && old(Ahead())[0].Number?)
      ensures ok ==> i == IntOf(old(Ahead())[0]) && Ahead() == old(Ahead())[1..]
    {
      MatchesAhead(',', "");
      ok, i := MatchIntConstant(), 0;
      if ok {
        i := IntOf(tokenizer.nval);
        NextToken();
      }
    }

    method EatId() returns (ok: bool, s: string)
      requires Valid()
      modifies tokenizer
      ensures Valid() && ok == IsId(old(Ahead()))
      ensures ok ==> s == old(Ahead())[0].s && Ahead() == old(Ahead())[1..]
    {
      MatchesAhead(',', "");
      ok, s := MatchId(), tokenizer.sval;
      if ok {
        NextToken();
      }
    }
  }

  /** Recursive descent, each method against the function that says what its tokens stand for. */
  class Parser {
    const lexer: Lexer

    ghost predicate Valid()
      reads this, lexer, lexer.tokenizer
    {
      lexer.Valid()
    }

    constructor (text: string)
      requires NoQuotes(text)
      ensures Valid() && fresh(lexer) && fresh(lexer.tokenizer) && lexer.Ahead() == Tokens(text)
    {
      lexer := new Lexer(text);
    }

    method ParseExpression() returns (ok: bool, e: Expression)
      requires Valid()
      modifies lexer.tokenizer
      ensures Valid() && ok == ExpressionOf(old(lexer.Ahead())).Parsed?
      ensures ok ==> Parsed(e, lexer.Ahead()) == ExpressionOf(old(lexer.Ahead()))
    {
      lexer.MatchesAhead(',', "");
      e := IntConst(0);
      if lexer.MatchId() {
        var s;
        ok, s := lexer.EatId();
        e := Field(s);
      } else {
        var i;
        ok, i := lexer.EatIntConstant();
        e := IntConst(i);
      }
    }

    method ParseTerm() returns (ok: bool, t: Term)
      requires Valid()
      modifies lexer.tokenizer
      ensures Valid() && ok == TermOf(old(lexer.Ahead())).Parsed?
      ensures ok ==> Parsed(t, lexer.Ahead()) == TermOf(old(lexer.Ahead()))
    {
      var lhs, rhs;
      t := Term(IntConst(0), IntConst(0));
      ok, lhs := ParseExpression();
      if ok {
        ok := lexer.EatDelim('=');
      }
      if ok {
        ok, rhs := ParseExpression();
        t := Term(lhs, rhs);
      }
    }

    /** The terms of the predicate. */
    method ParsePredicate() returns (ok: bool, terms: seq<Term>)
      requires Valid()
      modifies lexer.tokenizer
      ensures Valid() && ok == TermsOf(old(lexer.Ahead())).Parsed?
      ensures ok ==> Parsed(terms, lexer.Ahead()) == TermsOf(old(lexer.Ahead()))
      decreases |lexer.Ahead()|
    {
      var t, more;
      ok, t := ParseTerm();
      terms := [t];
      if ok {
        lexer.MatchesAhead(',', "and");
        if lexer.MatchKeyword("and") {
          ok := lexer.EatKeyword("and");
          ok, more := ParsePredicate();
          terms := terms + more;
        }
      }
    }

    /** ParseSelectList and ParseTableList. */
    method ParseList() returns (ok: bool, names: seq<string>)
      requires Valid()
      modifies lexer.tokenizer
      ensures Valid() && ok == ListOf(old(lexer.Ahead())).Parsed?
      ensures ok ==> Parsed(names, lexer.Ahead()) == ListOf(old(lexer.Ahead()))
      decreases |lexer.Ahead()|
    {
      var name, more;
      ghost var ts := lexer.Ahead();
      ok, name := lexer.EatId();
      names := [name];
      if ok {
        lexer.MatchesAhead(',', "");
        if lexer.MatchDelim(',') {
          ok := lexer.EatDelim(',');
          assert ts[1..][1..] == ts[2..];
          ok, more := ParseList();
          names := names + more;
        }
      }
    }

    method ParseWhere() returns (ok: bool, terms: seq<Term>)
      requires Valid()
      modifies lexer.tokenizer
      ensures Valid() && ok == WhereOf(old(lexer.Ahead())).Parsed?
      ensures ok ==> Parsed(terms, lexer.Ahead()) == WhereOf(old(lexer.Ahead()))
    {
      ok, terms := true, [];
      lexer.MatchesAhead(',', "where");
      if lexer.MatchKeyword("where") {
        ok := lexer.EatKeyword("where");
        ok, terms := ParsePredicate();
      }
    }

    method ParseQuery() returns (ok: bool, q: Query)
      requires Valid()
      modifies lexer.tokenizer
      ensures Valid() && ok == QueryOf(old(lexer.Ahead())).Parsed?
      ensures ok ==> Parsed(q, lexer.Ahead()) == QueryOf(old(lexer.Ahead()))
    {
      hide TermsOf, ListOf, WhereOf, Tokens;
      var fields, tables, terms;
      q := Query([], [], []);
      ok := lexer.EatKeyword("select");
      if ok {
        ok, fields := ParseList();
      }
      if ok {
        ok := lexer.EatKeyword("from");
      }
      if ok {
        ok, tables := ParseList();
      }
      if ok {
        ok, terms := ParseWhere();
      }
      if ok {
        q := Query(fields, tables, terms);
      }
    }
  }

  // ---- printing ----

  /** Names with commas between them; the code counts up to one before the last. */
  method PrintList(prefix: string, names: seq<string>) returns (text: string)
    requires names != []
    ensures text == prefix + ListText(names)
  {
    text := prefix;
    var i := 0;
    while i < |names| - 1
      invariant 0 <= i < |names| && text + ListText(names[i..]) == prefix + ListText(names)
    {
      assert names[i..][1..] == names[i + 1..];
      text := text + names[i];
      text := text + ", ";
      i := i + 1;
    }
    text := text + names[|names| - 1];
  }

  /** Predicate::ToString. */
  method PrintPredicate(terms: seq<Term>) returns (text: string)
    ensures text == if terms == [] then "" else TermsText(terms)
  {
    if terms == [] {
      return "";
    }
    text := TermText(terms[0]);
    RestStep(terms, 0);
    var i := 1;
    hide TermText, TermsText, RestText;
    while i < |terms|
      invariant 1 <= i <= |terms| && text + RestText(terms, i) == TermsText(terms)
    {
      RestStep(terms, i);
      Joined(text, " and ", TermText(terms[i]), RestText(terms, i + 1));
      text := text + " and ";
      text := text + TermText(terms[i]);
      i := i + 1;
    }
  }

  function RestText(terms: seq<Term>, i: nat): string
    requires i <= |terms|
  {
    if i == |terms| then "" else " and " + TermsText(terms[i..])
  }

  lemma {:induction false} RestStep(terms: seq<Term>, i: nat)
    requires i < |terms|
    ensures RestText(terms, i) == " and " + TermText(terms[i]) + RestText(terms, i + 1)
    ensures i == 0 ==> TermText(terms[0]) + RestText(terms, 1) == TermsText(terms)
    ensures RestText(terms, |terms|) == ""
  {
    TermsStep(terms[i..]);
    assert terms[i..][1..] == terms[i + 1..] && terms[0..] == terms;
    hide TermText, TermsText;
    Grouped(" and ", TermText(terms[i]), RestText(terms, i + 1));
  }

  lemma {:induction false} TermsStep(terms: seq<Term>)
    requires terms != []
    ensures TermsText(terms) == TermText(terms[0]) + (if |terms| == 1 then "" else " and " + TermsText(terms[1..]))
  {
    hide TermText;
    if |terms| > 1 {
      Joined(TermText(terms[0]), " and ", TermsText(terms[1..]), "");
      assert TermText(terms[0]) + " and " + TermsText(terms[1..]) + "" == TermsText(terms);
      assert " and " + TermsText(terms[1..]) + "" == " and " + TermsText(terms[1..]);
    }
  }

  lemma Joined(a: string, b: string, c: string, d: string)
    ensures a + b + c + d == a + (b + c + d)
  {
  }

  /** QueryData::ToString. An empty list of fields or tables is not printable. */
  method PrintQuery(q: Query) returns (text: string)
    requires q.fields != [] && q.tables != []
    ensures text == QueryString(q)
  {
    text := PrintList("select ", q.fields);
    text := text + " from ";
    text := PrintList(text, q.tables);
    var predicateText := PrintPredicate(q.terms);
    if predicateText != "" {
      text := text + " where ";
      text := text + predicateText;
    }
    if q.terms != [] {
      TermsNotEmpty(q.terms);
    }
    assert text == QueryString(q);
  }

  lemma TermsNotEmpty(terms: seq<Term>)
    requires terms != []
    ensures TermsText(terms) != ""
  {
  }
}
