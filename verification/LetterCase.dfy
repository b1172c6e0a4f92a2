/** Upper and lower case of a text without quotes do not matter. */
module LetterCase {
  import opened QueryText
  import opened ViewRoundTrip

  const CAPITALS := "ABCDEFGHIJKLMNOPQRSTUVWXYZ"
  const SMALLS := "abcdefghijklmnopqrstuvwxyz"

  ghost predicate CapitalOf(capital: char, small: char) {
    exists i :: 0 <= i < 26 && capital == CAPITALS[i] && small == SMALLS[i]
  }

  ghost predicate SameLetter(c: char, d: char) {
    c == d || CapitalOf(c, d) || CapitalOf(d, c)
  }

  /** The texts differ in upper and lower case only. */
  ghost predicate SameLetters(a: string, b: string) {
    |a| == |b| && forall i :: 0 <= i < |a| ==> SameLetter(a[i], b[i])
  }

  lemma LetterAt(i: nat)
    requires i < 26
    ensures CAPITALS[i] as int == 65 + i && SMALLS[i] as int == 97 + i
  {
  }

  lemma {:induction false} LetterIn(c: char)
    ensures c in CAPITALS <==> 65 <= c as int <= 90
    ensures c in SMALLS <==> 97 <= c as int <= 122
  {
    if 65 <= c as int <= 90 {
      LetterAt(c as int - 65);
    } else if 97 <= c as int <= 122 {
      LetterAt(c as int - 97);
    }
    forall i | 0 <= i < 26 ensures CAPITALS[i] as int == 65 + i && SMALLS[i] as int == 97 + i {
      LetterAt(i);
    }
  }

  /** The characters of each class. */
  lemma {:induction false} Classes(c: char)
    ensures White(c) <==> c as int <= 32
    ensures Alpha(c) <==> c in CAPITALS || c in SMALLS || c == '_' || c as int >= 160
    ensures DigitChar(c) <==> c in "0123456789"
    ensures NumberChar(c) <==> c in "-0123456789"
    ensures Quote(c) <==> c as int == 34 || c as int == 39
    ensures LineEnd(c) <==> c as int == 10 || c as int == 13
  {
    LetterIn(c);
    DigitIn(c);
    hide CAPITALS, SMALLS;
    assert c in "-0123456789" <==> c == '-' || c in "0123456789" by {
      assert "-0123456789" == "-" + "0123456789";
    }
  }

  lemma {:induction false} DigitIn(c: char)
    ensures c in "0123456789" <==> 48 <= c as int <= 57
    ensures DigitChar(c) ==> "0123456789"[DigitValue(c)] == c
  {
    if 48 <= c as int <= 57 {
      assert "0123456789"[c as int - 48] as int == c as int;
    }
  }

  predicate OneLetter(capital: char, small: char) {
    && Upper(capital) && !Upper(small) && Alpha(small) && LowerChar(capital) == LowerChar(small) == small
    && !White(capital) && !White(small) && !NumberChar(capital) && !NumberChar(small)
    && !LineEnd(capital) && !LineEnd(small) && capital !in "./" && small !in "./"
  }

  lemma CodesOf(capital: char, small: char, i: nat)
    requires i < 26 && capital as int == 65 + i && small as int == 97 + i
    ensures OneLetter(capital, small)
  {
  }

  lemma {:induction false} LowerOf(capital: char, small: char)
    requires CapitalOf(capital, small)
    ensures OneLetter(capital, small)
  {
    var i :| 0 <= i < 26 && capital == CAPITALS[i] && small == SMALLS[i];
    LetterAt(i);
    CodesOf(capital, small, i);
  }

  lemma {:induction false} SameClass(c: char, d: char)
    requires SameLetter(c, d)
    ensures LowerChar(c) == LowerChar(d) && White(c) == White(d) && NumberChar(c) == NumberChar(d) && Alpha(c) == Alpha(d)
    ensures WordChar(c) == WordChar(d) && LineEnd(c) == LineEnd(d) && DigitChar(c) == DigitChar(d)
    ensures c == d || (Alpha(c) && c != '/' && c != '.' && d != '/' && d != '.')
  {
    if CapitalOf(c, d) {
      LowerOf(c, d);
    } else if CapitalOf(d, c) {
      LowerOf(d, c);
    }
  }

  lemma SameRest(a: string, b: string, i: nat)
    requires SameLetters(a, b) && i <= |a|
    ensures SameLetters(a[i..], b[i..]) && SameLetters(a[..i], b[..i])
  {
  }

  lemma {:induction false} SameLower(a: string, b: string)
    requires SameLetters(a, b)
    ensures Lower(a) == Lower(b)
  {
    forall i | 0 <= i < |a| ensures LowerChar(a[i]) == LowerChar(b[i]) {
      SameClass(a[i], b[i]);
    }
  }

  lemma {:induction false} SameEnd(a: string, b: string, i: nat)
    requires SameLetters(a, b) && i <= |a|
    ensures WordEnd(a, i) == WordEnd(b, i)
    decreases |a| - i
  {
    if i < |a| {
      SameClass(a[i], b[i]);
      SameEnd(a, b, i + 1);
    }
  }

  lemma {:induction false} SameNumber(a: string, b: string, i: nat, dot: bool, v: nat, decimals: nat)
    requires SameLetters(a, b) && i <= |a|
    ensures ScanNumber(a, i, dot, v, decimals) == ScanNumber(b, i, dot, v, decimals)
    decreases |a| - i
  {
    if i < |a| {
      SameClass(a[i], b[i]);
      if a[i] == '.' && !dot {
        SameNumber(a, b, i + 1, true, v, decimals);
      } else if DigitChar(a[i]) {
        SameNumber(a, b, i + 1, dot, v * 10 + DigitValue(a[i]), if dot then decimals + 1 else decimals);
      }
    }
  }

  lemma {:induction false} SameSkip(a: string, b: string)
    requires SameLetters(a, b)
    ensures SameLetters(SkipLine(a), SkipLine(b))
  {
    if a != "" {
      SameClass(a[0], b[0]);
      SameSkip(a[1..], b[1..]);
    }
  }

  /** The first token is the same, and what follows it differs in upper and lower case only. */
  ghost predicate SameNext(n: Next, m: Next) {
    match n
    case End => m.End?
    case Next(token, rest) => m.Next? && token == m.token && SameLetters(rest, m.rest)
  }

  lemma {:induction false} NextSame(a: string, b: string)
    requires SameLetters(a, b)
    ensures SameNext(NextOf(a), NextOf(b))
    decreases |a|
  {
    if a != "" {
      SameClass(a[0], b[0]);
      SameRest(a, b, 1);
      if White(a[0]) {
        NextSame(a[1..], b[1..]);
      } else if NumberChar(a[0]) {
        if |a| > 1 {
          SameClass(a[1], b[1]);
        }
        var start := if a[0] == '-' then 1 else 0;
        SameNumber(a, b, start, false, 0, 0);
        SameRest(a, b, ScanNumber(a, start, false, 0, 0).end);
      } else if Alpha(a[0]) {
        SameEnd(a, b, 1);
        SameRest(a, b, WordEnd(a, 1));
        SameLower(a[..WordEnd(a, 1)], b[..WordEnd(a, 1)]);
      } else if a[0] == '/' {
        SameSkip(a[1..], b[1..]);
        NextSame(SkipLine(a[1..]), SkipLine(b[1..]));
      }
    }
  }

  /** Texts that differ in upper and lower case only have the same tokens, and so the same query. */
  lemma {:induction false} CaseIgnored(a: string, b: string)
    requires SameLetters(a, b)
    ensures Tokens(a) == Tokens(b) && QueryOf(Tokens(a)) == QueryOf(Tokens(b))
    decreases |a|
  {
    NextSame(a, b);
    if NextOf(a).Next? {
      CaseIgnored(NextOf(a).rest, NextOf(b).rest);
    }
  }

  /** A good query, printed with any of its letters capital, is parsed as that query. */
  lemma {:induction false} CapitalsRead(q: Query, text: string)
    requires GoodQuery(q) && SameLetters(text, QueryString(q))
    ensures QueryOf(Tokens(text)) == Parsed(q, [])
  {
    CaseIgnored(text, QueryString(q));
    ViewRoundTrip.ViewRoundTrip(q);
  }
}
