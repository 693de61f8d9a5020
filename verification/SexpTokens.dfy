/** The tokenizer of the S-expression program on whatever can be written for it: parentheses, blanks, words, numbers
    with leading zeros or none, and strings with backslashes wherever one likes. */
module SexpTokens {
  import opened Basics
  import opened SexpText

  /** A character as it is written in a string. */
  datatype Written = Written(slashed: bool, c: char)

  /** A word runs up to the blank or the closing parenthesis behind it. */
  datatype Piece = Open | Shut | Blank(c: char) | Word(s: string) | Quoted(text: seq<Written>)

  // ---- strings ----

  function Writing(text: seq<Written>): string {
    if |text| == 0 then "" else Character(text[0]) + Writing(text[1..])
  }

  function Character(w: Written): string {
    if w.slashed then ['\\', w.c] else [w.c]
  }

  /** What is read of it: all but the zeros. */
  function Read(text: seq<Written>): string {
    if |text| == 0 then "" else (if text[0].c == '\0' then "" else [text[0].c]) + Read(text[1..])
  }

  /** A string without zeros is read as it was meant, however it was written. */
  lemma {:induction false} ReadIs(s: string, text: seq<Written>)
    requires |text| == |s| && forall i | 0 <= i < |s| :: text[i].c == s[i] != '\0'
    ensures Read(text) == s
  {
    if |s| > 0 { ReadIs(s[1..], text[1..]); }
  }

  /** Quotes and backslashes have a backslash in front; any other character can have one. */
  predicate Escaped(text: seq<Written>) {
    forall i | 0 <= i < |text| :: WellWritten(text[i])
  }

  predicate WellWritten(w: Written) {
    w.c == '"' || w.c == '\\' ==> w.slashed
  }

  lemma RunCharacter(buf: string, w: Written, toks: seq<Tok>)
    requires WellWritten(w)
    ensures Run(Lex(InString, buf, toks), Character(w)) == Lex(InString, Put(buf, w.c), toks)
  {
    hide Run;
    var st := Lex(InString, buf, toks);
    if w.slashed { RunTwo(st, '\\', w.c); } else { RunOne(st, w.c); }
  }

  lemma ReadMore(buf: string, text: seq<Written>)
    requires |text| > 0
    ensures Put(buf, text[0].c) + Read(text[1..]) == buf + Read(text)
  {
  }

  lemma ReadNone(buf: string)
    ensures buf + Read([]) == buf
  {
  }

  lemma {:induction false} RunWriting(buf: string, text: seq<Written>, toks: seq<Tok>)
    requires Escaped(text)
    ensures Run(Lex(InString, buf, toks), Writing(text)) == Lex(InString, buf + Read(text), toks)
    decreases |text|
  {
    hide Run, Character, WellWritten, Put, Read;
    if |text| == 0 {
      RunNone(Lex(InString, buf, toks));
      ReadNone(buf);
    } else {
      var c := text[0].c;
      RunAppend(Lex(InString, buf, toks), Character(text[0]), Writing(text[1..]));
      RunCharacter(buf, text[0], toks);
      RunWriting(Put(buf, c), text[1..], toks);
      ReadMore(buf, text);
    }
  }

  lemma RunNone(st: Lex)
    ensures Run(st, []) == st
  {
  }

  /** Between two quotes it is the string itself, however it was written. */
  lemma RunQuoted(text: seq<Written>, toks: seq<Tok>)
    requires Escaped(text)
    ensures Run(Lex(Start, "", toks), "\"" + Writing(text) + "\"") == Lex(Start, "", toks + [TStr(Read(text))])
  {
    hide Run, Escaped, Writing, Read;
    var st := Lex(Start, "", toks);
    assert "\"" + Writing(text) + "\"" == ['"'] + (Writing(text) + ['"']);
    RunAppend(st, ['"'], Writing(text) + ['"']);
    RunOne(st, '"');
    RunAppend(Lex(InString, "", toks), Writing(text), ['"']);
    RunWriting("", text, toks);
    assert "" + Read(text) == Read(text);
    RunOne(Lex(InString, Read(text), toks), '"');
  }

  // ---- printing ----

  /** A list is printed in parentheses with a blank between its items, a string in quotes. */
  lemma Printed(a: Sexp, b: Sexp, text: string)
    ensures Dump(List([])) == "()" && Dump(List([a])) == "(" + Dump(a) + ")"
    ensures Dump(List([a, b])) == "(" + Dump(a) + " " + Dump(b) + ")"
    ensures Dump(Str(text)) == "\"" + text + "\"" && Dump(Sym(text)) == text
    ensures Dump(Int(-12)) == "-12"
  {
    assert [a, b][1..] == [b];
    assert DumpAll([a, b]) == Dump(a) + " " + DumpAll([b]);
    assert "(" + (Dump(a) + " " + Dump(b)) + ")" == "(" + Dump(a) + " " + Dump(b) + ")";
    assert Digits(12) == Digits(1) + ['2'] && Digits(1) == ['1'];
  }

  // ---- words ----

  /** What a word may be: it does not begin with a parenthesis, a blank, a newline or a quote, and holds no blank and
      no closing parenthesis. */
  predicate IsWord(s: string) {
    && |s| > 0 && s[0] != '(' && s[0] != '"' && s[0] != '\r' && s[0] != '\n'
    && forall i | 0 <= i < |s| :: s[i] != ' ' && s[i] != ')' && s[i] != '\0'
  }

  function Zeros(k: nat): string {
    seq(k, _ => '0')
  }

  lemma {:induction false} AtoiWithZeros(k: nat, s: string)
    requires IsInt(s)
    ensures IsInt(Zeros(k) + s) && Atoi(Zeros(k) + s) == Atoi(s)
    decreases |s| + k
  {
    var t := Zeros(k) + s;
    if |s| > 0 {
      AtoiWithZeros(k, s[..|s| - 1]);
      assert t[..|t| - 1] == Zeros(k) + s[..|s| - 1];
    } else if k > 0 {
      AtoiWithZeros(k - 1, s);
      assert t[..|t| - 1] == Zeros(k - 1) + s;
    }
  }

  /** A number is printed without leading zeros. */
  lemma {:induction false} NoLeadingZero(n: nat)
    ensures Digits(n)[0] == '0' <==> n == 0
  {
    if n >= 10 { NoLeadingZero(n / 10); }
  }

  /** A word is an integer when it is digits, leading zeros or not; and a symbol when something in it is none. */
  lemma WordToken(s: string, k: nat, n: nat)
    ensures SymbolToken(Zeros(k) + Digits(n)) == TInt(n)
    ensures (exists i | 0 <= i < |s| :: !('0' <= s[i] <= '9')) ==> SymbolToken(s) == TSym(s)
  {
    AtoiWithZeros(k, Digits(n));
    AtoiOfDigits(n);
  }

  // ---- whole texts ----

  function Spelling(p: Piece): string {
    match p
    case Open => "("
    case Shut => ")"
    case Blank(c) => [c]
    case Word(s) => s
    case Quoted(text) => "\"" + Writing(text) + "\""
  }

  function Token(p: Piece): seq<Tok> {
    match p
    case Open => [LParen]
    case Shut => [RParen]
    case Blank(_) => []
    case Word(s) => [SymbolToken(s)]
    case Quoted(text) => [TStr(Read(text))]
  }

  predicate Legal(p: Piece) {
    match p
    case Blank(c) => c == ' ' || c == '\r' || c == '\n'
    case Word(s) => IsWord(s)
    case Quoted(text) => Escaped(text)
    case _ => true
  }

  function SpellingOf(pieces: seq<Piece>): string {
    if |pieces| == 0 then "" else Spelling(pieces[0]) + SpellingOf(pieces[1..])
  }

  function TokensOf(pieces: seq<Piece>): seq<Tok> {
    if |pieces| == 0 then [] else Token(pieces[0]) + TokensOf(pieces[1..])
  }

  /** Every piece is legal, and behind every word there is a blank or a closing parenthesis. */
  predicate AllLegal(pieces: seq<Piece>) {
    && (forall i | 0 <= i < |pieces| :: Legal(pieces[i]))
    && (forall i | 0 <= i < |pieces| && pieces[i].Word? ::
          i + 1 < |pieces| && (pieces[i + 1] == Shut || pieces[i + 1] == Blank(' ')))
  }

  lemma RunPiece(p: Piece, toks: seq<Tok>)
    requires Legal(p) && !p.Word?
    ensures Run(Lex(Start, "", toks), Spelling(p)) == Lex(Start, "", toks + Token(p))
  {
    hide Run, Escaped, Writing, Read;
    match p
    case Quoted(text) => RunQuoted(text, toks);
    case Open => RunOne(Lex(Start, "", toks), '(');
    case Shut => RunOne(Lex(Start, "", toks), ')');
    case Blank(c) => RunOne(Lex(Start, "", toks), c);
  }

  lemma RunWordAnd(s: string, end: Piece, toks: seq<Tok>)
    requires IsWord(s) && (end == Shut || end == Blank(' '))
    ensures Run(Lex(Start, "", toks), s + Spelling(end)) == Lex(Start, "", toks + ([SymbolToken(s)] + Token(end)))
  {
    hide Run, SymbolToken;
    RunWord(s, toks, Spelling(end)[0]);
    assert Spelling(end) == [Spelling(end)[0]];
  }

  lemma AllLegalTail(pieces: seq<Piece>, k: nat)
    requires AllLegal(pieces) && k <= |pieces|
    ensures AllLegal(pieces[k..])
  {
    hide Legal;
    var rest := pieces[k..];
    forall i | 0 <= i < |rest| && rest[i].Word?
      ensures i + 1 < |rest| && (rest[i + 1] == Shut || rest[i + 1] == Blank(' '))
    {
      assert pieces[k + i].Word?;
    }
  }

  lemma LegalWord(pieces: seq<Piece>)
    requires AllLegal(pieces) && |pieces| > 0 && pieces[0].Word?
    ensures |pieces| > 1 && IsWord(pieces[0].s) && (pieces[1] == Shut || pieces[1] == Blank(' '))
  {
    assert Legal(pieces[0]);
  }

  /** A text that begins with a word, taken apart behind the piece that ends it. */
  lemma WordApart(pieces: seq<Piece>)
    requires |pieces| > 1 && pieces[0].Word?
    ensures SpellingOf(pieces) == (pieces[0].s + Spelling(pieces[1])) + SpellingOf(pieces[2..])
    ensures TokensOf(pieces) == ([SymbolToken(pieces[0].s)] + Token(pieces[1])) + TokensOf(pieces[2..])
  {
    hide SymbolToken;
    var s, end, rest := pieces[0].s, pieces[1], pieces[2..];
    assert pieces[1..][0] == end && pieces[1..][1..] == rest;
    assert Spelling(pieces[0]) == s && Token(pieces[0]) == [SymbolToken(s)];
    hide Spelling, Token;
    Associates(s, Spelling(end), SpellingOf(rest));
    Associates([SymbolToken(s)], Token(end), TokensOf(rest));
  }

  /** The tokens of a text are those of its pieces, in order. */
  lemma {:induction false} RunPieces(pieces: seq<Piece>, toks: seq<Tok>)
    requires AllLegal(pieces)
    ensures Run(Lex(Start, "", toks), SpellingOf(pieces)) == Lex(Start, "", toks + TokensOf(pieces))
    decreases |pieces|
  {
    hide Run, Spelling, Token, Legal, SymbolToken, IsWord;
    var st := Lex(Start, "", toks);
    if |pieces| == 0 {
      RunNone(st);
      assert toks + [] == toks;
    } else if pieces[0].Word? {
      var s, end := pieces[0].s, pieces[1];
      LegalWord(pieces);
      AllLegalTail(pieces, 2);
      WordApart(pieces);
      RunAppend(st, s + Spelling(end), SpellingOf(pieces[2..]));
      RunWordAnd(s, end, toks);
      RunPieces(pieces[2..], toks + ([SymbolToken(s)] + Token(end)));
      Associates(toks, [SymbolToken(s)] + Token(end), TokensOf(pieces[2..]));
    } else {
      assert Legal(pieces[0]);
      AllLegalTail(pieces, 1);
      RunAppend(st, Spelling(pieces[0]), SpellingOf(pieces[1..]));
      RunPiece(pieces[0], toks);
      RunPieces(pieces[1..], toks + Token(pieces[0]));
      Associates(toks, Token(pieces[0]), TokensOf(pieces[1..]));
    }
  }
}
