/** S-expressions as text: printing, cutting into tokens, and reading back. */
module SexpText {
  import opened Basics

  datatype Sexp = Int(i: int) | Sym(name: string) | Str(text: string) | List(items: seq<Sexp>)

  datatype Tok = LParen | RParen | TSym(s: string) | TStr(s: string) | TInt(i: nat)

  // ---- numbers ----

  predicate IsDigit(c: char) {
    '0' <= c <= '9'
  }

  /** is_int: nothing but digits; the empty string passes too. */
  predicate IsInt(s: string) {
    forall i | 0 <= i < |s| :: IsDigit(s[i])
  }

  /** atoi, of a string of digits */
  function Atoi(s: string): nat
    requires IsInt(s)
  {
    if |s| == 0 then 0
    else Atoi(s[..|s| - 1]) * 10 + (s[|s| - 1] as int - '0' as int)
  }

  function Digits(n: nat): (s: string)
    ensures |s| > 0 && IsInt(s)
  {
    var d := [('0' as int + n % 10) as char];
    if n < 10 then d else Digits(n / 10) + d
  }

  /** printf's %d */
  function Decimal(n: int): string {
    if n < 0 then "-" + Digits(-n) else Digits(n)
  }

  lemma {:induction false} AtoiOfDigits(n: nat)
    ensures Atoi(Digits(n)) == n
  {
    var s := Digits(n);
    if n >= 10 {
      AtoiOfDigits(n / 10);
      assert s[..|s| - 1] == Digits(n / 10);
    }
  }

  // ---- printing ----

  /** dump_val */
  function Dump(x: Sexp): string
    decreases x
  {
    match x
    case Int(i) => Decimal(i)
    case Sym(name) => name
    case Str(text) => "\"" + text + "\""
    case List(items) => "(" + DumpAll(items) + ")"
  }

  function DumpAll(xs: seq<Sexp>): string
    decreases xs
  {
    if |xs| == 0 then ""
    else if |xs| == 1 then Dump(xs[0])
    else Dump(xs[0]) + " " + DumpAll(xs[1..])
  }

  // ---- tokens ----

  datatype Mode = Start | InString | InSymbol | InEscape

  /** The tokenizer: its state, the token being collected, and the tokens so far. */
  datatype Lex = Lex(mode: Mode, buf: string, toks: seq<Tok>)

  /** A symbol of digits is an integer. */
  function SymbolToken(s: string): Tok {
    if IsInt(s) then TInt(Atoi(s)) else TSym(s)
  }

  /** A character at the end of a C string; a zero changes nothing. */
  function Put(buf: string, c: char): string {
    if c == '\0' then buf else buf + [c]
  }

  /** The tokenizer's switch, on one character. */
  function Step(st: Lex, c: char): Lex {
    match st.mode
    case Start =>
      if c == '(' then st.(toks := st.toks + [LParen])
      else if c == ')' then st.(toks := st.toks + [RParen])
      else if c == ' ' || c == '\r' || c == '\n' then st
      else if c == '"' then Lex(InString, "", st.toks)
      else Lex(InSymbol, Put("", c), st.toks)
    case InEscape => Lex(InString, Put(st.buf, c), st.toks)
    case InString =>
      if c == '\\' then st.(mode := InEscape)
      else if c == '"' then Lex(Start, "", st.toks + [TStr(st.buf)])
      else st.(buf := Put(st.buf, c))
    case InSymbol =>
      if c == ')' then Lex(Start, "", st.toks + [SymbolToken(st.buf), RParen])
      else if c == ' ' then Lex(Start, "", st.toks + [SymbolToken(st.buf)])
      else st.(buf := Put(st.buf, c))
  }

  function Run(st: Lex, s: string): Lex
    decreases |s|
  {
    if |s| == 0 then st else Run(Step(st, s[0]), s[1..])
  }

  lemma {:induction false} RunAppend(st: Lex, a: string, b: string)
    ensures Run(st, a + b) == Run(Run(st, a), b)
    decreases |a|
  {
    if |a| == 0 {
      assert a + b == b;
    } else {
      RunAppend(Step(st, a[0]), a[1..], b);
      assert (a + b)[1..] == a[1..] + b;
    }
  }

  predicate IsNewline(c: char) {
    c == '\n' || c == '\r'
  }

  /** No newline of the text meets the tokenizer between two tokens. */
  predicate Inside(st: Lex, s: string)
    decreases |s|
  {
    |s| > 0 ==> (IsNewline(s[0]) ==> st.mode != Start) && Inside(Step(st, s[0]), s[1..])
  }

  lemma {:induction false} InsideAppend(st: Lex, a: string, b: string)
    ensures Inside(st, a + b) <==> Inside(st, a) && Inside(Run(st, a), b)
    decreases |a|
  {
    if |a| == 0 {
      assert a + b == b;
    } else {
      InsideAppend(Step(st, a[0]), a[1..], b);
      assert (a + b)[1..] == a[1..] + b;
    }
  }

  lemma InsideOne(st: Lex, c: char)
    requires !IsNewline(c)
    ensures Inside(st, [c])
  {
    hide Step;
    assert [c][1..] == [];
  }

  lemma InsideTwo(st: Lex, a: char, b: char)
    requires !IsNewline(a) && !IsNewline(b)
    ensures Inside(st, [a, b])
  {
    hide Step;
    assert [a, b][1..] == [b];
    InsideOne(Step(st, a), b);
  }

  /** What the tokens of a value are, once printed. */
  function Toks(x: Sexp): seq<Tok>
    decreases x
  {
    match x
    case Int(i) => [SymbolToken(Decimal(i))]
    case Sym(name) => [SymbolToken(name)]
    case Str(text) => [TStr(text)]
    case List(items) => [LParen] + ToksAll(items) + [RParen]
  }

  function ToksAll(xs: seq<Sexp>): seq<Tok>
    decreases xs
  {
    if |xs| == 0 then [] else Toks(xs[0]) + ToksAll(xs[1..])
  }

  /** A character that does not end a symbol. */
  predicate Inner(c: char) {
    c != ' ' && c != ')' && c != '\0'
  }

  predicate PlainSymbol(s: string) {
    && |s| > 0 && s[0] !in ['(', '\r', '\n', '"']
    && forall i | 0 <= i < |s| :: Inner(s[i])
  }

  predicate PlainString(s: string) {
    forall i | 0 <= i < |s| :: s[i] != '"' && s[i] != '\\' && s[i] != '\0'
  }

  /** Values that can be told from their printed form: no symbol with a character of its own meaning, no
      string with a quote or a backslash. */
  predicate Plain(x: Sexp)
    decreases x
  {
    match x
    case Int(_) => true
    case Sym(name) => PlainSymbol(name)
    case Str(text) => PlainString(text)
    case List(items) => forall x' | x' in items :: Plain(x')
  }

  lemma {:induction false} RunSymbol(buf: string, s: string, toks: seq<Tok>)
    requires forall i | 0 <= i < |s| :: Inner(s[i])
    ensures Run(Lex(InSymbol, buf, toks), s) == Lex(InSymbol, buf + s, toks)
    ensures Inside(Lex(InSymbol, buf, toks), s)
    decreases |s|
  {
    if |s| == 0 {
      assert buf + s == buf;
    } else {
      RunSymbol(buf + [s[0]], s[1..], toks);
      assert buf + [s[0]] + s[1..] == buf + s;
    }
  }

  lemma {:induction false} RunString(buf: string, s: string, toks: seq<Tok>)
    requires PlainString(s)
    ensures Run(Lex(InString, buf, toks), s) == Lex(InString, buf + s, toks)
    ensures Inside(Lex(InString, buf, toks), s)
    decreases |s|
  {
    if |s| == 0 {
      assert buf + s == buf;
    } else {
      RunString(buf + [s[0]], s[1..], toks);
      assert buf + [s[0]] + s[1..] == buf + s;
    }
  }

  lemma PlainDecimal(n: int)
    ensures PlainSymbol(Decimal(n))
  {
    var s, d := Decimal(n), Digits(if n < 0 then -n else n);
    var k := if n < 0 then 1 else 0;
    forall i | 0 <= i < |s| ensures Inner(s[i]) {
      assert i >= k ==> IsDigit(d[i - k]);
    }
    assert IsDigit(d[0]);
  }

  /** What a blank or a closing parenthesis behind an element adds. */
  function Closing(c: char): seq<Tok> {
    if c == ')' then [RParen] else []
  }

  lemma RunWord(s: string, toks: seq<Tok>, c: char)
    requires PlainSymbol(s) && (c == ' ' || c == ')')
    ensures Run(Lex(Start, "", toks), s + [c]) == Lex(Start, "", toks + [SymbolToken(s)] + Closing(c))
    ensures Inside(Lex(Start, "", toks), s + [c])
  {
    var st := Lex(Start, "", toks);
    RunAppend(st, s, [c]);
    assert Inner(s[0]);
    assert Step(st, s[0]) == Lex(InSymbol, [s[0]], toks);
    RunSymbol([s[0]], s[1..], toks);
    assert [s[0]] + s[1..] == s;
    RunOne(Lex(InSymbol, s, toks), c);
    InsideAppend(st, s, [c]);
    InsideOne(Run(st, s), c);
  }

  lemma RunText(text: string, toks: seq<Tok>, c: char)
    requires PlainString(text) && (c == ' ' || c == ')')
    ensures Run(Lex(Start, "", toks), "\"" + text + "\"" + [c]) == Lex(Start, "", toks + [TStr(text)] + Closing(c))
    ensures Inside(Lex(Start, "", toks), "\"" + text + "\"" + [c])
  {
    hide Run, Inside;
    var st := Lex(Start, "", toks);
    assert "\"" + text + "\"" + [c] == ['"'] + (text + ['"', c]);
    RunAppend(st, ['"'], text + ['"', c]);
    RunOne(st, '"');
    RunAppend(Lex(InString, "", toks), text, ['"', c]);
    RunString("", text, toks);
    assert "" + text == text;
    RunTwo(Lex(InString, text, toks), '"', c);
    InsideAppend(st, ['"'], text + ['"', c]);
    InsideOne(st, '"');
    InsideAppend(Lex(InString, "", toks), text, ['"', c]);
    InsideTwo(Lex(InString, text, toks), '"', c);
  }

  /** The tokenizer on a printed element and the character behind it. */
  lemma {:induction false} RunElem(x: Sexp, toks: seq<Tok>, c: char)
    requires Plain(x) && (c == ' ' || c == ')')
    ensures Run(Lex(Start, "", toks), Dump(x) + [c]) == Lex(Start, "", toks + Toks(x) + Closing(c))
    ensures Inside(Lex(Start, "", toks), Dump(x) + [c])
    decreases x, 0
  {
    hide Run, Inside, Step, Decimal, SymbolToken;
    var st := Lex(Start, "", toks);
    match x
    case Int(i) =>
      PlainDecimal(i);
      RunWord(Decimal(i), toks, c);
    case Sym(name) =>
      RunWord(name, toks, c);
    case Str(text) =>
      RunText(text, toks, c);
    case List(items) =>
      RunParens(items, toks, c);
      assert toks + [LParen] + ToksAll(items) + [RParen] == toks + Toks(x);
  }

  /** ... when it is a list. */
  lemma {:induction false} RunParens(items: seq<Sexp>, toks: seq<Tok>, c: char)
    requires (forall x | x in items :: Plain(x)) && (c == ' ' || c == ')')
    ensures var st, s := Lex(Start, "", toks), "(" + DumpAll(items) + ")" + [c];
            && Run(st, s) == Lex(Start, "", toks + [LParen] + ToksAll(items) + [RParen] + Closing(c))
            && Inside(st, s)
    decreases items, 2
  {
    hide Run, Inside, Step;
    var st, inner, s := Lex(Start, "", toks), DumpAll(items) + [')'], "(" + DumpAll(items) + ")" + [c];
    assert s == ['('] + (inner + [c]);
    RunAppend(st, ['('], inner + [c]);
    InsideAppend(st, ['('], inner + [c]);
    RunOne(st, '(');
    InsideOne(st, '(');
    Opens(toks);
    RunItems(items, toks + [LParen]);
    RunAppend(Lex(Start, "", toks + [LParen]), inner, [c]);
    InsideAppend(Lex(Start, "", toks + [LParen]), inner, [c]);
    var done := Lex(Start, "", toks + [LParen] + ToksAll(items) + [RParen]);
    RunOne(done, c);
    InsideOne(done, c);
    Closes(done.toks, c);
  }

  lemma RunOne(st: Lex, a: char)
    ensures Run(st, [a]) == Step(st, a)
  {
    hide Step;
    assert [a][1..] == [];
  }

  lemma RunTwo(st: Lex, a: char, b: char)
    ensures Run(st, [a, b]) == Step(Step(st, a), b)
  {
    hide Step;
    assert [a, b][1..] == [b];
    RunOne(Step(st, a), b);
  }

  lemma Opens(toks: seq<Tok>)
    ensures Step(Lex(Start, "", toks), '(') == Lex(Start, "", toks + [LParen])
  {
  }

  lemma Closes(toks: seq<Tok>, c: char)
    requires c == ' ' || c == ')'
    ensures Step(Lex(Start, "", toks), c) == Lex(Start, "", toks + Closing(c))
  {
  }

  /** ... and on printed elements with their closing parenthesis. */
  lemma {:induction false} RunItems(xs: seq<Sexp>, toks: seq<Tok>)
    requires forall x | x in xs :: Plain(x)
    ensures Run(Lex(Start, "", toks), DumpAll(xs) + [')']) == Lex(Start, "", toks + ToksAll(xs) + [RParen])
    ensures Inside(Lex(Start, "", toks), DumpAll(xs) + [')'])
    decreases xs, 1
  {
    hide Run, Inside;
    var st := Lex(Start, "", toks);
    if |xs| == 0 {
      assert DumpAll(xs) + [')'] == [')'];
      RunOne(st, ')');
      InsideOne(st, ')');
    } else if |xs| == 1 {
      RunElem(xs[0], toks, ')');
      assert ToksAll(xs) == Toks(xs[0]);
    } else {
      assert DumpAll(xs) + [')'] == (Dump(xs[0]) + [' ']) + (DumpAll(xs[1..]) + [')']);
      RunAppend(st, Dump(xs[0]) + [' '], DumpAll(xs[1..]) + [')']);
      InsideAppend(st, Dump(xs[0]) + [' '], DumpAll(xs[1..]) + [')']);
      RunElem(xs[0], toks, ' ');
      assert toks + Toks(xs[0]) + Closing(' ') == toks + Toks(xs[0]);
      RunItems(xs[1..], toks + Toks(xs[0]));
      Associates(toks, Toks(xs[0]), ToksAll(xs[1..]));
    }
  }

  // ---- reading ----

  /** Crash: the reader goes through a null pointer. Syntax: it complains of a closing parenthesis.
      Value: what it has read, and where its cursor stands: on the last token taken, or behind them all. */
  datatype Outcome = Crash | Syntax | Value(x: Sexp, at: nat)

  /** read_form from token k on. */
  function Form(toks: seq<Tok>, k: nat): (r: Outcome)
    requires k <= |toks|
    ensures r.Value? ==> k <= r.at <= |toks|
    decreases |toks| - k, 0
  {
    if k == |toks| then Crash
    else match toks[k]
      case LParen => Items(toks, k + 1, [])
      case RParen => Syntax
      case TInt(i) => Value(Int(i), k)
      case TStr(text) => Value(Str(text), k)
      case TSym(name) => Value(Sym(name), k)
  }

  /** read_list from token k on, with some items already read, up to the closing parenthesis or the end of
      the tokens. When a list inside has taken all the tokens, the step over its last one crashes. */
  function Items(toks: seq<Tok>, k: nat, items: seq<Sexp>): (r: Outcome)
    requires k <= |toks|
    ensures r.Value? ==> k <= r.at <= |toks|
    decreases |toks| - k, 1
  {
    if k == |toks| || toks[k] == RParen then Value(List(items), k)
    else match Form(toks, k)
      case Value(x, k') => if k' == |toks| then Crash else Items(toks, k' + 1, items + [x])
      case r => r
  }

  // ---- where a form ends ----

  /** With d parentheses open: where the last of them closes, and 0; or the end of the tokens, and how many
      are open there. */
  function Close(toks: seq<Tok>, k: nat, d: nat): (r: (nat, nat))
    requires k <= |toks| && d > 0
    ensures k <= r.0 <= |toks| && (r.1 == 0 <==> r.0 < |toks|)
    decreases |toks| - k
  {
    if k == |toks| then (k, d)
    else if toks[k] == RParen then if d == 1 then (k, 0) else Close(toks, k + 1, d - 1)
    else Close(toks, k + 1, if toks[k] == LParen then d + 1 else d)
  }

  lemma {:induction false} CloseDeeper(toks: seq<Tok>, k: nat, d: nat)
    requires k <= |toks| && d > 0
    ensures var r := Close(toks, k, d);
            Close(toks, k, d + 1) == if r.1 == 0 then Close(toks, r.0 + 1, 1) else (r.0, r.1 + 1)
    decreases |toks| - k
  {
    if k < |toks| {
      if toks[k] == RParen {
        if d > 1 { CloseDeeper(toks, k + 1, d - 1); }
      } else {
        CloseDeeper(toks, k + 1, if toks[k] == LParen then d + 1 else d);
      }
    }
  }

  /** A list is read as far as its parenthesis closes; or to the end of the tokens, if no other is open there;
      or else there is a crash. */
  predicate ReadsTo(r: Outcome, close: (nat, nat)) {
    if close.1 <= 1 then r.Value? && r.at == close.0 else r.Crash?
  }

  lemma {:induction false} ItemsShape(toks: seq<Tok>, k: nat, items: seq<Sexp>)
    requires k <= |toks|
    ensures ReadsTo(Items(toks, k, items), Close(toks, k, 1))
    decreases |toks| - k
  {
    if k < |toks| && toks[k] != RParen {
      if toks[k] == LParen {
        ItemsShape(toks, k + 1, []);
        CloseDeeper(toks, k + 1, 1);
        var c := Close(toks, k + 1, 1);
        if c.1 == 0 { ItemsShape(toks, c.0 + 1, items + [Form(toks, k).x]); }
      } else {
        ItemsShape(toks, k + 1, items + [Form(toks, k).x]);
      }
    }
  }

  /** A form is read whole if and only if an atom stands there, or a parenthesis that closes; and it ends
      there. What is open at the end of the tokens is read when it is one list, and crashes when it is more. */
  lemma FormShape(toks: seq<Tok>, k: nat)
    requires k <= |toks|
    ensures var r := Form(toks, k);
            if k == |toks| then r == Crash
            else match toks[k]
              case LParen => ReadsTo(r, Close(toks, k + 1, 1))
              case RParen => r == Syntax
              case _ => r.Value? && r.at == k
  {
    if k < |toks| && toks[k] == LParen { ItemsShape(toks, k + 1, []); }
  }

  /** What comes back of a value: a symbol of digits is an integer, a negative integer a symbol. */
  function Back(x: Sexp): Sexp
    decreases x
  {
    match x
    case Int(i) => Atom(Decimal(i))
    case Sym(name) => Atom(name)
    case Str(_) => x
    case List(items) => List(BackAll(items))
  }

  function Atom(s: string): Sexp {
    if IsInt(s) then Int(Atoi(s)) else Sym(s)
  }

  function BackAll(xs: seq<Sexp>): seq<Sexp>
    decreases xs
  {
    if |xs| == 0 then [] else [Back(xs[0])] + BackAll(xs[1..])
  }

  predicate At(toks: seq<Tok>, k: nat, s: seq<Tok>) {
    k + |s| <= |toks| && toks[k..k + |s|] == s
  }

  lemma AtParts(toks: seq<Tok>, k: nat, a: seq<Tok>, b: seq<Tok>)
    requires At(toks, k, a + b)
    ensures At(toks, k, a) && At(toks, k + |a|, b)
  {
    var w := toks[k..k + |a + b|];
    assert toks[k..k + |a|] == w[..|a|] && toks[k + |a|..k + |a| + |b|] == w[|a|..];
  }

  lemma AtLength(toks: seq<Tok>, k: nat, s: seq<Tok>)
    requires At(toks, k, s)
    ensures k + |s| <= |toks|
  {
  }

  lemma AtFirst(toks: seq<Tok>, k: nat, s: seq<Tok>)
    requires At(toks, k, s) && |s| > 0
    ensures k < |toks| && toks[k] == s[0]
  {
    assert toks[k..k + |s|][0] == s[0];
  }

  /** Reading the tokens of a value gives it back. */
  lemma {:induction false} ReadElem(x: Sexp, toks: seq<Tok>, k: nat)
    requires At(toks, k, Toks(x))
    ensures |Toks(x)| > 0 && toks[k] != RParen
    ensures Form(toks, k) == Value(Back(x), k + |Toks(x)| - 1) && k + |Toks(x)| <= |toks|
    decreases x, 0
  {
    hide At, Items, Decimal;
    match x
    case Int(i) => AtFirst(toks, k, Toks(x));
    case Sym(name) => AtFirst(toks, k, Toks(x));
    case Str(text) => AtFirst(toks, k, Toks(x));
    case List(items) =>
      assert Toks(x) == [LParen] + (ToksAll(items) + [RParen]);
      AtFirst(toks, k, Toks(x));
      AtParts(toks, k, [LParen], ToksAll(items) + [RParen]);
      ReadItems(items, toks, k + 1, []);
      assert [] + BackAll(items) == BackAll(items);
  }

  lemma {:induction false} ReadItems(xs: seq<Sexp>, toks: seq<Tok>, k: nat, items: seq<Sexp>)
    requires At(toks, k, ToksAll(xs) + [RParen])
    ensures Items(toks, k, items) == Value(List(items + BackAll(xs)), k + |ToksAll(xs)|)
    ensures k + |ToksAll(xs)| < |toks|
    decreases xs, 1
  {
    hide At, Toks, Back, Form;
    if |xs| == 0 {
      assert ToksAll(xs) + [RParen] == [RParen] + [];
      AtFirst(toks, k, [RParen] + []);
      assert items + [] == items;
    } else {
      assert ToksAll(xs) + [RParen] == Toks(xs[0]) + (ToksAll(xs[1..]) + [RParen]);
      AtParts(toks, k, Toks(xs[0]), ToksAll(xs[1..]) + [RParen]);
      ReadElem(xs[0], toks, k);
      ReadItems(xs[1..], toks, k + |Toks(xs[0])|, items + [Back(xs[0])]);
      Associates(items, [Back(xs[0])], BackAll(xs[1..]));
    }
  }

  /** Reading the tokens of values up to the end, with no closing parenthesis there. */
  lemma {:induction false} ReadOpen(xs: seq<Sexp>, toks: seq<Tok>, k: nat, items: seq<Sexp>)
    requires At(toks, k, ToksAll(xs)) && k + |ToksAll(xs)| == |toks|
    ensures Items(toks, k, items) == Value(List(items + BackAll(xs)), |toks|)
    decreases |xs|
  {
    hide At, Toks, Back, Form;
    if |xs| == 0 {
      assert items + [] == items;
    } else {
      AtParts(toks, k, Toks(xs[0]), ToksAll(xs[1..]));
      ReadElem(xs[0], toks, k);
      ReadOpen(xs[1..], toks, k + |Toks(xs[0])|, items + [Back(xs[0])]);
      Associates(items, [Back(xs[0])], BackAll(xs[1..]));
    }
  }

  /** A list that is left open at the end of the tokens is read as if it were closed there. */
  lemma OpenList(xs: seq<Sexp>)
    ensures Form([LParen] + ToksAll(xs), 0) == Value(List(BackAll(xs)), |ToksAll(xs)| + 1)
  {
    hide Items;
    var toks := [LParen] + ToksAll(xs);
    assert toks[1..1 + |ToksAll(xs)|] == ToksAll(xs);
    ReadOpen(xs, toks, 1, []);
    assert [] + BackAll(xs) == BackAll(xs);
  }

  /** Values that come back as themselves. */
  predicate Literal(x: Sexp)
    decreases x
  {
    match x
    case Int(i) => i >= 0
    case Sym(name) => !IsInt(name)
    case Str(_) => true
    case List(items) => LiteralAll(items)
  }

  predicate LiteralAll(xs: seq<Sexp>)
    decreases xs
  {
    |xs| > 0 ==> Literal(xs[0]) && LiteralAll(xs[1..])
  }

  lemma {:induction false} BackIsSame(x: Sexp)
    ensures Back(x) == x <==> Literal(x)
    decreases x, 0
  {
    match x
    case Int(i) =>
      if i >= 0 {
        AtoiOfDigits(i);
      } else {
        assert Decimal(i)[0] == '-' && !IsDigit('-');
      }
    case Sym(name) =>
    case Str(text) =>
    case List(items) => BackIsSameAll(items);
  }

  lemma SameParts<T>(x: T, rest: seq<T>, s: seq<T>)
    requires |s| > 0
    ensures [x] + rest == s <==> x == s[0] && rest == s[1..]
  {
    assert s == [s[0]] + s[1..];
    if [x] + rest == s {
      assert ([x] + rest)[0] == x && ([x] + rest)[1..] == rest;
    }
  }

  lemma {:induction false} BackIsSameAll(xs: seq<Sexp>)
    ensures BackAll(xs) == xs <==> LiteralAll(xs)
    decreases xs, 1
  {
    if |xs| > 0 {
      hide Back, Literal;
      BackIsSame(xs[0]);
      BackIsSameAll(xs[1..]);
      SameParts(Back(xs[0]), BackAll(xs[1..]), xs);
    }
  }
}
