/** The S-expression program on what is typed into it: characters go to the tokenizer, and every newline, wherever
    it falls, makes the reader take a form off the tokens. */
module SexpSession {
  import opened Basics
  import opened SexpText

  // ---- the program: newlines make it read ----

  /** What the program has come to, and the values it has shown. */
  datatype Session = Crashed | Going(lex: Lex, shown: seq<Sexp>)

  const START := Going(Lex(Start, "", []), [])

  /** One character typed. At a newline, wherever it falls, the program reads a form off its tokens and shows
      it; the tokens before the cursor are gone. For a syntax error there is no value to show, and the
      program goes through a null pointer. */
  function Type(s: Session, c: char): Session {
    match s
    case Crashed => Crashed
    case Going(lex, shown) =>
      if IsNewline(c) then
        match Form(lex.toks, 0)
        case Value(x, at) => Going(Step(lex.(toks := lex.toks[at..]), c), shown + [x])
        case _ => Crashed
      else Going(Step(lex, c), shown)
  }

  function TypeAll(s: Session, text: string): Session
    decreases |text|
  {
    if |text| == 0 then s else TypeAll(Type(s, text[0]), text[1..])
  }

  lemma {:induction false} TypeAppend(s: Session, a: string, b: string)
    ensures TypeAll(s, a + b) == TypeAll(TypeAll(s, a), b)
    decreases |a|
  {
    hide Type;
    if |a| == 0 {
      assert a + b == b;
    } else {
      TypeAppend(Type(s, a[0]), a[1..], b);
      assert (a + b)[1..] == a[1..] + b;
    }
  }

  lemma TypeOne(s: Session, c: char)
    ensures TypeAll(s, [c]) == Type(s, c)
  {
    hide Type;
    assert [c][1..] == [];
  }

  /** Nothing but a newline makes the program read. */
  lemma OnlyNewlines(lex: Lex, shown: seq<Sexp>, c: char)
    requires c != '\n' && c != '\r'
    ensures Type(Going(lex, shown), c) == Going(Step(lex, c), shown)
  {
  }

  lemma NewlinePasses(toks: seq<Tok>, c: char)
    requires IsNewline(c)
    ensures Step(Lex(Start, "", toks), c) == Lex(Start, "", toks)
  {
  }

  /** Between two tokens, an atom in front is shown, and stays: every further newline shows it again. */
  lemma AtomStays(x: Sexp, toks: seq<Tok>, shown: seq<Sexp>, c: char)
    requires !x.List? && (c == '\n' || c == '\r')
    ensures var s := Going(Lex(Start, "", Toks(x) + toks), shown);
            Type(s, c) == Going(s.lex, shown + [Back(x)])
  {
    hide Step, Decimal;
    ReadElem(x, Toks(x) + toks, 0);
    assert (Toks(x) + toks)[0..] == Toks(x) + toks;
    NewlinePasses(Toks(x) + toks, c);
  }

  /** The last value shown, if the program still runs. */
  function LastShown(s: Session): Option<Sexp> {
    if s.Going? && |s.shown| > 0 then Some(s.shown[|s.shown| - 1]) else None
  }

  /** The index of the first newline, or the length when there is none. */
  function NewlineAt(s: string): (i: nat)
    ensures i <= |s| && (i < |s| ==> IsNewline(s[i])) && forall j | 0 <= j < i :: !IsNewline(s[j])
  {
    if |s| == 0 || IsNewline(s[0]) then 0 else 1 + NewlineAt(s[1..])
  }

  predicate Unbroken(s: string) {
    NewlineAt(s) == |s|
  }

  lemma UnbrokenAppend(a: string, b: string)
    ensures Unbroken(a + b) <==> Unbroken(a) && Unbroken(b)
  {
    hide NewlineAt;
    if !Unbroken(a) {
      assert (a + b)[NewlineAt(a)] == a[NewlineAt(a)];
    } else if !Unbroken(b) {
      assert (a + b)[|a| + NewlineAt(b)] == b[NewlineAt(b)];
    }
  }

  /** Without a newline the program is its tokenizer. */
  lemma {:induction false} TypeUnbroken(lex: Lex, shown: seq<Sexp>, s: string)
    requires Unbroken(s)
    ensures TypeAll(Going(lex, shown), s) == Going(Run(lex, s), shown)
    decreases |s|
  {
    hide Step;
    if |s| > 0 { TypeUnbroken(Step(lex, s[0]), shown, s[1..]); }
  }

  /** No newline in any string or symbol. */
  predicate OneLine(x: Sexp)
    decreases x
  {
    match x
    case Int(_) => true
    case Sym(name) => Unbroken(name)
    case Str(text) => Unbroken(text)
    case List(items) => OneLineAll(items)
  }

  predicate OneLineAll(xs: seq<Sexp>)
    decreases xs
  {
    |xs| > 0 ==> OneLine(xs[0]) && OneLineAll(xs[1..])
  }

  lemma UnbrokenDecimal(n: int)
    ensures Unbroken(Decimal(n))
  {
    hide NewlineAt;
    var s, d := Decimal(n), Digits(if n < 0 then -n else n);
    var i := NewlineAt(s);
    assert i < |s| ==> s[i] == '-' || IsDigit(s[i]) by {
      if n < 0 && 0 < i < |s| { assert s[i] == d[i - 1]; }
    }
  }

  lemma {:induction false} DumpUnbroken(x: Sexp)
    ensures Unbroken(Dump(x)) <==> OneLine(x)
    decreases x, 0
  {
    hide Unbroken, Decimal;
    match x
    case Int(i) => UnbrokenDecimal(i);
    case Sym(name) =>
    case Str(text) => UnbrokenWithin("\"", text, "\"");
    case List(items) =>
      DumpAllUnbroken(items);
      UnbrokenWithin("(", DumpAll(items), ")");
  }

  lemma UnbrokenWithin(a: string, s: string, b: string)
    requires |a| == |b| == 1 && !IsNewline(a[0]) && !IsNewline(b[0])
    ensures Unbroken(a + s + b) <==> Unbroken(s)
  {
    UnbrokenAppend(a + s, b);
    UnbrokenAppend(a, s);
  }

  lemma {:induction false} DumpAllUnbroken(xs: seq<Sexp>)
    ensures Unbroken(DumpAll(xs)) <==> OneLineAll(xs)
    decreases xs, 1
  {
    if |xs| == 1 {
      hide Unbroken;
      DumpUnbroken(xs[0]);
    } else if |xs| > 1 {
      DumpUnbroken(xs[0]);
      DumpAllUnbroken(xs[1..]);
      UnbrokenAppend(Dump(xs[0]) + " ", DumpAll(xs[1..]));
      UnbrokenAppend(Dump(xs[0]), " ");
    }
  }

  // ---- the round trip ----

  /** The tokenizer on a printed list. */
  lemma RunList(items: seq<Sexp>)
    requires forall x | x in items :: Plain(x)
    ensures Run(Lex(Start, "", []), Dump(List(items))) == Lex(Start, "", Toks(List(items)))
    ensures Inside(Lex(Start, "", []), Dump(List(items)))
  {
    hide Run, Inside;
    var st := Lex(Start, "", []);
    assert Dump(List(items)) == ['('] + (DumpAll(items) + [')']);
    RunAppend(st, ['('], DumpAll(items) + [')']);
    InsideAppend(st, ['('], DumpAll(items) + [')']);
    RunOne(st, '(');
    InsideOne(st, '(');
    Opens([]);
    assert [] + [LParen] == [LParen];
    RunItems(items, [LParen]);
  }

  lemma ReadWhole(x: Sexp)
    ensures Form(Toks(x), 0) == Value(Back(x), |Toks(x)| - 1)
  {
    assert Toks(x)[0..|Toks(x)|] == Toks(x);
    ReadElem(x, Toks(x), 0);
  }

  /** A list printed on one line and typed in, with a newline behind it, is read back, but for symbols of
      digits and negative integers. Its closing parenthesis stays behind. */
  lemma RoundTrip(items: seq<Sexp>, e: char)
    requires (forall x | x in items :: Plain(x)) && OneLine(List(items)) && IsNewline(e)
    ensures TypeAll(START, Dump(List(items)) + [e]) == Going(Lex(Start, "", [RParen]), [Back(List(items))])
  {
    hide Run, Form, OneLine, Dump, Back, Toks;
    var s, toks := Dump(List(items)), Toks(List(items));
    DumpUnbroken(List(items));
    RunList(items);
    TypeUnbroken(START.lex, [], s);
    TypeAppend(START, s, [e]);
    TypeOne(Going(Lex(Start, "", toks), []), e);
    ReadWhole(List(items));
    ClosesLast(items);
    assert [] + [Back(List(items))] == [Back(List(items))];
  }

  lemma ClosesLast(items: seq<Sexp>)
    ensures var toks := Toks(List(items)); |toks| > 0 && toks[|toks| - 1..] == [RParen]
  {
  }

  /** ... so that another newline makes the program crash. */
  lemma SecondNewline(items: seq<Sexp>, e: char)
    requires (forall x | x in items :: Plain(x)) && OneLine(List(items)) && IsNewline(e)
    ensures TypeAll(START, Dump(List(items)) + [e, e]) == Crashed
  {
    hide TypeAll;
    RoundTrip(items, e);
    assert Dump(List(items)) + [e, e] == (Dump(List(items)) + [e]) + [e];
    TypeAppend(START, Dump(List(items)) + [e], [e]);
    TypeOne(Going(Lex(Start, "", [RParen]), [Back(List(items))]), e);
  }

  // ---- a newline inside a token ----

  lemma {:induction false} RunGrows(st: Lex, s: string)
    ensures st.toks <= Run(st, s).toks
    ensures st.mode != Start && Run(st, s).mode == Start ==> |st.toks| < |Run(st, s).toks|
    decreases |s|
  {
    hide SymbolToken;
    if |s| > 0 { RunGrows(Step(st, s[0]), s[1..]); }
  }

  /** A text is closed as far as the tokens of a list go, and not before. */
  lemma {:induction false} CloseOfToks(x: Sexp, toks: seq<Tok>, k: nat, d: nat)
    requires At(toks, k, Toks(x)) && d > 0
    ensures |Toks(x)| > 0 && k + |Toks(x)| <= |toks|
    ensures Close(toks, k, d) == Close(toks, k + |Toks(x)|, d)
    decreases x, 0
  {
    hide At, Close, SymbolToken, Decimal, ToksAll;
    match x
    case List(items) =>
      assert Toks(x) == [LParen] + (ToksAll(items) + [RParen]);
      AtLength(toks, k, Toks(x));
      AtFirst(toks, k, Toks(x));
      AtParts(toks, k, [LParen], ToksAll(items) + [RParen]);
      AtParts(toks, k + 1, ToksAll(items), [RParen]);
      AtFirst(toks, k + 1 + |ToksAll(items)|, [RParen]);
      CloseOfAll(items, toks, k + 1, d + 1);
      CloseOfParens(toks, k, k + 1 + |ToksAll(items)|, d);
    case _ =>
      AtFirst(toks, k, Toks(x));
      AtomTokens(x);
      CloseOfAtom(toks, k, d);
  }

  lemma AtomTokens(x: Sexp)
    ensures !x.List? ==> |Toks(x)| == 1 && Toks(x)[0] != LParen && Toks(x)[0] != RParen
  {
  }

  lemma CloseOfAtom(toks: seq<Tok>, k: nat, d: nat)
    requires k < |toks| && d > 0 && toks[k] != LParen && toks[k] != RParen
    ensures Close(toks, k, d) == Close(toks, k + 1, d)
  {
  }

  lemma CloseOfParens(toks: seq<Tok>, k: nat, j: nat, d: nat)
    requires k < j < |toks| && d > 0 && toks[k] == LParen && toks[j] == RParen
    requires Close(toks, k + 1, d + 1) == Close(toks, j, d + 1)
    ensures Close(toks, k, d) == Close(toks, j + 1, d)
  {
  }

  lemma {:induction false} CloseOfAll(xs: seq<Sexp>, toks: seq<Tok>, k: nat, d: nat)
    requires At(toks, k, ToksAll(xs)) && d > 0
    ensures k + |ToksAll(xs)| <= |toks|
    ensures Close(toks, k, d) == Close(toks, k + |ToksAll(xs)|, d)
    decreases xs, 1
  {
    hide Toks, Close, At;
    AtLength(toks, k, ToksAll(xs));
    if |xs| > 0 {
      AtParts(toks, k, Toks(xs[0]), ToksAll(xs[1..]));
      CloseOfToks(xs[0], toks, k, d);
      CloseOfAll(xs[1..], toks, k + |Toks(xs[0])|, d);
    }
  }

  /** Where something closes among the first tokens, it closes there among them all. */
  lemma {:induction false} ClosePrefix(a: seq<Tok>, toks: seq<Tok>, k: nat, d: nat)
    requires a <= toks && k <= |a| && d > 0 && Close(a, k, d).1 == 0
    ensures Close(toks, k, d) == Close(a, k, d)
    decreases |a| - k
  {
    if k < |a| {
      if a[k] == RParen {
        if d > 1 { ClosePrefix(a, toks, k + 1, d - 1); }
      } else {
        ClosePrefix(a, toks, k + 1, if a[k] == LParen then d + 1 else d);
      }
    }
  }

  /** The parenthesis of a list closes with its last token. */
  lemma ListCloses(items: seq<Sexp>)
    ensures var toks := Toks(List(items)); |toks| > 1 && Close(toks, 1, 1) == (|toks| - 1, 0)
  {
    var toks := Toks(List(items));
    assert toks[1..1 + |ToksAll(items)|] == ToksAll(items);
    CloseOfAll(items, toks, 1, 1);
  }

  /** Some of the tokens of a list, but not all, crash the reader or are all taken. */
  lemma PartRead(items: seq<Sexp>, a: seq<Tok>)
    requires a < Toks(List(items))
    ensures Form(a, 0).Crash? || (Form(a, 0).Value? && Form(a, 0).at == |a|)
  {
    hide Form;
    var toks := Toks(List(items));
    FormShape(a, 0);
    if |a| > 0 {
      assert a[0] == toks[0] == LParen;
      if Close(a, 1, 1).1 == 0 {
        ClosePrefix(a, toks, 1, 1);
        ListCloses(items);
      }
    }
  }

  predicate IsAtom(t: Tok) {
    t != LParen && t != RParen
  }

  /** What a newline inside a token leads to: the tokens are gone, and the first one to come is an atom. */
  predicate Spoilt(s: Session) {
    s.Going? ==> if |s.lex.toks| == 0 then s.lex.mode != Start else IsAtom(s.lex.toks[0])
  }

  lemma SpoiltType(s: Session, c: char)
    requires Spoilt(s)
    ensures Spoilt(Type(s, c))
    ensures IsNewline(c) ==> Type(s, c).Crashed? || (LastShown(Type(s, c)).Some? && !LastShown(Type(s, c)).value.List?)
  {
    hide Atoi, IsInt;
    if s.Going? && IsNewline(c) {
      FormShape(s.lex.toks, 0);
      if |s.lex.toks| > 0 { assert s.lex.toks[0..] == s.lex.toks; }
    }
  }

  lemma {:induction false} SpoiltAll(s: Session, text: string)
    requires Spoilt(s)
    ensures Spoilt(TypeAll(s, text))
    decreases |text|
  {
    hide Spoilt, Type;
    if |text| > 0 {
      SpoiltType(s, text[0]);
      SpoiltAll(Type(s, text[0]), text[1..]);
    }
  }

  /** The first newline of a printed list comes inside a token, and spoils what follows. */
  lemma FirstNewline(items: seq<Sexp>)
    requires (forall x | x in items :: Plain(x)) && !Unbroken(Dump(List(items)))
    ensures var s := Dump(List(items)); Spoilt(TypeAll(START, s[..NewlineAt(s) + 1]))
  {
    hide Run, Inside, Form, Dump, Toks, NewlineAt;
    var s := Dump(List(items));
    var i := NewlineAt(s);
    var a, b := s[..i], s[i..];
    RunList(items);
    assert a + b == s && b[0] == s[i] && a + [s[i]] == s[..i + 1];
    RunAppend(START.lex, a, b);
    InsideAppend(START.lex, a, b);
    var lex := Run(START.lex, a);
    assert lex.mode != Start by { InsideFirst(lex, b); }
    RunGrows(lex, b);
    PartRead(items, lex.toks);
    assert Unbroken(a) by { UnbrokenTo(s, i); }
    TypeUnbroken(START.lex, [], a);
    TypeAppend(START, a, [s[i]]);
    TypeOne(Going(lex, []), s[i]);
    SpoiltFirst(lex, s[i]);
  }

  lemma InsideFirst(st: Lex, s: string)
    requires |s| > 0 && Inside(st, s) && IsNewline(s[0])
    ensures st.mode != Start
  {
  }

  lemma UnbrokenTo(s: string, i: nat)
    requires i <= |s| && forall j | 0 <= j < i :: !IsNewline(s[j])
    ensures Unbroken(s[..i])
  {
  }

  lemma SpoiltFirst(lex: Lex, c: char)
    requires IsNewline(c) && lex.mode != Start
    requires Form(lex.toks, 0).Crash? || (Form(lex.toks, 0).Value? && Form(lex.toks, 0).at == |lex.toks|)
    ensures Spoilt(Type(Going(lex, []), c))
  {
    hide Form;
  }

  /** A printed list with a newline in it is not read back as any list. */
  lemma BrokenTrip(items: seq<Sexp>, e: char)
    requires (forall x | x in items :: Plain(x)) && !OneLine(List(items)) && IsNewline(e)
    ensures var last := LastShown(TypeAll(START, Dump(List(items)) + [e])); last.Some? ==> !last.value.List?
  {
    hide Type, Spoilt, TypeAll, Dump, OneLine, NewlineAt;
    var s := Dump(List(items));
    DumpUnbroken(List(items));
    FirstNewline(items);
    var k := NewlineAt(s) + 1;
    assert s + [e] == s[..k] + s[k..] + [e];
    TypeAppend(START, s[..k] + s[k..], [e]);
    TypeAppend(START, s[..k], s[k..]);
    SpoiltAll(TypeAll(START, s[..k]), s[k..]);
    assert s[..k] + s[k..] == s;
    SpoiltType(TypeAll(START, s), e);
    TypeOne(TypeAll(START, s), e);
  }

  // ---- whatever is typed: no list shown holds a newline ----

  predicate OneLineTok(t: Tok) {
    match t
    case TSym(s) => Unbroken(s)
    case TStr(s) => Unbroken(s)
    case _ => true
  }

  predicate OneLineToks(toks: seq<Tok>) {
    forall i | 0 <= i < |toks| :: OneLineTok(toks[i])
  }

  lemma {:induction false} OneLineMore(xs: seq<Sexp>, x: Sexp)
    ensures OneLineAll(xs + [x]) <==> OneLineAll(xs) && OneLine(x)
  {
    hide OneLine;
    if |xs| > 0 {
      OneLineMore(xs[1..], x);
      assert (xs + [x])[1..] == xs[1..] + [x];
    } else {
      assert (xs + [x])[1..] == [];
    }
  }

  lemma {:induction false} FormOneLine(toks: seq<Tok>, k: nat)
    requires k <= |toks| && OneLineToks(toks)
    ensures Form(toks, k).Value? ==> OneLine(Form(toks, k).x)
    decreases |toks| - k, 0
  {
    hide Unbroken;
    if k < |toks| {
      assert OneLineTok(toks[k]);
      if toks[k] == LParen { ItemsOneLine(toks, k + 1, []); }
    }
  }

  lemma {:induction false} ItemsOneLine(toks: seq<Tok>, k: nat, items: seq<Sexp>)
    requires k <= |toks| && OneLineToks(toks) && OneLineAll(items)
    ensures Items(toks, k, items).Value? ==> OneLine(Items(toks, k, items).x)
    decreases |toks| - k, 1
  {
    hide OneLineToks;
    if k < |toks| && toks[k] != RParen {
      FormOneLine(toks, k);
      match Form(toks, k)
      case Value(x, k') =>
        OneLineMore(items, x);
        if k' < |toks| { ItemsOneLine(toks, k' + 1, items + [x]); }
      case _ =>
    }
  }

  /** Nothing the tokenizer holds has a newline in it. */
  predicate OneLineLex(lex: Lex) {
    OneLineToks(lex.toks) && (lex.mode == Start || Unbroken(lex.buf))
  }

  /** The program will show no list, or only one without newlines: there is none in its tokens, or the first of
      them is no list and stays where it is. */
  predicate Settled(s: Session) {
    s.Going? ==>
      || OneLineLex(s.lex)
      || (if |s.lex.toks| == 0 then s.lex.mode != Start else s.lex.toks[0] != LParen)
  }

  lemma StepOneLine(lex: Lex, c: char)
    requires OneLineLex(lex) && !IsNewline(c)
    ensures OneLineLex(Step(lex, c))
  {
    hide Unbroken, Atoi, IsInt;
    UnbrokenOne(c);
    if lex.mode != Start { UnbrokenAppend(lex.buf, [c]); }
    assert [] + [c] == [c];
  }

  lemma UnbrokenOne(c: char)
    ensures Unbroken([]) && (!IsNewline(c) ==> Unbroken([c]))
  {
  }

  lemma {:induction false} ClosesAt(toks: seq<Tok>, k: nat, d: nat)
    requires k <= |toks| && d > 0
    ensures var r := Close(toks, k, d); r.1 == 0 ==> r.0 < |toks| && toks[r.0] == RParen
    decreases |toks| - k
  {
    if k < |toks| {
      if toks[k] == RParen {
        if d > 1 { ClosesAt(toks, k + 1, d - 1); }
      } else {
        ClosesAt(toks, k + 1, if toks[k] == LParen then d + 1 else d);
      }
    }
  }

  /** What a read leaves: nothing, or an atom or a parenthesis that stays. */
  lemma ReadSettles(lex: Lex, c: char)
    requires IsNewline(c) && Form(lex.toks, 0).Value?
    ensures Settled(Going(Step(lex.(toks := lex.toks[Form(lex.toks, 0).at..]), c), []))
  {
    hide Form, SymbolToken;
    var toks, at := lex.toks, Form(lex.toks, 0).at;
    FormShape(toks, 0);
    if toks[0] == LParen { ClosesAt(toks, 1, 1); }
    assert at < |toks| ==> toks[at..][0] == toks[at] != LParen;
  }

  lemma SettledType(s: Session, c: char)
    requires Settled(s)
    ensures Settled(Type(s, c))
    ensures IsNewline(c) && Type(s, c).Going? ==>
              LastShown(Type(s, c)).Some? &&
              (LastShown(Type(s, c)).value.List? ==> OneLine(LastShown(Type(s, c)).value))
  {
    hide Form, OneLineLex, OneLine, SymbolToken;
    if s.Going? {
      if IsNewline(c) {
        FormShape(s.lex.toks, 0);
        if Form(s.lex.toks, 0).Value? {
          ReadSettles(s.lex, c);
          AtomRead(s.lex.toks);
          if OneLineLex(s.lex) { FormOneLine(s.lex.toks, 0) by { LexToks(s.lex); } }
        }
      } else if OneLineLex(s.lex) {
        StepOneLine(s.lex, c);
      } else {
        StepAtom(s.lex, c);
      }
    }
  }

  lemma AtomRead(toks: seq<Tok>)
    ensures Form(toks, 0).Value? && toks[0] != LParen ==> !Form(toks, 0).x.List?
  {
  }

  lemma LexToks(lex: Lex)
    requires OneLineLex(lex)
    ensures OneLineToks(lex.toks)
  {
  }

  /** The first token stays; and behind none at all, in the middle of one, that one is an atom. */
  lemma StepAtom(lex: Lex, c: char)
    requires if |lex.toks| == 0 then lex.mode != Start else lex.toks[0] != LParen
    ensures var lex' := Step(lex, c); if |lex'.toks| == 0 then lex'.mode != Start else lex'.toks[0] != LParen
  {
    hide Atoi, IsInt;
  }

  lemma {:induction false} SettledAll(s: Session, text: string)
    requires Settled(s)
    ensures Settled(TypeAll(s, text))
    decreases |text|
  {
    hide Settled, Type;
    if |text| > 0 {
      SettledType(s, text[0]);
      SettledAll(Type(s, text[0]), text[1..]);
    }
  }

  /** Whatever is typed, a list that the program shows holds no newline. */
  lemma ShownOneLine(text: string, e: char)
    requires IsNewline(e)
    ensures var last := LastShown(TypeAll(START, text + [e])); last.Some? && last.value.List? ==> OneLine(last.value)
  {
    hide Type, Settled, OneLine;
    assert Settled(START) by { StartSettled(); }
    SettledAll(START, text);
    SettledType(TypeAll(START, text), e);
    TypeAppend(START, text, [e]);
    TypeOne(TypeAll(START, text), e);
    GoingOn(TypeAll(START, text), e);
  }

  lemma StartSettled()
    ensures Settled(START)
  {
  }

  lemma GoingOn(s: Session, c: char)
    ensures LastShown(Type(s, c)).Some? ==> Type(s, c).Going?
  {
    hide Type;
  }

  // ---- what comes back was plain ----

  /** Tokens as the tokenizer makes them: no symbol is empty, all digits or could end before its end; no string
      holds a zero. */
  predicate Made(t: Tok) {
    match t
    case TSym(s) => !IsInt(s) && forall i | 0 <= i < |s| :: Inner(s[i])
    case TStr(s) => forall i | 0 <= i < |s| :: s[i] != '\0'
    case _ => true
  }

  predicate MadeLex(lex: Lex) {
    && (forall i | 0 <= i < |lex.toks| :: Made(lex.toks[i]))
    && (lex.mode == InSymbol ==> forall i | 0 <= i < |lex.buf| :: Inner(lex.buf[i]))
    && (lex.mode == InString || lex.mode == InEscape ==> forall i | 0 <= i < |lex.buf| :: lex.buf[i] != '\0')
  }

  lemma {:induction false} RunMade(lex: Lex, s: string)
    requires MadeLex(lex)
    ensures MadeLex(Run(lex, s))
    decreases |s|
  {
    hide Atoi;
    if |s| > 0 { RunMade(Step(lex, s[0]), s[1..]); }
  }

  /** The next token to come is this one. */
  predicate Comes(lex: Lex, s: string, t: Tok) {
    |lex.toks| < |Run(lex, s).toks| && Run(lex, s).toks[|lex.toks|] == t
  }

  /** A first character that makes no token leaves the next one to come. */
  lemma ComesAfter(lex: Lex, s: string, t: Tok)
    requires Comes(lex, s, t) && |s| > 0
    ensures var lex' := Step(lex, s[0]);
            if |lex'.toks| == |lex.toks| then Comes(lex', s[1..], t) else lex'.toks[|lex.toks|] == t
  {
    hide Step;
    RunGrows(lex, [s[0]]);
    RunOne(lex, s[0]);
    RunGrows(Step(lex, s[0]), s[1..]);
  }

  /** In a string the next token is a string that begins with what has been collected. */
  lemma {:induction false} StringComes(lex: Lex, s: string, t: Tok)
    requires (lex.mode == InString || lex.mode == InEscape) && Comes(lex, s, t)
    ensures t.TStr? && lex.buf <= t.s
    decreases |s|
  {
    hide SymbolToken;
    if |s| > 0 {
      ComesAfter(lex, s, t);
      var lex' := Step(lex, s[0]);
      if |lex'.toks| == |lex.toks| {
        StringComes(lex', s[1..], t);
      }
    }
  }

  /** The backslashes a text begins with. */
  function Slashes(s: string): (n: nat)
    ensures n <= |s| && (n < |s| ==> s[n] != '\\')
  {
    if |s| == 0 || s[0] != '\\' then 0 else 1 + Slashes(s[1..])
  }

  /** Of the backslashes in front the tokenizer keeps every other one. */
  lemma {:induction false} HalfTheSlashes(lex: Lex, s: string, t: Tok)
    requires lex.mode == InString && Comes(lex, s, t)
    requires Slashes(s) < |s| && s[Slashes(s)] != '\0'
    ensures t.TStr? && lex.buf <= t.s && Slashes(t.s[|lex.buf|..]) == Slashes(s) / 2
    decreases |s|
  {
    StringComes(lex, s, t);
    ComesAfter(lex, s, t);
    var lex1 := Step(lex, s[0]);
    if s[0] == '\\' {
      var c := s[1];
      assert s[1..][0] == c && s[1..][1..] == s[2..] && Slashes(s) == 1 + Slashes(s[1..]);
      ComesAfter(lex1, s[1..], t);
      var lex2 := Step(lex1, c);
      assert lex2 == Lex(InString, lex.buf + [c], lex.toks);
      StringComes(lex2, s[2..], t);
      var u := t.s[|lex.buf|..];
      assert u[0] == c && u[1..] == t.s[|lex2.buf|..];
      if c == '\\' { HalfTheSlashes(lex2, s[2..], t); }
    } else if s[0] == '"' {
      assert t.s[|lex.buf|..] == "";
    } else {
      StringComes(lex1, s[1..], t);
      assert t.s[|lex.buf|..][0] == s[0];
    }
  }

  /** A string that comes back had no quote and no backslash. */
  lemma {:induction false} TextComes(lex: Lex, text: string, rest: string)
    requires lex.mode == InString && Comes(lex, text + "\"" + rest, TStr(lex.buf + text))
    requires forall i | 0 <= i < |text| :: text[i] != '\0'
    ensures PlainString(text)
    decreases |text|
  {
    if |text| > 0 {
      var s, t := text + "\"" + rest, TStr(lex.buf + text);
      assert s[0] == text[0] && s[1..] == text[1..] + "\"" + rest;
      ComesAfter(lex, s, t);
      if text[0] == '\\' {
        SlashesWithin(text, rest);
        assert t.s[|lex.buf|..] == text;
        HalfTheSlashes(lex, s, t);
      } else if text[0] != '"' {
        assert lex.buf + [text[0]] + text[1..] == lex.buf + text;
        TextComes(Step(lex, s[0]), text[1..], rest);
      }
    }
  }

  lemma {:induction false} SlashesWithin(text: string, rest: string)
    requires forall i | 0 <= i < |text| :: text[i] != '\0'
    ensures var s := text + "\"" + rest; Slashes(s) == Slashes(text) < |s| && s[Slashes(s)] != '\0'
  {
    var s := text + "\"" + rest;
    if |text| > 0 && text[0] == '\\' {
      SlashesWithin(text[1..], rest);
      assert s[1..] == text[1..] + "\"" + rest;
    }
  }

  /** A symbol that comes back was plain. */
  lemma NameComes(toks: seq<Tok>, name: string, rest: string)
    requires Comes(Lex(Start, "", toks), name + rest, TSym(name)) && Made(TSym(name)) && Unbroken(name)
    ensures PlainSymbol(name)
  {
    var lex, s := Lex(Start, "", toks), name + rest;
    assert |name| > 0 && !IsNewline(name[0]);
    assert s[0] == name[0] && Inner(name[0]);
    ComesAfter(lex, s, TSym(name));
    if name[0] == '"' {
      StringComes(Step(lex, s[0]), s[1..], TSym(name));
    }
  }

  lemma StartMade(toks: seq<Tok>)
    requires forall i | 0 <= i < |toks| :: Made(toks[i])
    ensures MadeLex(Lex(Start, "", toks))
  {
  }

  lemma MadeAt(lex: Lex, k: nat)
    requires MadeLex(lex) && k < |lex.toks|
    ensures Made(lex.toks[k])
  {
  }

  lemma MadeMore(toks: seq<Tok>, t: Tok)
    requires (forall i | 0 <= i < |toks| :: Made(toks[i])) && Made(t)
    ensures forall i | 0 <= i < |toks + [t]| :: Made((toks + [t])[i])
  {
  }

  lemma SymMade(name: string)
    requires Made(TSym(name)) && PlainSymbol(name)
    ensures Plain(Sym(name)) && Literal(Sym(name))
  {
  }

  lemma StrMade(text: string)
    requires Made(TStr(text))
    ensures forall i | 0 <= i < |text| :: text[i] != '\0'
  {
  }

  lemma StrPlain(text: string)
    requires PlainString(text)
    ensures Plain(Str(text)) && Literal(Str(text))
  {
  }

  lemma ListPlain(items: seq<Sexp>)
    requires (forall x | x in items :: Plain(x)) && LiteralAll(items)
    ensures Plain(List(items)) && Literal(List(items))
  {
  }

  /** The next token behind an opening quote is the string's. */
  lemma QuoteComes(toks: seq<Tok>, text: string, s: string)
    requires |s| > 0 && s[0] == '"' && Comes(Lex(Start, "", toks), s, TStr(text))
    ensures Comes(Lex(InString, "", toks), s[1..], TStr(text))
  {
    ComesAfter(Lex(Start, "", toks), s, TStr(text));
  }

  /** A number that comes back as a number was not negative. */
  lemma NumberComes(i: int, toks: seq<Tok>, c: char, rest: string)
    requires c == ' ' || c == ')'
    requires var fin := Run(Lex(Start, "", toks), Decimal(i) + [c] + rest).toks;
             |toks| < |fin| && fin[|toks|].TInt?
    ensures Plain(Int(i)) && Literal(Int(i))
  {
    hide Run, Step, Digits, Atoi;
    var lex, lex' := Lex(Start, "", toks), Lex(Start, "", toks + [SymbolToken(Decimal(i))] + Closing(c));
    if i < 0 { NegativeIsNoInt(i); }
    PlainDecimal(i);
    RunWord(Decimal(i), toks, c);
    RunAppend(lex, Decimal(i) + [c], rest);
    assert lex'.toks[|toks|] == SymbolToken(Decimal(i));
    RunGrows(lex', rest);
  }

  lemma NegativeIsNoInt(i: int)
    requires i < 0
    ensures !IsInt(Decimal(i))
  {
    assert Decimal(i)[0] == '-' && !IsDigit('-');
  }

  /** A form of one token, and a list, by the token they begin with. */
  lemma TokenOfForm(toks: seq<Tok>, k: nat)
    requires k < |toks| && Form(toks, k).Value?
    ensures match Form(toks, k).x
            case Int(i) => toks[k].TInt? && toks[k].i == i
            case Sym(name) => toks[k] == TSym(name)
            case Str(text) => toks[k] == TStr(text)
            case List(_) => toks[k] == LParen
  {
    if toks[k] == LParen { ItemsKeep(toks, k + 1, []); }
  }

  /** An element that is read back, from the tokens of its printed form and whatever follows, was plain and is
      literal. */
  lemma {:induction false} ElemComes(x: Sexp, toks: seq<Tok>, c: char, rest: string)
    requires OneLine(x) && (c == ' ' || c == ')') && (forall i | 0 <= i < |toks| :: Made(toks[i]))
    requires var fin := Run(Lex(Start, "", toks), Dump(x) + [c] + rest).toks;
             |toks| < |fin| && Form(fin, |toks|).Value? && Form(fin, |toks|).x == x
    ensures Plain(x) && Literal(x)
    decreases x, 0
  {
    hide Run, Step, Decimal, SymbolToken, Items, Plain, Literal, Atoi, Made, Unbroken;
    var lex := Lex(Start, "", toks);
    var s := Dump(x) + [c] + rest;
    var fin := Run(lex, s).toks;
    RunMade(lex, s) by { StartMade(toks); }
    assert Made(fin[|toks|]) by { MadeAt(Run(lex, s), |toks|); }
    TokenOfForm(fin, |toks|);
    match x
    case Int(i) => NumberComes(i, toks, c, rest);
    case Sym(name) =>
      assert s == name + ([c] + rest);
      NameComes(toks, name, [c] + rest);
      SymMade(name);
    case Str(text) =>
      assert s == ['"'] + (text + "\"" + ([c] + rest));
      assert s[1..] == text + "\"" + ([c] + rest);
      QuoteComes(toks, text, s);
      StrMade(text);
      assert "" + text == text;
      TextComes(Lex(InString, "", toks), text, [c] + rest);
      StrPlain(text);
    case List(items) =>
      var tail := [c] + rest;
      assert s == ['('] + (DumpAll(items) + [')'] + tail);
      RunAppend(lex, ['('], DumpAll(items) + [')'] + tail);
      RunOne(lex, '(');
      Opens(toks);
      RunGrows(Lex(Start, "", toks + [LParen]), DumpAll(items) + [')'] + tail);
      assert fin[|toks|] == LParen;
      MadeMore(toks, LParen);
      ItemsComes(items, toks + [LParen], tail, []);
      ListPlain(items);
  }

  /** Items that are read are what was there, and more. */
  lemma {:induction false} ItemsKeep(toks: seq<Tok>, k: nat, items: seq<Sexp>)
    requires k <= |toks| && Items(toks, k, items).Value?
    ensures Items(toks, k, items).x.List? && items <= Items(toks, k, items).x.items
    decreases |toks| - k
  {
    if k < |toks| && toks[k] != RParen {
      hide Form;
      match Form(toks, k)
      case Value(x, k') => if k' < |toks| { ItemsKeep(toks, k' + 1, items + [x]); }
      case _ =>
    }
  }

  /** The first of the items still to come is the form that stands there. */
  lemma FirstItem(xs: seq<Sexp>, toks: seq<Tok>, k: nat, items: seq<Sexp>)
    requires k <= |toks| && |xs| > 0
    requires Items(toks, k, items).Value? && Items(toks, k, items).x == List(items + xs)
    ensures k < |toks| && Form(toks, k).Value? && Form(toks, k).x == xs[0] && Form(toks, k).at < |toks|
    ensures Items(toks, Form(toks, k).at + 1, items + [xs[0]]) == Items(toks, k, items)
  {
    hide Form;
    assert (items + xs)[|items|] == xs[0];
    if k < |toks| && toks[k] != RParen {
      match Form(toks, k)
      case Value(x, k') =>
        ItemsKeep(toks, k' + 1, items + [x]);
        assert (items + xs)[|items|] == (items + [x])[|items|] == x;
      case _ =>
    }
  }

  lemma {:induction false} ItemsComes(xs: seq<Sexp>, toks: seq<Tok>, tail: string, items: seq<Sexp>)
    requires OneLineAll(xs) && (forall i | 0 <= i < |toks| :: Made(toks[i]))
    requires var fin := Run(Lex(Start, "", toks), DumpAll(xs) + [')'] + tail).toks;
             |toks| <= |fin| && Items(fin, |toks|, items).Value? && Items(fin, |toks|, items).x == List(items + xs)
    ensures (forall x | x in xs :: Plain(x)) && LiteralAll(xs)
    decreases xs, 1
  {
    hide Run, Dump, Made, Plain, Literal, OneLine, Form, Items;
    if |xs| > 0 {
      var lex := Lex(Start, "", toks);
      var c := if |xs| == 1 then ')' else ' ';
      var rest := if |xs| == 1 then tail else DumpAll(xs[1..]) + [')'] + tail;
      assert DumpAll(xs) + [')'] + tail == Dump(xs[0]) + [c] + rest;
      var fin := Run(lex, Dump(xs[0]) + [c] + rest).toks;
      FirstItem(xs, fin, |toks|, items);
      ElemComes(xs[0], toks, c, rest);
      if |xs| > 1 {
        ItemsGoOn(xs, toks, fin, tail, items);
        ItemsComes(xs[1..], toks + Toks(xs[0]), tail, items + [xs[0]]);
      }
      assert forall x | x in xs :: x == xs[0] || x in xs[1..];
    }
  }

  /** Past the first of the items, which was plain. */
  lemma ItemsGoOn(xs: seq<Sexp>, toks: seq<Tok>, fin: seq<Tok>, tail: string, items: seq<Sexp>)
    requires |xs| > 1 && Plain(xs[0]) && forall i | 0 <= i < |toks| :: Made(toks[i])
    requires fin == Run(Lex(Start, "", toks), Dump(xs[0]) + [' '] + (DumpAll(xs[1..]) + [')'] + tail)).toks
    requires |toks| < |fin| && Form(fin, |toks|).Value? && Form(fin, |toks|).at < |fin|
    requires var r := Items(fin, Form(fin, |toks|).at + 1, items + [xs[0]]); r.Value? && r.x == List(items + xs)
    ensures var toks' := toks + Toks(xs[0]);
            && fin == Run(Lex(Start, "", toks'), DumpAll(xs[1..]) + [')'] + tail).toks && |toks'| <= |fin|
            && (forall i | 0 <= i < |toks'| :: Made(toks'[i]))
            && Items(fin, |toks'|, items + [xs[0]]).Value?
            && Items(fin, |toks'|, items + [xs[0]]).x == List(items + [xs[0]] + xs[1..])
  {
    hide Run, Dump, Made, Plain, Form, Items, Toks;
    RunPast(xs[0], toks, DumpAll(xs[1..]) + [')'] + tail);
    ReadPast(xs[0], fin, |toks|) by { assert toks + Toks(xs[0]) <= fin; }
    assert items + [xs[0]] + xs[1..] == items + xs;
  }

  /** The tokenizer past a plain element. */
  lemma RunPast(x: Sexp, toks: seq<Tok>, more: string)
    requires Plain(x) && forall i | 0 <= i < |toks| :: Made(toks[i])
    ensures var toks', fin := toks + Toks(x), Run(Lex(Start, "", toks), Dump(x) + [' '] + more).toks;
            && fin == Run(Lex(Start, "", toks'), more).toks && toks' <= fin
            && forall i | 0 <= i < |toks'| :: Made(toks'[i])
  {
    hide Run, Dump, Made, Plain, Toks, Inside;
    var lex, toks' := Lex(Start, "", toks), toks + Toks(x);
    RunElem(x, toks, ' ');
    assert toks + Toks(x) + Closing(' ') == toks';
    RunAppend(lex, Dump(x) + [' '], more);
    RunGrows(Lex(Start, "", toks'), more);
    RunMade(lex, Dump(x) + [' ']) by { StartMade(toks); }
    forall i | 0 <= i < |toks'| ensures Made(toks'[i]) { MadeAt(Lex(Start, "", toks'), i); }
  }

  /** The reader past its tokens. */
  lemma ReadPast(x: Sexp, fin: seq<Tok>, k: nat)
    requires k <= |fin| && Toks(x) <= fin[k..]
    ensures k + |Toks(x)| <= |fin| && Form(fin, k).Value? && Form(fin, k).at + 1 == k + |Toks(x)|
  {
    hide Form, Toks;
    assert fin[k..k + |Toks(x)|] == fin[k..][..|Toks(x)|] == Toks(x);
    ReadElem(x, fin, k);
  }

  /** A list that comes back was plain and is literal. */
  lemma PlainComes(items: seq<Sexp>, e: char)
    requires IsNewline(e) && OneLine(List(items))
    requires LastShown(TypeAll(START, Dump(List(items)) + [e])) == Some(List(items))
    ensures (forall x | x in items :: Plain(x)) && LiteralAll(items)
  {
    hide Run, Form, DumpAll, OneLineAll, Plain, Literal, Made;
    var s := Dump(List(items));
    DumpUnbroken(List(items));
    TypeUnbroken(START.lex, [], s);
    TypeAppend(START, s, [e]);
    TypeOne(TypeAll(START, s), e);
    var fin := Run(START.lex, s).toks;
    assert Form(fin, 0).Value? && Form(fin, 0).x == List(items);
    assert s == ['('] + (DumpAll(items) + [')'] + "");
    RunAppend(START.lex, ['('], DumpAll(items) + [')'] + "");
    RunOne(START.lex, '(');
    Opens([]);
    assert [] + [LParen] == [LParen] && [] + items == items;
    RunGrows(Lex(Start, "", [LParen]), DumpAll(items) + [')'] + "");
    FormOfList(fin);
    MadeMore([], LParen);
    assert Made(LParen) by { ParenMade(); }
    ItemsComes(items, [LParen], "", []);
  }

  lemma ParenMade()
    ensures Made(LParen)
  {
  }

  lemma FormOfList(toks: seq<Tok>)
    requires |toks| > 0 && toks[0] == LParen
    ensures Form(toks, 0) == Items(toks, 1, [])
  {
  }

  /** The round trip of a list is exact if and only if every integer in it is non-negative, no symbol is all
      digits, no string or symbol holds a newline, no string a quote, a backslash or a zero, and every symbol is
      one that the tokenizer could make. */
  lemma RoundTripExact(items: seq<Sexp>, e: char)
    requires IsNewline(e)
    ensures LastShown(TypeAll(START, Dump(List(items)) + [e])) == Some(List(items)) <==>
            Plain(List(items)) && Literal(List(items)) && OneLine(List(items))
  {
    hide TypeAll, Dump, Literal, OneLine, Back;
    if LastShown(TypeAll(START, Dump(List(items)) + [e])) == Some(List(items)) {
      ShownOneLine(Dump(List(items)), e);
      PlainComes(items, e);
      ListPlain(items);
    } else if Plain(List(items)) && OneLine(List(items)) {
      RoundTrip(items, e);
      BackIsSame(List(items));
    }
  }
}
