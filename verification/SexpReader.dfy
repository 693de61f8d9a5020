/** The S-expression program at work: the token list it appends to, the buffer it collects a token in,
    the cells the reader builds, and the printer that walks them. */
module SexpReader {
  import opened Basics
  import opened SexpSession
  import opened SexpText

  // ---- the token list ----

  class Token {
    const tok: Tok
    var next: Token?

    constructor (tok: Tok)
      ensures this.tok == tok && next == null
    {
      this.tok := tok;
      next := null;
    }
  }

  function TokensOf(nodes: seq<Token>): (r: seq<Tok>)
    ensures |r| == |nodes| && forall i | 0 <= i < |nodes| :: r[i] == nodes[i].tok
  {
    seq(|nodes|, i requires 0 <= i < |nodes| => nodes[i].tok)
  }

  function TokenAt(nodes: seq<Token>, k: nat): Token? {
    if k < |nodes| then nodes[k] else null
  }

  ghost predicate Chain(nodes: seq<Token>)
    reads nodes`next
  {
    && (forall i | 0 <= i < |nodes| :: nodes[i].next == TokenAt(nodes, i + 1))
    && (forall i, j | 0 <= i < j < |nodes| :: nodes[i] != nodes[j])
  }

  /** LL_APPEND2 */
  method Append(head: Token?, add: Token, ghost nodes: seq<Token>) returns (head': Token)
    requires Chain(nodes) && head == TokenAt(nodes, 0) && add !in nodes
    modifies add`next, nodes`next
    ensures Chain(nodes + [add]) && head' == TokenAt(nodes + [add], 0)
  {
    add.next := null;
    if head == null { return add; }
    var tmp := head;
    ghost var k := 0;
    while tmp.next != null
      invariant k < |nodes| && tmp == nodes[k] && Chain(nodes) && add.next == null
      decreases |nodes| - k
    {
      tmp := tmp.next;
      k := k + 1;
    }
    tmp.next := add;
    head' := head;
  }

  // ---- the buffer of the token being collected ----

  const BUFFER_SIZE := 1024

  /** The buffer is zero but for the string at its start. */
  ghost predicate Spelled(buf: array<char>, s: string)
    reads buf
  {
    && buf.Length == BUFFER_SIZE && |s| < BUFFER_SIZE
    && (forall i | 0 <= i < |s| :: buf[i] == s[i] != '\0')
    && (forall i | |s| <= i < BUFFER_SIZE :: buf[i] == '\0')
  }

  method Strlen(buf: array<char>, ghost s: string) returns (n: nat)
    requires Spelled(buf, s)
    ensures n == |s|
  {
    n := 0;
    while buf[n] != '\0'
      invariant n <= |s|
      decreases |s| - n
    {
      n := n + 1;
    }
  }

  /** A character behind the string, and a zero one further than it need be. */
  method PutChar(buf: array<char>, c: char, ghost s: string)
    requires Spelled(buf, s) && |s| + 2 < BUFFER_SIZE
    modifies buf
    ensures Spelled(buf, Put(s, c))
  {
    var n := Strlen(buf, s);
    buf[n] := c;
    n := Strlen(buf, Put(s, c));
    buf[n + 1] := '\0';
  }

  /** is_int */
  method CheckInt(s: string) returns (b: bool)
    ensures b == IsInt(s)
  {
    for i := 0 to |s|
      invariant IsInt(s[..i])
    {
      if !IsDigit(s[i]) { return false; }
    }
    assert s[..|s|] == s;
    b := true;
  }

  class Tokenizer {
    var mode: Mode
    var buf: array<char>
    var tokens: Token?
    ghost var text: string
    ghost var nodes: seq<Token>

    ghost predicate Valid()
      reads this, buf, nodes`next
    {
      && Chain(nodes) && tokens == TokenAt(nodes, 0)
      && (if mode == Start then text == "" else Spelled(buf, text))
    }

    /** What the tokenizer amounts to. */
    ghost function View(): Lex
      reads this
    {
      Lex(mode, text, TokensOf(nodes))
    }

    constructor ()
      ensures Valid() && View() == Lex(Start, "", []) && fresh(buf) && forall n | n in nodes :: fresh(n)
    {
      mode := Start;
      buf := new char[BUFFER_SIZE](_ => '\0');
      tokens, text, nodes := null, "", [];
    }

    /** A new buffer, all zero. */
    method Clear()
      modifies `buf, `text
      ensures Spelled(buf, text) && text == "" && fresh(buf)
    {
      buf := new char[BUFFER_SIZE](_ => '\0');
      text := "";
    }

    /** emit_token */
    method EmitToken(tok: Tok)
      requires Chain(nodes) && tokens == TokenAt(nodes, 0)
      modifies `tokens, `nodes, nodes`next
      ensures Chain(nodes) && tokens == TokenAt(nodes, 0)
      ensures TokensOf(nodes) == old(TokensOf(nodes)) + [match tok case TSym(s) => SymbolToken(s) case _ => tok]
      ensures |nodes| > 0 && nodes[..|nodes| - 1] == old(nodes) && fresh(nodes[|nodes| - 1])
    {
      hide Chain;
      var made := tok;
      if tok.TSym? {
        var digits := CheckInt(tok.s);
        if digits { made := TInt(Atoi(tok.s)); }
      }
      var node := new Token(made);
      tokens := Append(tokens, node, nodes);
      assert TokensOf(nodes + [node]) == TokensOf(nodes) + [made];
      nodes := nodes + [node];
    }

    method Collected() returns (s: string)
      requires Spelled(buf, text)
      ensures s == text
    {
      hide Chain;
      var n := Strlen(buf, text);
      s := buf[..n];
    }

    /** The switch of main, on one character: between two tokens, ... */
    method FeedStart(c: char)
      requires Valid() && mode == Start
      modifies this, buf, nodes`next
      ensures Valid() && View() == Step(old(View()), c)
      ensures buf == old(buf) || fresh(buf)
      ensures forall n | n in nodes :: n in old(nodes) || fresh(n)
    {
      hide Chain, Spelled, TokensOf, SymbolToken, Put;
      if c == '(' {
        EmitToken(LParen);
      } else if c == ')' {
        EmitToken(RParen);
      } else if c == ' ' || c == '\r' || c == '\n' {
      } else {
        Clear();
        if c == '"' {
          mode := InString;
        } else {
          mode := InSymbol;
          PutChar(buf, c, text);
          text := Put(text, c);
        }
      }
    }

    /** ... in a string, ... */
    method FeedString(c: char)
      requires Valid() && mode == InString && |text| + 2 < BUFFER_SIZE
      modifies this, buf, nodes`next
      ensures Valid() && View() == Step(old(View()), c)
      ensures buf == old(buf) || fresh(buf)
      ensures forall n | n in nodes :: n in old(nodes) || fresh(n)
    {
      hide Chain, Spelled, TokensOf, SymbolToken, Put;
      if c == '\\' {
        mode := InEscape;
      } else if c == '"' {
        var s := Collected();
        EmitToken(TStr(s));
        mode, text := Start, "";
      } else {
        PutChar(buf, c, text);
        text := Put(text, c);
      }
    }

    /** ... in a symbol, ... */
    method FeedSymbol(c: char)
      requires Valid() && mode == InSymbol && |text| + 2 < BUFFER_SIZE
      modifies this, buf, nodes`next
      ensures Valid() && View() == Step(old(View()), c)
      ensures buf == old(buf) || fresh(buf)
      ensures forall n | n in nodes :: n in old(nodes) || fresh(n)
    {
      hide Chain, Spelled, TokensOf, SymbolToken, Put;
      if c == ')' || c == ' ' {
        var s := Collected();
        EmitToken(TSym(s));
        if c == ')' { EmitToken(RParen); }
        mode, text := Start, "";
      } else {
        PutChar(buf, c, text);
        text := Put(text, c);
      }
    }

    /** ... and behind a backslash in a string. */
    method Feed(c: char)
      requires Valid() && (mode == Start || |text| + 2 < BUFFER_SIZE)
      modifies this, buf, nodes`next
      ensures Valid() && View() == Step(old(View()), c)
      ensures buf == old(buf) || fresh(buf)
      ensures forall n | n in nodes :: n in old(nodes) || fresh(n)
    {
      hide Chain, Spelled, TokensOf, SymbolToken, Put;
      match mode
      case Start => FeedStart(c);
      case InString => FeedString(c);
      case InSymbol => FeedSymbol(c);
      case InEscape =>
        PutChar(buf, c, text);
        text := Put(text, c);
        mode := InString;
    }
  }

  // ---- values ----

  datatype ValType = VAL_CONS | VAL_SYMBOL | VAL_STR | VAL_INT

  /** parsed_val_t: an atom, or a cell of a list. */
  class Val {
    var ty: ValType
    var iVal: int
    var sVal: string
    var car: Val?
    var cdr: Val?

    constructor (ty: ValType, iVal: int, sVal: string)
      ensures this.ty == ty && this.iVal == iVal && this.sVal == sVal && car == null && cdr == null
    {
      this.ty, this.iVal, this.sVal := ty, iVal, sVal;
      car, cdr := null, null;
    }
  }

  /** The cells a value is made of: one, or those of a list with the values in them. */
  datatype Tree = Leaf(v: Val) | Node(cells: seq<Val>, kids: seq<Tree>)

  function Root(t: Tree): Val? {
    match t
    case Leaf(v) => v
    case Node(cells, _) => if |cells| == 0 then null else cells[0]
  }

  ghost function Objs(t: Tree): set<Val>
  {
    match t
    case Leaf(v) => {v}
    case Node(cells, kids) => (set c | c in cells) + (set k, o | k in kids && o in Objs(k) :: o)
  }

  function CellAt(cells: seq<Val>, k: nat): Val? {
    if k < |cells| then cells[k] else null
  }

  /** The cells of a list: an empty list is one cell with nothing in it. */
  ghost predicate Cells(cells: seq<Val>, kids: seq<Tree>)
    reads cells
  {
    && |cells| == (if |kids| == 0 then 1 else |kids|)
    && (forall i | 0 <= i < |cells| :: cells[i].ty == VAL_CONS)
    && (forall i | 0 <= i < |cells| :: cells[i].cdr == CellAt(cells, i + 1))
    && (forall i | 0 <= i < |kids| :: cells[i].car == Root(kids[i]) != null)
    && (|kids| == 0 ==> cells[0].car == null)
    && (forall i, j | 0 <= i < j < |cells| :: cells[i] != cells[j])
  }

  /** The tree of cells stores the value. */
  ghost predicate Stores(t: Tree, x: Sexp)
    reads Objs(t)
    decreases t
  {
    match t
    case Leaf(v) =>
      (match x
       case Int(i) => v.ty == VAL_INT && v.iVal == i
       case Sym(name) => v.ty == VAL_SYMBOL && v.sVal == name
       case Str(text) => v.ty == VAL_STR && v.sVal == text
       case List(_) => false)
    case Node(cells, kids) =>
      x.List? && Cells(cells, kids) && |kids| == |x.items| &&
      forall i | 0 <= i < |kids| :: Stores(kids[i], x.items[i])
  }

  /** list_last */
  method ListLast(list: Val, ghost cells: seq<Val>, ghost kids: seq<Tree>) returns (c: Val)
    requires Cells(cells, kids) && list == cells[0]
    ensures c == cells[|cells| - 1]
  {
    c := list;
    ghost var k := 0;
    while c.cdr != null
      invariant k < |cells| && c == cells[k]
      decreases |cells| - k
    {
      c := c.cdr;
      k := k + 1;
    }
  }

  /** The last cell is made to lead to a new one. */
  method LinkCell(last: Val, cons: Val, ghost cells: seq<Val>, ghost kids: seq<Tree>, ghost kid: Tree)
    requires Cells(cells, kids) && |kids| > 0 && last == cells[|cells| - 1] && cons !in cells
    requires cons.ty == VAL_CONS && cons.cdr == null && cons.car == Root(kid) != null
    modifies last`cdr
    ensures Cells(cells + [cons], kids + [kid])
  {
    hide Root;
    assert forall i | 0 <= i < |cells| - 1 :: cells[i] != last;
    last.cdr := cons;
  }

  /** list_append */
  method ListAppend(list: Val, v: Val, ghost cells: seq<Val>, ghost kids: seq<Tree>, ghost kid: Tree)
    returns (ghost cells': seq<Val>)
    requires Cells(cells, kids) && list == cells[0] && Root(kid) == v
    modifies cells
    ensures |cells'| > 0 && Cells(cells', kids + [kid]) && cells'[0] == list
    ensures cells' == cells || (|cells'| > 0 && cells'[..|cells'| - 1] == cells && fresh(cells'[|cells'| - 1]))
  {
    hide Root;
    if list.car == null {
      list.car := v;
      return cells;
    }
    var cons := new Val(VAL_CONS, 0, "");
    cons.car := v;
    var last := ListLast(list, cells, kids);
    LinkCell(last, cons, cells, kids, kid);
    cells' := cells + [cons];
  }

  /** A list under construction, within a set of cells: its own are not among those of the values in it. */
  ghost predicate Built(cells: seq<Val>, kids: seq<Tree>, items: seq<Sexp>, foot: set<Val>)
    reads foot
  {
    && |kids| == |items|
    && (forall j | 0 <= j < |cells| :: cells[j] in foot)
    && (forall i | 0 <= i < |kids| :: Objs(kids[i]) <= foot)
    && Cells(cells, kids)
    && (forall i | 0 <= i < |kids| :: Stores(kids[i], items[i]))
    && (forall i, j | 0 <= i < |kids| && 0 <= j < |cells| :: cells[j] !in Objs(kids[i]))
  }

  /** A value joins a list that it shares no cell with. */
  method Join(list: Val, v: Val, ghost cells: seq<Val>, ghost kids: seq<Tree>, ghost items: seq<Sexp>,
              ghost foot: set<Val>, ghost kid: Tree, ghost x: Sexp, ghost more: set<Val>)
    returns (ghost cells': seq<Val>, ghost foot': set<Val>)
    requires Built(cells, kids, items, foot) && list == cells[0]
    requires Root(kid) == v && Objs(kid) <= more && Stores(kid, x) && foot !! more
    modifies cells
    ensures Built(cells', kids + [kid], items + [x], foot') && |cells'| > 0 && cells'[0] == list
    ensures forall c | c in foot' :: c in foot || c in more || fresh(c)
  {
    hide Cells, Stores;
    cells' := ListAppend(list, v, cells, kids, kid);
    foot' := foot + more + (set c | c in cells');
    ghost var kids', items' := kids + [kid], items + [x];
    assert old(Stores(kid, x));
    forall i | 0 <= i < |kids'| ensures Stores(kids'[i], items'[i]) {
      if i < |kids| { assert old(Stores(kids[i], items[i])); }
    }
  }

  /** read_form; the cursor is left on the last token taken, or behind them all. */
  method ReadForm(t: Token?, ghost nodes: seq<Token>, ghost k: nat)
    returns (v: Val, t': Token?, ghost kid: Tree, ghost foot: set<Val>)
    requires Chain(nodes) && k <= |nodes| && t == TokenAt(nodes, k) && Form(TokensOf(nodes), k).Value?
    ensures var r := Form(TokensOf(nodes), k);
            t' == TokenAt(nodes, r.at) && Root(kid) == v && Objs(kid) <= foot && Stores(kid, r.x)
    ensures fresh(foot)
    decreases |nodes| - k, 0
  {
    hide Stores, Objs, Items, Chain;
    t' := t;
    match t.tok
    case LParen =>
      NextToken(nodes, k);
      v, t', kid, foot := ReadList(t.next, nodes, k + 1);
    case TInt(i) =>
      v, kid, foot := NewAtom(VAL_INT, i, "", Int(i));
    case TStr(s) =>
      v, kid, foot := NewAtom(VAL_STR, 0, s, Str(s));
    case TSym(s) =>
      v, kid, foot := NewAtom(VAL_SYMBOL, 0, s, Sym(s));
  }

  method NewAtom(ty: ValType, i: int, s: string, ghost x: Sexp) returns (v: Val, ghost kid: Tree, ghost foot: set<Val>)
    requires (ty == VAL_INT && x == Int(i)) || (ty == VAL_STR && x == Str(s)) || (ty == VAL_SYMBOL && x == Sym(s))
    ensures Root(kid) == v && Objs(kid) <= foot && Stores(kid, x) && fresh(foot)
  {
    v := new Val(ty, i, s);
    kid, foot := Leaf(v), {v};
  }

  /** read_list: stops at the closing parenthesis, which its caller passes over, or behind the last token. */
  method ReadList(t: Token?, ghost nodes: seq<Token>, ghost k: nat)
    returns (v: Val, t': Token?, ghost kid: Tree, ghost foot: set<Val>)
    requires Chain(nodes) && k <= |nodes| && t == TokenAt(nodes, k) && Items(TokensOf(nodes), k, []).Value?
    ensures var r := Items(TokensOf(nodes), k, []);
            t' == TokenAt(nodes, r.at) && Root(kid) == v && Objs(kid) <= foot && Stores(kid, r.x)
    ensures fresh(foot)
    decreases |nodes| - k, 1
  {
    hide Cells, Chain, Built, Stores, Objs;
    ghost var toks := TokensOf(nodes);
    v := new Val(VAL_CONS, 0, "");
    ghost var cells, kids: seq<Tree>, items: seq<Sexp>, at := [v], [], [], k;
    foot := {v};
    EmptyList(v);
    t' := t;
    while t' != null && t'.tok != RParen
      invariant k <= at <= |nodes| && t' == TokenAt(nodes, at)
      invariant Items(toks, at, items) == Items(toks, k, [])
      invariant Built(cells, kids, items, foot) && |cells| > 0 && cells[0] == v && fresh(foot)
      decreases |nodes| - at
    {
      ghost var x := Form(toks, at);
      ghost var kid1: Tree, more: set<Val>;
      var elem;
      elem, t', kid1, more := ReadForm(t', nodes, at);
      CellsWithin(cells, kids, items, foot);
      cells, foot := Join(v, elem, cells, kids, items, foot, kid1, x.x, more);
      kids, items := kids + [kid1], items + [x.x];
      NextToken(nodes, x.at);
      t' := t'.next;
      at := x.at + 1;
    }
    kid := Node(cells, kids);
    Finished(cells, kids, items, foot);
  }

  lemma CellsWithin(cells: seq<Val>, kids: seq<Tree>, items: seq<Sexp>, foot: set<Val>)
    requires Built(cells, kids, items, foot)
    ensures forall j | 0 <= j < |cells| :: cells[j] in foot
  {
  }

  lemma Finished(cells: seq<Val>, kids: seq<Tree>, items: seq<Sexp>, foot: set<Val>)
    requires Built(cells, kids, items, foot)
    ensures Objs(Node(cells, kids)) <= foot && Stores(Node(cells, kids), List(items))
  {
  }

  lemma NextToken(nodes: seq<Token>, k: nat)
    requires Chain(nodes) && k < |nodes|
    ensures nodes[k].next == TokenAt(nodes, k + 1)
  {
  }

  lemma EmptyList(v: Val)
    requires v.ty == VAL_CONS && v.car == null && v.cdr == null
    ensures Built([v], [], [], {v})
  {
  }

  /** What is printed of a list from item k on. */
  lemma DumpFrom(items: seq<Sexp>, k: nat)
    requires k < |items|
    ensures DumpAll(items[k..]) ==
            Dump(items[k]) + if k + 1 < |items| then " " + DumpAll(items[k + 1..]) else ""
  {
    assert items[k..][1..] == items[k + 1..];
  }

  lemma NodeParts(t: Tree, x: Sexp, k: nat)
    requires Stores(t, x) && t.Node?
    ensures x.List? && Cells(t.cells, t.kids) && |t.kids| == |x.items|
    ensures k < |t.kids| ==> Stores(t.kids[k], x.items[k])
  {
  }

  /** dump_val, with what it prints for its result */
  method DumpVal(v: Val, ghost t: Tree, ghost x: Sexp, ghost foot: set<Val>) returns (s: string)
    requires Root(t) == v && Objs(t) <= foot && Stores(t, x)
    ensures s == Dump(x)
    decreases t, 1
  {
    hide Objs;
    if t.Node? { NodeParts(t, x, 0); }
    match v.ty
    case VAL_STR => s := "\"" + v.sVal + "\"";
    case VAL_INT => s := Decimal(v.iVal);
    case VAL_SYMBOL => s := v.sVal;
    case VAL_CONS => s := DumpList(v, t, x, foot);
  }

  /** The loop of dump_val over the cells of a list. */
  method DumpList(v: Val, ghost t: Tree, ghost x: Sexp, ghost foot: set<Val>) returns (s: string)
    requires Root(t) == v && t.Node? && Objs(t) <= foot && Stores(t, x) && x.List?
    ensures s == Dump(x)
    decreases t, 0
  {
    hide Stores, DumpAll, Objs;
    s := "(";
    var c: Val? := v;
    ghost var k, items := 0, x.items;
    NodeParts(t, x, 0);
    DumpStart(items);
    while c != null
      invariant k <= |t.cells| && c == CellAt(t.cells, k)
      invariant s + DumpRest(items, k) == "(" + DumpAll(items) && Stores(t, x)
      decreases |t.cells| - k
    {
      NodeParts(t, x, k);
      var e := "";
      if c.car != null {
        KidWithin(t, k, foot);
        e := DumpVal(c.car, t.kids[k], items[k], foot);
      }
      if c.cdr != null { e := e + " "; }
      DumpMore(items, k, e);
      Associates(s, e, DumpRest(items, k + 1));
      s := s + e;
      c := c.cdr;
      k := k + 1;
    }
    assert s + "" == s;
    s := s + ")";
  }

  function DumpRest(items: seq<Sexp>, k: nat): string {
    if k < |items| then DumpAll(items[k..]) else ""
  }

  lemma DumpStart(items: seq<Sexp>)
    ensures "(" + DumpRest(items, 0) == "(" + DumpAll(items)
  {
    assert items[0..] == items;
  }

  lemma DumpMore(items: seq<Sexp>, k: nat, e: string)
    requires k < |items| ==> e == Dump(items[k]) + if k + 1 < |items| then " " else ""
    requires k >= |items| ==> e == ""
    ensures DumpRest(items, k) == e + DumpRest(items, k + 1)
  {
    hide Dump, DumpAll;
    if k < |items| { DumpFrom(items, k); }
  }

  lemma KidWithin(t: Tree, k: nat, foot: set<Val>)
    requires t.Node? && k < |t.kids| && Objs(t) <= foot
    ensures Objs(t.kids[k]) <= foot
  {
    assert t.kids[k] in t.kids;
  }

  // ---- the program ----

  /** The tokens from the cursor on. */
  lemma ChainFrom(nodes: seq<Token>, k: nat)
    requires Chain(nodes) && k <= |nodes|
    ensures Chain(nodes[k..]) && TokenAt(nodes[k..], 0) == TokenAt(nodes, k)
    ensures TokensOf(nodes[k..]) == TokensOf(nodes)[k..]
  {
    forall i | 0 <= i < |nodes[k..]| ensures nodes[k..][i].next == TokenAt(nodes[k..], i + 1) {
      assert nodes[k + i].next == TokenAt(nodes, k + i + 1);
    }
  }

  /** dump_state: the reader takes a form off the tokens, and they go on from its cursor. */
  method DumpState(t: Tokenizer) returns (v: Val, ghost kid: Tree, ghost foot: set<Val>)
    requires t.Valid() && Form(t.View().toks, 0).Value?
    modifies t`tokens, t`nodes
    ensures var r := Form(old(t.View().toks), 0);
            && t.Valid() && t.View() == old(t.View()).(toks := old(t.View().toks)[r.at..])
            && Root(kid) == v && Objs(kid) <= foot && Stores(kid, r.x)
    ensures fresh(foot) && t.nodes <= old(t.nodes)[|old(t.nodes)| - |t.nodes|..] && |t.nodes| <= |old(t.nodes)|
  {
    hide Stores, Objs, Chain, Form, Spelled;
    ghost var r := Form(TokensOf(t.nodes), 0);
    var cursor;
    v, cursor, kid, foot := ReadForm(t.tokens, t.nodes, 0);
    ChainFrom(t.nodes, r.at);
    t.tokens := cursor;
    t.nodes := t.nodes[r.at..];
  }

  /** One turn of main's loop; `v` is the value shown, if a newline makes the program show one. */
  method TypeChar(t: Tokenizer, c: char) returns (v: Val?, ghost kid: Tree, ghost foot: set<Val>)
    requires t.Valid() && Type(Going(t.View(), []), c).Going? && (t.mode == Start || |t.text| + 2 < BUFFER_SIZE)
    modifies t, t.buf, t.nodes`next
    ensures t.Valid() && t.View() == Type(Going(old(t.View()), []), c).lex
    ensures t.buf == old(t.buf) || fresh(t.buf)
    ensures forall n | n in t.nodes :: n in old(t.nodes) || fresh(n)
    ensures if IsNewline(c)
            then v != null && Root(kid) == v && Objs(kid) <= foot && Stores(kid, Form(old(t.View().toks), 0).x)
            else v == null
    ensures fresh(foot)
  {
    hide Step, Stores, Objs, Form, Chain, Spelled;
    v, kid, foot := null, Node([], []), {};
    if IsNewline(c) {
      v, kid, foot := DumpState(t);
    }
    assert forall k | 0 <= k < |t.nodes| :: t.nodes[k] in t.nodes;
    t.Feed(c);
  }

  /** Room for each token in the buffer, all along the text. */
  predicate Roomy(s: Session, text: string)
    decreases |text|
  {
    |text| > 0 ==>
      && (s.Going? ==> s.lex.mode == Start || |s.lex.buf| + 2 < BUFFER_SIZE)
      && Roomy(Type(s, text[0]), text[1..])
  }

  /** What one turn does not depend on the values shown before. */
  lemma TypeShown(lex: Lex, shown: seq<Sexp>, c: char)
    ensures var s := Type(Going(lex, []), c);
            Type(Going(lex, shown), c) == match s case Crashed => Crashed case Going(l, more) => Going(l, shown + more)
  {
    hide Step, Form;
    assert shown + [] == shown;
  }

  lemma {:induction false} StaysCrashed(text: string)
    ensures TypeAll(Crashed, text) == Crashed
  {
    if |text| > 0 { StaysCrashed(text[1..]); }
  }

  /** The last value shown, if any, is the one stored in these cells. */
  ghost predicate Shows(s: Session, v: Val?, kid: Tree, foot: set<Val>)
    reads Objs(kid)
  {
    && Objs(kid) <= foot
    && if LastShown(s).Some? then v != null && Root(kid) == v && Stores(kid, LastShown(s).value) else v == null
  }

  lemma ShowsLast(lex: Lex, shown: seq<Sexp>, v: Val, kid: Tree, foot: set<Val>, x: Sexp)
    requires Root(kid) == v && Objs(kid) <= foot && Stores(kid, x)
    ensures Shows(Going(lex, shown + [x]), v, kid, foot)
  {
    hide Stores, Objs;
  }

  lemma ShowsWithin(s: Session, v: Val?, kid: Tree, foot: set<Val>)
    requires Shows(s, v, kid, foot)
    ensures Objs(kid) <= foot
  {
  }

  lemma ShowsStill(s: Session, lex: Lex, v: Val?, kid: Tree, foot: set<Val>)
    requires s.Going? && Shows(s, v, kid, foot)
    ensures Shows(s.(lex := lex), v, kid, foot)
  {
    hide Stores, Objs;
  }

  /** One turn in the middle of a text. */
  method NextChar(t: Tokenizer, c: char, was: Val?, ghost kid0: Tree, ghost foot0: set<Val>, ghost s: Session)
    returns (v: Val?, ghost kid: Tree, ghost foot: set<Val>)
    requires t.Valid() && s.Going? && s.lex == t.View() && Type(s, c).Going?
    requires (t.mode == Start || |t.text| + 2 < BUFFER_SIZE) && Shows(s, was, kid0, foot0)
    modifies t, t.buf, t.nodes`next
    ensures t.Valid() && t.View() == Type(s, c).lex && Shows(Type(s, c), v, kid, foot)
    ensures t.buf == old(t.buf) || fresh(t.buf)
    ensures forall n | n in t.nodes :: n in old(t.nodes) || fresh(n)
    ensures forall o | o in foot :: o in foot0 || fresh(o)
  {
    hide Step, Stores, Objs, Form, Shows;
    ShowsWithin(s, was, kid0, foot0);
    TypeShown(s.lex, s.shown, c);
    v, kid, foot := TypeChar(t, c);
    if v == null {
      v, kid, foot := was, kid0, foot0;
      assert old(Shows(s, was, kid0, foot0));
      ShowsStill(s, Type(s, c).lex, v, kid, foot);
      assert s.shown + [] == s.shown;
    } else {
      ShowsLast(Type(s, c).lex, s.shown, v, kid, foot, Form(s.lex.toks, 0).x);
    }
  }

  /** The program, on a text that does not crash it: the last value shown is stored in the last cells made. */
  method Converse(text: string) returns (v: Val?, ghost kid: Tree, ghost foot: set<Val>)
    requires TypeAll(START, text).Going? && Roomy(START, text)
    ensures Shows(TypeAll(START, text), v, kid, foot) && fresh(foot)
  {
    hide Step, Type, Stores, Objs, Form, Shows;
    var t := new Tokenizer();
    v, kid, foot := null, Node([], []), {};
    ghost var s := START;
    NothingShown();
    var i := 0;
    assert text[0..] == text;
    while i < |text|
      invariant 0 <= i <= |text| && fresh(t) && fresh(t.buf) && (forall n | n in t.nodes :: fresh(n)) && t.Valid()
      invariant s.Going? && s.lex == t.View() && TypeAll(s, text[i..]) == TypeAll(START, text)
      invariant Roomy(s, text[i..]) && Shows(s, v, kid, foot) && fresh(foot)
    {
      assert text[i..][1..] == text[i + 1..];
      if Type(s, text[i]).Crashed? { StaysCrashed(text[i + 1..]); }
      assert forall k | 0 <= k < |t.nodes| :: t.nodes[k] in t.nodes;
      v, kid, foot := NextChar(t, text[i], v, kid, foot, s);
      s := Type(s, text[i]);
      i := i + 1;
    }
  }

  lemma NothingShown()
    ensures Shows(START, null, Node([], []), {})
  {
    assert Objs(Node([], [])) == {};
  }

  /** The whole way round: a list is printed, and the text is typed into the program with a newline behind it.
      The last value shown is the list again if and only if the list is plain, literal and on one line. */
  method PrintAndRead(v: Val, e: char, ghost t: Tree, ghost items: seq<Sexp>, ghost foot: set<Val>)
    returns (back: Val?, ghost kid: Tree, ghost foot': set<Val>)
    requires Root(t) == v && Objs(t) <= foot && Stores(t, List(items))
    requires IsNewline(e)
    requires var text := Dump(List(items)) + [e]; TypeAll(START, text).Going? && Roomy(START, text)
    ensures back != null && Root(kid) == back && Objs(kid) <= foot' && fresh(foot')
    ensures var last := LastShown(TypeAll(START, Dump(List(items)) + [e]));
            && last.Some? && Stores(kid, last.value)
            && (last.value == List(items) <==> Plain(List(items)) && Literal(List(items)) && OneLine(List(items)))
  {
    hide Stores, Objs, TypeAll, Literal, Plain, Dump, Roomy, OneLine;
    RoundTripExact(items, e);
    SomethingShown(Dump(List(items)), e);
    var text := DumpVal(v, t, List(items), foot);
    back, kid, foot' := Converse(text + [e]);
  }

  lemma SomethingShown(text: string, e: char)
    requires IsNewline(e) && TypeAll(START, text + [e]).Going?
    ensures LastShown(TypeAll(START, text + [e])).Some?
  {
    hide Step;
    TypeAppend(START, text, [e]);
    TypeOne(TypeAll(START, text), e);
  }
}
