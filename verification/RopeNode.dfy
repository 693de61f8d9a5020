/** The nodes of a rope, and what it means for a row of nodes to be linked up. */
module RopeNode {
  import opened Basics
  import opened RopeText
  import opened SkipLevels

  const NODE_STR_SIZE: nat := 136
  const MAX_HEIGHT: nat := 60

  /** rope_skip_node: a link, with the number of characters from this node's start to the next's. */
  datatype Skip = Skip(node: Node?, skipSize: nat)

  class Node {
    const str: array<byte>
    var numBytes: nat
    var height: nat
    var nexts: seq<Skip>

    /** alloc_node: everything but the height is junk. */
    constructor (height: nat)
      ensures this.height == |nexts| == height && numBytes == 0
      ensures fresh(str) && str.Length == NODE_STR_SIZE
    {
      str := new byte[NODE_STR_SIZE];
      numBytes := 0;
      this.height := height;
      nexts := seq(height, _ => Skip(null, 0));
    }

    /** The node's bytes in use are exactly the text t. */
    ghost predicate Holds(t: seq<Codepoint>)
      reads this, str
    {
      && str.Length == NODE_STR_SIZE
      && numBytes == |Bytes(t)| <= NODE_STR_SIZE
      && str[..numBytes] == Bytes(t)
    }

    /** Room is made at offset by moving the bytes behind it, and the new bytes are copied in. */
    method InsertBytes(offset: nat, bytes: seq<byte>)
      requires offset <= numBytes && numBytes + |bytes| <= str.Length
      modifies `numBytes, str
      ensures numBytes == old(numBytes) + |bytes|
      ensures str[..numBytes] == old(str[..offset]) + bytes + old(str[offset..numBytes])
    {
      ghost var was, n := str[..], numBytes;
      OpenGap(str, offset, numBytes, |bytes|);
      ghost var moved := str[..];
      CopyIn(str, offset, bytes);
      numBytes := numBytes + |bytes|;
      Inserted(was, moved, str[..], offset, n, bytes);
      assert str[..numBytes] == str[..][..numBytes];
    }

    /** n bytes go at offset, and the bytes behind them move up. */
    method RemoveBytes(offset: nat, n: nat)
      requires offset + n <= numBytes <= str.Length
      modifies `numBytes, str
      ensures numBytes == old(numBytes) - n
      ensures str[..numBytes] == old(str[..offset]) + old(str[offset + n..numBytes])
    {
      var trailing := numBytes - offset - n;
      if trailing > 0 {
        MoveWithin(str, offset, offset + n, trailing);
      }
      numBytes := numBytes - n;
    }
  }

  /** The bytes from `offset` to `end` move up by n, if there are any. */
  method OpenGap(str: array<byte>, offset: nat, end: nat, n: nat)
    requires offset <= end && end + n <= str.Length
    modifies str
    ensures str[..][..offset] == old(str[..])[..offset]
    ensures str[..][offset + n..end + n] == old(str[..])[offset..end]
  {
    ghost var was := str[..];
    if offset < end {
      MoveWithin(str, offset + n, offset, end - offset);
      Moved(was, str[..], offset, end, n);
    }
  }

  lemma Moved(was: seq<byte>, now: seq<byte>, o: nat, end: nat, n: nat)
    requires o <= end && end + n <= |was|
    requires now == was[..o + n] + was[o..end] + was[end + n..]
    ensures now[..o] == was[..o] && now[o + n..end + n] == was[o..end]
  {
  }

  /** What the moved bytes and those copied into the gap come to. */
  lemma Inserted(was: seq<byte>, moved: seq<byte>, now: seq<byte>, o: nat, n: nat, bytes: seq<byte>)
    requires o <= n && n + |bytes| <= |was| == |moved| == |now|
    requires moved[..o] == was[..o] && moved[o + |bytes|..n + |bytes|] == was[o..n]
    requires now == moved[..o] + bytes + moved[o + |bytes|..]
    ensures now[..n + |bytes|] == was[..o] + bytes + was[o..n]
  {
    assert moved[o + |bytes|..][..n - o] == moved[o + |bytes|..n + |bytes|];
  }

  /** memcpy into a buffer. */
  method CopyIn(dst: array<byte>, at: nat, src: seq<byte>)
    requires at + |src| <= dst.Length
    modifies dst
    ensures dst[..] == old(dst[..])[..at] + src + old(dst[..])[at + |src|..]
  {
    forall i | 0 <= i < |src| { dst[at + i] := src[i]; }
  }

  /** memmove within a buffer. */
  method MoveWithin(buf: array<byte>, to: nat, from: nat, n: nat)
    requires to + n <= buf.Length && from + n <= buf.Length
    modifies buf
    ensures var was := old(buf[..]); buf[..] == was[..to] + was[from..from + n] + was[to + n..]
  {
    forall i | 0 <= i < n { buf[to + i] := buf[from + i]; }
  }

  /** A new node of the given height, filled with the bytes of a text. */
  method NewNode(height: nat, str: seq<byte>, ghost t: seq<Codepoint>) returns (node: Node)
    requires str == Bytes(t) && |str| <= NODE_STR_SIZE
    ensures fresh(node) && fresh(node.str) && node.Holds(t)
    ensures node.height == |node.nexts| == height
  {
    node := new Node(height);
    node.numBytes := |str|;
    CopyIn(node.str, 0, str);
  }

  // ---- rows of linked nodes ----

  function NodeAt(nodes: seq<Node>, j: nat): Node? {
    if j < |nodes| then nodes[j] else null
  }

  ghost predicate LinkOk(nodes: seq<Node>, hs: seq<nat>, ts: seq<seq<Codepoint>>, k: nat, i: nat, sk: Skip)
    requires k < |nodes| == |hs| == |ts|
  {
    && sk.node == NodeAt(nodes, Target(hs, k, i))
    && sk.skipSize == Width(hs, ts, k, i)
  }

  /** All the links of a row of nodes, as one value. */
  ghost function Links(nodes: seq<Node>): (links: seq<seq<Skip>>)
    reads nodes
    ensures |links| == |nodes|
    ensures forall k | 0 <= k < |nodes| :: links[k] == nodes[k].nexts
  {
    seq(|nodes|, k requires 0 <= k < |nodes| reads nodes => nodes[k].nexts)
  }

  lemma LinksInsert(nodes: seq<Node>, m: nat, node: Node)
    requires m <= |nodes|
    ensures Links(Insert(nodes, m, node)) == Insert(Links(nodes), m, node.nexts)
  {
  }

  ghost predicate Fits(hs: seq<nat>, links: seq<seq<Skip>>) {
    && |hs| == |links|
    && forall k | 0 <= k < |hs| :: |links[k]| == hs[k]
  }

  ghost predicate LinksOk(nodes: seq<Node>, hs: seq<nat>, ts: seq<seq<Codepoint>>, links: seq<seq<Skip>>) {
    && |nodes| == |hs| == |ts|
    && Fits(hs, links)
    && forall k, i | 0 <= k < |hs| && 0 <= i < hs[k] :: LinkOk(nodes, hs, ts, k, i, links[k][i])
  }

  /** The head is taller than every other node, and no node is without a level. */
  ghost predicate Heights(hs: seq<nat>) {
    && |hs| > 0
    && 1 <= hs[0] <= MAX_HEIGHT
    && forall k | 0 < k < |hs| :: 1 <= hs[k] < hs[0]
  }

  ghost predicate Apart(nodes: seq<Node>, j: nat, k: nat)
    requires j < |nodes| && k < |nodes|
  {
    nodes[j] != nodes[k] && nodes[j].str != nodes[k].str
  }

  /** No node, and no buffer, occurs twice. */
  ghost predicate Distinct(nodes: seq<Node>) {
    forall j, k | 0 <= j < k < |nodes| :: Apart(nodes, j, k)
  }

  lemma OthersApart(nodes: seq<Node>, c: nat)
    requires Distinct(nodes) && c < |nodes|
    ensures forall k | 0 <= k < |nodes| && k != c :: nodes[k] != nodes[c] && nodes[k].str != nodes[c].str
  {
    forall k | 0 <= k < |nodes| && k != c
      ensures nodes[k] != nodes[c] && nodes[k].str != nodes[c].str
    {
      assert if k < c then Apart(nodes, k, c) else Apart(nodes, c, k);
    }
  }

  lemma LinksOf(nodes: seq<Node>, c: nat)
    requires c < |nodes|
    ensures |Links(nodes)| == |nodes| && Links(nodes)[c] == nodes[c].nexts
  {
  }

  /** Rewriting one link of one node of a row. */
  method SetLink(node: Node, i: nat, sk: Skip, ghost nodes: seq<Node>, ghost c: nat)
    requires Distinct(nodes) && c < |nodes| && node == nodes[c] && i < |node.nexts|
    modifies node`nexts
    ensures node.nexts == old(node.nexts)[i := sk]
    ensures Links(nodes) == old(Links(nodes))[c := old(Links(nodes))[c][i := sk]]
  {
    OthersApart(nodes, c);
    node.nexts := node.nexts[i := sk];
  }

  /** The head's height and its topmost link, once more on a new level. */
  method GrowHead(head: Node, ghost nodes: seq<Node>)
    requires |nodes| > 0 && head == nodes[0] && forall k | 0 < k < |nodes| :: nodes[k] != head
    requires |head.nexts| == head.height > 0
    modifies head`nexts, head`height
    ensures head.height == old(head.height) + 1
    ensures var top := old(Links(nodes))[0];
            Links(nodes) == old(Links(nodes))[0 := top + [top[old(head.height) - 1]]]
  {
    head.nexts := head.nexts + [head.nexts[head.height - 1]];
    head.height := head.height + 1;
  }

  /** The head, being the tallest, occurs once. */
  lemma HeadOnce(nodes: seq<Node>, hs: seq<nat>, ts: seq<seq<Codepoint>>)
    requires Heights(hs) && LinksOk(nodes, hs, ts, Links(nodes))
    ensures |nodes[0].nexts| == hs[0] && forall k | 0 < k < |nodes| :: nodes[k] != nodes[0]
  {
    assert forall k | 0 <= k < |nodes| :: Links(nodes)[k] == nodes[k].nexts;
  }

  /** What _rope_check asks of the nodes, links aside: every node but the head holds some text. */
  ghost predicate Row(nodes: seq<Node>, hs: seq<nat>, ts: seq<seq<Codepoint>>) {
    && |nodes| == |hs| == |ts|
    && Heights(hs)
    && (forall k | 0 < k < |ts| :: |ts[k]| > 0)
    && Distinct(nodes)
  }

  /** Every node holds its text, and is as tall as the row says. */
  ghost predicate Filled(nodes: seq<Node>, hs: seq<nat>, ts: seq<seq<Codepoint>>)
    requires |nodes| == |hs| == |ts|
    reads nodes, set n | n in nodes :: n.str
  {
    forall k | 0 <= k < |nodes| :: nodes[k].height == hs[k] && nodes[k].Holds(ts[k])
  }

  lemma FilledAt(nodes: seq<Node>, hs: seq<nat>, ts: seq<seq<Codepoint>>, k: nat)
    requires |nodes| == |hs| == |ts| && k < |nodes| && Filled(nodes, hs, ts)
    ensures nodes[k].height == hs[k] && nodes[k].numBytes == |Bytes(ts[k])| <= NODE_STR_SIZE
    ensures nodes[k].Holds(ts[k])
  {
  }

  lemma FilledInsert(nodes: seq<Node>, hs: seq<nat>, ts: seq<seq<Codepoint>>,
                     m: nat, node: Node, t: seq<Codepoint>)
    requires |nodes| == |hs| == |ts| && m <= |nodes|
    requires Filled(nodes, hs, ts) && node.Holds(t)
    ensures Filled(Insert(nodes, m, node), Insert(hs, m, node.height), Insert(ts, m, t))
  {
  }

  /** The row's text up to node y, followed by what is left of a string, is the goal. */
  ghost predicate Spells(ts: seq<seq<Codepoint>>, y: nat, rest: seq<Codepoint>, goal: seq<Codepoint>)
    requires y < |ts|
  {
    Flat(ts[..y + 1]) + rest == goal
  }

  /** Moving some of the string into a node after y. */
  lemma SpellsOneMore(ts: seq<seq<Codepoint>>, y: nat, t: seq<Codepoint>, rest: seq<Codepoint>, goal: seq<Codepoint>)
    requires y < |ts| && t <= rest && Spells(ts, y, rest, goal)
    ensures Spells(Insert(ts, y + 1, t), y + 1, rest[|t|..], goal)
    ensures Insert(ts, y + 1, t)[y + 2..] == ts[y + 1..]
  {
    var ts' := Insert(ts, y + 1, t);
    assert ts'[..y + 2] == ts[..y + 1] + [t];
    FlatAppend(ts[..y + 1], [t]);
    assert rest == t + rest[|t|..];
    assert Flat(ts[..y + 1]) + t + rest[|t|..] == Flat(ts[..y + 1]) + (t + rest[|t|..]);
  }

  /** At a cut in node x: what comes before it, and what has to come after it. */
  lemma CutText(ts: seq<seq<Codepoint>>, x: nat, o: nat)
    requires x < |ts| && o <= |ts[x]|
    ensures var p := Pos(ts, x) + o;
            && p <= |Flat(ts)|
            && Flat(ts)[..p] == Flat(ts[..x]) + ts[x][..o]
            && Flat(ts)[p..] == ts[x][o..] + Flat(ts[x + 1..])
  {
    var h, a, b, r := Flat(ts[..x]), ts[x][..o], ts[x][o..], Flat(ts[x + 1..]);
    FlatAt(ts, x);
    PosIsLength(ts, x);
    assert ts[x] == a + b;
    assert Flat(ts) == (h + a) + (b + r);
  }

  lemma SpellsAtCut(ts: seq<seq<Codepoint>>, x: nat, o: nat, text: seq<Codepoint>, pre: seq<Codepoint>)
    requires x < |ts| && o <= |ts[x]|
    requires pre == Flat(ts[..x]) + ts[x][..o]
    ensures Spells(ts[x := ts[x][..o]], x, text, pre + text)
  {
    var a := ts[x][..o];
    assert ts[x := a][..x + 1] == ts[..x] + [a];
    FlatAppend(ts[..x], [a]);
    FlatOne(a);
  }

  lemma FlatSplice(ts: seq<seq<Codepoint>>, x: nat, o: nat, text: seq<Codepoint>)
    requires x < |ts| && o <= |ts[x]|
    ensures var p := Pos(ts, x) + o;
            && p <= |Flat(ts)|
            && Flat(ts[x := ts[x][..o] + text + ts[x][o..]]) == Flat(ts)[..p] + text + Flat(ts)[p..]
  {
    hide Flat, Pos;
    assert ts[x] == ts[x][..o] + [] + ts[x][o..];
    FlatChange(ts, x, ts[x][..o], [], ts[x][o..], text);
  }

  lemma Regroup(a: seq<Codepoint>, b: seq<Codepoint>, c: seq<Codepoint>, d: seq<Codepoint>, e: seq<Codepoint>)
    ensures a + b + c + d + e == (a + b) + c + (d + e)
  {
  }

  /** The row's text up to node y is the goal. */
  ghost predicate Spelled(ts: seq<seq<Codepoint>>, y: nat, goal: seq<Codepoint>)
    requires y < |ts|
  {
    Flat(ts[..y + 1]) == goal
  }

  lemma SpelledWhenDone(ts: seq<seq<Codepoint>>, y: nat, rest: seq<Codepoint>, goal: seq<Codepoint>)
    requires y < |ts| && Spells(ts, y, rest, goal) && |rest| == 0
    ensures Spelled(ts, y, goal)
  {
  }

  lemma SpelledOneMore(ts: seq<seq<Codepoint>>, y: nat, t: seq<Codepoint>, goal: seq<Codepoint>)
    requires y < |ts| && Spelled(ts, y, goal)
    ensures Spelled(Insert(ts, y + 1, t), y + 1, goal + t)
    ensures Insert(ts, y + 1, t)[y + 2..] == ts[y + 1..]
  {
    assert Insert(ts, y + 1, t)[..y + 2] == ts[..y + 1] + [t];
    FlatAppend(ts[..y + 1], [t]);
  }

  lemma SpelledAll(ts: seq<seq<Codepoint>>, y: nat, goal: seq<Codepoint>)
    requires y < |ts| && Spelled(ts, y, goal)
    ensures Flat(ts) == goal + Flat(ts[y + 1..])
  {
    FlatAppend(ts[..y + 1], ts[y + 1..]);
    assert ts == ts[..y + 1] + ts[y + 1..];
  }

  /** No text of a row is longer than the whole. */
  lemma SizesAt(ts: seq<seq<Codepoint>>, x: nat)
    requires x < |ts|
    ensures |ts[x]| <= Pos(ts, |ts|) && |Bytes(ts[x])| <= |Bytes(Flat(ts))|
    ensures Pos(ts, |ts|) == |Flat(ts)|
  {
    PosMonotone(ts, x + 1, |ts|);
    FlatAt(ts, x);
    BytesInsert(Flat(ts[..x]), ts[x], Flat(ts[x + 1..]));
    PosIsLength(ts, |ts|);
    assert ts[..|ts|] == ts;
  }

  /** A text with another spliced in: its sizes. */
  lemma SpliceSizes(a: seq<Codepoint>, b: seq<Codepoint>, text: seq<Codepoint>, ts: seq<seq<Codepoint>>)
    requires Flat(ts) == a + text + b
    ensures Pos(ts, |ts|) == |a + b| + |text|
    ensures |Bytes(Flat(ts))| == |Bytes(a + b)| + |Bytes(text)|
  {
    PosIsLength(ts, |ts|);
    assert ts[..|ts|] == ts;
    BytesInsert(a, text, b);
  }

  lemma RowInsert(nodes: seq<Node>, hs: seq<nat>, ts: seq<seq<Codepoint>>,
                  m: nat, node: Node, hs': seq<nat>, t: seq<Codepoint>)
    requires Row(nodes, hs, ts) && 0 < m <= |nodes|
    requires |hs'| == |hs| + 1 && Heights(hs') && |t| > 0
    requires node !in nodes && forall k | 0 <= k < |nodes| :: nodes[k].str != node.str
    ensures Row(Insert(nodes, m, node), hs', Insert(ts, m, t))
  {
    forall j, k | 0 <= j < k <= |nodes| ensures Apart(Insert(nodes, m, node), j, k) {
      var j', k' := if j > m then j - 1 else j, if k > m then k - 1 else k;
      assert j != m && k != m ==> Apart(nodes, j', k');
    }
  }

  /** The iterator names the cover of x on every level. */
  ghost predicate NamesCover(nodes: seq<Node>, hs: seq<nat>, x: nat, iter: seq<Skip>)
    requires x < |nodes| == |hs|
  {
    && hs[0] <= |iter|
    && forall i | 0 <= i < hs[0] :: iter[i].node == nodes[Cover(hs, x, i)]
  }

  /** ... or at least on the levels above x's own. */
  ghost predicate NamesAbove(nodes: seq<Node>, hs: seq<nat>, x: nat, iter: seq<Skip>)
    requires x < |nodes| == |hs|
  {
    && hs[0] <= |iter|
    && forall i | hs[x] <= i < hs[0] :: iter[i].node == nodes[Cover(hs, x, i)]
  }

  /** The cover of e on every level the head reaches. */
  ghost function Covers(hs: seq<nat>, e: nat): (cov: seq<nat>)
    requires e < |hs|
    ensures |cov| == hs[0]
    ensures forall i | 0 <= i < hs[0] :: cov[i] == Cover(hs, e, i) <= e && i < hs[cov[i]]
  {
    seq(hs[0], i requires 0 <= i < hs[0] => Cover(hs, e, i))
  }

  /** The iterator stands p characters into the rope, in or at the end of node e: at each level it
      names the last node up to e that reaches the level, and the distance from its start to p. */
  ghost predicate IterOk(nodes: seq<Node>, hs: seq<nat>, ts: seq<seq<Codepoint>>, e: nat, p: nat, iter: seq<Skip>)
    requires e < |nodes| == |hs| == |ts|
  {
    IterFrom(nodes, hs, ts, e, p, iter, 0)
  }

  /** ... on the levels from lo up. */
  ghost predicate IterFrom(nodes: seq<Node>, hs: seq<nat>, ts: seq<seq<Codepoint>>, e: nat, p: nat,
                           iter: seq<Skip>, lo: nat)
    requires e < |nodes| == |hs| == |ts|
  {
    && hs[0] <= |iter|
    && forall i | lo <= i < hs[0] :: IterAt(nodes, ts, Cover(hs, e, i), p, iter[i])
  }

  ghost predicate IterAt(nodes: seq<Node>, ts: seq<seq<Codepoint>>, c: nat, p: nat, at: Skip)
    requires c < |nodes| == |ts|
  {
    at.node == nodes[c] && at.skipSize == p - Pos(ts, c)
  }

  /** A descent that goes right at node x. */
  lemma GoRight(nodes: seq<Node>, hs: seq<nat>, ts: seq<seq<Codepoint>>, links: seq<seq<Skip>>,
                pos: nat, x: nat, i: nat)
    requires LinksOk(nodes, hs, ts, links) && x < |nodes| && i < hs[x] && pos <= Pos(ts, |ts|)
    requires pos > Pos(ts, x) + links[x][i].skipSize
    ensures var j := Target(hs, x, i);
            && j < |nodes| && i < hs[j] && j <= Locate(ts, pos)
            && links[x][i].node == nodes[j]
            && Pos(ts, x) + links[x][i].skipSize == Pos(ts, j) < pos
  {
    assert LinkOk(nodes, hs, ts, x, i, links[x][i]);
    RightIsBefore(ts, pos, Target(hs, x, i));
  }

  /** A descent that goes down at node x. */
  lemma GoDown(nodes: seq<Node>, hs: seq<nat>, ts: seq<seq<Codepoint>>, links: seq<seq<Skip>>,
               pos: nat, x: nat, i: nat)
    requires LinksOk(nodes, hs, ts, links) && x < |nodes| && i < hs[x] && i < hs[0] && pos <= Pos(ts, |ts|)
    requires x == 0 || Pos(ts, x) < pos
    requires pos <= Pos(ts, x) + links[x][i].skipSize
    ensures Cover(hs, Locate(ts, pos), i) == x
  {
    assert LinkOk(nodes, hs, ts, x, i, links[x][i]);
    DownIsCover(hs, ts, pos, x, i);
  }

  /** The link sk', with delta more characters when it passes `over` the change on a level `done`. */
  ghost predicate StretchedLink(sk: Skip, sk': Skip, done: bool, over: bool, delta: int) {
    sk'.node == sk.node && sk'.skipSize == sk.skipSize + if done && over then delta else 0
  }

  /** links' is links with the links of the nodes cov, on the levels below hi, longer by delta. */
  ghost predicate Stretched(hs: seq<nat>, links: seq<seq<Skip>>, links': seq<seq<Skip>>,
                            cov: seq<nat>, hi: nat, delta: int)
    requires Heights(hs) && |cov| == hs[0]
  {
    && Fits(hs, links) && Fits(hs, links')
    && forall k, i | 0 <= k < |hs| && 0 <= i < hs[k] ::
         StretchedLink(links[k][i], links'[k][i], i < hi, k == cov[i], delta)
  }

  lemma StretchNone(hs: seq<nat>, links: seq<seq<Skip>>, cov: seq<nat>, delta: int)
    requires Heights(hs) && Fits(hs, links) && |cov| == hs[0]
    ensures Stretched(hs, links, links, cov, 0, delta)
  {
  }

  /** One more level of the iterator stretched. */
  lemma StretchOne(hs: seq<nat>, links: seq<seq<Skip>>, links': seq<seq<Skip>>, sk: Skip,
                   cov: seq<nat>, i: nat, delta: int)
    requires Heights(hs) && i < |cov| == hs[0] && cov[i] < |hs| && i < hs[cov[i]]
    requires Stretched(hs, links, links', cov, i, delta)
    requires StretchedLink(links'[cov[i]][i], sk, true, true, delta)
    ensures Stretched(hs, links, links'[cov[i] := links'[cov[i]][i := sk]], cov, i + 1, delta)
  {
    var c := cov[i];
    var after: seq<seq<Skip>> := links'[c := links'[c][i := sk]];
    forall k, j | 0 <= k < |hs| && 0 <= j < hs[k]
      ensures StretchedLink(links[k][j], after[k][j], j < i + 1, k == cov[j], delta)
    {
      assert StretchedLink(links[k][j], links'[k][j], j < i, k == cov[j], delta);
    }
  }

  lemma LinksAfterTextChange(nodes: seq<Node>, hs: seq<nat>, ts: seq<seq<Codepoint>>, links: seq<seq<Skip>>,
                             e: nat, t: seq<Codepoint>, links': seq<seq<Skip>>)
    requires Heights(hs) && LinksOk(nodes, hs, ts, links) && e < |hs|
    requires Stretched(hs, links, links', Covers(hs, e), hs[0], |t| - |ts[e]|)
    ensures LinksOk(nodes, hs, ts[e := t], links')
  {
    forall k, i | 0 <= k < |hs| && 0 <= i < hs[k]
      ensures LinkOk(nodes, hs, ts[e := t], k, i, links'[k][i])
    {
      assert LinkOk(nodes, hs, ts, k, i, links[k][i]);
      assert StretchedLink(links[k][i], links'[k][i], i < hs[0], k == Covers(hs, e)[i], |t| - |ts[e]|);
      TextChange(hs, ts, e, t, k, i);
    }
  }

  /** A link over x is at least as wide as x's text. */
  lemma CoverWide(nodes: seq<Node>, hs: seq<nat>, ts: seq<seq<Codepoint>>, links: seq<seq<Skip>>, x: nat, i: nat)
    requires Heights(hs) && LinksOk(nodes, hs, ts, links) && x < |hs| && i < hs[0]
    ensures links[Cover(hs, x, i)][i].skipSize >= |ts[x]|
  {
    var c := Cover(hs, x, i);
    assert LinkOk(nodes, hs, ts, c, i, links[c][i]);
    OverIsCover(hs, x, c, i);
    PosMonotone(ts, x + 1, Target(hs, c, i));
    PosMonotone(ts, c, x);
  }

  /** The link on the lowest level is as wide as the node's text, and leads to the next node. */
  lemma FirstLink(nodes: seq<Node>, hs: seq<nat>, ts: seq<seq<Codepoint>>, links: seq<seq<Skip>>, x: nat)
    requires Heights(hs) && LinksOk(nodes, hs, ts, links) && x < |hs|
    ensures |links[x]| == hs[x] > 0 && links[x][0] == Skip(NodeAt(nodes, x + 1), |ts[x]|)
  {
    assert LinkOk(nodes, hs, ts, x, 0, links[x][0]);
    NextIs(hs, x + 1, 0, x + 1);
  }

  /** The iterator does not see a change of x's text, which starts where it did. */
  lemma IterRetext(nodes: seq<Node>, hs: seq<nat>, ts: seq<seq<Codepoint>>, x: nat, p: nat, iter: seq<Skip>,
                   t: seq<Codepoint>)
    requires Heights(hs) && x < |nodes| == |hs| == |ts| && IterOk(nodes, hs, ts, x, p, iter)
    ensures IterOk(nodes, hs, ts[x := t], x, p, iter)
    ensures NamesCover(nodes, hs, x, iter)
  {
    forall i | 0 <= i < hs[0] ensures IterAt(nodes, ts[x := t], Cover(hs, x, i), p, iter[i]) {
      assert IterAt(nodes, ts, Cover(hs, x, i), p, iter[i]);
      PosChange(ts, x, t, Cover(hs, x, i));
    }
  }

  /** Cut at the iterator, node x ends where the iterator stands. */
  lemma IterAtCut(nodes: seq<Node>, hs: seq<nat>, ts: seq<seq<Codepoint>>, x: nat, o: nat, iter: seq<Skip>)
    requires Heights(hs) && x < |nodes| == |hs| == |ts| && o <= |ts[x]|
    requires IterOk(nodes, hs, ts, x, Pos(ts, x) + o, iter)
    ensures var ts' := ts[x := ts[x][..o]];
            IterOk(nodes, hs, ts', x, Pos(ts', x + 1), iter)
    ensures NamesCover(nodes, hs, x, iter)
  {
    IterRetext(nodes, hs, ts, x, Pos(ts, x) + o, iter, ts[x][..o]);
    PosChange(ts, x, ts[x][..o], x);
  }

  /** Where the iterator names next on next's levels, it names the cover of next. */
  lemma NamesNext(nodes: seq<Node>, hs: seq<nat>, x: nat, iter: seq<Skip>, iter': seq<Skip>)
    requires Heights(hs) && x + 1 < |nodes| == |hs| && NamesCover(nodes, hs, x, iter)
    requires |iter'| == |iter|
    requires forall i | 0 <= i < |iter| ::
               iter'[i].node == if i < hs[x + 1] then nodes[x + 1] else iter[i].node
    ensures NamesCover(nodes, hs, x + 1, iter')
  {
  }

  // ---- raising the head ----

  lemma LinksRaised(nodes: seq<Node>, hs: seq<nat>, ts: seq<seq<Codepoint>>, links: seq<seq<Skip>>)
    requires Heights(hs) && LinksOk(nodes, hs, ts, links)
    ensures LinksOk(nodes, hs[0 := hs[0] + 1], ts, links[0 := links[0] + [links[0][hs[0] - 1]]])
  {
    var links' := links[0 := links[0] + [links[0][hs[0] - 1]]];
    var hs' := hs[0 := hs[0] + 1];
    forall k, i | 0 <= k < |hs'| && 0 <= i < hs'[k] ensures LinkOk(nodes, hs', ts, k, i, links'[k][i]) {
      HeadRaised(hs, ts, k, i);
      if i < hs[k] {
        assert LinkOk(nodes, hs, ts, k, i, links[k][i]);
      } else {
        assert LinkOk(nodes, hs, ts, 0, hs[0] - 1, links[0][hs[0] - 1]);
        HeadRaised(hs, ts, 0, hs[0] - 1);
      }
    }
  }

  lemma IterRaised(nodes: seq<Node>, hs: seq<nat>, ts: seq<seq<Codepoint>>, e: nat, p: nat, iter: seq<Skip>)
    requires Heights(hs) && e < |nodes| == |hs| == |ts| && hs[0] < |iter|
    requires IterOk(nodes, hs, ts, e, p, iter)
    ensures IterOk(nodes, hs[0 := hs[0] + 1], ts, e, p, iter[hs[0] := iter[hs[0] - 1]])
  {
    var hs' := hs[0 := hs[0] + 1];
    var iter' := iter[hs[0] := iter[hs[0] - 1]];
    forall i | 0 <= i < hs'[0] ensures IterAt(nodes, ts, Cover(hs', e, i), p, iter'[i]) {
      CoverWhenRaised(hs, e, i);
      assert i < hs[0] ==> IterAt(nodes, ts, Cover(hs, e, i), p, iter[i]);
      assert IterAt(nodes, ts, Cover(hs, e, hs[0] - 1), p, iter[hs[0] - 1]);
    }
  }

  // ---- linking a node in after e ----

  /** What becomes of a link when `node`, of height h and n characters, is put in at distance `at`
      from the link's start: the links over e are cut at the new node's levels, stretched above. */
  ghost function CutLink(sk: Skip, done: bool, over: bool, i: nat, node: Node, h: nat, n: nat, at: nat): Skip {
    if !done || !over then sk
    else if i < h then Skip(node, at)
    else Skip(sk.node, sk.skipSize + n)
  }

  ghost predicate OwnLink(sk: Skip, own: Skip, n: nat, at: nat) {
    own.node == sk.node && own.skipSize == n + sk.skipSize - at
  }

  /** `node`, with links `own`, has been linked in at the iterator on the levels below hi. */
  ghost predicate LinkedIn(hs: seq<nat>, links: seq<seq<Skip>>, links': seq<seq<Skip>>, own: seq<Skip>,
                           cov: seq<nat>, iter: seq<Skip>, node: Node, h: nat, n: nat, hi: nat)
    requires Heights(hs) && hi <= hs[0] == |cov| <= |iter|
    requires forall i | 0 <= i < hs[0] :: cov[i] < |hs| && i < hs[cov[i]]
  {
    && Fits(hs, links) && Fits(hs, links') && |own| == h < hs[0]
    && (forall k, i | 0 <= k < |hs| && 0 <= i < hs[k] ::
          links'[k][i] == CutLink(links[k][i], i < hi, k == cov[i], i, node, h, n, iter[i].skipSize))
    && (forall i | 0 <= i < h && i < hi :: OwnLink(links[cov[i]][i], own[i], n, iter[i].skipSize))
  }

  /** On every level the iterator names a node of the row, at most that node's link away. */
  ghost predicate Standing(nodes: seq<Node>, hs: seq<nat>, links: seq<seq<Skip>>, cov: seq<nat>, iter: seq<Skip>) {
    && Heights(hs) && Fits(hs, links) && |nodes| == |hs| && |cov| == hs[0] <= |iter|
    && forall i | 0 <= i < hs[0] ::
         && cov[i] < |hs| && i < hs[cov[i]]
         && iter[i].node == nodes[cov[i]]
         && iter[i].skipSize <= links[cov[i]][i].skipSize
  }

  /** The iterator, moved to the end of the node put in on the levels below hi. */
  ghost function Advanced(iter: seq<Skip>, node: Node, h: nat, n: nat, hi: nat): (r: seq<Skip>)
    ensures |r| == |iter|
  {
    seq(|iter|, j requires 0 <= j < |iter| =>
      if j >= hi then iter[j] else if j < h then Skip(node, n) else Skip(iter[j].node, iter[j].skipSize + n))
  }

  lemma AdvanceOne(iter: seq<Skip>, node: Node, h: nat, n: nat, i: nat)
    requires i < |iter|
    ensures Advanced(iter, node, h, n, i)[i] == iter[i]
    ensures var sk := if i < h then Skip(node, n) else Skip(iter[i].node, iter[i].skipSize + n);
            Advanced(iter, node, h, n, i)[i := sk] == Advanced(iter, node, h, n, i + 1)
  {
  }

  lemma LinkNone(hs: seq<nat>, links: seq<seq<Skip>>, own: seq<Skip>,
                 cov: seq<nat>, iter: seq<Skip>, node: Node, h: nat, n: nat)
    requires Heights(hs) && Fits(hs, links) && h < hs[0] == |cov| <= |iter| && |own| == h
    requires forall j | 0 <= j < hs[0] :: cov[j] < |hs| && j < hs[cov[j]]
    ensures LinkedIn(hs, links, links, own, cov, iter, node, h, n, 0)
    ensures Advanced(iter, node, h, n, 0) == iter
  {
  }

  /** The link the iterator names on a level not yet done is still the old one. */
  lemma LinkUntouched(hs: seq<nat>, links: seq<seq<Skip>>, links': seq<seq<Skip>>, own: seq<Skip>,
                      cov: seq<nat>, iter: seq<Skip>, node: Node, h: nat, n: nat, i: nat)
    requires Heights(hs) && i < hs[0] == |cov| <= |iter|
    requires forall j | 0 <= j < hs[0] :: cov[j] < |hs| && j < hs[cov[j]]
    requires LinkedIn(hs, links, links', own, cov, iter, node, h, n, i)
    ensures |own| == h && |links| == |links'| == |hs| && i < |links[cov[i]]| && i < |links'[cov[i]]|
    ensures links'[cov[i]][i] == links[cov[i]][i]
  {
    assert links'[cov[i]][i] == CutLink(links[cov[i]][i], i < i, true, i, node, h, n, iter[i].skipSize);
  }

  /** One more level linked in. */
  lemma LinkOneIn(hs: seq<nat>, links: seq<seq<Skip>>, links': seq<seq<Skip>>, own: seq<Skip>,
                  cov: seq<nat>, iter: seq<Skip>, node: Node, h: nat, n: nat, i: nat, own': seq<Skip>)
    requires Heights(hs) && i < hs[0] == |cov| <= |iter|
    requires forall j | 0 <= j < hs[0] :: cov[j] < |hs| && j < hs[cov[j]]
    requires LinkedIn(hs, links, links', own, cov, iter, node, h, n, i)
    requires |own'| == h && forall j | 0 <= j < i && j < h :: own'[j] == own[j]
    requires i < h ==> OwnLink(links[cov[i]][i], own'[i], n, iter[i].skipSize)
    ensures var sk := CutLink(links[cov[i]][i], true, true, i, node, h, n, iter[i].skipSize);
            LinkedIn(hs, links, links'[cov[i] := links'[cov[i]][i := sk]], own', cov, iter, node, h, n, i + 1)
  {
    var c := cov[i];
    var sk := CutLink(links[c][i], true, true, i, node, h, n, iter[i].skipSize);
    var after: seq<seq<Skip>> := links'[c := links'[c][i := sk]];
    forall k, j | 0 <= k < |hs| && 0 <= j < hs[k]
      ensures after[k][j] == CutLink(links[k][j], j < i + 1, k == cov[j], j, node, h, n, iter[j].skipSize)
    {
      assert links'[k][j] == CutLink(links[k][j], j < i, k == cov[j], j, node, h, n, iter[j].skipSize);
    }
  }

  /** Links that start up to e, before and after a node is put in after e. */
  lemma LinkBeforeInsert(nodes: seq<Node>, hs: seq<nat>, ts: seq<seq<Codepoint>>,
                         e: nat, node: Node, h: nat, t: seq<Codepoint>, k: nat, i: nat)
    requires k <= e < |nodes| == |hs| == |ts| && hs[k] > i && hs[0] > i
    ensures var (c, j, w) := (Cover(hs, e, i), Target(hs, k, i), Width(hs, ts, k, i));
            var hs2, ts2 := Insert(hs, e + 1, h), Insert(ts, e + 1, t);
            && NodeAt(Insert(nodes, e + 1, node), Target(hs2, k, i)) ==
               (if k == c && i < h then node else NodeAt(nodes, j))
            && Width(hs2, ts2, k, i) ==
               (if k != c then w else if i < h then Pos(ts, e + 1) - Pos(ts, k) else w + |t|)
  {
    TargetAfterInsert(hs, e, h, k, i);
    WidthAfterInsert(hs, ts, e, h, t, k, i);
    OverIsCover(hs, e, k, i);
  }

  /** The links of the node put in. */
  lemma LinkOfInserted(nodes: seq<Node>, hs: seq<nat>, ts: seq<seq<Codepoint>>,
                       e: nat, node: Node, h: nat, t: seq<Codepoint>, i: nat)
    requires e < |nodes| == |hs| == |ts| && hs[0] > i && i < h
    ensures var c := Cover(hs, e, i);
            var hs2, ts2 := Insert(hs, e + 1, h), Insert(ts, e + 1, t);
            && NodeAt(Insert(nodes, e + 1, node), Target(hs2, e + 1, i)) == NodeAt(nodes, Target(hs, c, i))
            && Width(hs2, ts2, e + 1, i) == |t| + Width(hs, ts, c, i) - (Pos(ts, e + 1) - Pos(ts, c))
  {
    OverIsCover(hs, e, Cover(hs, e, i), i);
    TargetOfInserted(hs, e, h, i);
    WidthOfInserted(hs, ts, e, h, t, i);
  }

  /** Links that start after e. */
  lemma LinkBeyondInsert(nodes: seq<Node>, hs: seq<nat>, ts: seq<seq<Codepoint>>,
                         e: nat, node: Node, h: nat, t: seq<Codepoint>, k: nat, i: nat)
    requires e < k < |nodes| == |hs| == |ts|
    ensures var hs2, ts2 := Insert(hs, e + 1, h), Insert(ts, e + 1, t);
            && NodeAt(Insert(nodes, e + 1, node), Target(hs2, k + 1, i)) == NodeAt(nodes, Target(hs, k, i))
            && Width(hs2, ts2, k + 1, i) == Width(hs, ts, k, i)
  {
    TargetBeyondInsert(hs, e, h, k, i);
    WidthBeyondInsert(hs, ts, e, h, t, k, i);
  }

  lemma CutBefore(nodes: seq<Node>, hs: seq<nat>, ts: seq<seq<Codepoint>>, links: seq<seq<Skip>>,
                  e: nat, iter: seq<Skip>, node: Node, h: nat, t: seq<Codepoint>,
                  links': seq<seq<Skip>>, own: seq<Skip>, k: nat, i: nat)
    requires Heights(hs) && LinksOk(nodes, hs, ts, links) && e < |hs|
    requires h < hs[0] && IterOk(nodes, hs, ts, e, Pos(ts, e + 1), iter)
    requires LinkedIn(hs, links, links', own, Covers(hs, e), iter, node, h, |t|, hs[0])
    requires k <= e && i < hs[k]
    ensures LinkOk(Insert(nodes, e + 1, node), Insert(hs, e + 1, h), Insert(ts, e + 1, t), k, i, links'[k][i])
  {
    assert LinkOk(nodes, hs, ts, k, i, links[k][i]);
    assert links'[k][i] == CutLink(links[k][i], i < hs[0], k == Covers(hs, e)[i], i, node, h, |t|, iter[i].skipSize);
    LinkBeforeInsert(nodes, hs, ts, e, node, h, t, k, i);
  }

  lemma CutOwn(nodes: seq<Node>, hs: seq<nat>, ts: seq<seq<Codepoint>>, links: seq<seq<Skip>>,
               e: nat, iter: seq<Skip>, node: Node, h: nat, t: seq<Codepoint>, i: nat, own: Skip)
    requires Heights(hs) && LinksOk(nodes, hs, ts, links) && e < |hs|
    requires h < hs[0] && IterOk(nodes, hs, ts, e, Pos(ts, e + 1), iter)
    requires i < h && OwnLink(links[Cover(hs, e, i)][i], own, |t|, iter[i].skipSize)
    ensures LinkOk(Insert(nodes, e + 1, node), Insert(hs, e + 1, h), Insert(ts, e + 1, t), e + 1, i, own)
  {
    var c := Cover(hs, e, i);
    assert LinkOk(nodes, hs, ts, c, i, links[c][i]);
    LinkOfInserted(nodes, hs, ts, e, node, h, t, i);
  }

  lemma CutBeyond(nodes: seq<Node>, hs: seq<nat>, ts: seq<seq<Codepoint>>, links: seq<seq<Skip>>,
                  e: nat, iter: seq<Skip>, node: Node, h: nat, t: seq<Codepoint>,
                  links': seq<seq<Skip>>, own: seq<Skip>, k: nat, i: nat)
    requires Heights(hs) && LinksOk(nodes, hs, ts, links)
    requires h < hs[0] <= |iter|
    requires e < k < |hs| && i < hs[k]
    requires LinkedIn(hs, links, links', own, Covers(hs, e), iter, node, h, |t|, hs[0])
    ensures LinkOk(Insert(nodes, e + 1, node), Insert(hs, e + 1, h), Insert(ts, e + 1, t), k + 1, i, links'[k][i])
  {
    assert LinkOk(nodes, hs, ts, k, i, links[k][i]);
    assert links'[k][i] == CutLink(links[k][i], i < hs[0], k == Covers(hs, e)[i], i, node, h, |t|, iter[i].skipSize);
    LinkBeyondInsert(nodes, hs, ts, e, node, h, t, k, i);
  }

  lemma CutOne(nodes: seq<Node>, hs: seq<nat>, ts: seq<seq<Codepoint>>, links: seq<seq<Skip>>,
               e: nat, iter: seq<Skip>, node: Node, h: nat, t: seq<Codepoint>,
               links': seq<seq<Skip>>, own: seq<Skip>, k: nat, i: nat)
    requires Heights(hs) && LinksOk(nodes, hs, ts, links) && e < |hs|
    requires h < hs[0] && IterOk(nodes, hs, ts, e, Pos(ts, e + 1), iter)
    requires LinkedIn(hs, links, links', own, Covers(hs, e), iter, node, h, |t|, hs[0])
    requires k <= |hs| && i < Insert(hs, e + 1, h)[k]
    ensures |Insert(links', e + 1, own)[k]| == Insert(hs, e + 1, h)[k]
    ensures LinkOk(Insert(nodes, e + 1, node), Insert(hs, e + 1, h), Insert(ts, e + 1, t), k, i,
                   Insert(links', e + 1, own)[k][i])
  {
    hide LinkOk, Pos, Next, Cover, IterAt, CutLink, OwnLink;
    if k <= e {
      assert Insert(links', e + 1, own)[k] == links'[k] && Insert(hs, e + 1, h)[k] == hs[k];
      CutBefore(nodes, hs, ts, links, e, iter, node, h, t, links', own, k, i);
    } else if k == e + 1 {
      assert Insert(links', e + 1, own)[k] == own && Insert(hs, e + 1, h)[k] == h;
      CutOwn(nodes, hs, ts, links, e, iter, node, h, t, i, own[i]);
    } else {
      assert Insert(links', e + 1, own)[k] == links'[k - 1] && Insert(hs, e + 1, h)[k] == hs[k - 1];
      CutBeyond(nodes, hs, ts, links, e, iter, node, h, t, links', own, k - 1, i);
    }
  }

  lemma LinksAfterInsert(nodes: seq<Node>, hs: seq<nat>, ts: seq<seq<Codepoint>>, links: seq<seq<Skip>>,
                         e: nat, iter: seq<Skip>, node: Node, h: nat, t: seq<Codepoint>,
                         links': seq<seq<Skip>>, own: seq<Skip>)
    requires Heights(hs) && LinksOk(nodes, hs, ts, links) && e < |hs|
    requires h < hs[0] && IterOk(nodes, hs, ts, e, Pos(ts, e + 1), iter)
    requires LinkedIn(hs, links, links', own, Covers(hs, e), iter, node, h, |t|, hs[0])
    ensures LinksOk(Insert(nodes, e + 1, node), Insert(hs, e + 1, h), Insert(ts, e + 1, t),
                    Insert(links', e + 1, own))
  {
    var nodes2, hs2, ts2 := Insert(nodes, e + 1, node), Insert(hs, e + 1, h), Insert(ts, e + 1, t);
    var links2 := Insert(links', e + 1, own);
    assert Fits(hs2, links2);
    forall k, i | 0 <= k < |hs2| && 0 <= i < hs2[k]
      ensures LinkOk(nodes2, hs2, ts2, k, i, links2[k][i])
    {
      CutOne(nodes, hs, ts, links, e, iter, node, h, t, links', own, k, i);
    }
  }

  /** An iterator at the end of node e stands on the links it names. */
  lemma IterStands(nodes: seq<Node>, hs: seq<nat>, ts: seq<seq<Codepoint>>, links: seq<seq<Skip>>,
                   e: nat, iter: seq<Skip>)
    requires Heights(hs) && LinksOk(nodes, hs, ts, links) && e < |hs|
    requires IterOk(nodes, hs, ts, e, Pos(ts, e + 1), iter)
    ensures Standing(nodes, hs, links, Covers(hs, e), iter)
  {
    forall i | 0 <= i < hs[0]
      ensures iter[i].node == nodes[Covers(hs, e)[i]]
      ensures iter[i].skipSize <= links[Covers(hs, e)[i]][i].skipSize
    {
      var c := Cover(hs, e, i);
      assert IterAt(nodes, ts, c, Pos(ts, e + 1), iter[i]);
      assert LinkOk(nodes, hs, ts, c, i, links[c][i]);
      OverIsCover(hs, e, c, i);
      PosMonotone(ts, e + 1, Target(hs, c, i));
    }
  }

  /** The advanced iterator stands at the end of the node put in. */
  lemma IterAfterInsert(nodes: seq<Node>, hs: seq<nat>, ts: seq<seq<Codepoint>>,
                        e: nat, iter: seq<Skip>, node: Node, h: nat, t: seq<Codepoint>)
    requires Heights(hs) && |nodes| == |hs| == |ts| && e < |hs|
    requires h < hs[0] && IterOk(nodes, hs, ts, e, Pos(ts, e + 1), iter)
    ensures var (nodes2, hs2, ts2) := (Insert(nodes, e + 1, node), Insert(hs, e + 1, h), Insert(ts, e + 1, t));
            IterOk(nodes2, hs2, ts2, e + 1, Pos(ts2, e + 2), Advanced(iter, node, h, |t|, hs[0]))
  {
    hide Pos, Next, Cover;
    var nodes2, hs2, ts2 := Insert(nodes, e + 1, node), Insert(hs, e + 1, h), Insert(ts, e + 1, t);
    var iter2 := Advanced(iter, node, h, |t|, hs[0]);
    PosInsert(ts, e + 1, t, e + 1);
    PosInsert(ts, e + 1, t, e + 2);
    forall i | 0 <= i < hs2[0]
      ensures IterAt(nodes2, ts2, Cover(hs2, e + 1, i), Pos(ts2, e + 2), iter2[i])
    {
      var c := Cover(hs, e, i);
      assert IterAt(nodes, ts, c, Pos(ts, e + 1), iter[i]);
      CoverAfterInsert(hs, e, h, i);
      PosInsert(ts, e + 1, t, c);
    }
  }

  // ---- taking node e + 1 out ----

  /** What becomes of a link, `over` the node x, once x with links `own` and n characters is gone. */
  ghost predicate JoinedLink(sk: Skip, sk': Skip, done: bool, over: bool, i: nat, own: seq<Skip>, n: nat) {
    if !done || !over then sk' == sk
    else if i < |own| then sk'.node == own[i].node && sk'.skipSize == sk.skipSize + own[i].skipSize - n
    else sk'.node == sk.node && sk'.skipSize == sk.skipSize - n
  }

  /** Node x, with links `own`, has been linked out on the levels below hi. */
  ghost predicate LinkedOut(hs: seq<nat>, links: seq<seq<Skip>>, links': seq<seq<Skip>>, own: seq<Skip>,
                            cov: seq<nat>, x: nat, n: nat, hi: nat)
    requires Heights(hs) && |cov| == hs[0]
  {
    && Fits(hs, links) && Fits(hs, links')
    && x < |hs| && links'[x] == own
    && (forall k, i | 0 <= k < |hs| && 0 <= i < hs[k] && k != x ::
          JoinedLink(links[k][i], links'[k][i], i < hi, k == cov[i], i, own, n))
  }

  /** There is enough of every link to be taken away when node x goes. */
  ghost predicate Covered(nodes: seq<Node>, hs: seq<nat>, links: seq<seq<Skip>>, cov: seq<nat>, x: nat, n: nat,
                          iter: seq<Skip>)
  {
    && Heights(hs) && Fits(hs, links) && |nodes| == |hs| && |cov| == hs[0] <= |iter| && x < |hs| && hs[x] < hs[0]
    && forall i | 0 <= i < hs[0] ::
         && cov[i] < |hs| && i < hs[cov[i]] && cov[i] != x && iter[i].node == nodes[cov[i]]
         && (if i < hs[x] then links[x][i].skipSize >= n else links[cov[i]][i].skipSize >= n)
  }

  lemma CoveredAt(nodes: seq<Node>, hs: seq<nat>, ts: seq<seq<Codepoint>>, links: seq<seq<Skip>>, x: nat,
                  iter: seq<Skip>)
    requires Heights(hs) && LinksOk(nodes, hs, ts, links) && 0 < x < |nodes|
    requires NamesCover(nodes, hs, x - 1, iter)
    ensures Covered(nodes, hs, links, Covers(hs, x - 1), x, |ts[x]|, iter)
  {
    var cov := Covers(hs, x - 1);
    forall i | 0 <= i < hs[0]
      ensures cov[i] != x && iter[i].node == nodes[cov[i]]
      ensures if i < hs[x] then links[x][i].skipSize >= |ts[x]| else links[cov[i]][i].skipSize >= |ts[x]|
    {
      CoverWide(nodes, hs, ts, links, x, i);
      assert Cover(hs, x, i) == if i < hs[x] then x else cov[i];
    }
  }

  lemma LinkNoneOut(hs: seq<nat>, links: seq<seq<Skip>>, cov: seq<nat>, x: nat, n: nat)
    requires Heights(hs) && |cov| == hs[0] && Fits(hs, links) && x < |hs|
    ensures LinkedOut(hs, links, links, links[x], cov, x, n, 0)
  {
  }

  /** One more level linked out. */
  lemma LinkOneOut(hs: seq<nat>, links: seq<seq<Skip>>, links': seq<seq<Skip>>, own: seq<Skip>,
                   cov: seq<nat>, x: nat, n: nat, i: nat, sk: Skip)
    requires Heights(hs) && i < |cov| == hs[0] && cov[i] < |hs| && i < hs[cov[i]] && cov[i] != x
    requires LinkedOut(hs, links, links', own, cov, x, n, i)
    requires JoinedLink(links'[cov[i]][i], sk, true, true, i, own, n)
    ensures links'[cov[i]][i] == links[cov[i]][i]
    ensures LinkedOut(hs, links, links'[cov[i] := links'[cov[i]][i := sk]], own, cov, x, n, i + 1)
  {
    var c := cov[i];
    var after: seq<seq<Skip>> := links'[c := links'[c][i := sk]];
    assert JoinedLink(links[c][i], links'[c][i], i < i, c == cov[i], i, own, n);
    forall k, j | 0 <= k < |hs| && 0 <= j < hs[k] && k != x
      ensures JoinedLink(links[k][j], after[k][j], j < i + 1, k == cov[j], j, own, n)
    {
      assert JoinedLink(links[k][j], links'[k][j], j < i, k == cov[j], j, own, n);
    }
  }

  lemma LinkBeforeRemove(nodes: seq<Node>, hs: seq<nat>, ts: seq<seq<Codepoint>>, e: nat, k: nat, i: nat)
    requires k <= e && e + 1 < |nodes| == |hs| == |ts| && i < hs[k] && i < hs[0]
    ensures var hs2, ts2 := Remove(hs, e + 1), Remove(ts, e + 1);
            var c, w := Cover(hs, e, i), Width(hs, ts, k, i);
            && NodeAt(Remove(nodes, e + 1), Target(hs2, k, i)) ==
               NodeAt(nodes, Target(hs, if k == c && i < hs[e + 1] then e + 1 else k, i))
            && Width(hs2, ts2, k, i) ==
               (if k != c then w
                else if i < hs[e + 1] then w + Width(hs, ts, e + 1, i) - |ts[e + 1]|
                else w - |ts[e + 1]|)
  {
    var nodes2, hs2, ts2 := Remove(nodes, e + 1), Remove(hs, e + 1), Remove(ts, e + 1);
    var h, t := hs[e + 1], ts[e + 1];
    InsertRemoved(nodes, e + 1);
    InsertRemoved(hs, e + 1);
    InsertRemoved(ts, e + 1);
    CoverAfterInsert(hs2, e, h, i);
    LinkBeforeInsert(nodes2, hs2, ts2, e, nodes[e + 1], h, t, k, i);
    if k == Cover(hs2, e, i) && i < h {
      LinkOfInserted(nodes2, hs2, ts2, e, nodes[e + 1], h, t, i);
    }
  }

  lemma RemoveBefore(nodes: seq<Node>, hs: seq<nat>, ts: seq<seq<Codepoint>>, links: seq<seq<Skip>>,
                     e: nat, links': seq<seq<Skip>>, k: nat, i: nat)
    requires Heights(hs) && LinksOk(nodes, hs, ts, links) && e + 1 < |hs|
    requires LinkedOut(hs, links, links', links[e + 1], Covers(hs, e), e + 1, |ts[e + 1]|, hs[0])
    requires k <= e && i < hs[k]
    ensures LinkOk(Remove(nodes, e + 1), Remove(hs, e + 1), Remove(ts, e + 1), k, i, links'[k][i])
  {
    assert LinkOk(nodes, hs, ts, k, i, links[k][i]);
    assert i < hs[e + 1] ==> LinkOk(nodes, hs, ts, e + 1, i, links[e + 1][i]);
    assert JoinedLink(links[k][i], links'[k][i], i < hs[0], k == Covers(hs, e)[i], i, links[e + 1], |ts[e + 1]|);
    LinkBeforeRemove(nodes, hs, ts, e, k, i);
  }

  lemma LinkBeyondRemove(nodes: seq<Node>, hs: seq<nat>, ts: seq<seq<Codepoint>>, e: nat, k: nat, i: nat)
    requires e < k && k + 1 < |nodes| == |hs| == |ts|
    ensures var hs2, ts2 := Remove(hs, e + 1), Remove(ts, e + 1);
            && NodeAt(Remove(nodes, e + 1), Target(hs2, k, i)) == NodeAt(nodes, Target(hs, k + 1, i))
            && Width(hs2, ts2, k, i) == Width(hs, ts, k + 1, i)
  {
    hide Pos, Next;
    InsertRemoved(nodes, e + 1);
    InsertRemoved(hs, e + 1);
    InsertRemoved(ts, e + 1);
    LinkBeyondInsert(Remove(nodes, e + 1), Remove(hs, e + 1), Remove(ts, e + 1),
                     e, nodes[e + 1], hs[e + 1], ts[e + 1], k, i);
  }

  lemma RemoveBeyond(nodes: seq<Node>, hs: seq<nat>, ts: seq<seq<Codepoint>>, links: seq<seq<Skip>>,
                     e: nat, links': seq<seq<Skip>>, k: nat, i: nat)
    requires Heights(hs) && LinksOk(nodes, hs, ts, links) && e + 1 < |hs|
    requires LinkedOut(hs, links, links', links[e + 1], Covers(hs, e), e + 1, |ts[e + 1]|, hs[0])
    requires e < k && k + 1 < |hs| && i < hs[k + 1]
    ensures LinkOk(Remove(nodes, e + 1), Remove(hs, e + 1), Remove(ts, e + 1), k, i, links'[k + 1][i])
  {
    assert LinkOk(nodes, hs, ts, k + 1, i, links[k + 1][i]);
    assert JoinedLink(links[k + 1][i], links'[k + 1][i], i < hs[0], k + 1 == Covers(hs, e)[i], i, links[e + 1],
                      |ts[e + 1]|);
    LinkBeyondRemove(nodes, hs, ts, e, k, i);
  }

  lemma LinksAfterRemove(nodes: seq<Node>, hs: seq<nat>, ts: seq<seq<Codepoint>>, links: seq<seq<Skip>>,
                         e: nat, links': seq<seq<Skip>>)
    requires Heights(hs) && LinksOk(nodes, hs, ts, links) && e + 1 < |hs|
    requires LinkedOut(hs, links, links', links[e + 1], Covers(hs, e), e + 1, |ts[e + 1]|, hs[0])
    ensures LinksOk(Remove(nodes, e + 1), Remove(hs, e + 1), Remove(ts, e + 1), Remove(links', e + 1))
  {
    var nodes2, hs2, ts2 := Remove(nodes, e + 1), Remove(hs, e + 1), Remove(ts, e + 1);
    var links2 := Remove(links', e + 1);
    forall k, i | 0 <= k < |hs2| && 0 <= i < hs2[k]
      ensures LinkOk(nodes2, hs2, ts2, k, i, links2[k][i])
    {
      if k <= e {
        RemoveBefore(nodes, hs, ts, links, e, links', k, i);
      } else {
        RemoveBeyond(nodes, hs, ts, links, e, links', k, i);
      }
    }
  }

  lemma LinksRemove(nodes: seq<Node>, m: nat)
    requires m < |nodes|
    ensures Links(Remove(nodes, m)) == Remove(Links(nodes), m)
  {
  }

  lemma FilledRemove(nodes: seq<Node>, hs: seq<nat>, ts: seq<seq<Codepoint>>, m: nat)
    requires |nodes| == |hs| == |ts| && m < |nodes| && Filled(nodes, hs, ts)
    ensures Filled(Remove(nodes, m), Remove(hs, m), Remove(ts, m))
  {
  }

  lemma RowRemove(nodes: seq<Node>, hs: seq<nat>, ts: seq<seq<Codepoint>>, m: nat)
    requires Row(nodes, hs, ts) && 0 < m < |nodes|
    ensures Row(Remove(nodes, m), Remove(hs, m), Remove(ts, m))
  {
    forall j, k | 0 <= j < k < |nodes| - 1 ensures Apart(Remove(nodes, m), j, k) {
      assert Apart(nodes, if j < m then j else j + 1, if k < m then k else k + 1);
    }
  }

  /** Taking out a node after x leaves the covers of x where they were. */
  lemma NamesCoverRemove(nodes: seq<Node>, hs: seq<nat>, x: nat, iter: seq<Skip>)
    requires Heights(hs) && x + 1 < |nodes| == |hs| && NamesCover(nodes, hs, x, iter)
    ensures NamesCover(Remove(nodes, x + 1), Remove(hs, x + 1), x, iter)
  {
    var hs' := Remove(hs, x + 1);
    InsertRemoved(hs, x + 1);
    forall i | 0 <= i < hs'[0]
      ensures iter[i].node == Remove(nodes, x + 1)[Cover(hs', x, i)]
    {
      CoverAfterInsert(hs', x, hs[x + 1], i);
    }
  }

  // ---- deleting ----

  ghost predicate Within(nodes: seq<Node>, row: seq<Node>) {
    forall k | 0 <= k < |nodes| :: nodes[k] in row
  }

  lemma WithinRemove(nodes: seq<Node>, row: seq<Node>, m: nat)
    requires Within(nodes, row) && m < |nodes|
    ensures Within(Remove(nodes, m), row)
  {
  }

  lemma WithinSelf(nodes: seq<Node>)
    ensures Within(nodes, nodes)
  {
  }

  /** A deletion stands at position pos: o characters into node x, or at the start of the node
      after it when that is the end of x. */
  ghost predicate DeletesAt(nodes: seq<Node>, ts: seq<seq<Codepoint>>, x: nat, o: nat, pos: nat, e: Node?, offset: nat)
  {
    && |nodes| == |ts| && x < |ts| && o <= |ts[x]| && Pos(ts, x) + o == pos
    && (x == 0 || o > 0)
    && ((e == nodes[x] && offset == o) || (e == NodeAt(nodes, x + 1) && offset == 0 && |ts[x]| == o))
  }

  /** ... where some text of node k is left to be deleted. */
  ghost predicate DeletesIn(nodes: seq<Node>, hs: seq<nat>, ts: seq<seq<Codepoint>>, x: nat, o: nat, pos: nat,
                            e: Node, offset: nat, k: nat, iter: seq<Skip>)
  {
    && |nodes| == |hs| == |ts| && x <= k < |ts| && e == nodes[k]
    && offset < |ts[k]| && Pos(ts, k) + offset == pos && Pos(ts, x) + o == pos
    && (x == 0 || o > 0)
    && ((k == x && offset == o) || (k == x + 1 && offset == 0 && |ts[x]| == o))
    && NamesAbove(nodes, hs, k, iter)
  }

  /** Where the deletion goes on when there is text left behind pos: in node x, or at the start of the next. */
  lemma PlaceOf(nodes: seq<Node>, hs: seq<nat>, ts: seq<seq<Codepoint>>, x: nat, o: nat, pos: nat,
                e: Node?, offset: nat, iter: seq<Skip>)
    requires Row(nodes, hs, ts) && DeletesAt(nodes, ts, x, o, pos, e, offset) && NamesCover(nodes, hs, x, iter)
    requires pos < Pos(ts, |ts|)
    ensures x < |nodes|
    ensures if o < |ts[x]| then
              e == nodes[x] && offset == o && DeletesIn(nodes, hs, ts, x, o, pos, nodes[x], o, x, iter)
            else x + 1 < |nodes| && DeletesIn(nodes, hs, ts, x, o, pos, nodes[x + 1], 0, x + 1, iter) &&
                 ((e == nodes[x] && offset == |ts[x]|) || (e == nodes[x + 1] && offset == 0 < |ts[x + 1]|))
  {
    hide Cover, Distinct;
    PosChange(ts, x, ts[x], x);
    if o == |ts[x]| { NamesAboveNext(nodes, hs, x, iter); }
  }

  /** A place behind all the bytes of a node is the start of the next. */
  lemma AtTheEnd(ts: seq<seq<Codepoint>>, x: nat, o: nat)
    requires x < |ts| && o <= |ts[x]| && |Bytes(ts[x][..o])| == |Bytes(ts[x])|
    ensures Pos(ts, x) + o == Pos(ts, x + 1)
    ensures x + 1 < |ts| ==> |Bytes(ts[x + 1][..0])| == 0
  {
    BytesSplit(ts[x], o);
  }

  lemma AtLevelZero(nodes: seq<Node>, hs: seq<nat>, x: nat, iter: seq<Skip>)
    requires Heights(hs) && x < |nodes| == |hs| && NamesCover(nodes, hs, x, iter)
    ensures |iter| > 0 && iter[0].node == nodes[x]
  {
    assert Cover(hs, x, 0) == x;
  }

  lemma FirstSkip(nodes: seq<Node>, hs: seq<nat>, ts: seq<seq<Codepoint>>, x: nat)
    requires Heights(hs) && LinksOk(nodes, hs, ts, Links(nodes)) && x < |nodes|
    ensures |nodes[x].nexts| > 0 && nodes[x].nexts[0] == Skip(NodeAt(nodes, x + 1), |ts[x]|)
  {
    FirstLink(nodes, hs, ts, Links(nodes), x);
  }

  lemma NamesAboveNext(nodes: seq<Node>, hs: seq<nat>, x: nat, iter: seq<Skip>)
    requires Heights(hs) && x + 1 < |nodes| == |hs| && NamesCover(nodes, hs, x, iter)
    ensures NamesAbove(nodes, hs, x + 1, iter)
  {
  }

  /** A deletion starts where the iterator has come to. */
  lemma StartOfCut(nodes: seq<Node>, hs: seq<nat>, ts: seq<seq<Codepoint>>, x: nat, at: nat, e: Node,
                   iter: seq<Skip>)
    requires Row(nodes, hs, ts) && x < |nodes| && e == nodes[x] && Pos(ts, x) <= at <= Pos(ts, x) + |ts[x]|
    requires x == 0 || at > Pos(ts, x)
    requires IterOk(nodes, hs, ts, x, at, iter)
    ensures hs[0] <= |iter| && iter[0].skipSize == at - Pos(ts, x)
    ensures DeletesAt(nodes, ts, x, at - Pos(ts, x), at, e, at - Pos(ts, x)) && NamesCover(nodes, hs, x, iter)
  {
    assert Cover(hs, x, 0) == x;
    assert IterAt(nodes, ts, Cover(hs, x, 0), at, iter[0]);
    IterAtCut(nodes, hs, ts, x, at - Pos(ts, x), iter);
  }

  /** The text with n characters taken out at pos. */
  function CutOut(text: seq<Codepoint>, pos: nat, n: nat): seq<Codepoint>
    requires pos + n <= |text|
  {
    text[..pos] + text[pos + n..]
  }

  /** ts' is ts without the n characters at pos, and the byte count went along. */
  ghost predicate Shrunk(ts: seq<seq<Codepoint>>, ts': seq<seq<Codepoint>>, bytes: int, bytes': int, pos: nat, n: nat) {
    && pos + n <= |Flat(ts)|
    && Flat(ts') == CutOut(Flat(ts), pos, n)
    && bytes' - bytes == |Bytes(Flat(ts'))| - |Bytes(Flat(ts))|
  }

  lemma ShrunkMore(ts: seq<seq<Codepoint>>, ts': seq<seq<Codepoint>>, ts2: seq<seq<Codepoint>>,
                   b: int, b': int, b2: int, pos: nat, m: nat, n: nat)
    requires Shrunk(ts, ts', b, b', pos, m) && Shrunk(ts', ts2, b', b2, pos, n)
    ensures Shrunk(ts, ts2, b, b2, pos, m + n)
  {
    var text := Flat(ts);
    assert CutOut(CutOut(text, pos, m), pos, n) == CutOut(text, pos, m + n);
  }

  lemma ShrunkNone(ts: seq<seq<Codepoint>>, b: int, pos: nat)
    requires pos <= |Flat(ts)|
    ensures Shrunk(ts, ts, b, b, pos, 0)
  {
  }

  lemma ShrunkBy(ts: seq<seq<Codepoint>>, ts': seq<seq<Codepoint>>, pos: nat, cut: seq<Codepoint>, b: int)
    requires pos + |cut| <= |Flat(ts)| && Flat(ts)[pos..pos + |cut|] == cut
    requires Flat(ts') == CutOut(Flat(ts), pos, |cut|)
    ensures Shrunk(ts, ts', b, b - |Bytes(cut)|, pos, |cut|)
  {
    var text := Flat(ts);
    assert text == text[..pos] + cut + text[pos + |cut|..];
    BytesInsert(text[..pos], cut, text[pos + |cut|..]);
  }

  lemma CutMiddle(h: seq<Codepoint>, t: seq<Codepoint>, r: seq<Codepoint>)
    ensures CutOut(h + t + r, |h|, |t|) == h + r
    ensures (h + t + r)[|h|..|h| + |t|] == t
  {
  }

  lemma CutInside(h: seq<Codepoint>, a: seq<Codepoint>, cut: seq<Codepoint>, c: seq<Codepoint>, r: seq<Codepoint>,
                  t: seq<Codepoint>)
    requires t == a + cut + c
    ensures |h + a| + |cut| <= |h + t + r|
    ensures CutOut(h + t + r, |h + a|, |cut|) == h + (a + c) + r
    ensures (h + t + r)[|h + a|..|h + a| + |cut|] == cut
  {
    assert h + t + r == (h + a) + cut + (c + r);
    CutMiddle(h + a, cut, c + r);
  }

  /** Trimming node k's text cuts the row's text, and moves no node up to k. */
  lemma TrimShrinks(ts: seq<seq<Codepoint>>, k: nat, o: nat, n: nat, b: int)
    requires k < |ts| && o + n <= |ts[k]|
    ensures var ts' := ts[k := ts[k][..o] + ts[k][o + n..]];
            Shrunk(ts, ts', b, b - |Bytes(ts[k][o..o + n])|, Pos(ts, k) + o, n)
  {
    hide Flat, Bytes, Pos, CutOut, Shrunk;
    var a, cut, c := ts[k][..o], ts[k][o..o + n], ts[k][o + n..];
    var h, r := Flat(ts[..k]), Flat(ts[k + 1..]);
    FlatAt(ts, k);
    FlatRetext(ts, k, a + c);
    PosIsLength(ts, k);
    assert ts[k] == a + cut + c;
    CutInside(h, a, cut, c, r, ts[k]);
    ShrunkBy(ts, ts[k := a + c], |h + a|, cut, b);
  }

  lemma FlatRetext(ts: seq<seq<Codepoint>>, k: nat, t: seq<Codepoint>)
    requires k < |ts|
    ensures Flat(ts[k := t]) == Flat(ts[..k]) + t + Flat(ts[k + 1..])
  {
    hide Flat;
    var ts' := ts[k := t];
    FlatAt(ts', k);
    assert ts'[..k] == ts[..k] && ts'[k + 1..] == ts[k + 1..];
  }

  lemma RemoveParts<T>(s: seq<T>, k: nat)
    requires k < |s|
    ensures Remove(s, k) == s[..k] + s[k + 1..]
  {
  }

  /** Taking node k out cuts its text from the row's. */
  lemma RemoveShrinks(ts: seq<seq<Codepoint>>, k: nat, b: int)
    requires k < |ts|
    ensures Shrunk(ts, Remove(ts, k), b, b - |Bytes(ts[k])|, Pos(ts, k), |ts[k]|)
  {
    var h, t, r := Flat(ts[..k]), ts[k], Flat(ts[k + 1..]);
    RemoveParts(ts, k);
    FlatAppend(ts[..k], ts[k + 1..]);
    FlatAt(ts, k);
    PosIsLength(ts, k);
    CutMiddle(h, t, r);
    ShrunkBy(ts, Remove(ts, k), |h|, t, b);
  }

  /** A deletion that trims a node stays where it is. */
  lemma TrimStays(nodes: seq<Node>, hs: seq<nat>, ts: seq<seq<Codepoint>>, x: nat, o: nat, pos: nat,
                  e: Node, offset: nat, k: nat, iter: seq<Skip>, n: nat)
    requires DeletesIn(nodes, hs, ts, x, o, pos, e, offset, k, iter)
    requires offset + n <= |ts[k]|
    ensures DeletesAt(nodes, ts[k := ts[k][..offset] + ts[k][offset + n..]], x, o, pos, e, offset)
  {
    PosChange(ts, k, ts[k][..offset] + ts[k][offset + n..], x);
  }

  /** A deletion that takes out the node after x goes on with the next. */
  lemma RemoveStays(nodes: seq<Node>, hs: seq<nat>, ts: seq<seq<Codepoint>>, x: nat, o: nat, pos: nat,
                    e: Node, iter: seq<Skip>)
    requires DeletesIn(nodes, hs, ts, x, o, pos, e, 0, x + 1, iter)
    ensures DeletesAt(Remove(nodes, x + 1), Remove(ts, x + 1), x, o, pos, NodeAt(nodes, x + 2), 0)
  {
    PlaceAfterRemove(nodes, ts, x);
  }

  /** Taking out the node after x moves nothing up to x. */
  lemma PlaceAfterRemove(nodes: seq<Node>, ts: seq<seq<Codepoint>>, x: nat)
    requires x + 1 < |nodes| == |ts|
    ensures Pos(Remove(ts, x + 1), x) == Pos(ts, x)
    ensures NodeAt(Remove(nodes, x + 1), x + 1) == NodeAt(nodes, x + 2)
  {
    InsertRemoved(ts, x + 1);
    PosInsert(Remove(ts, x + 1), x + 1, ts[x + 1], x);
  }

  /** While there is text after the position, the deletion stands on a node. */
  lemma MoreToDelete(nodes: seq<Node>, ts: seq<seq<Codepoint>>, x: nat, o: nat, pos: nat, e: Node?, offset: nat, n: nat)
    requires DeletesAt(nodes, ts, x, o, pos, e, offset) && 0 < n && pos + n <= |Flat(ts)|
    ensures e != null && pos < Pos(ts, |ts|)
  {
    PosIsLength(ts, |ts|);
    assert ts[..|ts|] == ts;
  }
}
