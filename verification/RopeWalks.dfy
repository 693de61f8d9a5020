/** Copying a rope, writing it out, and checking it: the operations that walk the whole row. */
module RopeWalks {
  import opened Basics
  import opened RopeText
  import opened SkipLevels
  import opened RopeNode
  import opened Ropes

  // ---- rope_copy ----

  /** A link of the copy: it already leads to the copy of its target when that is before m, or is m
      itself on a level done; till then it still leads to the original. */
  ghost predicate CopiedLink(sk: Skip, sk': Skip, nodes': seq<Node>, j: nat, m: nat, done: bool) {
    && sk'.skipSize == sk.skipSize
    && sk'.node == if j < m || (j == m && done) then NodeAt(nodes', j) else sk.node
  }

  ghost predicate Copied(hs: seq<nat>, links: seq<seq<Skip>>, nodes': seq<Node>, links': seq<seq<Skip>>,
                         m: nat, hi: nat)
  {
    && |links| == |hs| >= |nodes'| == |links'|
    && (forall k | 0 <= k < |nodes'| :: |links'[k]| == hs[k] == |links[k]|)
    && (forall k, i | 0 <= k < |nodes'| && 0 <= i < hs[k] ::
          CopiedLink(links[k][i], links'[k][i], nodes', Target(hs, k, i), m, i < hi))
  }

  lemma CopyOneLink(hs: seq<nat>, links: seq<seq<Skip>>, nodes': seq<Node>, links': seq<seq<Skip>>, m: nat, i: nat)
    requires Heights(hs) && 0 < m && |nodes'| == m + 1 <= |hs| && i < hs[m]
    requires Copied(hs, links, nodes', links', m, i)
    ensures var c := Cover(hs, m - 1, i);
            && i < |links'[c]|
            && Copied(hs, links, nodes', links'[c := links'[c][i := Skip(nodes'[m], links'[c][i].skipSize)]], m, i + 1)
  {
    var c := Cover(hs, m - 1, i);
    var after: seq<seq<Skip>> := links'[c := links'[c][i := Skip(nodes'[m], links'[c][i].skipSize)]];
    forall k, j | 0 <= k < |nodes'| && 0 <= j < hs[k]
      ensures CopiedLink(links[k][j], after[k][j], nodes', Target(hs, k, j), m, j < i + 1)
    {
      assert CopiedLink(links[k][j], links'[k][j], nodes', Target(hs, k, j), m, j < i);
      if k < m {
        OverIsCover(hs, m - 1, k, j);
        if j == i && k == c { NextIs(hs, k + 1, i, m) by { NextSkips(hs, k + 1, i); } }
      }
    }
  }

  /** The names of the last copies on each level, once node m has been put in on the levels below hi. */
  ghost predicate LastCopies(hs: seq<nat>, copies: seq<Node>, m: nat, hi: nat, last: seq<Node>)
    requires 0 < m < |copies| <= |hs|
  {
    && hs[0] <= |last|
    && forall i | 0 <= i < hs[0] :: last[i] == copies[if i < hi then m else Cover(hs, m - 1, i)]
  }

  lemma OneMoreCopied(hs: seq<nat>, links: seq<seq<Skip>>, copies: seq<Node>, links': seq<seq<Skip>>, m: nat)
    requires 0 < m && |copies| == m + 1 <= |hs| && Copied(hs, links, copies, links', m, hs[m])
    ensures Copied(hs, links, copies, links', m + 1, 0)
  {
    forall k, i | 0 <= k < |copies| && 0 <= i < hs[k]
      ensures CopiedLink(links[k][i], links'[k][i], copies, Target(hs, k, i), m + 1, false)
    {
      assert CopiedLink(links[k][i], links'[k][i], copies, Target(hs, k, i), m, i < hs[m]);
    }
  }

  /** ... on one more level. */
  lemma LastOneMore(hs: seq<nat>, copies: seq<Node>, m: nat, i: nat, last: seq<Node>)
    requires 0 < m < |copies| <= |hs| && LastCopies(hs, copies, m, i, last) && i < hs[0]
    ensures i < |last| && last[i] == copies[Cover(hs, m - 1, i)]
    ensures LastCopies(hs, copies, m, i + 1, last[i := copies[m]])
  {
  }

  /** One turn of the inner loop of rope_copy. */
  method PointLevel(node: Node, last: array<Node>, i: nat, ghost hs: seq<nat>, ghost links: seq<seq<Skip>>,
                    ghost copies: seq<Node>, ghost m: nat)
    requires Heights(hs) && Distinct(copies) && 0 < m && |copies| == m + 1 <= |hs| && i < hs[m]
    requires copies[m] == node && node.height == hs[m]
    requires Copied(hs, links, copies, Links(copies), m, i) && LastCopies(hs, copies, m, i, last[..])
    modifies copies`nexts, last
    ensures Copied(hs, links, copies, Links(copies), m, i + 1)
    ensures LastCopies(hs, copies, m, i + 1, last[..])
  {
    hide Copied, Distinct, LastCopies, Links;
    ghost var c := Cover(hs, m - 1, i);
    CopyOneLink(hs, links, copies, Links(copies), m, i);
    LastOneMore(hs, copies, m, i, last[..]);
    LinksOf(copies, c);
    assert last[..][i] == last[i];
    SetLink(last[i], i, Skip(node, last[i].nexts[i].skipSize), copies, c);
    last[i] := node;
  }

  /** The inner loop of rope_copy: the copies that reach the new one's levels now lead to it. */
  method PointTo(node: Node, last: array<Node>, ghost hs: seq<nat>, ghost links: seq<seq<Skip>>,
                 ghost copies: seq<Node>, ghost m: nat)
    requires Heights(hs) && Distinct(copies) && 0 < m && |copies| == m + 1 <= |hs|
    requires copies[m] == node && node.height == hs[m]
    requires Copied(hs, links, copies, Links(copies), m, 0) && LastCopies(hs, copies, m, 0, last[..])
    modifies copies`nexts, last
    ensures Copied(hs, links, copies, Links(copies), m + 1, 0)
    ensures LastCopies(hs, copies, m, hs[m], last[..])
  {
    hide Copied, Distinct, Cover, Links, LastCopies;
    for i := 0 to node.height
      invariant Copied(hs, links, copies, Links(copies), m, i)
      invariant LastCopies(hs, copies, m, i, last[..])
    {
      PointLevel(node, last, i, hs, links, copies, m);
    }
    OneMoreCopied(hs, links, copies, Links(copies), m);
  }

  lemma CopiesJoined(hs: seq<nat>, copies: seq<Node>, m: nat, last: seq<Node>)
    requires 0 < m && |copies| == m + 1 <= |hs| && LastCopies(hs, copies, m, hs[m], last)
    ensures hs[0] <= |last| && forall i | 0 <= i < hs[0] :: last[i] == copies[Cover(hs, m, i)]
  {
  }

  /** A copy of a node, still linked as the original is. */
  method CopyNode(n: Node, ghost t: seq<Codepoint>) returns (node: Node)
    requires n.Holds(t)
    ensures fresh(node) && fresh(node.str) && node.Holds(t)
    ensures node.height == n.height && node.nexts == n.nexts
  {
    node := NewNode(n.height, n.str[..n.numBytes], t);
    node.nexts := n.nexts;
  }

  /** The copies of the nodes before m. */
  ghost predicate CopyRow(copies: seq<Node>, hs: seq<nat>, ts: seq<seq<Codepoint>>, m: nat)
    reads copies, set n | n in copies :: n.str
  {
    && |copies| == m <= |hs| == |ts|
    && Distinct(copies)
    && Filled(copies, hs[..m], ts[..m])
  }

  /** All copied, the copies are linked as the originals are. */
  lemma CopiedAll(nodes: seq<Node>, hs: seq<nat>, ts: seq<seq<Codepoint>>, links: seq<seq<Skip>>,
                  copies: seq<Node>, links': seq<seq<Skip>>)
    requires LinksOk(nodes, hs, ts, links) && |copies| == |hs|
    requires Copied(hs, links, copies, links', |hs|, 0)
    ensures LinksOk(copies, hs, ts, links')
  {
    forall k, i | 0 <= k < |hs| && 0 <= i < hs[k] ensures LinkOk(copies, hs, ts, k, i, links'[k][i]) {
      assert LinkOk(nodes, hs, ts, k, i, links[k][i]);
      assert CopiedLink(links[k][i], links'[k][i], copies, Target(hs, k, i), |hs|, false);
    }
  }

  /** The state of rope_copy's loop, with the nodes before m copied. */
  ghost predicate Copying(links: seq<seq<Skip>>, hs: seq<nat>, ts: seq<seq<Codepoint>>, copies: seq<Node>, m: nat,
                          last: seq<Node>)
    reads copies, set n | n in copies :: n.str
  {
    && Heights(hs) && 0 < m
    && CopyRow(copies, hs, ts, m)
    && Copied(hs, links, copies, Links(copies), m, 0)
    && hs[0] <= |last| && forall i | 0 <= i < hs[0] :: last[i] == copies[Cover(hs, m - 1, i)]
  }

  lemma CopyRowMore(copies: seq<Node>, hs: seq<nat>, ts: seq<seq<Codepoint>>, m: nat, node: Node)
    requires CopyRow(copies, hs, ts, m) && m < |hs|
    requires node.height == hs[m] && node.Holds(ts[m])
    requires node !in copies && forall n | n in copies :: n.str != node.str
    ensures CopyRow(copies + [node], hs, ts, m + 1)
  {
    forall j, k | 0 <= j < k <= m ensures Apart(copies + [node], j, k) {
      assert k < m ==> Apart(copies, j, k);
    }
  }

  /** A copy put in, not yet led to. */
  lemma CopiedOneMore(hs: seq<nat>, links: seq<seq<Skip>>, copies: seq<Node>, links': seq<seq<Skip>>, m: nat,
                      node: Node)
    requires Copied(hs, links, copies, links', m, 0) && |copies| == m < |hs| && |links[m]| == hs[m]
    ensures Copied(hs, links, copies + [node], links' + [links[m]], m, 0)
  {
    forall k, i | 0 <= k <= m && 0 <= i < hs[k]
      ensures CopiedLink(links[k][i], (links' + [links[m]])[k][i], copies + [node], Target(hs, k, i), m, false)
    {
      assert k < m ==> CopiedLink(links[k][i], links'[k][i], copies, Target(hs, k, i), m, false);
    }
  }

  /** Linking disturbs no copy's text. */
  method LeadTo(node: Node, last: array<Node>, ghost links: seq<seq<Skip>>, ghost hs: seq<nat>,
                ghost ts: seq<seq<Codepoint>>, ghost copies: seq<Node>, ghost m: nat)
    requires Heights(hs) && 0 < m < |hs| && CopyRow(copies, hs, ts, m + 1)
    requires copies[m] == node && node.height == hs[m]
    requires Copied(hs, links, copies, Links(copies), m, 0) && LastCopies(hs, copies, m, 0, last[..])
    modifies copies`nexts, last
    ensures Copying(links, hs, ts, copies, m + 1, last[..])
  {
    hide Copied, Distinct, Links, LastCopies, Cover;
    PointTo(node, last, hs, links, copies, m);
    CopiesJoined(hs, copies, m, last[..]);
  }

  /** One turn of rope_copy's outer loop. */
  method CopyTurn(n: Node, last: array<Node>, ghost links: seq<seq<Skip>>, ghost hs: seq<nat>,
                  ghost ts: seq<seq<Codepoint>>, ghost copies: seq<Node>, ghost m: nat)
    returns (ghost node: Node)
    requires Copying(links, hs, ts, copies, m, last[..]) && m < |hs|
    requires n.Holds(ts[m]) && n.height == hs[m] && links[m] == n.nexts && |n.nexts| == hs[m]
    modifies copies`nexts, last
    ensures fresh(node) && fresh(node.str)
    ensures Copying(links, hs, ts, copies + [node], m + 1, last[..])
  {
    hide Distinct, CopiedLink;
    var n2 := CopyNode(n, ts[m]);
    node := n2;
    ghost var before := Links(copies);
    CopyRowMore(copies, hs, ts, m, n2);
    CopiedOneMore(hs, links, copies, before, m, n2);
    assert Links(copies + [n2]) == before + [links[m]];
    LeadTo(n2, last, links, hs, ts, copies + [n2], m);
  }

  /** The head's copy: the whole buffer goes along. */
  method CopyHead(head: Node, copy: Node, ghost t: seq<Codepoint>)
    requires head.Holds(t) && copy.str.Length == NODE_STR_SIZE && copy != head && copy.str != head.str
    modifies copy, copy.str
    ensures copy.Holds(t) && copy.height == head.height && copy.nexts == head.nexts
  {
    CopyIn(copy.str, 0, head.str[..]);
    assert copy.str[..] == head.str[..];
    copy.numBytes, copy.height, copy.nexts := head.numBytes, head.height, head.nexts;
    assert copy.str[..copy.numBytes] == copy.str[..][..copy.numBytes];
  }

  /** Before the loop only the head has its copy. */
  lemma CopyingStarts(links: seq<seq<Skip>>, hs: seq<nat>, ts: seq<seq<Codepoint>>, head: Node, last: seq<Node>)
    requires Heights(hs) && |links| == |hs| == |ts| && hs[0] <= |last| && forall i | 0 <= i < hs[0] :: last[i] == head
    requires head.Holds(ts[0]) && head.height == hs[0] && head.nexts == links[0] && |links[0]| == hs[0]
    ensures Copying(links, hs, ts, [head], 1, last)
  {
  }

  /** The outer loop of rope_copy. */
  method CopyRest(other: Rope, copy: Node, last: array<Node>) returns (ghost copies: seq<Node>)
    requires other.Shape() && copy !in other.nodes && forall n | n in other.nodes :: n.str != copy.str
    requires Copying(Links(other.nodes), other.hs, other.ts, [copy], 1, last[..])
    modifies copy`nexts, last
    ensures |copies| > 0 && copies[0] == copy && forall n | n in copies :: n == copy || (fresh(n) && fresh(n.str))
    ensures Copying(Links(other.nodes), other.hs, other.ts, copies, |other.hs|, last[..])
  {
    hide LinksOk, Distinct, Flat, Bytes, Pos, Copying;
    ghost var links, hs, ts, m := Links(other.nodes), other.hs, other.ts, 1;
    copies := [copy];
    FirstLink(other.nodes, hs, ts, links, 0);
    var n := other.head.nexts[0].node;
    while n != null
      invariant 1 <= m <= |hs| && n == NodeAt(other.nodes, m)
      invariant Copying(links, hs, ts, copies, m, last[..])
      invariant |copies| > 0 && copies[0] == copy && forall n | n in copies :: n == copy || (fresh(n) && fresh(n.str))
      invariant Links(other.nodes) == links && other.Shape()
      decreases |hs| - m
    {
      FilledAt(other.nodes, hs, ts, m);
      FirstLink(other.nodes, hs, ts, links, m);
      assert forall k | 0 <= k < |copies| :: copies[k] in copies;
      ghost var node := CopyTurn(n, last, links, hs, ts, copies, m);
      n := n.nexts[0].node;
      copies := copies + [node];
      m := m + 1;
    }
  }

  /** The copies make up a rope. */
  lemma CopyShape(nodes: seq<Node>, hs: seq<nat>, ts: seq<seq<Codepoint>>, copies: seq<Node>, last: seq<Node>)
    requires Row(nodes, hs, ts) && LinksOk(nodes, hs, ts, Links(nodes))
    requires Copying(Links(nodes), hs, ts, copies, |hs|, last)
    ensures Row(copies, hs, ts) && LinksOk(copies, hs, ts, Links(copies)) && Filled(copies, hs, ts)
  {
    CopiedAll(nodes, hs, ts, Links(nodes), copies, Links(copies));
    assert hs[..|hs|] == hs && ts[..|hs|] == ts;
  }

  /** The rope takes the copies as its row. */
  method Adopt(r: Rope, n: nat, bytes: nat, ghost copies: seq<Node>, ghost hs: seq<nat>,
               ghost ts: seq<seq<Codepoint>>)
    requires Row(copies, hs, ts) && LinksOk(copies, hs, ts, Links(copies)) && Filled(copies, hs, ts)
    requires copies[0] == r.head && n == Pos(ts, |ts|) && bytes == |Bytes(Flat(ts))|
    modifies r
    ensures r.Valid() && r.nodes == copies && r.hs == hs && r.ts == ts
  {
    hide LinksOk, Flat, Bytes, Pos, Links;
    FilledAt(copies, hs, ts, 0);
    r.numChars, r.numBytes := n, bytes;
    r.nodes, r.hs, r.ts := copies, hs, ts;
  }

  /** The copy's own head, filled from the original's. */
  method CopyStart(other: Rope) returns (r: Rope)
    requires other.Valid()
    ensures fresh(r) && fresh(r.head) && fresh(r.head.str)
    ensures |other.hs| == |other.ts| == |other.nodes| > 0 && |Links(other.nodes)[0]| == other.hs[0] == r.head.height
    ensures r.head.Holds(other.ts[0]) && r.head.nexts == Links(other.nodes)[0]
  {
    hide LinksOk, Distinct, Flat, Bytes, Pos, Links;
    r := new Rope();
    FilledAt(other.nodes, other.hs, other.ts, 0);
    FirstLink(other.nodes, other.hs, other.ts, Links(other.nodes), 0);
    CopyHead(other.head, r.head, other.ts[0]);
  }

  /** rope_copy: a rope of its own nodes, with the same text and linked the same way. */
  method Copy(other: Rope) returns (r: Rope)
    requires other.Valid()
    ensures fresh(r) && r.Valid() && r.Contents() == other.Contents()
    ensures forall n | n in r.nodes :: fresh(n) && fresh(n.str)
    ensures r.hs == other.hs && r.ts == other.ts
  {
    hide LinksOk, Distinct, Flat, Bytes, Pos, Copied, Copying, Links, Filled;
    r := CopyStart(other);
    var last := new Node[MAX_HEIGHT](_ => r.head);
    CopyingStarts(Links(other.nodes), other.hs, other.ts, r.head, last[..]);
    ghost var copies := CopyRest(other, r.head, last);
    CopyShape(other.nodes, other.hs, other.ts, copies, last[..]);
    assert forall n | n in copies :: n == r.head || fresh(n);
    Adopt(r, other.numChars, other.numBytes, copies, other.hs, other.ts);
  }

  // ---- rope_write_cstr ----

  lemma NoText()
    ensures Bytes(Flat<Codepoint>([])) == []
  {
  }

  /** The bytes of the nodes before k, and those of node k behind them. */
  lemma BytesBefore(ts: seq<seq<Codepoint>>, k: nat)
    requires k < |ts|
    ensures Bytes(Flat(ts[..k + 1])) == Bytes(Flat(ts[..k])) + Bytes(ts[k])
    ensures |Bytes(Flat(ts[..k + 1]))| <= |Bytes(Flat(ts))|
  {
    assert ts[..k + 1] == ts[..k] + [ts[k]];
    FlatAppend(ts[..k], [ts[k]]);
    FlatOne(ts[k]);
    BytesAppend(Flat(ts[..k]), ts[k]);
    assert ts == ts[..k + 1] + ts[k + 1..];
    FlatAppend(ts[..k + 1], ts[k + 1..]);
    BytesAppend(Flat(ts[..k + 1]), Flat(ts[k + 1..]));
  }

  /** rope_write_cstr: the whole text and a zero byte, and nothing behind it. */
  method WriteCstr(r: Rope, dest: array<byte>) returns (n: nat)
    requires r.Valid() && r.numBytes < dest.Length && forall e | e in r.nodes :: e.str != dest
    modifies dest
    ensures n == r.numBytes + 1 && dest[..] == Bytes(r.Contents()) + [0] + old(dest[..])[n..]
    ensures Decode(CString(dest[..])) == Some(r.Contents())
  {
    hide LinksOk, Distinct, Flat, Bytes, Pos, Links, Heights, Filled, CString, Decode;
    ghost var was, text := dest[..], Bytes(r.Contents());
    dest[r.numBytes] := 0;
    ghost var zeroed := dest[..];
    if r.numBytes > 0 {
      WriteNodes(r, dest);
    }
    n := r.numBytes + 1;
    Terminated(was, zeroed, dest[..], text);
    ReadBack(r.Contents(), was[n..]);
  }

  lemma Terminated(was: seq<byte>, zeroed: seq<byte>, now: seq<byte>, text: seq<byte>)
    requires |text| < |was| == |now| && zeroed == was[|text| := 0]
    requires now[|text|..] == zeroed[|text|..] && now[..|text|] == text
    ensures now == text + [0] + was[|text| + 1..]
  {
    assert zeroed[|text|..] == [0] + was[|text| + 1..];
    assert now == now[..|text|] + now[|text|..];
  }

  method WriteNodes(r: Rope, dest: array<byte>)
    requires r.Valid() && r.numBytes < dest.Length && forall e | e in r.nodes :: e.str != dest
    modifies dest
    ensures dest[..r.numBytes] == Bytes(r.Contents())
    ensures dest[..][r.numBytes..] == old(dest[..])[r.numBytes..]
  {
    hide LinksOk, Distinct, Flat, Bytes, Pos, Links;
    var p := 0;
    ghost var k := 0;
    var e: Node? := r.head;
    assert r.ts[..0] == [] && Bytes(Flat<Codepoint>([])) == [] by { NoText(); }
    while e != null
      invariant k <= |r.nodes| && e == NodeAt(r.nodes, k) && r.Valid()
      invariant p == |Bytes(Flat(r.ts[..k]))| <= r.numBytes
      invariant dest[..p] == Bytes(Flat(r.ts[..k]))
      invariant dest[..][r.numBytes..] == old(dest[..])[r.numBytes..]
      decreases |r.nodes| - k
    {
      FilledAt(r.nodes, r.hs, r.ts, k);
      FirstLink(r.nodes, r.hs, r.ts, Links(r.nodes), k);
      BytesBefore(r.ts, k);
      CopyIn(dest, p, e.str[..e.numBytes]);
      p := p + e.numBytes;
      e := e.nexts[0].node;
      k := k + 1;
    }
    assert r.ts[..k] == r.ts;
  }

  // ---- _rope_check ----

  /** A row of nodes whose first links lead from one to the next, and pass over no more than there is. What the
      other links do is open. */
  ghost predicate FirstRow(nodes: seq<Node>, hs: seq<nat>, ts: seq<seq<Codepoint>>, links: seq<seq<Skip>>) {
    && 0 < |nodes| == |hs| == |ts| == |links| && Distinct(nodes) && hs[0] <= MAX_HEIGHT
    && forall k | 0 <= k < |hs| ::
         1 <= hs[k] == |links[k]| && links[k][0].node == NodeAt(nodes, k + 1) && links[k][0].skipSize <= |ts[k]|
  }

  /** What the check takes for granted: nodes in such a row, with texts that decode. */
  ghost predicate Strung(r: Rope)
    reads r, r.nodes, set n | n in r.nodes :: n.str
  {
    FirstRow(r.nodes, r.hs, r.ts, Links(r.nodes)) && r.nodes[0] == r.head && Filled(r.nodes, r.hs, r.ts)
  }

  lemma FirstRowAt(nodes: seq<Node>, hs: seq<nat>, ts: seq<seq<Codepoint>>, k: nat)
    requires FirstRow(nodes, hs, ts, Links(nodes)) && k < |hs|
    ensures 1 <= hs[k] == |nodes[k].nexts| && nodes[k].nexts[0].node == NodeAt(nodes, k + 1)
    ensures nodes[k].nexts[0].skipSize <= |ts[k]|
    ensures nodes[k] == nodes[0] <==> k == 0
  {
    LinksOf(nodes, k);
    OthersApart(nodes, 0);
  }

  /** What the walk holds for level i before node k: where its last link there leads, and how far all have led. */
  ghost function Walked(hs: seq<nat>, links: seq<seq<Skip>>, head: Node, k: nat, i: nat): Skip
    requires k <= |hs| == |links| && forall j | 0 <= j < |hs| :: hs[j] == |links[j]|
  {
    if k == 0 then if |hs| > 0 && i < hs[0] then Skip(head, 0) else Skip(null, 0)
    else
      var at := Walked(hs, links, head, k - 1, i);
      if i < hs[k - 1] then Skip(links[k - 1][i].node, at.skipSize + links[k - 1][i].skipSize) else at
  }

  /** The walk has come to node k on all its levels, and finds nothing wrong there. */
  ghost predicate Passes(nodes: seq<Node>, hs: seq<nat>, ts: seq<seq<Codepoint>>, links: seq<seq<Skip>>, k: nat)
    requires FirstRow(nodes, hs, ts, links) && k < |hs|
  {
    && hs[k] <= MAX_HEIGHT && (k > 0 ==> |ts[k]| > 0) && links[k][0].skipSize == |ts[k]|
    && forall i | 0 <= i < hs[k] :: Walked(hs, links, nodes[0], k, i) == Skip(nodes[k], Pos(ts, k))
  }

  ghost predicate AllPass(nodes: seq<Node>, hs: seq<nat>, ts: seq<seq<Codepoint>>, links: seq<seq<Skip>>, k: nat)
    requires FirstRow(nodes, hs, ts, links) && k <= |hs|
  {
    forall j | 0 <= j < k :: Passes(nodes, hs, ts, links, j)
  }

  lemma OneMorePasses(nodes: seq<Node>, hs: seq<nat>, ts: seq<seq<Codepoint>>, links: seq<seq<Skip>>, k: nat)
    requires FirstRow(nodes, hs, ts, links) && k < |hs| && AllPass(nodes, hs, ts, links, k)
    ensures AllPass(nodes, hs, ts, links, k + 1) <==> Passes(nodes, hs, ts, links, k)
    ensures !Passes(nodes, hs, ts, links, k) ==> !AllPass(nodes, hs, ts, links, |hs|)
  {
    hide Passes;
  }

  ghost predicate Ends(nodes: seq<Node>, hs: seq<nat>, ts: seq<seq<Codepoint>>, links: seq<seq<Skip>>)
    requires FirstRow(nodes, hs, ts, links)
  {
    forall i | 0 <= i < hs[0] :: Walked(hs, links, nodes[0], |hs|, i) == Skip(null, Pos(ts, |ts|))
  }

  /** All that the check looks at in the nodes. */
  ghost predicate Sane(nodes: seq<Node>, hs: seq<nat>, ts: seq<seq<Codepoint>>, links: seq<seq<Skip>>)
    requires FirstRow(nodes, hs, ts, links)
  {
    && links[0][hs[0] - 1] == Skip(null, Pos(ts, |ts|))
    && AllPass(nodes, hs, ts, links, |hs|) && Ends(nodes, hs, ts, links)
  }

  /** Where no node reaches the level the walk holds on to what it has. */
  lemma {:induction false} WalkKeeps(hs: seq<nat>, links: seq<seq<Skip>>, head: Node, k: nat, j: nat, i: nat)
    requires k <= j <= |hs| == |links| && forall m | 0 <= m < |hs| :: hs[m] == |links[m]|
    requires forall m | k <= m < j :: hs[m] <= i
    ensures Walked(hs, links, head, j, i) == Walked(hs, links, head, k, i)
    decreases j - k
  {
    if k < j { WalkKeeps(hs, links, head, k, j - 1, i); }
  }

  /** What the walk holds of node k's link when it comes to the link's target. */
  lemma WalkTo(nodes: seq<Node>, hs: seq<nat>, ts: seq<seq<Codepoint>>, links: seq<seq<Skip>>, k: nat, i: nat)
    requires FirstRow(nodes, hs, ts, links) && k < |hs| && i < hs[k] && Passes(nodes, hs, ts, links, k)
    ensures Walked(hs, links, nodes[0], Target(hs, k, i), i) ==
            Skip(links[k][i].node, Pos(ts, k) + links[k][i].skipSize)
  {
    hide Pos;
    NextSkips(hs, k + 1, i);
    WalkKeeps(hs, links, nodes[0], k + 1, Target(hs, k, i), i);
  }

  /** No node is as tall as the head. */
  lemma SaneHeights(nodes: seq<Node>, hs: seq<nat>, ts: seq<seq<Codepoint>>, links: seq<seq<Skip>>)
    requires FirstRow(nodes, hs, ts, links) && Sane(nodes, hs, ts, links)
    ensures Heights(hs)
  {
    hide Passes, Ends, Pos, Walked, Distinct;
    var i := hs[0] - 1;
    var t := Target(hs, 0, i);
    WalkTo(nodes, hs, ts, links, 0, i);
    if t < |hs| {
      assert Passes(nodes, hs, ts, links, t);
      ReachedAt(nodes, hs, ts, links, t, i);
      assert false;
    }
    NextSkips(hs, 1, i);
  }

  lemma ReachedAt(nodes: seq<Node>, hs: seq<nat>, ts: seq<seq<Codepoint>>, links: seq<seq<Skip>>, k: nat, i: nat)
    requires FirstRow(nodes, hs, ts, links) && k < |hs| && Passes(nodes, hs, ts, links, k) && i < hs[k]
    ensures Walked(hs, links, nodes[0], k, i) == Skip(nodes[k], Pos(ts, k))
  {
  }

  /** Whatever passes the check is linked up on every level. */
  lemma SaneLinks(nodes: seq<Node>, hs: seq<nat>, ts: seq<seq<Codepoint>>, links: seq<seq<Skip>>)
    requires FirstRow(nodes, hs, ts, links) && Sane(nodes, hs, ts, links)
    ensures Heights(hs) && LinksOk(nodes, hs, ts, links)
  {
    hide Passes, Pos, Walked, Distinct;
    SaneHeights(nodes, hs, ts, links);
    forall k, i | 0 <= k < |hs| && 0 <= i < hs[k] ensures LinkOk(nodes, hs, ts, k, i, links[k][i]) {
      var t := Target(hs, k, i);
      WalkTo(nodes, hs, ts, links, k, i);
      if t < |hs| { ReachedAt(nodes, hs, ts, links, t, i); }
    }
  }

  /** Along a linked row the walk knows the next node that reaches each level, and how far that is from the
      start. */
  lemma {:induction false} WalkAhead(nodes: seq<Node>, hs: seq<nat>, ts: seq<seq<Codepoint>>, links: seq<seq<Skip>>,
                                     k: nat, i: nat)
    requires Heights(hs) && LinksOk(nodes, hs, ts, links) && k <= |hs| && i < hs[0]
    ensures var j := Next(hs, k, i); Walked(hs, links, nodes[0], k, i) == Skip(NodeAt(nodes, j), Pos(ts, j))
    decreases k
  {
    hide Pos;
    if k == 0 {
      assert Next(hs, 0, i) == 0;
      PosStart(ts);
    } else {
      WalkAhead(nodes, hs, ts, links, k - 1, i);
      if i < hs[k - 1] { assert LinkOk(nodes, hs, ts, k - 1, i, links[k - 1][i]); }
    }
  }

  lemma PosStart<T>(ts: seq<seq<T>>)
    ensures Pos(ts, 0) == 0
  {
  }

  /** A linked row with no empty node but the head passes. */
  lemma LinkedPasses(nodes: seq<Node>, hs: seq<nat>, ts: seq<seq<Codepoint>>, links: seq<seq<Skip>>)
    requires FirstRow(nodes, hs, ts, links) && Heights(hs) && LinksOk(nodes, hs, ts, links)
    requires forall k | 0 < k < |ts| :: |ts[k]| > 0
    ensures Sane(nodes, hs, ts, links)
  {
    hide Pos, Walked, Distinct;
    forall k | 0 <= k < |hs| ensures Passes(nodes, hs, ts, links, k) {
      FirstLink(nodes, hs, ts, links, k);
      forall i | 0 <= i < hs[k] ensures Walked(hs, links, nodes[0], k, i) == Skip(nodes[k], Pos(ts, k)) {
        WalkAhead(nodes, hs, ts, links, k, i);
      }
    }
    forall i | 0 <= i < hs[0] ensures Walked(hs, links, nodes[0], |hs|, i) == Skip(null, Pos(ts, |ts|)) {
      WalkAhead(nodes, hs, ts, links, |hs|, i);
    }
    TopLink(nodes, hs, ts, links);
  }

  /** The head's topmost link spans the whole rope. */
  lemma TopLink(nodes: seq<Node>, hs: seq<nat>, ts: seq<seq<Codepoint>>, links: seq<seq<Skip>>)
    requires Heights(hs) && LinksOk(nodes, hs, ts, links)
    ensures |links[0]| == hs[0] && links[0][hs[0] - 1] == Skip(null, Pos(ts, |ts|))
  {
    assert LinkOk(nodes, hs, ts, 0, hs[0] - 1, links[0][hs[0] - 1]);
    NextIs(hs, 1, hs[0] - 1, |hs|);
  }

  /** The walk stands before node k. */
  ghost predicate Stands(hs: seq<nat>, links: seq<seq<Skip>>, head: Node, k: nat, iter: seq<Skip>)
    requires k <= |hs| == |links| && forall j | 0 <= j < |hs| :: hs[j] == |links[j]|
  {
    |iter| == MAX_HEIGHT && forall i | 0 <= i < MAX_HEIGHT :: iter[i] == Walked(hs, links, head, k, i)
  }

  /** The levels of one node: the iterator has been led to this place on each of them, and moves on. */
  method CheckLevels(e: Node, iter: array<Skip>, numChars: nat) returns (ok: bool)
    requires |e.nexts| == e.height <= iter.Length
    modifies iter
    ensures ok <==> forall i | 0 <= i < e.height :: old(iter[..])[i] == Skip(e, numChars)
    ensures ok ==> forall i | 0 <= i < iter.Length ::
                     iter[i] == if i < e.height then Skip(e.nexts[i].node, numChars + e.nexts[i].skipSize)
                                else old(iter[..])[i]
  {
    ghost var before := iter[..];
    for i := 0 to e.height
      invariant forall j | 0 <= j < iter.Length ::
                  iter[j] == if j < i then Skip(e.nexts[j].node, numChars + e.nexts[j].skipSize) else before[j]
      invariant forall j | 0 <= j < i :: before[j] == Skip(e, numChars)
    {
      if iter[i].node != e || iter[i].skipSize != numChars {
        assert before[i] != Skip(e, numChars);
        return false;
      }
      iter[i] := Skip(e.nexts[i].node, iter[i].skipSize + e.nexts[i].skipSize);
    }
    ok := true;
  }

  /** What the check of one node looks at. */
  lemma PassesWhen(nodes: seq<Node>, hs: seq<nat>, ts: seq<seq<Codepoint>>, links: seq<seq<Skip>>, k: nat,
                   iter: seq<Skip>)
    requires FirstRow(nodes, hs, ts, links) && k < |hs| && Stands(hs, links, nodes[0], k, iter)
    ensures Passes(nodes, hs, ts, links, k) <==>
            && hs[k] <= MAX_HEIGHT && (k > 0 ==> |ts[k]| > 0) && links[k][0].skipSize == |ts[k]|
            && forall i | 0 <= i < hs[k] :: iter[i] == Skip(nodes[k], Pos(ts, k))
  {
    hide Walked, Pos, Distinct;
    if hs[k] <= MAX_HEIGHT {
      assert forall i | 0 <= i < hs[k] :: iter[i] == Walked(hs, links, nodes[0], k, i);
    }
  }

  lemma StandsNext(hs: seq<nat>, links: seq<seq<Skip>>, head: Node, k: nat, e: Node, p: nat, iter: seq<Skip>,
                   iter': seq<Skip>)
    requires k < |hs| == |links| && (forall j | 0 <= j < |hs| :: hs[j] == |links[j]|) && hs[k] <= MAX_HEIGHT
    requires Stands(hs, links, head, k, iter) && |iter'| == |iter|
    requires forall i | 0 <= i < hs[k] :: iter[i] == Skip(e, p)
    requires forall i | 0 <= i < |iter| ::
               iter'[i] == if i < hs[k] then Skip(links[k][i].node, p + links[k][i].skipSize) else iter[i]
    ensures Stands(hs, links, head, k + 1, iter')
  {
    forall i | 0 <= i < MAX_HEIGHT ensures iter'[i] == Walked(hs, links, head, k + 1, i) {
      assert iter[i] == Walked(hs, links, head, k, i);
    }
  }

  /** As many characters as have the bytes of the whole text are all of them. */
  lemma AllOfIt(t: seq<Codepoint>, n: nat)
    requires n <= |t|
    ensures |Bytes(t[..n])| == |Bytes(t)| <==> n == |t|
    ensures |Bytes(t)| == 0 <==> |t| == 0
  {
    BytesSplit(t, n);
    BytesAtLeastChars(t);
  }

  /** One node of _rope_check's walk. */
  method CheckNode(r: Rope, e: Node, iter: array<Skip>, numChars: nat, ghost k: nat) returns (ok: bool)
    requires Strung(r) && k < |r.nodes| && e == r.nodes[k] && numChars == Pos(r.ts, k)
    requires Stands(r.hs, Links(r.nodes), r.head, k, iter[..])
    modifies iter
    ensures ok <==> Passes(r.nodes, r.hs, r.ts, Links(r.nodes), k)
    ensures ok ==> Stands(r.hs, Links(r.nodes), r.head, k + 1, iter[..])
  {
    hide Distinct, Bytes, Pos, Links, Filled, Stands, Walked, Passes;
    ghost var links := Links(r.nodes);
    FirstRowAt(r.nodes, r.hs, r.ts, k);
    LinksOf(r.nodes, k);
    FilledAt(r.nodes, r.hs, r.ts, k);
    AllOfIt(r.ts[k], e.nexts[0].skipSize);
    PassesWhen(r.nodes, r.hs, r.ts, links, k, iter[..]);
    if e != r.head && e.numBytes == 0 { return false; }
    if e.height > MAX_HEIGHT { return false; }
    var bytes := CountBytes(e.str, 0, e.nexts[0].skipSize, r.ts[k]);
    if bytes != e.numBytes { return false; }
    StandsLength(r.hs, links, r.head, k, iter[..]);
    ghost var before := iter[..];
    ok := CheckLevels(e, iter, numChars);
    if ok { StandsNext(r.hs, links, r.head, k, e, numChars, before, iter[..]); }
  }

  lemma StandsLength(hs: seq<nat>, links: seq<seq<Skip>>, head: Node, k: nat, iter: seq<Skip>)
    requires k <= |hs| == |links| && (forall j | 0 <= j < |hs| :: hs[j] == |links[j]|)
    requires Stands(hs, links, head, k, iter)
    ensures |iter| == MAX_HEIGHT
  {
  }

  lemma CharsBefore(ts: seq<seq<Codepoint>>, k: nat)
    requires k < |ts|
    ensures Pos(ts, 0) == 0 && Pos(ts, k + 1) == Pos(ts, k) + |ts[k]|
  {
  }

  /** The walk of _rope_check over all the nodes. */
  method CheckNodes(r: Rope, iter: array<Skip>) returns (ok: bool, numBytes: nat, numChars: nat)
    requires Strung(r) && Stands(r.hs, Links(r.nodes), r.head, 0, iter[..])
    modifies iter
    ensures ok <==> AllPass(r.nodes, r.hs, r.ts, Links(r.nodes), |r.hs|)
    ensures ok ==> numBytes == |Bytes(Flat(r.ts))| && numChars == Pos(r.ts, |r.ts|)
    ensures ok ==> Stands(r.hs, Links(r.nodes), r.head, |r.hs|, iter[..])
  {
    hide Distinct, Flat, Bytes, Pos, Links, Filled, Stands, Passes, AllPass, FirstRow;
    numBytes, numChars := 0, 0;
    ghost var links, k := Links(r.nodes), 0;
    var e: Node? := r.head;
    NonePass(r.nodes, r.hs, r.ts, links);
    NoText();
    assert r.ts[..0] == [];
    CharsBefore(r.ts, 0);
    while e != null
      invariant k <= |r.nodes| && e == NodeAt(r.nodes, k)
      invariant numChars == Pos(r.ts, k) && numBytes == |Bytes(Flat(r.ts[..k]))|
      invariant Links(r.nodes) == links && AllPass(r.nodes, r.hs, r.ts, links, k)
      invariant Stands(r.hs, links, r.head, k, iter[..])
      decreases |r.nodes| - k
    {
      FilledAt(r.nodes, r.hs, r.ts, k);
      FirstRowAt(r.nodes, r.hs, r.ts, k);
      LinksOf(r.nodes, k);
      BytesBefore(r.ts, k);
      CharsBefore(r.ts, k);
      ok := CheckNode(r, e, iter, numChars, k);
      OneMorePasses(r.nodes, r.hs, r.ts, links, k);
      if !ok { return; }
      PassedText(r.nodes, r.hs, r.ts, links, k);
      numBytes := numBytes + e.numBytes;
      numChars := numChars + e.nexts[0].skipSize;
      e := e.nexts[0].node;
      k := k + 1;
    }
    ok := true;
    assert r.ts[..k] == r.ts;
  }

  lemma NonePass(nodes: seq<Node>, hs: seq<nat>, ts: seq<seq<Codepoint>>, links: seq<seq<Skip>>)
    requires FirstRow(nodes, hs, ts, links)
    ensures 0 < |nodes| == |hs| == |ts| == |links| && forall k | 0 <= k < |hs| :: hs[k] == |links[k]|
    ensures AllPass(nodes, hs, ts, links, 0)
  {
  }

  lemma PassedText(nodes: seq<Node>, hs: seq<nat>, ts: seq<seq<Codepoint>>, links: seq<seq<Skip>>, k: nat)
    requires FirstRow(nodes, hs, ts, links) && k < |hs| && Passes(nodes, hs, ts, links, k)
    ensures links[k][0].skipSize == |ts[k]|
  {
  }

  /** The last loop of _rope_check: every level has come to the end. */
  method CheckEnds(r: Rope, iter: array<Skip>, numChars: nat) returns (ok: bool)
    requires Strung(r) && Stands(r.hs, Links(r.nodes), r.head, |r.hs|, iter[..]) && numChars == Pos(r.ts, |r.ts|)
    ensures ok <==> Ends(r.nodes, r.hs, r.ts, Links(r.nodes))
  {
    hide Distinct, Bytes, Pos, Links, Walked;
    FilledAt(r.nodes, r.hs, r.ts, 0);
    for i := 0 to r.head.height
      invariant forall j | 0 <= j < i :: iter[j] == Skip(null, numChars)
    {
      if iter[i].node != null || iter[i].skipSize != numChars {
        assert iter[..][i] == iter[i] != Skip(null, numChars);
        return false;
      }
    }
    ok := true;
  }

  /** An iterator at the head on the head's levels. */
  method NewIter(head: Node) returns (iter: array<Skip>)
    requires head.height <= MAX_HEIGHT
    ensures fresh(iter) && iter.Length == MAX_HEIGHT
    ensures forall i | 0 <= i < MAX_HEIGHT :: iter[i] == if i < head.height then Skip(head, 0) else Skip(null, 0)
  {
    iter := new Skip[MAX_HEIGHT](_ => Skip(null, 0));
    for i := 0 to head.height
      invariant forall j | 0 <= j < MAX_HEIGHT :: iter[j] == if j < i then Skip(head, 0) else Skip(null, 0)
    {
      iter[i] := Skip(head, 0);
    }
  }

  lemma Starts(hs: seq<nat>, links: seq<seq<Skip>>, head: Node, iter: seq<Skip>)
    requires 0 < |hs| == |links| && (forall j | 0 <= j < |hs| :: hs[j] == |links[j]|) && |iter| == MAX_HEIGHT
    requires forall i | 0 <= i < MAX_HEIGHT :: iter[i] == if i < hs[0] then Skip(head, 0) else Skip(null, 0)
    ensures Stands(hs, links, head, 0, iter)
  {
  }

  /** Of nodes strung in a row, those of a sound rope are the ones that pass, with the counts they add up to. */
  lemma SaneIsValid(r: Rope)
    requires Strung(r)
    ensures var total := Pos(r.ts, |r.ts|);
            && (r.Valid() <==> Sane(r.nodes, r.hs, r.ts, Links(r.nodes)) && r.numChars == total &&
                               r.numBytes == |Bytes(Flat(r.ts))|)
            && total <= |Bytes(Flat(r.ts))|
  {
    hide Distinct, Flat, Bytes, Pos, Links, LinksOk, Sane;
    SizesAt(r.ts, 0);
    BytesAtLeastChars(Flat(r.ts));
    FilledAt(r.nodes, r.hs, r.ts, 0);
    if Sane(r.nodes, r.hs, r.ts, Links(r.nodes)) {
      SaneLinks(r.nodes, r.hs, r.ts, Links(r.nodes));
      SaneTexts(r.nodes, r.hs, r.ts, Links(r.nodes));
    }
    if r.Valid() { LinkedPasses(r.nodes, r.hs, r.ts, Links(r.nodes)); }
  }

  lemma SaneTexts(nodes: seq<Node>, hs: seq<nat>, ts: seq<seq<Codepoint>>, links: seq<seq<Skip>>)
    requires FirstRow(nodes, hs, ts, links) && Sane(nodes, hs, ts, links)
    ensures forall k | 0 < k < |ts| :: |ts[k]| > 0
  {
    forall k | 0 < k < |ts| ensures |ts[k]| > 0 {
      assert Passes(nodes, hs, ts, links, k);
    }
  }

  /** A sound rope is strung, so the check passes on it. */
  lemma ValidIsStrung(r: Rope)
    requires r.Valid()
    ensures Strung(r)
  {
    hide Distinct, Flat, Bytes, Pos, Filled;
    forall k | 0 <= k < |r.hs|
      ensures 1 <= r.hs[k] == |Links(r.nodes)[k]| && Links(r.nodes)[k][0] == Skip(NodeAt(r.nodes, k + 1), |r.ts[k]|)
    {
      FirstLink(r.nodes, r.hs, r.ts, Links(r.nodes), k);
    }
  }

  /** The two walks of _rope_check. */
  method WalkAll(r: Rope) returns (ok: bool, numBytes: nat, numChars: nat)
    requires Strung(r)
    ensures ok <==> AllPass(r.nodes, r.hs, r.ts, Links(r.nodes), |r.hs|) && Ends(r.nodes, r.hs, r.ts, Links(r.nodes))
    ensures ok ==> numBytes == |Bytes(Flat(r.ts))| && numChars == Pos(r.ts, |r.ts|)
  {
    hide Distinct, Flat, Bytes, Pos, Links, Filled, Stands, AllPass, Ends, Walked;
    FilledAt(r.nodes, r.hs, r.ts, 0);
    var iter := NewIter(r.head);
    Starts(r.hs, Links(r.nodes), r.head, iter[..]);
    ok, numBytes, numChars := CheckNodes(r, iter);
    if ok { ok := CheckEnds(r, iter, numChars); }
  }

  /** The head's topmost link, and the walks, make all that the check looks at in the nodes. */
  lemma SaneParts(nodes: seq<Node>, hs: seq<nat>, ts: seq<seq<Codepoint>>, links: seq<seq<Skip>>)
    requires FirstRow(nodes, hs, ts, links)
    ensures Sane(nodes, hs, ts, links) <==>
            && links[0][hs[0] - 1] == Skip(null, Pos(ts, |ts|))
            && AllPass(nodes, hs, ts, links, |hs|) && Ends(nodes, hs, ts, links)
  {
    hide AllPass, Ends, Pos, Distinct;
  }

  lemma HeadOf(r: Rope)
    requires Strung(r)
    ensures 1 <= r.head.height == |r.head.nexts| && Links(r.nodes)[0] == r.head.nexts && r.hs[0] == r.head.height
  {
    FilledAt(r.nodes, r.hs, r.ts, 0);
    LinksOf(r.nodes, 0);
  }

  /** _rope_check passes on exactly the ropes that keep the invariant. */
  method Check(r: Rope) returns (ok: bool)
    requires Strung(r)
    ensures ok <==> r.Valid()
  {
    hide Distinct, Flat, Bytes, Pos, Links, Filled, AllPass, Ends, Sane, Row, LinksOk, Heights;
    SaneIsValid(r);
    HeadOf(r);
    SaneParts(r.nodes, r.hs, r.ts, Links(r.nodes));
    if r.head.height == 0 || r.numBytes < r.numChars { return false; }
    var over := r.head.nexts[r.head.height - 1];
    if over.skipSize != r.numChars || over.node != null { return false; }
    var numBytes, numChars;
    ok, numBytes, numChars := WalkAll(r);
    ok := ok && r.numBytes == numBytes && r.numChars == numChars;
  }
}
