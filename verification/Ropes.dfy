/** The rope: a text held in the nodes of an indexable skip list (src/rope.c). */
module Ropes {
  import opened Basics
  import opened RopeText
  import opened SkipLevels
  import opened RopeNode

  class Rope {
    const head: Node
    var numChars: nat
    var numBytes: nat
    ghost var nodes: seq<Node>             // the head and the nodes after it, in order
    ghost var hs: seq<nat>                 // their heights
    ghost var ts: seq<seq<Codepoint>>      // their texts

    /** The rope's text. */
    ghost function Contents(): seq<Codepoint>
      reads this
    {
      Flat(ts)
    }

    /** The nodes are linked up level by level. */
    ghost predicate Linked()
      reads `nodes, `hs, `ts, nodes
    {
      && Heights(hs) && LinksOk(nodes, hs, ts, Links(nodes))
      && nodes[0] == head && head.height == hs[0]
    }

    /** The nodes are a row, linked up, each holding its text. */
    ghost predicate Shape()
      reads `nodes, `hs, `ts, nodes, set n | n in nodes :: n.str
    {
      Linked() && Row(nodes, hs, ts) && Filled(nodes, hs, ts)
    }

    /** The representation invariant while `pending` more characters are still to be unlinked. */
    ghost predicate Sound(pending: nat)
      reads this, nodes, set n | n in nodes :: n.str
    {
      && Shape()
      && numChars + pending == Pos(ts, |ts|)
      && numBytes == |Bytes(Flat(ts))|
    }

    ghost predicate Valid()
      reads this, nodes, set n | n in nodes :: n.str
    {
      Sound(0)
    }

    /** rope_new */
    constructor ()
      ensures Valid() && forall n | n in nodes :: fresh(n) && fresh(n.str)
      ensures Contents() == []
    {
      var h := new Node(1);
      h.nexts := [Skip(null, 0)];
      head := h;
      numChars, numBytes := 0, 0;
      nodes, hs, ts := [h], [1], [[]];
    }

    /** One level of the links over a change: the link of the node named grows by delta. */
    method WidenLevel(n: Node, i: nat, delta: int, ghost links: seq<seq<Skip>>, ghost cov: seq<nat>)
      requires Distinct(nodes) && Heights(hs) && |nodes| == |hs|
      requires i < hs[0] == |cov| && cov[i] < |hs| && i < hs[cov[i]] && n == nodes[cov[i]]
      requires Stretched(hs, links, Links(nodes), cov, i, delta)
      requires links[cov[i]][i].skipSize + delta >= 0
      modifies nodes`nexts
      ensures Stretched(hs, links, Links(nodes), cov, i + 1, delta)
    {
      ghost var before := Links(nodes);
      assert StretchedLink(links[cov[i]][i], before[cov[i]][i], false, true, delta);
      var sk := Skip(n.nexts[i].node, n.nexts[i].skipSize + delta);
      SetLink(n, i, sk, nodes, cov[i]);
      StretchOne(hs, links, before, sk, cov, i, delta);
    }

    /** update_offset_list: the link the iterator names on each level grows by delta. */
    method UpdateOffsets(iter: array<Skip>, delta: int, ghost cov: seq<nat>)
      requires Distinct(nodes) && Heights(hs) && Fits(hs, Links(nodes)) && head.height == hs[0] && |nodes| == |hs|
      requires |cov| == hs[0] <= iter.Length
      requires forall i | 0 <= i < hs[0] :: cov[i] < |hs| && i < hs[cov[i]] && iter[i].node == nodes[cov[i]]
      requires forall i | 0 <= i < hs[0] :: nodes[cov[i]].nexts[i].skipSize + delta >= 0
      modifies nodes`nexts
      ensures Stretched(hs, old(Links(nodes)), Links(nodes), cov, hs[0], delta)
    {
      ghost var links := Links(nodes);
      for i := 0 to head.height
        invariant Stretched(hs, links, Links(nodes), cov, i, delta)
      {
        WidenLevel(iter[i].node, i, delta, links, cov);
      }
    }

    /** iter_at_char_pos: the skip-list descent finds what a scan from the left would find. */
    method Seek(charPos: nat, iter: array<Skip>) returns (e: Node)
      requires Linked() && charPos <= Pos(ts, |ts|) && hs[0] <= iter.Length
      modifies iter
      ensures e == nodes[Locate(ts, charPos)]
      ensures IterOk(nodes, hs, ts, Locate(ts, charPos), charPos, iter[..])
    {
      ghost var found: nat, x: nat, links := Locate(ts, charPos), 0, Links(nodes);
      e := head;
      var height := head.height - 1;
      var offset := charPos;
      while true
        invariant 0 <= x <= found && e == nodes[x] && 0 <= height < hs[x]
        invariant Links(nodes) == links
        invariant x == 0 || Pos(ts, x) < charPos
        invariant offset == charPos - Pos(ts, x)
        invariant IterFrom(nodes, hs, ts, found, charPos, iter[..], height + 1)
        decreases height, |nodes| - x
      {
        var skip := e.nexts[height].skipSize;
        if offset > skip {
          GoRight(nodes, hs, ts, links, charPos, x, height);
          offset := offset - skip;
          e := e.nexts[height].node;
          x := Target(hs, x, height);
        } else {
          GoDown(nodes, hs, ts, links, charPos, x, height);
          iter[height] := Skip(e, offset);
          if height == 0 { break; }
          height := height - 1;
        }
      }
      assert Cover(hs, found, 0) == found;
    }

    /** random_height, with the coin left open: any height the rope could draw. */
    method RandomHeight() returns (height: nat)
      ensures 1 <= height < MAX_HEIGHT
    {
      height := 1;
      var heads: bool := *;
      while height < MAX_HEIGHT - 1 && heads
        invariant 1 <= height < MAX_HEIGHT
        decreases MAX_HEIGHT - height
      {
        height := height + 1;
        heads := *;
      }
    }

    /** One turn of insert_at's first loop: the head grows by a level that spans the whole rope. */
    method RaiseOnce(iter: array<Skip>, ghost e: nat, ghost p: nat)
      requires Linked() && e < |nodes| == |hs| == |ts| && hs[0] < MAX_HEIGHT == iter.Length
      requires IterOk(nodes, hs, ts, e, p, iter[..])
      modifies `hs, head`nexts, head`height, iter
      ensures Linked() && hs == old(hs)[0 := old(hs)[0] + 1]
      ensures IterOk(nodes, hs, ts, e, p, iter[..])
    {
      hide LinksOk, IterOk, Links;
      LinksRaised(nodes, hs, ts, Links(nodes));
      IterRaised(nodes, hs, ts, e, p, iter[..]);
      HeadOnce(nodes, hs, ts);
      var top := head.height;
      GrowHead(head, nodes);
      iter[top] := iter[top - 1];
      hs := hs[0 := top + 1];
    }

    /** The first loop of insert_at: the head grows until it is taller than the new node. */
    method RaiseHead(newHeight: nat, iter: array<Skip>, ghost e: nat, ghost p: nat)
      requires Linked() && e < |nodes| == |hs| == |ts| && newHeight < MAX_HEIGHT == iter.Length
      requires IterOk(nodes, hs, ts, e, p, iter[..])
      modifies `hs, head`nexts, head`height, iter
      ensures Linked() && hs[0] > newHeight && hs == old(hs)[0 := hs[0]]
      ensures IterOk(nodes, hs, ts, e, p, iter[..])
    {
      hide IterOk, LinksOk;
      while head.height <= newHeight
        invariant Linked() && |nodes| == |hs| == |ts| && hs == old(hs)[0 := hs[0]]
        invariant IterOk(nodes, hs, ts, e, p, iter[..])
        decreases MAX_HEIGHT - head.height
      {
        RaiseOnce(iter, e, p);
      }
    }

    /** One turn of insert_at's second loop: the new node goes in at level i. */
    method CutLevel(node: Node, n: nat, iter: array<Skip>, i: nat,
                    ghost links: seq<seq<Skip>>, ghost cov: seq<nat>, ghost its: seq<Skip>)
      requires Distinct(nodes) && Standing(nodes, hs, links, cov, its) && node !in nodes
      requires i < node.height < hs[0] <= |its|
      requires iter[..] == Advanced(its, node, node.height, n, i)
      requires LinkedIn(hs, links, Links(nodes), node.nexts, cov, its, node, node.height, n, i)
      modifies nodes`nexts, node`nexts, iter
      ensures LinkedIn(hs, links, Links(nodes), node.nexts, cov, its, node, node.height, n, i + 1)
      ensures iter[..] == Advanced(its, node, node.height, n, i + 1)
    {
      AdvanceOne(its, node, node.height, n, i);
      assert iter[..][i] == its[i];
      ghost var before, own := Links(nodes), node.nexts;
      LinkUntouched(hs, links, before, own, cov, its, node, node.height, n, i);
      var at := iter[i];
      var skip := at.node.nexts[i];
      SetLink(node, i, Skip(skip.node, n + skip.skipSize - at.skipSize), [node], 0);
      assert Links(nodes) == before;
      SetLink(at.node, i, Skip(node, at.skipSize), nodes, cov[i]);
      LinkOneIn(hs, links, before, own, cov, its, node, node.height, n, i, node.nexts);
      iter[i] := Skip(node, n);
    }

    /** One turn of insert_at's third loop: above the new node the link at level i grows. */
    method StretchLevel(node: Node, n: nat, iter: array<Skip>, i: nat,
                        ghost links: seq<seq<Skip>>, ghost cov: seq<nat>, ghost its: seq<Skip>)
      requires Distinct(nodes) && Standing(nodes, hs, links, cov, its) && node !in nodes
      requires node.height <= i < hs[0] <= |its|
      requires iter[..] == Advanced(its, node, node.height, n, i)
      requires LinkedIn(hs, links, Links(nodes), node.nexts, cov, its, node, node.height, n, i)
      modifies nodes`nexts, iter
      ensures LinkedIn(hs, links, Links(nodes), node.nexts, cov, its, node, node.height, n, i + 1)
      ensures iter[..] == Advanced(its, node, node.height, n, i + 1)
    {
      hide Advanced, Distinct, Links, LinkedIn;
      AdvanceOne(its, node, node.height, n, i);
      assert iter[..][i] == its[i];
      ghost var before := Links(nodes);
      LinkUntouched(hs, links, before, node.nexts, cov, its, node, node.height, n, i);
      LinksOf(nodes, cov[i]);
      var at := iter[i];
      var skip := at.node.nexts[i];
      SetLink(at.node, i, Skip(skip.node, skip.skipSize + n), nodes, cov[i]);
      LinkOneIn(hs, links, before, node.nexts, cov, its, node, node.height, n, i, node.nexts);
      iter[i] := Skip(at.node, at.skipSize + n);
    }

    /** The second and third loops of insert_at: the new node is linked in at the iterator, and the
        iterator moves to the new node's end. */
    method LinkIn(node: Node, n: nat, iter: array<Skip>, ghost cov: seq<nat>)
      requires Distinct(nodes) && Standing(nodes, hs, Links(nodes), cov, iter[..]) && node !in nodes
      requires |node.nexts| == node.height < hs[0] == head.height
      modifies nodes`nexts, node`nexts, iter
      ensures LinkedIn(hs, old(Links(nodes)), Links(nodes), node.nexts, cov, old(iter[..]), node, node.height, n, hs[0])
      ensures iter[..] == Advanced(old(iter[..]), node, node.height, n, hs[0])
    {
      ghost var links, its := Links(nodes), iter[..];
      LinkNone(hs, links, node.nexts, cov, its, node, node.height, n);
      var i := 0;
      while i < node.height
        invariant i <= node.height
        invariant LinkedIn(hs, links, Links(nodes), node.nexts, cov, its, node, node.height, n, i)
        invariant iter[..] == Advanced(its, node, node.height, n, i)
      {
        CutLevel(node, n, iter, i, links, cov, its);
        i := i + 1;
      }
      while i < head.height
        invariant node.height <= i <= hs[0]
        invariant LinkedIn(hs, links, Links(nodes), node.nexts, cov, its, node, node.height, n, i)
        invariant iter[..] == Advanced(its, node, node.height, n, i)
      {
        StretchLevel(node, n, iter, i, links, cov, its);
        i := i + 1;
      }
    }

    /** Linking in at the end of node e makes the links of the row with the new node after e. */
    method LinkInAfter(node: Node, n: nat, iter: array<Skip>, ghost e: nat, ghost t: seq<Codepoint>)
      requires Distinct(nodes) && Heights(hs) && LinksOk(nodes, hs, ts, Links(nodes)) && e < |nodes|
      requires IterOk(nodes, hs, ts, e, Pos(ts, e + 1), iter[..])
      requires node !in nodes && n == |t|
      requires |node.nexts| == node.height < hs[0] == head.height
      modifies nodes`nexts, node`nexts, iter
      ensures LinksOk(Insert(nodes, e + 1, node), Insert(hs, e + 1, node.height), Insert(ts, e + 1, t),
                      Links(Insert(nodes, e + 1, node)))
      ensures IterOk(Insert(nodes, e + 1, node), Insert(hs, e + 1, node.height), Insert(ts, e + 1, t),
                     e + 1, Pos(Insert(ts, e + 1, t), e + 2), iter[..])
    {
      ghost var links, its := Links(nodes), iter[..];
      IterStands(nodes, hs, ts, links, e, its);
      LinkIn(node, n, iter, Covers(hs, e));
      LinksAfterInsert(nodes, hs, ts, links, e, its, node, node.height, t, Links(nodes), node.nexts);
      IterAfterInsert(nodes, hs, ts, e, its, node, node.height, t);
      LinksInsert(nodes, e + 1, node);
    }

    /** The linking part of insert_at. */
    method LinkAfter(node: Node, n: nat, iter: array<Skip>, ghost e: nat, ghost t: seq<Codepoint>)
      requires Linked() && Distinct(nodes) && e < |nodes| == |hs| == |ts| && iter.Length == MAX_HEIGHT
      requires IterOk(nodes, hs, ts, e, Pos(ts, e + 1), iter[..])
      requires node !in nodes && |node.nexts| == node.height && n == |t|
      requires 1 <= node.height < MAX_HEIGHT
      modifies `nodes, `hs, `ts, nodes`nexts, head`nexts, head`height, node`nexts, iter
      ensures nodes == Insert(old(nodes), e + 1, node) && ts == Insert(old(ts), e + 1, t)
      ensures |hs| == |nodes| && hs == Insert(old(hs)[0 := hs[0]], e + 1, node.height)
      ensures node.height == old(node.height)
      ensures Linked()
      ensures IterOk(nodes, hs, ts, e + 1, Pos(ts, e + 2), iter[..])
    {
      hide LinksOk, IterOk, Links, Pos;
      RaiseHead(node.height, iter, e, Pos(ts, e + 1));
      LinkInAfter(node, n, iter, e, t);
      nodes, hs, ts := Insert(nodes, e + 1, node), Insert(hs, e + 1, node.height), Insert(ts, e + 1, t);
    }

    /** ... which disturbs no node's text. */
    method PutAfter(node: Node, n: nat, iter: array<Skip>, ghost e: nat, ghost t: seq<Codepoint>)
      requires Shape() && e < |nodes|
      requires IterOk(nodes, hs, ts, e, Pos(ts, e + 1), iter[..]) && iter.Length == MAX_HEIGHT
      requires node !in nodes && forall k | 0 <= k < |nodes| :: nodes[k].str != node.str
      requires |node.nexts| == node.height && node.Holds(t) && n == |t| > 0
      requires 1 <= node.height < MAX_HEIGHT
      modifies `nodes, `hs, `ts, nodes`nexts, head`nexts, head`height, node`nexts, iter
      ensures nodes == Insert(old(nodes), e + 1, node) && ts == Insert(old(ts), e + 1, t)
      ensures |hs| == |nodes| && hs == Insert(old(hs)[0 := hs[0]], e + 1, node.height)
      ensures Shape()
      ensures IterOk(nodes, hs, ts, e + 1, Pos(ts, e + 2), iter[..])
    {
      hide LinksOk, Links, Flat, Bytes, NamesCover, IterOk;
      ghost var nodes0, hs0, ts0 := nodes, hs, ts;
      LinkAfter(node, n, iter, e, t);
      RowInsert(nodes0, hs0, ts0, e + 1, node, hs, t);
      FilledInsert(nodes0, hs0[0 := hs[0]], ts0, e + 1, node, t);
    }

    /** insert_at: a new node with the given text goes in after node e. */
    method InsertAt(iter: array<Skip>, str: seq<byte>, n: nat, ghost e: nat, ghost t: seq<Codepoint>)
      returns (ghost node: Node)
      requires Shape() && e < |nodes| && iter.Length == MAX_HEIGHT
      requires IterOk(nodes, hs, ts, e, Pos(ts, e + 1), iter[..])
      requires n == |t| > 0 && str == Bytes(t) && |str| <= NODE_STR_SIZE
      modifies this, nodes`nexts, head`nexts, head`height, iter
      ensures Shape() && fresh(node) && fresh(node.str)
      ensures nodes == Insert(old(nodes), e + 1, node) && ts == Insert(old(ts), e + 1, t)
      ensures |hs| == |nodes| && hs == Insert(old(hs)[0 := hs[0]], e + 1, node.height)
      ensures IterOk(nodes, hs, ts, e + 1, Pos(ts, e + 2), iter[..])
      ensures numChars == old(numChars) + n && numBytes == old(numBytes) + |str|
    {
      hide LinksOk, Links, Bytes, Flat, IterOk, Pos, Heights;
      var height := RandomHeight();
      var newNode := NewNode(height, str, t);
      node := newNode;
      PutAfter(newNode, n, iter, e, t);
      numChars := numChars + n;
      numBytes := numBytes + |str|;
    }

    /** The links over node x follow a change of its text to t. */
    method RelinkText(iter: array<Skip>, delta: int, ghost x: nat, ghost t: seq<Codepoint>)
      requires Linked() && Distinct(nodes) && x < |nodes|
      requires NamesCover(nodes, hs, x, iter[..]) && delta == |t| - |ts[x]|
      modifies nodes`nexts
      ensures LinksOk(nodes, hs, ts[x := t], Links(nodes))
    {
      ghost var cov, links := Covers(hs, x), Links(nodes);
      forall i | 0 <= i < hs[0]
        ensures nodes[cov[i]].nexts[i].skipSize + delta >= 0
      {
        CoverWide(nodes, hs, ts, links, x, i);
      }
      UpdateOffsets(iter, delta, cov);
      LinksAfterTextChange(nodes, hs, ts, links, x, t, Links(nodes));
    }

    /** ... and so do the rope's counts. */
    method Retext(iter: array<Skip>, delta: int, chars: nat, bytes: nat, ghost x: nat, ghost t: seq<Codepoint>)
      requires Linked() && Distinct(nodes) && x < |nodes| == |ts|
      requires NamesCover(nodes, hs, x, iter[..]) && delta == |t| - |ts[x]|
      modifies `ts, `numChars, `numBytes, nodes`nexts
      ensures ts == old(ts)[x := t] && Linked() && numChars == chars && numBytes == bytes
    {
      hide LinksOk, NamesCover, Links, Distinct, Heights;
      RelinkText(iter, delta, x, t);
      ts := ts[x := t];
      numChars, numBytes := chars, bytes;
    }

    /** Shape, but for node x, which is being rewritten. */
    ghost predicate ShapeBut(x: nat)
      reads `nodes, `hs, `ts, nodes, set n | n in nodes :: n.str
    {
      && Linked() && Row(nodes, hs, ts) && x < |nodes|
      && forall k | 0 <= k < |nodes| && k != x :: nodes[k].height == hs[k] && nodes[k].Holds(ts[k])
    }

    /** Writing in node x alone leaves the rest of the shape as it was. */
    twostate lemma OthersKept(x: nat)
      requires old(Shape()) && x < |nodes|
      requires nodes == old(nodes) && hs == old(hs) && ts == old(ts)
      requires forall k | 0 <= k < |nodes| && k != x :: unchanged(nodes[k]) && unchanged(nodes[k].str)
      requires nodes[x].nexts == old(nodes[x].nexts) && nodes[x].height == old(nodes[x].height)
      ensures ShapeBut(x) && nodes[x].height == hs[x]
    {
      assert Links(nodes) == old(Links(nodes));
    }

    /** Relinking and counting the text of a node whose bytes are already rewritten. */
    method Resettle(iter: array<Skip>, delta: int, chars: nat, bytes: nat, ghost x: nat, ghost t: seq<Codepoint>)
      requires ShapeBut(x) && nodes[x].Holds(t) && nodes[x].height == hs[x]
      requires NamesCover(nodes, hs, x, iter[..]) && delta == |t| - |ts[x]|
      requires x > 0 ==> |t| > 0
      modifies `ts, `numChars, `numBytes, nodes`nexts
      ensures ts == old(ts)[x := t] && Shape() && numChars == chars && numBytes == bytes
    {
      hide LinksOk, Links, NamesCover, Bytes;
      Retext(iter, delta, chars, bytes, x, t);
    }

    /** The bytes of node x, with the new ones in place; the links and the row's text lag behind. */
    method WriteBytes(e: Node, offsetBytes: nat, bytes: seq<byte>, ghost x: nat, ghost o: nat, ghost t: seq<Codepoint>)
      requires Shape() && x < |nodes| && e == nodes[x]
      requires o <= |ts[x]| && offsetBytes == |Bytes(ts[x][..o])|
      requires bytes == Bytes(t) && e.numBytes + |bytes| <= NODE_STR_SIZE
      modifies e`numBytes, e.str
      ensures ShapeBut(x) && nodes[x].height == hs[x]
      ensures nodes[x].Holds(ts[x][..o] + t + ts[x][o..])
    {
      hide LinksOk, Links, Flat, Bytes;
      BytesSplit(ts[x], o);
      BytesInsert(ts[x][..o], t, ts[x][o..]);
      OthersApart(nodes, x);
      e.InsertBytes(offsetBytes, bytes);
      OthersKept(x);
    }

    /** The insert-here branch of rope_insert: room is made in node x for the new bytes. */
    method WriteInto(e: Node, iter: array<Skip>, offsetBytes: nat, bytes: seq<byte>, n: nat,
                     ghost x: nat, ghost o: nat, ghost t: seq<Codepoint>)
      requires Shape() && x < |nodes| && e == nodes[x] && NamesCover(nodes, hs, x, iter[..])
      requires o <= |ts[x]| && offsetBytes == |Bytes(ts[x][..o])|
      requires bytes == Bytes(t) && n == |t| && e.numBytes + |bytes| <= NODE_STR_SIZE
      modifies `numChars, `numBytes, `ts, nodes`nexts, e`numBytes, e.str
      ensures Shape() && ts == old(ts)[x := old(ts)[x][..o] + t + old(ts)[x][o..]]
      ensures numChars == old(numChars) + n && numBytes == old(numBytes) + |bytes|
    {
      WriteBytes(e, offsetBytes, bytes, x, o, t);
      Resettle(iter, n, numChars + n, numBytes + |bytes|, x, ts[x][..o] + t + ts[x][o..]);
    }

    /** The tail of node x's text is given up, though its bytes stay behind in the buffer. */
    method Truncate(e: Node, iter: array<Skip>, offsetBytes: nat, offset: nat, ghost x: nat) returns (endChars: nat)
      requires Shape() && x < |nodes| && e == nodes[x] && NamesCover(nodes, hs, x, iter[..])
      requires offset <= |ts[x]| && offsetBytes == |Bytes(ts[x][..offset])|
      requires x > 0 ==> offset > 0
      requires numChars >= |ts[x]| && numBytes >= e.numBytes
      modifies `numChars, `numBytes, `ts, nodes`nexts, e`numBytes
      ensures Shape() && ts == old(ts)[x := old(ts)[x][..offset]]
      ensures endChars == |old(ts)[x]| - offset
      ensures numChars == old(numChars) - endChars
      ensures numBytes == old(numBytes) - (old(e.numBytes) - offsetBytes)
    {
      FirstLink(nodes, hs, ts, Links(nodes), x);
      endChars := e.nexts[0].skipSize - offset;
      var endBytes := TruncateBytes(e, offsetBytes, offset, x);
      Resettle(iter, -(endChars as int), numChars - endChars, numBytes - endBytes, x, ts[x][..offset]);
    }

    method TruncateBytes(e: Node, offsetBytes: nat, ghost offset: nat, ghost x: nat) returns (endBytes: nat)
      requires Shape() && x < |nodes| && e == nodes[x]
      requires offset <= |ts[x]| && offsetBytes == |Bytes(ts[x][..offset])|
      modifies e`numBytes
      ensures ShapeBut(x) && nodes[x].height == hs[x] && nodes[x].Holds(ts[x][..offset])
      ensures endBytes == old(e.numBytes) - offsetBytes
    {
      BytesSplit(ts[x], offset);
      assert e.str[..offsetBytes] == e.str[..e.numBytes][..offsetBytes];
      OthersApart(nodes, x);
      endBytes := e.numBytes - offsetBytes;
      e.numBytes := offsetBytes;
      OthersKept(x);
    }

    /** One turn of rope_insert's splitting loop: as many whole code points as fit go into a new node. */
    method ChainOne(iter: array<Skip>, str: seq<byte>, from: nat, len: nat, ghost y: nat, ghost rest: seq<Codepoint>,
                    ghost goal: seq<Codepoint>)
      returns (bytes: nat, ghost rest': seq<Codepoint>)
      requires Shape() && y < |nodes| && iter.Length == MAX_HEIGHT
      requires IterOk(nodes, hs, ts, y, Pos(ts, y + 1), iter[..])
      requires from < len <= |str| && str[from..len] == Bytes(rest) && Spells(ts, y, rest, goal)
      modifies this, nodes`nexts, head`nexts, head`height, iter
      ensures Shape() && |nodes| == |old(nodes)| + 1
      ensures IterOk(nodes, hs, ts, y + 1, Pos(ts, y + 2), iter[..])
      ensures 1 <= bytes && from + bytes <= len && str[from + bytes..len] == Bytes(rest')
      ensures Spells(ts, y + 1, rest', goal)
      ensures ts[y + 2..] == old(ts)[y + 1..]
      ensures numChars + |rest'| == old(numChars) + |rest| && numBytes == old(numBytes) + bytes
      ensures forall n | n in nodes :: n in old(nodes) || (fresh(n) && fresh(n.str))
    {
      var n: nat;
      bytes, n := NextChunk(str, from, len, NODE_STR_SIZE, rest);
      rest' := rest[n..];
      SpellsOneMore(ts, y, rest[..n], rest, goal);
      ghost var node := InsertAt(iter, str[from..from + bytes], n, y, rest[..n]);
    }

    /** The splitting loop of rope_insert: a chain of new nodes, each filled with whole code points. */
    method ChainIn(iter: array<Skip>, str: seq<byte>, len: nat, ghost x: nat, ghost text: seq<Codepoint>,
                   ghost goal: seq<Codepoint>)
      returns (ghost y: nat, ghost rest: seq<Codepoint>)
      requires Shape() && x < |nodes| && iter.Length == MAX_HEIGHT
      requires IterOk(nodes, hs, ts, x, Pos(ts, x + 1), iter[..])
      requires len <= |str| && str[..len] == Bytes(text) && Spells(ts, x, text, goal)
      modifies this, nodes`nexts, head`nexts, head`height, iter
      ensures Shape() && y < |nodes| && IterOk(nodes, hs, ts, y, Pos(ts, y + 1), iter[..])
      ensures Spells(ts, y, rest, goal) && |rest| == 0
      ensures ts[y + 1..] == old(ts)[x + 1..]
      ensures numChars == old(numChars) + |text| && numBytes == old(numBytes) + len
      ensures forall n | n in nodes :: n in old(nodes) || (fresh(n) && fresh(n.str))
    {
      hide LinksOk, Distinct, Flat, Bytes, Links, IterOk, Spells, Pos;
      y := x;
      var from := 0;
      rest := text;
      while from < len
        invariant 0 <= from <= len && str[from..len] == Bytes(rest)
        invariant Shape() && y < |nodes| && IterOk(nodes, hs, ts, y, Pos(ts, y + 1), iter[..])
        invariant Spells(ts, y, rest, goal)
        invariant ts[y + 1..] == old(ts)[x + 1..]
        invariant numChars + |rest| == old(numChars) + |text| && numBytes == old(numBytes) + from
        invariant forall n | n in nodes :: n in old(nodes) || (fresh(n) && fresh(n.str))
        decreases len - from
      {
        var bytes: nat;
        bytes, rest := ChainOne(iter, str, from, len, y, rest, goal);
        y := y + 1;
        from := from + bytes;
      }
      BytesAtLeastChars(rest);
    }

    /** The end of the text cut off at x, if any, goes into one more node after y. */
    method PutEnd(iter: array<Skip>, end: seq<byte>, n: nat, ghost y: nat, ghost t: seq<Codepoint>,
                  ghost goal: seq<Codepoint>, ghost tail: seq<seq<Codepoint>>)
      requires Shape() && y < |nodes| && iter.Length == MAX_HEIGHT
      requires IterOk(nodes, hs, ts, y, Pos(ts, y + 1), iter[..])
      requires n == |t| && end == Bytes(t) && |end| <= NODE_STR_SIZE
      requires Spelled(ts, y, goal) && ts[y + 1..] == tail
      modifies this, nodes`nexts, head`nexts, head`height, iter
      ensures Shape() && Flat(ts) == goal + t + Flat(tail)
      ensures numChars == old(numChars) + n && numBytes == old(numBytes) + |end|
      ensures forall n | n in nodes :: n in old(nodes) || (fresh(n) && fresh(n.str))
    {
      hide LinksOk, Links, Flat, IterOk, Pos, Heights, Filled, Distinct, Spelled;
      BytesAtLeastChars(t);
      if |end| > 0 {
        SpelledOneMore(ts, y, t, goal);
        ghost var node := InsertAt(iter, end, n, y, t);
        SpelledAll(ts, y + 1, goal + t);
      } else {
        assert goal + t == goal;
        SpelledAll(ts, y, goal);
      }
    }

    /** What node x holds behind the position is cut off, if there is any. */
    method CutAt(e: Node, iter: array<Skip>, offsetBytes: nat, offset: nat, ghost x: nat)
      returns (endBytes: nat, endChars: nat)
      requires Shape() && x < |nodes| && e == nodes[x]
      requires numChars >= |ts[x]| && numBytes >= e.numBytes
      requires offset <= |ts[x]| && offsetBytes == |Bytes(ts[x][..offset])|
      requires IterOk(nodes, hs, ts, x, Pos(ts, x) + offset, iter[..])
      requires x > 0 ==> offset > 0
      modifies `numChars, `numBytes, `ts, nodes`nexts, e`numBytes
      ensures Shape() && ts == old(ts)[x := old(ts)[x][..offset]]
      ensures IterOk(nodes, hs, ts, x, Pos(ts, x + 1), iter[..])
      ensures endBytes <= old(e.numBytes) == offsetBytes + endBytes <= e.str.Length
      ensures e.str[offsetBytes..offsetBytes + endBytes] == Bytes(old(ts)[x][offset..])
      ensures endChars == |old(ts)[x]| - offset
      ensures numChars == old(numChars) - endChars && numBytes == old(numBytes) - endBytes
    {
      hide LinksOk, Distinct, Links, Flat, Bytes, NamesCover, IterOk;
      BytesSplit(ts[x], offset);
      IterAtCut(nodes, hs, ts, x, offset, iter[..]);
      assert e.str[offsetBytes..e.numBytes] == e.str[..e.numBytes][offsetBytes..];
      endBytes, endChars := e.numBytes - offsetBytes, 0;
      if endBytes > 0 {
        endChars := Truncate(e, iter, offsetBytes, offset, x);
      } else {
        assert ts[x][..offset] == ts[x];
        assert ts[x := ts[x][..offset]] == ts;
      }
    }

    /** The splitting branch of rope_insert: the new text goes into nodes of its own after node x, and
        what x held behind the position into one more. */
    method SplitIn(e: Node, iter: array<Skip>, offsetBytes: nat, offset: nat, str: seq<byte>, len: nat,
                   ghost x: nat, ghost text: seq<Codepoint>, ghost pre: seq<Codepoint>)
      requires Shape() && x < |nodes| && e == nodes[x] && iter.Length == MAX_HEIGHT
      requires numChars >= |ts[x]| && numBytes >= e.numBytes
      requires offset <= |ts[x]| && offsetBytes == |Bytes(ts[x][..offset])|
      requires IterOk(nodes, hs, ts, x, Pos(ts, x) + offset, iter[..])
      requires x > 0 ==> offset > 0
      requires len <= |str| && str[..len] == Bytes(text)
      requires pre == Flat(ts[..x]) + ts[x][..offset]
      modifies this, nodes, iter
      ensures Shape() && Flat(ts) == pre + text + old(ts)[x][offset..] + Flat(old(ts)[x + 1..])
      ensures numChars == old(numChars) + |text| && numBytes == old(numBytes) + len
      ensures forall n | n in nodes :: n in old(nodes) || (fresh(n) && fresh(n.str))
    {
      hide LinksOk, Distinct, Flat, Bytes, NamesCover, IterOk, Spells, Spelled, Links, Fits, Heights, CodepointSize;
      ghost var b, tail := ts[x][offset..], ts[x + 1..];
      FilledAt(nodes, hs, ts, x);
      assert head in nodes;
      SpellsAtCut(ts, x, offset, text, pre);
      var endBytes, endChars := CutAt(e, iter, offsetBytes, offset, x);
      ghost var y, rest := ChainIn(iter, str, len, x, text, pre + text);
      SpelledWhenDone(ts, y, rest, pre + text);
      PutEnd(iter, e.str[offsetBytes..offsetBytes + endBytes], endChars, y, b, pre + text, tail);
    }

    /** The iterator is made to name the next node on all its levels. */
    method NameNext(next: Node, iter: array<Skip>, ghost x: nat)
      requires Row(nodes, hs, ts) && x + 1 < |nodes| && next == nodes[x + 1] && next.height == hs[x + 1]
      requires NamesCover(nodes, hs, x, iter[..])
      modifies iter
      ensures NamesCover(nodes, hs, x + 1, iter[..])
    {
      hide Distinct, Cover;
      ghost var its := iter[..];
      for i := 0 to next.height
        invariant forall j | 0 <= j < iter.Length ::
                    iter[j] == if j < i then Skip(next, its[j].skipSize) else its[j]
      {
        iter[i] := Skip(next, iter[i].skipSize);
      }
      NamesNext(nodes, hs, x, its, iter[..]);
    }

    /** Can the text go into the node found, or else at the front of the one after it? */
    method ChooseNode(found: Node, iter: array<Skip>, offset0: nat, offsetBytes0: nat, len: nat, ghost x0: nat)
      returns (here: bool, e: Node, offset: nat, offsetBytes: nat, ghost x: nat)
      requires Shape() && x0 < |nodes| && found == nodes[x0]
      requires offset0 <= |ts[x0]| && offsetBytes0 == |Bytes(ts[x0][..offset0])|
      requires NamesCover(nodes, hs, x0, iter[..])
      modifies iter
      ensures here ==> x < |nodes| && e == nodes[x] && NamesCover(nodes, hs, x, iter[..])
      ensures here ==> offset <= |ts[x]| && offsetBytes == |Bytes(ts[x][..offset])|
      ensures here ==> Pos(ts, x) + offset == Pos(ts, x0) + offset0 && e.numBytes + len <= NODE_STR_SIZE
      ensures !here ==> x == x0 && e == found && offset == offset0 && offsetBytes == offsetBytes0
      ensures !here ==> iter[..] == old(iter[..])
      ensures var fits := found.numBytes + len <= NODE_STR_SIZE;
              var nextFits := offsetBytes0 == found.numBytes && x0 + 1 < |nodes| &&
                              nodes[x0 + 1].numBytes + len <= NODE_STR_SIZE;
              && (here <==> fits || nextFits) && (here ==> x == if fits then x0 else x0 + 1)
    {
      hide LinksOk, NamesCover, Bytes, Links, Pos, Flat, Distinct;
      e, offset, offsetBytes, x := found, offset0, offsetBytes0, x0;
      here := e.numBytes + len <= NODE_STR_SIZE;
      if !here && offsetBytes == e.numBytes {
        FirstSkip(nodes, hs, ts, x0);
        var next := e.nexts[0].node;
        if next != null && next.numBytes + len <= NODE_STR_SIZE {
          AtTheEnd(ts, x0, offset0);
          offset, offsetBytes, x := 0, 0, x0 + 1;
          NameNext(next, iter, x0);
          e := next;
          here := true;
        }
      }
    }

    /** Both branches of rope_insert put the text in at the position. */
    method PutIn(e: Node, iter: array<Skip>, offsetBytes: nat, offset: nat, here: bool, str: seq<byte>, len: nat,
                 ghost x: nat, ghost text: seq<Codepoint>, ghost pos: nat)
      requires Valid() && x < |nodes| && e == nodes[x] && iter.Length == MAX_HEIGHT
      requires offset <= |ts[x]| && offsetBytes == |Bytes(ts[x][..offset])|
      requires pos == Pos(ts, x) + offset <= |Contents()|
      requires here ==> NamesCover(nodes, hs, x, iter[..]) && e.numBytes + len <= NODE_STR_SIZE
      requires !here ==> IterOk(nodes, hs, ts, x, pos, iter[..]) && (x > 0 ==> offset > 0)
      requires 0 in str && len <= |str| && CString(str) == str[..len] == Bytes(text)
      modifies this, nodes, e.str, iter
      ensures Valid() && Contents() == old(Contents())[..pos] + text + old(Contents())[pos..]
      ensures forall n | n in nodes :: n in old(nodes) || (fresh(n) && fresh(n.str))
    {
      hide LinksOk, Distinct, Links, Flat, Bytes, NamesCover, IterOk, Filled;
      ghost var ts0 := ts;
      FilledAt(nodes, hs, ts, x);
      SizesAt(ts, x);
      CutText(ts, x, offset);
      DecodeOfBytes(text);
      if here {
        var n := StrlenUtf8(str);
        WriteInto(e, iter, offsetBytes, str[..len], n, x, offset, text);
        FlatSplice(ts0, x, offset, text);
      } else {
        SplitIn(e, iter, offsetBytes, offset, str, len, x, text, Flat(ts[..x]) + ts[x][..offset]);
        Regroup(Flat(ts0[..x]), ts0[x][..offset], text, ts0[x][offset..], Flat(ts0[x + 1..]));
      }
      assert Flat(ts0) == Flat(ts0)[..pos] + Flat(ts0)[pos..];
      SpliceSizes(Flat(ts0)[..pos], Flat(ts0)[pos..], text, ts);
    }

    /** How far into the node found the iterator stands, in characters and in bytes. */
    method Measure(found: Node, iter: array<Skip>, ghost x: nat, ghost pos: nat) returns (offset: nat, offsetBytes: nat)
      requires Shape() && x < |nodes| && found == nodes[x]
      requires Pos(ts, x) <= pos <= Pos(ts, x + 1) && IterOk(nodes, hs, ts, x, pos, iter[..])
      ensures offset == pos - Pos(ts, x) && offsetBytes == |Bytes(ts[x][..offset])|
      ensures NamesCover(nodes, hs, x, iter[..])
    {
      assert RopeNode.IterAt(nodes, ts, Cover(hs, x, 0), pos, iter[..][0]);
      offset, offsetBytes := iter[0].skipSize, 0;
      if offset > 0 {
        offsetBytes := CountBytes(found.str, 0, offset, ts[x]);
      }
      IterAtCut(nodes, hs, ts, x, offset, iter[..]);
    }

    /** rope_insert_at_iter: false (ROPE_INVALID_UTF8) and nothing done when the string does not
        decode; otherwise the string's text goes in at the iterator. */
    method InsertAtIter(found: Node, iter: array<Skip>, str: seq<byte>, ghost x0: nat, ghost pos: nat)
      returns (ok: bool)
      requires Valid() && x0 < |nodes| && found == nodes[x0] && iter.Length == MAX_HEIGHT
      requires Pos(ts, x0) <= pos <= Pos(ts, x0 + 1) && (x0 == 0 || Pos(ts, x0) < pos)
      requires IterOk(nodes, hs, ts, x0, pos, iter[..]) && pos <= |Contents()| && 0 in str
      modifies this, nodes, (set n | n in nodes :: n.str), iter
      ensures Valid() && ok == Decode(CString(str)).Some?
      ensures Contents() == InsertText(old(Contents()), pos, str)
      ensures !ok ==> unchanged(this)
      ensures forall n | n in nodes :: n in old(nodes) || (fresh(n) && fresh(n.str))
    {
      hide LinksOk, Row, Filled, Links, Flat, Bytes, NamesCover;
      var offset0, offsetBytes0 := Measure(found, iter, x0, pos);
      var len := BytelenAndCheck(str);
      if len == -1 { return false; }
      BytesOfDecode(CString(str));
      var here, e, offset, offsetBytes;
      ghost var x: nat;
      here, e, offset, offsetBytes, x := ChooseNode(found, iter, offset0, offsetBytes0, len, x0);
      PutIn(e, iter, offsetBytes, offset, here, str, len, x, Decode(CString(str)).value, pos);
      ok := true;
    }

    /** rope_insert: the text goes in at the position, or at the end if the position is past it. */
    method InsertUtf8(pos: nat, str: seq<byte>) returns (ok: bool)
      requires Valid() && 0 in str
      modifies this, nodes, (set n | n in nodes :: n.str)
      ensures Valid() && ok == Decode(CString(str)).Some?
      ensures Contents() == InsertText(old(Contents()), pos, str)
      ensures !ok ==> unchanged(this)
      ensures forall n | n in nodes :: n in old(nodes) || (fresh(n) && fresh(n.str))
    {
      hide LinksOk, Distinct, Filled, Links, Bytes, NamesCover, IterOk;
      SizesAt(ts, 0);
      var at := if pos > numChars then numChars else pos;
      var iter := new Skip[MAX_HEIGHT](_ => Skip(null, 0));
      var e := Seek(at, iter);
      ok := InsertAtIter(e, iter, str, Locate(ts, at), at);
    }

    /** The link updates of rope_del for a node trimmed: its own links shrink on its own levels, and
        above them the links the iterator names. */
    method ShrinkOver(e: Node, iter: array<Skip>, removed: nat, ghost cov: seq<nat>, ghost links: seq<seq<Skip>>)
      requires Distinct(nodes) && Heights(hs) && Fits(hs, Links(nodes)) && head.height == hs[0] && |nodes| == |hs|
      requires |cov| == hs[0] <= iter.Length && e.height <= hs[0]
      requires forall i | 0 <= i < hs[0] :: cov[i] < |hs| && i < hs[cov[i]]
      requires forall i | 0 <= i < hs[0] :: nodes[cov[i]] == if i < e.height then e else iter[i].node
      requires links == Links(nodes) && forall i | 0 <= i < hs[0] :: links[cov[i]][i].skipSize >= removed
      modifies nodes`nexts
      ensures Stretched(hs, links, Links(nodes), cov, hs[0], -(removed as int))
    {
      hide LinksOk, Links, Stretched, Distinct, Fits;
      StretchNone(hs, links, cov, -(removed as int));
      var i := 0;
      while i < e.height
        invariant i <= e.height
        invariant Stretched(hs, links, Links(nodes), cov, i, -(removed as int))
      {
        WidenLevel(e, i, -(removed as int), links, cov);
        i := i + 1;
      }
      while i < head.height
        invariant e.height <= i <= head.height
        invariant Stretched(hs, links, Links(nodes), cov, i, -(removed as int))
      {
        assert iter[i].node == nodes[cov[i]];
        WidenLevel(iter[i].node, i, -(removed as int), links, cov);
        i := i + 1;
      }
    }

    method RelinkTrim(e: Node, iter: array<Skip>, removed: nat, ghost x: nat, ghost t: seq<Codepoint>)
      requires Linked() && Distinct(nodes) && x < |nodes| && NamesAbove(nodes, hs, x, iter[..])
      requires e == nodes[x] && e.height == hs[x]
      requires removed == |ts[x]| - |t|
      modifies nodes`nexts
      ensures LinksOk(nodes, hs, ts[x := t], Links(nodes))
    {
      ghost var cov: seq<nat>, links: seq<seq<Skip>> := Covers(hs, x), Links(nodes);
      forall i | 0 <= i < hs[0]
        ensures links[cov[i]][i].skipSize >= removed
        ensures nodes[cov[i]] == if i < e.height then e else iter[i].node
      {
        CoverWide(nodes, hs, ts, links, x, i);
        assert iter[..][i] == iter[i];
      }
      ShrinkOver(e, iter, removed, cov, links);
      LinksAfterTextChange(nodes, hs, ts, links, x, t, Links(nodes));
    }

    method RetextTrim(e: Node, iter: array<Skip>, removed: nat, bytes: nat, ghost x: nat, ghost t: seq<Codepoint>)
      requires Linked() && Distinct(nodes) && x < |nodes| == |ts| && NamesAbove(nodes, hs, x, iter[..])
      requires e == nodes[x] && e.height == hs[x]
      requires removed == |ts[x]| - |t|
      modifies `ts, `numBytes, nodes`nexts
      ensures ts == old(ts)[x := t] && Linked() && numBytes == bytes
    {
      hide LinksOk, NamesAbove, Links, Distinct, Heights;
      RelinkTrim(e, iter, removed, x, t);
      ts := ts[x := t];
      numBytes := bytes;
    }

    method ResettleTrim(e: Node, iter: array<Skip>, removed: nat, bytes: nat, ghost x: nat, ghost t: seq<Codepoint>)
      requires ShapeBut(x) && nodes[x].Holds(t) && nodes[x].height == hs[x]
      requires NamesAbove(nodes, hs, x, iter[..]) && e == nodes[x]
      requires removed == |ts[x]| - |t| && (x > 0 ==> |t| > 0)
      modifies `ts, `numBytes, nodes`nexts
      ensures ts == old(ts)[x := t] && Shape() && numBytes == bytes
    {
      hide LinksOk, Links, NamesAbove, Bytes;
      RetextTrim(e, iter, removed, bytes, x, t);
    }

    /** The trimming branch of rope_del: some of node x's text goes, but not the node. */
    method Trim(e: Node, iter: array<Skip>, offset: nat, removed: nat, ghost x: nat)
      requires Shape() && x < |nodes| && NamesAbove(nodes, hs, x, iter[..]) && e == nodes[x]
      requires offset + removed <= |ts[x]| && (x == 0 || removed < |ts[x]|)
      requires numBytes >= e.numBytes
      modifies `ts, `numBytes, nodes`nexts, e`numBytes, e.str
      ensures Shape() && ts == old(ts)[x := old(ts)[x][..offset] + old(ts)[x][offset + removed..]]
      ensures numBytes == old(numBytes) - |Bytes(old(ts)[x][offset..offset + removed])|
    {
      ghost var t := ts[x][..offset] + ts[x][offset + removed..];
      var bytes := TrimBytes(e, offset, removed, x);
      ResettleTrim(e, iter, removed, numBytes - bytes, x, t);
    }

    method TrimBytes(e: Node, offset: nat, removed: nat, ghost x: nat) returns (bytes: nat)
      requires Shape() && x < |nodes| && e == nodes[x] && offset + removed <= |ts[x]|
      modifies e`numBytes, e.str
      ensures ShapeBut(x) && nodes[x].height == hs[x]
      ensures nodes[x].Holds(ts[x][..offset] + ts[x][offset + removed..])
      ensures bytes == |Bytes(ts[x][offset..offset + removed])| <= old(e.numBytes)
    {
      hide LinksOk, Links, Bytes, Heights;
      BytesCut(ts[x], offset, removed);
      OthersApart(nodes, x);
      var leading := CountBytes(e.str, 0, offset, ts[x]);
      assert e.str[leading..e.numBytes] == e.str[..e.numBytes][leading..];
      bytes := CountBytes(e.str, leading, removed, ts[x][offset..]);
      e.RemoveBytes(leading, bytes);
      OthersKept(x);
    }

    /** One level of the links into and out of node x joined, or shrunk above it. */
    method JoinLevel(e: Node, iter: array<Skip>, removed: nat, i: nat,
                     ghost x: nat, ghost links: seq<seq<Skip>>, ghost cov: seq<nat>)
      requires Distinct(nodes) && Covered(nodes, hs, links, cov, x, removed, iter[..])
      requires i < hs[0] && e == nodes[x] && e.height == hs[x]
      requires LinkedOut(hs, links, Links(nodes), links[x], cov, x, removed, i)
      modifies nodes`nexts
      ensures LinkedOut(hs, links, Links(nodes), links[x], cov, x, removed, i + 1)
    {
      ghost var before := Links(nodes);
      assert iter[..][i] == iter[i];
      assert JoinedLink(links[cov[i]][i], before[cov[i]][i], i < i, true, i, links[x], removed);
      var prev := iter[i].node;
      var skip := prev.nexts[i];
      var sk := if i < e.height then Skip(e.nexts[i].node, skip.skipSize + e.nexts[i].skipSize - removed)
                else Skip(skip.node, skip.skipSize - removed);
      LinkOneOut(hs, links, before, links[x], cov, x, removed, i, sk);
      SetLink(prev, i, sk, nodes, cov[i]);
    }

    /** The link updates of rope_del for a node taken out. */
    method LinkOut(e: Node, iter: array<Skip>, removed: nat, ghost x: nat, ghost cov: seq<nat>)
      requires Distinct(nodes) && Covered(nodes, hs, Links(nodes), cov, x, removed, iter[..])
      requires e == nodes[x] && e.height == hs[x] && head.height == hs[0]
      modifies nodes`nexts
      ensures LinkedOut(hs, old(Links(nodes)), Links(nodes), old(Links(nodes))[x], cov, x, removed, hs[0])
    {
      ghost var links := Links(nodes);
      LinkNoneOut(hs, links, cov, x, removed);
      var i := 0;
      while i < e.height
        invariant i <= e.height
        invariant LinkedOut(hs, links, Links(nodes), links[x], cov, x, removed, i)
      {
        JoinLevel(e, iter, removed, i, x, links, cov);
        i := i + 1;
      }
      while i < head.height
        invariant e.height <= i <= head.height
        invariant LinkedOut(hs, links, Links(nodes), links[x], cov, x, removed, i)
      {
        JoinLevel(e, iter, removed, i, x, links, cov);
        i := i + 1;
      }
    }

    method RelinkOut(e: Node, iter: array<Skip>, removed: nat, ghost x: nat)
      requires Linked() && Distinct(nodes) && 0 < x < |nodes| && NamesCover(nodes, hs, x - 1, iter[..])
      requires e == nodes[x] && e.height == hs[x] && removed == |ts[x]|
      modifies nodes`nexts
      ensures LinksOk(Remove(nodes, x), Remove(hs, x), Remove(ts, x), Links(Remove(nodes, x)))
    {
      hide NamesCover, LinkedOut, Covered, LinkOk, Pos, Distinct;
      ghost var links := Links(nodes);
      CoveredAt(nodes, hs, ts, links, x, iter[..]);
      LinkOut(e, iter, removed, x, Covers(hs, x - 1));
      LinksAfterRemove(nodes, hs, ts, links, x - 1, Links(nodes));
      LinksRemove(nodes, x);
    }

    method Drop(e: Node, iter: array<Skip>, removed: nat, bytes: nat, ghost x: nat)
      requires Linked() && Distinct(nodes) && 0 < x < |nodes| == |hs| == |ts| && NamesCover(nodes, hs, x - 1, iter[..])
      requires e == nodes[x] && e.height == hs[x] && removed == |ts[x]|
      modifies `nodes, `hs, `ts, `numBytes, nodes`nexts
      ensures Linked() && nodes == Remove(old(nodes), x) && hs == Remove(old(hs), x) && ts == Remove(old(ts), x)
      ensures numBytes == bytes
    {
      hide LinksOk, Links, NamesCover;
      RelinkOut(e, iter, removed, x);
      nodes, hs, ts := Remove(nodes, x), Remove(hs, x), Remove(ts, x);
      numBytes := bytes;
    }

    /** The other branch of rope_del: node x goes with all its text. */
    method Unlink(e: Node, iter: array<Skip>, removed: nat, ghost x: nat)
      requires Shape() && 0 < x < |nodes| && NamesCover(nodes, hs, x - 1, iter[..])
      requires e == nodes[x] && removed == |ts[x]| && numBytes >= e.numBytes
      modifies `nodes, `hs, `ts, `numBytes, nodes`nexts
      ensures Shape() && nodes == Remove(old(nodes), x) && hs == Remove(old(hs), x) && ts == Remove(old(ts), x)
      ensures numBytes == old(numBytes) - |Bytes(old(ts)[x])|
    {
      hide LinksOk, Links, Bytes, NamesCover, Heights;
      RowRemove(nodes, hs, ts, x);
      ghost var nodes0, hs0, ts0 := nodes, hs, ts;
      Drop(e, iter, removed, numBytes - e.numBytes, x);
      FilledRemove(nodes0, hs0, ts0, x);
    }

    /** At the end of a node the deletion goes on at the start of the next. */
    method NextPlace(e: Node, iter: array<Skip>, offset: nat, ghost x: nat, ghost o: nat, ghost pos: nat)
      returns (e': Node, offset': nat, ghost k: nat)
      requires Shape() && DeletesAt(nodes, ts, x, o, pos, e, offset) && NamesCover(nodes, hs, x, iter[..])
      requires pos < Pos(ts, |ts|)
      ensures DeletesIn(nodes, hs, ts, x, o, pos, e', offset', k, iter[..])
      ensures |e'.nexts| > 0 && e'.nexts[0].skipSize == |ts[k]| && (e' == head <==> k == 0)
    {
      hide LinksOk, NamesCover, NamesAbove, DeletesAt, DeletesIn, Filled, Cover, Bytes, Flat, Links, Pos;
      OthersApart(nodes, 0);
      PlaceOf(nodes, hs, ts, x, o, pos, e, offset, iter[..]);
      AtLevelZero(nodes, hs, x, iter[..]);
      FirstSkip(nodes, hs, ts, x);
      k := if o < |ts[x]| then x else x + 1;
      FirstSkip(nodes, hs, ts, k);
      e', offset' := e, offset;
      if offset == e.nexts[0].skipSize {
        e' := iter[0].node.nexts[0].node;
        offset' := 0;
      }
    }

    /** A deletion that leaves node k some text, or that empties the head. */
    method TrimSome(e: Node, iter: array<Skip>, offset: nat, removed: nat,
                    ghost x: nat, ghost o: nat, ghost pos: nat, ghost k: nat)
      requires Shape() && DeletesIn(nodes, hs, ts, x, o, pos, e, offset, k, iter[..])
      requires offset + removed <= |ts[k]| && (removed < |ts[k]| || k == 0)
      requires numBytes >= |Bytes(Flat(ts))|
      modifies `ts, `numBytes, nodes`nexts, e`numBytes, e.str
      ensures Shape() && DeletesAt(nodes, ts, x, o, pos, e, offset)
      ensures Shrunk(old(ts), ts, old(numBytes), numBytes, pos, removed)
    {
      hide Row, Filled, Flat, Shrunk, LinksOk, Bytes, Links;
      SizesAt(ts, k);
      FilledAt(nodes, hs, ts, k);
      TrimShrinks(ts, k, offset, removed, numBytes);
      TrimStays(nodes, hs, ts, x, o, pos, e, offset, k, iter[..], removed);
      Trim(e, iter, offset, removed, k);
    }

    /** A deletion that takes all of a node, and the node with it. */
    method UnlinkSome(e: Node, iter: array<Skip>, removed: nat,
                      ghost x: nat, ghost o: nat, ghost pos: nat, ghost row: seq<Node>) returns (next: Node?)
      requires Shape() && DeletesIn(nodes, hs, ts, x, o, pos, e, 0, x + 1, iter[..])
      requires NamesCover(nodes, hs, x, iter[..])
      requires removed == |ts[x + 1]| && numBytes >= |Bytes(Flat(ts))| && Within(nodes, row)
      modifies `nodes, `hs, `ts, `numBytes, nodes`nexts
      ensures Shape() && DeletesAt(nodes, ts, x, o, pos, next, 0) && NamesCover(nodes, hs, x, iter[..])
      ensures Shrunk(old(ts), ts, old(numBytes), numBytes, pos, removed)
      ensures Within(nodes, row)
    {
      hide Row, Filled, Flat, Shrunk, Pos, Bytes, Links;
      FilledAt(nodes, hs, ts, x + 1);
      WithinRemove(nodes, row, x + 1);
      SizesAt(ts, x + 1);
      RemoveShrinks(ts, x + 1, numBytes);
      FirstLink(nodes, hs, ts, Links(nodes), x + 1);
      RemoveStays(nodes, hs, ts, x, o, pos, e, iter[..]);
      NamesCoverRemove(nodes, hs, x, iter[..]);
      next := e.nexts[0].node;
      Unlink(e, iter, removed, x + 1);
    }

    /** One turn of rope_del's loop. The row is the rope's nodes before the deletion. */
    method DeleteSome(e: Node, iter: array<Skip>, offset: nat, length: nat,
                      ghost x: nat, ghost o: nat, ghost pos: nat, ghost row: seq<Node>)
      returns (removed: nat, e': Node?, offset': nat)
      requires Shape() && DeletesAt(nodes, ts, x, o, pos, e, offset) && NamesCover(nodes, hs, x, iter[..])
      requires 0 < length && pos < Pos(ts, |ts|) && numBytes >= |Bytes(Flat(ts))|
      requires Within(nodes, row)
      modifies `nodes, `hs, `ts, `numBytes, row, (set n | n in row :: n.str)
      ensures Shape() && DeletesAt(nodes, ts, x, o, pos, e', offset') && NamesCover(nodes, hs, x, iter[..])
      ensures 0 < removed <= length
      ensures Shrunk(old(ts), ts, old(numBytes), numBytes, pos, removed)
      ensures Within(nodes, row)
    {
      hide LinksOk, Row, Filled, Flat, Bytes, Shrunk, Links, DeletesAt, NamesCover;
      var at: Node;
      ghost var k: nat;
      at, offset', k := NextPlace(e, iter, offset, x, o, pos);
      assert at in row;
      var n := at.nexts[0].skipSize;
      removed := Min(length, n - offset');
      if removed < n || at == head {
        TrimSome(at, iter, offset', removed, x, o, pos, k);
        e' := at;
      } else {
        e' := UnlinkSome(at, iter, removed, x, o, pos, row);
      }
    }

    /** ... after `gone` characters of the text ts0 have gone. */
    method DeleteTurn(e: Node?, iter: array<Skip>, offset: nat, left: nat, ghost x: nat, ghost o: nat, ghost pos: nat,
                      ghost ts0: seq<seq<Codepoint>>, ghost bytes0: nat, ghost gone: nat, ghost row: seq<Node>)
      returns (left': nat, e': Node?, offset': nat)
      requires Shape() && DeletesAt(nodes, ts, x, o, pos, e, offset) && NamesCover(nodes, hs, x, iter[..])
      requires Shrunk(ts0, ts, bytes0, numBytes, pos, gone) && bytes0 == |Bytes(Flat(ts0))|
      requires 0 < left && pos + gone + left <= |Flat(ts0)|
      requires Within(nodes, row)
      modifies `nodes, `hs, `ts, `numBytes, row, (set n | n in row :: n.str)
      ensures x < |nodes| == |hs|
      ensures Shape() && DeletesAt(nodes, ts, x, o, pos, e', offset') && NamesCover(nodes, hs, x, iter[..])
      ensures left' < left
      ensures Shrunk(ts0, ts, bytes0, numBytes, pos, gone + (left - left'))
      ensures Within(nodes, row)
    {
      hide LinksOk, Distinct, Filled, Flat, Bytes, Links, NamesCover;
      ghost var ts', bytes' := ts, numBytes;
      MoreToDelete(nodes, ts, x, o, pos, e, offset, left);
      var removed: nat;
      removed, e', offset' := DeleteSome(e, iter, offset, left, x, o, pos, row);
      left' := left - removed;
      ShrunkMore(ts0, ts', ts, bytes0, bytes', numBytes, pos, gone, removed);
    }

    /** rope_del_at_iter: one iterator, taken before anything changes, serves the whole deletion. */
    method DeleteAtIter(found: Node, iter: array<Skip>, length: nat, ghost x: nat, ghost o: nat, ghost pos: nat)
      requires Shape() && x < |nodes| && DeletesAt(nodes, ts, x, o, pos, found, o) && NamesCover(nodes, hs, x, iter[..])
      requires hs[0] <= iter.Length && iter[0].skipSize == o && found == nodes[x]
      requires pos + length <= |Flat(ts)| <= numChars && numBytes == |Bytes(Flat(ts))|
      modifies `nodes, `hs, `ts, `numChars, `numBytes, nodes, (set n | n in nodes :: n.str)
      ensures Shape() && Shrunk(old(ts), ts, old(numBytes), numBytes, pos, length)
      ensures numChars == old(numChars) - length && Within(nodes, old(nodes))
    {
      hide LinksOk, Filled, Flat, Bytes, Shrunk, Links, NamesCover, DeletesAt, Distinct;
      numChars := numChars - length;
      var e: Node? := found;
      var offset := iter[0].skipSize;
      var left := length;
      ghost var gone: nat, row := 0, nodes;
      ShrunkNone(ts, numBytes, pos);
      WithinSelf(nodes);
      while left > 0
        invariant gone + left == length && numChars == old(numChars) - length
        invariant Shape() && x < |nodes| == |hs|
        invariant DeletesAt(nodes, ts, x, o, pos, e, offset) && NamesCover(nodes, hs, x, iter[..])
        invariant Shrunk(old(ts), ts, old(numBytes), numBytes, pos, gone)
        invariant Within(nodes, row)
        decreases left
      {
        ghost var before := left;
        left, e, offset := DeleteTurn(e, iter, offset, left, x, o, pos, old(ts), old(numBytes), gone, row);
        gone := gone + (before - left);
      }
      assert gone == length;
    }

    /** rope_del: the text loses its characters from the position on, as far as it has them. */
    method Delete(pos: nat, length: nat)
      requires Valid()
      modifies this, nodes, (set n | n in nodes :: n.str)
      ensures Valid() && Contents() == DeleteText(old(Contents()), pos, length)
      ensures Within(nodes, old(nodes))
    {
      hide LinksOk, Distinct, Filled, Links, Flat, Bytes, NamesCover, Shrunk, DeleteText, IterOk, DeletesAt;
      SizesAt(ts, 0);
      var at := Min(pos, numChars);
      var n := Min(length, numChars - at);
      var iter := new Skip[MAX_HEIGHT](_ => Skip(null, 0));
      var e := Seek(at, iter);
      ghost var x, ts0 := Locate(ts, at), ts;
      StartOfCut(nodes, hs, ts, x, at, e, iter[..]);
      DeleteAtIter(e, iter, n, x, at - Pos(ts, x), at);
      DeletedText(ts0, ts, numBytes, pos, length);
    }
  }

  // ---- what the operations do to the text ----

  function Min(a: nat, b: nat): nat {
    if a > b then b else a
  }

  /** rope_insert on texts. */
  function InsertText(text: seq<Codepoint>, pos: nat, str: seq<byte>): seq<Codepoint>
    requires 0 in str
  {
    var at := Min(pos, |text|);
    match Decode(CString(str))
    case None => text
    case Some(more) => text[..at] + more + text[at..]
  }

  /** rope_del on texts. */
  function DeleteText(text: seq<Codepoint>, pos: nat, length: nat): seq<Codepoint> {
    var at := Min(pos, |text|);
    text[..at] + text[at + Min(length, |text| - at)..]
  }

  /** Character by character: what stands before the position stays, what stands from it on moves behind what was
      inserted. */
  lemma InsertedAt(text: seq<Codepoint>, pos: nat, str: seq<byte>, k: nat)
    requires 0 in str && Decode(CString(str)).Some?
    ensures var more, r := Decode(CString(str)).value, InsertText(text, pos, str);
            var at := if pos < |text| then pos else |text|;
            && |r| == |text| + |more|
            && (k < |r| ==> r[k] == if k < at then text[k] else if k < at + |more| then more[k - at]
                                    else text[k - |more|])
  {
    hide Decode, CString;
  }

  /** ... and what a deletion leaves: all that stands before the position, and all that stands behind the stretch
      of that length. */
  lemma DeletedAt(text: seq<Codepoint>, pos: nat, length: nat, k: nat)
    ensures var r := DeleteText(text, pos, length);
            && |r| == (if pos >= |text| then |text| else if pos + length >= |text| then pos else |text| - length)
            && (k < |r| ==> r[k] == if k < pos then text[k] else text[k + length])
  {
  }

  /** What has shrunk by a clamped deletion is the text with that deletion. */
  lemma DeletedText(ts: seq<seq<Codepoint>>, ts': seq<seq<Codepoint>>, bytes: int, pos: nat, length: nat)
    requires var at := Min(pos, |Flat(ts)|);
             Shrunk(ts, ts', |Bytes(Flat(ts))|, bytes, at, Min(length, |Flat(ts)| - at))
    ensures Flat(ts') == DeleteText(Flat(ts), pos, length) && bytes == |Bytes(Flat(ts'))|
    ensures Pos(ts', |ts'|) == |Flat(ts)| - Min(length, |Flat(ts)| - Min(pos, |Flat(ts)|))
  {
    hide Flat, Bytes;
    PosIsLength(ts', |ts'|);
    assert ts'[..|ts'|] == ts';
  }

  /** Deleting what was inserted restores the text, unless the insertion was clamped to the end. */
  lemma UndoInsert(text: seq<Codepoint>, pos: nat, str: seq<byte>)
    requires 0 in str && Decode(CString(str)).Some?
    ensures var n := |Decode(CString(str)).value|;
            DeleteText(InsertText(text, pos, str), pos, n) == text <==> pos <= |text| || n == 0
  {
    var more := Decode(CString(str)).value;
    var long := InsertText(text, pos, str);
    var at := Min(pos, |long|);
    if pos <= |text| {
      assert long[..pos] == text[..pos] && long[pos + |more|..] == text[pos..];
    } else if |more| == 0 {
      assert long == text;
    } else {
      assert |DeleteText(long, pos, |more|)| >= at > |text|;
    }
  }

  /** Cutting a stretch out in two goes is cutting it out in one. */
  lemma DeleteTwice(text: seq<Codepoint>, pos: nat, m: nat, n: nat)
    ensures DeleteText(DeleteText(text, pos, m), pos, n) == DeleteText(text, pos, m + n)
  {
    var at := Min(pos, |text|);
    var m' := Min(m, |text| - at);
    assert DeleteText(text, pos, m)[at..] == text[at + m'..];
  }
}
