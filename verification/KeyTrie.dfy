/** The terminfo driver's trie of key sequences: how it is filled, compressed and walked, and that it
    answers as a flat list of the sequences would. */
module KeyTrie {
  import opened Basics
  import opened TermKeyKeys
  import opened TermKeyPeek

  /** What a sequence of the terminfo entry stands for. */
  datatype Leaf = KeyLeaf(key: Key) | MouseLeaf

  datatype Kind = Arr | End(leaf: Leaf)

  /** A node: the end of a sequence, or an array of nodes over an extent of bytes. */
  class TrieNode {
    const kind: Kind
    const min: int
    const max: int
    const arr: array<TrieNode?>

    /** new_node_key, or a mouse node */
    constructor End(leaf: Leaf)
      ensures kind == Kind.End(leaf) && fresh(arr)
    {
      kind := Kind.End(leaf);
      min, max := 0, -1;
      arr := new TrieNode?[0];
    }

    /** new_node_arr; both ends of the extent are inclusive. */
    constructor Extent(min: byte, max: byte)
      requires min <= max
      ensures kind == Arr && this.min == min && this.max == max && arr.Length == max - min + 1 && fresh(arr)
      ensures forall i | 0 <= i < arr.Length :: arr[i] == null
    {
      kind := Arr;
      this.min, this.max := min, max;
      arr := new TrieNode?[max - min + 1](_ => null);
    }

    predicate Formed() {
      kind.Arr? ==> 0 <= min <= max < 0x100 && arr.Length == max - min + 1
    }

    /** lookup_next, which aborts on a node that is no array */
    function Next(b: byte): TrieNode?
      requires kind.Arr? && Formed()
      reads arr
    {
      if b < min || b > max then null else arr[b - min]
    }
  }

  /** The nodes of a trie by the bytes that lead to them. */
  type Shape = map<seq<byte>, TrieNode>

  function Below(shape: Shape, q: seq<byte>, b: byte): TrieNode? {
    if q + [b] in shape then shape[q + [b]] else null
  }

  /** The node at q leads to what is below it, and to nothing else. */
  ghost predicate NodeOk(shape: Shape, q: seq<byte>)
    requires q in shape
    reads shape[q].arr
  {
    && shape[q].Formed()
    && forall b: byte :: Below(shape, q, b) == if shape[q].kind.Arr? then shape[q].Next(b) else null
  }

  /** Arrays are not shared between nodes. */
  ghost predicate Unshared(shape: Shape) {
    forall q, q' | q in shape && q' in shape && q != q' && shape[q].kind.Arr? && shape[q'].kind.Arr? ::
      shape[q].arr != shape[q'].arr
  }

  ghost predicate Linked(shape: Shape)
    reads set q | q in shape :: shape[q].arr
  {
    forall q | q in shape :: NodeOk(shape, q)
  }

  /** The sequences entered, each with its leaf. */
  type Entries = map<seq<byte>, Leaf>

  ghost predicate OnTheWay(entries: Entries, q: seq<byte>) {
    exists s | s in entries :: q <= s
  }

  /** The shape has a node for every beginning of an entry, and of the path `extra`; the leaves are at the
      entries. */
  ghost predicate Spans(shape: Shape, entries: Entries, extra: seq<byte>) {
    && (forall q :: q in shape <==> OnTheWay(entries, q) || q <= extra)
    && (forall q | q in shape :: shape[q].kind == if q in entries then End(entries[q]) else Arr)
  }

  /** No sequence is empty or goes on from another. */
  ghost predicate PrefixFree(entries: Entries) {
    && [] !in entries
    && forall s, t | s in entries && t in entries && s <= t :: s == t
  }

  /** Trie, entries and all. */
  ghost predicate Trie(root: TrieNode, shape: Shape, entries: Entries, extra: seq<byte>)
    reads set q | q in shape :: shape[q].arr
  {
    && [] in shape && shape[[]] == root
    && Spans(shape, entries, extra) && PrefixFree(entries)
    && Linked(shape)
  }

  // ---- walking ----

  /** A leaf reached after n bytes of p. */
  function Reached(leaf: Leaf, n: nat, p: seq<byte>): Peeked
    requires n <= |p|
  {
    match leaf
    case KeyLeaf(key) => Got(Whole(key), n, 0, None, None)
    case MouseLeaf =>
      var m := PeekMouse(p[n..]);
      if m.Got? then m.(n := m.n + n) else m
  }

  /** What is found where p begins with a sequence of n bytes: the key loaded for it, modifiers and all, whatever the
      caller's structure held; or, for a mouse report, what the three bytes behind it tell, each less 0x20, with the
      modifiers taken out of the first. */
  ghost predicate Means(leaf: Leaf, n: nat, p: seq<byte>, r: Peeked)
    requires n <= |p|
  {
    match leaf
    case KeyLeaf(key) => r.Got? && r.n == n && r.tide == 0 && forall held :: Given(r.key, held) == key
    case MouseLeaf =>
      if |p| < n + 3 then r == Again
      else
        var less: byte -> byte := b => (b as int - 0x20) % 0x100;
        var button := less(p[n]);
        && r.Got? && r.n == n + 3 && r.tide == 0
        && forall held :: var key := Given(r.key, held);
             && key.modifiers == button / 4 % 8
             && key.code == Mouse([button - 4 * key.modifiers, less(p[n + 1]), less(p[n + 2]), 0])
  }

  lemma ReachedMeans(leaf: Leaf, n: nat, p: seq<byte>)
    requires n <= |p|
    ensures Means(leaf, n, p, Reached(leaf, n, p))
  {
  }

  /** One step of a walk. */
  lemma Step(root: TrieNode, shape: Shape, entries: Entries, p: seq<byte>, k: nat)
    requires Trie(root, shape, entries, []) && k < |p| && p[..k] in shape && p[..k] !in entries
    ensures shape[p[..k]].kind.Arr? && shape[p[..k]].Formed()
    ensures var next := shape[p[..k]].Next(p[k]);
            if p[..k + 1] in shape then next == shape[p[..k + 1]] else next == null
  {
    assert p[..k + 1] == p[..k] + [p[k]];
    assert NodeOk(shape, p[..k]);
    assert Below(shape, p[..k], p[k]) == shape[p[..k]].Next(p[k]);
  }

  /** What a search of the entries gives: the leaf of the sequence that p begins with; or Again when p is
      the beginning of one and more may come; or nothing. */
  ghost predicate Answers(entries: Entries, p: seq<byte>, force: bool, closed: bool, r: Peeked) {
    if |p| == 0 then r == if closed then Eof else NoKey
    else if exists s | s in entries :: s <= p then
      forall s | s in entries && s <= p :: r == Reached(entries[s], |s|, p) && Means(entries[s], |s|, p, r)
    else
      r == if !force && OnTheWay(entries, p) then Again else NoKey
  }

  /** While a walk of p goes on past k bytes, no entry has ended. */
  ghost predicate Open(entries: Entries, p: seq<byte>, k: nat) {
    forall s | s in entries && s <= p :: |s| > k
  }

  lemma OpenOneMore(entries: Entries, p: seq<byte>, k: nat)
    requires k < |p| && Open(entries, p, k) && p[..k + 1] !in entries
    ensures Open(entries, p, k + 1)
  {
    forall s | s in entries && s <= p ensures |s| > k + 1 {
      assert s == p[..|s|];
    }
  }

  /** The walk ends at an entry. */
  lemma AtEntry(entries: Entries, p: seq<byte>, k: nat, force: bool, closed: bool)
    requires PrefixFree(entries) && 0 < k <= |p| && p[..k] in entries
    ensures Answers(entries, p, force, closed, Reached(entries[p[..k]], k, p))
  {
    assert p[..k] <= p;
    assert forall s | s in entries && s <= p :: s == p[..k];
    ReachedMeans(entries[p[..k]], k, p);
  }

  /** The walk leaves the trie. */
  lemma OffTrie(shape: Shape, entries: Entries, p: seq<byte>, k: nat, force: bool, closed: bool)
    requires Spans(shape, entries, []) && k < |p| && Open(entries, p, k) && p[..k + 1] !in shape
    ensures Answers(entries, p, force, closed, NoKey)
  {
    assert !OnTheWay(entries, p[..k + 1]);
    assert forall s | s in entries :: !(s <= p) && !(p <= s);
  }

  /** The walk is still in the trie when p is at its end. */
  lemma AtEnd(shape: Shape, entries: Entries, p: seq<byte>, force: bool, closed: bool)
    requires Spans(shape, entries, []) && |p| > 0 && Open(entries, p, |p|) && p in shape
    ensures Answers(entries, p, force, closed, if force then NoKey else Again)
  {
    assert !(p <= []);
  }

  /** peekkey of the terminfo driver: the walk finds what a search of the entries would. */
  method PeekKey(root: TrieNode, buffer: array<byte>, start: nat, count: nat, force: bool, closed: bool,
                 ghost shape: Shape, ghost entries: Entries)
    returns (r: Peeked)
    requires Trie(root, shape, entries, []) && start + count <= buffer.Length
    ensures Answers(entries, buffer[start..start + count], force, closed, r)
  {
    hide Answers, Trie, Spans;
    ghost var p := buffer[start..start + count];
    if count == 0 {
      r := if closed then Eof else NoKey;
      Nothing(entries, p, force, closed);
      return;
    }
    var node := root;
    var pos := 0;
    Begin(root, shape, entries, p);
    while pos < count
      invariant 0 <= pos <= count && p[..pos] in shape && node == shape[p[..pos]]
      invariant p[..pos] !in entries && Open(entries, p, pos)
    {
      Step(root, shape, entries, p, pos);
      assert buffer[start + pos] == p[pos];
      var next := node.Next(buffer[start + pos]);
      if next == null {
        OffTrie(shape, entries, p, pos, force, closed) by { SpansOf(root, shape, entries); }
        return NoKey;
      }
      node := next;
      pos := pos + 1;
      KindAt(root, shape, entries, p[..pos]);
      if node.kind.End? {
        AtEntry(entries, p, pos, force, closed);
        match node.kind.leaf
        case KeyLeaf(key) =>
          return Got(Whole(key), pos, 0, None, None);
        case MouseLeaf =>
          var m := PeekMouse(buffer[start + pos..start + count]);
          return if m.Got? then m.(n := m.n + pos) else m;
      }
      OpenOneMore(entries, p, pos - 1);
    }
    assert p[..pos] == p;
    AtEnd(shape, entries, p, force, closed) by { SpansOf(root, shape, entries); }
    r := if force then NoKey else Again;
  }

  lemma Nothing(entries: Entries, p: seq<byte>, force: bool, closed: bool)
    requires |p| == 0
    ensures Answers(entries, p, force, closed, if closed then Eof else NoKey)
  {
  }

  lemma Begin(root: TrieNode, shape: Shape, entries: Entries, p: seq<byte>)
    requires Trie(root, shape, entries, [])
    ensures p[..0] in shape && shape[p[..0]] == root && p[..0] !in entries && Open(entries, p, 0)
  {
    assert p[..0] == [];
  }

  lemma SpansOf(root: TrieNode, shape: Shape, entries: Entries)
    requires Trie(root, shape, entries, [])
    ensures Spans(shape, entries, [])
  {
  }

  lemma KindAt(root: TrieNode, shape: Shape, entries: Entries, q: seq<byte>)
    requires Trie(root, shape, entries, []) && q in shape
    ensures shape[q].kind == if q in entries then End(entries[q]) else Arr
    ensures PrefixFree(entries) && (q in entries ==> q != [])
  {
  }

  // ---- filling ----

  /** Array nodes reach over all the bytes, as they do until the trie is compressed. */
  ghost predicate Wide(shape: Shape) {
    forall q | q in shape && shape[q].kind.Arr? :: shape[q].min == 0 && shape[q].max == 0xff
  }

  /** A new node without anything below it. */
  ghost predicate Bare(node: TrieNode)
    reads node.arr
  {
    node.Formed() && (node.kind.Arr? ==> node.min == 0 && node.max == 0xff && forall b: byte :: node.Next(b) == null)
  }

  /** A node goes in below the array node at q. */
  method Attach(p: TrieNode, b: byte, next: TrieNode, ghost q: seq<byte>, ghost shape: Shape)
    requires Linked(shape) && Unshared(shape) && Wide(shape)
    requires q in shape && shape[q] == p && p.kind.Arr?
    requires q + [b] !in shape && (forall c: byte :: q + [b] + [c] !in shape)
    requires Bare(next) && (next.kind.Arr? ==> forall q' | q' in shape :: shape[q'].arr != next.arr)
    modifies p.arr
    ensures Linked(shape[q + [b] := next]) && Unshared(shape[q + [b] := next]) && Wide(shape[q + [b] := next])
  {
    ghost var shape' := shape[q + [b] := next];
    assert NodeOk(shape, q);
    p.arr[b - p.min] := next;
    forall q' | q' in shape' ensures NodeOk(shape', q') {
      if q' != q + [b] { assert old(NodeOk(shape, q')); }
      forall c: byte ensures Below(shape', q', c) == if shape'[q'].kind.Arr? then shape'[q'].Next(c) else null {
        if q' == q + [b] {
          assert Below(shape', q', c) == null;
        } else {
          SameStep(q, b, q', c);
          assert old(Below(shape, q', c) == if shape[q'].kind.Arr? then shape[q'].Next(c) else null);
        }
      }
    }
  }

  lemma SameStep(q: seq<byte>, b: byte, q': seq<byte>, c: byte)
    ensures q + [b] == q' + [c] <==> q == q' && b == c
  {
    if q + [b] == q' + [c] {
      assert (q + [b])[|q|] == b && (q' + [c])[|q'|] == c;
      assert q == (q + [b])[..|q|] && q' == (q' + [c])[..|q'|];
    }
  }

  ghost predicate ExtendsEntry(entries: Entries, seq': seq<byte>) {
    exists s | s in entries :: s < seq'
  }

  /** A path with one more byte on it, to a new array node. */
  lemma SpansArr(shape: Shape, entries: Entries, q: seq<byte>, b: byte, next: TrieNode)
    requires Spans(shape, entries, q) && q + [b] !in shape && next.kind.Arr?
    ensures Spans(shape[q + [b] := next], entries, q + [b])
  {
    var shape' := shape[q + [b] := next];
    forall q' ensures q' in shape' <==> OnTheWay(entries, q') || q' <= q + [b] {
      assert q' <= q + [b] <==> q' <= q || q' == q + [b];
    }
    assert !OnTheWay(entries, q + [b]);
    EntryOnTheWay(entries, q + [b]);
  }

  /** ... and to the leaf of a new entry. */
  lemma SpansEnd(shape: Shape, entries: Entries, q: seq<byte>, b: byte, next: TrieNode, leaf: Leaf)
    requires Spans(shape, entries, q) && q + [b] !in shape && next.kind == End(leaf)
    ensures Spans(shape[q + [b] := next], entries[q + [b] := leaf], [])
  {
    var shape', entries' := shape[q + [b] := next], entries[q + [b] := leaf];
    forall q' ensures q' in shape' <==> OnTheWay(entries', q') || q' <= [] {
      assert q' <= q + [b] <==> q' <= q || q' == q + [b];
      if OnTheWay(entries, q') { var s :| s in entries && q' <= s; assert s in entries'; }
      if q' <= q + [b] { assert q + [b] in entries'; }
      if OnTheWay(entries', q') && !OnTheWay(entries, q') { assert q' <= q + [b]; }
    }
    assert !OnTheWay(entries, q + [b]);
    forall q' | q' in shape' ensures shape'[q'].kind == if q' in entries' then End(entries'[q']) else Arr {
      if q' != q + [b] { assert q' in shape; }
    }
  }

  /** Where the trie ends, nothing lies beyond, and no entry either. */
  lemma Beyond(root: TrieNode, shape: Shape, entries: Entries, q: seq<byte>, b: byte)
    requires Trie(root, shape, entries, q) && q + [b] !in shape && q in shape && shape[q].kind.Arr?
    ensures forall c: byte :: q + [b] + [c] !in shape
    ensures forall s | s in entries :: !(q + [b] <= s)
    ensures forall s | s in entries :: !(s <= q + [b])
  {
    hide Trie, Spans, OnTheWay;
    SpansAt(root, shape, entries, q);
    NothingBeyond(shape, entries, q, b);
    forall k | 0 <= k <= |q| ensures q[..k] !in entries {
      NoEntryOnPath(root, shape, entries, q, k);
    }
    forall s | s in entries ensures !(s <= q + [b]) {
      BeginningOf(s, q, b);
      assert s <= s;
    }
  }

  lemma SpansAt(root: TrieNode, shape: Shape, entries: Entries, q: seq<byte>)
    requires Trie(root, shape, entries, q)
    ensures Spans(shape, entries, q)
  {
  }

  lemma BeginningOf(s: seq<byte>, q: seq<byte>, b: byte)
    ensures s <= q + [b] ==> s == q + [b] || (|s| <= |q| && s == q[..|s|])
  {
  }

  lemma NothingBeyond(shape: Shape, entries: Entries, q: seq<byte>, b: byte)
    requires Spans(shape, entries, q) && q + [b] !in shape
    ensures forall c: byte :: q + [b] + [c] !in shape
    ensures forall s | s in entries :: !(q + [b] <= s)
  {
    forall c: byte ensures q + [b] + [c] !in shape {
      FurtherOnTheWay(entries, q + [b], q + [b] + [c]);
    }
    assert !OnTheWay(entries, q + [b]);
  }

  lemma Extending(entries: Entries, sq: seq<byte>, k: nat)
    requires k < |sq| && sq[..k] in entries
    ensures ExtendsEntry(entries, sq)
  {
    assert sq[..k] < sq;
  }

  lemma EntryOnTheWay(entries: Entries, q: seq<byte>)
    ensures q in entries ==> OnTheWay(entries, q)
  {
    assert q <= q;
  }

  lemma FurtherOnTheWay(entries: Entries, q: seq<byte>, q': seq<byte>)
    requires q <= q'
    ensures OnTheWay(entries, q') ==> OnTheWay(entries, q)
  {
  }

  /** The beginnings of a path to an array node are no entries. */
  lemma NoEntryOnPath(root: TrieNode, shape: Shape, entries: Entries, q: seq<byte>, k: nat)
    requires Trie(root, shape, entries, q) && q in shape && shape[q].kind.Arr? && k <= |q|
    ensures q[..k] !in entries
  {
    if k == |q| {
      assert q[..k] == q;
    } else {
      assert q[..k] <= q && q[..k + 1] <= q;
      assert q[..k] + [q[k]] == q[..k + 1];
      assert NodeOk(shape, q[..k]);
      assert Below(shape, q[..k], q[k]) != null;
    }
  }

  /** The driver's trie, with its nodes and entries as ghosts. */
  class TermKeyTI {
    var root: TrieNode
    ghost var shape: Shape
    ghost var entries: Entries

    ghost predicate Valid()
      reads this, set q | q in shape :: shape[q].arr
    {
      Trie(root, shape, entries, []) && Unshared(shape)
    }

    /** load_terminfo's empty trie */
    constructor ()
      ensures Valid() && Wide(shape) && entries == map[]
      ensures forall q | q in shape :: fresh(shape[q].arr)
    {
      var n := new TrieNode.Extent(0, 0xff);
      root, shape, entries := n, map[[] := n], map[];
    }

    /** The first loop of insert_seq: as far as the trie already goes. */
    method WalkDown(sq: seq<byte>) returns (p: TrieNode, pos: nat, aborted: bool)
      requires Valid()
      ensures aborted <==> ExtendsEntry(entries, sq)
      ensures !aborted ==> pos <= |sq| && sq[..pos] in shape && p == shape[sq[..pos]]
      ensures !aborted && pos < |sq| ==> p.kind.Arr? && sq[..pos + 1] !in shape
    {
      hide Linked, Spans, Unshared, OnTheWay, PrefixFree, NodeOk, ExtendsEntry;
      p, pos, aborted := root, 0, false;
      assert sq[..0] == [];
      while pos < |sq|
        invariant pos <= |sq| && sq[..pos] in shape && p == shape[sq[..pos]]
        invariant forall k | 0 <= k < pos :: sq[..k] !in entries
      {
        KindAt(root, shape, entries, sq[..pos]);
        if p.kind.End? {
          Extending(entries, sq, pos);
          return p, pos, true;
        }
        Step(root, shape, entries, sq, pos);
        var next := p.Next(sq[pos]);
        if next == null {
          NotExtending(sq, pos);
          return;
        }
        p := next;
        pos := pos + 1;
      }
      NotExtending(sq, pos);
    }

    lemma NotExtending(sq: seq<byte>, pos: nat)
      requires Valid() && pos <= |sq| && forall k | 0 <= k < pos :: sq[..k] !in entries
      requires pos == |sq| || (sq[..pos] !in entries && sq[..pos + 1] !in shape)
      ensures !ExtendsEntry(entries, sq)
    {
      forall s | s in entries ensures !(s < sq) {
        if s < sq {
          assert s == sq[..|s|];
          if |s| > pos { FurtherOnTheWay(entries, sq[..pos + 1], s); EntryOnTheWay(entries, s); }
        }
      }
    }

    /** One turn of insert_seq's second loop: an array node goes in, on the way to the sequence's end. */
    method Deepen(p: TrieNode, sq: seq<byte>, pos: nat) returns (next: TrieNode)
      requires pos < |sq| && Trie(root, shape, entries, sq[..pos]) && Unshared(shape) && Wide(shape)
      requires sq[..pos] in shape && shape[sq[..pos]] == p && p.kind.Arr? && sq[..pos + 1] !in shape
      modifies `shape, p.arr
      ensures Trie(root, shape, entries, sq[..pos + 1]) && Unshared(shape) && Wide(shape)
      ensures shape == old(shape)[sq[..pos + 1] := next] && next.kind.Arr? && fresh(next.arr)
    {
      hide Linked, Unshared, Wide, OnTheWay, Spans;
      ghost var q := sq[..pos];
      var b := sq[pos];
      assert sq[..pos + 1] == q + [b];
      var node := new TrieNode.Extent(0, 0xff);
      next := node;
      Beyond(root, shape, entries, q, b);
      SpansArr(shape, entries, q, b, node);
      Attach(p, b, node, q, shape);
      shape := shape[q + [b] := node];
    }

    /** ... and the last turn: the sequence's own node. */
    method Finish(p: TrieNode, sq: seq<byte>, node: TrieNode)
      requires |sq| > 0 && Trie(root, shape, entries, sq[..|sq| - 1]) && Unshared(shape) && Wide(shape)
      requires sq[..|sq| - 1] in shape && shape[sq[..|sq| - 1]] == p && p.kind.Arr? && sq !in shape
      requires node.kind.End?
      modifies `shape, `entries, p.arr
      ensures Valid() && Wide(shape)
      ensures shape == old(shape)[sq := node] && entries == old(entries)[sq := node.kind.leaf]
    {
      hide Linked, Unshared, Wide, OnTheWay, Spans;
      ghost var q := sq[..|sq| - 1];
      var b := sq[|sq| - 1];
      assert sq == q + [b];
      Beyond(root, shape, entries, q, b);
      SpansEnd(shape, entries, q, b, node, node.kind.leaf);
      Attach(p, b, node, q, shape);
      shape, entries := shape[q + [b] := node], entries[q + [b] := node.kind.leaf];
    }

    /** insert_seq. It aborts on a sequence that goes on from one already entered; it drops one that is
        already there, or that one already there goes on from; any other it enters. */
    method InsertSeq(sq: seq<byte>, node: TrieNode) returns (aborted: bool)
      requires Valid() && Wide(shape) && node.kind.End?
      modifies `shape, `entries, set q | q in shape :: shape[q].arr
      ensures aborted <==> ExtendsEntry(old(entries), sq)
      ensures aborted || |sq| == 0 || OnTheWay(old(entries), sq) ==> entries == old(entries)
      ensures !aborted && |sq| > 0 && !OnTheWay(old(entries), sq) ==> entries == old(entries)[sq := node.kind.leaf]
      ensures Valid() && Wide(shape)
      ensures forall q | q in shape ::
                (q in old(shape) && shape[q] == old(shape)[q]) || fresh(shape[q].arr) || shape[q] == node
    {
      hide Linked, Unshared, Wide, OnTheWay, NodeOk, ExtendsEntry, PrefixFree, Spans;
      ghost var entries0 := entries;
      var p, pos;
      p, pos, aborted := WalkDown(sq);
      if aborted { return; }
      Arrived(root, shape, entries, sq, pos);
      if pos == |sq| { return; }
      while pos < |sq| - 1
        invariant pos < |sq| && sq[..pos] in shape && shape[sq[..pos]] == p && p.kind.Arr? && sq[..pos + 1] !in shape
        invariant Trie(root, shape, entries, sq[..pos]) && Unshared(shape) && Wide(shape) && entries == entries0
        invariant forall q | q in shape :: (q in old(shape) && shape[q] == old(shape)[q]) || fresh(shape[q].arr)
      {
        NotFurther(root, shape, entries, sq, pos);
        p := Deepen(p, sq, pos);
        pos := pos + 1;
      }
      assert sq[..pos + 1] == sq;
      Finish(p, sq, node);
    }

    /** The end of load_terminfo: the trie is compressed. Without a single entry the search for the lowest
        byte of the root would never end. */
    method Compress()
      requires Valid() && Wide(shape) && |entries| > 0
      modifies `root, `shape
      ensures Valid() && entries == old(entries)
      ensures shape.Keys == old(shape.Keys) && forall q | q in shape && shape[q].kind.Arr? :: fresh(shape[q].arr)
    {
      hide Linked, Unshared, Wide, Spans, NodeOk, SameFrom, Compressible;
      ghost var bound := Longest(shape.Keys);
      Ready(root, shape, entries, bound);
      ghost var shape';
      var n;
      n, shape' := CompressTrie(root, [], shape, bound);
      StillTrie(root, shape, entries, n, shape');
      root, shape := n, shape';
    }

    /** peekkey */
    method Peek(buffer: array<byte>, start: nat, count: nat, force: bool, closed: bool) returns (r: Peeked)
      requires Valid() && start + count <= buffer.Length
      ensures Answers(entries, buffer[start..start + count], force, closed, r)
    {
      r := PeekKey(root, buffer, start, count, force, closed, shape, entries);
    }
  }

  ghost function Longest(keys: set<seq<byte>>): (n: nat)
    ensures forall q | q in keys :: |q| <= n
  {
    if keys == {} then 0
    else
      var q :| q in keys;
      var n := Longest(keys - {q});
      if |q| > n then |q| else n
  }

  /** Every array node of a finished trie has a node below it, but for the root of an empty one. */
  lemma HasChild(root: TrieNode, shape: Shape, entries: Entries, q: seq<byte>)
    requires Trie(root, shape, entries, []) && q in shape && shape[q].kind.Arr?
    ensures HasBelow(shape, q) <==> q != [] || |entries| > 0
  {
    hide Linked, OnTheWay;
    if q != [] || |entries| > 0 {
      var s: seq<byte>;
      if q == [] {
        s :| s in entries;
      } else {
        s := EntryBeyond(entries, q);
      }
      ChildTowards(shape, entries, q, s);
    } else {
      forall b: byte ensures q + [b] !in shape {
        assert !OnTheWay(entries, q + [b]) by { NoEntries(entries, q + [b]); }
        assert !(q + [b] <= []);
      }
    }
  }

  lemma NoEntries(entries: Entries, q: seq<byte>)
    requires |entries| == 0
    ensures !OnTheWay(entries, q)
  {
  }

  lemma EntryBeyond(entries: Entries, q: seq<byte>) returns (s: seq<byte>)
    requires OnTheWay(entries, q)
    ensures s in entries && q <= s
  {
    s :| s in entries && q <= s;
  }

  /** An array node on the way to an entry has a child towards it. */
  lemma ChildTowards(shape: Shape, entries: Entries, q: seq<byte>, s: seq<byte>)
    requires Spans(shape, entries, []) && q in shape && shape[q].kind.Arr? && s in entries && q <= s
    ensures HasBelow(shape, q)
  {
    assert q != s;
    assert q + [s[|q|]] <= s;
    assert OnTheWay(entries, q + [s[|q|]]);
  }

  lemma Ready(root: TrieNode, shape: Shape, entries: Entries, bound: nat)
    requires Trie(root, shape, entries, []) && Wide(shape) && |entries| > 0
    requires forall q | q in shape :: |q| <= bound
    ensures Compressible(shape, [], bound)
  {
    forall q, k | q in shape && 0 <= k <= |q| ensures q[..k] in shape {
      FurtherOnTheWay(entries, q[..k], q);
    }
    forall q | q in shape && shape[q].kind.Arr? ensures HasBelow(shape, q) {
      HasChild(root, shape, entries, q);
    }
  }

  /** Compressing keeps the meaning: the same paths lead to nodes of the same kinds. */
  lemma StillTrie(root: TrieNode, shape: Shape, entries: Entries, n: TrieNode, shape': Shape)
    requires Trie(root, shape, entries, []) && SameFrom(shape, shape', []) && [] in shape' && shape'[[]] == n
    ensures Trie(n, shape', entries, []) && shape'.Keys == shape.Keys
  {
    assert forall q :: q in shape' <==> q in shape;
  }

  /** Where the walk of a new sequence stops, its beginning is an allowed path of the trie. */
  lemma Arrived(root: TrieNode, shape: Shape, entries: Entries, sq: seq<byte>, pos: nat)
    requires Trie(root, shape, entries, []) && pos <= |sq| && sq[..pos] in shape
    requires pos < |sq| ==> sq[..pos + 1] !in shape
    ensures Trie(root, shape, entries, sq[..pos])
    ensures pos == |sq| ==> |sq| == 0 || OnTheWay(entries, sq)
    ensures pos < |sq| ==> !OnTheWay(entries, sq)
  {
    hide Linked;
    if pos == |sq| { assert sq[..pos] == sq; } else { FurtherOnTheWay(entries, sq[..pos + 1], sq); }
    forall q | q <= sq[..pos] ensures OnTheWay(entries, q) || q <= [] {
      FurtherOnTheWay(entries, q, sq[..pos]);
    }
  }

  /** Beyond a path that is new, the trie does not go on. */
  lemma NotFurther(root: TrieNode, shape: Shape, entries: Entries, sq: seq<byte>, pos: nat)
    requires pos + 1 < |sq| && Trie(root, shape, entries, sq[..pos]) && sq[..pos + 1] !in shape
    ensures sq[..pos + 2] !in shape
  {
    FurtherOnTheWay(entries, sq[..pos + 1], sq[..pos + 2]);
  }

  // ---- compressing ----

  ghost predicate Closed(shape: Shape) {
    forall q, k | q in shape && 0 <= k <= |q| :: q[..k] in shape
  }

  ghost predicate HasBelow(shape: Shape, q: seq<byte>) {
    exists b: byte :: q + [b] in shape
  }

  /** What compress_trie needs of the nodes from q on. */
  ghost predicate Compressible(shape: Shape, q: seq<byte>, bound: nat)
    reads set q | q in shape :: shape[q].arr
  {
    && Closed(shape) && Wide(shape)
    && forall q' | q' in shape && q <= q' ::
         |q'| <= bound && NodeOk(shape, q') && (shape[q'].kind.Arr? ==> HasBelow(shape, q'))
  }

  /** The same nodes from q on, but for their extents. */
  ghost predicate SameFrom(shape: Shape, shape': Shape, q: seq<byte>)
    reads set q | q in shape' :: shape'[q].arr
  {
    && (forall q' :: q' in shape' <==> q' in shape && q <= q')
    && (forall q' | q' in shape' :: NodeOk(shape', q') && shape'[q'].kind == shape[q'].kind)
    && (forall q' | q' in shape' && shape'[q'].kind.End? :: shape'[q'] == shape[q'])
  }

  /** The bounds of what is below an array node. */
  method RealBounds(n: TrieNode, ghost b: byte) returns (min: byte, max: byte)
    requires n.kind.Arr? && n.min == 0 && n.max == 0xff && n.Formed() && n.Next(b) != null
    ensures min <= b <= max && n.Next(min) != null && n.Next(max) != null
    ensures forall c: byte | c < min || c > max :: n.Next(c) == null
  {
    min, max := 0, 0xff;
    while n.arr[min] == null
      invariant min <= b && forall c: byte | c < min :: n.Next(c) == null
      decreases b - min
    {
      min := min + 1;
    }
    while n.arr[max] == null
      invariant b <= max && forall c: byte | c > max :: n.Next(c) == null
      decreases max
    {
      max := max - 1;
    }
  }

  /** The compressed nodes below q at bytes less than i. */
  ghost predicate Sofar(shape: Shape, acc: Shape, q: seq<byte>, i: int)
    reads set q | q in acc :: acc[q].arr
  {
    && (forall q' :: q' in acc <==> q' in shape && q < q' && q'[|q|] < i)
    && (forall q' | q' in acc :: NodeOk(acc, q') && acc[q'].kind == shape[q'].kind)
    && (forall q' | q' in acc && acc[q'].kind.End? :: acc[q'] == shape[q'])
  }

  /** The nodes below q at byte i join those before. */
  lemma SofarMore(shape: Shape, acc: Shape, more: Shape, q: seq<byte>, i: byte)
    requires Sofar(shape, acc, q, i) && SameFrom(shape, more, q + [i])
    ensures Sofar(shape, acc + more, q, i + 1)
  {
    var all := acc + more;
    forall q' ensures q' in all <==> q' in shape && q < q' && q'[|q|] < i + 1 {
      assert q + [i] <= q' <==> q < q' && q'[|q|] == i;
    }
    forall q' | q' in all ensures NodeOk(all, q') && all[q'].kind == shape[q'].kind {
      forall b: byte ensures Below(all, q', b) == Below(if q' in more then more else acc, q', b) {
      }
      assert if q' in more then NodeOk(more, q') else NodeOk(acc, q');
    }
  }

  /** What leads to a node below q passes q, and the node just below. */
  lemma Prefixes(shape: Shape, q: seq<byte>, q': seq<byte>)
    requires Closed(shape) && q' in shape
    ensures q <= q' ==> q in shape
    ensures q < q' ==> q + [q'[|q|]] in shape
  {
    assert q <= q' ==> q == q'[..|q|];
    assert q < q' ==> q + [q'[|q|]] == q'[..|q| + 1];
  }

  lemma NothingFrom(shape: Shape, q: seq<byte>)
    requires Closed(shape) && q !in shape
    ensures SameFrom(shape, map[], q)
  {
    forall q' | q' in shape ensures !(q <= q') {
      Prefixes(shape, q, q');
    }
  }

  lemma SofarNone(shape: Shape, q: seq<byte>, i: byte)
    requires Closed(shape) && q in shape && NodeOk(shape, q) && shape[q].kind.Arr?
    requires forall c: byte | c < i :: shape[q].Next(c) == null
    ensures Sofar(shape, map[], q, i)
  {
    forall q' | q' in shape && q < q' ensures q'[|q|] >= i {
      Prefixes(shape, q, q');
      assert Below(shape, q, q'[|q|]) == shape[q].Next(q'[|q|]);
    }
  }

  /** With all the bytes done, the new node stands at q. */
  lemma SofarAll(shape: Shape, acc: Shape, q: seq<byte>, node: TrieNode, i: int)
    requires Closed(shape) && q in shape && NodeOk(shape, q) && shape[q].kind.Arr?
    requires Sofar(shape, acc, q, i)
    requires forall c: byte | c >= i :: shape[q].Next(c) == null
    requires node.kind.Arr? && node.Formed() && forall c: byte :: node.Next(c) == Below(acc, q, c)
    ensures SameFrom(shape, acc[q := node], q)
  {
    var all := acc[q := node];
    forall q' ensures q' in all <==> q' in shape && q <= q' {
      assert q <= q' ==> q == q' || q < q';
      if q' in shape && q < q' {
        Prefixes(shape, q, q');
        assert Below(shape, q, q'[|q|]) == shape[q].Next(q'[|q|]);
      }
    }
    forall q' | q' in all ensures NodeOk(all, q') && all[q'].kind == shape[q'].kind {
      forall c: byte ensures Below(all, q', c) == Below(acc, q', c) {
        assert |q' + [c]| > |q|;
      }
      if q' != q { assert NodeOk(acc, q'); }
    }
  }

  lemma LeafAlone(shape: Shape, q: seq<byte>)
    requires Closed(shape) && q in shape && NodeOk(shape, q) && shape[q].kind.End?
    ensures SameFrom(shape, map[q := shape[q]], q)
  {
    forall q' | q' in shape && q <= q' ensures q' == q {
      Prefixes(shape, q, q');
      assert q' != q ==> Below(shape, q, q'[|q|]) != null;
    }
    assert forall b: byte :: |q + [b]| > |q|;
  }

  /** Compressible from q on, compressible from further on. */
  lemma CompressibleBelow(shape: Shape, q: seq<byte>, i: byte, bound: nat)
    requires Compressible(shape, q, bound) && q in shape
    ensures Compressible(shape, q + [i], bound) && |q| <= bound
    ensures shape[q].kind.Arr? ==> shape[q].Formed() && Below(shape, q, i) == shape[q].Next(i)
  {
    assert NodeOk(shape, q);
  }

  lemma BelowMore(shape: Shape, acc: Shape, more: Shape, q: seq<byte>, i: byte)
    requires SameFrom(shape, more, q + [i])
    ensures Below(acc + more, q, i) == if q + [i] in shape then more[q + [i]] else Below(acc, q, i)
    ensures forall j: byte | j != i :: Below(acc + more, q, j) == Below(acc, q, j)
  {
    forall j: byte | j != i ensures Below(acc + more, q, j) == Below(acc, q, j) {
      assert (q + [j])[|q|] == j && (q + [i])[|q|] == i;
    }
  }

  /** Nothing has been done yet at bytes from i on. */
  lemma BelowBytes(shape: Shape, acc: Shape, q: seq<byte>, i: int)
    requires Sofar(shape, acc, q, i)
    ensures forall j: byte | j >= i :: Below(acc, q, j) == null
  {
    forall j: byte | j >= i ensures Below(acc, q, j) == null {
      assert (q + [j])[|q|] == j;
    }
  }

  /** compress_trie: every array node from q on is replaced by one over the extent it really uses. */
  method CompressTrie(n: TrieNode?, ghost q: seq<byte>, ghost shape: Shape, ghost bound: nat)
    returns (n': TrieNode?, ghost shape': Shape)
    requires Compressible(shape, q, bound) && n == (if q in shape then shape[q] else null)
    ensures SameFrom(shape, shape', q) && (q in shape' <==> q in shape)
    ensures n' == (if q in shape then shape'[q] else null)
    ensures forall q' | q' in shape' && shape'[q'].kind.Arr? :: fresh(shape'[q'].arr)
    ensures Unshared(shape')
    decreases bound + 1 - |q|, 1
  {
    hide SameFrom, Sofar, NodeOk, Compressible, Closed;
    CompressibleAt(shape, q, bound);
    if n == null {
      n', shape' := null, map[];
      NothingFrom(shape, q);
      return;
    }
    if n.kind.End? {
      n', shape' := n, map[q := n];
      LeafAlone(shape, q);
      UnsharedOne(q, n);
      return;
    }
    ghost var b := SomeBelow(shape, q);
    CompressibleBelow(shape, q, b, bound);
    var min, max := RealBounds(n, b);
    var node := new TrieNode.Extent(min, max);
    ghost var acc: Shape := map[];
    SofarNone(shape, q, min);
    var i: int := min;
    assert forall c: byte | c < i :: Below(acc, q, c) == null;
    while i <= max
      invariant min <= i <= max as int + 1
      invariant node.max == max
      invariant Filling(n, node, min, i, q, shape, acc)
      invariant forall q' | q' in acc && acc[q'].kind.Arr? :: fresh(acc[q'].arr)
    {
      acc := CompressBelow(n, node, min, i, q, shape, bound, acc);
      i := i + 1;
    }
    BelowBytes(shape, acc, q, i);
    SofarAll(shape, acc, q, node, i);
    n', shape' := node, acc[q := node];
  }

  /** The new array node, filled for the bytes less than i. */
  ghost predicate Filling(n: TrieNode, node: TrieNode, min: int, i: int, q: seq<byte>, shape: Shape, acc: Shape)
    reads node.arr, set q | q in acc :: acc[q].arr
  {
    && Sofar(shape, acc, q, i) && Unshared(acc)
    && node.kind.Arr? && node.Formed() && node.min == min
    && (forall q' | q' in acc :: acc[q'].arr != node.arr)
    && forall j: byte :: node.Next(j) == if j < i then Below(acc, q, j) else null
  }

  /** One turn of compress_trie's loop. */
  method CompressBelow(n: TrieNode, node: TrieNode, min: byte, i: byte, ghost q: seq<byte>, ghost shape: Shape,
                       ghost bound: nat, ghost acc: Shape)
    returns (ghost acc': Shape)
    requires Compressible(shape, q, bound) && q in shape && n == shape[q] && n.kind.Arr? && node.arr != n.arr
    requires Filling(n, node, min, i, q, shape, acc) && min <= i <= node.max
    requires forall q' | q' in shape :: shape[q'].arr != node.arr
    modifies node.arr
    ensures Filling(n, node, min, i + 1, q, shape, acc')
    ensures forall q' | q' in acc' :: (q' in acc && acc'[q'] == acc[q']) || (acc'[q'].kind.Arr? ==> fresh(acc'[q'].arr))
    decreases bound + 1 - |q|, 0
  {
    hide SameFrom, Sofar, NodeOk, Compressible, Closed, Unshared;
    CompressibleAt(shape, q, bound);
    CompressibleBelow(shape, q, i, bound);
    var child;
    ghost var more: Shape;
    child, more := CompressTrie(n.arr[i], q + [i], shape, bound);
    BelowBytes(shape, acc, q, i);
    SofarMore(shape, acc, more, q, i);
    BelowMore(shape, acc, more, q, i);
    acc' := acc + more;
    EndsAsBefore(shape, more, q + [i]);
    UnsharedJoin(acc, more);
    SetBelow(node, i, child);
  }

  lemma UnsharedJoin(acc: Shape, more: Shape)
    requires Unshared(acc) && Unshared(more)
    requires forall q, q' | q in acc && q' in more && more[q'].kind.Arr? :: acc[q].arr != more[q'].arr
    ensures Unshared(acc + more)
  {
  }

  method SetBelow(node: TrieNode, i: byte, child: TrieNode?)
    requires node.kind.Arr? && node.Formed() && node.min <= i <= node.max
    modifies node.arr
    ensures forall j: byte :: node.Next(j) == if j == i then child else old(node.Next(j))
  {
    node.arr[i - node.min] := child;
  }

  lemma EndsAsBefore(shape: Shape, more: Shape, q: seq<byte>)
    requires SameFrom(shape, more, q)
    ensures forall q' | q' in more && more[q'].kind.End? :: q' in shape && more[q'] == shape[q']
  {
  }

  lemma UnsharedOne(q: seq<byte>, n: TrieNode)
    ensures Unshared(map[q := n])
  {
  }

  lemma CompressibleAt(shape: Shape, q: seq<byte>, bound: nat)
    requires Compressible(shape, q, bound)
    ensures Closed(shape)
    ensures q in shape ==> |q| <= bound && NodeOk(shape, q) && (shape[q].kind.Arr? ==> HasBelow(shape, q))
    ensures q in shape && shape[q].kind.Arr? ==> shape[q].min == 0 && shape[q].max == 0xff && shape[q].Formed()
  {
  }

  lemma SomeBelow(shape: Shape, q: seq<byte>) returns (b: byte)
    requires HasBelow(shape, q)
    ensures q + [b] in shape
  {
    b :| q + [b] in shape;
  }

  // ---- the flat list the trie stands for ----

  type Table = seq<(seq<byte>, Leaf)>

  function FirstMatch(list: Table, p: seq<byte>): Option<(nat, Leaf)> {
    if |list| == 0 then None
    else if list[0].0 <= p then Some((|list[0].0|, list[0].1))
    else FirstMatch(list[1..], p)
  }

  /** A linear search through the list. */
  function FlatPeek(list: Table, p: seq<byte>, force: bool, closed: bool): Peeked {
    if |p| == 0 then if closed then Eof else NoKey
    else match FirstMatch(list, p)
      case Some((n, leaf)) => if n <= |p| then Reached(leaf, n, p) else NoKey
      case None => if !force && exists i | 0 <= i < |list| :: p <= list[i].0 then Again else NoKey
  }

  /** No sequence of the list is empty or the beginning of another. */
  ghost predicate Unambiguous(list: Table) {
    && (forall i | 0 <= i < |list| :: |list[i].0| > 0)
    && (forall i, j | 0 <= i < |list| && 0 <= j < |list| && i != j :: !(list[i].0 <= list[j].0))
  }

  function MapOf(list: Table): Entries {
    if |list| == 0 then map[] else MapOf(list[..|list| - 1])[list[|list| - 1].0 := list[|list| - 1].1]
  }

  ghost predicate Listed(list: Table, s: seq<byte>) {
    exists i | 0 <= i < |list| :: list[i].0 == s
  }

  lemma {:induction false} MapOfKeys(list: Table)
    requires Unambiguous(list)
    ensures forall i | 0 <= i < |list| :: list[i].0 in MapOf(list) && MapOf(list)[list[i].0] == list[i].1
    ensures forall s | s in MapOf(list) :: Listed(list, s)
  {
    hide Unambiguous;
    if |list| > 0 {
      var k := |list| - 1;
      var front := list[..k];
      FrontOf(list);
      MapOfKeys(front);
      forall i | 0 <= i < |list| ensures list[i].0 in MapOf(list) && MapOf(list)[list[i].0] == list[i].1 {
        if i < k { assert front[i] == list[i]; }
      }
    }
  }

  lemma FrontOf(list: Table)
    requires |list| > 0 && Unambiguous(list)
    ensures var k := |list| - 1;
            && Unambiguous(list[..k])
            && (forall i | 0 <= i < k :: list[i].0 != list[k].0)
            && (forall s | Listed(list[..k], s) :: Listed(list, s))
            && Listed(list, list[k].0)
  {
    var k := |list| - 1;
    forall i | 0 <= i < k ensures list[i].0 != list[k].0 {
      assert !(list[i].0 <= list[k].0);
    }
    forall s | Listed(list[..k], s) ensures Listed(list, s) {
      var i :| 0 <= i < k && list[..k][i].0 == s;
      assert list[i].0 == s;
    }
  }

  lemma {:induction false} FirstMatchIs(list: Table, p: seq<byte>)
    ensures match FirstMatch(list, p)
            case Some((n, leaf)) =>
              exists i | 0 <= i < |list| :: list[i].0 <= p && n == |list[i].0| && leaf == list[i].1
            case None => forall i | 0 <= i < |list| :: !(list[i].0 <= p)
  {
    if |list| > 0 && !(list[0].0 <= p) {
      FirstMatchIs(list[1..], p);
      match FirstMatch(list[1..], p)
      case Some((n, leaf)) =>
        var i :| 0 <= i < |list[1..]| && list[1..][i].0 <= p && n == |list[1..][i].0| && leaf == list[1..][i].1;
        assert list[i + 1] == list[1..][i];
      case None =>
        forall i | 0 <= i < |list| ensures !(list[i].0 <= p) {
          if i > 0 { assert list[i] == list[1..][i - 1]; }
        }
    }
  }

  /** The trie refines the list: an answer by the entries is the answer of the linear search. */
  lemma FlatAnswers(list: Table, p: seq<byte>, force: bool, closed: bool, r: Peeked)
    requires Unambiguous(list)
    ensures Answers(MapOf(list), p, force, closed, r) <==> r == FlatPeek(list, p, force, closed)
  {
    hide MapOf, FirstMatch, Reached, Means, Unambiguous;
    MapOfKeys(list);
    FirstMatchIs(list, p);
    match FirstMatch(list, p)
    case Some((n, leaf)) =>
      var i :| 0 <= i < |list| && list[i].0 <= p && n == |list[i].0| && leaf == list[i].1;
      OneMatch(list, p, i);
      ReachedMeans(leaf, n, p);
    case None =>
      OnTheWayInList(list, p);
      assert forall s | s in MapOf(list) :: !(s <= p);
  }

  /** Of an unambiguous list at most one sequence begins p. */
  lemma OneMatch(list: Table, p: seq<byte>, i: nat)
    requires Unambiguous(list) && i < |list| && list[i].0 <= p
    ensures list[i].0 in MapOf(list) && forall s | s in MapOf(list) && s <= p :: s == list[i].0
  {
    hide MapOf;
    MapOfKeys(list);
    forall s | s in MapOf(list) && s <= p ensures s == list[i].0 {
      var j :| 0 <= j < |list| && list[j].0 == s;
      assert j == i by { BothBegin(list[i].0, list[j].0, p); }
    }
  }

  lemma BothBegin(s: seq<byte>, t: seq<byte>, p: seq<byte>)
    requires s <= p && t <= p
    ensures s <= t || t <= s
  {
  }

  lemma OnTheWayInList(list: Table, p: seq<byte>)
    requires Unambiguous(list)
    ensures OnTheWay(MapOf(list), p) <==> exists i | 0 <= i < |list| :: p <= list[i].0
  {
    hide MapOf;
    MapOfKeys(list);
    if OnTheWay(MapOf(list), p) { var s :| s in MapOf(list) && p <= s; }
  }

  /** What a search of the list comes to: what any of its sequences that p begins with stands for; Again where p is
      the beginning of one and more may come; or nothing. */
  ghost predicate Finds(list: Table, p: seq<byte>, force: bool, closed: bool, r: Peeked) {
    if |p| == 0 then r == if closed then Eof else NoKey
    else
      && (forall i | 0 <= i < |list| && list[i].0 <= p :: Means(list[i].1, |list[i].0|, p, r))
      && ((forall i | 0 <= i < |list| :: !(list[i].0 <= p)) ==>
            r == if !force && exists i | 0 <= i < |list| :: p <= list[i].0 then Again else NoKey)
  }

  lemma FlatFinds(list: Table, p: seq<byte>, force: bool, closed: bool)
    requires Unambiguous(list)
    ensures Finds(list, p, force, closed, FlatPeek(list, p, force, closed))
  {
    hide FirstMatch, Reached, Means;
    FirstMatchIs(list, p);
    match FirstMatch(list, p)
    case Some((n, leaf)) =>
      var i :| 0 <= i < |list| && list[i].0 <= p && n == |list[i].0| && leaf == list[i].1;
      ReachedMeans(leaf, n, p);
      forall j | 0 <= j < |list| && list[j].0 <= p ensures j == i { BothBegin(list[i].0, list[j].0, p); }
    case None =>
  }

  // ---- loading ----

  /** The sequences that stay: all but the empty ones and those that begin one before them. */
  function Kept(list: Table): (kept: Table)
    ensures |kept| <= |list|
  {
    if |list| == 0 then []
    else
      var front, last := list[..|list| - 1], list[|list| - 1];
      if Begins(front, last.0) then Kept(front) else Kept(front) + [last]
  }

  /** The sequence is the beginning of one in the list, as an empty one is of any. */
  predicate Begins(list: Table, s: seq<byte>) {
    |s| == 0 || exists j | 0 <= j < |list| :: s <= list[j].0
  }

  /** Some sequence of the list begins this one, and is not all of it. */
  ghost predicate Extends(list: Table, s: seq<byte>) {
    exists j | 0 <= j < |list| :: list[j].0 < s
  }

  /** A sequence goes on from one kept before it: there the program aborts. */
  ghost predicate Clashes(list: Table) {
    exists i | 0 <= i < |list| :: Extends(Kept(list[..i]), list[i].0)
  }

  lemma ClashesFirst(list: Table)
    requires |list| > 0
    ensures var front := list[..|list| - 1];
            Clashes(list) <==> Clashes(front) || Extends(Kept(front), list[|list| - 1].0)
  {
    hide Extends, Kept;
    var k := |list| - 1;
    var front := list[..k];
    forall i | 0 <= i < k ensures front[..i] == list[..i] && front[i] == list[i] {}
    if Clashes(front) {
      var i :| 0 <= i < k && Extends(Kept(front[..i]), front[i].0);
      assert Extends(Kept(list[..i]), list[i].0);
    }
    if Clashes(list) {
      var i :| 0 <= i < |list| && Extends(Kept(list[..i]), list[i].0);
      if i < k { assert Extends(Kept(front[..i]), front[i].0); }
    }
  }

  /** What begins a sequence of the list begins one that is kept. */
  lemma {:induction false} KeptBegins(list: Table, s: seq<byte>)
    ensures Begins(Kept(list), s) <==> Begins(list, s)
  {
    if |list| > 0 && |s| > 0 {
      var k := |list| - 1;
      var front, last := list[..k], list[k];
      assert front + [last] == list;
      KeptBegins(front, s);
      BeginsMore(front, last, s);
      if Begins(front, last.0) {
        if s <= last.0 { BeginsDown(front, s, last.0); }
      } else {
        BeginsMore(Kept(front), last, s);
      }
    }
  }

  lemma BeginsMore(list: Table, x: (seq<byte>, Leaf), s: seq<byte>)
    ensures Begins(list + [x], s) <==> Begins(list, s) || s <= x.0
  {
    var more := list + [x];
    assert more[|list|] == x && forall j | 0 <= j < |list| :: more[j] == list[j];
  }

  lemma BeginsDown(list: Table, s: seq<byte>, t: seq<byte>)
    requires s <= t && Begins(list, t)
    ensures Begins(list, s)
  {
  }

  /** Until two sequences clash, those kept are unambiguous. */
  lemma {:induction false} KeptUnambiguous(list: Table)
    requires !Clashes(list)
    ensures Unambiguous(Kept(list))
  {
    hide Unambiguous, Begins, Clashes, Extends;
    if |list| > 0 {
      var k := |list| - 1;
      ClashesFirst(list);
      KeptUnambiguous(list[..k]);
      if !Begins(list[..k], list[k].0) {
        KeptBegins(list[..k], list[k].0);
        OneMoreUnambiguous(Kept(list[..k]), list[k]);
      }
    } else {
      NoneUnambiguous();
    }
  }

  lemma NoneUnambiguous()
    ensures Unambiguous([])
  {
  }

  lemma OneMoreUnambiguous(list: Table, x: (seq<byte>, Leaf))
    requires Unambiguous(list) && !Begins(list, x.0) && !Extends(list, x.0)
    ensures Unambiguous(list + [x])
  {
    forall i | 0 <= i < |list| ensures !(list[i].0 <= x.0) {
      assert list[i].0 != x.0;
    }
  }

  /** An unambiguous list is kept as it is. */
  lemma {:induction false} KeptWhole(list: Table)
    requires Unambiguous(list)
    ensures Kept(list) == list && !Clashes(list)
  {
    hide Unambiguous, Clashes;
    if |list| > 0 {
      var k := |list| - 1;
      FrontOf(list);
      KeptWhole(list[..k]);
      LastApart(list);
      ClashesFirst(list);
      assert list[..k] + [list[k]] == list;
    } else {
      NoClash();
    }
  }

  lemma NoClash()
    ensures !Clashes([])
  {
  }

  lemma LastApart(list: Table)
    requires |list| > 0 && Unambiguous(list)
    ensures var k := |list| - 1; !Begins(list[..k], list[k].0) && !Extends(list[..k], list[k].0)
  {
  }

  /** The entries that stand for a list, and a sequence more. */
  lemma EntriesOf(list: Table, s: seq<byte>)
    requires Unambiguous(list)
    ensures ExtendsEntry(MapOf(list), s) <==> Extends(list, s)
    ensures |s| > 0 ==> (OnTheWay(MapOf(list), s) <==> Begins(list, s))
  {
    hide MapOf, Unambiguous;
    MapOfKeys(list);
    if ExtendsEntry(MapOf(list), s) {
      var t :| t in MapOf(list) && t < s;
      assert Listed(list, t);
    }
    OnTheWayInList(list, s);
  }

  /** load_terminfo, for the sequences it finds: they are entered one after another, until one aborts, and the
      trie is compressed. At least one sequence is not empty; otherwise the compression would never end. */
  method Load(list: Table) returns (aborted: bool, ti: TermKeyTI)
    requires exists i | 0 <= i < |list| :: |list[i].0| > 0
    ensures aborted <==> Clashes(list)
    ensures fresh(ti) && ti.Valid() && (!aborted ==> ti.entries == MapOf(Kept(list)))
  {
    hide MapOf, Trie, Clashes, Kept, Extends, Begins, ExtendsEntry;
    ti := new TermKeyTI();
    aborted := false;
    assert list[..0] == [];
    StartLoading();
    for i := 0 to |list|
      invariant ti.Valid() && Wide(ti.shape) && ti.entries == MapOf(Kept(list[..i]))
      invariant fresh(ti) && forall q | q in ti.shape :: fresh(ti.shape[q].arr)
      invariant !Clashes(list[..i])
    {
      Entering(list, i);
      var node := new TrieNode.End(list[i].1);
      aborted := ti.InsertSeq(list[i].0, node);
      if aborted {
        ClashesOn(list, i + 1);
        return;
      }
    }
    assert list[..|list|] == list;
    SomethingKept(list);
    ti.Compress();
  }

  lemma StartLoading()
    ensures MapOf(Kept([])) == map[] && !Clashes([])
  {
  }

  lemma Entering(list: Table, i: nat)
    requires i < |list| && !Clashes(list[..i])
    ensures var s, kept := list[i].0, Kept(list[..i]); var entries := MapOf(kept);
            && (ExtendsEntry(entries, s) <==> Clashes(list[..i + 1]))
            && (!Clashes(list[..i + 1]) ==>
                  MapOf(Kept(list[..i + 1])) == if |s| == 0 || OnTheWay(entries, s) then entries
                                                else entries[s := list[i].1])
  {
    hide MapOf, Clashes, Extends, Begins, ExtendsEntry, OnTheWay;
    var s, kept := list[i].0, Kept(list[..i]);
    assert list[..i + 1][..i] == list[..i];
    ClashesFirst(list[..i + 1]);
    KeptUnambiguous(list[..i]);
    EntriesOf(kept, s);
    KeptBegins(list[..i], s);
    MapOfMore(kept, list[i]);
    EmptyBegins(list[..i]);
  }

  lemma EmptyBegins(list: Table)
    ensures Begins(list, [])
  {
  }

  lemma MapOfMore(list: Table, x: (seq<byte>, Leaf))
    ensures MapOf(list + [x]) == MapOf(list)[x.0 := x.1]
  {
    assert (list + [x])[..|list|] == list;
  }

  /** A clash stays one, however the list goes on. */
  lemma ClashesOn(list: Table, i: nat)
    requires i <= |list| && Clashes(list[..i])
    ensures Clashes(list)
  {
    hide Extends;
    var j :| 0 <= j < i && Extends(Kept(list[..i][..j]), list[..i][j].0);
    assert list[..i][..j] == list[..j];
    assert Extends(Kept(list[..j]), list[j].0);
  }

  lemma SomethingKept(list: Table)
    requires !Clashes(list) && exists i | 0 <= i < |list| :: |list[i].0| > 0
    ensures |MapOf(Kept(list))| > 0
  {
    hide MapOf, Unambiguous, Clashes;
    var i :| 0 <= i < |list| && |list[i].0| > 0;
    KeptBegins(list, list[i].0);
    KeptUnambiguous(list);
    MapOfKeys(Kept(list));
    assert Kept(list)[0].0 in MapOf(Kept(list));
  }

  /** Loading, entering, compressing and walking together come to a linear search of the sequences kept; of the
      whole list, when none of its sequences begins another. */
  method LoadAndPeek(list: Table, buffer: array<byte>, start: nat, count: nat, force: bool, closed: bool)
    returns (aborted: bool, r: Peeked)
    requires start + count <= buffer.Length && exists i | 0 <= i < |list| :: |list[i].0| > 0
    ensures aborted <==> Clashes(list)
    ensures !aborted ==> r == FlatPeek(Kept(list), buffer[start..start + count], force, closed)
    ensures Unambiguous(list) ==> !aborted && r == FlatPeek(list, buffer[start..start + count], force, closed)
    ensures !aborted ==> Finds(Kept(list), buffer[start..start + count], force, closed, r)
  {
    hide Unambiguous, FlatPeek, Answers, MapOf, Clashes, Kept, Finds;
    if Unambiguous(list) { KeptWhole(list); }
    var ti;
    aborted, ti := Load(list);
    r := NoKey;
    if !aborted {
      r := ti.Peek(buffer, start, count, force, closed);
      KeptUnambiguous(list);
      FlatAnswers(Kept(list), buffer[start..start + count], force, closed, r);
      FlatFinds(Kept(list), buffer[start..start + count], force, closed);
    }
  }
}
