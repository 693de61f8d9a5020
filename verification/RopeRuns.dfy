/** Whole runs: any sequence of inserts, deletes and copies over a growing family of ropes. */
module RopeRuns {
  import opened Basics
  import opened RopeText
  import opened RopeNode
  import opened Ropes
  import RopeWalks

  type CStr = s: seq<byte> | 0 in s witness [0]

  /** An operation on rope number `at`; a copy joins the family as its last member. */
  datatype Op =
    | Insert(at: nat, pos: nat, str: CStr)
    | Delete(at: nat, pos: nat, len: nat)
    | Copy(at: nat)

  /** The operations on plain texts. */
  function Apply(texts: seq<seq<Codepoint>>, op: Op): seq<seq<Codepoint>> {
    if op.at >= |texts| then texts
    else match op
      case Insert(at, pos, str) => texts[at := InsertText(texts[at], pos, str)]
      case Delete(at, pos, len) => texts[at := DeleteText(texts[at], pos, len)]
      case Copy(at) => texts + [texts[at]]
  }

  function ApplyAll(texts: seq<seq<Codepoint>>, ops: seq<Op>): seq<seq<Codepoint>> {
    if |ops| == 0 then texts else Apply(ApplyAll(texts, ops[..|ops| - 1]), ops[|ops| - 1])
  }

  ghost function Parts(r: Rope): set<object>
    reads r
  {
    {r} + (set k | 0 <= k < |r.nodes| :: r.nodes[k] as object) +
    (set k | 0 <= k < |r.nodes| :: r.nodes[k].str as object)
  }

  /** The rope is made of these objects, is sound and holds the text. */
  ghost predicate Stands(r: Rope, text: seq<Codepoint>, foot: set<object>)
    reads r, foot
  {
    && r in foot && (forall k | 0 <= k < |r.nodes| :: r.nodes[k] in foot && r.nodes[k].str in foot)
    && r.Valid() && r.Contents() == text
  }

  ghost predicate Apart(feet: seq<set<object>>) {
    forall j, k | 0 <= j < k < |feet| :: feet[j] !! feet[k]
  }

  /** Every rope holds its text, and no two share an object. */
  ghost predicate Family(ropes: seq<Rope>, texts: seq<seq<Codepoint>>, feet: seq<set<object>>)
    reads set f, o | f in feet && o in f :: o
  {
    && |ropes| == |texts| == |feet|
    && (forall k | 0 <= k < |ropes| :: ropes[k] in feet[k] && Stands(ropes[k], texts[k], feet[k]))
    && Apart(feet)
  }

  /** An operation on one rope, confined to its own objects and new ones. */
  method Edit(r: Rope, op: Op, ghost text: seq<Codepoint>, ghost foot: set<object>) returns (ghost foot': set<object>)
    requires Stands(r, text, foot) && !op.Copy?
    modifies foot
    ensures r in foot' && Stands(r, Apply([text], op.(at := 0))[0], foot')
    ensures forall o | o in foot' :: o in foot || fresh(o)
  {
    hide LinksOk, Row, Filled, Links, Heights, InsertText, DeleteText;
    match op {
      case Insert(_, pos, str) => var _ := r.InsertUtf8(pos, str);
      case Delete(_, pos, len) => r.Delete(pos, len);
    }
    assert forall k | 0 <= k < |r.nodes| :: r.nodes[k] in r.nodes;
    foot' := foot + Parts(r);
  }

  method CopyOne(r: Rope, ghost text: seq<Codepoint>, ghost foot: set<object>)
    returns (copy: Rope, ghost foot': set<object>)
    requires Stands(r, text, foot)
    ensures copy in foot' && Stands(copy, text, foot')
    ensures forall o | o in foot' :: fresh(o)
  {
    hide LinksOk, Row, Filled, Links, Heights;
    copy := RopeWalks.Copy(r);
    assert forall k | 0 <= k < |copy.nodes| :: copy.nodes[k] in copy.nodes;
    foot' := Parts(copy);
  }

  /** One operation on the family. */
  method Step(ropes: seq<Rope>, op: Op, ghost texts: seq<seq<Codepoint>>, ghost feet: seq<set<object>>)
    returns (after: seq<Rope>, ghost feet': seq<set<object>>)
    requires Family(ropes, texts, feet)
    modifies if op.at < |feet| then feet[op.at] else {}
    ensures Family(after, Apply(texts, op), feet')
    ensures |feet| <= |feet'|
    ensures forall k, o | 0 <= k < |feet'| && o in feet'[k] :: (k < |feet| && o in feet[k]) || fresh(o)
  {
    hide Stands, InsertText, DeleteText;
    after, feet' := ropes, feet;
    if op.at < |ropes| {
      assert Stands(ropes[op.at], texts[op.at], feet[op.at]);
      if op.Copy? {
        var r;
        ghost var foot;
        r, foot := CopyOne(ropes[op.at], texts[op.at], feet[op.at]);
        after, feet' := ropes + [r], feet + [foot];
      } else {
        ghost var foot := Edit(ropes[op.at], op, texts[op.at], feet[op.at]);
        feet' := feet[op.at := foot];
      }
    }
  }

  method New() returns (r: Rope, ghost foot: set<object>)
    ensures r in foot && Stands(r, [], foot)
    ensures forall o | o in foot :: fresh(o)
  {
    hide LinksOk, Row, Filled, Links, Heights;
    r := new Rope();
    assert forall k | 0 <= k < |r.nodes| :: r.nodes[k] in r.nodes;
    foot := Parts(r);
  }

  /** Whatever the operations and whatever heights were drawn, every rope of the family stays sound
      and reads as the plain text does. */
  method Run(ops: seq<Op>) returns (ropes: seq<Rope>, ghost feet: seq<set<object>>)
    ensures Family(ropes, ApplyAll([[]], ops), feet)
  {
    hide Stands, Apply;
    var r;
    ghost var foot;
    r, foot := New();
    ropes, feet := [r], [foot];
    for k := 0 to |ops|
      invariant Family(ropes, ApplyAll([[]], ops[..k]), feet)
      invariant forall k, o | 0 <= k < |feet| && o in feet[k] :: fresh(o)
    {
      assert ops[..k + 1][..k] == ops[..k];
      ropes, feet := Step(ropes, ops[k], ApplyAll([[]], ops[..k]), feet);
    }
    assert ops[..|ops|] == ops;
  }
}
