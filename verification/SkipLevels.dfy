/** The pure side of an indexable skip list.

    Position k of the list holds an item with a height `hs[k]` and a run of characters `ts[k]`.
    At level i the item links to the next item taller than i, and the link's width is the number
    of characters from the start of the one to the start of the other. */
module SkipLevels {
  import opened Basics

  function Insert<T>(s: seq<T>, m: nat, x: T): (r: seq<T>)
    requires m <= |s|
    ensures |r| == |s| + 1
  {
    seq(|s| + 1, k requires 0 <= k < |s| + 1 => if k < m then s[k] else if k == m then x else s[k - 1])
  }

  function Remove<T>(s: seq<T>, m: nat): (r: seq<T>)
    requires m < |s|
    ensures |r| == |s| - 1
  {
    seq(|s| - 1, k requires 0 <= k < |s| - 1 => if k < m then s[k] else s[k + 1])
  }

  lemma InsertRemoved<T>(s: seq<T>, m: nat)
    requires m < |s|
    ensures Insert(Remove(s, m), m, s[m]) == s
  {
  }

  /** The first position from k on that reaches level i, or the end of the list. */
  function Next(hs: seq<nat>, k: nat, i: nat): (j: nat)
    requires k <= |hs|
    ensures k <= j <= |hs|
    ensures j < |hs| ==> hs[j] > i
    decreases |hs| - k
  {
    if k == |hs| || hs[k] > i then k else Next(hs, k + 1, i)
  }

  /** The last position up to e that reaches level i: its level-i link passes over the end of e. */
  function Cover(hs: seq<nat>, e: nat, i: nat): (k: nat)
    requires e < |hs| && hs[0] > i
    ensures k <= e && hs[k] > i
  {
    if hs[e] > i then e else Cover(hs, e - 1, i)
  }

  /** The number of characters before position k. */
  function Pos<T>(ts: seq<seq<T>>, k: nat): nat
    requires k <= |ts|
  {
    if k == 0 then 0 else Pos(ts, k - 1) + |ts[k - 1]|
  }

  /** All the characters, in order. */
  function Flat<T>(ts: seq<seq<T>>): seq<T> {
    if |ts| == 0 then [] else ts[0] + Flat(ts[1..])
  }

  function Target(hs: seq<nat>, k: nat, i: nat): (j: nat)
    requires k < |hs|
    ensures k < j <= |hs|
  {
    Next(hs, k + 1, i)
  }

  function Width<T>(hs: seq<nat>, ts: seq<seq<T>>, k: nat, i: nat): int
    requires k < |hs| == |ts|
  {
    Pos(ts, Target(hs, k, i)) - Pos(ts, k)
  }

  // ---- positions ----

  lemma {:induction false} PosMonotone<T>(ts: seq<seq<T>>, j: nat, k: nat)
    requires j <= k <= |ts|
    ensures Pos(ts, j) <= Pos(ts, k)
    decreases k
  {
    if j < k { PosMonotone(ts, j, k - 1); }
  }

  lemma {:induction false} PosChange<T>(ts: seq<seq<T>>, e: nat, t: seq<T>, k: nat)
    requires e < |ts| && k <= |ts|
    ensures Pos(ts[e := t], k) == Pos(ts, k) + if k > e then |t| - |ts[e]| else 0
    decreases k
  {
    if k > 0 { PosChange(ts, e, t, k - 1); }
  }

  lemma {:induction false} PosInsert<T>(ts: seq<seq<T>>, m: nat, t: seq<T>, k: nat)
    requires m <= |ts| && k <= |ts| + 1
    ensures Pos(Insert(ts, m, t), k) == if k <= m then Pos(ts, k) else Pos(ts, k - 1) + |t|
    decreases k
  {
    if k > 0 { PosInsert(ts, m, t, k - 1); }
  }

  lemma {:induction false} FlatAppend<T>(a: seq<seq<T>>, b: seq<seq<T>>)
    ensures Flat(a + b) == Flat(a) + Flat(b)
  {
    if |a| == 0 {
      assert a + b == b;
    } else {
      FlatAppend(a[1..], b);
      assert (a + b)[0] == a[0] && (a + b)[1..] == a[1..] + b;
      Associates(a[0], Flat(a[1..]), Flat(b));
    }
  }

  lemma FlatOne<T>(t: seq<T>)
    ensures Flat([t]) == t
  {
  }

  /** The characters around position k, cut at the position's start and end. */
  lemma FlatAt<T>(ts: seq<seq<T>>, k: nat)
    requires k < |ts|
    ensures Flat(ts) == Flat(ts[..k]) + ts[k] + Flat(ts[k + 1..])
  {
    var a, r := ts[..k], ts[k..];
    FlatAppend(a, r);
    assert ts == a + r;
    assert r[0] == ts[k] && r[1..] == ts[k + 1..];
    Associates(Flat(a), ts[k], Flat(ts[k + 1..]));
  }


  lemma {:induction false} PosIsLength<T>(ts: seq<seq<T>>, k: nat)
    requires k <= |ts|
    ensures Pos(ts, k) == |Flat(ts[..k])|
  {
    if k > 0 {
      PosIsLength(ts, k - 1);
      FlatAppend(ts[..k - 1], [ts[k - 1]]);
      assert ts[..k - 1] + [ts[k - 1]] == ts[..k];
    }
  }

  /** One text of the row rewritten: what changes is the stretch between its ends. */
  lemma FlatChange<T>(ts: seq<seq<T>>, x: nat, a: seq<T>, cut: seq<T>, b: seq<T>, t: seq<T>)
    requires x < |ts| && ts[x] == a + cut + b
    ensures var p := Pos(ts, x) + |a|;
            && p + |cut| <= |Flat(ts)|
            && Flat(ts[x := a + t + b]) == Flat(ts)[..p] + t + Flat(ts)[p + |cut|..]
    ensures Pos(ts[x := a + t + b], |ts|) == Pos(ts, |ts|) + |t| - |cut|
  {
    FlatAt(ts, x);
    FlatAt(ts[x := a + t + b], x);
    PosIsLength(ts, x);
    PosChange(ts, x, a + t + b, |ts|);
  }

  // ---- heights ----

  lemma {:induction false} NextSkips(hs: seq<nat>, k: nat, i: nat)
    requires k <= |hs|
    ensures forall m | k <= m < Next(hs, k, i) :: hs[m] <= i
    decreases |hs| - k
  {
    if k < |hs| && hs[k] <= i { NextSkips(hs, k + 1, i); }
  }

  lemma {:induction false} CoverSkips(hs: seq<nat>, e: nat, i: nat)
    requires e < |hs| && hs[0] > i
    ensures forall m | Cover(hs, e, i) < m <= e :: hs[m] <= i
  {
    if hs[e] <= i { CoverSkips(hs, e - 1, i); }
  }

  lemma {:induction false} NextIs(hs: seq<nat>, k: nat, i: nat, j: nat)
    requires k <= j <= |hs|
    requires j < |hs| ==> hs[j] > i
    requires forall m | k <= m < j :: hs[m] <= i
    ensures Next(hs, k, i) == j
    decreases j - k
  {
    if k < j { NextIs(hs, k + 1, i, j); }
  }

  lemma {:induction false} CoverIs(hs: seq<nat>, e: nat, i: nat, k: nat)
    requires e < |hs| && hs[0] > i
    requires k <= e && hs[k] > i
    requires forall m | k < m <= e :: hs[m] <= i
    ensures Cover(hs, e, i) == k
    decreases e
  {
    if k < e { CoverIs(hs, e - 1, i, k); }
  }

  /** A level-i link passes over the end of e exactly when it starts at the cover of e. */
  lemma OverIsCover(hs: seq<nat>, e: nat, k: nat, i: nat)
    requires e < |hs| && k < |hs| && hs[k] > i && hs[0] > i
    ensures k <= e < Target(hs, k, i) <==> k == Cover(hs, e, i)
  {
    NextSkips(hs, k + 1, i);
    CoverSkips(hs, e, i);
    if k <= e < Target(hs, k, i) { CoverIs(hs, e, i, k); }
  }

  // ---- searching ----

  /** The last position that starts strictly before character pos, or the head. */
  function Locate<T>(ts: seq<seq<T>>, pos: nat): (e: nat)
    requires |ts| > 0 && pos <= Pos(ts, |ts|)
    ensures e < |ts|
    ensures e == 0 || Pos(ts, e) < pos
    ensures pos <= Pos(ts, e + 1)
  {
    LocateFrom(ts, pos, |ts| - 1)
  }

  function LocateFrom<T>(ts: seq<seq<T>>, pos: nat, k: nat): (e: nat)
    requires k < |ts| && pos <= Pos(ts, k + 1)
    ensures e <= k
    ensures e == 0 || Pos(ts, e) < pos
    ensures pos <= Pos(ts, e + 1)
  {
    if k == 0 || Pos(ts, k) < pos then k else LocateFrom(ts, pos, k - 1)
  }

  /** A search that can go right has not passed the position it looks for. */
  lemma RightIsBefore<T>(ts: seq<seq<T>>, pos: nat, k: nat)
    requires |ts| > 0 && pos <= Pos(ts, |ts|)
    requires k <= |ts| && (k == 0 || Pos(ts, k) < pos)
    ensures k <= Locate(ts, pos)
  {
    var e := Locate(ts, pos);
    if k > e { PosMonotone(ts, e + 1, k); }
  }

  /** A search that must go down at a node has found the position's cover on that level. */
  lemma DownIsCover<T>(hs: seq<nat>, ts: seq<seq<T>>, pos: nat, k: nat, i: nat)
    requires |hs| == |ts| > 0 && pos <= Pos(ts, |ts|)
    requires k < |hs| && hs[k] > i && hs[0] > i
    requires k == 0 || Pos(ts, k) < pos
    requires pos <= Pos(ts, Target(hs, k, i))
    ensures Cover(hs, Locate(ts, pos), i) == k
  {
    var e, j := Locate(ts, pos), Target(hs, k, i);
    RightIsBefore(ts, pos, k);
    if j <= e { PosMonotone(ts, j, e); }
    OverIsCover(hs, e, k, i);
  }

  // ---- what an edit does to one link ----

  /** Changing the text at e stretches the links over it and no other. */
  lemma TextChange<T>(hs: seq<nat>, ts: seq<seq<T>>, e: nat, t: seq<T>, k: nat, i: nat)
    requires e < |hs| == |ts| && k < |hs| && hs[k] > i && hs[0] > i
    ensures Width(hs, ts[e := t], k, i) ==
            Width(hs, ts, k, i) + if k == Cover(hs, e, i) then |t| - |ts[e]| else 0
  {
    PosChange(ts, e, t, k);
    PosChange(ts, e, t, Target(hs, k, i));
    OverIsCover(hs, e, k, i);
  }

  /** Where a link of the list goes once an item of height h has been put after e. */
  lemma TargetAfterInsert(hs: seq<nat>, e: nat, h: nat, k: nat, i: nat)
    requires e < |hs| && k <= e && hs[k] > i && hs[0] > i
    ensures Target(Insert(hs, e + 1, h), k, i) ==
            if k != Cover(hs, e, i) then Target(hs, k, i)
            else if i < h then e + 1
            else Target(hs, k, i) + 1
    ensures k != Cover(hs, e, i) ==> Target(hs, k, i) <= e
  {
    hide Next, Cover;
    var hs' := Insert(hs, e + 1, h);
    var j := Target(hs, k, i);
    NextSkips(hs, k + 1, i);
    OverIsCover(hs, e, k, i);
    if j <= e {
      NextIs(hs', k + 1, i, j);
    } else if i < h {
      NextIs(hs', k + 1, i, e + 1);
    } else {
      forall m | k + 1 <= m < j + 1 ensures hs'[m] <= i {
        if m > e + 1 { assert hs'[m] == hs[m - 1]; }
      }
      NextIs(hs', k + 1, i, j + 1);
    }
  }

  lemma TargetBeyondInsert(hs: seq<nat>, e: nat, h: nat, k: nat, i: nat)
    requires e < k < |hs|
    ensures Target(Insert(hs, e + 1, h), k + 1, i) == Target(hs, k, i) + 1
  {
    var hs' := Insert(hs, e + 1, h);
    var j := Target(hs, k, i);
    NextSkips(hs, k + 1, i);
    forall m | k + 2 <= m < j + 1 ensures hs'[m] <= i { assert hs'[m] == hs[m - 1]; }
    NextIs(hs', k + 2, i, j + 1);
  }

  /** ... and where the new item's own link goes: where the link it interrupts went. */
  lemma TargetOfInserted(hs: seq<nat>, e: nat, h: nat, i: nat)
    requires e < |hs| && hs[0] > i && i < h
    ensures Target(Insert(hs, e + 1, h), e + 1, i) == Target(hs, Cover(hs, e, i), i) + 1
  {
    var hs' := Insert(hs, e + 1, h);
    var c := Cover(hs, e, i);
    var j := Target(hs, c, i);
    NextSkips(hs, c + 1, i);
    OverIsCover(hs, e, c, i);
    forall m | e + 2 <= m < j + 1 ensures hs'[m] <= i { assert hs'[m] == hs[m - 1]; }
    NextIs(hs', e + 2, i, j + 1);
  }

  lemma WidthAfterInsert<T>(hs: seq<nat>, ts: seq<seq<T>>, e: nat, h: nat, t: seq<T>, k: nat, i: nat)
    requires e < |hs| == |ts| && k <= e && hs[k] > i && hs[0] > i
    ensures Width(Insert(hs, e + 1, h), Insert(ts, e + 1, t), k, i) ==
            if k != Cover(hs, e, i) then Width(hs, ts, k, i)
            else if i < h then Pos(ts, e + 1) - Pos(ts, k)
            else Width(hs, ts, k, i) + |t|
  {
    var j := Target(hs, k, i);
    TargetAfterInsert(hs, e, h, k, i);
    OverIsCover(hs, e, k, i);
    PosInsert(ts, e + 1, t, k);
    PosInsert(ts, e + 1, t, Target(Insert(hs, e + 1, h), k, i));
  }

  lemma WidthBeyondInsert<T>(hs: seq<nat>, ts: seq<seq<T>>, e: nat, h: nat, t: seq<T>, k: nat, i: nat)
    requires e < k < |hs| == |ts|
    ensures Width(Insert(hs, e + 1, h), Insert(ts, e + 1, t), k + 1, i) == Width(hs, ts, k, i)
  {
    TargetBeyondInsert(hs, e, h, k, i);
    PosInsert(ts, e + 1, t, k + 1);
    PosInsert(ts, e + 1, t, Target(hs, k, i) + 1);
  }

  lemma WidthOfInserted<T>(hs: seq<nat>, ts: seq<seq<T>>, e: nat, h: nat, t: seq<T>, i: nat)
    requires e < |hs| == |ts| && hs[0] > i && i < h
    ensures var c := Cover(hs, e, i);
            Width(Insert(hs, e + 1, h), Insert(ts, e + 1, t), e + 1, i) ==
            |t| + Width(hs, ts, c, i) - (Pos(ts, e + 1) - Pos(ts, c))
  {
    var c := Cover(hs, e, i);
    TargetOfInserted(hs, e, h, i);
    OverIsCover(hs, e, c, i);
    PosInsert(ts, e + 1, t, e + 1);
    PosInsert(ts, e + 1, t, Target(hs, c, i) + 1);
  }

  /** Covers before the inserted item are unchanged; at its own place it covers up to its height. */
  lemma CoverAfterInsert(hs: seq<nat>, e: nat, h: nat, i: nat)
    requires e < |hs| && hs[0] > i
    ensures Cover(Insert(hs, e + 1, h), e, i) == Cover(hs, e, i)
    ensures Cover(Insert(hs, e + 1, h), e + 1, i) == if i < h then e + 1 else Cover(hs, e, i)
  {
    CoverSkips(hs, e, i);
    CoverIs(Insert(hs, e + 1, h), e, i, Cover(hs, e, i));
  }

  /** Raising the head adds one level, on which the head's link spans everything. */
  lemma HeadRaised<T>(hs: seq<nat>, ts: seq<seq<T>>, k: nat, i: nat)
    requires k < |hs| == |ts| && forall m | 0 < m < |hs| :: hs[m] < hs[0]
    ensures Target(hs[0 := hs[0] + 1], k, i) == Target(hs, k, i)
    ensures k == 0 && i + 1 == hs[0] ==> Target(hs, k, i) == |hs|
    ensures k == 0 && i == hs[0] ==> Target(hs, k, i) == |hs|
  {
    var j := Target(hs, k, i);
    NextSkips(hs, k + 1, i);
    NextIs(hs[0 := hs[0] + 1], k + 1, i, j);
  }

  lemma {:induction false} CoverWhenRaised(hs: seq<nat>, e: nat, i: nat)
    requires e < |hs| && i <= hs[0] && forall m | 0 < m < |hs| :: hs[m] < hs[0]
    ensures i < hs[0] ==> Cover(hs[0 := hs[0] + 1], e, i) == Cover(hs, e, i)
    ensures i == hs[0] ==> Cover(hs[0 := hs[0] + 1], e, i) == 0
    ensures hs[0] > 0 ==> Cover(hs, e, hs[0] - 1) == 0
  {
    if i < hs[0] {
      CoverSkips(hs, e, i);
      CoverIs(hs[0 := hs[0] + 1], e, i, Cover(hs, e, i));
    } else {
      CoverIs(hs[0 := hs[0] + 1], e, i, 0);
    }
  }
}
