/** The bottom-up merge sort of linked lists in utlist.h, singly and doubly linked. */
module ListSort {
  import opened Basics

  class Elem<T> {
    const data: T
    var next: Elem?<T>
    var prev: Elem?<T>

    constructor (data: T)
      ensures this.data == data && next == null && prev == null
    {
      this.data := data;
      next, prev := null, null;
    }
  }

  /** Comparing as with strcmp: at most zero when the first may come first. */
  type Cmp<!T> = (T, T) -> int

  ghost predicate TotalPreorder<T(!new)>(cmp: Cmp<T>) {
    && (forall x, y :: cmp(x, y) <= 0 || cmp(y, x) <= 0)
    && (forall x, y, z :: cmp(x, y) <= 0 && cmp(y, z) <= 0 ==> cmp(x, z) <= 0)
  }

  // ---- the sort on sequences ----

  /** The merge of two runs; on a tie the first run goes first. */
  function Merge<T>(a: seq<Elem<T>>, b: seq<Elem<T>>, cmp: Cmp<T>): (r: seq<Elem<T>>)
    ensures |r| == |a| + |b|
  {
    if |a| == 0 then b
    else if |b| == 0 then a
    else if cmp(a[0].data, b[0].data) <= 0 then [a[0]] + Merge(a[1..], b, cmp)
    else [b[0]] + Merge(a, b[1..], cmp)
  }

  function Min(a: nat, b: nat): nat {
    if a < b then a else b
  }

  /** One pass: runs of n are merged two by two. */
  function Pass<T>(s: seq<Elem<T>>, n: nat, cmp: Cmp<T>): (r: seq<Elem<T>>)
    requires n > 0
    ensures |r| == |s|
  {
    if |s| == 0 then []
    else
      var i, j := Min(n, |s|), Min(n + n, |s|);
      Merge(s[..i], s[i..j], cmp) + Pass(s[j..], n, cmp)
  }

  /** Passes over longer and longer runs, until one merge does it all. */
  function Passes<T>(s: seq<Elem<T>>, n: nat, cmp: Cmp<T>): (r: seq<Elem<T>>)
    requires n > 0
    ensures |r| == |s|
    decreases if n < |s| then |s| - n else 0
  {
    if |s| <= n + n then Pass(s, n, cmp) else Passes(Pass(s, n, cmp), n + n, cmp)
  }

  predicate Sorted<T>(s: seq<Elem<T>>, cmp: Cmp<T>) {
    forall i, j | 0 <= i < j < |s| :: cmp(s[i].data, s[j].data) <= 0
  }

  /** The elements that compare equal to x, in the order they come. */
  function Ties<T>(s: seq<Elem<T>>, x: T, cmp: Cmp<T>): seq<Elem<T>> {
    if |s| == 0 then []
    else Tie(s[0], x, cmp) + Ties(s[1..], x, cmp)
  }

  function Tie<T>(e: Elem<T>, x: T, cmp: Cmp<T>): seq<Elem<T>> {
    if cmp(e.data, x) <= 0 && cmp(x, e.data) <= 0 then [e] else []
  }

  lemma {:induction false} TiesAppend<T>(a: seq<Elem<T>>, b: seq<Elem<T>>, x: T, cmp: Cmp<T>)
    ensures Ties(a + b, x, cmp) == Ties(a, x, cmp) + Ties(b, x, cmp)
  {
    if |a| == 0 {
      assert a + b == b;
    } else {
      hide Tie;
      TiesAppend(a[1..], b, x, cmp);
      assert (a + b)[0] == a[0] && (a + b)[1..] == a[1..] + b;
      Associates(Tie(a[0], x, cmp), Ties(a[1..], x, cmp), Ties(b, x, cmp));
    }
  }

  lemma {:induction false} NoTies<T>(s: seq<Elem<T>>, x: T, cmp: Cmp<T>)
    requires forall i | 0 <= i < |s| :: cmp(s[i].data, x) > 0
    ensures Ties(s, x, cmp) == []
  {
    if |s| > 0 { NoTies(s[1..], x, cmp); }
  }

  lemma HeadElem<T>(s: seq<T>)
    requires |s| > 0
    ensures multiset(s) == multiset([s[0]]) + multiset(s[1..])
  {
    assert s == [s[0]] + s[1..];
  }

  lemma {:induction false} MergeElems<T>(a: seq<Elem<T>>, b: seq<Elem<T>>, cmp: Cmp<T>)
    ensures multiset(Merge(a, b, cmp)) == multiset(a) + multiset(b)
  {
    var r := Merge(a, b, cmp);
    if |a| > 0 && |b| > 0 {
      HeadElem(r);
      if cmp(a[0].data, b[0].data) <= 0 {
        HeadElem(a);
        MergeElems(a[1..], b, cmp);
        assert r[1..] == Merge(a[1..], b, cmp);
      } else {
        HeadElem(b);
        MergeElems(a, b[1..], cmp);
        assert r[1..] == Merge(a, b[1..], cmp);
      }
    }
  }

  /** Every element of a merge comes from one of the runs. */
  lemma MergeFrom<T>(a: seq<Elem<T>>, b: seq<Elem<T>>, cmp: Cmp<T>, i: nat)
    requires i < |Merge(a, b, cmp)|
    ensures Merge(a, b, cmp)[i] in a || Merge(a, b, cmp)[i] in b
  {
    MergeElems(a, b, cmp);
    assert Merge(a, b, cmp)[i] in multiset(Merge(a, b, cmp));
  }

  lemma {:induction false} MergeSorted<T(!new)>(a: seq<Elem<T>>, b: seq<Elem<T>>, cmp: Cmp<T>)
    requires TotalPreorder(cmp) && Sorted(a, cmp) && Sorted(b, cmp)
    ensures Sorted(Merge(a, b, cmp), cmp)
  {
    if |a| > 0 && |b| > 0 {
      var first := cmp(a[0].data, b[0].data) <= 0;
      var e := if first then a[0] else b[0];
      var rest := if first then Merge(a[1..], b, cmp) else Merge(a, b[1..], cmp);
      if first { MergeSorted(a[1..], b, cmp); } else { MergeSorted(a, b[1..], cmp); }
      forall i | 0 <= i < |rest| ensures cmp(e.data, rest[i].data) <= 0 {
        if first { MergeFrom(a[1..], b, cmp, i); } else { MergeFrom(a, b[1..], cmp, i); }
        LeastFirst(a, b, cmp, e, rest[i]);
      }
    }
  }

  lemma LeastFirst<T(!new)>(a: seq<Elem<T>>, b: seq<Elem<T>>, cmp: Cmp<T>, e: Elem<T>, f: Elem<T>)
    requires TotalPreorder(cmp) && Sorted(a, cmp) && Sorted(b, cmp) && |a| > 0 && |b| > 0
    requires e == if cmp(a[0].data, b[0].data) <= 0 then a[0] else b[0]
    requires f in a || f in b
    ensures cmp(e.data, f.data) <= 0
  {
    var s := if f in a then a else b;
    var i :| 0 <= i < |s| && s[i] == f;
    assert cmp(e.data, s[0].data) <= 0;
    assert cmp(s[0].data, f.data) <= 0;
  }

  /** Merging keeps ties in the order of the runs. */
  lemma {:induction false} MergeTies<T(!new)>(a: seq<Elem<T>>, b: seq<Elem<T>>, x: T, cmp: Cmp<T>)
    requires TotalPreorder(cmp) && Sorted(a, cmp) && Sorted(b, cmp)
    ensures Ties(Merge(a, b, cmp), x, cmp) == Ties(a, x, cmp) + Ties(b, x, cmp)
  {
    hide Tie, Sorted;
    if |a| > 0 && |b| > 0 {
      SortedRest(a, cmp);
      SortedRest(b, cmp);
      if cmp(a[0].data, b[0].data) <= 0 {
        MergeTies(a[1..], b, x, cmp);
        Associates(Tie(a[0], x, cmp), Ties(a[1..], x, cmp), Ties(b, x, cmp));
      } else {
        MergeTies(a, b[1..], x, cmp);
        TieBehind(a, b[0], x, cmp);
        Associates(Tie(b[0], x, cmp), Ties(a, x, cmp), Ties(b[1..], x, cmp));
        Associates(Ties(a, x, cmp), Tie(b[0], x, cmp), Ties(b[1..], x, cmp));
      }
    }
  }

  lemma SortedRest<T>(s: seq<Elem<T>>, cmp: Cmp<T>)
    requires |s| > 0 && Sorted(s, cmp)
    ensures Sorted(s[1..], cmp)
  {
  }

  lemma Transits<T(!new)>(cmp: Cmp<T>, x: T, y: T, z: T)
    requires TotalPreorder(cmp)
    ensures cmp(x, y) <= 0 && cmp(y, z) <= 0 ==> cmp(x, z) <= 0
  {
  }

  /** An element less than all of a run ties with nothing that one of the run ties with. */
  lemma TieBehind<T(!new)>(a: seq<Elem<T>>, e: Elem<T>, x: T, cmp: Cmp<T>)
    requires TotalPreorder(cmp) && Sorted(a, cmp) && |a| > 0 && cmp(a[0].data, e.data) > 0
    ensures Tie(e, x, cmp) + Ties(a, x, cmp) == Ties(a, x, cmp) + Tie(e, x, cmp)
  {
    if cmp(e.data, x) <= 0 && cmp(x, e.data) <= 0 {
      forall i | 0 <= i < |a| ensures cmp(a[i].data, x) > 0 {
        assert i > 0 ==> cmp(a[0].data, a[i].data) <= 0;
        Transits(cmp, a[0].data, a[i].data, x);
        Transits(cmp, a[0].data, x, e.data);
      }
      NoTies(a, x, cmp);
    }
  }

  /** The sequence falls into sorted runs of n, the last one perhaps shorter. */
  ghost predicate Runs<T>(s: seq<Elem<T>>, n: nat, cmp: Cmp<T>)
    requires n > 0
  {
    |s| > 0 ==> Sorted(s[..Min(n, |s|)], cmp) && Runs(s[Min(n, |s|)..], n, cmp)
  }

  lemma {:induction false} RunsOfOne<T(!new)>(s: seq<Elem<T>>, cmp: Cmp<T>)
    ensures Runs(s, 1, cmp)
  {
    if |s| > 0 { RunsOfOne(s[1..], cmp); }
  }

  /** A pass merges runs of n into runs of 2n. */
  lemma {:induction false} PassRuns<T(!new)>(s: seq<Elem<T>>, n: nat, cmp: Cmp<T>)
    requires n > 0 && TotalPreorder(cmp) && Runs(s, n, cmp)
    ensures Runs(Pass(s, n, cmp), n + n, cmp)
  {
    hide Sorted, Merge, TotalPreorder;
    if |s| > 0 {
      var i, j := Min(n, |s|), Min(n + n, |s|);
      var m, r := Merge(s[..i], s[i..j], cmp), Pass(s[j..], n, cmp);
      RunsFurther(s, n, cmp);
      PassRuns(s[j..], n, cmp);
      MergeSorted(s[..i], s[i..j], cmp);
      assert (m + r)[..j] == m && (m + r)[j..] == r;
    }
  }

  /** It keeps the elements. */
  lemma {:induction false} PassElems<T>(s: seq<Elem<T>>, n: nat, cmp: Cmp<T>)
    requires n > 0
    ensures multiset(Pass(s, n, cmp)) == multiset(s)
  {
    hide Merge;
    if |s| > 0 {
      var i, j := Min(n, |s|), Min(n + n, |s|);
      PassElems(s[j..], n, cmp);
      MergeElems(s[..i], s[i..j], cmp);
      assert s == s[..i] + s[i..j] + s[j..];
    }
  }

  lemma PassIs<T>(s: seq<Elem<T>>, n: nat, cmp: Cmp<T>)
    requires n > 0
    ensures var i, j := Min(n, |s|), Min(n + n, |s|);
            Pass(s, n, cmp) == if |s| == 0 then s else Merge(s[..i], s[i..j], cmp) + Pass(s[j..], n, cmp)
  {
  }

  /** And it keeps ties in order. */
  lemma {:induction false} PassTies<T(!new)>(s: seq<Elem<T>>, n: nat, x: T, cmp: Cmp<T>)
    requires n > 0 && TotalPreorder(cmp) && Runs(s, n, cmp)
    ensures Ties(Pass(s, n, cmp), x, cmp) == Ties(s, x, cmp)
  {
    hide Sorted, Merge, Ties, TotalPreorder, Runs, Pass;
    PassIs(s, n, cmp);
    if |s| > 0 {
      var i, j := Min(n, |s|), Min(n + n, |s|);
      RunsFurther(s, n, cmp);
      PassTies(s[j..], n, x, cmp);
      assert s == s[..i] + s[i..j] + s[j..];
      TiesOfMerge(s[..i], s[i..j], s[j..], Pass(s[j..], n, cmp), x, cmp);
    }
  }

  lemma TiesOfMerge<T(!new)>(a: seq<Elem<T>>, b: seq<Elem<T>>, rest: seq<Elem<T>>, r: seq<Elem<T>>, x: T, cmp: Cmp<T>)
    requires TotalPreorder(cmp) && Sorted(a, cmp) && Sorted(b, cmp) && Ties(r, x, cmp) == Ties(rest, x, cmp)
    ensures Ties(Merge(a, b, cmp) + r, x, cmp) == Ties(a + b + rest, x, cmp)
  {
    MergeTies(a, b, x, cmp);
    TiesAppend(Merge(a, b, cmp), r, x, cmp);
    TiesAppend(a + b, rest, x, cmp);
    TiesAppend(a, b, x, cmp);
  }

  /** The first two runs and what follows them. */
  lemma RunsFurther<T>(s: seq<Elem<T>>, n: nat, cmp: Cmp<T>)
    requires n > 0 && |s| > 0 && Runs(s, n, cmp)
    ensures var i, j := Min(n, |s|), Min(n + n, |s|);
            Sorted(s[..i], cmp) && Sorted(s[i..j], cmp) && Runs(s[j..], n, cmp)
  {
    hide Sorted;
    var i, j := Min(n, |s|), Min(n + n, |s|);
    var t := s[i..];
    if |t| > 0 {
      assert t[..Min(n, |t|)] == s[i..j] && t[Min(n, |t|)..] == s[j..];
    } else {
      assert s[i..j] == [] && s[j..] == [];
      SortedNone(cmp);
    }
  }

  lemma SortedNone<T>(cmp: Cmp<T>)
    ensures Sorted([], cmp)
  {
  }

  /** The sort's result is sorted, has the same elements, and keeps ties in order. */
  lemma {:induction false} PassesSort<T(!new)>(s: seq<Elem<T>>, n: nat, cmp: Cmp<T>)
    requires n > 0 && TotalPreorder(cmp) && Runs(s, n, cmp)
    ensures Sorted(Passes(s, n, cmp), cmp)
    ensures multiset(Passes(s, n, cmp)) == multiset(s)
    ensures forall x :: Ties(Passes(s, n, cmp), x, cmp) == Ties(s, x, cmp)
    decreases if n < |s| then |s| - n else 0
  {
    hide Pass, Ties, TotalPreorder;
    PassRuns(s, n, cmp);
    PassElems(s, n, cmp);
    forall x ensures Ties(Pass(s, n, cmp), x, cmp) == Ties(s, x, cmp) { PassTies(s, n, x, cmp); }
    var r := Pass(s, n, cmp);
    if |s| <= n + n {
      assert r[..|s|] == r;
    } else {
      PassesSort(r, n + n, cmp);
    }
  }

  // ---- the sort on linked elements ----

  function First<T>(s: seq<Elem<T>>): Elem?<T> {
    if |s| == 0 then null else s[0]
  }

  function Last<T>(s: seq<Elem<T>>): Elem?<T> {
    if |s| == 0 then null else s[|s| - 1]
  }

  /** Each element leads to the one after it. */
  ghost predicate Joined<T>(s: seq<Elem<T>>)
    reads s`next
  {
    forall i | 0 <= i < |s| - 1 :: s[i].next == s[i + 1]
  }

  /** ... and the last one to none. */
  ghost predicate List<T>(s: seq<Elem<T>>)
    reads s`next
  {
    Joined(s) && (|s| > 0 ==> s[|s| - 1].next == null)
  }

  /** Each element leads back to the one before it. */
  ghost predicate Backed<T>(s: seq<Elem<T>>)
    reads s`prev
  {
    forall i | 0 < i < |s| :: s[i].prev == s[i - 1]
  }

  predicate Distinct<T>(s: seq<Elem<T>>) {
    forall i, j | 0 <= i < j < |s| :: s[i] != s[j]
  }

  predicate Apart<T>(s: seq<Elem<T>>, t: seq<Elem<T>>) {
    forall i, j | 0 <= i < |s| && 0 <= j < |t| :: s[i] != t[j]
  }

  /** The elements already put out, those left of the first run, and those from the second run on. */
  datatype Hand<!T> = Hand(out: seq<Elem<T>>, a: seq<Elem<T>>, b: seq<Elem<T>>) {
    /** The element that goes next: from the first run, or else from the second. */
    function Put(fromA: bool): Hand<T>
      requires if fromA then |a| > 0 else |b| > 0
    {
      if fromA then Hand(out + [a[0]], a[1..], b) else Hand(out + [b[0]], a, b[1..])
    }

    ghost predicate NoneTwice() {
      && Distinct(out) && Distinct(a) && Distinct(b)
      && Apart(out, a) && Apart(out, b) && Apart(a, b)
    }

    ghost predicate Within(all: set<Elem<T>>) {
      && (forall i | 0 <= i < |out| :: out[i] in all)
      && (forall i | 0 <= i < |a| :: a[i] in all)
      && (forall i | 0 <= i < |b| :: b[i] in all)
    }
  }

  lemma PutOnce<T>(h: Hand<T>, fromA: bool, all: set<Elem<T>>)
    requires h.NoneTwice() && h.Within(all) && if fromA then |h.a| > 0 else |h.b| > 0
    ensures h.Put(fromA).NoneTwice() && h.Put(fromA).Within(all)
  {
  }

  /** The pointers of the pass agree with the elements in hand. */
  ghost predicate InHand<T>(h: Hand<T>, list: Elem?<T>, tail: Elem?<T>, p: Elem?<T>, q: Elem?<T>, dl: bool)
    reads h.out, h.a, h.b
  {
    && list == First(h.out) && tail == Last(h.out)
    && (|h.a| > 0 ==> p == h.a[0]) && q == First(h.b)
    && Joined(h.out) && Joined(h.a) && List(h.b)
    && (dl ==> Backed(h.out))
  }

  /** Element e goes behind the tail, or becomes the head of the list. */
  method PutOut<T>(list: Elem?<T>, tail: Elem?<T>, e: Elem<T>, dl: bool, ghost h: Hand<T>, ghost fromA: bool,
                   ghost p: Elem?<T>, ghost q: Elem?<T>)
    returns (list': Elem?<T>)
    requires h.NoneTwice() && if fromA then |h.a| > 0 && e == h.a[0] else |h.b| > 0 && e == h.b[0]
    requires InHand(h, list, tail, p, q, dl)
    modifies h.out`next, e`prev
    ensures InHand(h.Put(fromA), list', e, if fromA && |h.a| > 1 then old(e.next) else p,
                   if fromA then q else old(e.next), dl)
    ensures !dl ==> unchanged(e`prev)
  {
    if tail != null {
      tail.next := e;
      list' := list;
    } else {
      list' := e;
    }
    if dl { e.prev := tail; }
  }

  /** What the two runs in hand, the second of at most qsize elements, still merge to. */
  function ToMerge<T>(h: Hand<T>, qsize: nat, cmp: Cmp<T>): seq<Elem<T>> {
    Merge(h.a, h.b[..Min(qsize, |h.b|)], cmp)
  }

  /** What lies behind a run of at most n elements. */
  function Rest<T>(s: seq<T>, n: nat): seq<T> {
    s[Min(n, |s|)..]
  }

  lemma RestIs<T>(s: seq<T>, n: nat)
    ensures Rest(s, n) == s[Min(n, |s|)..]
  {
  }

  lemma RestFurther<T>(s: seq<T>, n: nat)
    requires |s| > 0 && n > 0
    ensures Rest(s[1..], n - 1) == Rest(s, n)
  {
  }

  /** The next element of a merge. */
  lemma MergeNext<T>(h: Hand<T>, qsize: nat, cmp: Cmp<T>, fromA: bool)
    requires if fromA then |h.a| > 0 && (qsize == 0 || |h.b| == 0 || cmp(h.a[0].data, h.b[0].data) <= 0)
             else |h.b| > 0 && qsize > 0 && (|h.a| == 0 || cmp(h.a[0].data, h.b[0].data) > 0)
    ensures h.Put(fromA).out + ToMerge(h.Put(fromA), if fromA then qsize else qsize - 1, cmp) ==
            h.out + ToMerge(h, qsize, cmp)
  {
    var m := Min(qsize, |h.b|);
    if fromA {
      assert Merge(h.a, h.b[..m], cmp) == [h.a[0]] + Merge(h.a[1..], h.b[..m], cmp) by { MergeAlone(h.a[1..], cmp); }
    } else {
      assert h.b[..m][1..] == h.b[1..][..m - 1];
      assert Merge(h.a, h.b[..m], cmp) == [h.b[0]] + Merge(h.a, h.b[..m][1..], cmp);
    }
  }

  lemma MergeAlone<T>(a: seq<Elem<T>>, cmp: Cmp<T>)
    ensures Merge(a, [], cmp) == a && Merge([], a, cmp) == a
  {
  }

  /** The innermost loop of the sort: two runs are merged onto the end of the list. */
  method MergeRuns<T>(list: Elem?<T>, tail: Elem?<T>, p: Elem?<T>, q: Elem?<T>, psize: nat, qsize: nat,
                      cmp: Cmp<T>, dl: bool,
                      ghost h: Hand<T>, ghost all: set<Elem<T>>)
    returns (list': Elem?<T>, tail': Elem?<T>, q': Elem?<T>, ghost h': Hand<T>)
    requires h.NoneTwice() && h.Within(all) && InHand(h, list, tail, p, q, dl) && psize == |h.a|
    modifies all`next, all`prev
    ensures h'.NoneTwice() && h'.Within(all) && InHand(h', list', tail', null, q', dl) && |h'.a| == 0
    ensures h'.out == h.out + ToMerge(h, qsize, cmp) && h'.b == h.b[Min(qsize, |h.b|)..]
    ensures !dl ==> forall e | e in all :: e.prev == old(e.prev)
  {
    hide InHand, ToMerge, Merge, Distinct, Apart, Hand.NoneTwice, Hand.Within, Rest;
    var p', ps, qs := p, psize, qsize;
    list', tail', q', h' := list, tail, q, h;
    Names(h', list', tail', p', q', dl);
    while ps > 0 || (qs > 0 && q' != null)
      invariant h'.NoneTwice() && h'.Within(all) && InHand(h', list', tail', p', q', dl)
      invariant ps == |h'.a| && q' == First(h'.b) && (ps > 0 ==> p' == h'.a[0])
      invariant h'.out + ToMerge(h', qs, cmp) == h.out + ToMerge(h, qsize, cmp)
      invariant Rest(h'.b, qs) == Rest(h.b, qsize)
      invariant !dl ==> forall e | e in all :: e.prev == old(e.prev)
      decreases ps + |h'.b|
    {
      var fromA := if ps == 0 then false else if qs == 0 || q' == null then true else cmp(p'.data, q'.data) <= 0;
      MergeNext(h', qs, cmp, fromA);
      if !fromA { RestFurther(h'.b, qs); }
      list', tail', p', q', h' := TakeOne(list', tail', p', q', fromA, dl, h', all);
      if fromA { ps := ps - 1; } else { qs := qs - 1; }
    }
    NothingToMerge(h', qs, cmp);
    RestIs(h.b, qsize);
    OtherRun(h', list', tail', p', null, q', dl);
  }

  /** The pointers name the elements in hand. */
  lemma Names<T>(h: Hand<T>, list: Elem?<T>, tail: Elem?<T>, p: Elem?<T>, q: Elem?<T>, dl: bool)
    requires InHand(h, list, tail, p, q, dl)
    ensures q == First(h.b) && (|h.a| > 0 ==> p == h.a[0])
  {
  }

  lemma NothingToMerge<T>(h: Hand<T>, qsize: nat, cmp: Cmp<T>)
    requires |h.a| == 0 && (qsize == 0 || |h.b| == 0)
    ensures ToMerge(h, qsize, cmp) == [] && Rest(h.b, qsize) == h.b
  {
  }

  /** One turn of the innermost loop: an element is taken from the front of its run and put out. */
  method TakeOne<T>(list: Elem?<T>, tail: Elem?<T>, p: Elem?<T>, q: Elem?<T>, fromA: bool, dl: bool,
                    ghost h: Hand<T>, ghost all: set<Elem<T>>)
    returns (list': Elem?<T>, tail': Elem?<T>, p': Elem?<T>, q': Elem?<T>, ghost h': Hand<T>)
    requires h.NoneTwice() && h.Within(all) && InHand(h, list, tail, p, q, dl)
    requires if fromA then |h.a| > 0 else |h.b| > 0
    modifies all`next, all`prev
    ensures h' == h.Put(fromA) && h'.NoneTwice() && h'.Within(all) && InHand(h', list', tail', p', q', dl)
    ensures q' == First(h'.b) && (|h'.a| > 0 ==> p' == h'.a[0])
    ensures !dl ==> forall e | e in all :: e.prev == old(e.prev)
  {
    hide InHand, Distinct, Apart, Hand.NoneTwice;
    Names(h, list, tail, p, q, dl);
    PutOnce(h, fromA, all);
    h' := h.Put(fromA);
    var e: Elem<T>;
    p', q' := p, q;
    if fromA {
      e := p;
      p' := e.next;
    } else {
      e := q;
      q' := e.next;
    }
    list' := PutOut(list, tail, e, dl, h, fromA, p, q);
    tail' := e;
    Names(h', list', tail', if fromA && |h.a| > 1 then p' else p, q', dl);
    OtherRun(h', list', tail', if fromA && |h.a| > 1 then p' else p, p', q', dl);
  }

  /** With the first run at its end, its pointer does not matter. */
  lemma OtherRun<T>(h: Hand<T>, list: Elem?<T>, tail: Elem?<T>, p: Elem?<T>, p': Elem?<T>, q: Elem?<T>, dl: bool)
    requires InHand(h, list, tail, p, q, dl) && (|h.a| > 0 ==> p' == p)
    ensures InHand(h, list, tail, p', q, dl)
  {
  }

  /** q runs ahead of p by one run. */
  method RunAhead<T>(p: Elem<T>, insize: nat, ghost rest: seq<Elem<T>>) returns (q: Elem?<T>, psize: nat)
    requires insize > 0 && |rest| > 0 && p == rest[0] && List(rest)
    ensures psize == Min(insize, |rest|) && q == First(rest[psize..])
  {
    q, psize := p, 0;
    while psize < insize && q != null
      invariant psize <= Min(insize, |rest|)
      invariant q == First(rest[psize..])
      decreases insize - psize
    {
      q := q.next;
      psize := psize + 1;
    }
  }

  /** What is left of a pass, cut after its first run. */
  lemma CutRun<T>(out: seq<Elem<T>>, rest: seq<Elem<T>>, psize: nat, list: Elem?<T>, tail: Elem?<T>, dl: bool,
                  all: set<Elem<T>>)
    requires psize <= |rest| && InHand(Hand(out, [], rest), list, tail, null, First(rest), dl)
    requires Hand(out, [], rest).NoneTwice() && Hand(out, [], rest).Within(all)
    ensures var h := Hand(out, rest[..psize], rest[psize..]);
            InHand(h, list, tail, First(rest), First(rest[psize..]), dl) && h.NoneTwice() && h.Within(all)
  {
  }

  /** The end of a pass: the last element leads to none; and, doubly linked, the first one back to it. */
  ghost predicate Linked<T>(s: seq<Elem<T>>, list: Elem?<T>, dl: bool)
    reads s
  {
    list == First(s) && List(s) && Distinct(s) && (dl && |s| > 0 ==> Backed(s) && s[0].prev == s[|s| - 1])
  }

  /** One pass of the sort. */
  method PassOver<T>(list: Elem<T>, insize: nat, cmp: Cmp<T>, dl: bool, ghost s: seq<Elem<T>>, ghost all: set<Elem<T>>)
    returns (list': Elem<T>, nmerges: nat)
    requires insize > 0 && |s| > 0 && list == s[0] && List(s) && Distinct(s) && Hand([], [], s).Within(all)
    modifies all`next, all`prev
    ensures Linked(Pass(s, insize, cmp), list', dl) && Hand([], [], Pass(s, insize, cmp)).Within(all)
    ensures nmerges <= 1 <==> |s| <= insize + insize
    ensures !dl ==> forall e | e in all :: e.prev == old(e.prev)
  {
    hide InHand, ToMerge, Merge, Pass, Hand.NoneTwice;
    var head, tail, p: Elem?<T> := null, null, list;
    nmerges := 0;
    ghost var h: Hand<T> := Hand([], [], s);
    PassStarts(s, dl, all);
    while p != null
      invariant |h.a| == 0 && InHand(h, head, tail, null, p, dl) && h.NoneTwice() && h.Within(all) && p == First(h.b)
      invariant h.out + Pass(h.b, insize, cmp) == Pass(s, insize, cmp)
      invariant |h.b| <= |s| && (nmerges == 0 <==> |h.b| == |s|)
      invariant (nmerges == 1 ==> |h.b| == |s| - Min(insize + insize, |s|))
      invariant nmerges > 1 ==> |s| > insize + insize
      invariant !dl ==> forall e | e in all :: e.prev == old(e.prev)
      decreases |h.b|
    {
      nmerges := nmerges + 1;
      head, tail, p, h := MergeTwo(head, tail, p, insize, cmp, dl, h, all);
    }
    PassIs(h.b, insize, cmp);
    assert h == Hand(Pass(s, insize, cmp), [], []);
    list' := PassEnds(head, tail, dl, h);
  }

  lemma PassStarts<T>(s: seq<Elem<T>>, dl: bool, all: set<Elem<T>>)
    requires List(s) && Distinct(s)
    ensures InHand(Hand([], [], s), null, null, null, First(s), dl) && Hand([], [], s).NoneTwice()
  {
  }

  /** One turn of a pass: the next two runs are merged. */
  method MergeTwo<T>(list: Elem?<T>, tail: Elem?<T>, p: Elem<T>, insize: nat, cmp: Cmp<T>, dl: bool,
                     ghost h: Hand<T>, ghost all: set<Elem<T>>)
    returns (list': Elem?<T>, tail': Elem?<T>, q': Elem?<T>, ghost h': Hand<T>)
    requires insize > 0 && |h.a| == 0 && h.NoneTwice() && h.Within(all) && InHand(h, list, tail, null, p, dl)
    requires |h.b| > 0 && p == h.b[0]
    modifies all`next, all`prev
    ensures h'.NoneTwice() && h'.Within(all) && InHand(h', list', tail', null, q', dl)
    ensures |h'.a| == 0 && q' == First(h'.b)
    ensures h'.out + Pass(h'.b, insize, cmp) == h.out + Pass(h.b, insize, cmp)
    ensures |h'.b| == |h.b| - Min(insize + insize, |h.b|)
    ensures !dl ==> forall e | e in all :: e.prev == old(e.prev)
  {
    hide InHand, Merge, Pass, ToMerge, Hand.NoneTwice, Hand.Within;
    assert List(h.b) by { ListAhead(h, list, tail, null, p, dl); }
    var q, psize := RunAhead(p, insize, h.b);
    ghost var cut := Hand(h.out, h.b[..psize], h.b[psize..]);
    assert h == Hand(h.out, [], h.b);
    CutRun(h.out, h.b, psize, list, tail, dl, all);
    list', tail', q', h' := MergeRuns(list, tail, p, q, psize, insize, cmp, dl, cut, all);
    Names(h', list', tail', null, q', dl);
    TwoRuns(h.out, h.b, psize, insize, cmp);
  }

  lemma TwoRuns<T>(out: seq<Elem<T>>, b: seq<Elem<T>>, psize: nat, n: nat, cmp: Cmp<T>)
    requires n > 0 && |b| > 0 && psize == Min(n, |b|)
    ensures var cut := Hand(out, b[..psize], b[psize..]);
            var rest := cut.b[Min(n, |cut.b|)..];
            && out + ToMerge(cut, n, cmp) + Pass(rest, n, cmp) == out + Pass(b, n, cmp)
            && |rest| == |b| - Min(n + n, |b|)
  {
    hide Merge, Pass;
    PassIs(b, n, cmp);
    var j := Min(n + n, |b|);
    var cut := Hand(out, b[..psize], b[psize..]);
    assert cut.b[..Min(n, |cut.b|)] == b[psize..j] && cut.b[Min(n, |cut.b|)..] == b[j..];
    Associates(out, ToMerge(cut, n, cmp), Pass(b[j..], n, cmp));
  }

  lemma ListAhead<T>(h: Hand<T>, list: Elem?<T>, tail: Elem?<T>, p: Elem?<T>, q: Elem?<T>, dl: bool)
    requires InHand(h, list, tail, p, q, dl)
    ensures List(h.b)
  {
  }

  method PassEnds<T>(list: Elem?<T>, tail: Elem?<T>, dl: bool, ghost h: Hand<T>) returns (list': Elem<T>)
    requires |h.out| > 0 && |h.a| == 0 && |h.b| == 0 && h.NoneTwice() && InHand(h, list, tail, null, null, dl)
    modifies h.out`next, h.out`prev
    ensures Linked(h.out, list', dl)
    ensures !dl ==> forall i | 0 <= i < |h.out| :: h.out[i].prev == old(h.out[i].prev)
  {
    list' := list;
    if dl { list'.prev := tail; }
    tail.next := null;
  }

  /** LL_SORT2, and with `dl` DL_SORT2: the elements of the list, linked anew, are sorted; elements that
      compare equal stay in the order they had; and the prev links are rebuilt when the list is doubly
      linked, and left alone when it is not. */
  method Sort<T(!new)>(list: Elem?<T>, cmp: Cmp<T>, dl: bool, ghost s: seq<Elem<T>>)
    returns (list': Elem?<T>, ghost r: seq<Elem<T>>)
    requires TotalPreorder(cmp) && list == First(s) && List(s) && Distinct(s)
    modifies s`next, s`prev
    ensures Linked(r, list', dl) && Sorted(r, cmp) && multiset(r) == multiset(s)
    ensures forall x :: Ties(r, x, cmp) == Ties(s, x, cmp)
    ensures !dl ==> forall i | 0 <= i < |s| :: s[i].prev == old(s[i].prev)
  {
    hide Pass, Sorted, Ties, TotalPreorder, Runs, Linked, List, Distinct;
    list', r := list, s;
    RunsOfOne(s, cmp);
    PassesSort(s, 1, cmp);
    NoneLinked<T>(dl);
    if list != null {
      assert list == First(r) && List(r) && Distinct(r);
      ghost var all := set i | 0 <= i < |s| :: s[i];
      var insize := 1;
      var looping := true;
      var head: Elem<T> := list;
      while looping
        invariant insize > 0 && |r| == |s|
        invariant Hand([], [], r).Within(all)
        invariant looping ==> Passes(r, insize, cmp) == Passes(s, 1, cmp) && head == First(r) && List(r) && Distinct(r)
        invariant !looping ==> r == Passes(s, 1, cmp) && Linked(r, head, dl)
        invariant !dl ==> forall e | e in all :: e.prev == old(e.prev)
        decreases looping, if insize < |s| then |s| - insize else 0
      {
        var nmerges;
        head, nmerges := PassOver(head, insize, cmp, dl, r, all);
        r := Pass(r, insize, cmp);
        LinkedList(r, head, dl);
        if nmerges <= 1 { looping := false; }
        insize := insize * 2;
      }
      list' := head;
    } else {
      assert s == [];
    }
  }

  lemma NoneLinked<T>(dl: bool)
    ensures Linked<T>([], null, dl)
  {
  }

  lemma LinkedList<T>(s: seq<Elem<T>>, list: Elem?<T>, dl: bool)
    requires Linked(s, list, dl)
    ensures list == First(s) && List(s) && Distinct(s)
  {
  }
}
