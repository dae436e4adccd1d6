/** First-seen renaming of raw span ids to span_1, span_2, ... */
module SpanRefs {
  import Decimal

  /** `f"span_{index + 1}"`. */
  function Name(index: nat): string {
    "span_" + Decimal.OfNat(index + 1)
  }

  /** The first id is span_1. */
  lemma FirstName()
    ensures Name(0) == "span_1"
  {
    assert Decimal.OfNat(1) == "1";
  }

  lemma NameInjective(i: nat, j: nat)
    requires Name(i) == Name(j)
    ensures i == j
  {
    assert Name(i)[5..] == Decimal.OfNat(i + 1) && Name(j)[5..] == Decimal.OfNat(j + 1);
    Decimal.OfNatInjective(i + 1, j + 1);
  }

  ghost predicate Distinct(ids: seq<string>) {
    forall i, j :: 0 <= i < j < |ids| ==> ids[i] != ids[j]
  }

  /** The ids seen, in first-seen order, after one more lookup. */
  ghost function Push(order: seq<string>, id: string): seq<string> {
    if id in order then order else order + [id]
  }

  ghost function Dedupe(ids: seq<string>): (order: seq<string>)
    ensures Distinct(order)
    ensures forall x :: x in order <==> x in ids
  {
    if ids == [] then []
    else
      var n := |ids| - 1;
      assert ids == ids[..n] + [ids[n]];
      Push(Dedupe(ids[..n]), ids[n])
  }

  ghost function IndexOf(order: seq<string>, id: string): (i: nat)
    requires id in order
    ensures i < |order| && order[i] == id
  {
    var i :| 0 <= i < |order| && order[i] == id;
    i
  }

  /** The dictionary is a bijection from the seen ids to span_1 .. span_n in first-seen order. */
  ghost predicate Names(refs: map<string, string>, order: seq<string>) {
    && Distinct(order)
    && (forall id :: id in refs <==> id in order)
    && |refs| == |order|
    && forall i :: 0 <= i < |order| ==> refs[order[i]] == Name(i)
  }

  lemma DistinctGrows(order: seq<string>, id: string)
    requires Distinct(order) && id !in order
    ensures Distinct(order + [id])
  {
  }

  lemma MembersGrow(refs: map<string, string>, order: seq<string>, id: string, name: string)
    requires (forall x :: x in refs <==> x in order) && id !in refs
    ensures forall x :: x in refs[id := name] <==> x in order + [id]
    ensures |refs[id := name]| == |refs| + 1
  {
    assert refs[id := name].Keys == refs.Keys + {id};
  }

  lemma NamesGrow(refs: map<string, string>, order: seq<string>, id: string)
    requires Names(refs, order) && id !in refs
    ensures id !in order && Names(refs[id := Name(|refs|)], order + [id])
  {
    var name := Name(|refs|);
    DistinctGrows(order, id);
    MembersGrow(refs, order, id, name);
    var next, more := refs[id := name], order + [id];
    forall i | 0 <= i < |more|
      ensures more[i] in next && next[more[i]] == Name(i)
    {
      assert more[i] in more;
      if i < |order| {
        assert more[i] == order[i] && order[i] in order && order[i] != id;
      }
    }
  }

  /** The shared dictionary, with the order in which its keys came in. */
  class Refs {
    var refs: map<string, string>
    ghost var order: seq<string>

    ghost predicate Valid()
      reads this
    {
      Names(refs, order)
    }

    constructor ()
      ensures Valid() && order == []
    {
      refs, order := map[], [];
    }

    /** `_span_ref`. */
    method SpanRef(raw: string) returns (ref: string)
      requires Valid()
      modifies this
      ensures Valid() && order == Push(old(order), raw)
      ensures ref == Name(IndexOf(order, raw))
    {
      if raw !in refs {
        NamesGrow(refs, order, raw);
        refs := refs[raw := Name(|refs|)];
        order := order + [raw];
      }
      ref := refs[raw];
    }
  }

  lemma ValidInjective(r: Refs, a: string, b: string)
    requires r.Valid() && a in r.refs && b in r.refs && r.refs[a] == r.refs[b]
    ensures a == b
  {
    var i :| 0 <= i < |r.order| && r.order[i] == a;
    var j :| 0 <= j < |r.order| && r.order[j] == b;
    NameInjective(i, j);
  }

  // ---------------------------------------------------------- canonical patterns

  /** The index that the id at a position is given: how many different ids came before its first use. */
  ghost function CanonAt(ids: seq<string>, p: nat): nat
    requires p < |ids|
  {
    assert ids[..p + 1][p] == ids[p];
    IndexOf(Dedupe(ids[..p + 1]), ids[p])
  }

  /** Two id lists repeat their ids at the same positions. */
  ghost predicate SamePattern(xs: seq<string>, ys: seq<string>) {
    && |xs| == |ys|
    && forall p, q :: 0 <= p < |xs| && 0 <= q < |xs| ==> (xs[p] == xs[q] <==> ys[p] == ys[q])
  }

  ghost predicate SameCanon(xs: seq<string>, ys: seq<string>, n: nat) {
    n <= |xs| && n <= |ys| && forall p :: 0 <= p < n ==> CanonAt(xs, p) == CanonAt(ys, p)
  }

  lemma IndexUnique(order: seq<string>, id: string, i: nat)
    requires Distinct(order) && i < |order| && order[i] == id
    ensures IndexOf(order, id) == i
  {
  }

  lemma DedupeNext(ids: seq<string>, n: nat)
    requires n < |ids|
    ensures Dedupe(ids[..n + 1]) == Push(Dedupe(ids[..n]), ids[n])
  {
    assert ids[..n + 1][..n] == ids[..n];
  }

  /** Ids keep their index as more ids come in. */
  lemma {:induction false} CanonStable(ids: seq<string>, p: nat, n: nat)
    requires p < n <= |ids|
    ensures ids[p] in Dedupe(ids[..n]) && CanonAt(ids, p) == IndexOf(Dedupe(ids[..n]), ids[p])
    decreases n
  {
    assert ids[..n][p] == ids[p];
    if p + 1 < n {
      CanonStable(ids, p, n - 1);
      DedupeNext(ids, n - 1);
      var d := Dedupe(ids[..n - 1]);
      IndexUnique(Push(d, ids[n - 1]), ids[p], IndexOf(d, ids[p]));
    }
  }

  /** Positions with the same id, and only they, have the same index. */
  lemma CanonSeparates(ids: seq<string>, p: nat, q: nat)
    requires p < |ids| && q < |ids|
    ensures CanonAt(ids, p) == CanonAt(ids, q) <==> ids[p] == ids[q]
  {
    CanonStable(ids, p, |ids|);
    CanonStable(ids, q, |ids|);
  }

  /** The index of an id that has not been seen before is the number of ids seen. */
  lemma CanonFresh(ids: seq<string>, p: nat)
    requires p < |ids| && ids[p] !in ids[..p]
    ensures CanonAt(ids, p) == |Dedupe(ids[..p])|
  {
    DedupeNext(ids, p);
    IndexUnique(Dedupe(ids[..p + 1]), ids[p], |Dedupe(ids[..p])|);
  }

  lemma {:induction false} SamePatternSameCanon(xs: seq<string>, ys: seq<string>, n: nat)
    requires SamePattern(xs, ys) && n <= |xs|
    ensures SameCanon(xs, ys, n)
    ensures |Dedupe(xs[..n])| == |Dedupe(ys[..n])|
  {
    if n > 0 {
      var p := n - 1;
      SamePatternSameCanon(xs, ys, p);
      DedupeNext(xs, p);
      DedupeNext(ys, p);
      if xs[p] in xs[..p] {
        var q :| 0 <= q < p && xs[..p][q] == xs[p];
        assert xs[q] == xs[p] && ys[q] == ys[p];
        assert ys[..p][q] == ys[p];
        CanonSeparates(xs, p, q);
        CanonSeparates(ys, p, q);
      } else {
        CanonFresh(xs, p);
        CanonFresh(ys, p);
      }
    }
  }

  /** First-seen renaming is a canonical form of the pattern of equal ids. */
  lemma CanonExact(xs: seq<string>, ys: seq<string>)
    requires |xs| == |ys|
    ensures SameCanon(xs, ys, |xs|) <==> SamePattern(xs, ys)
  {
    if SamePattern(xs, ys) {
      SamePatternSameCanon(xs, ys, |xs|);
    }
    if SameCanon(xs, ys, |xs|) {
      forall p, q | 0 <= p < |xs| && 0 <= q < |xs|
        ensures xs[p] == xs[q] <==> ys[p] == ys[q]
      {
        CanonSeparates(xs, p, q);
        CanonSeparates(ys, p, q);
      }
    }
  }
}
