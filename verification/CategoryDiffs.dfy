/** The diff of one surface category, and its algebra. */
module CategoryDiffs {
  import Lexicographic

  datatype Section = Section(added: seq<string>, removed: seq<string>, kept: seq<string>)

  /** `category_diff`. */
  function Diff(base: set<string>, head: set<string>): Section {
    Section(
      Lexicographic.Sorted(head - base),
      Lexicographic.Sorted(base - head),
      Lexicographic.Sorted(base * head))
  }

  ghost function Elements(s: seq<string>): set<string> {
    set x | x in s
  }

  ghost predicate Disjoint(s: seq<string>, t: seq<string>) {
    forall x :: x in s ==> x !in t
  }

  /** The base set with a diff applied to it. */
  ghost function Apply(base: set<string>, d: Section): set<string> {
    base - Elements(d.removed) + Elements(d.added)
  }

  ghost function Swap(d: Section): Section {
    Section(d.removed, d.added, d.kept)
  }

  /** The diff over two consecutive steps, from the two diffs alone. */
  ghost function Compose(d: Section, e: Section): Section {
    var dAdded, dRemoved, dKept := Elements(d.added), Elements(d.removed), Elements(d.kept);
    var eAdded, eRemoved, eKept := Elements(e.added), Elements(e.removed), Elements(e.kept);
    Section(
      Lexicographic.Sorted((dAdded - eRemoved) + (eAdded - dRemoved)),
      Lexicographic.Sorted((dRemoved - eAdded) + (eRemoved - dAdded)),
      Lexicographic.Sorted(dKept * eKept + dRemoved * eAdded))
  }

  lemma DiffElements(base: set<string>, head: set<string>)
    ensures var d := Diff(base, head);
            && Elements(d.added) == head - base
            && Elements(d.removed) == base - head
            && Elements(d.kept) == base * head
  {
  }

  /** The three lists are strictly sorted and disjoint, and together they are both sides. */
  lemma DiffPartitions(base: set<string>, head: set<string>)
    ensures var d := Diff(base, head);
            && Lexicographic.StrictlySorted(d.added)
            && Lexicographic.StrictlySorted(d.removed)
            && Lexicographic.StrictlySorted(d.kept)
            && Disjoint(d.added, d.removed) && Disjoint(d.added, d.kept) && Disjoint(d.removed, d.kept)
            && Elements(d.removed) + Elements(d.kept) == base
            && Elements(d.added) + Elements(d.kept) == head
  {
    DiffElements(base, head);
  }

  /** A diff takes its base to its head; read backwards it is the diff of the swapped sides; and
      the diffs of two consecutive steps determine the diff over both. */
  lemma DiffAlgebra(base: set<string>, mid: set<string>, head: set<string>)
    ensures Apply(base, Diff(base, head)) == head
    ensures Diff(head, base) == Swap(Diff(base, head))
    ensures Compose(Diff(base, mid), Diff(mid, head)) == Diff(base, head)
  {
    DiffElements(base, head);
    DiffElements(base, mid);
    DiffElements(mid, head);
    assert head * base == base * head;
    assert ((mid - base) - (mid - head)) + ((head - mid) - (base - mid)) == head - base;
    assert ((base - mid) - (head - mid)) + ((mid - head) - (mid - base)) == base - head;
    assert (base * mid) * (mid * head) + (base - mid) * (head - mid) == base * head;
  }

  lemma EmptySides(base: set<string>, head: set<string>)
    ensures Diff(base, head).added == [] && Diff(base, head).removed == [] <==> base == head
  {
    DiffPartitions(base, head);
  }
}
