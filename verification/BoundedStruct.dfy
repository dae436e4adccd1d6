/** The depth-bounded validator of nested tool inputs and outputs. */
module BoundedStruct {
  import opened Outcomes
  import opened PythonValues
  import opened PythonText

  const MAX_TEXT_LENGTH := 320
  const MAX_KEY_LENGTH := 40
  const MAX_STRUCT_DEPTH: nat := 2
  const MAX_OBJECT_KEYS := 6
  const MAX_ARRAY_ITEMS := 6

  ghost predicate KeyAccepted(key: Key) {
    key.TextKey? && !Blank(key.text) && |key.text| <= MAX_KEY_LENGTH
  }

  // ----------------------------------------------------------- what it accepts

  /** The children of a container, in order. */
  ghost function Children(v: PyValue): (kids: seq<PyValue>)
    ensures forall i :: 0 <= i < |kids| ==> kids[i] < v
  {
    match v
    case PyList(items) => items
    case PyTuple(items) => items
    case PyDict(entries) => seq(|entries|, i requires 0 <= i < |entries| => entries[i].value)
    case _ => []
  }

  /** What one node may be, whatever it contains. */
  ghost predicate NodeAllowed(v: PyValue) {
    match v
    case PyNone => true
    case PyBool(_) => true
    case PyInt(_) => true
    case PyStr(s) => !Blank(s) && |s| <= MAX_TEXT_LENGTH
    case PyList(items) => |items| <= MAX_ARRAY_ITEMS
    case PyDict(entries) =>
      1 <= |entries| <= MAX_OBJECT_KEYS && forall i :: 0 <= i < |entries| ==> KeyAccepted(entries[i].key)
    case _ => false
  }

  /** Every node is allowed and no node lies more than `room` levels down. */
  ghost predicate Fits(v: PyValue, room: int)
    decreases v
  {
    && room >= 0
    && NodeAllowed(v)
    && forall i :: 0 <= i < |Children(v)| ==> Fits(Children(v)[i], room - 1)
  }

  /** Fitting below the depth limit, from the top. */
  ghost predicate Accepted(v: PyValue) {
    Fits(v, MAX_STRUCT_DEPTH)
  }

  // --------------------------------------------------------------- the validator

  /** `_validate_bounded_struct`: accepts exactly the values that fit below the depth limit, and
      returns them unchanged. */
  method ValidateBoundedStruct(v: PyValue, depth: nat) returns (r: Result<PyValue>)
    ensures r.Ok? <==> Fits(v, MAX_STRUCT_DEPTH - depth)
    ensures r.Ok? ==> r.value == v
    ensures r.Raised? ==> r.error == "ValueError"
    decreases v
  {
    if depth > MAX_STRUCT_DEPTH {
      return Raised("ValueError");
    }
    match v
    case PyNone => r := Ok(v);
    case PyBool(_) => r := Ok(v);
    case PyInt(_) => r := Ok(v);
    case PyStr(s) =>
      r := if Blank(s) || |s| > MAX_TEXT_LENGTH then Raised("ValueError") else Ok(v);
    case PyList(items) =>
      r := ValidateList(v, depth);
    case PyDict(entries) =>
      r := ValidateDict(v, depth);
    case _ => r := Raised("ValueError");
  }

  method ValidateList(v: PyValue, depth: nat) returns (r: Result<PyValue>)
    requires v.PyList? && depth <= MAX_STRUCT_DEPTH
    ensures r.Ok? <==> Fits(v, MAX_STRUCT_DEPTH - depth)
    ensures r.Ok? ==> r.value == v
    ensures r.Raised? ==> r.error == "ValueError"
    decreases v, 0
  {
    if |v.items| > MAX_ARRAY_ITEMS {
      return Raised("ValueError");
    }
    var checked: seq<PyValue> := [];
    for i := 0 to |v.items|
      invariant checked == v.items[..i]
      invariant forall j :: 0 <= j < i ==> Fits(v.items[j], MAX_STRUCT_DEPTH - depth - 1)
    {
      var item := ValidateBoundedStruct(v.items[i], depth + 1);
      if item.Raised? {
        assert Children(v)[i] == v.items[i];
        return Raised(item.error);
      }
      checked := checked + [item.value];
    }
    return Ok(PyList(checked));
  }

  method ValidateDict(v: PyValue, depth: nat) returns (r: Result<PyValue>)
    requires v.PyDict? && depth <= MAX_STRUCT_DEPTH
    ensures r.Ok? <==> Fits(v, MAX_STRUCT_DEPTH - depth)
    ensures r.Ok? ==> r.value == v
    ensures r.Raised? ==> r.error == "ValueError"
    decreases v, 0
  {
    if v.entries == [] || |v.entries| > MAX_OBJECT_KEYS {
      return Raised("ValueError");
    }
    var checked: seq<Entry> := [];
    for i := 0 to |v.entries|
      invariant checked == v.entries[..i]
      invariant forall j :: 0 <= j < i ==> KeyAccepted(v.entries[j].key)
      invariant forall j :: 0 <= j < i ==> Fits(Children(v)[j], MAX_STRUCT_DEPTH - depth - 1)
    {
      var entry := v.entries[i];
      if !entry.key.TextKey? || Blank(entry.key.text) || |entry.key.text| > MAX_KEY_LENGTH {
        return Raised("ValueError");
      }
      var value := ValidateBoundedStruct(entry.value, depth + 1);
      assert Children(v)[i] == entry.value;
      if value.Raised? {
        return Raised(value.error);
      }
      checked := checked + [Entry(entry.key, value.value)];
    }
    return Ok(PyDict(checked));
  }

  // ------------------------------------------------------------ the size bound

  ghost function Nodes(v: PyValue): nat
    decreases v, |Children(v)|
  {
    1 + NodesOf(v, Children(v))
  }

  ghost function NodesOf(v: PyValue, kids: seq<PyValue>): nat
    requires forall i :: 0 <= i < |kids| ==> kids[i] < v
    decreases v, |kids|, 0
  {
    if kids == [] then 0 else Nodes(kids[0]) + NodesOf(v, kids[1..])
  }

  /** 1 + 6 + 36 + ... over `room` levels. */
  ghost function Capacity(room: nat): nat {
    if room == 0 then 1 else 1 + 6 * Capacity(room - 1)
  }

  lemma FitsChildren(v: PyValue, room: int)
    requires Fits(v, room)
    ensures room >= 0 && |Children(v)| <= 6
    ensures forall i :: 0 <= i < |Children(v)| ==> Fits(Children(v)[i], room - 1)
    ensures room == 0 ==> Children(v) == []
  {
    if Children(v) != [] {
      assert Fits(Children(v)[0], room - 1);
    }
  }

  lemma MulBound(n: nat, limit: nat, each: nat)
    requires n <= limit
    ensures n * each <= limit * each
  {
    assert limit * each == n * each + (limit - n) * each;
  }

  lemma {:induction false} FitsWithinCapacity(v: PyValue, room: nat)
    requires Fits(v, room)
    ensures Nodes(v) <= Capacity(room)
    decreases room
  {
    var kids := Children(v);
    FitsChildren(v, room);
    if room == 0 {
      assert NodesOf(v, kids) == 0;
    } else {
      var each := Capacity(room - 1);
      forall i | 0 <= i < |kids|
        ensures Nodes(kids[i]) <= each
      {
        FitsWithinCapacity(kids[i], room - 1);
      }
      NodesWithin(v, kids, each);
      MulBound(|kids|, 6, each);
    }
  }

  lemma {:induction false} NodesWithin(v: PyValue, kids: seq<PyValue>, each: nat)
    requires forall i :: 0 <= i < |kids| ==> kids[i] < v && Nodes(kids[i]) <= each
    ensures NodesOf(v, kids) <= |kids| * each
    decreases |kids|
  {
    if kids != [] {
      NodesWithin(v, kids[1..], each);
      assert |kids| * each == each + |kids[1..]| * each;
    }
  }

  function Repeat(v: PyValue, n: nat): (r: seq<PyValue>)
    ensures |r| == n && forall i :: 0 <= i < n ==> r[i] == v
  {
    seq(n, _ => v)
  }

  lemma {:induction false} NodesOfRepeat(v: PyValue, kid: PyValue, n: nat)
    requires kid < v
    ensures NodesOf(v, Repeat(kid, n)) == n * Nodes(kid)
  {
    if n > 0 {
      NodesOfRepeat(v, kid, n - 1);
      assert Repeat(kid, n)[1..] == Repeat(kid, n - 1);
      assert n * Nodes(kid) == Nodes(kid) + (n - 1) * Nodes(kid);
    }
  }

  function FullList(kid: PyValue): PyValue {
    PyList(Repeat(kid, 6))
  }

  lemma FullListGrows(kid: PyValue, room: int)
    requires Fits(kid, room)
    ensures Fits(FullList(kid), room + 1)
    ensures Nodes(FullList(kid)) == 1 + 6 * Nodes(kid)
  {
    var v := FullList(kid);
    assert v.items[0] == kid;
    assert Children(v) == Repeat(kid, 6);
    NodesOfRepeat(v, kid, 6);
  }

  lemma TwoFullLevels(leaf: PyValue) returns (w: PyValue)
    requires Fits(leaf, 0) && Nodes(leaf) == 1
    ensures Fits(w, 2) && Nodes(w) == 43
  {
    var inner := FullList(leaf);
    FullListGrows(leaf, 0);
    FullListGrows(inner, 1);
    w := FullList(inner);
  }

  /** No accepted value has more than 43 nodes, and one has exactly 43. */
  lemma AcceptedSize(v: PyValue)
    ensures Accepted(v) ==> Nodes(v) <= 43
    ensures exists w :: Accepted(w) && Nodes(w) == 43
  {
    if Accepted(v) {
      FitsWithinCapacity(v, 2);
      assert Capacity(1) == 7 && Capacity(2) == 43;
    }
    var w := TwoFullLevels(PyNone);
    assert Accepted(w);
  }

  /** Whatever the validator accepts has a canonical text. */
  lemma AcceptedHashable(v: PyValue)
    requires Accepted(v)
    ensures CanonicalText(v).Ok?
  {
    AcceptedNormalizes(v, MAX_STRUCT_DEPTH);
  }

  lemma {:induction false} AcceptedNormalizes(v: PyValue, room: int)
    requires Fits(v, room)
    ensures Normalize(v).Ok?
    decreases v
  {
    FitsChildren(v, room);
    forall i | 0 <= i < |Children(v)|
      ensures Normalize(Children(v)[i]).Ok?
    {
      AcceptedNormalizes(Children(v)[i], room - 1);
    }
    match v
    case PyList(items) =>
      assert Children(v) == items;
      ItemsNormalize(items);
    case PyDict(entries) =>
      assert forall i :: 0 <= i < |entries| ==> Children(v)[i] == entries[i].value;
      EntriesMeaning(entries);
    case _ =>
  }
}
