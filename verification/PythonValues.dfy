/**
 Python values as the interop mapper receives them, its normalisation to the
 integer-valued JSON subset and the canonical text it hashes.
 */
module PythonValues {
  import opened JsonValues
  import opened Outcomes
  import CanonicalJson
  import JsonRoundTrip
  import Lexicographic

  datatype Float = NotFinite | Finite(r: real)

  /** A dict key, with the text that `str(key)` gives. */
  datatype Key = TextKey(text: string) | OtherKey(text: string)

  datatype Entry = Entry(key: Key, value: PyValue)

  datatype PyValue =
    | PyNone
    | PyBool(b: bool)
    | PyInt(n: int)
    | PyFloat(f: Float)
    | PyStr(s: string)
    | PyDict(entries: seq<Entry>)
    | PyList(items: seq<PyValue>)
    | PyTuple(items: seq<PyValue>)
    | PyOther

  function Normalize(v: PyValue): Result<Json>
    decreases v
  {
    match v
    case PyNone => Ok(Null)
    case PyBool(b) => Ok(Bool(b))
    case PyInt(n) => Ok(Int(n))
    case PyStr(s) => Ok(Str(s))
    case PyFloat(f) =>
      if f.Finite? && f.r == f.r.Floor as real then Ok(Int(f.r.Floor)) else Raised("ValueError")
    case PyDict(entries) => (
      match NormalizeEntries(entries)
      case Ok(members) => Ok(Obj(members))
      case Raised(error) => Raised(error))
    case PyList(items) => NormalizeList(items)
    case PyTuple(items) => NormalizeList(items)
    case PyOther => Raised("TypeError")
  }

  function NormalizeList(items: seq<PyValue>): Result<Json>
    decreases items, 1
  {
    match NormalizeItems(items)
    case Ok(values) => Ok(Arr(values))
    case Raised(error) => Raised(error)
  }

  function NormalizeItems(items: seq<PyValue>): (r: Result<seq<Json>>)
    decreases items, 0
  {
    if items == [] then Ok([])
    else
      var n := |items| - 1;
      match NormalizeItems(items[..n])
      case Raised(error) => Raised(error)
      case Ok(values) =>
        match Normalize(items[n])
        case Raised(error) => Raised(error)
        case Ok(v) => Ok(values + [v])
  }

  /** The dict comprehension: a later entry with the same text replaces an earlier one. */
  function NormalizeEntries(entries: seq<Entry>): (r: Result<Dict>)
    decreases entries
  {
    if entries == [] then Ok(map[])
    else
      var n := |entries| - 1;
      match NormalizeEntries(entries[..n])
      case Raised(error) => Raised(error)
      case Ok(members) =>
        match NormalizeEntry(entries[n])
        case Raised(error) => Raised(error)
        case Ok(v) => Ok(members[entries[n].key.text := v])
  }

  function NormalizeEntry(entry: Entry): Result<Json>
    decreases entry
  {
    Normalize(entry.value)
  }

  function CanonicalText(v: PyValue): Result<string> {
    match Normalize(v)
    case Ok(json) => Ok(CanonicalJson.Print(json))
    case Raised(error) => Raised(error)
  }

  // ----------------------------------------------------- what a dict becomes

  ghost predicate LastWithText(entries: seq<Entry>, i: int) {
    0 <= i < |entries| && forall j :: i < j < |entries| ==> entries[j].key.text != entries[i].key.text
  }

  ghost predicate HasText(entries: seq<Entry>, text: string) {
    exists i :: 0 <= i < |entries| && entries[i].key.text == text
  }

  /** The keys are the entries' texts, each with the value of its last entry. */
  ghost predicate Means(entries: seq<Entry>, members: Dict) {
    && (forall k :: k in members <==> HasText(entries, k))
    && (forall i :: LastWithText(entries, i) ==>
          entries[i].key.text in members && Ok(members[entries[i].key.text]) == NormalizeEntry(entries[i]))
  }

  lemma MeansStep(front: seq<Entry>, last: Entry, members: Dict, v: Json)
    requires Means(front, members) && NormalizeEntry(last) == Ok(v)
    ensures Means(front + [last], members[last.key.text := v])
  {
    var entries := front + [last];
    var n := |front|;
    assert entries[n] == last;
    forall k
      ensures HasText(entries, k) <==> k == last.key.text || HasText(front, k)
    {
      if HasText(front, k) {
        var i :| 0 <= i < |front| && front[i].key.text == k;
        assert entries[i] == front[i];
      }
    }
    forall i | LastWithText(entries, i) && i < n
      ensures LastWithText(front, i) && front[i] == entries[i] && entries[i].key.text != last.key.text
    {
      assert entries[i].key.text != entries[n].key.text;
      assert forall j :: i < j < n ==> entries[j] == front[j];
    }
  }

  /** A dict normalises exactly when all its values do, and each key text gets its last value. */
  lemma {:induction false} EntriesMeaning(entries: seq<Entry>)
    ensures NormalizeEntries(entries).Ok? <==> forall i :: 0 <= i < |entries| ==> NormalizeEntry(entries[i]).Ok?
    ensures NormalizeEntries(entries).Ok? ==> Means(entries, NormalizeEntries(entries).value)
    decreases |entries|
  {
    if entries != [] {
      var n := |entries| - 1;
      var front := entries[..n];
      EntriesMeaning(front);
      assert entries == front + [entries[n]];
      if NormalizeEntries(front).Ok? && NormalizeEntry(entries[n]).Ok? {
        MeansStep(front, entries[n], NormalizeEntries(front).value, NormalizeEntry(entries[n]).value);
      }
    }
  }

  ghost predicate DistinctTexts(entries: seq<Entry>) {
    forall i, j :: 0 <= i < j < |entries| ==> entries[i].key.text != entries[j].key.text
  }

  // ------------------------------------------------------------- idempotence

  /** A normal form as a Python value again. */
  function FromJson(v: Json): PyValue
    decreases v
  {
    match v
    case Null => PyNone
    case Bool(b) => PyBool(b)
    case Int(n) => PyInt(n)
    case Str(s) => PyStr(s)
    case Arr(items) => PyList(FromItems(items))
    case Obj(members) => PyDict(FromMembers(v, Lexicographic.Sorted(members.Keys)))
  }

  function FromItems(items: seq<Json>): (r: seq<PyValue>)
    ensures |r| == |items|
    decreases items
  {
    if items == [] then [] else FromItems(items[..|items| - 1]) + [FromJson(items[|items| - 1])]
  }

  function FromMembers(v: Json, keys: seq<string>): (r: seq<Entry>)
    requires v.Obj? && forall k :: k in keys ==> k in v.members
    ensures |r| == |keys|
    decreases v, |keys|
  {
    if keys == [] then []
    else
      var n := |keys| - 1;
      FromMembers(v, keys[..n]) + [Entry(TextKey(keys[n]), FromJson(v.members[keys[n]]))]
  }

  lemma {:induction false} NormalizeEmbedded(v: Json)
    ensures Normalize(FromJson(v)) == Ok(v)
    decreases v
  {
    match v
    case Arr(items) => NormalizeEmbeddedItems(items);
    case Obj(members) =>
      var keys := Lexicographic.Sorted(members.Keys);
      NormalizeEmbeddedMembers(v, keys);
      assert members == JsonRoundTrip.Restrict(members, keys);
    case _ =>
  }

  lemma {:induction false} NormalizeEmbeddedItems(items: seq<Json>)
    ensures NormalizeItems(FromItems(items)) == Ok(items)
    decreases items
  {
    if items != [] {
      var n := |items| - 1;
      NormalizeEmbeddedItems(items[..n]);
      NormalizeEmbedded(items[n]);
      assert FromItems(items)[..n] == FromItems(items[..n]);
      assert items == items[..n] + [items[n]];
    }
  }

  lemma {:induction false} NormalizeEmbeddedMembers(v: Json, keys: seq<string>)
    requires v.Obj? && forall k :: k in keys ==> k in v.members
    ensures NormalizeEntries(FromMembers(v, keys)) == Ok(JsonRoundTrip.Restrict(v.members, keys))
    decreases v, |keys|
  {
    if keys != [] {
      var n := |keys| - 1;
      NormalizeEmbeddedMembers(v, keys[..n]);
      NormalizeEmbedded(v.members[keys[n]]);
      NormalizeOneMore(FromMembers(v, keys[..n]), Entry(TextKey(keys[n]), FromJson(v.members[keys[n]])));
      RestrictOneMore(v.members, keys);
    }
  }

  lemma NormalizeOneMore(front: seq<Entry>, last: Entry)
    requires NormalizeEntries(front).Ok? && NormalizeEntry(last).Ok?
    ensures NormalizeEntries(front + [last])
         == Ok(NormalizeEntries(front).value[last.key.text := NormalizeEntry(last).value])
  {
    assert (front + [last])[..|front|] == front;
  }

  lemma RestrictOneMore(m: Dict, keys: seq<string>)
    requires keys != [] && forall k :: k in keys ==> k in m
    ensures var n := |keys| - 1;
            JsonRoundTrip.Restrict(m, keys[..n])[keys[n] := m[keys[n]]] == JsonRoundTrip.Restrict(m, keys)
  {
    assert keys == keys[..|keys| - 1] + [keys[|keys| - 1]];
  }

  /** Normalising twice is normalising once. */
  lemma NormalizeIdempotent(v: PyValue)
    requires Normalize(v).Ok?
    ensures Normalize(FromJson(Normalize(v).value)) == Normalize(v)
    ensures CanonicalText(FromJson(Normalize(v).value)) == CanonicalText(v)
  {
    NormalizeEmbedded(Normalize(v).value);
  }

  // ------------------------------------------------ which values have the same text

  /** The integer that a number stands for, if it is integral. */
  ghost function Integral(v: PyValue): Option<int> {
    match v
    case PyInt(n) => Some(n)
    case PyFloat(Finite(r)) => if r == r.Floor as real then Some(r.Floor) else None
    case _ => None
  }

  ghost predicate IsSequence(v: PyValue) {
    v.PyList? || v.PyTuple?
  }

  ghost function ItemsOf(v: PyValue): (items: seq<PyValue>)
    requires IsSequence(v)
    ensures forall i :: 0 <= i < |items| ==> items[i] < v
  {
    match v
    case PyList(items) => items
    case PyTuple(items) => items
  }

  /** Equal up to the kind of number, the kind of sequence, and the order and the replaced entries
      of dicts, at every depth. */
  ghost predicate Alike(v: PyValue, w: PyValue)
    decreases v
  {
    match v
    case PyInt(_) => Integral(v).Some? && Integral(v) == Integral(w)
    case PyFloat(_) => Integral(v).Some? && Integral(v) == Integral(w)
    case PyList(_) => AlikeItems(v, w)
    case PyTuple(_) => AlikeItems(v, w)
    case PyDict(_) => AlikeEntries(v, w)
    case PyOther => false
    case _ => v == w
  }

  ghost predicate AlikeItems(v: PyValue, w: PyValue)
    requires IsSequence(v)
    decreases v, 0
  {
    && IsSequence(w)
    && |ItemsOf(v)| == |ItemsOf(w)|
    && forall i :: 0 <= i < |ItemsOf(v)| ==> Alike(ItemsOf(v)[i], ItemsOf(w)[i])
  }

  ghost predicate AlikeEntries(v: PyValue, w: PyValue)
    requires v.PyDict?
    decreases v, 0
  {
    && w.PyDict?
    && (forall k :: HasText(v.entries, k) <==> HasText(w.entries, k))
    && forall i, j :: LastWithText(v.entries, i) && LastWithText(w.entries, j)
                      && v.entries[i].key.text == w.entries[j].key.text ==>
                        Alike(v.entries[i].value, w.entries[j].value)
  }

  lemma {:induction false} ItemsMeaning(items: seq<PyValue>)
    requires NormalizeItems(items).Ok?
    ensures var values := NormalizeItems(items).value;
            && |values| == |items|
            && forall i :: 0 <= i < |items| ==> Normalize(items[i]) == Ok(values[i])
    decreases |items|
  {
    if items != [] {
      var n := |items| - 1;
      ItemsMeaning(items[..n]);
      assert forall i :: 0 <= i < n ==> items[..n][i] == items[i];
    }
  }

  lemma {:induction false} LastExists(entries: seq<Entry>, k: string) returns (i: nat)
    requires HasText(entries, k)
    ensures LastWithText(entries, i) && entries[i].key.text == k
    decreases |entries|
  {
    var n := |entries| - 1;
    if entries[n].key.text == k {
      i := n;
    } else {
      var j :| 0 <= j < |entries| && entries[j].key.text == k;
      assert entries[..n][j].key.text == k;
      i := LastExists(entries[..n], k);
      assert forall j :: i < j < n ==> entries[..n][j] == entries[j];
    }
  }

  /** Two dicts have the same members exactly when their texts agree and so do the last values of each. */
  lemma SameMembers(e: seq<Entry>, f: seq<Entry>, m: Dict, w: Dict)
    requires Means(e, m) && Means(f, w)
    ensures m == w <==>
              && (forall k :: HasText(e, k) <==> HasText(f, k))
              && (forall i, j :: LastWithText(e, i) && LastWithText(f, j) && e[i].key.text == f[j].key.text ==>
                                   NormalizeEntry(e[i]) == NormalizeEntry(f[j]))
  {
    if (forall k :: HasText(e, k) <==> HasText(f, k))
       && (forall i, j :: LastWithText(e, i) && LastWithText(f, j) && e[i].key.text == f[j].key.text ==>
                            NormalizeEntry(e[i]) == NormalizeEntry(f[j])) {
      forall k | k in m ensures k in w && m[k] == w[k] {
        var i := LastExists(e, k);
        var j := LastExists(f, k);
      }
      forall k | k in w ensures k in m {
        assert HasText(f, k);
      }
    }
  }

  ghost predicate Included(e: seq<Entry>, f: seq<Entry>) {
    forall i :: 0 <= i < |e| ==> e[i] in f
  }

  lemma IncludedNormalizes(e: seq<Entry>, f: seq<Entry>)
    requires Included(f, e) && NormalizeEntries(e).Ok?
    ensures NormalizeEntries(f).Ok?
  {
    EntriesMeaning(e);
    EntriesMeaning(f);
  }

  lemma IncludedTexts(e: seq<Entry>, f: seq<Entry>, k: string)
    requires Included(e, f) && HasText(e, k)
    ensures HasText(f, k)
  {
    var i :| 0 <= i < |e| && e[i].key.text == k;
    var j :| 0 <= j < |f| && f[j] == e[i];
  }

  /** Reordering a dict changes neither whether it normalises nor what it normalises to, whatever its
      values are. */
  lemma EntryOrderIrrelevant(e: seq<Entry>, f: seq<Entry>)
    requires DistinctTexts(e) && DistinctTexts(f)
    requires Included(e, f) && Included(f, e)
    ensures NormalizeEntries(e).Ok? <==> NormalizeEntries(f).Ok?
    ensures NormalizeEntries(e).Ok? ==> NormalizeEntries(e) == NormalizeEntries(f)
  {
    if NormalizeEntries(e).Ok? {
      IncludedNormalizes(e, f);
      EntriesMeaning(e);
      EntriesMeaning(f);
      forall k ensures HasText(e, k) <==> HasText(f, k) {
        if HasText(e, k) { IncludedTexts(e, f, k); }
        if HasText(f, k) { IncludedTexts(f, e, k); }
      }
      forall i, j | LastWithText(e, i) && LastWithText(f, j) && e[i].key.text == f[j].key.text
        ensures e[i] == f[j]
      {
        var k :| 0 <= k < |f| && f[k] == e[i];
        assert k == j;
      }
      SameMembers(e, f, NormalizeEntries(e).value, NormalizeEntries(f).value);
    } else if NormalizeEntries(f).Ok? {
      IncludedNormalizes(f, e);
    }
  }

  /** Values that both normalise have the same canonical text exactly when they are alike. */
  lemma TextIdentifies(v: PyValue, w: PyValue)
    requires Normalize(v).Ok? && Normalize(w).Ok?
    ensures CanonicalText(v) == CanonicalText(w) <==> Alike(v, w)
  {
    CanonicalJson.PrintIdentifies(Normalize(v).value, Normalize(w).value);
    NormalIdentifies(v, w);
  }

  lemma {:induction false} NormalIdentifies(v: PyValue, w: PyValue)
    requires Normalize(v).Ok? && Normalize(w).Ok?
    ensures Normalize(v) == Normalize(w) <==> Alike(v, w)
    decreases v, 1
  {
    if IsSequence(v) && IsSequence(w) {
      SequencesIdentify(v, w);
    } else if v.PyDict? && w.PyDict? {
      DictsIdentify(v, w);
    }
  }

  lemma {:induction false} SequencesIdentify(v: PyValue, w: PyValue)
    requires Normalize(v).Ok? && Normalize(w).Ok? && IsSequence(v) && IsSequence(w)
    ensures Normalize(v) == Normalize(w) <==> Alike(v, w)
    decreases v, 0
  {
    var xs, ys := ItemsOf(v), ItemsOf(w);
    assert Normalize(v) == NormalizeList(xs) && Normalize(w) == NormalizeList(ys);
    ItemsMeaning(xs);
    ItemsMeaning(ys);
    forall i | 0 <= i < |xs| && i < |ys|
      ensures Normalize(xs[i]) == Normalize(ys[i]) <==> Alike(xs[i], ys[i])
    {
      NormalIdentifies(xs[i], ys[i]);
    }
    var a, b := NormalizeItems(xs).value, NormalizeItems(ys).value;
    assert a == b <==> |xs| == |ys| && forall i :: 0 <= i < |xs| ==> Normalize(xs[i]) == Normalize(ys[i]);
  }

  lemma {:induction false} DictsIdentify(v: PyValue, w: PyValue)
    requires Normalize(v).Ok? && Normalize(w).Ok? && v.PyDict? && w.PyDict?
    ensures Normalize(v) == Normalize(w) <==> Alike(v, w)
    decreases v, 0
  {
    var e, f := v.entries, w.entries;
    EntriesMeaning(e);
    EntriesMeaning(f);
    forall i, j | LastWithText(e, i) && LastWithText(f, j)
      ensures NormalizeEntry(e[i]) == NormalizeEntry(f[j]) <==> Alike(e[i].value, f[j].value)
    {
      NormalIdentifies(e[i].value, f[j].value);
    }
    SameMembers(e, f, NormalizeEntries(e).value, NormalizeEntries(f).value);
  }

  /** No dict at any depth has two keys with the same text. */
  ghost predicate Tidy(v: PyValue)
    decreases v
  {
    match v
    case PyList(items) => forall i :: 0 <= i < |items| ==> Tidy(items[i])
    case PyTuple(items) => forall i :: 0 <= i < |items| ==> Tidy(items[i])
    case PyDict(entries) => DistinctTexts(entries) && forall i :: 0 <= i < |entries| ==> Tidy(entries[i].value)
    case _ => true
  }

  lemma {:induction false} ItemsNormalize(items: seq<PyValue>)
    requires forall i :: 0 <= i < |items| ==> Normalize(items[i]).Ok?
    ensures NormalizeItems(items).Ok?
    decreases |items|
  {
    if items != [] {
      ItemsNormalize(items[..|items| - 1]);
    }
  }

  /** Without repeated key texts, alike values both normalise. */
  lemma {:induction false} AlikeNormalize(v: PyValue, w: PyValue)
    requires Tidy(v) && Tidy(w) && Alike(v, w)
    ensures Normalize(v).Ok? && Normalize(w).Ok?
    decreases v, 1
  {
    if IsSequence(v) {
      AlikeSequencesNormalize(v, w);
    } else if v.PyDict? {
      AlikeDictsNormalize(v, w);
    }
  }

  lemma {:induction false} AlikeSequencesNormalize(v: PyValue, w: PyValue)
    requires Tidy(v) && Tidy(w) && Alike(v, w) && IsSequence(v)
    ensures Normalize(v).Ok? && Normalize(w).Ok?
    decreases v, 0
  {
    var xs, ys := ItemsOf(v), ItemsOf(w);
    forall i | 0 <= i < |xs|
      ensures Normalize(xs[i]).Ok? && Normalize(ys[i]).Ok?
    {
      AlikeNormalize(xs[i], ys[i]);
    }
    ItemsNormalize(xs);
    ItemsNormalize(ys);
  }

  lemma {:induction false} AlikeDictsNormalize(v: PyValue, w: PyValue)
    requires Tidy(v) && Tidy(w) && Alike(v, w) && v.PyDict?
    ensures Normalize(v).Ok? && Normalize(w).Ok?
    decreases v, 0
  {
    var e, f := v.entries, w.entries;
    forall i | 0 <= i < |e| ensures NormalizeEntry(e[i]).Ok? {
      assert HasText(e, e[i].key.text) && LastWithText(e, i);
      var j := LastExists(f, e[i].key.text);
      AlikeNormalize(e[i].value, f[j].value);
    }
    forall j | 0 <= j < |f| ensures NormalizeEntry(f[j]).Ok? {
      assert HasText(f, f[j].key.text) && LastWithText(f, j);
      var i := LastExists(e, f[j].key.text);
      AlikeNormalize(e[i].value, f[j].value);
    }
    EntriesMeaning(e);
    EntriesMeaning(f);
  }

  /** On values as JSON text gives them, being alike is exactly having one and the same canonical text. */
  lemma TidyTextIdentifies(v: PyValue, w: PyValue)
    requires Tidy(v) && Tidy(w)
    ensures Alike(v, w) <==> CanonicalText(v).Ok? && CanonicalText(v) == CanonicalText(w)
  {
    if Alike(v, w) {
      AlikeNormalize(v, w);
      TextIdentifies(v, w);
    } else if CanonicalText(v).Ok? && CanonicalText(w).Ok? {
      TextIdentifies(v, w);
    }
  }
}
