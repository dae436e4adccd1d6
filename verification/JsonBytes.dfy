/** `json.loads` of the bytes of a file. */
module JsonBytes {
  import opened JsonValues
  import opened Outcomes
  import opened Utf8
  import JsonReader

  /** The JSON value that some bytes encode, if any. */
  ghost function Load(b: Bytes): Option<Json> {
    if exists s :: Encode(s) == b then
      var s :| Encode(s) == b;
      JsonReader.Parse(s)
    else None
  }

  lemma LoadText(t: string)
    ensures Load(Encode(t)) == JsonReader.Parse(t)
  {
    forall s | Encode(s) == Encode(t) ensures s == t {
      Injective(s, t);
    }
  }
}
