/** The JSON-like values `to_dict` builds: Python dicts (insertion-ordered), lists,
    strings, numbers, booleans and `None`. */
module JsonValues {
  import opened Wrappers

  datatype Json =
    | JNull
    | JBool(b: bool)
    | JInt(i: int)
    | JReal(r: real)
    | JStr(s: string)
    | JArr(items: seq<Json>)
    | JObj(fields: seq<Field>)

  /** One key of a dict, in insertion order. */
  datatype Field = Field(key: string, value: Json)

  /** A list of strings. */
  function Strings(xs: seq<string>): (j: Json)
    ensures j.JArr? && |j.items| == |xs|
    ensures forall i :: 0 <= i < |xs| ==> j.items[i] == JStr(xs[i])
  {
    JArr(seq(|xs|, i requires 0 <= i < |xs| => JStr(xs[i])))
  }

  /** Reads back a list of strings. */
  function StringsFrom(j: Json): (r: Option<seq<string>>)
    ensures r.Some? ==> Strings(r.value) == j
  {
    if j.JArr? && forall i :: 0 <= i < |j.items| ==> j.items[i].JStr? then
      var xs := seq(|j.items|, i requires 0 <= i < |j.items| => j.items[i].s);
      assert Strings(xs).items == j.items;
      Some(xs)
    else None
  }

  lemma StringsRoundTrip(xs: seq<string>)
    ensures StringsFrom(Strings(xs)) == Some(xs)
  {
    var j := Strings(xs);
    var ys := seq(|j.items|, i requires 0 <= i < |j.items| => j.items[i].s);
    assert ys == xs;
  }

  /** Is `j` a dict whose first key is `type`, holding `tag`? */
  predicate TagIs(j: Json, tag: string) {
    j.JObj? && |j.fields| >= 1 && j.fields[0] == Field("type", JStr(tag))
  }

  /** Is `j` a dict tagged `tag` whose remaining keys are `keys`, in that order? */
  predicate Shaped(j: Json, tag: string, keys: seq<string>) {
    TagIs(j, tag) && |j.fields| == |keys| + 1 && forall i :: 0 <= i < |keys| ==> j.fields[i + 1].key == keys[i]
  }
}
