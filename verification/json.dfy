/**
 * The values a device dictionary holds. In Java the dictionaries are
 * `Map<String, Object>`; here every `Object` that can appear is a `Json` value.
 */
module Json {

  datatype Json =
    | JNull
    | JBool(b: bool)
    | JNumber(n: int)
    | JString(str: string)
    | JArray(items: seq<Json>)
    | JObject(fields: map<string, Json>)

  /** A `List<String>` stored as a dictionary value. */
  function StringList(xs: seq<string>): (j: Json)
  {
    JArray(seq(|xs|, i requires 0 <= i < |xs| => JString(xs[i])))
  }

  /** A `Map<String, String>` stored as a dictionary value. */
  function StringMap(m: map<string, string>): (j: Json)
  {
    JObject(map k | k in m :: JString(m[k]))
  }

  /** A `Map<String, Map<String, String>>` stored as a dictionary value. */
  function StringMapMap(m: map<string, map<string, string>>): (j: Json)
  {
    JObject(map k | k in m :: StringMap(m[k]))
  }

  /** Storing a list as a value loses nothing: equal values come from equal lists. */
  lemma StringListInjective(a: seq<string>, b: seq<string>)
    requires StringList(a) == StringList(b)
    ensures a == b
  {
    var ja, jb := StringList(a).items, StringList(b).items;
    assert |a| == |ja| == |jb| == |b|;
    forall i | 0 <= i < |a|
      ensures a[i] == b[i]
    {
      assert ja[i] == JString(a[i]) && jb[i] == JString(b[i]);
    }
  }

  /** Storing a string map as a value loses nothing. */
  lemma StringMapInjective(a: map<string, string>, b: map<string, string>)
    requires StringMap(a) == StringMap(b)
    ensures a == b
  {
    var fa, fb := StringMap(a).fields, StringMap(b).fields;
    assert a.Keys == fa.Keys == fb.Keys == b.Keys;
    forall k | k in a
      ensures a[k] == b[k]
    {
      assert fa[k] == JString(a[k]) && fb[k] == JString(b[k]);
    }
  }

  /** Storing a map of string maps as a value loses nothing. */
  lemma StringMapMapInjective(a: map<string, map<string, string>>, b: map<string, map<string, string>>)
    requires StringMapMap(a) == StringMapMap(b)
    ensures a == b
  {
    var fa, fb := StringMapMap(a).fields, StringMapMap(b).fields;
    assert a.Keys == fa.Keys == fb.Keys == b.Keys;
    forall k | k in a
      ensures a[k] == b[k]
    {
      assert fa[k] == StringMap(a[k]) && fb[k] == StringMap(b[k]);
      StringMapInjective(a[k], b[k]);
    }
  }
}
