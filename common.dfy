/** Small shared vocabulary: optional values, Python truthiness of an optional
    string, duplicate-free sequences, and listing the keys of a dictionary. */
module Common {

  datatype Option<+T> = None | Some(value: T)

  /** Python's `if name:` for an `Optional[str]`: false for None and for "". */
  predicate Truthy(s: Option<string>) {
    s.Some? && s.value != ""
  }

  predicate Distinct<T(==)>(s: seq<T>) {
    forall i, j :: 0 <= i < j < |s| ==> s[i] != s[j]
  }

  /** `list(d.keys())` or the rows of `SELECT name FROM albums`: every key
      exactly once, in no particular order. */
  method ListKeys<V>(m: map<string, V>) returns (r: seq<string>)
    ensures Distinct(r)
    ensures forall k :: k in r <==> k in m
  {
    r := [];
    var rest := m.Keys;
    while rest != {}
      invariant rest <= m.Keys
      invariant Distinct(r)
      invariant forall k :: k in r <==> k in m && k !in rest
      decreases rest
    {
      var k :| k in rest;
      rest := rest - {k};
      r := r + [k];
    }
  }
}
