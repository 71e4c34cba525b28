/** JSON metadata and the exact-match filter shared by the geospatial and full-text engines. */
module Metadata {

  /** A JSON value over an abstract number type. */
  datatype Json<N> =
    | Null
    | Bool(b: bool)
    | Number(n: N)
    | String(s: string)
    | Array(items: seq<Json<N>>)
    | Object(fields: map<string, Json<N>>)

  /** An absent or empty filter object filters nothing. */
  predicate HasFilter<N>(filter: Json<N>) {
    filter.Object? && filter.fields != map[]
  }

  /** Every field of the filter occurs, with the same value, in the metadata. */
  predicate MatchesFilter<N(==)>(meta: Json<N>, filter: Json<N>) {
    match filter
    case Object(f) =>
      if meta.Object?
      then forall k | k in f :: k in meta.fields && meta.fields[k] == f[k]
      else f == map[]
    case _ => true
  }

  /** A filter on one field asks for that value in that field; nothing but an object has fields. */
  lemma OneField<N>(meta: Json<N>, key: string, value: Json<N>)
    ensures HasFilter(Object(map[key := value]))
    ensures MatchesFilter(meta, Object(map[key := value])) <==>
            meta.Object? && key in meta.fields && meta.fields[key] == value
  {
    var f := map[key := value];
    assert key in f && f[key] == value && f != map[];
  }

  /** One more field narrows the filter by that field; no field filters nothing. */
  lemma MoreFields<N>(meta: Json<N>, fields: map<string, Json<N>>, key: string, value: Json<N>)
    requires key !in fields
    ensures MatchesFilter(meta, Object(map[])) && !HasFilter<N>(Object(map[]))
    ensures MatchesFilter(meta, Object(fields[key := value])) <==>
            MatchesFilter(meta, Object(fields)) && MatchesFilter(meta, Object(map[key := value]))
  {
    var more, one := fields[key := value], map[key := value];
    assert more[key] == value && one[key] == value && forall k | k in fields :: more[k] == fields[k];
    assert more != map[] && one != map[] by {
      assert key in more && key in one;
    }
  }

  /** Anything but an object is no filter. */
  lemma NoFilter<N>(meta: Json<N>, filter: Json<N>)
    requires !filter.Object?
    ensures !HasFilter(filter) && MatchesFilter(meta, filter)
  {
  }
}
