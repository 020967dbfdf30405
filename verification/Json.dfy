/** JSON values as the scripts see them after parsing. */
module Json {
  import opened Text

  datatype Json =
    | Null
    | Bool(b: bool)
    | Num(n: int)
    | Str(s: string)
    | Arr(items: seq<Json>)
    | Obj(fields: map<string, Json>)

  /** The value under `key`, if `j` is an object that has one. */
  function Field(j: Json, key: string): Option<Json> {
    if j.Obj? && key in j.fields then Some(j.fields[key]) else None
  }

  /** Python's `j.get(key)` on a dict: absent reads as `None`. */
  function Get(j: Json, key: string): Json {
    if j.Obj? && key in j.fields then j.fields[key] else Null
  }

  /** An absent key reads like an explicit null, and any other key as before. */
  lemma AbsentIsNull(j: Json, key: string, other: string)
    requires j.Obj? && key !in j.fields
    ensures Get(Obj(j.fields[key := Null]), other) == Get(j, other) && Get(j, key) == Null
  {
  }

  /** Is `key` absent from `j`, or an object? What a chained `.get(key, {})` needs. */
  predicate ObjectOrAbsent(j: Json, key: string) {
    Field(j, key).None? || Field(j, key).value.Obj?
  }
}
