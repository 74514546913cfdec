/** JSON values with unique keys, and how encoding/json fills Go struct fields from them. */
module Json {
  import opened Wrappers

  datatype Json =
    | Null
    | Bool(b: bool)
    | Num(n: int)
    | Str(s: string)
    | Arr(items: seq<Json>)
    | Obj(fields: map<string, Json>)

  /** A struct field as json.Unmarshal leaves it; None is a type mismatch. An absent key and
      a null both leave the zero value. */
  function StringField(m: map<string, Json>, key: string): Option<string> {
    if key !in m || m[key].Null? then Some("")
    else if m[key].Str? then Some(m[key].s)
    else None
  }

  function IntField(m: map<string, Json>, key: string): Option<int> {
    if key !in m || m[key].Null? then Some(0)
    else if m[key].Num? then Some(m[key].n)
    else None
  }

  /** A pointer-to-struct field: None for nil, and the outer None for a mismatch. */
  function StructField(m: map<string, Json>, key: string): Option<Option<map<string, Json>>> {
    if key !in m || m[key].Null? then Some(None)
    else if m[key].Obj? then Some(Some(m[key].fields))
    else None
  }

  function SliceField(m: map<string, Json>, key: string): Option<seq<Json>> {
    if key !in m || m[key].Null? then Some([])
    else if m[key].Arr? then Some(m[key].items)
    else None
  }

  /** The fields a whole payload offers a struct: null offers none, and anything else that is
      not an object, or no payload at all, is an error. */
  function Payload(data: Option<Json>): Option<map<string, Json>> {
    match data
    case Some(Obj(fields)) => Some(fields)
    case Some(Null) => Some(map[])
    case _ => None
  }

  // ----- What a key may hold -----

  predicate Absent(m: map<string, Json>, key: string) {
    key in m ==> m[key].Null?
  }

  /** The key's string; an absent or null one stands for the empty string. */
  predicate StringIs(m: map<string, Json>, key: string, s: string) {
    if Absent(m, key) then s == "" else m[key] == Str(s)
  }

  predicate IntIs(m: map<string, Json>, key: string, n: int) {
    if Absent(m, key) then n == 0 else m[key] == Num(n)
  }

  predicate StringOrNone(m: map<string, Json>, key: string) {
    Absent(m, key) || m[key].Str?
  }

  lemma FieldsAre(m: map<string, Json>, key: string)
    ensures forall s :: StringField(m, key) == Some(s) <==> StringIs(m, key, s)
    ensures forall n :: IntField(m, key) == Some(n) <==> IntIs(m, key, n)
    ensures StringField(m, key).Some? <==> StringOrNone(m, key)
    ensures StructField(m, key) == Some(None) <==> Absent(m, key)
    ensures forall d :: StructField(m, key) == Some(Some(d)) <==> !Absent(m, key) && m[key] == Obj(d)
    ensures SliceField(m, key) == if Absent(m, key) then Some([]) else if m[key].Arr? then Some(m[key].items) else None
  {
  }
}
