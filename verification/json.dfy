/** JSON values, as `serde_json::Value` holds them. */
module Json {
  import opened Options

  /** A 64-bit float. Only order and equality matter, so the finite ones are numbered in their
      order; the two zeros are one. */
  datatype Float = NaN | NegativeInfinity | Finite(rank: int) | PositiveInfinity

  datatype Number = Int(i: int) | Real(f: Float)

  datatype Value =
    | Null
    | Bool(b: bool)
    | Num(n: Number)
    | Str(s: string)
    | Arr(items: seq<Value>)
    | Obj(members: seq<Member>)

  /** An object is the list of its members in the order its map iterates them. */
  datatype Member = Member(key: string, value: Value)

  function Get(v: Value, key: string): Option<Value> {
    if v.Obj? then Lookup(v.members, key) else None
  }

  function Lookup(members: seq<Member>, key: string): Option<Value> {
    if members == [] then None
    else if members[0].key == key then Some(members[0].value)
    else Lookup(members[1..], key)
  }

  /** Looking a key up finds the value of the first member with that key, and nothing but in an
      object that has one. */
  lemma {:induction false} LookupIsFirst(members: seq<Member>, key: string)
    ensures match Lookup(members, key)
            case None => forall m | m in members :: m.key != key
            case Some(v) => exists i | 0 <= i < |members| ::
              members[i] == Member(key, v) && forall j | 0 <= j < i :: members[j].key != key
  {
    if members != [] && members[0].key != key {
      LookupIsFirst(members[1..], key);
      if Lookup(members[1..], key).Some? {
        var v := Lookup(members[1..], key).value;
        var i :| 0 <= i < |members[1..]| && members[1..][i] == Member(key, v)
                 && forall j | 0 <= j < i :: members[1..][j].key != key;
        assert members[i + 1] == Member(key, v);
        assert forall j | 1 <= j < i + 1 :: members[j] == members[1..][j - 1];
      } else {
        assert forall m | m in members :: m == members[0] || m in members[1..];
      }
    }
  }
}
