/** Page bodies: JSON trees as `json.loads` gives them, objects keeping their key order. */
module Documents {
  import opened Common

  datatype Field = Field(key: string, value: Json)

  /** A number as JSON spells it, in ASCII. */
  type Numeral = s: string | forall i :: 0 <= i < |s| ==> s[i] as int < 0x80
    witness "0"

  /** A number keeps the spelling `json.dumps` would give it, its value, and whether Python holds it as an `int`. */
  datatype Json =
    | Null
    | Bool(b: bool)
    | Num(spelling: Numeral, value: real, integral: bool)
    | Str(s: string)
    | Arr(items: seq<Json>)
    | Obj(fields: seq<Field>)

  /** `d.get(key)`, on the fields of an object. */
  function Get(fields: seq<Field>, key: string): Option<Json> {
    if fields == [] then None
    else if fields[0].key == key then Some(fields[0].value)
    else Get(fields[1..], key)
  }

  lemma {:induction false} GetIsAField(fields: seq<Field>, key: string)
    requires Get(fields, key).Some?
    ensures exists i :: 0 <= i < |fields| && fields[i] == Field(key, Get(fields, key).value)
  {
    if fields[0].key != key {
      GetIsAField(fields[1..], key);
      var i :| 0 <= i < |fields[1..]| && fields[1..][i] == Field(key, Get(fields, key).value);
      assert fields[i + 1] == Field(key, Get(fields, key).value);
    }
  }

  lemma {:induction false} GetMisses(fields: seq<Field>, key: string)
    requires forall i :: 0 <= i < |fields| ==> fields[i].key != key
    ensures Get(fields, key) == None
  {
    if fields != [] {
      GetMisses(fields[1..], key);
    }
  }

  function Keys(fields: seq<Field>): set<string> {
    set i | 0 <= i < |fields| :: fields[i].key
  }
}
