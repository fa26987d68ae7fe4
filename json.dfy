/** JSON documents as value trees.

    The model keeps the structure that `encoding/json` gives a Go value (which members an
    object has, in which order, and what each holds) and leaves out the rendering of that
    structure as text. */
module Json {

  datatype Json =
    | Null
    | Str(text: string)
    | Int(number: int)
    | Arr(items: seq<Json>)
    | Obj(members: seq<(string, Json)>)

  /** The member names of an object, in the order they are written. */
  function Names(members: seq<(string, Json)>): (names: seq<string>)
    ensures |names| == |members|
    ensures forall i :: 0 <= i < |members| ==> names[i] == members[i].0
  {
    if members == [] then [] else [members[0].0] + Names(members[1..])
  }
}
