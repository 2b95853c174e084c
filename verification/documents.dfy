/**
 * Ruby hashes as they travel to and from the search backend. Keys keep the
 * distinction Ruby makes between a String key (`'id'`) and a Symbol key (`:id`).
 */
module Documents {

  datatype Key = Str(name: string) | Sym(name: string)

  datatype Value =
    | Nil
    | Bool(b: bool)
    | Int(i: int)
    | Text(s: string)
    | List(items: seq<Value>)
    | Object(fields: map<Key, Value>)

  type Document = map<Key, Value>

  /** Ruby truthiness: everything except `nil` and `false`. */
  predicate Truthy(v: Value) {
    v != Nil && v != Bool(false)
  }

  /** `hash[key]`: `nil` for a missing key. */
  function Lookup(d: Document, k: Key): Value {
    if k in d then d[k] else Nil
  }

  /** The strings of a list of values, as a terms filter sees a multi-valued field. */
  function Texts(items: seq<Value>): (r: seq<string>)
    ensures forall s :: s in r <==> Text(s) in items
  {
    if items == [] then []
    else (if items[0].Text? then [items[0].s] else []) + Texts(items[1..])
  }

  /** A list value of strings, as Ruby writes an array of strings into a document. */
  function TextList(ss: seq<string>): (v: Value)
    ensures v.List? && |v.items| == |ss|
    ensures forall i :: 0 <= i < |ss| ==> v.items[i] == Text(ss[i])
  {
    List(seq(|ss|, i requires 0 <= i < |ss| => Text(ss[i])))
  }

  /** The indexed string values of `field`: one for a string field, each string of a list field. */
  function FieldTokens(doc: Document, field: string): seq<string> {
    match Lookup(doc, Str(field))
    case Text(s) => [s]
    case List(items) => Texts(items)
    case _ => []
  }

  lemma {:induction false} TextsOfTextList(ss: seq<string>)
    ensures Texts(TextList(ss).items) == ss
    decreases |ss|
  {
    if ss != [] {
      TextsOfTextList(ss[1..]);
      assert TextList(ss).items[1..] == TextList(ss[1..]).items;
    }
  }
}
