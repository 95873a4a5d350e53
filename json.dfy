// JSON values (RFC 8259) as the source handles them: situation values, the
// parsed YAML of the rule files, the records of the statistics script.
// `JSON.stringify` and `JSON.parse` are foreign code; they enter the model as a
// pair of functions together with the round-trip law the source relies on.
module Json {
  import opened Wrappers
  import opened Strings

  datatype Json =
    | Null
    | Bool(b: bool)
    | Number(n: int)
    | Str(s: string)
    | Array(items: seq<Json>)
    | Object(fields: seq<(string, Json)>)
  {
    /** `typeof v === 'object'`: true of null, arrays and objects. */
    predicate IsObjectType() {
      Null? || Array? || Object?
    }

    /** A value a JavaScript program can hold: no object, at any depth, has the
        same key twice. */
    predicate WellFormed()
      decreases this
    {
      match this
      case Array(items) => forall i :: 0 <= i < |items| ==> items[i].WellFormed()
      case Object(fields) =>
        (forall i, j :: 0 <= i < j < |fields| ==> fields[i].0 != fields[j].0) &&
        forall i :: 0 <= i < |fields| ==> fields[i].1.WellFormed()
      case _ => true
    }
  }

  /** `JSON.stringify` and `JSON.parse` (None when parsing throws). */
  datatype JsonCodec = JsonCodec(stringify: Json -> string, parse: string -> Option<Json>)

  /** What the sharing code relies on: the text of an object a program can hold
      is delimited by braces, and parsing it gives the object back. */
  ghost predicate Lawful(codec: JsonCodec) {
    forall fields: seq<(string, Json)> | Object(fields).WellFormed() ::
      var text := codec.stringify(Object(fields));
      StartsWith(text, "{") && EndsWith(text, "}") &&
      codec.parse(text) == Some(Object(fields))
  }
}
