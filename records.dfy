/** Typed records as the object-to-hash mapper sees them. Reflection is
    replaced by an explicit schema per class: the class name, the declared
    fields in declaration order (each with its `@RedisPrimaryKey` flag) and the
    value of the class's `@RedisKey` annotation, if it has one. */
module Records {
  import opened Outcomes
  import opened JavaText

  /** A field value as Java holds it: null, a String, a boxed integer or a
      Boolean. */
  datatype Scalar = Null | Str(s: string) | Long(n: int) | Bool(b: bool)

  /** `String.valueOf(v)`: what `toString` gives for each kind of value. */
  function Render(v: Scalar): string
  {
    match v
    case Null => "null"
    case Str(s) => s
    case Long(n) => Decimal(n)
    case Bool(b) => if b then "true" else "false"
  }

  /** A declared field; `primary` is true when it carries `@RedisPrimaryKey`. */
  datatype FieldDecl = FieldDecl(name: string, primary: bool)

  /** What reflection reports about a class. */
  datatype Schema = Schema(className: string, fields: seq<FieldDecl>, redisKey: Option<string>)

  /** An object: its class and the values of its fields; a field missing from
      `values` holds null. */
  datatype Record = Record(schema: Schema, values: map<string, Scalar>)

  /** `field.get(object)`. */
  function Get(r: Record, name: string): Scalar
  {
    if name in r.values then r.values[name] else Null
  }

  /** An object handed to the read operations as a primary-key carrier: either
      an instance of a record class (with the text its own `toString` gives,
      which is user code) or a plain value such as a boxed number. */
  datatype Arg = Rec(record: Record, text: string) | Val(scalar: Scalar)

  /** `String.valueOf(o)` of an argument. */
  function ArgText(a: Arg): string
  {
    match a
    case Rec(_, text) => text
    case Val(v) => Render(v)
  }

  /** `AbstractCollection.toString`: the elements between brackets, separated
      by ", ". */
  function CollectionText(items: seq<Arg>): string
  {
    "[" + Join(seq(|items|, i requires 0 <= i < |items| => ArgText(items[i])), ", ") + "]"
  }

  /** Field names that are distinct, non-empty and colon-free. */
  ghost predicate GoodNames(fields: seq<FieldDecl>)
  {
    && (forall i, j :: 0 <= i < j < |fields| ==> fields[i].name != fields[j].name)
    && (forall i :: 0 <= i < |fields| ==> fields[i].name != "" && ':' !in fields[i].name)
  }

  /** Java field names are distinct within a class, non-empty and never contain
      a colon. */
  ghost predicate WellFormed(s: Schema)
  {
    GoodNames(s.fields)
  }

  /** The names of the given fields, in order. */
  function Names(fields: seq<FieldDecl>): (r: seq<string>)
    ensures |r| == |fields|
    ensures forall i :: 0 <= i < |r| ==> r[i] == fields[i].name
  {
    seq(|fields|, i requires 0 <= i < |fields| => fields[i].name)
  }
}
