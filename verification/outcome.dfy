/** What serializing a value produces: the record handed to the serde
    serializer, or the first failure met on the way. */
module Outcomes {

  import opened Types
  import opened Arrow

  /** The fixed labels under which every struct and every field is emitted;
      the wire format is positional, so only the call order carries meaning.
      Their text is defined in typed/mod.rs, which is not part of this model:
      no property here depends on it. */
  const DUMMY_STRUCT_NAME: string := "struct"
  const DUMMY_FIELD_NAME: string := "field"

  /** The calls made on a serde serializer, as a value: `serialize_struct`
      with its declared field count followed by the `serialize_field` calls,
      a `&str`, or whatever a leaf wrapper emits. */
  datatype Encoded =
    | Struct(name: string, declaredLen: nat, fields: seq<Field>)
    | Text(text: string)
    | Value(scalar: Scalar)
    | Elements(items: seq<Encoded>)

  datatype Field = Field(name: string, value: Encoded)

  /** The errors raised through `error(...)`, one per call site. `Custom`
      carries a text produced elsewhere (the default synthesizer, a leaf
      wrapper or the byte serializer). */
  datatype SerError =
    | MessageNotFound(package: string, message: string)
    | ExpectedStructArray
    | UnknownField(column: string)
    | EmptyStruct
    | MultipleInstances(entries: nat)
    | NonMessageReference(field: string, reference: NamespacedType)
    | ExpectedStringArray
    | Custom(text: string)

  /** The two ways the encoder panics instead of returning an error. */
  datatype Panic =
    | StringLengthMismatch(length: nat)   // `assert_eq!(string_array.len(), 1)`
    | Todo(message: string)               // `todo!(...)`

  /** `DepthExhausted` is not a behaviour of the encoder: it is what the model
      answers when its recursion budget runs out (see Properties.DepthAdequacy).
      The leaf wrappers cannot answer it (see TypedValue.LeafOutcome). */
  datatype Failure = Error(error: SerError) | Panicked(panic: Panic) | DepthExhausted

  datatype Outcome<T> = Ok(value: T) | Fail(failure: Failure)

  /** The number a string of decimal digits denotes, most significant first. */
  function DigitsValue(s: string): nat
    requires forall i :: 0 <= i < |s| ==> '0' <= s[i] <= '9'
  {
    if |s| == 0 then 0
    else DigitsValue(s[..|s| - 1]) * 10 + (s[|s| - 1] as int - '0' as int)
  }

  /** Decimal rendering of a natural number, as `{}` formats a `usize`: the
      digits denote `n`, with no leading zero except in "0" itself. */
  function Decimal(n: nat): (r: string)
    ensures |r| > 0 && forall i :: 0 <= i < |r| ==> '0' <= r[i] <= '9'
    ensures DigitsValue(r) == n
    ensures r[0] == '0' ==> r == "0"
  {
    var digit := ["0123456789"[n % 10]];
    if n < 10 then digit else Decimal(n / 10) + digit
  }

  /** The `Debug` rendering of a namespaced reference (string escapes aside). */
  function DebugNamespaced(r: NamespacedType): string
  {
    "NamespacedType { package: \"" + r.package + "\", namespace: \"" + r.namespace
      + "\", name: \"" + r.name + "\" }"
  }

  /** The `Display` text of each error, as the source formats it. */
  function Describe(e: SerError): string
  {
    match e
    case MessageNotFound(package, message) => "could not find message type " + package + "::" + message
    case ExpectedStructArray => "expected struct array"
    case UnknownField(column) => "given struct has unknown field " + column
    case EmptyStruct => "given struct is empty"
    case MultipleInstances(entries) =>
      "expected single struct instance, got struct array with " + Decimal(entries) + " entries"
    case NonMessageReference(field, reference) =>
      "struct field " + field + " references non-message type " + DebugNamespaced(reference)
    case ExpectedStringArray => "expected string array"
    case Custom(text) => text
  }

  /** The unknown-field text names the column: two such texts are equal
      exactly when they name the same column. */
  lemma UnknownFieldTextNamesColumn(c: string, d: string)
    ensures Describe(UnknownField(c)) == Describe(UnknownField(d)) <==> c == d
  {
    var prefix := "given struct has unknown field ";
    if Describe(UnknownField(c)) == Describe(UnknownField(d)) {
      assert c == (prefix + c)[|prefix|..];
      assert d == (prefix + d)[|prefix|..];
    }
  }

  /** The multiple-instances text states the row count: two such texts are
      equal exactly when the counts are. */
  lemma RowCountTextNamesCount(m: nat, n: nat)
    ensures Describe(MultipleInstances(m)) == Describe(MultipleInstances(n)) <==> m == n
  {
    var prefix := "expected single struct instance, got struct array with ";
    var suffix := " entries";
    if Describe(MultipleInstances(m)) == Describe(MultipleInstances(n)) {
      var t := Describe(MultipleInstances(m));
      assert t == prefix + Decimal(m) + suffix;
      assert t == prefix + Decimal(n) + suffix;
      assert |Decimal(m)| == |Decimal(n)|;
      assert Decimal(m) == t[|prefix|..|prefix| + |Decimal(m)|];
      assert Decimal(n) == t[|prefix|..|prefix| + |Decimal(n)|];
    }
  }
}
