/** The type-directed struct encoder: `impl serde::Serialize for TypedValue`.
    A one-row Arrow struct array is serialized as one struct of the message
    named by its type info, one positional field per declared member. */
module TypedValue {

  import opened Types
  import opened Arrow
  import opened Outcomes

  /** What `defaults::default_for_member` answers. */
  datatype Synthesized = Synthesized(column: Column) | NoDefault(reason: string)

  /** What a leaf wrapper answers: an encoded value, an error or a panic,
      never the model's recursion-budget signal. */
  type LeafOutcome = o: Outcome<Encoded> | !(o.Fail? && o.failure.DepthExhausted?)
    witness Fail(Error(ExpectedStringArray))

  /** The submodules the encoder calls but whose code is not part of this
      model: the default synthesizer and the primitive, array and sequence
      wrappers. Each may succeed or fail; nothing else is assumed of them. */
  datatype Collaborators = Collaborators(
    defaultForMember: (Member, string, Registry) -> Synthesized,
    primitiveWrapper: (BasicType, Column) -> LeafOutcome,
    arrayWrapper: (ArrayType, Column, TypeInfo) -> LeafOutcome,
    sequenceWrapper: (NestableType, Column, TypeInfo) -> LeafOutcome)

  /** The first input column, in column order, that no member declares. */
  function UnknownColumn(children: seq<NamedColumn>, members: seq<Member>): (r: Option<string>)
    ensures r.None? <==> forall i :: 0 <= i < |children| ==> Declares(members, children[i].name)
    ensures r.Some? ==> exists k :: 0 <= k < |children| && children[k].name == r.value
                                   && !Declares(members, r.value)
                                   && forall j :: 0 <= j < k ==> Declares(members, children[j].name)
  {
    if |children| == 0 then None
    else if !Declares(members, children[0].name) then Some(children[0].name)
    else UnknownColumn(children[1..], members)
  }

  /** The column a member is encoded from: the input column of that name,
      else the synthesized default; a failed synthesis is the member's error. */
  function ResolveColumn(h: Collaborators, children: seq<NamedColumn>, info: TypeInfo, field: Member): Outcome<Column>
  {
    match ColumnByName(children, field.name)
    case Some(column) => Ok(column)
    case None =>
      match h.defaultForMember(field, info.packageName, info.messages)
      case Synthesized(column) => Ok(column)
      case NoDefault(reason) => Fail(Error(Custom(reason)))
  }

  /** Element 0 of a one-element string array, accepting 32-bit offsets
      first and 64-bit offsets second. */
  function ExtractString(column: Column): (r: Outcome<string>)
    ensures r.Ok? <==> (column.StringArray? || column.LargeStringArray?) && |column.strings| == 1
    ensures r.Ok? ==> r.value == column.strings[0]
    ensures (column.StringArray? || column.LargeStringArray?) && |column.strings| != 1 ==>
              r == Fail(Panicked(StringLengthMismatch(|column.strings|)))
    ensures !(column.StringArray? || column.LargeStringArray?) ==> r == Fail(Error(ExpectedStringArray))
  {
    match column
    case StringArray(strings) =>
      if |strings| == 1 then Ok(strings[0]) else Fail(Panicked(StringLengthMismatch(|strings|)))
    case LargeStringArray(strings) =>
      if |strings| == 1 then Ok(strings[0]) else Fail(Panicked(StringLengthMismatch(|strings|)))
    case _ => Fail(Error(ExpectedStringArray))
  }

  /** The value emitted for one member, given the column it is encoded from.
      Message references recurse with the same registry; `depth` bounds the
      recursion, which the source leaves unbounded. */
  function EncodeColumn(h: Collaborators, column: Column, info: TypeInfo, field: Member, depth: nat): Outcome<Encoded>
    decreases depth, 0, 0
  {
    match field.ty
    case Nestable(Basic(t)) => h.primitiveWrapper(t, column)
    case Nestable(Named(name)) =>
      if depth == 0 then Fail(DepthExhausted)
      else Encoding(h, column, TypeInfo(info.packageName, name, info.messages), depth - 1)
    case Nestable(Namespaced(reference)) =>
      if reference.namespace != "msg" then Fail(Error(NonMessageReference(field.name, reference)))
      else if depth == 0 then Fail(DepthExhausted)
      else Encoding(h, column, TypeInfo(reference.package, reference.name, info.messages), depth - 1)
    case Nestable(StringType(String())) => StringField(column)
    case Nestable(StringType(BoundedString(_))) => StringField(column)
    case Nestable(StringType(WString())) => Fail(Panicked(Todo("serializing WString types")))
    case Nestable(StringType(BoundedWString(_))) => Fail(Panicked(Todo("serializing BoundedWString types")))
    case Array(a) => h.arrayWrapper(a, column, info)
    case Sequence(s) => h.sequenceWrapper(s.valueType, column, info)
    case BoundedSequence(s) => h.sequenceWrapper(s.valueType, column, info)
  }

  /** The string arm: narrow offsets first, wide offsets as the fallback,
      element 0 of an array asserted to hold one string. */
  function StringField(column: Column): Outcome<Encoded>
  {
    match ExtractString(column)
    case Ok(s) => Ok(Text(s))
    case Fail(f) => Fail(f)
  }

  /** One member: resolve its column, then encode it. */
  function EncodeMember(h: Collaborators, children: seq<NamedColumn>, info: TypeInfo, field: Member, depth: nat): Outcome<Encoded>
    decreases depth, 1, 0
  {
    match ResolveColumn(h, children, info, field)
    case Fail(f) => Fail(f)
    case Ok(column) => EncodeColumn(h, column, info, field, depth)
  }

  /** The fields emitted for `members`, in their order; the first failing
      member's failure ends the whole sequence. */
  function EncodeMembers(h: Collaborators, children: seq<NamedColumn>, info: TypeInfo, members: seq<Member>, depth: nat): Outcome<seq<Field>>
    decreases depth, 2, |members|
  {
    if |members| == 0 then Ok([])
    else
      match EncodeMembers(h, children, info, members[..|members| - 1], depth)
      case Fail(f) => Fail(f)
      case Ok(fields) =>
        match EncodeMember(h, children, info, members[|members| - 1], depth)
        case Fail(f) => Fail(f)
        case Ok(e) => Ok(fields + [Field(DUMMY_FIELD_NAME, e)])
  }

  /** What serializing `value` as the message `info` names produces. */
  function Encoding(h: Collaborators, value: Column, info: TypeInfo, depth: nat): Outcome<Encoded>
    decreases depth, 3, 0
  {
    match LookupMessage(info)
    case None => Fail(Error(MessageNotFound(info.packageName, info.messageName)))
    case Some(message) =>
      if !value.StructArray? then Fail(Error(ExpectedStructArray))
      else match UnknownColumn(value.children, message.members)
        case Some(name) => Fail(Error(UnknownField(name)))
        case None =>
          if value.len == 0 then Fail(Error(EmptyStruct))
          else if value.len > 1 then Fail(Error(MultipleInstances(value.len)))
          else match EncodeMembers(h, value.children, info, message.members, depth)
            case Fail(f) => Fail(f)
            case Ok(fields) => Ok(Struct(DUMMY_STRUCT_NAME, |message.members|, fields))
  }

  /** Once a prefix of the members fails, the whole member list fails the same way. */
  lemma {:induction false} FailurePersists(h: Collaborators, children: seq<NamedColumn>, info: TypeInfo,
                                           members: seq<Member>, k: nat, depth: nat)
    requires k <= |members|
    requires EncodeMembers(h, children, info, members[..k], depth).Fail?
    ensures EncodeMembers(h, children, info, members, depth) == EncodeMembers(h, children, info, members[..k], depth)
    decreases |members|
  {
    if k < |members| {
      var prefix := members[..|members| - 1];
      assert prefix[..k] == members[..k];
      FailurePersists(h, children, info, prefix, k, depth);
    } else {
      assert members[..k] == members;
    }
  }

  /** `TypedValue::serialize`: look the message up, validate the input, then
      emit one field per member in declared order. */
  method Serialize(h: Collaborators, value: Column, info: TypeInfo, depth: nat) returns (r: Outcome<Encoded>)
    ensures r == Encoding(h, value, info, depth)
    decreases depth, 1
  {
    var packageMessages := if info.packageName in info.messages then info.messages[info.packageName] else map[];
    if info.messageName !in packageMessages {
      return Fail(Error(MessageNotFound(info.packageName, info.messageName)));
    }
    var message := packageMessages[info.messageName];
    if !value.StructArray? {
      return Fail(Error(ExpectedStructArray));
    }
    var columns := value.children;
    var i := 0;
    while i < |columns|
      invariant 0 <= i <= |columns|
      invariant forall j :: 0 <= j < i ==> Declares(message.members, columns[j].name)
    {
      if !Declares(message.members, columns[i].name) {
        return Fail(Error(UnknownField(columns[i].name)));
      }
      i := i + 1;
    }
    if value.len == 0 {
      return Fail(Error(EmptyStruct));
    }
    if value.len > 1 {
      return Fail(Error(MultipleInstances(value.len)));
    }
    var members := message.members;
    var fields: seq<Field> := [];
    for k := 0 to |members|
      invariant |fields| == k
      invariant EncodeMembers(h, columns, info, members[..k], depth) == Ok(fields)
    {
      var field := members[k];
      assert members[..k + 1][..k] == members[..k];
      var column: Column;
      match ColumnByName(columns, field.name) {
        case Some(c) =>
          column := c;
        case None =>
          match h.defaultForMember(field, info.packageName, info.messages) {
            case NoDefault(reason) =>
              FailurePersists(h, columns, info, members, k + 1, depth);
              return Fail(Error(Custom(reason)));
            case Synthesized(c) =>
              column := c;
          }
      }
      var encoded := EncodeField(h, column, info, field, depth);
      assert encoded == EncodeMember(h, columns, info, field, depth);
      if encoded.Fail? {
        FailurePersists(h, columns, info, members, k + 1, depth);
        return Fail(encoded.failure);
      }
      fields := fields + [Field(DUMMY_FIELD_NAME, encoded.value)];
    }
    assert members[..|members|] == members;
    return Ok(Struct(DUMMY_STRUCT_NAME, |members|, fields));
  }

  /** The dispatch on the member's type tag: leaf wrappers, recursion into
      `Serialize` for message references, the string arm, or `todo!`. */
  method EncodeField(h: Collaborators, column: Column, info: TypeInfo, field: Member, depth: nat) returns (r: Outcome<Encoded>)
    ensures r == EncodeColumn(h, column, info, field, depth)
    decreases depth, 0
  {
    match field.ty {
      case Nestable(Basic(t)) =>
        r := h.primitiveWrapper(t, column);
      case Nestable(Named(name)) =>
        if depth == 0 {
          r := Fail(DepthExhausted);
        } else {
          r := Serialize(h, column, TypeInfo(info.packageName, name, info.messages), depth - 1);
        }
      case Nestable(Namespaced(reference)) =>
        if reference.namespace != "msg" {
          r := Fail(Error(NonMessageReference(field.name, reference)));
        } else if depth == 0 {
          r := Fail(DepthExhausted);
        } else {
          r := Serialize(h, column, TypeInfo(reference.package, reference.name, info.messages), depth - 1);
        }
      case Nestable(StringType(String())) =>
        r := StringField(column);
      case Nestable(StringType(BoundedString(_))) =>
        r := StringField(column);
      case Nestable(StringType(WString())) =>
        r := Fail(Panicked(Todo("serializing WString types")));
      case Nestable(StringType(BoundedWString(_))) =>
        r := Fail(Panicked(Todo("serializing BoundedWString types")));
      case Array(a) =>
        r := h.arrayWrapper(a, column, info);
      case Sequence(s) =>
        r := h.sequenceWrapper(s.valueType, column, info);
      case BoundedSequence(s) =>
        r := h.sequenceWrapper(s.valueType, column, info);
    }
  }
}
