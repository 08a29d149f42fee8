/** Run-time type descriptors of ROS 2 interface definitions, as the bridge's
    message generator hands them to the serializer: a registry maps a package
    name to its messages, and a message is an ordered list of typed members. */
module Types {

  datatype Option<T> = None | Some(value: T)

  /** The scalar kinds a member may have. */
  datatype BasicType = I8 | I16 | I32 | I64 | U8 | U16 | U32 | U64 | F32 | F64 | Bool | Char | Byte

  /** The four string variants; the bounds are carried but never checked by the struct encoder. */
  datatype GenericString = String | WString | BoundedString(maxSize: nat) | BoundedWString(maxSize: nat)

  /** A reference to a message of another package, e.g. `geometry_msgs/msg/Point`. */
  datatype NamespacedType = NamespacedType(package: string, namespace: string, name: string)

  /** The types that may appear on their own or as the element type of a collection. */
  datatype NestableType =
    | Basic(basic: BasicType)
    | Named(name: string)              // a message of the same package
    | Namespaced(reference: NamespacedType)
    | StringType(kind: GenericString)

  datatype ArrayType = ArrayType(valueType: NestableType, size: nat)
  datatype SequenceType = SequenceType(valueType: NestableType)
  datatype BoundedSequenceType = BoundedSequenceType(valueType: NestableType, maxSize: nat)

  datatype MemberType =
    | Nestable(nestable: NestableType)
    | Array(arrayInfo: ArrayType)
    | Sequence(sequenceInfo: SequenceType)
    | BoundedSequence(boundedInfo: BoundedSequenceType)

  /** A declared member; `default` is the default written in the interface
      definition, if any, which only the default synthesizer reads. */
  datatype Member = Member(name: string, ty: MemberType, default: Option<seq<string>>)

  /** A message descriptor: its members, in wire order. */
  datatype Message = Message(members: seq<Member>)

  /** package name -> message name -> descriptor */
  type Registry = map<string, map<string, Message>>

  /** Which descriptor governs a value: package, message and the shared registry. */
  datatype TypeInfo = TypeInfo(packageName: string, messageName: string, messages: Registry)

  /** Some member of `members` is called `name`. */
  predicate Declares(members: seq<Member>, name: string)
  {
    exists i :: 0 <= i < |members| && members[i].name == name
  }

  /** The descriptor invariant that member names are unique within a message. */
  ghost predicate DistinctMemberNames(members: seq<Member>)
  {
    forall i, j :: 0 <= i < j < |members| ==> members[i].name != members[j].name
  }

  /** Resolves the descriptor named by `info`; a package missing from the
      registry behaves like a package with no messages. */
  function LookupMessage(info: TypeInfo): (r: Option<Message>)
    ensures r.Some? <==> info.packageName in info.messages && info.messageName in info.messages[info.packageName]
    ensures r.Some? ==> r.value == info.messages[info.packageName][info.messageName]
  {
    var packageMessages := if info.packageName in info.messages then info.messages[info.packageName] else map[];
    if info.messageName in packageMessages then Some(packageMessages[info.messageName]) else None
  }
}
