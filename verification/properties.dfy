/** What the struct encoder promises, stated over `TypedValue.Encoding` (which
    `TypedValue.Serialize` is proved to compute). */
module Properties {

  import opened Types
  import opened Arrow
  import opened Outcomes
  import opened TypedValue

  // ---------------------------------------------------------------------
  // Validation, in the order the encoder performs it
  // ---------------------------------------------------------------------

  /** The input passed every check that precedes field emission. */
  ghost predicate Validated(value: Column, info: TypeInfo)
  {
    && LookupMessage(info).Some?
    && value.StructArray?
    && UnknownColumn(value.children, LookupMessage(info).value.members).None?
    && value.len == 1
  }

  /** Lookup, struct check, unknown-field check and row-count checks, each
      failing before anything is emitted and each only once the earlier
      ones passed; the unknown-field check ignores the row count. */
  lemma ValidationOrder(h: Collaborators, value: Column, info: TypeInfo, depth: nat)
    ensures LookupMessage(info).None? ==>
              Encoding(h, value, info, depth) == Fail(Error(MessageNotFound(info.packageName, info.messageName)))
    ensures LookupMessage(info).Some? && !value.StructArray? ==>
              Encoding(h, value, info, depth) == Fail(Error(ExpectedStructArray))
    ensures LookupMessage(info).Some? && value.StructArray? ==>
              var unknown := UnknownColumn(value.children, LookupMessage(info).value.members);
              unknown.Some? ==> Encoding(h, value, info, depth) == Fail(Error(UnknownField(unknown.value)))
    ensures LookupMessage(info).Some? && value.StructArray?
            && UnknownColumn(value.children, LookupMessage(info).value.members).None? ==>
              && (value.len == 0 ==> Encoding(h, value, info, depth) == Fail(Error(EmptyStruct)))
              && (value.len > 1 ==> Encoding(h, value, info, depth) == Fail(Error(MultipleInstances(value.len))))
  {
  }

  /** The reported unknown field is the first undeclared input column, even
      when the struct array has no rows. */
  lemma UnknownFieldIsFirstUndeclared(h: Collaborators, value: Column, info: TypeInfo, depth: nat, k: nat)
    requires LookupMessage(info).Some? && value.StructArray?
    requires k < |value.children|
    requires !Declares(LookupMessage(info).value.members, value.children[k].name)
    requires forall j :: 0 <= j < k ==> Declares(LookupMessage(info).value.members, value.children[j].name)
    ensures Encoding(h, value, info, depth) == Fail(Error(UnknownField(value.children[k].name)))
  {
  }

  // ---------------------------------------------------------------------
  // One field per member, in descriptor order
  // ---------------------------------------------------------------------

  /** The member list encodes exactly when every member does, and then field
      `i` is member `i`'s value under the placeholder label. */
  lemma {:induction false} EncodeMembersAllOk(h: Collaborators, children: seq<NamedColumn>, info: TypeInfo,
                                              members: seq<Member>, depth: nat)
    ensures EncodeMembers(h, children, info, members, depth).Ok? <==>
              forall i :: 0 <= i < |members| ==> EncodeMember(h, children, info, members[i], depth).Ok?
    ensures EncodeMembers(h, children, info, members, depth).Ok? ==>
              var fields := EncodeMembers(h, children, info, members, depth).value;
              && |fields| == |members|
              && forall i :: 0 <= i < |members| ==>
                   fields[i] == Field(DUMMY_FIELD_NAME, EncodeMember(h, children, info, members[i], depth).value)
    decreases |members|
  {
    if |members| > 0 {
      var prefix := members[..|members| - 1];
      EncodeMembersAllOk(h, children, info, prefix, depth);
      assert forall i :: 0 <= i < |prefix| ==> prefix[i] == members[i];
    }
  }

  /** When the member list fails, some member `k` fails with exactly that
      failure and every member before `k` encoded: the first error wins. */
  lemma {:induction false} FirstFailureWins(h: Collaborators, children: seq<NamedColumn>, info: TypeInfo,
                                            members: seq<Member>, depth: nat)
    requires EncodeMembers(h, children, info, members, depth).Fail?
    ensures exists k :: 0 <= k < |members|
              && (forall j :: 0 <= j < k ==> EncodeMember(h, children, info, members[j], depth).Ok?)
              && EncodeMember(h, children, info, members[k], depth) == Fail(EncodeMembers(h, children, info, members, depth).failure)
    decreases |members|
  {
    var prefix := members[..|members| - 1];
    var last := |members| - 1;
    assert forall i :: 0 <= i < |prefix| ==> prefix[i] == members[i];
    if EncodeMembers(h, children, info, prefix, depth).Fail? {
      FirstFailureWins(h, children, info, prefix, depth);
      var k :| 0 <= k < |prefix|
               && (forall j :: 0 <= j < k ==> EncodeMember(h, children, info, prefix[j], depth).Ok?)
               && EncodeMember(h, children, info, prefix[k], depth) == Fail(EncodeMembers(h, children, info, prefix, depth).failure);
      assert EncodeMember(h, children, info, members[k], depth) == Fail(EncodeMembers(h, children, info, members, depth).failure);
    } else {
      EncodeMembersAllOk(h, children, info, prefix, depth);
      assert EncodeMember(h, children, info, members[last], depth) == Fail(EncodeMembers(h, children, info, members, depth).failure);
    }
  }

  /** A successful serialization passed every check and is one struct under
      the placeholder name, declared with the member count, holding one
      placeholder-labelled field per member in descriptor order. */
  lemma SuccessShape(h: Collaborators, value: Column, info: TypeInfo, depth: nat)
    requires Encoding(h, value, info, depth).Ok?
    ensures Validated(value, info)
    ensures forall i :: 0 <= i < |value.children| ==> Declares(LookupMessage(info).value.members, value.children[i].name)
    ensures var members := LookupMessage(info).value.members;
            var e := Encoding(h, value, info, depth).value;
            && e.Struct? && e.name == DUMMY_STRUCT_NAME
            && e.declaredLen == |members| && |e.fields| == |members|
            && forall i :: 0 <= i < |members| ==>
                 && EncodeMember(h, value.children, info, members[i], depth).Ok?
                 && e.fields[i] == Field(DUMMY_FIELD_NAME, EncodeMember(h, value.children, info, members[i], depth).value)
  {
    EncodeMembersAllOk(h, value.children, info, LookupMessage(info).value.members, depth);
  }

  /** Every check passed and members `0 .. k-1` encoded. */
  ghost predicate ReachesMember(h: Collaborators, value: Column, info: TypeInfo, depth: nat, k: nat)
  {
    && Validated(value, info)
    && k < |LookupMessage(info).value.members|
    && forall j :: 0 <= j < k ==>
         EncodeMember(h, value.children, info, LookupMessage(info).value.members[j], depth).Ok?
  }

  /** A failing member aborts the whole serialization with its own failure. */
  lemma FailureAtMember(h: Collaborators, value: Column, info: TypeInfo, depth: nat, k: nat)
    requires ReachesMember(h, value, info, depth, k)
    requires EncodeMember(h, value.children, info, LookupMessage(info).value.members[k], depth).Fail?
    ensures Encoding(h, value, info, depth)
            == EncodeMember(h, value.children, info, LookupMessage(info).value.members[k], depth)
  {
    var members := LookupMessage(info).value.members;
    var prefix := members[..k];
    assert forall i :: 0 <= i < |prefix| ==> prefix[i] == members[i];
    EncodeMembersAllOk(h, value.children, info, prefix, depth);
    assert members[..k + 1][..k] == prefix;
    FailurePersists(h, value.children, info, members, k + 1, depth);
  }

  /** A missing member whose default cannot be synthesized aborts with the
      synthesizer's error. */
  lemma DefaultFailureAborts(h: Collaborators, value: Column, info: TypeInfo, depth: nat, k: nat, reason: string)
    requires ReachesMember(h, value, info, depth, k)
    requires ColumnByName(value.children, LookupMessage(info).value.members[k].name).None?
    requires h.defaultForMember(LookupMessage(info).value.members[k], info.packageName, info.messages) == NoDefault(reason)
    ensures Encoding(h, value, info, depth) == Fail(Error(Custom(reason)))
  {
    FailureAtMember(h, value, info, depth, k);
  }

  /** A cross-package reference outside the "msg" namespace is rejected,
      after its column was resolved. */
  lemma NonMessageNamespaceRejected(h: Collaborators, value: Column, info: TypeInfo, depth: nat, k: nat)
    requires ReachesMember(h, value, info, depth, k)
    requires var field := LookupMessage(info).value.members[k];
             && field.ty.Nestable? && field.ty.nestable.Namespaced?
             && field.ty.nestable.reference.namespace != "msg"
             && ResolveColumn(h, value.children, info, field).Ok?
    ensures var field := LookupMessage(info).value.members[k];
            Encoding(h, value, info, depth) == Fail(Error(NonMessageReference(field.name, field.ty.nestable.reference)))
  {
    FailureAtMember(h, value, info, depth, k);
  }

  /** A wide-string member reached with a resolved column panics with `todo!`. */
  lemma WideStringsUnimplemented(h: Collaborators, value: Column, info: TypeInfo, depth: nat, k: nat)
    requires ReachesMember(h, value, info, depth, k)
    requires var field := LookupMessage(info).value.members[k];
             && field.ty.Nestable? && field.ty.nestable.StringType?
             && (field.ty.nestable.kind.WString? || field.ty.nestable.kind.BoundedWString?)
             && ResolveColumn(h, value.children, info, field).Ok?
    ensures Encoding(h, value, info, depth).Fail?
    ensures Encoding(h, value, info, depth).failure.Panicked?
    ensures Encoding(h, value, info, depth).failure.panic.Todo?
  {
    FailureAtMember(h, value, info, depth, k);
  }

  // ---------------------------------------------------------------------
  // Input column order and omitted members
  // ---------------------------------------------------------------------

  /** Two member lists encode alike when every member resolves to the same column. */
  lemma {:induction false} SameResolutionSameFields(h: Collaborators, a: seq<NamedColumn>, b: seq<NamedColumn>,
                                                    info: TypeInfo, members: seq<Member>, depth: nat)
    requires forall i :: 0 <= i < |members| ==>
               ResolveColumn(h, a, info, members[i]) == ResolveColumn(h, b, info, members[i])
    ensures EncodeMembers(h, a, info, members, depth) == EncodeMembers(h, b, info, members, depth)
    decreases |members|
  {
    if |members| > 0 {
      var prefix := members[..|members| - 1];
      assert forall i :: 0 <= i < |prefix| ==> prefix[i] == members[i];
      SameResolutionSameFields(h, a, b, info, prefix, depth);
    }
  }

  /** The outcome is an unknown-field rejection. */
  predicate RejectsUnknownField(r: Outcome<Encoded>)
  {
    r.Fail? && r.failure.Error? && r.failure.error.UnknownField?
  }

  /** Input column order has no effect: two struct arrays with the same row
      count whose names look up the same columns serialize alike, except
      that with undeclared columns each may name a different one first. */
  lemma ColumnOrderIrrelevant(h: Collaborators, a: Column, b: Column, info: TypeInfo, depth: nat)
    requires a.StructArray? && b.StructArray? && a.len == b.len
    requires forall name :: ColumnByName(a.children, name) == ColumnByName(b.children, name)
    ensures Encoding(h, a, info, depth) == Encoding(h, b, info, depth)
            || (RejectsUnknownField(Encoding(h, a, info, depth)) && RejectsUnknownField(Encoding(h, b, info, depth)))
  {
    if LookupMessage(info).Some? {
      var members := LookupMessage(info).value.members;
      SameNamesSameUnknown(a.children, b.children, members);
      if UnknownColumn(a.children, members).None? {
        forall i | 0 <= i < |members|
          ensures ResolveColumn(h, a.children, info, members[i]) == ResolveColumn(h, b.children, info, members[i])
        {
          assert ColumnByName(a.children, members[i].name) == ColumnByName(b.children, members[i].name);
        }
        SameResolutionSameFields(h, a.children, b.children, info, members, depth);
        assert Encoding(h, a, info, depth) == Encoding(h, b, info, depth);
      }
    }
  }

  /** If every column of `a` is declared and `b` looks names up like `a`,
      every column of `b` is declared. */
  lemma SameNamesSameUnknown(a: seq<NamedColumn>, b: seq<NamedColumn>, members: seq<Member>)
    requires forall name :: ColumnByName(a, name) == ColumnByName(b, name)
    ensures UnknownColumn(a, members).None? <==> UnknownColumn(b, members).None?
  {
    if UnknownColumn(a, members).None? {
      DeclaredCarriesOver(a, b, members);
    }
    if UnknownColumn(b, members).None? {
      DeclaredCarriesOver(b, a, members);
    }
  }

  /** One direction of SameNamesSameUnknown. */
  lemma DeclaredCarriesOver(a: seq<NamedColumn>, b: seq<NamedColumn>, members: seq<Member>)
    requires forall name :: ColumnByName(a, name) == ColumnByName(b, name)
    requires UnknownColumn(a, members).None?
    ensures UnknownColumn(b, members).None?
  {
    forall k | 0 <= k < |b| ensures Declares(members, b[k].name) {
      var name := b[k].name;
      assert ColumnByName(b, name).Some?;
      assert ColumnByName(a, name).Some?;
      var i :| 0 <= i < |a| && a[i] == NamedColumn(name, ColumnByName(a, name).value)
               && forall j :: 0 <= j < i ==> a[j].name != name;
      assert Declares(members, a[i].name);
    }
  }

  /** Permuting the columns of a struct array with distinct column names
      does not change its serialization (beyond which unknown field is named). */
  lemma PermutedColumnsSameEncoding(h: Collaborators, a: Column, b: Column, info: TypeInfo, depth: nat)
    requires a.StructArray? && b.StructArray? && a.len == b.len
    requires DistinctNames(a.children) && DistinctNames(b.children)
    requires multiset(a.children) == multiset(b.children)
    ensures Encoding(h, a, info, depth) == Encoding(h, b, info, depth)
            || (RejectsUnknownField(Encoding(h, a, info, depth)) && RejectsUnknownField(Encoding(h, b, info, depth)))
  {
    forall name ensures ColumnByName(a.children, name) == ColumnByName(b.children, name) {
      PermutationKeepsLookup(a.children, b.children, name);
    }
    ColumnOrderIrrelevant(h, a, b, info, depth);
  }

  /** Appending a column changes only the lookup of its own name, and only
      when that name was absent. */
  lemma {:induction false} LookupAfterAppend(children: seq<NamedColumn>, extra: NamedColumn, name: string)
    ensures ColumnByName(children + [extra], name) ==
              if ColumnByName(children, name).Some? then ColumnByName(children, name)
              else if name == extra.name then Some(extra.column)
              else None
    decreases |children|
  {
    if |children| > 0 {
      assert (children + [extra])[1..] == children[1..] + [extra];
      LookupAfterAppend(children[1..], extra, name);
    }
  }

  /** Appending a declared column does not change the unknown-field verdict. */
  lemma {:induction false} UnknownAfterAppend(children: seq<NamedColumn>, extra: NamedColumn, members: seq<Member>)
    requires Declares(members, extra.name)
    ensures UnknownColumn(children + [extra], members) == UnknownColumn(children, members)
    decreases |children|
  {
    if |children| > 0 {
      assert (children + [extra])[1..] == children[1..] + [extra];
      UnknownAfterAppend(children[1..], extra, members);
    }
  }

  /** Omitting a member is the same as supplying its synthesized default. */
  lemma DefaultEquivalence(h: Collaborators, value: Column, info: TypeInfo, depth: nat, field: Member, default: Column)
    requires LookupMessage(info).Some? && value.StructArray?
    requires DistinctMemberNames(LookupMessage(info).value.members)
    requires field in LookupMessage(info).value.members
    requires ColumnByName(value.children, field.name).None?
    requires h.defaultForMember(field, info.packageName, info.messages) == Synthesized(default)
    ensures Encoding(h, value, info, depth)
            == Encoding(h, StructArray(value.len, value.children + [NamedColumn(field.name, default)]), info, depth)
  {
    var members := LookupMessage(info).value.members;
    var extra := NamedColumn(field.name, default);
    var supplied := StructArray(value.len, value.children + [extra]);
    UnknownAfterAppend(value.children, extra, members);
    forall i | 0 <= i < |members|
      ensures ResolveColumn(h, value.children, info, members[i]) == ResolveColumn(h, supplied.children, info, members[i])
    {
      LookupAfterAppend(value.children, extra, members[i].name);
      if members[i].name == field.name {
        var j :| 0 <= j < |members| && members[j] == field;
        assert i == j;
      }
    }
    SameResolutionSameFields(h, value.children, supplied.children, info, members, depth);
  }

  // ---------------------------------------------------------------------
  // The output follows the descriptors, recursively
  // ---------------------------------------------------------------------

  /** `v` is what a message of `package`/`message` looks like on the wire:
      one placeholder-named struct with one placeholder-labelled field per
      member, each field conforming to its member's type. */
  ghost predicate Conforms(registry: Registry, package: string, message: string, v: Encoded)
    decreases v, 0
  {
    match LookupMessage(TypeInfo(package, message, registry))
    case None => false
    case Some(descriptor) =>
      && v.Struct? && v.name == DUMMY_STRUCT_NAME
      && v.declaredLen == |descriptor.members| && |v.fields| == |descriptor.members|
      && forall i :: 0 <= i < |v.fields| ==>
           && v.fields[i].name == DUMMY_FIELD_NAME
           && FieldConforms(registry, package, descriptor.members[i], v.fields[i].value)
  }

  /** A same-package reference is a struct of that package's message; a
      cross-package one is in the "msg" namespace and a struct of the
      referenced message; a narrow string is text; a wide string never
      appears; what the leaf wrappers emit is theirs to decide. */
  ghost predicate FieldConforms(registry: Registry, package: string, field: Member, v: Encoded)
    decreases v, 1
  {
    match field.ty
    case Nestable(Named(name)) => Conforms(registry, package, name, v)
    case Nestable(Namespaced(reference)) =>
      reference.namespace == "msg" && Conforms(registry, reference.package, reference.name, v)
    case Nestable(StringType(String())) => v.Text?
    case Nestable(StringType(BoundedString(_))) => v.Text?
    case Nestable(StringType(WString())) => false
    case Nestable(StringType(BoundedWString(_))) => false
    case Nestable(Basic(_)) => true
    case Array(_) => true
    case Sequence(_) => true
    case BoundedSequence(_) => true
  }

  /** Every successful serialization conforms to the descriptor it was
      serialized as, at every nesting level. */
  lemma {:induction false} EncodingConforms(h: Collaborators, value: Column, info: TypeInfo, depth: nat)
    requires Encoding(h, value, info, depth).Ok?
    ensures Conforms(info.messages, info.packageName, info.messageName, Encoding(h, value, info, depth).value)
    decreases depth
  {
    SuccessShape(h, value, info, depth);
    var members := LookupMessage(info).value.members;
    var e := Encoding(h, value, info, depth).value;
    forall i | 0 <= i < |e.fields|
      ensures FieldConforms(info.messages, info.packageName, members[i], e.fields[i].value)
    {
      var field := members[i];
      var column := ResolveColumn(h, value.children, info, field).value;
      assert EncodeColumn(h, column, info, field, depth) == Ok(e.fields[i].value);
      match field.ty
      case Nestable(Named(name)) =>
        EncodingConforms(h, column, TypeInfo(info.packageName, name, info.messages), depth - 1);
      case Nestable(Namespaced(reference)) =>
        EncodingConforms(h, column, TypeInfo(reference.package, reference.name, info.messages), depth - 1);
      case _ =>
    }
  }

  // ---------------------------------------------------------------------
  // The recursion budget
  // ---------------------------------------------------------------------

  lemma {:induction false} EncodingDepthStep(h: Collaborators, value: Column, info: TypeInfo, depth: nat)
    requires Encoding(h, value, info, depth) != Fail(DepthExhausted)
    ensures Encoding(h, value, info, depth + 1) == Encoding(h, value, info, depth)
    decreases depth, 3, 0
  {
    match LookupMessage(info)
    case None =>
    case Some(message) =>
      if value.StructArray? && UnknownColumn(value.children, message.members).None? && value.len == 1 {
        EncodeMembersDepthStep(h, value.children, info, message.members, depth);
      }
  }

  lemma {:induction false} EncodeMembersDepthStep(h: Collaborators, children: seq<NamedColumn>, info: TypeInfo,
                                                  members: seq<Member>, depth: nat)
    requires EncodeMembers(h, children, info, members, depth) != Fail(DepthExhausted)
    ensures EncodeMembers(h, children, info, members, depth + 1) == EncodeMembers(h, children, info, members, depth)
    decreases depth, 2, |members|
  {
    if |members| > 0 {
      var prefix := members[..|members| - 1];
      EncodeMembersDepthStep(h, children, info, prefix, depth);
      if EncodeMembers(h, children, info, prefix, depth).Ok? {
        EncodeMemberDepthStep(h, children, info, members[|members| - 1], depth);
      }
    }
  }

  lemma {:induction false} EncodeMemberDepthStep(h: Collaborators, children: seq<NamedColumn>, info: TypeInfo,
                                                 field: Member, depth: nat)
    requires EncodeMember(h, children, info, field, depth) != Fail(DepthExhausted)
    ensures EncodeMember(h, children, info, field, depth + 1) == EncodeMember(h, children, info, field, depth)
    decreases depth, 1, 0
  {
    match ResolveColumn(h, children, info, field)
    case Fail(_) =>
    case Ok(column) =>
      match field.ty
      case Nestable(Named(name)) =>
        if depth > 0 {
          EncodingDepthStep(h, column, TypeInfo(info.packageName, name, info.messages), depth - 1);
        }
      case Nestable(Namespaced(reference)) =>
        if reference.namespace == "msg" && depth > 0 {
          EncodingDepthStep(h, column, TypeInfo(reference.package, reference.name, info.messages), depth - 1);
        }
      case _ =>
  }

  /** The recursion budget is a modelling device only: once it suffices, a
      larger one gives the same outcome. */
  lemma {:induction false} DepthAdequacy(h: Collaborators, value: Column, info: TypeInfo, depth: nat, more: nat)
    requires depth <= more
    requires Encoding(h, value, info, depth) != Fail(DepthExhausted)
    ensures Encoding(h, value, info, more) == Encoding(h, value, info, depth)
    decreases more - depth
  {
    if depth < more {
      EncodingDepthStep(h, value, info, depth);
      DepthAdequacy(h, value, info, depth + 1, more);
    }
  }

  // ---------------------------------------------------------------------
  // Worked instances
  // ---------------------------------------------------------------------

  function PointRegistry(): Registry
  {
    map["geometry_msgs" := map["Point" := Message([
      Member("x", Nestable(Basic(F64)), None), Member("y", Nestable(Basic(F64)), None), Member("z", Nestable(Basic(F64)), None)])]]
  }

  /** `Point{x, y, z: float64}` given only `x` and `y`: three fields in
      declared order, the last encoded from the synthesized default of `z`. */
  lemma PointWithDefaultZ(h: Collaborators, xs: Column, ys: Column, zs: Column, depth: nat)
    requires h.defaultForMember(Member("z", Nestable(Basic(F64)), None), "geometry_msgs", PointRegistry()) == Synthesized(zs)
    requires h.primitiveWrapper(F64, xs).Ok? && h.primitiveWrapper(F64, ys).Ok? && h.primitiveWrapper(F64, zs).Ok?
    ensures Encoding(h, StructArray(1, [NamedColumn("x", xs), NamedColumn("y", ys)]),
                     TypeInfo("geometry_msgs", "Point", PointRegistry()), depth)
            == Ok(Struct(DUMMY_STRUCT_NAME, 3, [Field(DUMMY_FIELD_NAME, h.primitiveWrapper(F64, xs).value),
                                                Field(DUMMY_FIELD_NAME, h.primitiveWrapper(F64, ys).value),
                                                Field(DUMMY_FIELD_NAME, h.primitiveWrapper(F64, zs).value)]))
  {
    var info := TypeInfo("geometry_msgs", "Point", PointRegistry());
    var value := StructArray(1, [NamedColumn("x", xs), NamedColumn("y", ys)]);
    var members := LookupMessage(info).value.members;
    assert Declares(members, "x") && Declares(members, "y") by {
      assert members[0].name == "x" && members[1].name == "y";
    }
    assert UnknownColumn(value.children, members).None?;
    assert ColumnByName(value.children, "z").None?;
    assert EncodeMember(h, value.children, info, members[0], depth) == h.primitiveWrapper(F64, xs);
    assert EncodeMember(h, value.children, info, members[1], depth) == h.primitiveWrapper(F64, ys);
    assert EncodeMember(h, value.children, info, members[2], depth) == h.primitiveWrapper(F64, zs);
    EncodeMembersAllOk(h, value.children, info, members, depth);
    var fields := EncodeMembers(h, value.children, info, members, depth).value;
    assert Encoding(h, value, info, depth) == Ok(Struct(DUMMY_STRUCT_NAME, 3, fields));
    assert fields == [Field(DUMMY_FIELD_NAME, h.primitiveWrapper(F64, xs).value),
                      Field(DUMMY_FIELD_NAME, h.primitiveWrapper(F64, ys).value),
                      Field(DUMMY_FIELD_NAME, h.primitiveWrapper(F64, zs).value)];
  }

  function HeaderRegistry(): Registry
  {
    map["std_msgs" := map["Header" := Message([Member("frame_id", Nestable(StringType(String())), None)])]]
  }

  /** A string column given with 64-bit offsets serializes exactly like the
      same text given with 32-bit offsets. */
  lemma {:induction false} HeaderStringWidths(h: Collaborators, text: string, depth: nat)
    ensures var info := TypeInfo("std_msgs", "Header", HeaderRegistry());
            && Encoding(h, StructArray(1, [NamedColumn("frame_id", LargeStringArray([text]))]), info, depth)
               == Encoding(h, StructArray(1, [NamedColumn("frame_id", StringArray([text]))]), info, depth)
            && Encoding(h, StructArray(1, [NamedColumn("frame_id", StringArray([text]))]), info, depth)
               == Ok(Struct(DUMMY_STRUCT_NAME, 1, [Field(DUMMY_FIELD_NAME, Text(text))]))
  {
    var info := TypeInfo("std_msgs", "Header", HeaderRegistry());
    var members := LookupMessage(info).value.members;
    assert Declares(members, "frame_id") by { assert members[0].name == "frame_id"; }
    var wide := [NamedColumn("frame_id", LargeStringArray([text]))];
    var narrow := [NamedColumn("frame_id", StringArray([text]))];
    assert UnknownColumn(wide, members).None? && UnknownColumn(narrow, members).None?;
    assert EncodeMember(h, wide, info, members[0], depth) == Ok(Text(text));
    assert EncodeMember(h, narrow, info, members[0], depth) == Ok(Text(text));
    EncodeMembersAllOk(h, wide, info, members, depth);
    EncodeMembersAllOk(h, narrow, info, members, depth);
    assert EncodeMembers(h, wide, info, members, depth).value == [Field(DUMMY_FIELD_NAME, Text(text))];
    assert EncodeMembers(h, narrow, info, members, depth).value == [Field(DUMMY_FIELD_NAME, Text(text))];
  }
}
