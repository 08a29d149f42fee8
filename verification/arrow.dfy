/** The part of the Arrow columnar format the struct encoder looks at. A
    column is an Arrow array; a struct array has a row count and an ordered
    list of named child columns. */
module Arrow {

  import opened Types

  /** A scalar cell; its bits are opaque to the struct encoder. */
  datatype Scalar = BoolValue(b: bool) | IntValue(i: int) | FloatBits(bits: nat) | CharValue(c: char)

  datatype Column =
    | StructArray(len: nat, children: seq<NamedColumn>)
    | StringArray(strings: seq<string>)        // UTF-8 with 32-bit offsets
    | LargeStringArray(strings: seq<string>)   // UTF-8 with 64-bit offsets
    | PrimitiveArray(values: seq<Scalar>)
    | ListArray(items: seq<Column>)

  datatype NamedColumn = NamedColumn(name: string, column: Column)

  /** Arrow's `column_by_name`: the first child column called `name`, if any. */
  function ColumnByName(children: seq<NamedColumn>, name: string): (r: Option<Column>)
    ensures r.None? <==> forall i :: 0 <= i < |children| ==> children[i].name != name
    ensures r.Some? ==> exists i :: 0 <= i < |children| && children[i] == NamedColumn(name, r.value)
                                   && forall j :: 0 <= j < i ==> children[j].name != name
  {
    if |children| == 0 then None
    else if children[0].name == name then Some(children[0].column)
    else ColumnByName(children[1..], name)
  }

  ghost predicate DistinctNames(children: seq<NamedColumn>)
  {
    forall i, j :: 0 <= i < j < |children| ==> children[i].name != children[j].name
  }

  /** With distinct names, looking a column up is asking whether the pair is present. */
  lemma LookupIsMembership(children: seq<NamedColumn>, name: string, column: Column)
    requires DistinctNames(children)
    ensures ColumnByName(children, name) == Some(column) <==> NamedColumn(name, column) in children
  {
  }

  /** Reordering the child columns of a struct array whose column names are
      distinct does not change what any name looks up. */
  lemma PermutationKeepsLookup(a: seq<NamedColumn>, b: seq<NamedColumn>, name: string)
    requires DistinctNames(a) && DistinctNames(b)
    requires multiset(a) == multiset(b)
    ensures ColumnByName(a, name) == ColumnByName(b, name)
  {
    var ra, rb := ColumnByName(a, name), ColumnByName(b, name);
    if ra.Some? {
      LookupIsMembership(a, name, ra.value);
      assert NamedColumn(name, ra.value) in multiset(b);
      LookupIsMembership(b, name, ra.value);
    } else {
      forall i | 0 <= i < |b| ensures b[i].name != name {
        assert b[i] in multiset(a);
      }
    }
  }
}
