# Typed struct serializer of the dora ROS 2 bridge, in Dafny

This project models the struct encoder of the dora ROS 2 bridge's Python
extension: `impl serde::Serialize for TypedValue` in
`libraries/extensions/ros2-bridge/python/src/typed/serialize/mod.rs`.

A `TypedValue` pairs an Arrow array with a `TypeInfo`. The type info holds a
package name, a message name and the registry of message descriptors
(package -> message -> members). Serializing the value goes through these
steps in order:

1. Resolve the message descriptor. A package missing from the registry counts as a package with no messages.
2. Check that the value is a struct array.
3. Check that every column, in column order, names a declared member.
4. Check that the array has exactly one row.
5. Walk the members in declared order. Each member is encoded from its input column, or from a default synthesized for it when the column is missing.
6. Emit one positional field per member under a fixed placeholder label, dispatching on the member's type tag.

Message references recurse into the encoder with the same registry. A
same-package reference keeps the package. A cross-package reference must be
in the `msg` namespace.

Files and modules:

- `types.dfy` (`Types`): the descriptors (`MemberType`, `NestableType`, `GenericString`, …), the registry and `LookupMessage`.
- `arrow.dfy` (`Arrow`): Arrow columns as values. A struct array is a row count plus an ordered list of named children, and `ColumnByName` is Arrow's first-match lookup.
- `outcome.dfy` (`Outcomes`): the emitted record (`Encoded`, `Field`) and the failure kinds:
  - one `SerError` per `error(...)` call site, with `Describe` giving the source's message text;
  - the two panics, `assert_eq!` and `todo!`;
  - the model-only `DepthExhausted`.
- `typed_value.dfy` (`TypedValue`):
  - the specification function `Encoding` and its parts `EncodeMembers`, `EncodeMember`, `ResolveColumn` and `EncodeColumn`;
  - the imperative `Serialize` method, written like the source, with a validation loop over the columns and a loop that appends one field per member;
  - `EncodeField`, the per-member dispatch, which recurses into `Serialize`.

  `Serialize` is proved to compute `Encoding`, and `EncodeField` to compute `EncodeColumn`.
- `properties.dfy` (`Properties`): what the encoder promises, stated over `Encoding`.

The unseen submodules `defaults`, `primitive`, `array` and `sequence` are the
fields of a `Collaborators` value: total functions that may succeed or fail.
Nothing else is assumed of them. Determinism of the encoder holds by
construction, because everything here is a function of its inputs.

## Model

| member | source | states |
|---|---|---|
| `Types.LookupMessage` | libraries/extensions/ros2-bridge/python/src/typed/serialize/mod.rs:28-41 | a descriptor is found exactly when the package is registered and holds the message, and it is the registered one; a missing package behaves like an empty one |
| `Arrow.ColumnByName` | libraries/extensions/ros2-bridge/python/src/typed/serialize/mod.rs:66-67 | the lookup finds nothing exactly when no column has the name, and otherwise returns the first column with that name |
| `Arrow.PermutationKeepsLookup` | libraries/extensions/ros2-bridge/python/src/typed/serialize/mod.rs:66-67 | with distinct column names, reordering the columns changes no lookup |
| `TypedValue.UnknownColumn` | libraries/extensions/ros2-bridge/python/src/typed/serialize/mod.rs:47-53 | there is no verdict exactly when every column is declared; otherwise the verdict is the first undeclared column in column order |
| `TypedValue.ExtractString` | libraries/extensions/ros2-bridge/python/src/typed/serialize/mod.rs:119-133 | a 32-bit or 64-bit offset string array of one element yields that element; another length panics on the length assertion; any other array is "expected string array" |
| `Outcomes.Decimal` | libraries/extensions/ros2-bridge/python/src/typed/serialize/mod.rs:58-62 | the row count in the multiple-instances message is rendered as decimal digits that denote exactly that count, with no leading zero except for 0 itself |
| `Outcomes.UnknownFieldTextNamesColumn` | libraries/extensions/ros2-bridge/python/src/typed/serialize/mod.rs:47-53 | the unknown-field text `Describe` renders (passed through `error`, mod.rs:178-184) identifies the column: two texts are equal exactly when the columns are |
| `Outcomes.RowCountTextNamesCount` | libraries/extensions/ros2-bridge/python/src/typed/serialize/mod.rs:58-62 | the multiple-instances text `Describe` renders identifies the row count: two texts are equal exactly when the counts are |
| `TypedValue.FailurePersists` | libraries/extensions/ros2-bridge/python/src/typed/serialize/mod.rs:65-173 | once a prefix of the members fails, the whole member walk fails with the same failure |
| `TypedValue.Serialize` | libraries/extensions/ros2-bridge/python/src/typed/serialize/mod.rs:23-176 | the imperative encoder, with its validation loop, early returns and field-appending loop, computes `Encoding` exactly |
| `TypedValue.EncodeField` | libraries/extensions/ros2-bridge/python/src/typed/serialize/mod.rs:79-172 | the dispatch on the member's type tag computes `EncodeColumn`: primitive wrapper, recursion for both reference kinds, namespace check, string arm, `todo!` for wide strings, array and sequence wrappers (the bounded sequence passes only its element type) |
| `Properties.ValidationOrder` | libraries/extensions/ros2-bridge/python/src/typed/serialize/mod.rs:28-63 | lookup failure, non-struct input, unknown field, empty input and multiple rows each fail with their own error, before anything is emitted and in this order; the unknown-field check comes before the row count |
| `Properties.UnknownFieldIsFirstUndeclared` | libraries/extensions/ros2-bridge/python/src/typed/serialize/mod.rs:47-57 | the unknown-field error names the first undeclared column, whatever the row count (also for an empty struct array) |
| `Properties.EncodeMembersAllOk` | libraries/extensions/ros2-bridge/python/src/typed/serialize/mod.rs:64-174 | the member walk succeeds if and only if every member encodes; then field `i` is member `i`'s value under the placeholder label, and there are exactly as many fields as members |
| `Properties.FirstFailureWins` | libraries/extensions/ros2-bridge/python/src/typed/serialize/mod.rs:65-173 | a failed walk fails with the failure of some member `k` such that every member before `k` encoded: the first error wins |
| `Properties.SuccessShape` | libraries/extensions/ros2-bridge/python/src/typed/serialize/mod.rs:54-174 | a success passed every check (exactly one row, every column declared) and is one struct under the placeholder name, declared with the member count, with one placeholder-labelled field per member in descriptor order |
| `Properties.FailureAtMember` | libraries/extensions/ros2-bridge/python/src/typed/serialize/mod.rs:65-173 | once validation passed and members before `k` encoded, a failing member `k` aborts the whole serialization with its own failure |
| `Properties.DefaultFailureAborts` | libraries/extensions/ros2-bridge/python/src/typed/serialize/mod.rs:66-77 | a missing member whose default cannot be synthesized aborts the serialization with the synthesizer's error |
| `Properties.NonMessageNamespaceRejected` | libraries/extensions/ros2-bridge/python/src/typed/serialize/mod.rs:101-107 | a cross-package reference outside the `msg` namespace fails with "references non-message type", naming the field and the reference |
| `Properties.WideStringsUnimplemented` | libraries/extensions/ros2-bridge/python/src/typed/serialize/mod.rs:136-139 | a `WString` or `BoundedWString` member reached with a resolved column ends in the `todo!` panic |
| `Properties.SameResolutionSameFields` | libraries/extensions/ros2-bridge/python/src/typed/serialize/mod.rs:65-77 | the fields depend on the input columns only through the column each member resolves to |
| `Properties.SameNamesSameUnknown` | libraries/extensions/ros2-bridge/python/src/typed/serialize/mod.rs:47-53 | two column lists with the same name lookups agree on whether any column is undeclared, in both directions |
| `Properties.ColumnOrderIrrelevant` | libraries/extensions/ros2-bridge/python/src/typed/serialize/mod.rs:47-77 | struct arrays with the same row count and the same name lookups serialize alike, except that with undeclared columns each may name a different first one |
| `Properties.PermutedColumnsSameEncoding` | libraries/extensions/ros2-bridge/python/src/typed/serialize/mod.rs:47-77 | permuting the distinctly named columns of the input does not change the output, except which undeclared column an unknown-field rejection names |
| `Properties.LookupAfterAppend` | libraries/extensions/ros2-bridge/python/src/typed/serialize/mod.rs:66-67 | appending a column changes only the lookup of its own name, and only when that name was absent |
| `Properties.UnknownAfterAppend` | libraries/extensions/ros2-bridge/python/src/typed/serialize/mod.rs:47-53 | appending a declared column leaves the unknown-field verdict unchanged |
| `Properties.DefaultEquivalence` | libraries/extensions/ros2-bridge/python/src/typed/serialize/mod.rs:66-77 | leaving a member out serializes exactly like supplying its synthesized default as a column |
| `Properties.EncodingConforms` | libraries/extensions/ros2-bridge/python/src/typed/serialize/mod.rs:64-174 | every success matches its descriptor at every nesting level: a same-package reference is a struct of that package's message, a cross-package one is in `msg` and a struct of the referenced message, a narrow string is text and no wide string appears |
| `Properties.EncodingDepthStep` | libraries/extensions/ros2-bridge/python/src/typed/serialize/mod.rs:90-118 | one more level of recursion budget changes no outcome that did not run out of budget |
| `Properties.EncodeMembersDepthStep` | libraries/extensions/ros2-bridge/python/src/typed/serialize/mod.rs:65-173 | the same for the member walk |
| `Properties.EncodeMemberDepthStep` | libraries/extensions/ros2-bridge/python/src/typed/serialize/mod.rs:90-118 | the same for one member |
| `Properties.DepthAdequacy` | libraries/extensions/ros2-bridge/python/src/typed/serialize/mod.rs:90-118 | once the budget suffices, any larger budget gives the same outcome, so the budget never changes a terminating serialization |
| `Properties.PointWithDefaultZ` | libraries/extensions/ros2-bridge/python/src/typed/serialize/mod.rs:64-89 | `Point{x, y, z: float64}` given only `x` and `y` becomes three fields in declared order, the last from `z`'s synthesized default |
| `Properties.HeaderStringWidths` | libraries/extensions/ros2-bridge/python/src/typed/serialize/mod.rs:119-134 | a string column with 64-bit offsets serializes exactly like the same text with 32-bit offsets, as one text field |

## Left out

- The serde serializer is not modelled. `serialize_struct`, `serialize_field` and `end` are modelled as building an `Encoded` value, and errors raised by the byte-level serializer itself are left out. Errors and panics raised while serializing a field's value are modelled, and they propagate.
- Arrow internals (`as_struct_opt`, `as_string_opt`, `make_array`, offsets and buffers) are not modelled. Columns are plain values, and nothing requires a child column's length to match the struct's row count.
- The submodules `defaults`, `primitive`, `array` and `sequence` are not part of this model. They are arbitrary functions in `Collaborators`, and any checks they make on array lengths or sequence bounds are not modelled. This file checks no bound of a bounded sequence or bounded string.
- The source has no recursion guard for self-referencing message types. The model adds a `depth` budget that answers `DepthExhausted` when it runs out. `DepthAdequacy` shows that the budget never changes an outcome once it suffices.
- Panic messages are not modelled beyond their kind and the `todo!` text.
- The text of `DUMMY_STRUCT_NAME` and `DUMMY_FIELD_NAME` is defined in `typed/mod.rs`, which is not part of this model. The values here are stand-ins, and no property depends on them.
- Floating-point values are opaque scalars.
- Some behaviours of the code are easy to misread, and the model keeps them as the code has them:
  - unknown columns are checked before the row count, so an empty or multi-row struct array with an undeclared column reports the unknown field (mod.rs:47-63);
  - a bounded sequence passes only its element type to the sequence wrapper, and this file checks no bound (mod.rs:162-171);
  - a wide string member ends in a `todo!` panic, not in an error (mod.rs:136-139);
  - a missing member's default is resolved before the type dispatch, so a failing default is reported before the namespace check or the `todo!` (mod.rs:66-77);
  - `column_by_name` takes the first column with a given name, so when two input columns share a name, swapping them changes the output (mod.rs:66). This is why `PermutedColumnsSameEncoding` requires distinct column names.
- Outcomes.DebugNamespaced: assumes that the derived `Debug` of `NamespacedType` prints the fields in the order package, namespace, name. That type is defined in the message generator crate, which is not part of this model. `Debug` escaping of quotes inside the strings is not modelled either.
- Outcomes.Describe: the texts of the message-not-found, non-message-reference and fixed-text errors have no lemma of their own. Lemmas show that the unknown-field and multiple-instances texts identify their payload.
- A member's declared default (`Member.default`) is carried but not interpreted. Only the default synthesizer reads it, and that synthesizer is an arbitrary function here.
- The leaf wrappers return a `LeafOutcome`, which excludes `DepthExhausted`. Only the model's own recursion budget can produce that failure.
