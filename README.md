# ShowInEditor: the inspector's decision layer

ShowInEditor is an editor extension for Unity. A developer puts the `[ShowInEditor]` attribute on
fields, properties and methods of a component. The extension then builds inspector entries for
them by reflection. This project models the part of `Assets/Plugins/AU/Editor/ShowInEditor.cs`
that decides what is shown and how. Drawing is not modelled. The modelled part is:

- **Widget-kind classification** (`Classification`). A runtime type is checked in this order:
  enum, Unity object, array (decided by its element type), then lookup in a fixed table of
  14 types. "Unity object" means a strict subclass of `UnityEngine.Object`, as `IsSubclassOf`
  answers. A member declared as `UnityEngine.Object` itself is therefore of unknown type, gets the
  Integer kind and is forced read-only.
- **Read-only rules** (`Fields`). There is one rule each for fields, properties and methods. Each
  entry's `IsReadOnly` dispatches to its rule. The module also holds the display-name rule and
  the button-group constructor.
- **`ValueRange`** (`ValueRanges`). It creates the clamping range when the attribute first needs
  it and caches it in the attribute's `Range` slot.
- **The `Length` accessors of an array field** (`ArrayLength`). The setter allocates a new array
  and copies over the common prefix.
- **`GetFieldsFromType`** (`Layout`, `LayoutProperties`). It walks the members of a type. Each
  member is skipped, rejected, made into an entry, or filed as a button under a group index. For
  a field that refers to an attributed composite type, the walk recurses into that type one
  indent level deeper. Button groups are appended after all other entries.

Reflection is replaced by descriptor datatypes (`Descriptors`). `TypeDesc` gives a type's full
name, its kind flags, its element type if it is an array, whether the type itself carries the
attribute, and its members. `MemberDesc` is one of: a field, a property, a method, or another
kind of member. Each member carries the first `ShowInEditor` attribute it has, if any.

The layout is specified by functions: `Place`, `InlinePrefix`, `GroupKeys`, `Buttons` and
`FieldsFromType`. The method `Layout.GetFieldsFromType` keeps the source's loop. It appends
entries to a list, fills a map from group index to button list, and records the map's keys in
insertion order. It is proved equal to `FieldsFromType`, and the properties are lemmas about
that function.

Entries and attributes are values. The source writes `Flags` and `IndentLevel` into the
attribute instance. .NET's `GetCustomAttributes` returns a fresh instance on every call, so only
the entry that owns the instance can see those writes. A value copy held in the entry therefore
behaves the same way.

## Model

| member | source | states |
|---|---|---|
| `Classification.GetSerializedTypeFromType` | Assets/Plugins/AU/Editor/ShowInEditor.cs:271-289 | Enum types give (true, Enum). Other Unity-object types give (true, ObjectReference). A known type never gets Generic. An unknown type returns false and its kind is Integer, the value a failed dictionary lookup leaves in the out-parameter |
| `Classification.ClassifiedByLeaf` | Assets/Plugins/AU/Editor/ShowInEditor.cs:252-289 | A type is classified like the type left after stripping its array layers. So it is known iff that leaf type is an enum, a Unity object, or a key of the 14-entry table |
| `Classification.BaseUnityObjectIsUnknown` | Assets/Plugins/AU/Editor/ShowInEditor.cs:279-283 | The Unity-object test is a strict subclass test. A non-array type named `UnityEngine.Object` whose descriptor is not a strict subclass is unknown and keeps the Integer kind |
| `Classification.ArrayClassifiedAsElement` | Assets/Plugins/AU/Editor/ShowInEditor.cs:284-287 | An array that is neither an enum nor a Unity object is classified exactly as its element type |
| `Fields.FieldIsReadOnly` | Assets/Plugins/AU/Editor/ShowInEditor.cs:384-389 | A field is read-only iff its flag is ReadOnly, or its flag is Default and it is not public. ReadWrite always makes it editable |
| `Fields.PropertyIsReadOnly` | Assets/Plugins/AU/Editor/ShowInEditor.cs:333-336 | A property is editable iff its flag is not ReadOnly and it has a setter |
| `Fields.MethodIsReadOnly` | Assets/Plugins/AU/Editor/ShowInEditor.cs:486-489 | A method is always read-only |
| `Fields.IsReadOnly` | Assets/Plugins/AU/Editor/ShowInEditor.cs:391-394 | An entry's `IsReadOnly()` follows its class's rule (overrides at lines 338-341, 391-394 and 491-494). Method entries and button groups are always read-only |
| `Fields.SetIndentLevel` | Assets/Plugins/AU/Editor/ShowInEditor.cs:219-223 | The `IndentLevel` setter changes the indent level of the entry's attribute and nothing else |
| `Fields.NewButtonGroupField` | Assets/Plugins/AU/Editor/ShowInEditor.cs:511-516 | Needs at least one button. It keeps the buttons, has kind Generic, and takes its attribute from the first button |
| `Fields.GetName` | Assets/Plugins/AU/Editor/ShowInEditor.cs:247-250 | The display name is the attribute prefix, then the name prefix, then the explicit name if it is non-empty, else the nicified member name |
| `Fields.ExplicitNameHidesMemberName` | Assets/Plugins/AU/Editor/ShowInEditor.cs:249 | With an explicit name, the display name does not depend on the member's own name |
| `ValueRanges.CachedRange` | Assets/Plugins/AU/Editor/ShowInEditor.cs:207-215 | A cached range is returned as it is. With no cached range and RangeMin ≠ RangeMax, the range (RangeMin, RangeMax) is returned. Otherwise there is none |
| `ValueRanges.CachedRangeIdempotent` | Assets/Plugins/AU/Editor/ShowInEditor.cs:211-213 | After the answer is cached, asking again gives the same answer |
| `ValueRanges.AttributeHolder.ValueRange` | Assets/Plugins/AU/Editor/ShowInEditor.cs:207-215 | Returns `CachedRange` of the attribute and stores it in the Range slot. Nothing else in the attribute changes |
| `ValueRanges.ValueRangeTwice` | Assets/Plugins/AU/Editor/ShowInEditor.cs:207-215 | Two reads in a row return the same range |
| `ArrayLength.Resized` | Assets/Plugins/AU/Editor/ShowInEditor.cs:421-423 | A resized array has exactly n elements. Slot k holds the old element k if one exists, else the element type's default |
| `ArrayLength.ResizedToSameLength` | Assets/Plugins/AU/Editor/ShowInEditor.cs:419 | Resizing to the current length gives back the same contents |
| `ArrayLength.GrowThenShrink` | Assets/Plugins/AU/Editor/ShowInEditor.cs:421-423 | Growing an array and then shrinking it back restores the original contents |
| `ArrayLength.ResizedKeepsPrefix` | Assets/Plugins/AU/Editor/ShowInEditor.cs:422-423 | The first min(old, new) elements survive a resize |
| `ArrayLength.ArrayFieldField.Length` | Assets/Plugins/AU/Editor/ShowInEditor.cs:409-415 | The getter returns the element count, or 0 for a null array |
| `ArrayLength.ArrayFieldField.SetLength` | Assets/Plugins/AU/Editor/ShowInEditor.cs:416-426 | A null array makes the read of its count throw, and nothing is written. If the count is unchanged, the same array stays. If the count is negative, the allocation throws and nothing is written. Otherwise a fresh array of exactly that length holds `Resized` of the old contents |
| `Layout.WithIndent` | Assets/Plugins/AU/Editor/ShowInEditor.cs:1051-1054 | A field entry whose indent level is 0 gets the current nesting level. Any other level is kept. The entry's class, kind, member, nested entries and the rest of its attribute are unchanged |
| `Layout.IsObjectReference` | Assets/Plugins/AU/Editor/ShowInEditor.cs:1007-1021 | Reference definition of the object-reference test: editable, and the element type is an attributed class or non-enum, non-primitive struct. `LayoutProperties.FieldEntryShape` and `LayoutProperties.ObjectReferenceEntry` state what it decides |
| `Layout.ForceReadOnlyIfUnknown` | Assets/Plugins/AU/Editor/ShowInEditor.cs:994-998 | Reference definition of the ReadOnly override for an unknown type, used for properties here and for fields at lines 1039-1043. `LayoutProperties.UnknownTypeIsReadOnly` states its effect |
| `Layout.MethodPlacement` | Assets/Plugins/AU/Editor/ShowInEditor.cs:1059-1092 | Reference definition of where an attributed method goes. `LayoutProperties.MethodEntries` and `LayoutProperties.SkippedOrRejected` state its cases |
| `Layout.Place` | Assets/Plugins/AU/Editor/ShowInEditor.cs:976-1092 | Reference definition of the decision the loop makes for one member. `LayoutProperties.SkippedOrRejected`, `UnknownTypeIsReadOnly`, `FieldEntryShape`, `ObjectReferenceEntry` and `MethodEntries` state its properties |
| `Layout.GroupKeys` | Assets/Plugins/AU/Editor/ShowInEditor.cs:1077-1083 | Reference definition of the dictionary's keys in insertion order. `Layout.GroupKeysExact` states that they are exactly the indices with buttons, each once |
| `Layout.Buttons` | Assets/Plugins/AU/Editor/ShowInEditor.cs:1077-1083 | Reference definition of the dictionary's button list for one index. `Layout.ButtonsShareGroup` and `LayoutProperties.GroupsComplete` state its contents |
| `Layout.FieldsFromType` | Assets/Plugins/AU/Editor/ShowInEditor.cs:1097-1101 | Reference definition of the method's result: inline entries, then the groups. `LayoutProperties.InlineInMemberOrder`, `GroupsComeLast`, `GroupEntryAt`, `GroupsWellFormed` and `GroupsComplete` state its properties |
| `Layout.PropertyEntry` | Assets/Plugins/AU/Editor/ShowInEditor.cs:992-1000 | A readable, non-array attributed property becomes the entry that `Place` specifies |
| `Layout.FieldEntry` | Assets/Plugins/AU/Editor/ShowInEditor.cs:1005-1057 | An attributed field becomes the entry that `Place` specifies. This covers the recursive object-reference case |
| `Layout.AddToGroup` | Assets/Plugins/AU/Editor/ShowInEditor.cs:1077-1083 | Filing a button keeps the map and its key order equal to the groups of the members seen so far. After filing, the button's group is non-empty |
| `Layout.AppendGroups` | Assets/Plugins/AU/Editor/ShowInEditor.cs:1097-1100 | Appends one button-group entry per collected group, in key order |
| `Layout.GetFieldsFromType` | Assets/Plugins/AU/Editor/ShowInEditor.cs:969-1102 | The loop returns exactly `FieldsFromType`: the inline entries in member order, then one group entry per distinct group index |
| `Layout.GroupKeysExact` | Assets/Plugins/AU/Editor/ShowInEditor.cs:1077-1082 | A group index is a key iff it has at least one button. No key is repeated |
| `Layout.ButtonsShareGroup` | Assets/Plugins/AU/Editor/ShowInEditor.cs:1069-1084 | Every button in group g is an entry for a parameterless void method with Button style and group g |
| `Layout.GroupEntries` | Assets/Plugins/AU/Editor/ShowInEditor.cs:1097-1100 | There is one group entry per key, and the group for each key is non-empty |
| `LayoutProperties.SkippedOrRejected` | Assets/Plugins/AU/Editor/ShowInEditor.cs:976-1092 | A member gives no entry iff it lacks the attribute, is an unreadable or array-typed property, or is not a field, property or method. It is rejected iff it is a method with parameters, or a void method whose style is not Button |
| `LayoutProperties.UnknownTypeIsReadOnly` | Assets/Plugins/AU/Editor/ShowInEditor.cs:994-1043 | A property or non-reference field whose type is unknown gets the ReadOnly flag, so its entry is read-only. A known type keeps its declared flags. The entry's kind is the classification of the declared type |
| `LayoutProperties.FieldEntryShape` | Assets/Plugins/AU/Editor/ShowInEditor.cs:1007-1056 | An attributed field becomes an object-reference entry iff it is editable and its element type is an attributed class or non-enum, non-primitive struct. It takes the array form iff its declared type is an array. Its indent is the nesting level when the declared level is 0 |
| `LayoutProperties.ObjectReferenceEntry` | Assets/Plugins/AU/Editor/ShowInEditor.cs:1016-1036 | An object-reference entry has kind ObjectReference and is editable. It holds the referenced type's entries built at level + 1 |
| `LayoutProperties.MethodEntries` | Assets/Plugins/AU/Editor/ShowInEditor.cs:1063-1085 | A parameterless method that returns a value is an inline read-only entry. A void Button method is inline when its group is -1 and is filed under its group otherwise |
| `LayoutProperties.InlineHasNoGroups` | Assets/Plugins/AU/Editor/ShowInEditor.cs:976-1095 | No button group is ever among the inline entries |
| `LayoutProperties.InlineInMemberOrder` | Assets/Plugins/AU/Editor/ShowInEditor.cs:976-1057 | An inline member's entry comes right after the entries of the members before it |
| `LayoutProperties.GroupsComeLast` | Assets/Plugins/AU/Editor/ShowInEditor.cs:1097-1101 | Every group comes after every non-group entry. The number of groups equals the number of distinct group indices |
| `LayoutProperties.GroupEntryAt` | Assets/Plugins/AU/Editor/ShowInEditor.cs:1097-1100 | The k-th group entry holds exactly the buttons of the k-th key, and its attribute carries that key |
| `LayoutProperties.GroupsWellFormed` | Assets/Plugins/AU/Editor/ShowInEditor.cs:1071-1101 | Every group is non-empty, which the constructor's read of `_buttons[0]` needs. Each group shares its first button's attribute and holds only buttons of its own index. No two groups share an index |
| `LayoutProperties.GroupsComplete` | Assets/Plugins/AU/Editor/ShowInEditor.cs:1075-1084 | Every grouped button ends up in the group of its index |

## Left out

- Drawing is not modelled. This covers the `Draw*` functions, the layout calls, foldouts, help boxes and colours (`EditorColors`, `UnityColor`), and the `AUEditor<T>` lifecycle. They are host UI.
- Reflective value access is not modelled: `GetValue`, `SetValue`, `Invoke`, `Rebind`, `BindRefernecedObject` and `GetFieldType`. The object a member field is bound to is not tracked either. `ArrayLength.ArrayFieldField` holds the field's array itself instead of reaching it through reflection.
- The `GetSerializedType` wrappers of the entry classes are not modelled separately. Each passes one type to the classification: the member's declared type, or for `ArrayFieldField` (lines 440-443) its element type. The model classifies the declared type, and `Classification.ArrayClassifiedAsElement` shows that an array is classified as its element type, so both give the same result. `GetFields(obj)` only calls `GetFieldsFromType` on the object's runtime type.
- Comment text, comment type, colours, `CanModifyArrayLength` and `CompactArrayLayout` are carried or dropped without being used. They only affect drawing.
- Floating point is not modelled: `RangeMin`, `RangeMax` and the range bounds are reals. NaN, which compares unequal to itself, and the clamping and sliders are left out.
- `ObjectNames.NicifyVariableName` is Unity code. `Fields.GetName` takes it as a function parameter.
- `Debug.LogError` is modelled only as the `Rejected` placement. The message itself is left out.
- The source does not check for cycles when it recurses into referenced types. A self-referencing attributed class would make it recurse forever. `TypeDesc` is an inductive datatype, so every type graph here is finite and acyclic, and that case cannot be expressed.
- .NET does not specify the enumeration order of `Dictionary.Values`. The model uses key insertion order, which is what the runtime does when nothing is removed.
- Type identity is the type's full name. `void` is `System.Void`.
- The exceptions the `Length` setter throws (a `NullReferenceException` for a null array, reachable from the unguarded call at lines 876-877, and the allocation's exception for a negative count) are modelled only as the `SetLengthOutcome` it returns.
