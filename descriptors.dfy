/** Descriptors that stand in for .NET reflection: the ShowInEditor attribute as declared on a
    member, the types and members the inspector discovers, and the widget kinds of the
    editor's serialized-property type system. */
module Descriptors {

  datatype Option<+T> = None | Some(value: T)

  /** Access mode requested by the attribute; Default means "editable iff public" for fields. */
  datatype ShowInEditorFlags = Default | ReadOnly | ReadWrite

  /** Widget style; Button only applies to methods, Slider only to numbers. */
  datatype ShowInEditorStyle = DefaultStyle | Button | Slider

  /** Clamping interval for numeric fields (`ShowInEditorRange`); floats are modelled as reals. */
  datatype ShowInEditorRange = ShowInEditorRange(min: real, max: real)

  /** The values an attribute instance holds. `range` is the cache slot that ValueRange fills in.
      Comment text, comment type and colours only affect drawing and are not modelled. */
  datatype ShowInEditor = ShowInEditor(
    flags: ShowInEditorFlags,
    name: string,
    prefix: string,
    canModifyArrayLength: bool,
    compactArrayLayout: bool,
    style: ShowInEditorStyle,
    rangeMin: real,
    rangeMax: real,
    range: Option<ShowInEditorRange>,
    group: int,
    indentLevel: int)

  /** The button group index meaning "no group". */
  const NoGroup: int := -1

  /** The widget kinds of the editor's serialized-property type system that the inspector uses. */
  datatype SerializedType =
    | Generic | Integer | Boolean | Float | String | Color | ObjectReference | Enum
    | Vector2 | Vector3 | Vector4 | Rect | AnimationCurve | Bounds | Gradient | Quaternion

  /** The value a failed dictionary lookup leaves in its out-parameter: the enum's zero value,
      which is Integer (Generic is -1 in the editor's enumeration). */
  const LookupDefault: SerializedType := Integer

  /** A runtime type as reflection shows it. `name` is the type's identity (its full name);
      `isUnityObject` says the type is a strict subclass of UnityEngine.Object (so it is false for
      UnityEngine.Object itself, as `IsSubclassOf` answers); `element` is Some exactly for array
      types; `hasShowInEditor` says the type itself carries the attribute; `members` are the
      instance and static, public and non-public members that GetMembers returns, in the order it
      returns them, which is taken as given. Being an inductive datatype, every type graph here is
      finite and acyclic. */
  datatype TypeDesc = TypeDesc(
    name: string,
    isEnum: bool,
    isUnityObject: bool,
    isClass: bool,
    isValueType: bool,
    isPrimitive: bool,
    element: Option<TypeDesc>,
    hasShowInEditor: bool,
    members: seq<MemberDesc>)

  /** A member as reflection shows it, with the first ShowInEditor attribute it carries, if any.
      `Other` covers constructors, events and nested types. */
  datatype MemberDesc =
    | Field(name: string, attribute: Option<ShowInEditor>, fieldType: TypeDesc, isPublic: bool)
    | Property(name: string, attribute: Option<ShowInEditor>, propertyType: TypeDesc,
               canRead: bool, canWrite: bool)
    | Method(name: string, attribute: Option<ShowInEditor>, returnType: TypeDesc, parameterCount: nat)
    | Other(name: string, attribute: Option<ShowInEditor>)

  /** Full name of `void`, the return type of methods that return nothing. */
  const VoidTypeName: string := "System.Void"

  predicate IsArray(t: TypeDesc) { t.element.Some? }
}
