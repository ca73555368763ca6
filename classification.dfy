/** Which editor widget kind a runtime type is drawn with (`MemberField.GetSerializedTypeFromType`). */
module Classification {
  import opened Descriptors

  /** Outcome of a classification: whether the type is known, and the kind left in the out-parameter. */
  datatype Lookup = Lookup(known: bool, kind: SerializedType)

  /** The fixed table from full type names to widget kinds. */
  const TypeMap: map<string, SerializedType> := map[
    "System.Int32" := Integer,
    "System.Single" := Float,
    "System.Boolean" := Boolean,
    "System.Double" := Float,
    "System.String" := String,
    "UnityEngine.Vector2" := Vector2,
    "UnityEngine.Vector3" := Vector3,
    "UnityEngine.Vector4" := Vector4,
    "UnityEngine.Quaternion" := Quaternion,
    "UnityEngine.Rect" := Rect,
    "UnityEngine.Bounds" := Bounds,
    "UnityEngine.Color" := Color,
    "UnityEngine.AnimationCurve" := AnimationCurve,
    "UnityEngine.Gradient" := Gradient
  ]

  /** Enum first, then Unity objects, then arrays by their element type, then the table.
      A known type never gets Generic; an unknown one keeps the lookup's default. */
  function GetSerializedTypeFromType(t: TypeDesc): (r: Lookup)
    ensures t.isEnum ==> r == Lookup(true, Enum)
    ensures !t.isEnum && t.isUnityObject ==> r == Lookup(true, ObjectReference)
    ensures r.known ==> r.kind != Generic
    ensures !r.known ==> r.kind == LookupDefault
    decreases t
  {
    if t.isEnum then Lookup(true, Enum)
    else if t.isUnityObject then Lookup(true, ObjectReference)
    else if t.element.Some? then GetSerializedTypeFromType(t.element.value)
    else if t.name in TypeMap then Lookup(true, TypeMap[t.name])
    else Lookup(false, LookupDefault)
  }

  /** Reference definition: peel the array layers that are neither enums nor Unity objects. */
  function Leaf(t: TypeDesc): (r: TypeDesc)
    ensures r.isEnum || r.isUnityObject || !IsArray(r)
    decreases t
  {
    if t.isEnum || t.isUnityObject || t.element.None? then t else Leaf(t.element.value)
  }

  /** Reference definition of how a type that is no array is classified. */
  function ClassifyLeaf(t: TypeDesc): Lookup
  {
    if t.isEnum then Lookup(true, Enum)
    else if t.isUnityObject then Lookup(true, ObjectReference)
    else if t.name in TypeMap then Lookup(true, TypeMap[t.name])
    else Lookup(false, LookupDefault)
  }

  /** An array is classified exactly as its element type. */
  lemma {:induction false} ArrayClassifiedAsElement(t: TypeDesc)
    requires IsArray(t) && !t.isEnum && !t.isUnityObject
    ensures GetSerializedTypeFromType(t) == GetSerializedTypeFromType(t.element.value)
  {
  }

  /** `IsSubclassOf` is strict, so a type declared as UnityEngine.Object itself (whose descriptor
      has `isUnityObject` false) is not an object reference: it is unknown and keeps Integer. */
  lemma {:induction false} BaseUnityObjectIsUnknown(t: TypeDesc)
    requires t.name == "UnityEngine.Object" && !t.isEnum && !t.isUnityObject && !IsArray(t)
    ensures GetSerializedTypeFromType(t) == Lookup(false, Integer)
  {
  }

  /** Classification is that of the leaf type, so a type is known iff its leaf is an enum, a Unity
      object or a key of the table. */
  lemma {:induction false} ClassifiedByLeaf(t: TypeDesc)
    ensures GetSerializedTypeFromType(t) == ClassifyLeaf(Leaf(t))
    ensures GetSerializedTypeFromType(t).known <==>
      Leaf(t).isEnum || Leaf(t).isUnityObject || Leaf(t).name in TypeMap
    decreases t
  {
    if !t.isEnum && !t.isUnityObject && t.element.Some? {
      ClassifiedByLeaf(t.element.value);
    }
  }
}
