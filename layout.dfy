/** `GetFieldsFromType`: which members of a type become inspector entries, of which kind, at which
    indent level, and in which order (inline entries in member order, then one entry per button
    group). The functions below are the specification; the method is the source's loop. */
module Layout {
  import opened Descriptors
  import opened Classification
  import opened Fields

  /** What becomes of one member: no entry, an entry rejected with an error message, an entry in
      the main list, or a button filed under a group index. */
  datatype Placement =
    | Skipped
    | Rejected
    | Inline(entry: MemberField)
    | Grouped(group: int, button: MemberField)

  /** The type whose members an object-reference field would show: the element type for arrays. */
  function RealType(fieldType: TypeDesc): (r: TypeDesc)
    ensures r == fieldType || (IsArray(fieldType) && r == fieldType.element.value)
  {
    if IsArray(fieldType) then fieldType.element.value else fieldType
  }

  /** A class, or a value type that is neither an enum nor a primitive. */
  predicate IsComposite(t: TypeDesc)
  {
    t.isClass || (t.isValueType && !t.isEnum && !t.isPrimitive)
  }

  /** A field is shown as an object reference when it is editable and its element type is a
      composite type that carries the attribute itself. */
  predicate IsObjectReference(attribute: ShowInEditor, m: MemberDesc)
    requires m.Field?
  {
    !FieldIsReadOnly(attribute, m.isPublic)
    && IsComposite(RealType(m.fieldType))
    && RealType(m.fieldType).hasShowInEditor
  }

  /** Field entries declared at indent level 0 take the nesting level. */
  function WithIndent(f: MemberField, level: int): (r: MemberField)
    ensures r.attribute.indentLevel == (if f.attribute.indentLevel == 0 then level else f.attribute.indentLevel)
    ensures r.attribute.(indentLevel := 0) == f.attribute.(indentLevel := 0)
    ensures r.(attribute := f.attribute) == f
  {
    if f.attribute.indentLevel == 0 then SetIndentLevel(f, level) else f
  }

  /** The attribute with ReadOnly forced when the member's type is unknown. */
  function ForceReadOnlyIfUnknown(attribute: ShowInEditor, c: Lookup): ShowInEditor
  {
    if c.known then attribute else attribute.(flags := ReadOnly)
  }

  /** Placement of an attributed method: only parameterless methods are shown; a value-returning
      one is a read-only entry, a void one must be a button, inline without a group, else grouped. */
  function MethodPlacement(m: MemberDesc, attribute: ShowInEditor): Placement
    requires m.Method?
  {
    if m.parameterCount != 0 then Rejected
    else if m.returnType.name != VoidTypeName then Inline(MethodField(attribute, Generic, m))
    else if attribute.style != Button then Rejected
    else if attribute.group == NoGroup then Inline(MethodField(attribute, Generic, m))
    else Grouped(attribute.group, MethodField(attribute, Generic, m))
  }

  /** The group index and button of a member that goes into a button group. */
  function GroupedButton(m: MemberDesc): Option<(int, MemberField)>
  {
    if m.Method? && m.attribute.Some? then
      match MethodPlacement(m, m.attribute.value)
      case Grouped(g, b) => Some((g, b))
      case _ => None
    else None
  }

  /** Placement of member `i` of `t` when `t`'s entries are built at nesting level `level`. */
  function Place(t: TypeDesc, i: nat, level: int): Placement
    requires i < |t.members|
    decreases t, 0, 0
  {
    var m := t.members[i];
    match m.attribute
    case None => Skipped
    case Some(attribute) =>
      match m
      case Property(_, _, propertyType, canRead, _) =>
        if !canRead || IsArray(propertyType) then Skipped
        else
          var c := GetSerializedTypeFromType(propertyType);
          Inline(PropertyField(ForceReadOnlyIfUnknown(attribute, c), c.kind, m))
      case Field(_, _, fieldType, _) =>
        if IsObjectReference(attribute, m) then
          var nested := FieldsFromType(RealType(fieldType), level + 1);
          Inline(WithIndent(
            if IsArray(fieldType) then ArrayObjectReferenceField(attribute, ObjectReference, m, nested)
            else ObjectReferenceField(attribute, ObjectReference, m, nested), level))
        else
          var c := GetSerializedTypeFromType(fieldType);
          var a := ForceReadOnlyIfUnknown(attribute, c);
          Inline(WithIndent(
            if IsArray(fieldType) then ArrayFieldField(a, c.kind, m) else FieldField(a, c.kind, m), level))
      case Method(_, _, _, _) => MethodPlacement(m, attribute)
      case Other(_, _) => Skipped
  }

  /** The main-list entries of the first `n` members, in member order. */
  function InlinePrefix(t: TypeDesc, n: nat, level: int): seq<MemberField>
    requires n <= |t.members|
    decreases t, 1, n
  {
    if n == 0 then []
    else
      InlinePrefix(t, n - 1, level) +
      match Place(t, n - 1, level)
      case Inline(f) => [f]
      case _ => []
  }

  /** The distinct group indices of the grouped buttons among `ms`, in order of first appearance
      (the order in which the dictionary receives its keys). */
  function GroupKeys(ms: seq<MemberDesc>): seq<int>
    decreases |ms|
  {
    if ms == [] then []
    else
      var keys := GroupKeys(ms[..|ms| - 1]);
      match GroupedButton(ms[|ms| - 1])
      case Some((g, _)) => if g in keys then keys else keys + [g]
      case None => keys
  }

  /** The button member `m` contributes to group `g`: none, or its method entry. */
  function ButtonOf(m: MemberDesc, g: int): seq<MemberField>
  {
    match GroupedButton(m)
    case Some((g', b)) => if g' == g then [b] else []
    case None => []
  }

  /** The buttons of group `g` among `ms`, in member order. */
  function Buttons(ms: seq<MemberDesc>, g: int): seq<MemberField>
    decreases |ms|
  {
    if ms == [] then []
    else
      Buttons(ms[..|ms| - 1], g) + ButtonOf(ms[|ms| - 1], g)
  }

  /** Exactly the indices that have buttons are keys, each once. */
  lemma {:induction false} GroupKeysExact(ms: seq<MemberDesc>)
    ensures forall g :: g in GroupKeys(ms) <==> Buttons(ms, g) != []
    ensures forall j1, j2 :: 0 <= j1 < j2 < |GroupKeys(ms)| ==> GroupKeys(ms)[j1] != GroupKeys(ms)[j2]
    decreases |ms|
  {
    if ms != [] {
      GroupKeysExact(ms[..|ms| - 1]);
    }
  }

  /** Every button of group `g` is a void, parameterless Button method entry whose attribute
      carries the index `g`. */
  lemma {:induction false} ButtonsShareGroup(ms: seq<MemberDesc>, g: int)
    ensures forall b :: b in Buttons(ms, g) ==>
      b.MethodField? && b.kind == Generic && b.attribute.group == g && b.attribute.style == Button
      && b.info.Method? && b.info.parameterCount == 0 && b.info.returnType.name == VoidTypeName
    decreases |ms|
  {
    if ms != [] {
      ButtonsShareGroup(ms[..|ms| - 1], g);
    }
  }

  /** One button-group entry per key, in key order. */
  function GroupEntries(ms: seq<MemberDesc>): (r: seq<MemberField>)
    ensures |r| == |GroupKeys(ms)|
    ensures forall j :: 0 <= j < |r| ==>
      |Buttons(ms, GroupKeys(ms)[j])| > 0 && r[j] == NewButtonGroupField(Buttons(ms, GroupKeys(ms)[j]))
  {
    var keys := GroupKeys(ms);
    GroupKeysExact(ms);
    seq(|keys|, j requires 0 <= j < |keys| => NewButtonGroupField(Buttons(ms, keys[j])))
  }

  /** The entries of type `t` at nesting level `level`. */
  function FieldsFromType(t: TypeDesc, level: int): seq<MemberField>
    decreases t, 2, 0
  {
    InlinePrefix(t, |t.members|, level) + GroupEntries(t.members)
  }

  /** Appending a member to a member list extends its group keys and its groups by that member's
      grouped button, if it has one. */
  lemma {:induction false} GroupsAppend(p: seq<MemberDesc>, m: MemberDesc)
    ensures GroupKeys(p + [m]) ==
      match GroupedButton(m)
      case Some((g, _)) => if g in GroupKeys(p) then GroupKeys(p) else GroupKeys(p) + [g]
      case None => GroupKeys(p)
    ensures forall g :: Buttons(p + [m], g) == Buttons(p, g) + ButtonOf(m, g)
  {
    assert (p + [m])[..|p|] == p;
  }

  /** The dictionary of button lists, with its keys in insertion order, holds exactly the groups
      of the members seen so far. */
  ghost predicate GroupsCollected(buttonFields: map<int, seq<MemberField>>, groupOrder: seq<int>,
                                  seen: seq<MemberDesc>)
  {
    groupOrder == GroupKeys(seen)
    && (forall g :: g in buttonFields <==> g in groupOrder)
    && (forall g :: g in buttonFields ==> buttonFields[g] == Buttons(seen, g))
  }

  /** A member that is no grouped button leaves the collected groups as they are. */
  lemma GroupsUnchanged(buttonFields: map<int, seq<MemberField>>, groupOrder: seq<int>,
                        seen: seq<MemberDesc>, m: MemberDesc)
    requires GroupsCollected(buttonFields, groupOrder, seen)
    requires GroupedButton(m).None?
    ensures GroupsCollected(buttonFields, groupOrder, seen + [m])
  {
    GroupsAppend(seen, m);
    assert forall g :: ButtonOf(m, g) == [];
  }

  /** Files a button under group `g`: looks the group's list up, creating and registering an
      empty one when the key is new, and appends the button. */
  method AddToGroup(buttonFields: map<int, seq<MemberField>>, groupOrder: seq<int>,
                    ghost seen: seq<MemberDesc>, m: MemberDesc, g: int, b: MemberField)
    returns (buttonFields': map<int, seq<MemberField>>, groupOrder': seq<int>)
    requires GroupsCollected(buttonFields, groupOrder, seen)
    requires GroupedButton(m) == Some((g, b))
    ensures GroupsCollected(buttonFields', groupOrder', seen + [m])
    ensures g in buttonFields' && buttonFields'[g] != []
  {
    GroupsAppend(seen, m);
    GroupKeysExact(seen);
    buttonFields', groupOrder' := buttonFields, groupOrder;
    if g !in buttonFields' {
      buttonFields' := buttonFields'[g := []];
      groupOrder' := groupOrder' + [g];
    }
    buttonFields' := buttonFields'[g := buttonFields'[g] + [b]];
  }

  /** The entry for an attributed, readable, non-array property `t.members[i]`: its attribute is
      forced read-only when the property's type is unknown. */
  method PropertyEntry(t: TypeDesc, i: nat, level: int) returns (pf: MemberField)
    requires i < |t.members| && t.members[i].Property? && t.members[i].attribute.Some?
    requires t.members[i].canRead && !IsArray(t.members[i].propertyType)
    ensures Place(t, i, level) == Inline(pf)
  {
    var member := t.members[i];
    var attribute := member.attribute.value;
    var c := GetSerializedTypeFromType(member.propertyType);
    if !c.known {
      attribute := attribute.(flags := ReadOnly);
    }
    pf := PropertyField(attribute, c.kind, member);
  }

  /** Appends one button-group entry per collected group, in the dictionary's key order. */
  method AppendGroups(fields: seq<MemberField>, buttonFields: map<int, seq<MemberField>>,
                      groupOrder: seq<int>, ghost ms: seq<MemberDesc>)
    returns (fields': seq<MemberField>)
    requires GroupsCollected(buttonFields, groupOrder, ms)
    ensures fields' == fields + GroupEntries(ms)
  {
    GroupKeysExact(ms);
    fields' := fields;
    for j := 0 to |groupOrder|
      invariant fields' == fields + GroupEntries(ms)[..j]
    {
      var g := groupOrder[j];
      assert g in buttonFields && buttonFields[g] == Buttons(ms, g);
      fields' := fields' + [NewButtonGroupField(buttonFields[g])];
      assert GroupEntries(ms)[..j + 1] == GroupEntries(ms)[..j] + [NewButtonGroupField(Buttons(ms, g))];
    }
    assert GroupEntries(ms)[..|groupOrder|] == GroupEntries(ms);
  }

  /** The entry the source builds for an attributed field `t.members[i]`: an object reference
      holding the referenced type's entries one level deeper, or a plain or array field whose
      attribute is forced read-only when the type is unknown; then the indent level. */
  method FieldEntry(t: TypeDesc, i: nat, level: int) returns (mf: MemberField)
    requires i < |t.members| && t.members[i].Field? && t.members[i].attribute.Some?
    ensures Place(t, i, level) == Inline(mf)
    decreases t, 0
  {
    var member := t.members[i];
    var attribute := member.attribute.value;
    var realType := member.fieldType;
    if IsArray(realType) {
      realType := member.fieldType.element.value;
    }
    var isObjectRef := !FieldIsReadOnly(attribute, member.isPublic);
    isObjectRef := isObjectRef &&
      (realType.isClass || (realType.isValueType && !realType.isEnum && !realType.isPrimitive));
    if isObjectRef {
      isObjectRef := isObjectRef && realType.hasShowInEditor;
    }
    assert isObjectRef == IsObjectReference(attribute, member);
    if isObjectRef {
      var memberFields := GetFieldsFromType(realType, level + 1);
      if !IsArray(member.fieldType) {
        mf := ObjectReferenceField(attribute, ObjectReference, member, memberFields);
      } else {
        mf := ArrayObjectReferenceField(attribute, ObjectReference, member, memberFields);
      }
    } else {
      var c := GetSerializedTypeFromType(member.fieldType);
      if !c.known {
        attribute := attribute.(flags := ReadOnly);
      }
      if !IsArray(member.fieldType) {
        mf := FieldField(attribute, c.kind, member);
      } else {
        mf := ArrayFieldField(attribute, c.kind, member);
      }
    }
    if mf.attribute.indentLevel == 0 {
      mf := SetIndentLevel(mf, level);
    }
  }

  /** The source's loop: members in order, inline entries appended to a list, grouped buttons
      collected in a dictionary keyed by group index, the groups appended at the end. */
  method GetFieldsFromType(t: TypeDesc, level: int) returns (result: seq<MemberField>)
    ensures result == FieldsFromType(t, level)
    decreases t, 1
  {
    var fields: seq<MemberField> := [];
    var buttonFields: map<int, seq<MemberField>> := map[];
    var groupOrder: seq<int> := [];  // the dictionary's keys in insertion order
    for i := 0 to |t.members|
      invariant fields == InlinePrefix(t, i, level)
      invariant GroupsCollected(buttonFields, groupOrder, t.members[..i])
    {
      var member := t.members[i];
      assert t.members[..i + 1] == t.members[..i] + [member];
      GroupsAppend(t.members[..i], member);
      if GroupedButton(member).None? {
        GroupsUnchanged(buttonFields, groupOrder, t.members[..i], member);
      }
      if member.attribute.Some? {
        var attribute := member.attribute.value;
        if member.Property? {
          if !member.canRead {
            continue;
          }
          if IsArray(member.propertyType) {
            continue;
          }
          var pf := PropertyEntry(t, i, level);
          fields := fields + [pf];
        } else if member.Field? {
          var mf := FieldEntry(t, i, level);
          fields := fields + [mf];
        } else if member.Method? {
          if member.parameterCount == 0 {
            if member.returnType.name != VoidTypeName {
              fields := fields + [MethodField(attribute, Generic, member)];
            } else if attribute.style == Button {
              if attribute.group == NoGroup {
                fields := fields + [MethodField(attribute, Generic, member)];
              } else {
                buttonFields, groupOrder :=
                  AddToGroup(buttonFields, groupOrder, t.members[..i], member, attribute.group,
                             MethodField(attribute, Generic, member));
              }
            }
            // otherwise the member is rejected with an error message
          }
          // otherwise the member is rejected with an error message
        }
      }
    }
    assert t.members[..|t.members|] == t.members;
    fields := AppendGroups(fields, buttonFields, groupOrder, t.members);
    result := fields;
  }
}
