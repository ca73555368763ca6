/** What GetFieldsFromType promises about the entries it builds: which members give none, how
    fields become object references, that unknown types are never editable, how buttons are placed,
    and the order and shape of the resulting list. */
module LayoutProperties {
  import opened Descriptors
  import opened Classification
  import opened Fields
  import opened Layout

  /** A member gives no entry exactly when it lacks the attribute, is no field, property or method,
      or is a property that cannot be read or has an array type; it is rejected with an error
      message exactly when it is an attributed method with parameters, or a void one whose style
      is not Button. */
  lemma {:induction false} SkippedOrRejected(t: TypeDesc, i: nat, level: int)
    requires i < |t.members|
    ensures var m := t.members[i];
      Place(t, i, level).Skipped? <==>
        m.attribute.None? || m.Other? || (m.Property? && (!m.canRead || IsArray(m.propertyType)))
    ensures var m := t.members[i];
      Place(t, i, level).Rejected? <==>
        m.attribute.Some? && m.Method?
        && (m.parameterCount != 0 || (m.returnType.name == VoidTypeName && m.attribute.value.style != Button))
  {
  }

  /** A readable, non-array property of unknown type, or a field of unknown type that is not an
      object reference, gets the ReadOnly flag and so an entry that is read-only; a known type
      keeps the declared flags. */
  lemma {:induction false} UnknownTypeIsReadOnly(t: TypeDesc, i: nat, level: int)
    requires i < |t.members|
    requires t.members[i].attribute.Some?
    requires var m := t.members[i];
      (m.Property? && m.canRead && !IsArray(m.propertyType))
      || (m.Field? && !IsObjectReference(m.attribute.value, m))
    ensures Place(t, i, level).Inline?
    ensures var m := t.members[i];
      var declared := if m.Property? then m.propertyType else m.fieldType;
      var f := Place(t, i, level).entry;
      f.kind == GetSerializedTypeFromType(declared).kind
      && (!GetSerializedTypeFromType(declared).known ==> f.attribute.flags == ReadOnly && IsReadOnly(f))
      && (GetSerializedTypeFromType(declared).known ==> f.attribute.flags == m.attribute.value.flags)
  {
  }

  /** An attributed field becomes an object-reference entry exactly when IsObjectReference holds;
      then it is of ObjectReference kind, holds the referenced type's entries built one level deeper
      and is editable. It takes the array form exactly when the field's type is an array, and its
      indent level is the nesting level when the attribute declares 0. */
  lemma {:induction false} FieldEntryShape(t: TypeDesc, i: nat, level: int)
    requires i < |t.members|
    requires t.members[i].Field? && t.members[i].attribute.Some?
    ensures Place(t, i, level).Inline?
    ensures var m := t.members[i];
      var a := m.attribute.value;
      var f := Place(t, i, level).entry;
      IsFieldEntry(f) && f.info == m
      && ((f.ObjectReferenceField? || f.ArrayObjectReferenceField?) <==> IsObjectReference(a, m))
      && ((f.ArrayFieldField? || f.ArrayObjectReferenceField?) <==> IsArray(m.fieldType))
      && f.attribute.indentLevel == (if a.indentLevel == 0 then level else a.indentLevel)
  {
  }

  /** The nested entries and the editability of an object-reference entry. */
  lemma {:induction false} ObjectReferenceEntry(t: TypeDesc, i: nat, level: int)
    requires i < |t.members|
    requires t.members[i].Field? && t.members[i].attribute.Some?
    requires IsObjectReference(t.members[i].attribute.value, t.members[i])
    ensures Place(t, i, level).Inline?
    ensures var m := t.members[i];
      var f := Place(t, i, level).entry;
      (f.ObjectReferenceField? || f.ArrayObjectReferenceField?)
      && f.kind == ObjectReference
      && f.members == FieldsFromType(RealType(m.fieldType), level + 1)
      && !IsReadOnly(f)
  {
  }

  /** Parameterless attributed methods: one returning a value is an inline read-only entry; a void
      Button method is inline when it has no group and filed under its group otherwise. */
  lemma {:induction false} MethodEntries(t: TypeDesc, i: nat, level: int)
    requires i < |t.members|
    requires t.members[i].Method? && t.members[i].attribute.Some? && t.members[i].parameterCount == 0
    ensures var m := t.members[i];
      var a := m.attribute.value;
      var b := MethodField(a, Generic, m);
      (m.returnType.name != VoidTypeName ==> Place(t, i, level) == Inline(b) && IsReadOnly(b))
      && (m.returnType.name == VoidTypeName && a.style == Button ==>
            Place(t, i, level) == if a.group == NoGroup then Inline(b) else Grouped(a.group, b))
  {
  }

  /** No button group is ever placed in the main list. */
  lemma {:induction false} InlineHasNoGroups(t: TypeDesc, n: nat, level: int)
    requires n <= |t.members|
    ensures forall f :: f in InlinePrefix(t, n, level) ==> !f.ButtonGroupField?
  {
    if n > 0 {
      InlineHasNoGroups(t, n - 1, level);
    }
  }

  /** The main-list entries of fewer members are a prefix of those of more members. */
  lemma {:induction false} InlinePrefixGrows(t: TypeDesc, n: nat, n': nat, level: int)
    requires n <= n' <= |t.members|
    ensures InlinePrefix(t, n, level) <= InlinePrefix(t, n', level)
    decreases n' - n
  {
    if n < n' {
      InlinePrefixGrows(t, n, n' - 1, level);
    }
  }

  /** An inline member's entry sits in the result right after the entries of the members before
      it, so inline entries appear in member order. */
  lemma {:induction false} InlineInMemberOrder(t: TypeDesc, i: nat, level: int)
    requires i < |t.members| && Place(t, i, level).Inline?
    ensures |InlinePrefix(t, i, level)| < |FieldsFromType(t, level)|
    ensures FieldsFromType(t, level)[|InlinePrefix(t, i, level)|] == Place(t, i, level).entry
  {
    InlinePrefixGrows(t, i + 1, |t.members|, level);
    assert InlinePrefix(t, i + 1, level) == InlinePrefix(t, i, level) + [Place(t, i, level).entry];
  }

  /** A grouped button is among the buttons of its group. */
  lemma {:induction false} GroupedButtonCollected(ms: seq<MemberDesc>, i: nat, g: int, b: MemberField)
    requires i < |ms| && GroupedButton(ms[i]) == Some((g, b))
    ensures b in Buttons(ms, g)
    decreases |ms|
  {
    if i < |ms| - 1 {
      GroupedButtonCollected(ms[..|ms| - 1], i, g, b);
    }
  }

  /** All button groups come after every other entry, and there are as many groups as distinct
      group indices. */
  lemma {:induction false} GroupsComeLast(t: TypeDesc, level: int)
    ensures var r := FieldsFromType(t, level);
      forall j1, j2 :: 0 <= j1 < j2 < |r| && r[j1].ButtonGroupField? ==> r[j2].ButtonGroupField?
    ensures |FieldsFromType(t, level)| == |InlinePrefix(t, |t.members|, level)| + |GroupKeys(t.members)|
  {
    var inline := InlinePrefix(t, |t.members|, level);
    var r := FieldsFromType(t, level);
    InlineHasNoGroups(t, |t.members|, level);
    forall j | 0 <= j < |inline|
      ensures !r[j].ButtonGroupField?
    {
      assert r[j] == inline[j];
    }
  }

  /** Each group entry of the list is the group of the key at its position among the groups. */
  lemma {:induction false} GroupEntryAt(t: TypeDesc, level: int, k: nat)
    requires k < |GroupKeys(t.members)|
    ensures var r := FieldsFromType(t, level);
      var j := |InlinePrefix(t, |t.members|, level)| + k;
      j < |r| && r[j].ButtonGroupField? && r[j].attribute.group == GroupKeys(t.members)[k]
      && r[j].buttons == Buttons(t.members, GroupKeys(t.members)[k])
  {
    var keys := GroupKeys(t.members);
    var groups := GroupEntries(t.members);
    ButtonsShareGroup(t.members, keys[k]);
    assert groups[k].buttons[0] in groups[k].buttons;
  }

  /** Each group is non-empty, takes its first button's attribute and holds only button entries
      of its own index; no two groups share an index. */
  lemma {:induction false} GroupsWellFormed(t: TypeDesc, level: int)
    ensures var r := FieldsFromType(t, level);
      forall j :: 0 <= j < |r| && r[j].ButtonGroupField? ==>
        |r[j].buttons| > 0 && r[j].attribute == r[j].buttons[0].attribute
        && forall b :: b in r[j].buttons ==> b.MethodField? && b.attribute.group == r[j].attribute.group
    ensures var r := FieldsFromType(t, level);
      forall j1, j2 :: 0 <= j1 < j2 < |r| && r[j1].ButtonGroupField? && r[j2].ButtonGroupField? ==>
        r[j1].attribute.group != r[j2].attribute.group
  {
    var inline := InlinePrefix(t, |t.members|, level);
    var keys := GroupKeys(t.members);
    var r := FieldsFromType(t, level);
    InlineHasNoGroups(t, |t.members|, level);
    GroupKeysExact(t.members);
    forall j | 0 <= j < |r| && r[j].ButtonGroupField?
      ensures |inline| <= j && r[j].attribute.group == keys[j - |inline|]
      ensures forall b :: b in r[j].buttons ==> b.MethodField? && b.attribute.group == r[j].attribute.group
    {
      GroupEntryAt(t, level, j - |inline|);
      ButtonsShareGroup(t.members, keys[j - |inline|]);
    }
  }

  /** Every grouped button member ends up in the group of its index. */
  lemma {:induction false} GroupsComplete(t: TypeDesc, level: int, i: nat, g: int, b: MemberField)
    requires i < |t.members| && GroupedButton(t.members[i]) == Some((g, b))
    ensures var r := FieldsFromType(t, level);
      exists j :: 0 <= j < |r| && r[j].ButtonGroupField? && r[j].attribute.group == g && b in r[j].buttons
  {
    var keys := GroupKeys(t.members);
    GroupedButtonCollected(t.members, i, g, b);
    GroupKeysExact(t.members);
    var k :| 0 <= k < |keys| && keys[k] == g;
    GroupEntryAt(t, level, k);
  }
}
