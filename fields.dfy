/** The inspector entries (`MemberField` and its subclasses) as values, with the read-only rules
    and the display name that every entry answers. */
module Fields {
  import opened Descriptors

  /** One inspector entry. `attribute` is the attribute instance the entry owns, `kind` the widget
      kind it is drawn with, `info` the member it reads and writes. Object-reference entries carry
      the entries of the referenced type; a button group carries its buttons and shares the first
      button's attribute. */
  datatype MemberField =
    | PropertyField(attribute: ShowInEditor, kind: SerializedType, info: MemberDesc)
    | FieldField(attribute: ShowInEditor, kind: SerializedType, info: MemberDesc)
    | ArrayFieldField(attribute: ShowInEditor, kind: SerializedType, info: MemberDesc)
    | ObjectReferenceField(attribute: ShowInEditor, kind: SerializedType, info: MemberDesc,
                           members: seq<MemberField>)
    | ArrayObjectReferenceField(attribute: ShowInEditor, kind: SerializedType, info: MemberDesc,
                                members: seq<MemberField>)
    | MethodField(attribute: ShowInEditor, kind: SerializedType, info: MemberDesc)
    | ButtonGroupField(attribute: ShowInEditor, kind: SerializedType, buttons: seq<MemberField>)

  /** The button-group entry. Its constructor reads the first button's attribute, so it needs at
      least one button. */
  function NewButtonGroupField(buttons: seq<MemberField>): (r: MemberField)
    requires |buttons| > 0
    ensures r.ButtonGroupField? && r.buttons == buttons && r.kind == Generic
    ensures r.attribute == buttons[0].attribute
  {
    ButtonGroupField(buttons[0].attribute, Generic, buttons)
  }

  /** The `IndentLevel` setter: writes the level into the entry's attribute and changes nothing else. */
  function SetIndentLevel(f: MemberField, level: int): (r: MemberField)
    ensures r.attribute == f.attribute.(indentLevel := level)
    ensures r.(attribute := f.attribute) == f
  {
    f.(attribute := f.attribute.(indentLevel := level))
  }

  /** Read-only rule for fields: under Default flags a field is editable iff it is public;
      otherwise only the ReadOnly flag makes it read-only. */
  function FieldIsReadOnly(attribute: ShowInEditor, isPublic: bool): (r: bool)
    ensures r <==> attribute.flags == ReadOnly || (attribute.flags == Default && !isPublic)
    ensures attribute.flags == ReadWrite ==> !r
  {
    if attribute.flags == Default then !isPublic else attribute.flags == ReadOnly
  }

  /** Read-only rule for properties: the ReadOnly flag or a missing setter. */
  function PropertyIsReadOnly(attribute: ShowInEditor, canWrite: bool): (r: bool)
    ensures !r <==> attribute.flags != ReadOnly && canWrite
  {
    attribute.flags == ReadOnly || !canWrite
  }

  /** Read-only rule for methods: always. */
  function MethodIsReadOnly(attribute: ShowInEditor): (r: bool)
    ensures r
  {
    true
  }

  /** Entries of FieldField or one of its subclasses. */
  predicate IsFieldEntry(f: MemberField) {
    f.FieldField? || f.ArrayFieldField? || f.ObjectReferenceField? || f.ArrayObjectReferenceField?
  }

  /** `IsReadOnly()` of an entry, dispatched on its class as the overrides do. */
  function IsReadOnly(f: MemberField): (r: bool)
    ensures (f.MethodField? || f.ButtonGroupField?) ==> r
    ensures f.PropertyField? && f.info.Property? ==> (r <==> PropertyIsReadOnly(f.attribute, f.info.canWrite))
    ensures IsFieldEntry(f) && f.info.Field? ==> (r <==> FieldIsReadOnly(f.attribute, f.info.isPublic))
  {
    match f
    case PropertyField(a, _, info) =>
      if info.Property? then PropertyIsReadOnly(a, info.canWrite) else true
    case FieldField(a, _, info) =>
      if info.Field? then FieldIsReadOnly(a, info.isPublic) else true
    case ArrayFieldField(a, _, info) =>
      if info.Field? then FieldIsReadOnly(a, info.isPublic) else true
    case ObjectReferenceField(a, _, info, _) =>
      if info.Field? then FieldIsReadOnly(a, info.isPublic) else true
    case ArrayObjectReferenceField(a, _, info, _) =>
      if info.Field? then FieldIsReadOnly(a, info.isPublic) else true
    case MethodField(a, _, _) => MethodIsReadOnly(a)
    case ButtonGroupField(a, _, _) => MethodIsReadOnly(a)
  }

  /** Display name: the attribute's prefix, then the entry's name prefix, then the explicit name
      when one is given, else the member name as `nicify` (the editor's name beautifier) shows it. */
  function GetName(attribute: ShowInEditor, namePrefix: string, memberName: string,
                   nicify: string -> string): (r: string)
    ensures |r| >= |attribute.prefix| + |namePrefix|
    ensures r[..|attribute.prefix|] == attribute.prefix
    ensures r[|attribute.prefix|..|attribute.prefix| + |namePrefix|] == namePrefix
    ensures |attribute.name| > 0 ==> r[|attribute.prefix| + |namePrefix|..] == attribute.name
    ensures |attribute.name| == 0 ==> r[|attribute.prefix| + |namePrefix|..] == nicify(memberName)
  {
    attribute.prefix + namePrefix + (if |attribute.name| > 0 then attribute.name else nicify(memberName))
  }

  /** The explicit name, when given, makes the display name independent of the member's name. */
  lemma {:induction false} ExplicitNameHidesMemberName(attribute: ShowInEditor, namePrefix: string,
                                                       m1: string, m2: string, nicify: string -> string)
    requires |attribute.name| > 0
    ensures GetName(attribute, namePrefix, m1, nicify) == GetName(attribute, namePrefix, m2, nicify)
  {
  }
}
