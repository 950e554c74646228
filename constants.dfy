/**
 * Constant-pool tags and the constant kinds this decoder understands
 * (constants.go), following section 4.4 of The Java Virtual Machine
 * Specification and its table of constant-pool tags.
 */
module Constants {
  import opened Types

  // The tag byte that opens every constant-pool entry.
  const TagClass: U1 := 7
  const TagFieldref: U1 := 9
  const TagMethodref: U1 := 10
  const TagInterfaceMethodref: U1 := 11
  const TagString: U1 := 8
  const TagInteger: U1 := 3
  const TagFloat: U1 := 4
  const TagLong: U1 := 5
  const TagDouble: U1 := 6
  const TagNameAndType: U1 := 12
  const TagUtf8: U1 := 1
  const TagMethodHandle: U1 := 15
  const TagMethodType: U1 := 16
  const TagDynamic: U1 := 17
  const TagInvokeDynamic: U1 := 18
  const TagModule: U1 := 19
  const TagPackage: U1 := 20

  /** Every tag the format defines, in the order the source declares them. */
  const KnownTags: seq<U1> := [TagClass, TagFieldref, TagMethodref, TagInterfaceMethodref, TagString,
                               TagInteger, TagFloat, TagLong, TagDouble, TagNameAndType, TagUtf8,
                               TagMethodHandle, TagMethodType, TagDynamic, TagInvokeDynamic,
                               TagModule, TagPackage]

  /** The tags of the seven kinds that are pool constants here. */
  const SupportedTags: set<U1> := {TagClass, TagFieldref, TagMethodref, TagInterfaceMethodref,
                                   TagString, TagNameAndType, TagUtf8}

  /**
   * A pool constant. Only the seven kinds with a Tag() method in the source
   * are pool constants; the numeric, method-handle, method-type, dynamic,
   * module and package kinds are declared there but never decoded. Every
   * kind holds pool indices or inline text, never a resolved reference.
   */
  datatype PoolConstant =
    | Class(nameIndex: U2)
    | FieldRef(classIndex: U2, nameAndTypeIndex: U2)
    | MethodRef(classIndex: U2, nameAndTypeIndex: U2)
    | InterfaceMethodRef(classIndex: U2, nameAndTypeIndex: U2)
    | StringRef(stringIndex: U2)
    | NameAndType(nameIndex: U2, descriptorIndex: U2)
    | Utf8(str: string)
  {
    function Tag(): (t: U1)
      ensures t in SupportedTags
    {
      match this
      case Class(_) => TagClass
      case FieldRef(_, _) => TagFieldref
      case MethodRef(_, _) => TagMethodref
      case InterfaceMethodRef(_, _) => TagInterfaceMethodref
      case StringRef(_) => TagString
      case NameAndType(_, _) => TagNameAndType
      case Utf8(_) => TagUtf8
    }
  }

  /** The pool, indexed from 1; slot 0 is never filled. */
  type ConstantPool = seq<Option<PoolConstant>>

  /**
   * The text of the Utf8 constant at `index`. An index past the pool, the
   * empty slot 0, or a constant of another kind is an InvalidReference
   * (where the source's type assertion would panic).
   */
  function Utf8Text(pool: ConstantPool, index: U2): (r: Result<string>)
    ensures r.Ok? <==> index as int < |pool| && pool[index].Some? && pool[index].value.Utf8?
    ensures r.Ok? ==> pool[index] == Some(Utf8(r.value))
    ensures r.Err? ==> r.error == InvalidReference(index)
  {
    if index as int < |pool| && pool[index].Some? && pool[index].value.Utf8? then
      Ok(pool[index].value.str)
    else
      Err(InvalidReference(index))
  }

  /** The seventeen tags are pairwise distinct, so a tag byte names one kind. */
  lemma KnownTagsDistinct()
    ensures |KnownTags| == 17
    ensures forall i, j :: 0 <= i < j < |KnownTags| ==> KnownTags[i] != KnownTags[j]
  {
  }

  /** Tag() tells the seven kinds apart: two constants with the same tag
      are of the same kind. */
  lemma TagDeterminesKind(a: PoolConstant, b: PoolConstant)
    requires a.Tag() == b.Tag()
    ensures a.Class? == b.Class? && a.FieldRef? == b.FieldRef? && a.MethodRef? == b.MethodRef?
    ensures a.InterfaceMethodRef? == b.InterfaceMethodRef? && a.StringRef? == b.StringRef?
    ensures a.NameAndType? == b.NameAndType? && a.Utf8? == b.Utf8?
  {
  }
}
