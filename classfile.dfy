/**
 * The class-file assembler (classfile.go), following section 4.1 of The
 * Java Virtual Machine Specification: the header, the constant pool
 * (section 4.4), the class's access flags and this/super indices, then the
 * interface, field (section 4.5), method (section 4.6) and attribute lists,
 * each preceded by its u2 count.
 */
module ClassFiles {
  import opened Types
  import opened Constants
  import opened Lists
  import opened Attributes

  datatype FieldInfo = FieldInfo(accessFlags: U2, nameIndex: U2, descriptorIndex: U2, attributes: seq<Attribute>)

  /** A method, with its name and descriptor text looked up in the pool and
      its first Code attribute, if any, kept aside. */
  datatype MethodInfo = MethodInfo(
    accessFlags: U2,
    nameIndex: U2,
    descriptorIndex: U2,
    attributes: seq<Attribute>,
    name: string,
    descriptor: string,
    code: Option<CodeBody>)

  /** The prefix fields and methods share: what readMethodOrFieldInfo returns. */
  datatype MemberHeader = MemberHeader(accessFlags: U2, nameIndex: U2, descriptorIndex: U2, attributes: seq<Attribute>)

  /** What follows the pool: the class's flags and indices and its four lists. */
  datatype ClassBody = ClassBody(
    accessFlags: U2,
    thisClass: U2,
    superClass: U2,
    interfaces: seq<U2>,
    fields: seq<FieldInfo>,
    methods: seq<MethodInfo>,
    attributes: seq<Attribute>)

  datatype ClassFile = ClassFile(
    magic: U4,
    minorVersion: U2,
    majorVersion: U2,
    constantPool: ConstantPool,
    accessFlags: U2,
    thisClass: U2,
    superClass: U2,
    interfaces: seq<U2>,
    fields: seq<FieldInfo>,
    methods: seq<MethodInfo>,
    attributes: seq<Attribute>)

  // ---------------------------------------------------------------------
  // Constant-pool entries
  // ---------------------------------------------------------------------

  /** The tag byte an entry at `p` starts with. A tag read that finds the
      input exhausted leaves 0, and its error is overwritten by the dispatch
      that follows, so it is reported as unsupported constant type 0. */
  function TagAt(s: seq<U1>, p: nat): (t: U1)
    ensures ParseU1(s, p).Ok? ==> t == ParseU1(s, p).value.0
    ensures ParseU1(s, p).Err? ==> t == 0
  {
    if p < |s| then s[p] else 0
  }

  /**
   * One constant-pool entry: a tag byte, then the layout the tag selects.
   * The index kinds read their u2 fields in declaration order; Utf8 reads
   * a u2 length and that many bytes of text. Any other tag is unsupported.
   */
  function ParseConstant(s: seq<U1>, p: nat): (r: Parsed<PoolConstant>)
    ensures r.Ok? ==> p < |s| && r.value.0.Tag() == s[p] && p + 3 <= r.value.1 <= |s|
    ensures r == Err(UnsupportedConstant(TagAt(s, p))) <==> TagAt(s, p) !in SupportedTags
    ensures r.Err? ==> r.error == ShortRead || r.error == UnsupportedConstant(TagAt(s, p))
  {
    var tag := TagAt(s, p);
    var p1 := p + 1;
    if tag == TagClass then
      var (nameIndex, q) :- ParseU2(s, p1);
      Ok((Class(nameIndex), q))
    else if tag == TagFieldref then
      var (classIndex, p2) :- ParseU2(s, p1);
      var (nameAndTypeIndex, q) :- ParseU2(s, p2);
      Ok((FieldRef(classIndex, nameAndTypeIndex), q))
    else if tag == TagMethodref then
      var (classIndex, p2) :- ParseU2(s, p1);
      var (nameAndTypeIndex, q) :- ParseU2(s, p2);
      Ok((MethodRef(classIndex, nameAndTypeIndex), q))
    else if tag == TagInterfaceMethodref then
      var (classIndex, p2) :- ParseU2(s, p1);
      var (nameAndTypeIndex, q) :- ParseU2(s, p2);
      Ok((InterfaceMethodRef(classIndex, nameAndTypeIndex), q))
    else if tag == TagString then
      var (stringIndex, q) :- ParseU2(s, p1);
      Ok((StringRef(stringIndex), q))
    else if tag == TagNameAndType then
      var (nameIndex, p2) :- ParseU2(s, p1);
      var (descriptorIndex, q) :- ParseU2(s, p2);
      Ok((NameAndType(nameIndex, descriptorIndex), q))
    else if tag == TagUtf8 then
      var (length, p2) :- ParseU2(s, p1);
      var (bytes, q) :- ParseBytes(s, p2, length as nat);
      Ok((Utf8(Text(bytes)), q))
    else
      Err(UnsupportedConstant(tag))
  }

  /** A pool slot filled by decoding one entry. */
  function PoolEntries(s: seq<U1>): (item: nat -> Parsed<Option<PoolConstant>>)
    ensures Advances(item)
  {
    p => var (c, q) :- ParseConstant(s, p); Ok((Some(c), q))
  }

  /** ParsePool once its count is known: what the loop that fills the
      pool must produce. */
  lemma PoolFromCount(s: seq<U1>, p: nat, count: U2)
    requires ParseU2(s, p) == Ok((count, p + 2))
    ensures count == 0 ==> ParsePool(s, p) == Ok(([], p + 2))
    ensures count > 0 ==>
              var slots := Repeat(PoolEntries(s), p + 2, count as nat - 1);
              ParsePool(s, p) == if slots.Ok? then Ok(([None] + slots.value.0, slots.value.1)) else Err(slots.error)
  {
  }

  /** A u2 count, then the entries for slots 1 to count - 1 in stream
      order; slot 0 is left empty. */
  function ParsePool(s: seq<U1>, p: nat): (r: Parsed<ConstantPool>)
    ensures r.Ok? ==> ParseU2(s, p).Ok? && |r.value.0| == ParseU2(s, p).value.0 as int
    ensures r.Ok? && |r.value.0| > 0 ==> r.value.0[0].None?
    ensures r.Ok? ==> p + 2 <= r.value.1
  {
    var (count, p1) :- ParseU2(s, p);
    if count == 0 then Ok(([], p1))
    else
      var (slots, q) :- Repeat(PoolEntries(s), p1, count as nat - 1);
      Ok(([None] + slots, q))
  }

  /** The bytes a writer of the format emits for a constant whose text, if
      any, is byte text of at most 65535 characters. */
  predicate Encodable(c: PoolConstant) {
    c.Utf8? ==> |c.str| < 0x1_0000 && IsByteText(c.str)
  }

  function EncodeConstant(c: PoolConstant): (b: seq<U1>)
    requires Encodable(c)
    ensures |b| >= 3 && b[0] == c.Tag()
  {
    match c
    case Class(nameIndex) => [TagClass] + EncodeU2(nameIndex)
    case FieldRef(classIndex, nameAndTypeIndex) => [TagFieldref] + EncodeU2(classIndex) + EncodeU2(nameAndTypeIndex)
    case MethodRef(classIndex, nameAndTypeIndex) => [TagMethodref] + EncodeU2(classIndex) + EncodeU2(nameAndTypeIndex)
    case InterfaceMethodRef(classIndex, nameAndTypeIndex) =>
      [TagInterfaceMethodref] + EncodeU2(classIndex) + EncodeU2(nameAndTypeIndex)
    case StringRef(stringIndex) => [TagString] + EncodeU2(stringIndex)
    case NameAndType(nameIndex, descriptorIndex) => [TagNameAndType] + EncodeU2(nameIndex) + EncodeU2(descriptorIndex)
    case Utf8(str) => [TagUtf8] + EncodeU2(|str| as U2) + TextBytes(str)
  }

  // ---------------------------------------------------------------------
  // Fields, methods and the class file
  // ---------------------------------------------------------------------

  /** Access flags, name index, descriptor index, then an attribute list. */
  function ParseMemberHeader(s: seq<U1>, p: nat, pool: ConstantPool, reg: Registry): (r: Parsed<MemberHeader>)
    ensures r.Ok? ==> p + 8 <= r.value.1 <= |s|
  {
    var (accessFlags, p1) :- ParseU2(s, p);
    var (nameIndex, p2) :- ParseU2(s, p1);
    var (descriptorIndex, p3) :- ParseU2(s, p2);
    var (attributes, q) :- ParseAttributes(s, p3, pool, reg);
    Ok((MemberHeader(accessFlags, nameIndex, descriptorIndex, attributes), q))
  }

  /** The shared prefix is the access flags, the name index and the
      descriptor index, each a u2 in that order, then the attribute list. */
  lemma MemberHeaderLayout(s: seq<U1>, p: nat, pool: ConstantPool, reg: Registry)
    requires ParseMemberHeader(s, p, pool, reg).Ok?
    ensures var (h, q) := ParseMemberHeader(s, p, pool, reg).value;
            && ParseU2(s, p) == Ok((h.accessFlags, p + 2))
            && ParseU2(s, p + 2) == Ok((h.nameIndex, p + 4))
            && ParseU2(s, p + 4) == Ok((h.descriptorIndex, p + 6))
            && ParseAttributes(s, p + 6, pool, reg) == Ok((h.attributes, q))
  {
  }

  /** A field is exactly the shared prefix. */
  function ParseField(s: seq<U1>, p: nat, pool: ConstantPool, reg: Registry): (r: Parsed<FieldInfo>)
    ensures r.Ok? <==> ParseMemberHeader(s, p, pool, reg).Ok?
    ensures r.Ok? ==> var (h, q) := ParseMemberHeader(s, p, pool, reg).value;
                      r.value == (FieldInfo(h.accessFlags, h.nameIndex, h.descriptorIndex, h.attributes), q)
  {
    var (h, q) :- ParseMemberHeader(s, p, pool, reg);
    Ok((FieldInfo(h.accessFlags, h.nameIndex, h.descriptorIndex, h.attributes), q))
  }

  /** The body of the first Code attribute in `attrs`, if there is one. */
  function FirstCode(attrs: seq<Attribute>): (c: Option<CodeBody>)
    ensures c.None? <==> forall i :: 0 <= i < |attrs| ==> !attrs[i].Code?
    ensures c.Some? ==> exists i :: 0 <= i < |attrs| && attrs[i] == Code(c.value) &&
                                    forall j :: 0 <= j < i ==> !attrs[j].Code?
  {
    if |attrs| == 0 then None
    else if attrs[0].Code? then Some(attrs[0].body)
    else
      var c := FirstCode(attrs[1..]);
      assert forall i :: 0 <= i < |attrs| - 1 ==> attrs[1..][i] == attrs[i + 1];
      c
  }

  /** A method: the shared prefix, its name and descriptor texts looked up
      in the pool, and its first Code attribute. */
  function ParseMethod(s: seq<U1>, p: nat, pool: ConstantPool, reg: Registry): (r: Parsed<MethodInfo>)
    ensures r.Ok? ==> ParseMemberHeader(s, p, pool, reg).Ok? && r.value.1 == ParseMemberHeader(s, p, pool, reg).value.1
  {
    var (h, q) :- ParseMemberHeader(s, p, pool, reg);
    var name :- Utf8Text(pool, h.nameIndex);
    var descriptor :- Utf8Text(pool, h.descriptorIndex);
    Ok((MethodInfo(h.accessFlags, h.nameIndex, h.descriptorIndex, h.attributes, name, descriptor,
                   FirstCode(h.attributes)), q))
  }

  function U2Entries(s: seq<U1>): (item: nat -> Parsed<U2>)
    ensures Advances(item)
  {
    p => ParseU2(s, p)
  }

  function FieldEntries(s: seq<U1>, pool: ConstantPool, reg: Registry): (item: nat -> Parsed<FieldInfo>)
    ensures Advances(item)
  {
    p => ParseField(s, p, pool, reg)
  }

  function MethodEntries(s: seq<U1>, pool: ConstantPool, reg: Registry): (item: nat -> Parsed<MethodInfo>)
    ensures Advances(item)
  {
    p => ParseMethod(s, p, pool, reg)
  }

  /**
   * A whole class file from `p`: the header, the pool, then the body, whose
   * fields, methods and attributes resolve names through the pool just
   * decoded. Bytes after the last attribute are not looked at.
   */
  function ParseClassFile(s: seq<U1>, p: nat, reg: Registry): (r: Parsed<ClassFile>)
    ensures r.Ok? ==> p + 24 <= r.value.1 <= |s|
  {
    var (magic, p1) :- ParseU4(s, p);
    var (minorVersion, p2) :- ParseU2(s, p1);
    var (majorVersion, p3) :- ParseU2(s, p2);
    var (pool, p4) :- ParsePool(s, p3);
    var (b, q) :- ParseClassBody(s, p4, pool, reg);
    Ok((ClassFile(magic, minorVersion, majorVersion, pool, b.accessFlags, b.thisClass, b.superClass,
                  b.interfaces, b.fields, b.methods, b.attributes), q))
  }

  /** Access flags, this class, super class, then the interface, field,
      method and attribute lists. */
  function ParseClassBody(s: seq<U1>, p: nat, pool: ConstantPool, reg: Registry): (r: Parsed<ClassBody>)
    ensures r.Ok? ==> p + 14 <= r.value.1 <= |s|
  {
    var (accessFlags, p1) :- ParseU2(s, p);
    var (thisClass, p2) :- ParseU2(s, p1);
    var (superClass, p3) :- ParseU2(s, p2);
    var (interfaces, p4) :- ParseCounted(s, U2Entries(s), p3);
    var (fields, p5) :- ParseCounted(s, FieldEntries(s, pool, reg), p4);
    var (methods, p6) :- ParseCounted(s, MethodEntries(s, pool, reg), p5);
    var (attributes, q) :- ParseAttributes(s, p6, pool, reg);
    Ok((ClassBody(accessFlags, thisClass, superClass, interfaces, fields, methods, attributes), q))
  }

  // ---------------------------------------------------------------------
  // Imperative view
  // ---------------------------------------------------------------------

  /** Reads one constant-pool entry (readConstantPool). The tag read's own
      error is never looked at: a missing tag reads as 0 and is dispatched
      like any other byte. */
  method ReadConstant(r: Reader) returns (res: Result<PoolConstant>)
    requires r.Valid()
    modifies r
    ensures r.Valid()
    ensures Mirrors(res, r.pos, ParseConstant(r.data, old(r.pos)))
  {
    var tag, _ := ReadU1(r);
    if tag == TagClass {
      var nameIndex, err := ReadU2(r);
      if err.Some? {
        return Err(err.value);
      }
      return Ok(Class(nameIndex));
    } else if tag == TagFieldref || tag == TagMethodref || tag == TagInterfaceMethodref || tag == TagNameAndType {
      var first, e1 := ReadU2(r);
      if e1.Some? {
        return Err(e1.value);
      }
      var second, e2 := ReadU2(r);
      if e2.Some? {
        return Err(e2.value);
      }
      if tag == TagFieldref {
        return Ok(FieldRef(first, second));
      } else if tag == TagMethodref {
        return Ok(MethodRef(first, second));
      } else if tag == TagInterfaceMethodref {
        return Ok(InterfaceMethodRef(first, second));
      }
      return Ok(NameAndType(first, second));
    } else if tag == TagString {
      var stringIndex, err := ReadU2(r);
      if err.Some? {
        return Err(err.value);
      }
      return Ok(StringRef(stringIndex));
    } else if tag == TagUtf8 {
      var length, err := ReadU2(r);
      if err.Some? {
        return Err(err.value);
      }
      var bytes := ReadRun(r, length as nat);
      if bytes.Err? {
        return Err(bytes.error);
      }
      return Ok(Utf8(Text(bytes.value)));
    }
    return Err(UnsupportedConstant(tag));
  }

  /** Reads the pool count and fills slots 1 to count - 1 in stream order,
      stopping at the first entry that fails. */
  method ReadPool(r: Reader) returns (res: Result<ConstantPool>)
    requires r.Valid()
    modifies r
    ensures r.Valid()
    ensures Mirrors(res, r.pos, ParsePool(r.data, old(r.pos)))
  {
    var cpCount, err := ReadU2(r);
    if err.Some? {
      return Err(err.value);
    }
    PoolFromCount(r.data, old(r.pos), cpCount);
    var pool := new Option<PoolConstant>[cpCount](_ => None);
    if cpCount == 0 {
      // No slot to fill: the loop would not run.
      assert pool[..] == [];
      return Ok(pool[..]);
    }
    var e := FillPool(r, pool);
    if e.Some? {
      return Err(e.value);
    }
    assert pool[..] == [None] + pool[1..];
    return Ok(pool[..]);
  }

  /** The loop of ReadPool: fills slots 1 to the end in stream order,
      stopping at the first entry that fails. */
  method FillPool(r: Reader, pool: array<Option<PoolConstant>>) returns (err: Option<DecodeError>)
    requires r.Valid() && pool.Length > 0
    modifies r, pool
    ensures r.Valid() && pool[0] == old(pool[0])
    ensures Mirrors(if err.None? then Ok(pool[1..]) else Err(err.value), r.pos,
                    Repeat(PoolEntries(r.data), old(r.pos), pool.Length - 1))
  {
    ghost var item := PoolEntries(r.data);
    ghost var start := r.pos;
    ghost var n: nat := pool.Length - 1;
    RepeatEnds(item, start, n, [], start);
    var i := 1;
    while i < pool.Length
      invariant r.Valid() && 1 <= i <= pool.Length && pool[0] == old(pool[0])
      invariant RepeatSoFar(item, start, n, pool[1..i], r.pos)
    {
      ghost var before := r.pos;
      ghost var done := pool[1..i];
      var c := ReadConstant(r);
      assert pool[1..i] == done;
      RepeatStep(item, start, n, done, before, if c.Ok? then Ok(Some(c.value)) else Err(c.error), r.pos);
      if c.Err? {
        return Some(c.error);
      }
      pool[i] := Some(c.value);
      assert pool[1..i + 1] == done + [Some(c.value)];
      i := i + 1;
    }
    assert pool[1..] == pool[1..i];
    RepeatEnds(item, start, n, pool[1..i], r.pos);
    return None;
  }

  /** Reads the interface count and that many u2 indices. */
  method ReadInterfaces(r: Reader) returns (res: Result<seq<U2>>)
    requires r.Valid()
    modifies r
    ensures r.Valid()
    ensures Mirrors(res, r.pos, ParseCounted(r.data, U2Entries(r.data), old(r.pos)))
  {
    var interfacesCount, err := ReadU2(r);
    if err.Some? {
      return Err(err.value);
    }
    var interfaces := new U2[interfacesCount](_ => 0);
    ghost var item := U2Entries(r.data);
    ghost var start := r.pos;
    RepeatEnds(item, start, interfacesCount as nat, [], start);
    var i := 0;
    while i < interfaces.Length
      invariant r.Valid() && 0 <= i <= interfaces.Length
      invariant RepeatSoFar(item, start, interfacesCount as nat, interfaces[..i], r.pos)
    {
      ghost var before := r.pos;
      ghost var done := interfaces[..i];
      var index, e := ReadU2(r);
      assert interfaces[..i] == done;
      RepeatStep(item, start, interfacesCount as nat, done, before, if e.None? then Ok(index) else Err(e.value), r.pos);
      if e.Some? {
        return Err(e.value);
      }
      interfaces[i] := index;
      assert interfaces[..i + 1] == done + [index];
      i := i + 1;
    }
    assert interfaces[..] == interfaces[..i];
    RepeatEnds(item, start, interfacesCount as nat, interfaces[..], r.pos);
    return Ok(interfaces[..]);
  }

  /** The prefix of a field or method (readMethodOrFieldInfo). */
  method ReadMemberHeader(r: Reader, pool: ConstantPool, reg: Registry) returns (res: Result<MemberHeader>)
    requires r.Valid()
    modifies r
    ensures r.Valid()
    ensures Mirrors(res, r.pos, ParseMemberHeader(r.data, old(r.pos), pool, reg))
  {
    var accessFlags, e1 := ReadU2(r);
    if e1.Some? {
      return Err(e1.value);
    }
    var nameIndex, e2 := ReadU2(r);
    if e2.Some? {
      return Err(e2.value);
    }
    var descriptorIndex, e3 := ReadU2(r);
    if e3.Some? {
      return Err(e3.value);
    }
    var attributes := ReadAttributes(r, pool, reg);
    if attributes.Err? {
      return Err(attributes.error);
    }
    return Ok(MemberHeader(accessFlags, nameIndex, descriptorIndex, attributes.value));
  }

  method ReadFieldInfo(r: Reader, pool: ConstantPool, reg: Registry) returns (res: Result<FieldInfo>)
    requires r.Valid()
    modifies r
    ensures r.Valid()
    ensures Mirrors(res, r.pos, ParseField(r.data, old(r.pos), pool, reg))
  {
    var h := ReadMemberHeader(r, pool, reg);
    if h.Err? {
      return Err(h.error);
    }
    return Ok(FieldInfo(h.value.accessFlags, h.value.nameIndex, h.value.descriptorIndex, h.value.attributes));
  }

  /** Scans `attrs` in order and stops at the first Code attribute. */
  method FirstCodeOf(attrs: seq<Attribute>) returns (code: Option<CodeBody>)
    ensures code == FirstCode(attrs)
  {
    code := None;
    var i := 0;
    while i < |attrs|
      invariant 0 <= i <= |attrs|
      invariant forall j :: 0 <= j < i ==> !attrs[j].Code?
    {
      if attrs[i].Code? {
        code := Some(attrs[i].body);
        break;
      }
      i := i + 1;
    }
  }

  method ReadMethodInfo(r: Reader, pool: ConstantPool, reg: Registry) returns (res: Result<MethodInfo>)
    requires r.Valid()
    modifies r
    ensures r.Valid()
    ensures Mirrors(res, r.pos, ParseMethod(r.data, old(r.pos), pool, reg))
  {
    var h := ReadMemberHeader(r, pool, reg);
    if h.Err? {
      return Err(h.error);
    }
    var name := Utf8Text(pool, h.value.nameIndex);
    if name.Err? {
      return Err(name.error);
    }
    var descriptor := Utf8Text(pool, h.value.descriptorIndex);
    if descriptor.Err? {
      return Err(descriptor.error);
    }
    var code := FirstCodeOf(h.value.attributes);
    return Ok(MethodInfo(h.value.accessFlags, h.value.nameIndex, h.value.descriptorIndex, h.value.attributes,
                         name.value, descriptor.value, code));
  }

  /** Reads the field count and that many fields. */
  method ReadFields(r: Reader, pool: ConstantPool, reg: Registry) returns (res: Result<seq<FieldInfo>>)
    requires r.Valid()
    modifies r
    ensures r.Valid()
    ensures Mirrors(res, r.pos, ParseCounted(r.data, FieldEntries(r.data, pool, reg), old(r.pos)))
  {
    var fieldsCount, err := ReadU2(r);
    if err.Some? {
      return Err(err.value);
    }
    var fields := new FieldInfo[fieldsCount](_ => FieldInfo(0, 0, 0, []));
    ghost var item := FieldEntries(r.data, pool, reg);
    ghost var start := r.pos;
    RepeatEnds(item, start, fieldsCount as nat, [], start);
    var i := 0;
    while i < fields.Length
      invariant r.Valid() && 0 <= i <= fields.Length
      invariant RepeatSoFar(item, start, fieldsCount as nat, fields[..i], r.pos)
    {
      ghost var before := r.pos;
      ghost var done := fields[..i];
      var f := ReadFieldInfo(r, pool, reg);
      assert fields[..i] == done;
      RepeatStep(item, start, fieldsCount as nat, done, before, f, r.pos);
      if f.Err? {
        return Err(f.error);
      }
      fields[i] := f.value;
      assert fields[..i + 1] == done + [f.value];
      i := i + 1;
    }
    assert fields[..] == fields[..i];
    RepeatEnds(item, start, fieldsCount as nat, fields[..], r.pos);
    return Ok(fields[..]);
  }

  /** Reads the method count and that many methods. */
  method ReadMethods(r: Reader, pool: ConstantPool, reg: Registry) returns (res: Result<seq<MethodInfo>>)
    requires r.Valid()
    modifies r
    ensures r.Valid()
    ensures Mirrors(res, r.pos, ParseCounted(r.data, MethodEntries(r.data, pool, reg), old(r.pos)))
  {
    var methodsCount, err := ReadU2(r);
    if err.Some? {
      return Err(err.value);
    }
    var methods := new MethodInfo[methodsCount](_ => MethodInfo(0, 0, 0, [], "", "", None));
    ghost var item := MethodEntries(r.data, pool, reg);
    ghost var start := r.pos;
    RepeatEnds(item, start, methodsCount as nat, [], start);
    var i := 0;
    while i < methods.Length
      invariant r.Valid() && 0 <= i <= methods.Length
      invariant RepeatSoFar(item, start, methodsCount as nat, methods[..i], r.pos)
    {
      ghost var before := r.pos;
      ghost var done := methods[..i];
      var m := ReadMethodInfo(r, pool, reg);
      assert methods[..i] == done;
      RepeatStep(item, start, methodsCount as nat, done, before, m, r.pos);
      if m.Err? {
        return Err(m.error);
      }
      methods[i] := m.value;
      assert methods[..i + 1] == done + [m.value];
      i := i + 1;
    }
    assert methods[..] == methods[..i];
    RepeatEnds(item, start, methodsCount as nat, methods[..], r.pos);
    return Ok(methods[..]);
  }

  /** Reads a whole class file (readClassFile), stopping at the first
      failure. The closing attribute list is the loop ReadAttributes runs. */
  method ReadClassFile(r: Reader, reg: Registry) returns (res: Result<ClassFile>)
    requires r.Valid()
    modifies r
    ensures r.Valid()
    ensures Mirrors(res, r.pos, ParseClassFile(r.data, old(r.pos), reg))
  {
    var magic, e1 := ReadU4(r);
    if e1.Some? {
      return Err(e1.value);
    }
    var minorVersion, e2 := ReadU2(r);
    if e2.Some? {
      return Err(e2.value);
    }
    var majorVersion, e3 := ReadU2(r);
    if e3.Some? {
      return Err(e3.value);
    }
    var pool := ReadPool(r);
    if pool.Err? {
      return Err(pool.error);
    }
    var accessFlags, e4 := ReadU2(r);
    if e4.Some? {
      return Err(e4.value);
    }
    var thisClass, e5 := ReadU2(r);
    if e5.Some? {
      return Err(e5.value);
    }
    var superClass, e6 := ReadU2(r);
    if e6.Some? {
      return Err(e6.value);
    }
    var interfaces := ReadInterfaces(r);
    if interfaces.Err? {
      return Err(interfaces.error);
    }
    var fields := ReadFields(r, pool.value, reg);
    if fields.Err? {
      return Err(fields.error);
    }
    var methods := ReadMethods(r, pool.value, reg);
    if methods.Err? {
      return Err(methods.error);
    }
    var attributes := ReadAttributes(r, pool.value, reg);
    if attributes.Err? {
      return Err(attributes.error);
    }
    return Ok(ClassFile(magic, minorVersion, majorVersion, pool.value, accessFlags, thisClass, superClass,
                        interfaces.value, fields.value, methods.value, attributes.value));
  }

  // ---------------------------------------------------------------------
  // Properties of constant-pool decoding
  // ---------------------------------------------------------------------

  /** Bytes `i` to `j` of a run `e` found at `p` are bytes p + i to p + j. */
  lemma SubRun(s: seq<U1>, p: nat, e: seq<U1>, i: nat, j: nat)
    requires p + |e| <= |s| && s[p..p + |e|] == e && i <= j <= |e|
    ensures s[p + i..p + j] == e[i..j]
  {
    forall m | 0 <= m < j - i
      ensures s[p + i..p + j][m] == e[i..j][m]
    {
      assert e[i + m] == s[p..p + |e|][i + m];
    }
  }

  /** Two u2 indices written one after the other read back in order. */
  lemma IndexPairRoundTrip(a: U2, b: U2, s: seq<U1>, p: nat)
    requires p + 4 <= |s| && s[p..p + 4] == EncodeU2(a) + EncodeU2(b)
    ensures ParseU2(s, p) == Ok((a, p + 2)) && ParseU2(s, p + 2) == Ok((b, p + 4))
  {
    SubRun(s, p, EncodeU2(a) + EncodeU2(b), 0, 2);
    SubRun(s, p, EncodeU2(a) + EncodeU2(b), 2, 4);
    U2RoundTrip(a, s, p);
    U2RoundTrip(b, s, p + 2);
  }

  /** A constant holding one u2 index reads back from its three bytes. */
  lemma OneIndexRoundTrip(c: PoolConstant, s: seq<U1>, p: nat)
    requires c.Class? || c.StringRef?
    requires p + 3 <= |s| && s[p..p + 3] == EncodeConstant(c)
    ensures ParseConstant(s, p) == Ok((c, p + 3))
  {
    var e := EncodeConstant(c);
    assert s[p] == e[0];
    SubRun(s, p, e, 1, 3);
    if c.Class? {
      U2RoundTrip(c.nameIndex, s, p + 1);
    } else {
      U2RoundTrip(c.stringIndex, s, p + 1);
    }
  }

  /** A constant holding two u2 indices reads back from its five bytes. */
  lemma TwoIndexRoundTrip(c: PoolConstant, s: seq<U1>, p: nat)
    requires c.FieldRef? || c.MethodRef? || c.InterfaceMethodRef? || c.NameAndType?
    requires p + 5 <= |s| && s[p..p + 5] == EncodeConstant(c)
    ensures ParseConstant(s, p) == Ok((c, p + 5))
  {
    var e := EncodeConstant(c);
    assert s[p] == e[0];
    SubRun(s, p, e, 1, 5);
    if c.NameAndType? {
      IndexPairRoundTrip(c.nameIndex, c.descriptorIndex, s, p + 1);
    } else {
      IndexPairRoundTrip(c.classIndex, c.nameAndTypeIndex, s, p + 1);
    }
  }

  /** A Utf8 constant reads back from its length and text bytes. */
  lemma Utf8RoundTrip(str: string, s: seq<U1>, p: nat)
    requires Encodable(Utf8(str))
    requires p + 3 + |str| <= |s| && s[p..p + 3 + |str|] == EncodeConstant(Utf8(str))
    ensures ParseConstant(s, p) == Ok((Utf8(str), p + 3 + |str|))
  {
    var e := EncodeConstant(Utf8(str));
    assert s[p] == e[0];
    assert e[1..3] == EncodeU2(|str| as U2) && e[3..] == TextBytes(str);
    SubRun(s, p, e, 1, 3);
    SubRun(s, p, e, 3, |e|);
    U2RoundTrip(|str| as U2, s, p + 1);
  }

  /** Reading back the bytes written for a constant yields that constant
      and consumes exactly them. */
  lemma ConstantRoundTrip(c: PoolConstant, s: seq<U1>, p: nat)
    requires Encodable(c)
    requires p + |EncodeConstant(c)| <= |s| && s[p..p + |EncodeConstant(c)|] == EncodeConstant(c)
    ensures ParseConstant(s, p) == Ok((c, p + |EncodeConstant(c)|))
  {
    if c.Class? || c.StringRef? {
      OneIndexRoundTrip(c, s, p);
    } else if c.Utf8? {
      Utf8RoundTrip(c.str, s, p);
    } else {
      TwoIndexRoundTrip(c, s, p);
    }
  }

  /** Every constant decoded is one a writer could have produced, from
      exactly the bytes the decode consumed. */
  lemma ConstantCanonical(s: seq<U1>, p: nat)
    requires ParseConstant(s, p).Ok?
    ensures var (c, q) := ParseConstant(s, p).value;
            Encodable(c) && EncodeConstant(c) == s[p..q]
  {
    var (c, q) := ParseConstant(s, p).value;
    U2Canonical(s, p + 1);
    assert s[p..q] == [s[p]] + s[p + 1..p + 3] + s[p + 3..q];
    if c.Utf8? {
      var length := ParseU2(s, p + 1).value.0 as nat;
      TextRoundTrip(s[p + 3..p + 3 + length]);
    } else if !c.Class? && !c.StringRef? {
      U2Canonical(s, p + 3);
      assert s[p + 3..q] == s[p + 3..p + 5];
    }
  }

  /** An entry that starts where the input ends finds no tag byte; the tag
      reads as 0 and the entry is an unsupported constant, not a ShortRead. */
  lemma MissingTagUnsupported(s: seq<U1>, p: nat)
    requires |s| <= p
    ensures ParseConstant(s, p) == Err(UnsupportedConstant(0))
  {
    assert TagAt(s, p) !in SupportedTags;
  }

  /** Tags 3 to 6 and 15 to 20, and every byte that is no tag at all, are
      unsupported; the seven others select a constant. */
  lemma SupportedTagsExactly(tag: U1)
    ensures tag in SupportedTags <==> tag in {1, 7, 8, 9, 10, 11, 12}
    ensures tag in KnownTags && tag !in SupportedTags <==> 3 <= tag <= 6 || 15 <= tag <= 20
  {
  }

  /** Slot `i` of a decoded pool holds the constant decoded right after
      the entries of slots 1 to i - 1. */
  lemma PoolInOrder(s: seq<U1>, p: nat, i: nat)
    requires ParsePool(s, p).Ok? && 1 <= i < |ParsePool(s, p).value.0|
    ensures Repeat(PoolEntries(s), p + 2, i - 1).Ok?
    ensures var at := Repeat(PoolEntries(s), p + 2, i - 1).value.1;
            ParseConstant(s, at).Ok? &&
            ParsePool(s, p).value.0[i] == Some(ParseConstant(s, at).value.0)
  {
    var count := ParseU2(s, p).value.0 as nat;
    RepeatInOrder(PoolEntries(s), p + 2, count - 1, i - 1);
  }

  /** Pool decoding stops at the first entry that fails: when the entries
      for slots 1 to k decode and the next one does not, the pool (and so
      the class file) fails with that entry's error. */
  lemma PoolStopsAtFirstFailure(s: seq<U1>, p: nat, k: nat)
    requires ParseU2(s, p).Ok? && k + 1 < ParseU2(s, p).value.0 as nat
    requires Repeat(PoolEntries(s), p + 2, k).Ok?
    requires ParseConstant(s, Repeat(PoolEntries(s), p + 2, k).value.1).Err?
    ensures ParsePool(s, p) == Err(ParseConstant(s, Repeat(PoolEntries(s), p + 2, k).value.1).error)
  {
    var count := ParseU2(s, p).value.0 as nat;
    RepeatStopsAtFirstFailure(PoolEntries(s), p + 2, k, count - 1);
  }

  // ---------------------------------------------------------------------
  // Properties of member and class-file decoding
  // ---------------------------------------------------------------------

  /** Fields and methods share their prefix: a method decodes wherever a
      field with the same bytes does and its Utf8 name and descriptor
      resolve, and the two agree on the prefix and on where they end. */
  lemma MemberPrefixShared(s: seq<U1>, p: nat, pool: ConstantPool, reg: Registry)
    ensures ParseMethod(s, p, pool, reg).Ok? <==>
              ParseField(s, p, pool, reg).Ok? &&
              Utf8Text(pool, ParseField(s, p, pool, reg).value.0.nameIndex).Ok? &&
              Utf8Text(pool, ParseField(s, p, pool, reg).value.0.descriptorIndex).Ok?
    ensures ParseMethod(s, p, pool, reg).Ok? ==>
              var (m, q) := ParseMethod(s, p, pool, reg).value;
              ParseField(s, p, pool, reg) == Ok((FieldInfo(m.accessFlags, m.nameIndex, m.descriptorIndex, m.attributes), q))
  {
  }

  /** A decoded method caches the Utf8 texts its name and descriptor
      indices point at, and the first Code attribute of its list, if any. */
  lemma MethodInfoResolved(s: seq<U1>, p: nat, pool: ConstantPool, reg: Registry)
    requires ParseMethod(s, p, pool, reg).Ok?
    ensures var m := ParseMethod(s, p, pool, reg).value.0;
            && Utf8Text(pool, m.nameIndex) == Ok(m.name)
            && Utf8Text(pool, m.descriptorIndex) == Ok(m.descriptor)
            && (m.code.None? <==> forall i :: 0 <= i < |m.attributes| ==> !m.attributes[i].Code?)
            && (m.code.Some? ==> exists i :: 0 <= i < |m.attributes| && m.attributes[i] == Code(m.code.value) &&
                                             forall j :: 0 <= j < i ==> !m.attributes[j].Code?)
  {
  }

  /** The header is the first eight bytes: magic, then minor and major
      version; the pool follows them, and the body follows the pool. */
  lemma ClassFileHeader(s: seq<U1>, p: nat, reg: Registry)
    requires ParseClassFile(s, p, reg).Ok?
    ensures var cf := ParseClassFile(s, p, reg).value.0;
            && p + 8 <= |s|
            && cf.magic == DecodeU4(s[p], s[p + 1], s[p + 2], s[p + 3])
            && cf.minorVersion == DecodeU2(s[p + 4], s[p + 5])
            && cf.majorVersion == DecodeU2(s[p + 6], s[p + 7])
            && ParsePool(s, p + 8).Ok? && cf.constantPool == ParsePool(s, p + 8).value.0
            && ParseClassBody(s, ParsePool(s, p + 8).value.1, cf.constantPool, reg).Ok?
            && var (b, e) := ParseClassBody(s, ParsePool(s, p + 8).value.1, cf.constantPool, reg).value;
               && e == ParseClassFile(s, p, reg).value.1
               && cf.accessFlags == b.accessFlags && cf.thisClass == b.thisClass
               && cf.superClass == b.superClass && cf.interfaces == b.interfaces
               && cf.fields == b.fields && cf.methods == b.methods && cf.attributes == b.attributes
  {
    var (pool, q) := ParsePool(s, p + 8).value;
    assert ParseClassBody(s, q, pool, reg).Ok?;
  }

  /** The body starts with the access flags, this class and super class,
      then the interface, field, method and attribute lists one after the
      other, each holding its declared u2 count. */
  lemma ClassBodyLayout(s: seq<U1>, p: nat, pool: ConstantPool, reg: Registry)
    requires ParseClassBody(s, p, pool, reg).Ok?
    ensures var b := ParseClassBody(s, p, pool, reg).value.0;
            && ParseU2(s, p) == Ok((b.accessFlags, p + 2))
            && ParseU2(s, p + 2) == Ok((b.thisClass, p + 4))
            && ParseU2(s, p + 4) == Ok((b.superClass, p + 6))
            && ParseCounted(s, U2Entries(s), p + 6).Ok?
            && b.interfaces == ParseCounted(s, U2Entries(s), p + 6).value.0
            && |b.interfaces| == ParseU2(s, p + 6).value.0 as int
    ensures var b := ParseClassBody(s, p, pool, reg).value.0;
            var p4 := ParseCounted(s, U2Entries(s), p + 6).value.1;
            && ParseCounted(s, FieldEntries(s, pool, reg), p4).Ok?
            && b.fields == ParseCounted(s, FieldEntries(s, pool, reg), p4).value.0
            && |b.fields| == ParseU2(s, p4).value.0 as int
            && var p5 := ParseCounted(s, FieldEntries(s, pool, reg), p4).value.1;
            && ParseCounted(s, MethodEntries(s, pool, reg), p5).Ok?
            && b.methods == ParseCounted(s, MethodEntries(s, pool, reg), p5).value.0
            && |b.methods| == ParseU2(s, p5).value.0 as int
            && var p6 := ParseCounted(s, MethodEntries(s, pool, reg), p5).value.1;
            && ParseAttributes(s, p6, pool, reg) == Ok((b.attributes, ParseClassBody(s, p, pool, reg).value.1))
            && |b.attributes| == ParseU2(s, p6).value.0 as int
  {
  }

  // ---------------------------------------------------------------------
  // The closing attribute list, as written
  // ---------------------------------------------------------------------

  /** Everything before the closing attribute list, read as ParseClassFile
      reads it: the class with no attributes yet, and where the list starts. */
  function ParseClassUpToAttributes(s: seq<U1>, p: nat, reg: Registry): (r: Parsed<ClassFile>)
    ensures r.Ok? ==> r.value.0.attributes == [] && p + 22 <= r.value.1
  {
    var (magic, p1) :- ParseU4(s, p);
    var (minorVersion, p2) :- ParseU2(s, p1);
    var (majorVersion, p3) :- ParseU2(s, p2);
    var (pool, p4) :- ParsePool(s, p3);
    var (accessFlags, p5) :- ParseU2(s, p4);
    var (thisClass, p6) :- ParseU2(s, p5);
    var (superClass, p7) :- ParseU2(s, p6);
    var (interfaces, p8) :- ParseCounted(s, U2Entries(s), p7);
    var (fields, p9) :- ParseCounted(s, FieldEntries(s, pool, reg), p8);
    var (methods, q) :- ParseCounted(s, MethodEntries(s, pool, reg), p9);
    Ok((ClassFile(magic, minorVersion, majorVersion, pool, accessFlags, thisClass, superClass,
                  interfaces, fields, methods, []), q))
  }

  /** readClassFile with its closing attribute list read as written. Since
      that list is the last thing read, what it returns is the verdict. */
  function ClassFileAsWritten(s: seq<U1>, p: nat, reg: Registry): (o: Outcome<ClassFile>)
    ensures o.Returned? && o.result.Ok? ==>
              ParseClassUpToAttributes(s, p, reg).Ok? && p + 24 <= o.result.value.1 <= |s|
  {
    match ParseClassUpToAttributes(s, p, reg)
    case Err(e) => Returned(Err(e))
    case Ok((cf, q)) =>
      match AttributesAsWritten(s, q, cf.constantPool, reg)
      case Panics => Panics
      case Returned(Err(e)) => Returned(Err(e))
      case Returned(Ok((attributes, end))) => Returned(Ok((cf.(attributes := attributes), end)))
  }

  /** Once everything before the closing attribute list is read, the
      intended decoder and the decoder as written differ only in how they
      read that list. */
  lemma ClassFileThroughFront(s: seq<U1>, p: nat, reg: Registry)
    requires ParseClassUpToAttributes(s, p, reg).Ok?
    ensures var (cf, q) := ParseClassUpToAttributes(s, p, reg).value;
            && ParseClassFile(s, p, reg) ==
               (match ParseAttributes(s, q, cf.constantPool, reg)
                case Ok((attributes, end)) => Ok((cf.(attributes := attributes), end))
                case Err(e) => Err(e))
            && ClassFileAsWritten(s, p, reg) ==
               (match AttributesAsWritten(s, q, cf.constantPool, reg)
                case Panics => Panics
                case Returned(Err(e)) => Returned(Err(e))
                case Returned(Ok((attributes, end))) => Returned(Ok((cf.(attributes := attributes), end))))
  {
    var (cf, q) := ParseClassUpToAttributes(s, p, reg).value;
    var (magic, p1) := ParseU4(s, p).value;
    var (minorVersion, p2) := ParseU2(s, p1).value;
    var (majorVersion, p3) := ParseU2(s, p2).value;
    var (pool, p4) := ParsePool(s, p3).value;
    assert cf.constantPool == pool;
    assert ParseU2(s, p4).Ok? && ParseU2(s, p4 + 2).Ok? && ParseU2(s, p4 + 4).Ok?;
  }

  /** A class file whose pool holds the Utf8 text "Foo" and whose one
      attribute is "Foo" with four bytes of data, AA BB CC DD. */
  const FooClass: seq<U1> := [0xCA, 0xFE, 0xBA, 0xBE, 0, 0, 0, 52,
                              0, 2, 1, 0, 3, 0x46, 0x6F, 0x6F,
                              0, 0, 0, 0, 0, 0, 0, 0, 0, 0, 0, 0,
                              0, 1, 0, 1, 0, 0, 0, 4, 0xAA, 0xBB, 0xCC, 0xDD]

  /** The pool of FooClass, wherever its first thirty bytes are found. */
  lemma FooClassPool(s: seq<U1>)
    requires 30 <= |s| && s[..30] == FooClass[..30]
    ensures ParsePool(s, 8) == Ok(([None, Some(Utf8("Foo"))], 16))
  {
    var head := FooClass[..30];
    assert head == [0xCA, 0xFE, 0xBA, 0xBE, 0, 0, 0, 52, 0, 2, 1, 0, 3, 0x46, 0x6F, 0x6F,
                    0, 0, 0, 0, 0, 0, 0, 0, 0, 0, 0, 0, 0, 1];
    assert s[8] == head[8] == 0 && s[9] == head[9] == 2 && s[10] == head[10] == 1;
    assert s[11] == head[11] == 0 && s[12] == head[12] == 3;
    assert s[13..16] == head[13..16] == [0x46, 0x6F, 0x6F];
    assert Text([0x46, 0x6F, 0x6F]) == "Foo";
    assert ParseConstant(s, 10) == Ok((Utf8("Foo"), 16));
    assert Repeat(PoolEntries(s), 16, 0) == Ok(([], 16));
    assert [Some(Utf8("Foo"))] + [] == [Some(Utf8("Foo"))];
    assert Repeat(PoolEntries(s), 10, 1) == Ok(([Some(Utf8("Foo"))], 16));
    assert [None] + [Some(Utf8("Foo"))] == [None, Some(Utf8("Foo"))];
  }

  /** FooClass up to its attribute list: no interfaces, fields or methods. */
  const FooShell := ClassFile(0xCAFE_BABE, 0, 52, [None, Some(Utf8("Foo"))], 0, 0, 0, [], [], [], [])

  /** The magic number and the two version numbers of FooClass. */
  lemma FooClassHeader(s: seq<U1>)
    requires 30 <= |s| && s[..30] == FooClass[..30]
    ensures ParseU4(s, 0) == Ok((0xCAFE_BABE, 4))
    ensures ParseU2(s, 4) == Ok((0, 6)) && ParseU2(s, 6) == Ok((52, 8))
  {
    var head := FooClass[..30];
    assert head == [0xCA, 0xFE, 0xBA, 0xBE, 0, 0, 0, 52, 0, 2, 1, 0, 3, 0x46, 0x6F, 0x6F,
                    0, 0, 0, 0, 0, 0, 0, 0, 0, 0, 0, 0, 0, 1];
    assert s[0] == head[0] == 0xCA && s[1] == head[1] == 0xFE;
    assert s[2] == head[2] == 0xBA && s[3] == head[3] == 0xBE;
    assert s[4] == head[4] == 0 && s[5] == head[5] == 0;
    assert s[6] == head[6] == 0 && s[7] == head[7] == 52;
  }

  /** Flags, this and super class, and the three empty counts of FooClass:
      every u2 from byte 16 to byte 28 is zero. */
  lemma FooClassCounts(s: seq<U1>)
    requires 30 <= |s| && s[..30] == FooClass[..30]
    ensures forall p | 16 <= p < 28 && p % 2 == 0 :: ParseU2(s, p) == Ok((0, p + 2))
  {
    var head := FooClass[..30];
    assert head == [0xCA, 0xFE, 0xBA, 0xBE, 0, 0, 0, 52, 0, 2, 1, 0, 3, 0x46, 0x6F, 0x6F,
                    0, 0, 0, 0, 0, 0, 0, 0, 0, 0, 0, 0, 0, 1];
    forall p | 16 <= p < 28 && p % 2 == 0
      ensures ParseU2(s, p) == Ok((0, p + 2))
    {
      assert s[p] == head[p] == 0 && s[p + 1] == head[p + 1] == 0;
    }
  }

  /** FooClass has no interfaces, fields or methods. */
  lemma FooClassLists(s: seq<U1>)
    requires 30 <= |s| && s[..30] == FooClass[..30]
    ensures ParseCounted(s, U2Entries(s), 22) == Ok(([], 24))
    ensures ParseCounted(s, FieldEntries(s, FooShell.constantPool, AttributeReaders), 24) == Ok(([], 26))
    ensures ParseCounted(s, MethodEntries(s, FooShell.constantPool, AttributeReaders), 26) == Ok(([], 28))
  {
    FooClassCounts(s);
  }

  /** Wherever the first thirty bytes of FooClass are found, everything up
      to the closing attribute list decodes to FooShell, whose list starts
      at byte 28. */
  lemma FooClassFront(s: seq<U1>)
    requires 30 <= |s| && s[..30] == FooClass[..30]
    ensures ParseClassUpToAttributes(s, 0, AttributeReaders) == Ok((FooShell, 28))
  {
    FooClassPool(s);
    FooClassHeader(s);
    FooClassCounts(s);
    FooClassLists(s);
  }

  /** The one record of FooClass: "Foo", holding all four bytes. */
  lemma FooClassRecord()
    ensures ParseAttribute(FooClass, 30, FooShell.constantPool, AttributeReaders)
            == Ok((Unknown("Foo", [0xAA, 0xBB, 0xCC, 0xDD]), 40))
  {
    var s, pool := FooClass, FooShell.constantPool;
    assert s[30] == 0 && s[31] == 1;
    assert s[32] == 0 && s[33] == 0 && s[34] == 0 && s[35] == 4;
    assert s[36] == 0xAA && s[37] == 0xBB && s[38] == 0xCC && s[39] == 0xDD;
    assert ParseU2(s, 30) == Ok((1, 32)) && ParseU4(s, 32) == Ok((4, 36));
    assert Utf8Text(pool, 1) == Ok("Foo") && "Foo" !in AttributeReaders;
    var data := ParseBytes(s, 36, 4).value.0;
    assert data[0] == 0xAA && data[1] == 0xBB && data[2] == 0xCC && data[3] == 0xDD;
    assert data == [0xAA, 0xBB, 0xCC, 0xDD];
  }

  /** The closing attribute list of FooClass: one "Foo" record holding all
      four bytes. */
  lemma FooClassTail()
    ensures ParseAttributes(FooClass, 28, FooShell.constantPool, AttributeReaders)
            == Ok(([Unknown("Foo", [0xAA, 0xBB, 0xCC, 0xDD])], 40))
  {
    var s, pool := FooClass, FooShell.constantPool;
    var full := Unknown("Foo", [0xAA, 0xBB, 0xCC, 0xDD]);
    assert s[28] == 0 && s[29] == 1;
    assert ParseU2(s, 28) == Ok((1, 30));
    FooClassRecord();
    assert [full] + [] == [full];
    assert ParseAttributeList(s, 30, pool, AttributeReaders, 1) == Ok(([full], 40));
  }

  /** The same list cut after 38 bytes, read by the intended decoder. */
  lemma FooClassCutTail()
    ensures ParseAttributes(FooClass[..38], 28, FooShell.constantPool, AttributeReaders) == Err(ShortRead)
  {
    var s, pool := FooClass[..38], FooShell.constantPool;
    assert |s| == 38;
    assert s[28] == 0 && s[29] == 1 && s[30] == 0 && s[31] == 1;
    assert s[32] == 0 && s[33] == 0 && s[34] == 0 && s[35] == 4;
    assert ParseU2(s, 28) == Ok((1, 30)) && ParseU2(s, 30) == Ok((1, 32));
    assert ParseU4(s, 32) == Ok((4, 36));
    assert Utf8Text(pool, 1) == Ok("Foo") && "Foo" !in AttributeReaders;
    assert ParseAttribute(s, 30, pool, AttributeReaders) == Err(ShortRead);
  }

  /** The same list cut after 38 bytes, read as written: AA BB and two zeros. */
  lemma FooClassCutTailAsWritten()
    ensures AttributesAsWritten(FooClass[..38], 28, FooShell.constantPool, AttributeReaders)
            == Returned(Ok(([Unknown("Foo", [0xAA, 0xBB, 0, 0])], 38)))
  {
    var s, pool := FooClass[..38], FooShell.constantPool;
    var padded := Unknown("Foo", [0xAA, 0xBB, 0, 0]);
    assert |s| == 38;
    assert s[28] == 0 && s[29] == 1 && s[30] == 0 && s[31] == 1;
    assert s[32] == 0 && s[33] == 0 && s[34] == 0 && s[35] == 4;
    assert s[36] == 0xAA && s[37] == 0xBB;
    assert ParseU2(s, 28) == Ok((1, 30)) && DecodeU2(s[30], s[31]) == 1;
    assert U4AsWritten(s, 32) == (4, 36);
    assert Utf8Text(pool, 1) == Ok("Foo") && "Foo" !in AttributeReaders;
    assert s[36..38] + seq(2, _ => 0) == [0xAA, 0xBB, 0, 0];
    assert RawReadAsWritten(s, 36, 4) == Ok(([0xAA, 0xBB, 0, 0], 38));
    assert AttributeAsWritten(s, 30, pool, AttributeReaders) == Returned(Ok((padded, 38)));
    assert [padded] + [] == [padded];
  }

  /** FooClass cut after 38 of its 40 bytes: the intended decoder reports
      ShortRead, while the source returns a class whose attribute data is
      AA BB padded with two zeros, and no error. A truncated file then
      decodes as a different class. */
  lemma ClassFileCutCounterexample()
    ensures ParseClassFile(FooClass, 0, AttributeReaders)
            == Ok((FooShell.(attributes := [Unknown("Foo", [0xAA, 0xBB, 0xCC, 0xDD])]), 40))
    ensures ParseClassFile(FooClass[..38], 0, AttributeReaders) == Err(ShortRead)
    ensures ClassFileAsWritten(FooClass[..38], 0, AttributeReaders)
            == Returned(Ok((FooShell.(attributes := [Unknown("Foo", [0xAA, 0xBB, 0, 0])]), 38)))
    ensures ClassFileAsWritten(FooClass[..38], 0, AttributeReaders).result.value.0
            != ParseClassFile(FooClass, 0, AttributeReaders).value.0
  {
    var cut := FooClass[..38];
    assert cut[..30] == FooClass[..30];
    FooClassFront(FooClass);
    FooClassFront(cut);
    ClassFileThroughFront(FooClass, 0, AttributeReaders);
    ClassFileThroughFront(cut, 0, AttributeReaders);
    FooClassTail();
    FooClassCutTail();
    FooClassCutTailAsWritten();
  }

  // ---------------------------------------------------------------------
  // Truncation
  // ---------------------------------------------------------------------

  lemma ConstantTruncated(s: seq<U1>, p: nat, k: nat)
    requires p <= k <= |s|
    ensures TruncatedFails(ParseConstant(s, p), ParseConstant(s[..k], p), k)
  {
    if p < k {
      assert TagAt(s[..k], p) == TagAt(s, p);
      PrimitivesTruncated(s, p + 1, 0, k);
      PrimitivesTruncated(s, p + 3, 0, k);
      if ParseU2(s, p + 1).Ok? {
        PrimitivesTruncated(s, p + 3, ParseU2(s, p + 1).value.0 as nat, k);
      }
    }
  }

  /** Cutting the input leaves a pool that ends before the cut unchanged
      and makes one that reaches past it fail: with ShortRead, or, when the
      cut falls just before an entry, as unsupported constant type 0. */
  lemma PoolTruncated(s: seq<U1>, p: nat, k: nat)
    requires p <= k <= |s|
    ensures TruncatedFails(ParsePool(s, p), ParsePool(s[..k], p), k)
  {
    PrimitivesTruncated(s, p, 0, k);
    if ParseU2(s, p).Ok? && p + 2 <= k && ParseU2(s, p).value.0 > 0 {
      forall q: nat | q <= k
        ensures TruncatedFails(PoolEntries(s)(q), PoolEntries(s[..k])(q), k)
      {
        ConstantTruncated(s, q, k);
      }
      RepeatTruncatedFails(PoolEntries(s), PoolEntries(s[..k]), p + 2, ParseU2(s, p).value.0 as nat - 1, k);
    }
  }

  lemma MemberHeaderTruncated(s: seq<U1>, p: nat, pool: ConstantPool, reg: Registry, k: nat)
    requires k <= |s|
    ensures TruncatedAgrees(ParseMemberHeader(s, p, pool, reg), ParseMemberHeader(s[..k], p, pool, reg), k)
  {
    PrimitivesTruncated(s, p, 0, k);
    PrimitivesTruncated(s, p + 2, 0, k);
    PrimitivesTruncated(s, p + 4, 0, k);
    if p + 6 <= k {
      AttributesTruncated(s, p + 6, pool, reg, k);
    }
  }

  lemma MembersTruncated(s: seq<U1>, p: nat, pool: ConstantPool, reg: Registry, k: nat)
    requires k <= |s|
    ensures TruncatedAgrees(ParseCounted(s, FieldEntries(s, pool, reg), p),
                            ParseCounted(s[..k], FieldEntries(s[..k], pool, reg), p), k)
    ensures TruncatedAgrees(ParseCounted(s, MethodEntries(s, pool, reg), p),
                            ParseCounted(s[..k], MethodEntries(s[..k], pool, reg), p), k)
  {
    forall q: nat
      ensures TruncatedAgrees(FieldEntries(s, pool, reg)(q), FieldEntries(s[..k], pool, reg)(q), k)
      ensures TruncatedAgrees(MethodEntries(s, pool, reg)(q), MethodEntries(s[..k], pool, reg)(q), k)
    {
      MemberHeaderTruncated(s, q, pool, reg, k);
    }
    CountedTruncated(s, FieldEntries(s, pool, reg), FieldEntries(s[..k], pool, reg), p, k);
    CountedTruncated(s, MethodEntries(s, pool, reg), MethodEntries(s[..k], pool, reg), p, k);
  }

  lemma ClassBodyTruncated(s: seq<U1>, p: nat, pool: ConstantPool, reg: Registry, k: nat)
    requires k <= |s|
    ensures TruncatedAgrees(ParseClassBody(s, p, pool, reg), ParseClassBody(s[..k], p, pool, reg), k)
  {
    var c := s[..k];
    PrimitivesTruncated(s, p, 0, k);
    PrimitivesTruncated(s, p + 2, 0, k);
    PrimitivesTruncated(s, p + 4, 0, k);
    if ParseClassBody(s, p, pool, reg).Ok? && p + 6 <= k {
      forall q: nat ensures TruncatedAgrees(U2Entries(s)(q), U2Entries(c)(q), k) {
        PrimitivesTruncated(s, q, 0, k);
      }
      CountedTruncated(s, U2Entries(s), U2Entries(c), p + 6, k);
      var p4 := ParseCounted(s, U2Entries(s), p + 6).value.1;
      MembersTruncated(s, p4, pool, reg, k);
      var p5 := ParseCounted(s, FieldEntries(s, pool, reg), p4).value.1;
      MembersTruncated(s, p5, pool, reg, k);
      var p6 := ParseCounted(s, MethodEntries(s, pool, reg), p5).value.1;
      if p6 <= k {
        AttributesTruncated(s, p6, pool, reg, k);
      }
    }
  }

  /** A class file cut after any byte decodes as before if it ended before
      the cut, and fails if it needed bytes past it: a truncated class file
      never decodes as a shorter one. */
  lemma ClassFileTruncated(s: seq<U1>, p: nat, reg: Registry, k: nat)
    requires k <= |s|
    ensures TruncatedFails(ParseClassFile(s, p, reg), ParseClassFile(s[..k], p, reg), k)
  {
    PrimitivesTruncated(s, p, 0, k);
    PrimitivesTruncated(s, p + 4, 0, k);
    PrimitivesTruncated(s, p + 6, 0, k);
    if ParseClassFile(s, p, reg).Ok? && p + 8 <= k {
      PoolTruncated(s, p + 8, k);
      var (pool, p4) := ParsePool(s, p + 8).value;
      ClassBodyTruncated(s, p4, pool, reg, k);
    }
  }
}
