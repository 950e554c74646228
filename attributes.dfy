/**
 * Attribute decoding (attributes.go), following section 4.7 of The Java
 * Virtual Machine Specification: a u2 name index and a u4 length, the name
 * resolved through the constant pool, then a name-keyed dispatch. Only
 * ConstantValue (section 4.7.2) and Code (section 4.7.3) have readers; any
 * other name is kept verbatim as an Unknown attribute. Code holds its own
 * attribute list, read through the same dispatch.
 */
module Attributes {
  import opened Types
  import opened Constants
  import opened Lists

  datatype ExceptionTableEntry = ExceptionTableEntry(startPc: U2, endPc: U2, handlerPc: U2, catchType: U2)

  datatype CodeBody = CodeBody(
    maxStack: U2,
    maxLocals: U2,
    code: seq<U1>,
    exceptionTable: seq<ExceptionTableEntry>,
    attributes: seq<Attribute>)

  datatype Attribute =
    | ConstantValue(constantValueIndex: U2)
    | Code(body: CodeBody)
    | Unknown(name: string, data: seq<U1>)
  {
    function Name(): string {
      match this
      case ConstantValue(_) => "ConstantValue"
      case Code(_) => "Code"
      case Unknown(name, _) => name
    }
  }

  /** The readers an attribute name can be registered with. */
  datatype Handler = ConstantValueReader | CodeReader

  /** A name-to-reader table, fixed before decoding starts. */
  type Registry = map<string, Handler>

  /** The table the source fills at start-up: exactly ConstantValue and Code. */
  const AttributeReaders: Registry := map["ConstantValue" := ConstantValueReader, "Code" := CodeReader]

  // ---------------------------------------------------------------------
  // Specification view
  // ---------------------------------------------------------------------

  /** The body of a ConstantValue attribute: one u2 constant-pool index. */
  function ParseConstantValue(s: seq<U1>, p: nat): (r: Parsed<Attribute>)
    ensures r.Ok? <==> ParseU2(s, p).Ok?
    ensures r.Ok? ==> r.value == (ConstantValue(ParseU2(s, p).value.0), p + 2) && r.value.0.Name() == "ConstantValue"
  {
    var (index, q) :- ParseU2(s, p);
    Ok((ConstantValue(index), q))
  }

  /** One exception-table entry: four u2 fields in declaration order. */
  function ParseExceptionEntry(s: seq<U1>, p: nat): (r: Parsed<ExceptionTableEntry>)
    ensures r.Ok? ==> r.value.1 == p + 8
  {
    var (startPc, p1) :- ParseU2(s, p);
    var (endPc, p2) :- ParseU2(s, p1);
    var (handlerPc, p3) :- ParseU2(s, p2);
    var (catchType, q) :- ParseU2(s, p3);
    Ok((ExceptionTableEntry(startPc, endPc, handlerPc, catchType), q))
  }

  function ExceptionEntries(s: seq<U1>): (item: nat -> Parsed<ExceptionTableEntry>)
    ensures Advances(item)
  {
    p => ParseExceptionEntry(s, p)
  }

  /** The instructions of a Code attribute: a u4 code_length, then that
      many bytes, kept verbatim. */
  function ParseCodeArray(s: seq<U1>, p: nat): (r: Parsed<seq<U1>>)
    ensures r.Ok? <==> ParseU4(s, p).Ok? && p + 4 + ParseU4(s, p).value.0 as int <= |s|
    ensures r.Ok? ==> |r.value.0| == ParseU4(s, p).value.0 as int && r.value.1 == p + 4 + |r.value.0| &&
                      r.value.0 == s[p + 4..r.value.1]
  {
    var (codeLength, p1) :- ParseU4(s, p);
    ParseBytes(s, p1, codeLength as nat)
  }

  /**
   * One attribute record. The recursion through Code terminates on the
   * bytes left: the header alone consumes six.
   */
  function ParseAttribute(s: seq<U1>, p: nat, pool: ConstantPool, reg: Registry): (r: Parsed<Attribute>)
    requires p <= |s|
    ensures r.Ok? ==> p + 6 <= r.value.1 <= |s|
    decreases |s| - p, 0
  {
    var (nameIndex, p1) :- ParseU2(s, p);
    var (length, p2) :- ParseU4(s, p1);
    var name :- Utf8Text(pool, nameIndex);
    if name !in reg then
      var (data, q) :- ParseBytes(s, p2, length as nat);
      Ok((Unknown(name, data), q))
    else
      match reg[name]
      case ConstantValueReader => ParseConstantValue(s, p2)
      case CodeReader => ParseCode(s, p2, pool, reg)
  }

  /** The body of a Code attribute, after its six-byte header. */
  function ParseCode(s: seq<U1>, p: nat, pool: ConstantPool, reg: Registry): (r: Parsed<Attribute>)
    requires p <= |s|
    ensures r.Ok? ==> p + 12 <= r.value.1 <= |s|
    decreases |s| - p, 1
  {
    var (maxStack, p1) :- ParseU2(s, p);
    var (maxLocals, p2) :- ParseU2(s, p1);
    var (code, p3) :- ParseCodeArray(s, p2);
    var (exceptionTable, p4) :- ParseCounted(s, ExceptionEntries(s), p3);
    var (attributes, q) :- ParseAttributes(s, p4, pool, reg);
    Ok((Code(CodeBody(maxStack, maxLocals, code, exceptionTable, attributes)), q))
  }

  /**
   * `n` attribute records one after the other. This is `Repeat` over
   * ParseAttribute, written out because the recursion through Code must
   * be visible to the termination argument.
   */
  function ParseAttributeList(s: seq<U1>, p: nat, pool: ConstantPool, reg: Registry, n: nat): (r: Parsed<seq<Attribute>>)
    requires p <= |s|
    ensures r.Ok? ==> |r.value.0| == n && p <= r.value.1 <= |s|
    decreases |s| - p, 3, n
  {
    if n == 0 then Ok(([], p))
    else
      var (a, p1) :- ParseAttribute(s, p, pool, reg);
      var (rest, q) :- ParseAttributeList(s, p1, pool, reg, n - 1);
      Ok(([a] + rest, q))
  }

  /** One attribute record per position, for the generic list lemmas; a
      position past the input has no record. */
  function AttributeEntries(s: seq<U1>, pool: ConstantPool, reg: Registry): (item: nat -> Parsed<Attribute>)
    ensures Advances(item)
  {
    (q: nat) => if q <= |s| then ParseAttribute(s, q, pool, reg) else Err(ShortRead)
  }

  /** An attribute list is the generic count-driven list over
      AttributeEntries, so the Lists lemmas (stream order, stopping at the
      first failure) apply to it. */
  lemma {:induction false} AttributeListIsRepeat(s: seq<U1>, p: nat, pool: ConstantPool, reg: Registry, n: nat)
    requires p <= |s|
    ensures ParseAttributeList(s, p, pool, reg, n) == Repeat(AttributeEntries(s, pool, reg), p, n)
    decreases n
  {
    if n > 0 {
      match ParseAttribute(s, p, pool, reg)
      case Err(_) =>
      case Ok((_, p1)) => AttributeListIsRepeat(s, p1, pool, reg, n - 1);
    }
  }

  /** Record i of a decoded attribute list is the one decoded right after
      the first i. */
  lemma AttributesInOrder(s: seq<U1>, p: nat, pool: ConstantPool, reg: Registry, i: nat)
    requires ParseAttributes(s, p, pool, reg).Ok? && i < |ParseAttributes(s, p, pool, reg).value.0|
    ensures ParseAttributeList(s, p + 2, pool, reg, i).Ok?
    ensures var at := ParseAttributeList(s, p + 2, pool, reg, i).value.1;
            ParseAttribute(s, at, pool, reg).Ok? &&
            ParseAttribute(s, at, pool, reg).value.0 == ParseAttributes(s, p, pool, reg).value.0[i]
  {
    var n := ParseU2(s, p).value.0 as nat;
    AttributeListIsRepeat(s, p + 2, pool, reg, n);
    AttributeListIsRepeat(s, p + 2, pool, reg, i);
    RepeatInOrder(AttributeEntries(s, pool, reg), p + 2, n, i);
  }

  /** An attribute list stops at its first failing record: when the first
      k records decode and the next does not, the list fails with its error. */
  lemma AttributesStopAtFirstFailure(s: seq<U1>, p: nat, pool: ConstantPool, reg: Registry, k: nat)
    requires ParseU2(s, p).Ok? && k < ParseU2(s, p).value.0 as nat
    requires ParseAttributeList(s, p + 2, pool, reg, k).Ok?
    requires ParseAttribute(s, ParseAttributeList(s, p + 2, pool, reg, k).value.1, pool, reg).Err?
    ensures ParseAttributes(s, p, pool, reg) ==
            Err(ParseAttribute(s, ParseAttributeList(s, p + 2, pool, reg, k).value.1, pool, reg).error)
  {
    var n := ParseU2(s, p).value.0 as nat;
    AttributeListIsRepeat(s, p + 2, pool, reg, n);
    AttributeListIsRepeat(s, p + 2, pool, reg, k);
    RepeatStopsAtFirstFailure(AttributeEntries(s, pool, reg), p + 2, k, n);
  }

  /** A u2 count followed by that many attribute records. */
  function ParseAttributes(s: seq<U1>, p: nat, pool: ConstantPool, reg: Registry): (r: Parsed<seq<Attribute>>)
    ensures r.Ok? ==> ParseU2(s, p).Ok? && |r.value.0| == ParseU2(s, p).value.0 as int
    ensures r.Ok? ==> p + 2 <= r.value.1 <= |s|
    decreases |s| - p, 2
  {
    var (count, p1) :- ParseU2(s, p);
    ParseAttributeList(s, p1, pool, reg, count as nat)
  }

  /** The loop that fills an attribute list has stored `done`, the first
      records decoded from `start`, and the rest are decoded from `p`. */
  ghost predicate AttributesSoFar(s: seq<U1>, start: nat, pool: ConstantPool, reg: Registry, n: nat,
                                  done: seq<Attribute>, p: nat) {
    start <= |s| && p <= |s| && |done| <= n &&
    ParseAttributeList(s, start, pool, reg, n) == Prepend(done, ParseAttributeList(s, p, pool, reg, n - |done|))
  }

  /** One step of that loop: the next record is read at `p` with outcome
      `a`, leaving the position at `q`. */
  lemma AttributeListStep(s: seq<U1>, start: nat, pool: ConstantPool, reg: Registry, n: nat,
                          done: seq<Attribute>, p: nat, a: Result<Attribute>, q: nat)
    requires AttributesSoFar(s, start, pool, reg, n, done, p) && |done| < n
    requires Mirrors(a, q, ParseAttribute(s, p, pool, reg))
    ensures a.Err? ==> ParseAttributeList(s, start, pool, reg, n) == Err(a.error)
    ensures a.Ok? ==> p <= q && AttributesSoFar(s, start, pool, reg, n, done + [a.value], q)
  {
    if a.Ok? {
      PrependPrepend(done, a.value, ParseAttributeList(s, q, pool, reg, n - |done| - 1));
    }
  }

  /** The loop starts with nothing stored and ends with the whole list. */
  lemma AttributeListEnds(s: seq<U1>, start: nat, pool: ConstantPool, reg: Registry, n: nat,
                          done: seq<Attribute>, p: nat)
    requires start <= |s|
    ensures AttributesSoFar(s, start, pool, reg, n, [], start)
    ensures AttributesSoFar(s, start, pool, reg, n, done, p) && |done| == n ==>
              ParseAttributeList(s, start, pool, reg, n) == Ok((done, p))
  {
    PrependNothing(ParseAttributeList(s, start, pool, reg, n));
    if AttributesSoFar(s, start, pool, reg, n, done, p) && |done| == n {
      assert done + [] == done;
    }
  }

  // ---------------------------------------------------------------------
  // Imperative view
  // ---------------------------------------------------------------------

  /** Reads a u2 count and that many attributes into a slice of that length. */
  method ReadAttributes(r: Reader, pool: ConstantPool, reg: Registry) returns (res: Result<seq<Attribute>>)
    requires r.Valid()
    modifies r
    ensures r.Valid()
    ensures Mirrors(res, r.pos, ParseAttributes(r.data, old(r.pos), pool, reg))
    decreases |r.data| - r.pos, 2
  {
    var count, err := ReadU2(r);
    if err.Some? {
      return Err(err.value);
    }
    var attrs := new Attribute[count](_ => ConstantValue(0));
    ghost var start := r.pos;
    AttributeListEnds(r.data, start, pool, reg, count as nat, [], start);
    var i := 0;
    while i < count as int
      invariant r.Valid() && 0 <= i <= count as int && start <= r.pos
      invariant AttributesSoFar(r.data, start, pool, reg, count as nat, attrs[..i], r.pos)
    {
      ghost var before := r.pos;
      ghost var done := attrs[..i];
      var a := ReadAttribute(r, pool, reg);
      assert attrs[..i] == done;
      AttributeListStep(r.data, start, pool, reg, count as nat, done, before, a, r.pos);
      if a.Err? {
        return Err(a.error);
      }
      attrs[i] := a.value;
      assert attrs[..i + 1] == done + [a.value];
      i := i + 1;
    }
    assert attrs[..] == attrs[..i];
    AttributeListEnds(r.data, start, pool, reg, count as nat, attrs[..], r.pos);
    return Ok(attrs[..]);
  }

  /** Reads one attribute record and dispatches on its name. */
  method ReadAttribute(r: Reader, pool: ConstantPool, reg: Registry) returns (res: Result<Attribute>)
    requires r.Valid()
    modifies r
    ensures r.Valid()
    ensures Mirrors(res, r.pos, ParseAttribute(r.data, old(r.pos), pool, reg))
    decreases |r.data| - r.pos, 0
  {
    var nameIndex, err := ReadU2(r);
    if err.Some? {
      return Err(err.value);
    }
    var length, err' := ReadU4(r);
    if err'.Some? {
      return Err(err'.value);
    }
    var name := Utf8Text(pool, nameIndex);
    if name.Err? {
      return Err(name.error);
    }
    if name.value !in reg {
      var data := ReadRun(r, length as nat);
      if data.Err? {
        return Err(data.error);
      }
      return Ok(Unknown(name.value, data.value));
    }
    match reg[name.value]
    case ConstantValueReader =>
      res := ReadConstantValueAttribute(r);
    case CodeReader =>
      res := ReadCodeAttribute(r, pool, reg);
  }

  method ReadConstantValueAttribute(r: Reader) returns (res: Result<Attribute>)
    requires r.Valid()
    modifies r
    ensures r.Valid()
    ensures Mirrors(res, r.pos, ParseConstantValue(r.data, old(r.pos)))
  {
    var index, err := ReadU2(r);
    if err.Some? {
      return Err(err.value);
    }
    return Ok(ConstantValue(index));
  }

  /** One exception-table entry, its four u2 fields read in declaration order. */
  method ReadExceptionTableEntry(r: Reader) returns (res: Result<ExceptionTableEntry>)
    requires r.Valid()
    modifies r
    ensures r.Valid()
    ensures Mirrors(res, r.pos, ParseExceptionEntry(r.data, old(r.pos)))
  {
    var startPc, e1 := ReadU2(r);
    if e1.Some? {
      return Err(e1.value);
    }
    var endPc, e2 := ReadU2(r);
    if e2.Some? {
      return Err(e2.value);
    }
    var handlerPc, e3 := ReadU2(r);
    if e3.Some? {
      return Err(e3.value);
    }
    var catchType, e4 := ReadU2(r);
    if e4.Some? {
      return Err(e4.value);
    }
    return Ok(ExceptionTableEntry(startPc, endPc, handlerPc, catchType));
  }

  method ReadCodeAttribute(r: Reader, pool: ConstantPool, reg: Registry) returns (res: Result<Attribute>)
    requires r.Valid()
    modifies r
    ensures r.Valid()
    ensures Mirrors(res, r.pos, ParseCode(r.data, old(r.pos), pool, reg))
    decreases |r.data| - r.pos, 1
  {
    var maxStack, e1 := ReadU2(r);
    if e1.Some? {
      return Err(e1.value);
    }
    var maxLocals, e2 := ReadU2(r);
    if e2.Some? {
      return Err(e2.value);
    }
    var codeLength, e3 := ReadU4(r);
    if e3.Some? {
      return Err(e3.value);
    }
    var code := ReadRun(r, codeLength as nat);
    if code.Err? {
      return Err(code.error);
    }

    var table := ReadExceptionTable(r);
    if table.Err? {
      return Err(table.error);
    }
    var attrs := ReadAttributes(r, pool, reg);
    if attrs.Err? {
      return Err(attrs.error);
    }
    return Ok(Code(CodeBody(maxStack, maxLocals, code.value, table.value, attrs.value)));
  }

  /** The exception table of a Code attribute: a u2 count and that many
      entries, filled into a slice of that length. */
  method ReadExceptionTable(r: Reader) returns (res: Result<seq<ExceptionTableEntry>>)
    requires r.Valid()
    modifies r
    ensures r.Valid()
    ensures Mirrors(res, r.pos, ParseCounted(r.data, ExceptionEntries(r.data), old(r.pos)))
  {
    var tableLength, err := ReadU2(r);
    if err.Some? {
      return Err(err.value);
    }
    var table := new ExceptionTableEntry[tableLength](_ => ExceptionTableEntry(0, 0, 0, 0));
    ghost var item := ExceptionEntries(r.data);
    ghost var start := r.pos;
    RepeatEnds(item, start, tableLength as nat, [], start);
    var i := 0;
    while i < tableLength as int
      invariant r.Valid() && 0 <= i <= tableLength as int
      invariant RepeatSoFar(item, start, tableLength as nat, table[..i], r.pos)
    {
      ghost var before := r.pos;
      ghost var done := table[..i];
      var entry := ReadExceptionTableEntry(r);
      assert table[..i] == done;
      RepeatStep(item, start, tableLength as nat, done, before, entry, r.pos);
      if entry.Err? {
        return Err(entry.error);
      }
      table[i] := entry.value;
      assert table[..i + 1] == done + [entry.value];
      i := i + 1;
    }
    assert table[..] == table[..i];
    RepeatEnds(item, start, tableLength as nat, table[..], r.pos);
    return Ok(table[..]);
  }

  // ---------------------------------------------------------------------
  // Properties of attribute decoding
  // ---------------------------------------------------------------------

  /** The default table holds exactly ConstantValue and Code; StackMapTable,
      among all other names, takes the Unknown path. */
  lemma RegistryContents()
    ensures AttributeReaders.Keys == {"ConstantValue", "Code"}
    ensures "StackMapTable" !in AttributeReaders
  {
  }

  /** An attribute whose name has no reader is kept verbatim: its data is
      exactly the `length` bytes after the header, and decoding moves past
      them; if fewer remain, the decode is a ShortRead. */
  lemma UnknownAttributeVerbatim(s: seq<U1>, p: nat, pool: ConstantPool, reg: Registry)
    requires p + 6 <= |s|
    requires Utf8Text(pool, ParseU2(s, p).value.0).Ok?
    requires Utf8Text(pool, ParseU2(s, p).value.0).value !in reg
    ensures var name := Utf8Text(pool, ParseU2(s, p).value.0).value;
            var length := ParseU4(s, p + 2).value.0 as nat;
            ParseAttribute(s, p, pool, reg)
            == if p + 6 + length <= |s| then Ok((Unknown(name, s[p + 6..p + 6 + length]), p + 6 + length))
               else Err(ShortRead)
  {
  }

  /** An attribute whose name has a reader hands the bytes after its
      six-byte header to that reader, whose result is the record's. */
  lemma RegisteredDispatch(s: seq<U1>, p: nat, pool: ConstantPool, reg: Registry)
    requires p + 6 <= |s|
    requires Utf8Text(pool, ParseU2(s, p).value.0).Ok?
    requires Utf8Text(pool, ParseU2(s, p).value.0).value in reg
    ensures var name := Utf8Text(pool, ParseU2(s, p).value.0).value;
            ParseAttribute(s, p, pool, reg)
            == match reg[name]
               case ConstantValueReader => ParseConstantValue(s, p + 6)
               case CodeReader => ParseCode(s, p + 6, pool, reg)
  {
  }

  /** With the default table, a decoded attribute's Name() is the Utf8 text
      its header's name index points at. */
  lemma AttributeNamePreserved(s: seq<U1>, p: nat, pool: ConstantPool)
    requires p <= |s| && ParseAttribute(s, p, pool, AttributeReaders).Ok?
    ensures ParseU2(s, p).Ok?
    ensures Utf8Text(pool, ParseU2(s, p).value.0) == Ok(ParseAttribute(s, p, pool, AttributeReaders).value.0.Name())
  {
  }

  /** A Code attribute is laid out as max_stack, max_locals, code_length,
      the code bytes verbatim, the exception table, and a nested attribute
      list read through the same dispatch as any other attribute list. */
  lemma CodeLayout(s: seq<U1>, p: nat, pool: ConstantPool, reg: Registry)
    requires p <= |s| && ParseCode(s, p, pool, reg).Ok?
    ensures ParseCode(s, p, pool, reg).value.0.Code?
    ensures var b := ParseCode(s, p, pool, reg).value.0.body;
            var tableAt := p + 8 + |b.code|;
            && ParseU2(s, p) == Ok((b.maxStack, p + 2))
            && ParseU2(s, p + 2) == Ok((b.maxLocals, p + 4))
            && ParseU4(s, p + 4) == Ok((|b.code| as U4, p + 8))
            && tableAt <= |s| && b.code == s[p + 8..tableAt]
            && ParseCounted(s, ExceptionEntries(s), tableAt).Ok?
            && ParseCounted(s, ExceptionEntries(s), tableAt).value.0 == b.exceptionTable
            && ParseAttributes(s, ParseCounted(s, ExceptionEntries(s), tableAt).value.1, pool, reg)
               == Ok((b.attributes, ParseCode(s, p, pool, reg).value.1))
  {
  }

  // Truncation: cutting the input after any byte changes nothing for a
  // decode that ends before the cut and makes one that reaches past it a
  // ShortRead, never a shorter result.

  lemma ExceptionEntryTruncated(s: seq<U1>, p: nat, k: nat)
    requires k <= |s|
    ensures TruncatedAgrees(ExceptionEntries(s)(p), ExceptionEntries(s[..k])(p), k)
  {
    PrimitivesTruncated(s, p, 0, k);
    PrimitivesTruncated(s, p + 2, 0, k);
    PrimitivesTruncated(s, p + 4, 0, k);
    PrimitivesTruncated(s, p + 6, 0, k);
  }

  lemma {:induction false} AttributeTruncated(s: seq<U1>, p: nat, pool: ConstantPool, reg: Registry, k: nat)
    requires p <= k <= |s|
    ensures TruncatedAgrees(ParseAttribute(s, p, pool, reg), ParseAttribute(s[..k], p, pool, reg), k)
    decreases |s| - p, 0
  {
    PrimitivesTruncated(s, p, 0, k);
    PrimitivesTruncated(s, p + 2, 0, k);
    if ParseAttribute(s, p, pool, reg).Ok? && p + 6 <= k {
      var nameIndex := ParseU2(s, p).value.0;
      var length := ParseU4(s, p + 2).value.0;
      var name := Utf8Text(pool, nameIndex).value;
      if name !in reg {
        PrimitivesTruncated(s, p + 6, length as nat, k);
      } else if reg[name] == ConstantValueReader {
        PrimitivesTruncated(s, p + 6, 0, k);
      } else {
        CodeTruncated(s, p + 6, pool, reg, k);
      }
    }
  }

  lemma CodeArrayTruncated(s: seq<U1>, p: nat, k: nat)
    requires k <= |s|
    ensures TruncatedAgrees(ParseCodeArray(s, p), ParseCodeArray(s[..k], p), k)
  {
    PrimitivesTruncated(s, p, 0, k);
    if ParseU4(s, p).Ok? {
      PrimitivesTruncated(s, p + 4, ParseU4(s, p).value.0 as nat, k);
    }
  }

  lemma {:induction false} CodeTruncated(s: seq<U1>, p: nat, pool: ConstantPool, reg: Registry, k: nat)
    requires p <= k <= |s|
    ensures TruncatedAgrees(ParseCode(s, p, pool, reg), ParseCode(s[..k], p, pool, reg), k)
    decreases |s| - p, 1
  {
    PrimitivesTruncated(s, p, 0, k);
    PrimitivesTruncated(s, p + 2, 0, k);
    if ParseCode(s, p, pool, reg).Ok? && p + 4 <= k {
      CodeArrayTruncated(s, p + 4, k);
      var p3 := ParseCodeArray(s, p + 4).value.1;
      if p3 <= k {
        forall q: nat
          ensures TruncatedAgrees(ExceptionEntries(s)(q), ExceptionEntries(s[..k])(q), k)
        {
          ExceptionEntryTruncated(s, q, k);
        }
        CountedTruncated(s, ExceptionEntries(s), ExceptionEntries(s[..k]), p3, k);
        var p4 := ParseCounted(s, ExceptionEntries(s), p3).value.1;
        if p4 <= k {
          AttributesTruncated(s, p4, pool, reg, k);
        }
      }
    }
  }

  lemma {:induction false} AttributesTruncated(s: seq<U1>, p: nat, pool: ConstantPool, reg: Registry, k: nat)
    requires p <= k <= |s|
    ensures TruncatedAgrees(ParseAttributes(s, p, pool, reg), ParseAttributes(s[..k], p, pool, reg), k)
    decreases |s| - p, 2
  {
    PrimitivesTruncated(s, p, 0, k);
    if ParseU2(s, p).Ok? && p + 2 <= k {
      AttributeListTruncated(s, p + 2, pool, reg, ParseU2(s, p).value.0 as nat, k);
    }
  }

  lemma {:induction false} AttributeListTruncated(s: seq<U1>, p: nat, pool: ConstantPool, reg: Registry, n: nat, k: nat)
    requires p <= k <= |s|
    ensures TruncatedAgrees(ParseAttributeList(s, p, pool, reg, n), ParseAttributeList(s[..k], p, pool, reg, n), k)
    decreases |s| - p, 3, n
  {
    if n > 0 {
      AttributeTruncated(s, p, pool, reg, k);
      match ParseAttribute(s, p, pool, reg)
      case Err(_) =>
      case Ok((_, p1)) =>
        if p1 <= k {
          AttributeListTruncated(s, p1, pool, reg, n - 1, k);
        }
    }
  }

  // ---------------------------------------------------------------------
  // Fixed-size records read by reflection, as written
  // ---------------------------------------------------------------------

  /** What a decoding step does when it is allowed to panic. */
  datatype Outcome<T> = Returned(result: Parsed<T>) | Panics

  /**
   * A big-endian reflective read of `size` bytes into a record whose fields
   * are all unexported, as the ConstantValue reader and the exception-table
   * loop do. The bytes are fetched in full first (too few is an error);
   * storing them then needs the fields to be settable, which unexported
   * fields are not, so every read that finds its bytes panics.
   */
  function ReflectiveRead<T>(s: seq<U1>, p: nat, size: nat): (o: Outcome<T>)
    ensures o.Panics? <==> p + size <= |s|
    ensures o.Returned? ==> o.result == Err(ShortRead)
  {
    if p + size <= |s| then Panics else Returned(Err(ShortRead))
  }

  /** readConstantValueAttribute as written: a 2-byte reflective read. */
  function ConstantValueAsWritten(s: seq<U1>, p: nat): (o: Outcome<Attribute>)
    ensures o.Panics? <==> p + 2 <= |s|
    ensures o.Returned? ==> o.result == Err(ShortRead)
  {
    ReflectiveRead(s, p, 2)
  }

  /** One exception-table entry as written: an 8-byte reflective read. */
  function ExceptionEntryAsWritten(s: seq<U1>, p: nat): (o: Outcome<ExceptionTableEntry>)
    ensures o.Panics? <==> p + 8 <= |s|
    ensures o.Returned? ==> o.result == Err(ShortRead)
  {
    ReflectiveRead(s, p, 8)
  }

  // ---------------------------------------------------------------------
  // Unknown attributes cut short, as written
  // ---------------------------------------------------------------------

  /** ReadU4 as written: a short read leaves 0 and drains the file; the
      caller in ReadAttribute overwrites its error with the next one. */
  function U4AsWritten(s: seq<U1>, p: nat): (v: (U4, nat))
    requires p <= |s|
    ensures p <= v.1 <= |s|
    ensures ParseU4(s, p).Ok? ==> v == ParseU4(s, p).value
    ensures ParseU4(s, p).Err? ==> v == (0, |s|)
  {
    match ParseU4(s, p)
    case Ok(x) => x
    case Err(_) => (0, |s|)
  }

  /** A raw read of `n` bytes whose byte count is not looked at: the bytes
      left, up to `n`, then zeros up to `n`. The only error is end of file
      met by a non-empty buffer; an empty buffer returns no error at all. */
  function RawReadAsWritten(s: seq<U1>, p: nat, n: nat): (r: Parsed<seq<U1>>)
    requires p <= |s|
    ensures r.Err? <==> n > 0 && p == |s|
    ensures r.Ok? ==> |r.value.0| == n && p <= r.value.1 <= |s|
    ensures r.Ok? ==> r.value.1 == (if p + n <= |s| then p + n else |s|)
    ensures r.Ok? ==> r.value.0[..r.value.1 - p] == s[p..r.value.1]
    ensures r.Ok? ==> forall i :: r.value.1 - p <= i < n ==> r.value.0[i] == 0
  {
    if n > 0 && p == |s| then Err(ShortRead)
    else
      var m := if p + n <= |s| then n else |s| - p;
      Ok((s[p..p + m] + seq(n - m, _ => 0), p + m))
  }

  /**
   * ReadAttribute as written. A name index that cannot be read is 0, and
   * slot 0 of the pool is never filled, so the name lookup panics, as it
   * does for any index that is not a Utf8 constant. The length's error is
   * overwritten, and the raw read of an unregistered attribute decides the
   * error alone. A ConstantValue body is read as written too; a Code body
   * is read by ParseCode.
   */
  function AttributeAsWritten(s: seq<U1>, p: nat, pool: ConstantPool, reg: Registry): (o: Outcome<Attribute>)
    ensures o.Returned? && o.result.Ok? ==> p + 2 <= o.result.value.1 <= |s|
  {
    if |s| < p + 2 then Panics
    else
      var nameIndex := DecodeU2(s[p], s[p + 1]);
      var (length, p2) := U4AsWritten(s, p + 2);
      match Utf8Text(pool, nameIndex)
      case Err(_) => Panics
      case Ok(name) =>
        if name !in reg then
          match RawReadAsWritten(s, p2, length as nat)
          case Err(e) => Returned(Err(e))
          case Ok((data, q)) => Returned(Ok((Unknown(name, data), q)))
        else
          match reg[name]
          case ConstantValueReader => ConstantValueAsWritten(s, p2)
          case CodeReader => Returned(ParseCode(s, p2, pool, reg))
  }

  /** `n` records read as written, stopping at the first error or panic. */
  function AttributeListAsWritten(s: seq<U1>, p: nat, pool: ConstantPool, reg: Registry, n: nat): (o: Outcome<seq<Attribute>>)
    ensures o.Returned? && o.result.Ok? ==> |o.result.value.0| == n && p <= o.result.value.1
    ensures o.Returned? && o.result.Ok? && n > 0 ==> o.result.value.1 <= |s|
    decreases n
  {
    if n == 0 then Returned(Ok(([], p)))
    else
      match AttributeAsWritten(s, p, pool, reg)
      case Panics => Panics
      case Returned(Err(e)) => Returned(Err(e))
      case Returned(Ok((a, p1))) =>
        match AttributeListAsWritten(s, p1, pool, reg, n - 1)
        case Panics => Panics
        case Returned(Err(e)) => Returned(Err(e))
        case Returned(Ok((rest, q))) => Returned(Ok(([a] + rest, q)))
  }

  /** ReadAttributes as written: a count that cannot be read leaves an
      empty list and its error. */
  function AttributesAsWritten(s: seq<U1>, p: nat, pool: ConstantPool, reg: Registry): (o: Outcome<seq<Attribute>>)
    ensures o.Returned? && o.result.Ok? ==>
              && ParseU2(s, p).Ok?
              && |o.result.value.0| == ParseU2(s, p).value.0 as int
              && p + 2 <= o.result.value.1 <= |s|
  {
    match ParseU2(s, p)
    case Err(e) => Returned(Err(e))
    case Ok((count, p1)) => AttributeListAsWritten(s, p1, pool, reg, count as nat)
  }

  /** Wherever the intended reader decodes a record other than a
      ConstantValue, the reader as written returns the same record and
      position: the two part only on input cut short. */
  lemma AttributeAsWrittenAgrees(s: seq<U1>, p: nat, pool: ConstantPool, reg: Registry)
    requires p <= |s| && ParseAttribute(s, p, pool, reg).Ok?
    requires !ParseAttribute(s, p, pool, reg).value.0.ConstantValue?
    ensures AttributeAsWritten(s, p, pool, reg) == Returned(ParseAttribute(s, p, pool, reg))
  {
    var nameIndex := ParseU2(s, p).value.0;
    var name := Utf8Text(pool, nameIndex).value;
    if name !in reg {
      var length := ParseU4(s, p + 2).value.0 as nat;
      assert s[p + 6..p + 6 + length] + seq(0, _ => 0) == s[p + 6..p + 6 + length];
    }
  }

  /** Attribute "Foo" (pool slot 1) declaring four bytes of data. Cut after
      two of them, the reader as written pads them with zeros and reports
      no error; cut inside the length, it yields empty data and again no
      error. The intended reader reports ShortRead for both. */
  lemma UnknownAttributeCutCounterexample()
    ensures var pool: ConstantPool := [None, Some(Utf8("Foo"))];
            && AttributeAsWritten([0, 1, 0, 0, 0, 4, 0xAA, 0xBB], 0, pool, AttributeReaders)
               == Returned(Ok((Unknown("Foo", [0xAA, 0xBB, 0, 0]), 8)))
            && ParseAttribute([0, 1, 0, 0, 0, 4, 0xAA, 0xBB], 0, pool, AttributeReaders) == Err(ShortRead)
            && AttributeAsWritten([0, 1, 0, 0], 0, pool, AttributeReaders) == Returned(Ok((Unknown("Foo", []), 4)))
            && ParseAttribute([0, 1, 0, 0], 0, pool, AttributeReaders) == Err(ShortRead)
  {
    var pool: ConstantPool := [None, Some(Utf8("Foo"))];
    var s: seq<U1> := [0, 1, 0, 0, 0, 4, 0xAA, 0xBB];
    assert Utf8Text(pool, 1) == Ok("Foo");
    assert "Foo" !in AttributeReaders;
    assert ParseU4(s, 2) == Ok((4, 6));
    assert s[6..8] + seq(2, _ => 0) == [0xAA, 0xBB, 0, 0];
    assert ParseU4([0, 1, 0, 0], 2).Err?;
  }

  /** The ConstantValue reader as written panics on exactly the inputs the
      intended reader decodes, and agrees with it on the others. */
  lemma ConstantValueAsWrittenPanics(s: seq<U1>, p: nat)
    ensures ConstantValueAsWritten(s, p).Panics? <==> ParseConstantValue(s, p).Ok?
    ensures ConstantValueAsWritten(s, p).Returned? ==> ConstantValueAsWritten(s, p).result == ParseConstantValue(s, p)
  {
  }

  /** The exception-table entry read as written panics on exactly the
      inputs the intended read decodes, and agrees with it on the others. */
  lemma ExceptionEntryAsWrittenPanics(s: seq<U1>, p: nat)
    ensures ExceptionEntryAsWritten(s, p).Panics? <==> ParseExceptionEntry(s, p).Ok?
    ensures ExceptionEntryAsWritten(s, p).Returned? ==> ExceptionEntryAsWritten(s, p).result == ParseExceptionEntry(s, p)
  {
  }

  /** A ConstantValue body naming pool entry 5: the reader as written
      panics where the intended one returns the index. */
  lemma ConstantValueCounterexample()
    ensures ConstantValueAsWritten([0, 5], 0) == Panics
    ensures ParseConstantValue([0, 5], 0) == Ok((ConstantValue(5), 2))
  {
  }

  /** An exception-table entry covering pc 0 to 4 with its handler at 4
      catching any type. */
  lemma ExceptionEntryCounterexample()
    ensures ExceptionEntryAsWritten([0, 0, 0, 4, 0, 4, 0, 0], 0) == Panics
    ensures ParseExceptionEntry([0, 0, 0, 4, 0, 4, 0, 0], 0) == Ok((ExceptionTableEntry(0, 4, 4, 0), 8))
  {
  }

  /** The intended ConstantValue read: a big-endian u2 constant-pool index
      whenever two bytes remain, a ShortRead otherwise. */
  lemma ConstantValueIntended(s: seq<U1>, p: nat)
    ensures ParseConstantValue(s, p).Ok? <==> p + 2 <= |s|
    ensures ParseConstantValue(s, p).Ok? ==>
              ParseConstantValue(s, p) == Ok((ConstantValue(DecodeU2(s[p], s[p + 1])), p + 2))
    ensures ParseConstantValue(s, p).Err? ==> ParseConstantValue(s, p).error == ShortRead
  {
  }

  /** The intended entry read: four big-endian u2 fields in declaration
      order whenever eight bytes remain, a ShortRead otherwise. */
  lemma ExceptionEntryIntended(s: seq<U1>, p: nat)
    ensures ParseExceptionEntry(s, p).Ok? <==> p + 8 <= |s|
    ensures ParseExceptionEntry(s, p).Ok? ==>
              ParseExceptionEntry(s, p).value.0 ==
              ExceptionTableEntry(DecodeU2(s[p], s[p + 1]), DecodeU2(s[p + 2], s[p + 3]),
                                  DecodeU2(s[p + 4], s[p + 5]), DecodeU2(s[p + 6], s[p + 7]))
    ensures ParseExceptionEntry(s, p).Err? ==> ParseExceptionEntry(s, p).error == ShortRead
  {
  }

  // ---------------------------------------------------------------------
  // StackMapTable frame types (section 4.7.4)
  // ---------------------------------------------------------------------

  datatype FrameKind =
    | SameFrame
    | SameLocals1StackItem
    | Reserved
    | SameLocals1StackItemExtended
    | ChopFrame
    | SameFrameExtended
    | AppendFrame
    | FullFrame

  /** The frame shape a frame-type byte selects, tested from the top of the
      byte range down as the source does. */
  function FrameKindOf(frameType: U1): (k: FrameKind)
    ensures k == SameFrame <==> frameType <= 63
    ensures k == SameLocals1StackItem <==> 64 <= frameType <= 127
    ensures k == Reserved <==> 128 <= frameType <= 246
    ensures k == SameLocals1StackItemExtended <==> frameType == 247
    ensures k == ChopFrame <==> 248 <= frameType <= 250
    ensures k == SameFrameExtended <==> frameType == 251
    ensures k == AppendFrame <==> 252 <= frameType <= 254
    ensures k == FullFrame <==> frameType == 255
  {
    if frameType == 255 then FullFrame
    else if frameType > 251 then AppendFrame
    else if frameType == 251 then SameFrameExtended
    else if frameType > 247 then ChopFrame
    else if frameType == 247 then SameLocals1StackItemExtended
    else if frameType > 127 then Reserved
    else if frameType > 63 then SameLocals1StackItem
    else SameFrame
  }
}
