/**
 * Fixed-width unsigned integers, decode results, and the forward-only byte
 * reader every part of the class-file decoder reads from (types.go).
 *
 * Two views of reading are given side by side:
 *  - the specification view: pure functions that take the whole input `s`
 *    and a position `p` and return the decoded value together with the
 *    position just after it (`Parsed<T>`), or a failure;
 *  - the imperative view: a `Reader` object whose `pos` field advances as
 *    bytes are consumed, and methods that are proved to agree with the
 *    specification view (`Mirrors`).
 */
module Types {

  /** The unsigned widths of the class-file format (types.go: U1, U2, U4). */
  newtype U1 = x: int | 0 <= x < 0x100
  newtype U2 = x: int | 0 <= x < 0x1_0000
  newtype U4 = x: int | 0 <= x < 0x1_0000_0000

  datatype Option<+T> = None | Some(value: T)

  /** The failures a decode can end in. */
  datatype DecodeError =
    | ShortRead                      // the input ended before a field was complete
    | UnsupportedConstant(tag: U1)   // a constant-pool tag this decoder does not decode
    | InvalidReference(index: U2)    // a pool index that does not hold the Utf8 text expected there

  datatype Result<+T> = Ok(value: T) | Err(error: DecodeError) {
    predicate IsFailure() { Err? }
    function PropagateFailure<U>(): Result<U> requires Err? { Err(error) }
    function Extract(): T requires Ok? { value }
  }

  /** A decoded value together with the input position just after it. */
  type Parsed<T> = Result<(T, nat)>

  /** The result of an imperative read `res`, leaving the reader at `pos`,
      is the one the specification `spec` describes. */
  ghost predicate Mirrors<T>(res: Result<T>, pos: nat, spec: Parsed<T>) {
    match spec
    case Ok((v, q)) => res == Ok(v) && pos == q
    case Err(e) => res == Err(e)
  }

  /** Parsing the input cut after its first `k` bytes gives `cut`, where
      parsing the whole input gave `full`: a decode that ends at or before
      the cut is unchanged, one that needs bytes past it fails with ShortRead. */
  ghost predicate TruncatedAgrees<T>(full: Parsed<T>, cut: Parsed<T>, k: nat) {
    full.Ok? ==> if full.value.1 <= k then cut == full else cut == Err(ShortRead)
  }

  /** The weaker form: a decode that ends at or before the cut is
      unchanged, one that needs bytes past it fails (with some error). */
  ghost predicate TruncatedFails<T>(full: Parsed<T>, cut: Parsed<T>, k: nat) {
    full.Ok? ==> if full.value.1 <= k then cut == full else cut.Err?
  }

  // ---------------------------------------------------------------------
  // Big-endian values
  // ---------------------------------------------------------------------

  function DecodeU2(b0: U1, b1: U1): U2 {
    (b0 as int * 0x100 + b1 as int) as U2
  }

  function DecodeU4(b0: U1, b1: U1, b2: U1, b3: U1): U4 {
    (b0 as int * 0x100_0000 + b1 as int * 0x1_0000 + b2 as int * 0x100 + b3 as int) as U4
  }

  /** The two big-endian bytes that a writer of the format emits for `n`. */
  function EncodeU2(n: U2): seq<U1> {
    [(n as int / 0x100) as U1, (n as int % 0x100) as U1]
  }

  /** The four big-endian bytes that a writer of the format emits for `n`. */
  function EncodeU4(n: U4): seq<U1> {
    var x := n as int;
    var y := x / 0x100;
    var z := y / 0x100;
    [(z / 0x100) as U1, (z % 0x100) as U1, (y % 0x100) as U1, (x % 0x100) as U1]
  }

  // ---------------------------------------------------------------------
  // Specification view of the primitive reads
  // ---------------------------------------------------------------------

  /** One byte; the only failure is running out of input. */
  function ParseU1(s: seq<U1>, p: nat): (r: Parsed<U1>)
    ensures r.Ok? <==> p < |s|
    ensures r.Ok? ==> r.value == (s[p], p + 1)
    ensures r.Err? ==> r.error == ShortRead
  {
    if p + 1 <= |s| then Ok((s[p], p + 1)) else Err(ShortRead)
  }

  /** A big-endian u2: the first byte is the high one. */
  function ParseU2(s: seq<U1>, p: nat): (r: Parsed<U2>)
    ensures r.Ok? <==> p + 2 <= |s|
    ensures r.Ok? ==> r.value.1 == p + 2 && r.value.0 as int == s[p] as int * 0x100 + s[p + 1] as int
    ensures r.Err? ==> r.error == ShortRead
  {
    if p + 2 <= |s| then Ok((DecodeU2(s[p], s[p + 1]), p + 2)) else Err(ShortRead)
  }

  /** A big-endian u4: the bytes from the most significant down. */
  function ParseU4(s: seq<U1>, p: nat): (r: Parsed<U4>)
    ensures r.Ok? <==> p + 4 <= |s|
    ensures r.Ok? ==> r.value.1 == p + 4 &&
                      r.value.0 as int == s[p] as int * 0x100_0000 + s[p + 1] as int * 0x1_0000
                                          + s[p + 2] as int * 0x100 + s[p + 3] as int
    ensures r.Err? ==> r.error == ShortRead
  {
    if p + 4 <= |s| then Ok((DecodeU4(s[p], s[p + 1], s[p + 2], s[p + 3]), p + 4)) else Err(ShortRead)
  }

  /** A raw run of `n` bytes, taken verbatim. */
  function ParseBytes(s: seq<U1>, p: nat, n: nat): (r: Parsed<seq<U1>>)
    ensures r.Ok? <==> p + n <= |s|
    ensures r.Ok? ==> |r.value.0| == n && r.value.1 == p + n &&
                      forall i :: 0 <= i < n ==> r.value.0[i] == s[p + i]
    ensures r.Err? ==> r.error == ShortRead
  {
    if p + n <= |s| then Ok((s[p..p + n], p + n)) else Err(ShortRead)
  }

  /** Go's string(bytes): a byte string, one character per byte. */
  function Text(bytes: seq<U1>): (t: string)
    ensures |t| == |bytes|
  {
    seq(|bytes|, i requires 0 <= i < |bytes| => bytes[i] as int as char)
  }

  /** Text whose every character is a byte value, as Text yields. */
  predicate IsByteText(t: string) {
    forall i :: 0 <= i < |t| ==> t[i] as int < 0x100
  }

  /** The bytes a writer of the format emits for byte text `t`. */
  function TextBytes(t: string): (b: seq<U1>)
    requires IsByteText(t)
    ensures |b| == |t| && Text(b) == t
  {
    var b := seq(|t|, i requires 0 <= i < |t| => t[i] as int as U1);
    assert forall i :: 0 <= i < |t| ==> Text(b)[i] == t[i];
    b
  }

  /** Text loses nothing: its characters are bytes, and they encode back
      to the bytes they came from. */
  lemma TextRoundTrip(b: seq<U1>)
    ensures IsByteText(Text(b)) && TextBytes(Text(b)) == b
  {
    assert IsByteText(Text(b)) by {
      forall i | 0 <= i < |b| ensures Text(b)[i] as int < 0x100 {
        assert Text(b)[i] == b[i] as int as char;
      }
    }
    assert forall i :: 0 <= i < |b| ==> TextBytes(Text(b))[i] == b[i];
  }

  // ---------------------------------------------------------------------
  // Lemmas on the primitive reads
  // ---------------------------------------------------------------------

  /** Reading back two bytes written for `n` yields `n` and consumes them. */
  lemma U2RoundTrip(n: U2, s: seq<U1>, p: nat)
    requires p + 2 <= |s| && s[p..p + 2] == EncodeU2(n)
    ensures ParseU2(s, p) == Ok((n, p + 2))
  {
    assert s[p] == EncodeU2(n)[0] && s[p + 1] == EncodeU2(n)[1];
  }

  /** Every value ParseU2 yields is the one the two bytes it consumed encode. */
  lemma U2Canonical(s: seq<U1>, p: nat)
    requires ParseU2(s, p).Ok?
    ensures EncodeU2(ParseU2(s, p).value.0) == s[p..p + 2]
  {
    var x := ParseU2(s, p).value.0 as int;
    var b0, b1 := s[p] as int, s[p + 1] as int;
    assert x == b0 * 0x100 + b1;
    assert x / 0x100 == b0 && x % 0x100 == b1;
  }

  /** Reading back four bytes written for `n` yields `n` and consumes them. */
  lemma U4RoundTrip(n: U4, s: seq<U1>, p: nat)
    requires p + 4 <= |s| && s[p..p + 4] == EncodeU4(n)
    ensures ParseU4(s, p) == Ok((n, p + 4))
  {
    var b := EncodeU4(n);
    assert s[p] == b[0] && s[p + 1] == b[1] && s[p + 2] == b[2] && s[p + 3] == b[3];
    var x := n as int;
    var y := x / 0x100;
    var z := y / 0x100;
    assert x == y * 0x100 + x % 0x100;
    assert y == z * 0x100 + y % 0x100;
    assert z == (z / 0x100) * 0x100 + z % 0x100;
  }

  /** Every value ParseU4 yields is the one the four bytes it consumed encode. */
  lemma U4Canonical(s: seq<U1>, p: nat)
    requires ParseU4(s, p).Ok?
    ensures EncodeU4(ParseU4(s, p).value.0) == s[p..p + 4]
  {
    var x := ParseU4(s, p).value.0 as int;
    var b0, b1, b2, b3 := s[p] as int, s[p + 1] as int, s[p + 2] as int, s[p + 3] as int;
    var z := b0 * 0x100 + b1;
    var y := z * 0x100 + b2;
    assert x == y * 0x100 + b3;
    assert x / 0x100 == y && x % 0x100 == b3;
    assert y / 0x100 == z && y % 0x100 == b2;
    assert z / 0x100 == b0 && z % 0x100 == b1;
  }

  /** Cutting the input never changes a primitive read that fits before the
      cut, and turns one that does not into a ShortRead. */
  lemma PrimitivesTruncated(s: seq<U1>, p: nat, n: nat, k: nat)
    requires k <= |s|
    ensures TruncatedAgrees(ParseU1(s, p), ParseU1(s[..k], p), k)
    ensures TruncatedAgrees(ParseU2(s, p), ParseU2(s[..k], p), k)
    ensures TruncatedAgrees(ParseU4(s, p), ParseU4(s[..k], p), k)
    ensures TruncatedAgrees(ParseBytes(s, p, n), ParseBytes(s[..k], p, n), k)
  {
    if p + n <= k {
      assert s[..k][p..p + n] == s[p..p + n];
    }
  }

  // ---------------------------------------------------------------------
  // Imperative view: the reader
  // ---------------------------------------------------------------------

  /** The byte source: an opened class file, read forward only. */
  class Reader {
    const data: seq<U1>
    var pos: nat

    ghost predicate Valid()
      reads this
    {
      pos <= |data|
    }

    constructor (data: seq<U1>)
      ensures Valid() && this.data == data && pos == 0
    {
      this.data := data;
      pos := 0;
    }

    /** Fills `buf` from the current position as a read(2) on a regular
        file does: as many bytes as are left, up to the buffer's length;
        end of file is reported only when a non-empty buffer finds nothing left. */
    method Read(buf: array<U1>) returns (num: nat, eof: bool)
      requires Valid()
      modifies this, buf
      ensures Valid()
      ensures eof <==> buf.Length > 0 && old(pos) == |data|
      ensures num == if buf.Length <= |data| - old(pos) then buf.Length else |data| - old(pos)
      ensures pos == old(pos) + num
      ensures buf[..num] == data[old(pos)..pos]
      ensures buf[num..] == old(buf[num..])
    {
      eof := buf.Length > 0 && pos == |data|;
      num := if buf.Length <= |data| - pos then buf.Length else |data| - pos;
      var i := 0;
      while i < num
        invariant 0 <= i <= num && pos == old(pos)
        invariant buf[..i] == data[pos..pos + i]
        invariant buf[num..] == old(buf[num..])
      {
        buf[i] := data[pos + i];
        i := i + 1;
      }
      pos := pos + num;
    }
  }

  /** Reads one byte; on a short read, reports ShortRead, yields 0 and
      leaves the reader drained. */
  method ReadU1(r: Reader) returns (v: U1, err: Option<DecodeError>)
    requires r.Valid()
    modifies r
    ensures r.Valid()
    ensures err.None? <==> old(r.pos) + 1 <= |r.data|
    ensures err.None? ==> v == r.data[old(r.pos)] && r.pos == old(r.pos) + 1
    ensures err.Some? ==> err == Some(ShortRead) && v == 0 && r.pos == |r.data|
    ensures Mirrors(if err.None? then Ok(v) else Err(err.value), r.pos, ParseU1(r.data, old(r.pos)))
  {
    err := None;
    var bytes := new U1[1](_ => 0);
    var num, eof := r.Read(bytes);
    if eof {
      return 0, Some(ShortRead);
    }
    if num != 1 {
      err := Some(ShortRead);
    }
    v := bytes[0];
  }

  /** Reads a big-endian u2; on a short read, reports ShortRead, yields 0
      and leaves the reader drained. */
  method ReadU2(r: Reader) returns (v: U2, err: Option<DecodeError>)
    requires r.Valid()
    modifies r
    ensures r.Valid()
    ensures err.None? <==> old(r.pos) + 2 <= |r.data|
    ensures err.None? ==> v as int == r.data[old(r.pos)] as int * 0x100 + r.data[old(r.pos) + 1] as int
    ensures err.None? ==> r.pos == old(r.pos) + 2
    ensures err.Some? ==> err == Some(ShortRead) && v == 0 && r.pos == |r.data|
    ensures Mirrors(if err.None? then Ok(v) else Err(err.value), r.pos, ParseU2(r.data, old(r.pos)))
  {
    var bytes := new U1[2](_ => 0);
    var num, eof := r.Read(bytes);
    if eof {
      return 0, Some(ShortRead);
    }
    if num != 2 {
      return 0, Some(ShortRead);
    }
    v := DecodeU2(bytes[0], bytes[1]);
    err := None;
  }

  /** Reads a big-endian u4; on a short read, reports ShortRead, yields 0
      and leaves the reader drained. */
  method ReadU4(r: Reader) returns (v: U4, err: Option<DecodeError>)
    requires r.Valid()
    modifies r
    ensures r.Valid()
    ensures err.None? <==> old(r.pos) + 4 <= |r.data|
    ensures err.None? ==> v as int == r.data[old(r.pos)] as int * 0x100_0000 + r.data[old(r.pos) + 1] as int * 0x1_0000
                                    + r.data[old(r.pos) + 2] as int * 0x100 + r.data[old(r.pos) + 3] as int
    ensures err.None? ==> r.pos == old(r.pos) + 4
    ensures err.Some? ==> err == Some(ShortRead) && v == 0 && r.pos == |r.data|
    ensures Mirrors(if err.None? then Ok(v) else Err(err.value), r.pos, ParseU4(r.data, old(r.pos)))
  {
    var bytes := new U1[4](_ => 0);
    var num, eof := r.Read(bytes);
    if eof {
      return 0, Some(ShortRead);
    }
    if num != 4 {
      return 0, Some(ShortRead);
    }
    v := DecodeU4(bytes[0], bytes[1], bytes[2], bytes[3]);
    err := None;
  }

  /** Reads a run of `n` raw bytes into a fresh buffer. Unlike the source,
      which ignores the count a raw read returns, a run that finds fewer
      than `n` bytes left fails with ShortRead. */
  method ReadRun(r: Reader, n: nat) returns (res: Result<seq<U1>>)
    requires r.Valid()
    modifies r
    ensures r.Valid()
    ensures Mirrors(res, r.pos, ParseBytes(r.data, old(r.pos), n))
  {
    var buf := new U1[n](_ => 0);
    var num, eof := r.Read(buf);
    if eof || num != n {
      return Err(ShortRead);
    }
    assert buf[..] == buf[..num];
    return Ok(buf[..]);
  }
}
