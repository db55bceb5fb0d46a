/** The save-file wire codec: little-endian writers, a bounds-checked cursor, and the proof that they are inverse. */
module Wire {
  import opened Prelude

  datatype WireError =
    | UnexpectedEof(offset: nat, needed: nat, remaining: nat)
    | InvalidBooleanTag(field: string, tag: u8)
    | LengthOverflow(field: string, value: nat)

  datatype Result<+T> = Ok(value: T) | Err(error: WireError)

  /** `n` bytes, least significant first. */
  function LeBytes(value: nat, n: nat): (bytes: seq<u8>)
    ensures |bytes| == n
  {
    if n == 0 then [] else [value % 0x100] + LeBytes(value / 0x100, n - 1)
  }

  function FromLe(bytes: seq<u8>): nat {
    if bytes == [] then 0 else bytes[0] + 0x100 * FromLe(bytes[1..])
  }

  function Pow256(n: nat): pos {
    if n == 0 then 1 else 0x100 * Pow256(n - 1)
  }

  lemma WordLimits()
    ensures Pow256(2) == 0x1_0000 && Pow256(4) == 0x1_0000_0000 && Pow256(8) == 0x1_0000_0000_0000_0000
  {
    assert Pow256(4) == 0x1_0000_0000;
    assert Pow256(6) == 0x1_0000_0000_0000;
  }

  lemma {:induction false} LeRoundTrip(value: nat, n: nat)
    requires value < Pow256(n)
    ensures FromLe(LeBytes(value, n)) == value
  {
    if n > 0 {
      LeRoundTrip(value / 0x100, n - 1);
    }
  }

  lemma {:induction false} LeBytesOfValue(bytes: seq<u8>)
    ensures FromLe(bytes) < Pow256(|bytes|)
    ensures LeBytes(FromLe(bytes), |bytes|) == bytes
  {
    hide *;
    if bytes == [] {
      LeEmpty();
    } else {
      LeBytesOfValue(bytes[1..]);
      LeHead(bytes);
      LeBytesHead(FromLe(bytes), |bytes|);
      assert bytes == [bytes[0]] + bytes[1..];
    }
  }

  lemma LeEmpty()
    ensures FromLe([]) == 0 < Pow256(0) && LeBytes(0, 0) == []
  {
  }

  /** The first byte is the lowest digit. */
  lemma LeHead(bytes: seq<u8>)
    requires bytes != []
    ensures FromLe(bytes) % 0x100 == bytes[0] && FromLe(bytes) / 0x100 == FromLe(bytes[1..])
    ensures FromLe(bytes[1..]) < Pow256(|bytes| - 1) ==> FromLe(bytes) < Pow256(|bytes|)
  {
    hide *;
    LeUnfolds(bytes);
    DivUnique(FromLe(bytes), 0x100, FromLe(bytes[1..]), bytes[0]);
  }

  lemma LeUnfolds(bytes: seq<u8>)
    requires bytes != []
    ensures FromLe(bytes) == bytes[0] + 0x100 * FromLe(bytes[1..])
    ensures Pow256(|bytes|) == 0x100 * Pow256(|bytes| - 1)
  {
  }

  lemma LeBytesHead(value: nat, n: pos)
    ensures LeBytes(value, n) == [value % 0x100] + LeBytes(value / 0x100, n - 1)
  {
  }

  datatype Field =
    | BoolField(flag: bool)
    | U16Field(word: u16)
    | U32Field(long: u32)
    | U64Field(quad: u64)
    | RawField(raw: seq<u8>)

  datatype FieldType = BoolType | U16Type | U32Type | U64Type | RawType(length: nat) {
    function Size(): nat {
      match this
      case BoolType => 1
      case U16Type => 2
      case U32Type => 4
      case U64Type => 8
      case RawType(length) => length
    }
  }

  function TypeOf(f: Field): FieldType {
    match f
    case BoolField(_) => BoolType
    case U16Field(_) => U16Type
    case U32Field(_) => U32Type
    case U64Field(_) => U64Type
    case RawField(raw) => RawType(|raw|)
  }

  function TypesOf(fields: seq<Field>): seq<FieldType> {
    if fields == [] then [] else [TypeOf(fields[0])] + TypesOf(fields[1..])
  }

  function EncodeField(f: Field): (bytes: seq<u8>)
    ensures |bytes| == TypeOf(f).Size()
  {
    match f
    case BoolField(flag) => [if flag then 1 else 0]
    case U16Field(word) => LeBytes(word, 2)
    case U32Field(long) => LeBytes(long, 4)
    case U64Field(quad) => LeBytes(quad, 8)
    case RawField(raw) => raw
  }

  /** The encodings byte by byte: one byte for a boolean, and words least significant byte first. */
  lemma EncodedBytes(flag: bool, word: u16, long: u32, quad: u64)
    ensures EncodeField(BoolField(flag)) == (if flag then [1] else [0])
    ensures EncodeField(U16Field(word)) == [word % 0x100, word / 0x100]
    ensures EncodeField(U32Field(long))
         == [long % 0x100, long / 0x100 % 0x100, long / 0x1_0000 % 0x100, long / 0x100_0000]
    ensures EncodeField(U64Field(quad))
         == EncodeField(U32Field(quad % 0x1_0000_0000)) + EncodeField(U32Field(quad / 0x1_0000_0000))
  {
    LowBytes(word);
    FourBytes(long);
    EightBytes(quad);
    hide LeBytes;
  }

  lemma LowBytes(word: u16)
    ensures LeBytes(word, 2) == [word % 0x100, word / 0x100]
  {
    assert LeBytes(word / 0x100, 1) == [word / 0x100] + LeBytes(word / 0x100 / 0x100, 0);
  }

  lemma FourBytes(value: u32)
    ensures LeBytes(value, 4)
         == [value % 0x100, value / 0x100 % 0x100, value / 0x1_0000 % 0x100, value / 0x100_0000]
  {
    LowBytes(value / 0x1_0000);
    assert value / 0x100 / 0x100 == value / 0x1_0000;
    assert LeBytes(value / 0x100, 3) == [value / 0x100 % 0x100] + LeBytes(value / 0x1_0000, 2);
  }

  /** Eight bytes are the four of the low half and the four of the high half. */
  lemma EightBytes(value: u64)
    ensures LeBytes(value, 8) == LeBytes(value % 0x1_0000_0000, 4) + LeBytes(value / 0x1_0000_0000, 4)
  {
    hide *;
    FourBytes(value % 0x1_0000_0000);
    FourMore(value);
    LowDigits(value);
  }

  lemma FourMore(value: nat)
    ensures LeBytes(value, 8)
         == [value % 0x100, value / 0x100 % 0x100, value / 0x1_0000 % 0x100, value / 0x100_0000 % 0x100]
            + LeBytes(value / 0x1_0000_0000, 4)
  {
    LeBytesHead(value, 8);
    LeBytesHead(value / 0x100, 7);
    LeBytesHead(value / 0x1_0000, 6);
    LeBytesHead(value / 0x100_0000, 5);
    hide LeBytes;
    assert value / 0x100 / 0x100 == value / 0x1_0000;
    assert value / 0x1_0000 / 0x100 == value / 0x100_0000;
    assert value / 0x100_0000 / 0x100 == value / 0x1_0000_0000;
  }

  lemma LowDigits(value: nat)
    ensures var low := value % 0x1_0000_0000;
      && low % 0x100 == value % 0x100 && low / 0x100 % 0x100 == value / 0x100 % 0x100
      && low / 0x1_0000 % 0x100 == value / 0x1_0000 % 0x100 && low / 0x100_0000 == value / 0x100_0000 % 0x100
  {
    var high, low := value / 0x1_0000_0000, value % 0x1_0000_0000;
    assert value == high * 0x1_0000_0000 + low && low / 0x100_0000 < 0x100;
    ModAddMultiple(low, high * 0x100_0000, 0x100);
    ModAddMultiple(low / 0x100, high * 0x1_0000, 0x100);
    ModAddMultiple(low, high * 0x1_0000, 0x1_0000);
    ModAddMultiple(low / 0x1_0000, high * 0x100, 0x100);
    ModAddMultiple(low, high * 0x100, 0x100_0000);
    ModAddMultiple(low / 0x100_0000, high, 0x100);
  }

  /** A boolean tag other than 0 and 1 is refused with the field's name and the tag. */
  lemma BadTagRefused(bytes: seq<u8>, offset: nat, name: string)
    requires offset < |bytes| && bytes[offset] >= 2
    ensures DecodeField(BoolType, bytes, offset, name) == Err(InvalidBooleanTag(name, bytes[offset]))
  {
  }

  function Encode(fields: seq<Field>): seq<u8> {
    if fields == [] then [] else EncodeField(fields[0]) + Encode(fields[1..])
  }

  /** Reading `length` bytes at `offset`: all of them or an error saying what was missing. */
  function Take(bytes: seq<u8>, offset: nat, length: nat): Result<seq<u8>>
    requires offset <= |bytes|
  {
    if |bytes| - offset < length then Err(UnexpectedEof(offset, length, |bytes| - offset))
    else Ok(bytes[offset..offset + length])
  }

  /** The value of a field's bytes; only a boolean can be malformed. */
  function Interpret(t: FieldType, raw: seq<u8>, name: string): Result<Field>
    requires |raw| == t.Size()
  {
    LeBytesOfValue(raw);
    WordLimits();
    match t
    case BoolType =>
      if raw[0] == 0 then Ok(BoolField(false))
      else if raw[0] == 1 then Ok(BoolField(true))
      else Err(InvalidBooleanTag(name, raw[0]))
    case U16Type => Ok(U16Field(FromLe(raw)))
    case U32Type => Ok(U32Field(FromLe(raw)))
    case U64Type => Ok(U64Field(FromLe(raw)))
    case RawType(_) => Ok(RawField(raw))
  }

  function DecodeField(t: FieldType, bytes: seq<u8>, offset: nat, name: string): Result<Field>
    requires offset <= |bytes|
  {
    var taken := Take(bytes, offset, t.Size());
    if taken.Err? then Err(taken.error) else Interpret(t, taken.value, name)
  }

  /** Reading the listed types one after another, stopping at the first error. */
  function Decode(types: seq<FieldType>, bytes: seq<u8>, offset: nat, name: string): Result<(seq<Field>, nat)>
    requires offset <= |bytes|
  {
    if types == [] then Ok(([], offset))
    else
      var first := DecodeField(types[0], bytes, offset, name);
      if first.Err? then Err(first.error)
      else
        var rest := Decode(types[1..], bytes, offset + types[0].Size(), name);
        if rest.Err? then Err(rest.error) else Ok(([first.value] + rest.value.0, rest.value.1))
  }

  lemma InterpretEncoded(f: Field, name: string)
    ensures Interpret(TypeOf(f), EncodeField(f), name) == Ok(f)
  {
    WordLimits();
    match f {
      case U16Field(word) => LeRoundTrip(word, 2);
      case U32Field(long) => LeRoundTrip(long, 4);
      case U64Field(quad) => LeRoundTrip(quad, 8);
      case _ =>
    }
    hide LeBytes, FromLe, Pow256;
  }

  /** Writing what was read restores the bytes: every field has one encoding. */
  lemma EncodeInterpreted(t: FieldType, raw: seq<u8>, name: string)
    requires |raw| == t.Size() && Interpret(t, raw, name).Ok?
    ensures TypeOf(Interpret(t, raw, name).value) == t
    ensures EncodeField(Interpret(t, raw, name).value) == raw
  {
    LeBytesOfValue(raw);
    hide LeBytes, FromLe, Pow256;
  }

  /** A field's encoding standing at `offset` is read, and the rest of the list is read after it. */
  lemma DecodeHead(fields: seq<Field>, bytes: seq<u8>, offset: nat, name: string)
    requires fields != [] && offset + |EncodeField(fields[0])| <= |bytes|
    requires bytes[offset..offset + |EncodeField(fields[0])|] == EncodeField(fields[0])
    ensures var rest := Decode(TypesOf(fields[1..]), bytes, offset + |EncodeField(fields[0])|, name);
      Decode(TypesOf(fields), bytes, offset, name)
      == if rest.Err? then Err(rest.error) else Ok(([fields[0]] + rest.value.0, rest.value.1))
  {
    hide *;
    TypesHead(fields);
    DecodeUnfolds(TypesOf(fields), bytes, offset, name);
    FieldRead(fields[0], bytes, offset, name);
  }

  lemma TypesHead(fields: seq<Field>)
    requires fields != []
    ensures var types := TypesOf(fields);
      types != [] && types[0] == TypeOf(fields[0]) && types[1..] == TypesOf(fields[1..])
  {
    assert TypesOf(fields)[1..] == TypesOf(fields[1..]);
    hide TypeOf;
  }

  lemma DecodeUnfolds(types: seq<FieldType>, bytes: seq<u8>, offset: nat, name: string)
    requires types != [] && offset + types[0].Size() <= |bytes|
    ensures var first, rest := DecodeField(types[0], bytes, offset, name),
                               Decode(types[1..], bytes, offset + types[0].Size(), name);
      Decode(types, bytes, offset, name)
      == if first.Err? then Err(first.error)
         else if rest.Err? then Err(rest.error) else Ok(([first.value] + rest.value.0, rest.value.1))
  {
    hide Interpret, FieldType.Size;
  }

  lemma FieldRead(f: Field, bytes: seq<u8>, offset: nat, name: string)
    requires offset + |EncodeField(f)| <= |bytes|
    requires bytes[offset..offset + |EncodeField(f)|] == EncodeField(f)
    ensures TypeOf(f).Size() == |EncodeField(f)|
    ensures DecodeField(TypeOf(f), bytes, offset, name) == Ok(f)
  {
    InterpretEncoded(f, name);
    hide Interpret, LeBytes, FromLe, Pow256;
  }

  lemma EncodeHead(fields: seq<Field>)
    requires fields != []
    ensures Encode(fields) == EncodeField(fields[0]) + Encode(fields[1..])
  {
  }

  lemma NothingToDecode(bytes: seq<u8>, offset: nat, name: string)
    requires offset <= |bytes|
    ensures Decode(TypesOf([]), bytes, offset, name) == Ok(([], offset)) && Encode([]) == []
  {
  }

  /** Reading back what was written returns the fields and stops exactly after them, wherever they stand. */
  lemma {:induction false} DecodeEncoded(fields: seq<Field>, before: seq<u8>, after: seq<u8>, name: string)
    ensures Decode(TypesOf(fields), before + Encode(fields) + after, |before|, name)
         == Ok((fields, |before| + |Encode(fields)|))
  {
    hide *;
    var bytes := before + Encode(fields) + after;
    if fields == [] {
      NothingToDecode(bytes, |before|, name);
    } else {
      var head, tail := EncodeField(fields[0]), Encode(fields[1..]);
      EncodeHead(fields);
      assert bytes == (before + head) + tail + after;
      assert bytes[|before|..|before| + |head|] == head;
      DecodeHead(fields, bytes, |before|, name);
      DecodeEncoded(fields[1..], before + head, after, name);
      assert fields == [fields[0]] + fields[1..];
    }
  }

  /** Cutting the encoding anywhere short of its end makes the read fail at the field that is cut, with what is
      missing from it. */
  lemma {:induction false} DecodeTruncated(fields: seq<Field>, before: seq<u8>, cut: nat, name: string)
    requires cut < |Encode(fields)|
    ensures var result := Decode(TypesOf(fields), before + Encode(fields)[..cut], |before|, name);
      && result.Err? && result.error.UnexpectedEof?
      && |before| <= result.error.offset <= |before| + cut
      && result.error.remaining == |before| + cut - result.error.offset < result.error.needed
  {
    hide *;
    var bytes := before + Encode(fields)[..cut];
    if fields == [] {
      NothingToDecode(bytes, |before|, name);
    } else {
      var head, tail := EncodeField(fields[0]), Encode(fields[1..]);
      EncodeHead(fields);
      if cut >= |head| {
        assert bytes == (before + head) + tail[..cut - |head|];
        assert bytes[|before|..|before| + |head|] == head;
        DecodeHead(fields, bytes, |before|, name);
        DecodeTruncated(fields[1..], before + head, cut - |head|, name);
      } else {
        DecodeShort(fields, bytes, |before|, name);
      }
    }
  }

  lemma DecodeShort(fields: seq<Field>, bytes: seq<u8>, offset: nat, name: string)
    requires fields != [] && offset <= |bytes| < offset + |EncodeField(fields[0])|
    ensures Decode(TypesOf(fields), bytes, offset, name)
         == Err(UnexpectedEof(offset, |EncodeField(fields[0])|, |bytes| - offset))
  {
    hide EncodeField, Interpret;
  }

  /** Whatever decodes is the encoding of what it decodes to: the codec is a bijection onto well-formed input. */
  lemma {:induction false} DecodedIsEncoded(types: seq<FieldType>, bytes: seq<u8>, offset: nat, name: string)
    requires offset <= |bytes| && Decode(types, bytes, offset, name).Ok?
    ensures var (fields, end) := Decode(types, bytes, offset, name).value;
      && offset <= end <= |bytes| && TypesOf(fields) == types && Encode(fields) == bytes[offset..end]
  {
    hide *;
    if types == [] {
      NothingDecoded(bytes, offset, name);
    } else {
      FirstDecoded(types, bytes, offset, name);
      var next, first := offset + types[0].Size(), DecodeField(types[0], bytes, offset, name).value;
      DecodedIsEncoded(types[1..], bytes, next, name);
      var (rest, end) := Decode(types[1..], bytes, next, name).value;
      assert ([first] + rest)[1..] == rest;
      assert bytes[offset..end] == bytes[offset..next] + bytes[next..end];
      EncodeHead([first] + rest);
      TypesUnfold([first] + rest);
      assert types == [types[0]] + types[1..];
    }
  }

  lemma NothingDecoded(bytes: seq<u8>, offset: nat, name: string)
    requires offset <= |bytes|
    ensures Decode([], bytes, offset, name) == Ok(([], offset)) && TypesOf([]) == [] && Encode([]) == []
  {
  }

  lemma TypesUnfold(fields: seq<Field>)
    requires fields != []
    ensures TypesOf(fields) == [TypeOf(fields[0])] + TypesOf(fields[1..])
  {
    hide TypeOf;
  }

  /** A list that decodes starts with a field that does, and that field is the decoding of its own bytes. */
  lemma FirstDecoded(types: seq<FieldType>, bytes: seq<u8>, offset: nat, name: string)
    requires types != [] && offset <= |bytes| && Decode(types, bytes, offset, name).Ok?
    ensures var next, first := offset + types[0].Size(), DecodeField(types[0], bytes, offset, name);
      && next <= |bytes| && first.Ok?
      && TypeOf(first.value) == types[0] && EncodeField(first.value) == bytes[offset..next]
      && Decode(types[1..], bytes, next, name).Ok?
      && Decode(types, bytes, offset, name).value
         == ([first.value] + Decode(types[1..], bytes, next, name).value.0,
             Decode(types[1..], bytes, next, name).value.1)
  {
    hide Interpret, EncodeField, TypeOf, FieldType.Size;
    var next := offset + types[0].Size();
    assert next <= |bytes|;
    EncodeInterpreted(types[0], bytes[offset..next], name);
  }

  class ByteVec {
    var data: seq<u8>

    constructor ()
      ensures data == []
    {
      data := [];
    }
  }

  method WriteBool(bytes: ByteVec, value: bool)
    modifies bytes
    ensures bytes.data == old(bytes.data) + EncodeField(BoolField(value))
  {
    bytes.data := bytes.data + [if value then 1 else 0];
  }

  method WriteU16(bytes: ByteVec, value: u16)
    modifies bytes
    ensures bytes.data == old(bytes.data) + EncodeField(U16Field(value))
  {
    bytes.data := bytes.data + LeBytes(value, 2);
  }

  method WriteU32(bytes: ByteVec, value: u32)
    modifies bytes
    ensures bytes.data == old(bytes.data) + EncodeField(U32Field(value))
  {
    bytes.data := bytes.data + LeBytes(value, 4);
  }

  method WriteU64(bytes: ByteVec, value: u64)
    modifies bytes
    ensures bytes.data == old(bytes.data) + EncodeField(U64Field(value))
  {
    bytes.data := bytes.data + LeBytes(value, 8);
  }

  /** A length that does not fit 32 bits is refused and nothing is written. */
  method WriteU32Checked(bytes: ByteVec, value: nat, field: string) returns (r: Result<()>)
    modifies bytes
    ensures value < 0x1_0000_0000 ==> r == Ok(()) && bytes.data == old(bytes.data) + EncodeField(U32Field(value))
    ensures value >= 0x1_0000_0000 ==> r == Err(LengthOverflow(field, value)) && bytes.data == old(bytes.data)
  {
    if value >= 0x1_0000_0000 {
      return Err(LengthOverflow(field, value));
    }
    WriteU32(bytes, value);
    r := Ok(());
  }

  class ByteCursor {
    const bytes: seq<u8>
    var offset: nat

    ghost predicate Valid()
      reads this
    {
      offset <= |bytes|
    }

    constructor (bytes: seq<u8>)
      ensures Valid() && this.bytes == bytes && offset == 0
    {
      this.bytes := bytes;
      offset := 0;
    }

    /** How far a read of one field moves the cursor: past its bytes, or nowhere when there are too few. */
    ghost function OffsetAfter(length: nat): nat
      requires Valid()
      reads this
    {
      if Take(bytes, offset, length).Ok? then offset + length else offset
    }

    method ReadExact(length: nat) returns (r: Result<seq<u8>>)
      requires Valid()
      modifies this
      ensures Valid() && r == Take(bytes, old(offset), length) && offset == old(OffsetAfter(length))
    {
      if |bytes| - offset < length {
        return Err(UnexpectedEof(offset, length, |bytes| - offset));
      }
      var start := offset;
      offset := offset + length;
      r := Ok(bytes[start..offset]);
    }

    method ReadU8() returns (r: Result<u8>)
      requires Valid()
      modifies this
      ensures Valid() && offset == old(OffsetAfter(1))
      ensures var taken := Take(bytes, old(offset), 1);
        r == if taken.Err? then Err(taken.error) else Ok(taken.value[0])
    {
      var raw := ReadExact(1);
      r := if raw.Err? then Err(raw.error) else Ok(raw.value[0]);
    }

    method ReadBool(field: string) returns (r: Result<Field>)
      requires Valid()
      modifies this
      ensures Valid() && r == DecodeField(BoolType, bytes, old(offset), field) && offset == old(OffsetAfter(1))
    {
      var tag := ReadU8();
      if tag.Err? {
        return Err(tag.error);
      }
      if tag.value == 0 {
        r := Ok(BoolField(false));
      } else if tag.value == 1 {
        r := Ok(BoolField(true));
      } else {
        r := Err(InvalidBooleanTag(field, tag.value));
      }
    }

    method ReadU16() returns (r: Result<Field>)
      requires Valid()
      modifies this
      ensures Valid() && r == DecodeField(U16Type, bytes, old(offset), "") && offset == old(OffsetAfter(2))
    {
      var raw := ReadExact(2);
      if raw.Err? {
        return Err(raw.error);
      }
      WordBound(raw.value);
      r := Ok(U16Field(FromLe(raw.value)));
    }

    method ReadU32() returns (r: Result<Field>)
      requires Valid()
      modifies this
      ensures Valid() && r == DecodeField(U32Type, bytes, old(offset), "") && offset == old(OffsetAfter(4))
    {
      var raw := ReadExact(4);
      if raw.Err? {
        return Err(raw.error);
      }
      WordBound(raw.value);
      r := Ok(U32Field(FromLe(raw.value)));
    }

    method ReadU64() returns (r: Result<Field>)
      requires Valid()
      modifies this
      ensures Valid() && r == DecodeField(U64Type, bytes, old(offset), "") && offset == old(OffsetAfter(8))
    {
      var raw := ReadExact(8);
      if raw.Err? {
        return Err(raw.error);
      }
      WordBound(raw.value);
      r := Ok(U64Field(FromLe(raw.value)));
    }

    method ReadVec(length: nat) returns (r: Result<Field>)
      requires Valid()
      modifies this
      ensures Valid() && r == DecodeField(RawType(length), bytes, old(offset), "") && offset == old(OffsetAfter(length))
    {
      var raw := ReadExact(length);
      r := if raw.Err? then Err(raw.error) else Ok(RawField(raw.value));
    }
  }

  lemma WordBound(raw: seq<u8>)
    ensures |raw| == 2 ==> FromLe(raw) < 0x1_0000
    ensures |raw| == 4 ==> FromLe(raw) < 0x1_0000_0000
    ensures |raw| == 8 ==> FromLe(raw) < 0x1_0000_0000_0000_0000
  {
    LeBytesOfValue(raw);
    WordLimits();
    hide FromLe, LeBytes, Pow256;
  }
}
