/**
 * The Protocol Buffers wire primitives of the worker's hand-written decoder:
 * base-128 varints (32-bit and BigInt flavours), skipping a field by wire
 * type, length-delimited strings and little-endian 32-bit floats.
 *
 * Every primitive reads a `Uint8Array` at a cursor and either returns a value
 * with the advanced cursor or throws. Each is given twice: a specification
 * function over the byte sequence, and a method over the byte array whose loop
 * follows the JavaScript one and is proved to compute the function.
 */
module Wire {
  import opened Results
  import opened Bits
  import Strings

  /** The errors the primitives throw. */
  datatype DecodeError =
    | TruncatedVarint32
    | Varint32TooLong
    | TruncatedVarint64
    | Varint64TooLong
    | TruncatedSkip
    | UnsupportedWireType(wire: nat)
    | OffsetOutOfBounds   // the RangeError of DataView.getFloat32

  /** The `message` of each thrown error. */
  function ErrorMessage(e: DecodeError): (m: string)
    ensures m != []
  {
    match e
    case TruncatedVarint32 => "Truncated varint32"
    case Varint32TooLong => "Varint32 too long"
    case TruncatedVarint64 => "Truncated varint64"
    case Varint64TooLong => "Varint64 too long"
    case TruncatedSkip => "Truncated skip(varint)"
    case UnsupportedWireType(w) => "Unsupported wire type " + Strings.Decimal(w)
    case OffsetOutOfBounds => "Offset is outside the bounds of the DataView"
  }

  /** Every byte of bytes[p..q] has its continuation bit (0x80) set. */
  ghost predicate Continues(bytes: seq<byte>, p: nat, q: nat) {
    forall k :: p <= k < q && k < |bytes| ==> bytes[k] >= 128
  }

  // ---------------------------------------------------------------------------
  // readVarint32

  /**
   * The loop of readVarint32 from a state (cursor p, shift, result so far).
   * `result |= (b & 0x7f) << shift` works on 32-bit words: JavaScript takes
   * the shift count mod 32 and drops the bits above bit 31.
   */
  function Varint32From(bytes: seq<byte>, p: nat, shift: nat, acc: nat): (r: Result<(nat, nat), DecodeError>)
    requires shift <= 35
    ensures r.Ok? ==> p < r.value.1 <= |bytes| && 7 * r.value.1 + shift <= 7 * p + 42
    decreases |bytes| - p
  {
    if p >= |bytes| then Err(TruncatedVarint32)
    else
      var b := bytes[p];
      var acc' := BitOr(acc, Shl(b % 128, shift % 32) % Word);
      if b < 128 then Ok((acc', p + 1))
      else if shift + 7 > 35 then Err(Varint32TooLong)
      else Varint32From(bytes, p + 1, shift + 7, acc')
  }

  /** One turn of the readVarint32 loop on a final byte. */
  lemma Varint32FromLast(bytes: seq<byte>, p: nat, shift: nat, acc: nat)
    requires shift <= 35
    requires p < |bytes| && bytes[p] < 128
    ensures Varint32From(bytes, p, shift, acc) == Ok((BitOr(acc, Shl(bytes[p] % 128, shift % 32) % Word), p + 1))
  {
  }

  /** One turn of the readVarint32 loop on a continuation byte. */
  lemma Varint32FromNext(bytes: seq<byte>, p: nat, shift: nat, acc: nat)
    requires shift + 7 <= 35
    requires p < |bytes| && bytes[p] >= 128
    ensures Varint32From(bytes, p, shift, acc)
         == Varint32From(bytes, p + 1, shift + 7, BitOr(acc, Shl(bytes[p] % 128, shift % 32) % Word))
  {
  }

  /** OR-ing in groups truncated to 32 bits keeps the result a 32-bit value. */
  lemma {:induction false} Varint32FromBound(bytes: seq<byte>, p: nat, shift: nat, acc: nat)
    requires shift <= 35 && acc < Word
    ensures var r := Varint32From(bytes, p, shift, acc);
      r.Ok? ==> r.value.0 < Word
    decreases |bytes| - p
  {
    if p < |bytes| {
      var bits := Shl(bytes[p] % 128, shift % 32) % Word;
      Pow2Word();
      BitOrBound(acc, bits, 32);
      if bytes[p] >= 128 && shift + 7 <= 35 {
        Varint32FromNext(bytes, p, shift, acc);
        Varint32FromBound(bytes, p + 1, shift + 7, BitOr(acc, bits));
      } else if bytes[p] < 128 {
        Varint32FromLast(bytes, p, shift, acc);
      }
    }
  }

  /** readVarint32(bytes, p): the value (as `>>> 0` leaves it) and the cursor after it. */
  function Varint32At(bytes: seq<byte>, p: nat): (r: Result<(nat, nat), DecodeError>)
    ensures r.Ok? ==> p < r.value.1 <= |bytes| && r.value.1 <= p + 6 && r.value.0 < Word
  {
    Varint32FromBound(bytes, p, 0, 0);
    Varint32From(bytes, p, 0, 0)
  }

  method ReadVarint32(bytes: array<byte>, p0: nat) returns (r: Result<(nat, nat), DecodeError>)
    ensures r == Varint32At(bytes[..], p0)
  {
    var result: nat, shift: nat, p: nat := 0, 0, p0;
    while true
      invariant shift <= 35
      invariant Varint32From(bytes[..], p, shift, result) == Varint32At(bytes[..], p0)
      decreases bytes.Length - p
    {
      if p >= bytes.Length {
        return Err(TruncatedVarint32);
      }
      var b := bytes[p];
      p := p + 1;
      result := BitOr(result, Shl(b % 128, shift % 32) % Word);
      if b < 128 {
        return Ok((result, p));
      }
      shift := shift + 7;
      if shift > 35 {
        return Err(Varint32TooLong);
      }
    }
  }

  // ---------------------------------------------------------------------------
  // readVarint64 (BigInt: no truncation)

  function Varint64From(bytes: seq<byte>, p: nat, shift: nat, acc: nat): (r: Result<(nat, nat), DecodeError>)
    requires shift <= 70
    ensures r.Ok? ==> p < r.value.1 <= |bytes| && 7 * r.value.1 + shift <= 7 * p + 77
    decreases |bytes| - p
  {
    if p >= |bytes| then Err(TruncatedVarint64)
    else
      var b := bytes[p];
      var acc' := BitOr(acc, Shl(b % 128, shift));
      if b < 128 then Ok((acc', p + 1))
      else if shift + 7 > 70 then Err(Varint64TooLong)
      else Varint64From(bytes, p + 1, shift + 7, acc')
  }

  lemma Varint64FromLast(bytes: seq<byte>, p: nat, shift: nat, acc: nat)
    requires shift <= 70
    requires p < |bytes| && bytes[p] < 128
    ensures Varint64From(bytes, p, shift, acc) == Ok((BitOr(acc, Shl(bytes[p] % 128, shift)), p + 1))
  {
  }

  lemma Varint64FromNext(bytes: seq<byte>, p: nat, shift: nat, acc: nat)
    requires shift + 7 <= 70
    requires p < |bytes| && bytes[p] >= 128
    ensures Varint64From(bytes, p, shift, acc) == Varint64From(bytes, p + 1, shift + 7, BitOr(acc, Shl(bytes[p] % 128, shift)))
  {
  }

  /** The groups read so far never reach above bit shift + 7 * (bytes read). */
  lemma {:induction false} Varint64FromBound(bytes: seq<byte>, p: nat, shift: nat, acc: nat)
    requires shift <= 70 && acc < Pow2(shift)
    ensures var r := Varint64From(bytes, p, shift, acc);
      r.Ok? ==> r.value.0 < Pow2(shift + 7 * (r.value.1 - p))
    decreases |bytes| - p
  {
    if p < |bytes| {
      OrGroup(acc, bytes[p] % 128, shift);
      if bytes[p] >= 128 && shift + 7 <= 70 {
        Varint64FromNext(bytes, p, shift, acc);
        Varint64FromBound(bytes, p + 1, shift + 7, BitOr(acc, Shl(bytes[p] % 128, shift)));
      } else if bytes[p] < 128 {
        Varint64FromLast(bytes, p, shift, acc);
      }
    }
  }

  /** readVarint64(bytes, p): the BigInt value and the cursor after it. */
  function Varint64At(bytes: seq<byte>, p: nat): (r: Result<(nat, nat), DecodeError>)
    ensures r.Ok? ==> p < r.value.1 <= |bytes| && r.value.1 <= p + 11
    ensures r.Ok? ==> r.value.0 < Pow2(7 * (r.value.1 - p))
  {
    Varint64FromBound(bytes, p, 0, 0);
    Varint64From(bytes, p, 0, 0)
  }

  method ReadVarint64(bytes: array<byte>, p0: nat) returns (r: Result<(nat, nat), DecodeError>)
    ensures r == Varint64At(bytes[..], p0)
  {
    var result: nat, shift: nat, p: nat := 0, 0, p0;
    while true
      invariant shift <= 70
      invariant Varint64From(bytes[..], p, shift, result) == Varint64At(bytes[..], p0)
      decreases bytes.Length - p
    {
      if p >= bytes.Length {
        return Err(TruncatedVarint64);
      }
      var b := bytes[p];
      p := p + 1;
      result := BitOr(result, Shl(b % 128, shift));
      if b < 128 {
        return Ok((result, p));
      }
      shift := shift + 7;
      if shift > 70 {
        return Err(Varint64TooLong);
      }
    }
  }

  // ---------------------------------------------------------------------------
  // skipField

  /** The wire-type-0 branch of skipField: no length limit, only the end of the buffer. */
  function SkipVarintAt(bytes: seq<byte>, p: nat): (r: Result<nat, DecodeError>)
    ensures r.Ok? ==> p < r.value <= |bytes|
    decreases |bytes| - p
  {
    if p >= |bytes| then Err(TruncatedSkip)
    else if bytes[p] < 128 then Ok(p + 1)
    else SkipVarintAt(bytes, p + 1)
  }

  /** skipField(bytes, p, wire): the cursor after a field whose tag has been read. */
  function SkipFieldAt(bytes: seq<byte>, p: nat, wire: nat): (r: Result<nat, DecodeError>)
    ensures r.Ok? ==> r.value > p
    ensures r.Err? ==> wire in {0, 2} || r.error == UnsupportedWireType(wire)
    ensures wire == 0 ==> r == SkipVarintAt(bytes, p)
    ensures wire == 1 ==> r == Ok(p + 8)
    ensures wire == 2 ==> match Varint32At(bytes, p)
      case Ok((len, start)) => r == Ok(start + len)
      case Err(e) => r == Err(e)
    ensures wire == 5 ==> r == Ok(p + 4)
    ensures wire !in {0, 1, 2, 5} ==> r == Err(UnsupportedWireType(wire))
  {
    if wire == 0 then SkipVarintAt(bytes, p)
    else if wire == 1 then Ok(p + 8)
    else if wire == 2 then
      var lp :- Varint32At(bytes, p);
      Ok(lp.1 + lp.0)
    else if wire == 5 then Ok(p + 4)
    else Err(UnsupportedWireType(wire))
  }

  method SkipField(bytes: array<byte>, p0: nat, wire: nat) returns (r: Result<nat, DecodeError>)
    ensures r == SkipFieldAt(bytes[..], p0, wire)
  {
    if wire == 0 {
      var p := p0;
      while true
        invariant SkipVarintAt(bytes[..], p) == SkipVarintAt(bytes[..], p0)
        decreases bytes.Length - p
      {
        if p >= bytes.Length {
          return Err(TruncatedSkip);
        }
        var b := bytes[p];
        p := p + 1;
        if b < 128 {
          return Ok(p);
        }
      }
    } else if wire == 1 {
      return Ok(p0 + 8);
    } else if wire == 2 {
      var lp := ReadVarint32(bytes, p0);
      if lp.Err? {
        return Err(lp.error);
      }
      return Ok(lp.value.1 + lp.value.0);
    } else if wire == 5 {
      return Ok(p0 + 4);
    } else {
      return Err(UnsupportedWireType(wire));
    }
  }

  // ---------------------------------------------------------------------------
  // readString

  /** The byte-order mark that `TextDecoder("utf-8")` strips from the front of its input. */
  const Bom: seq<byte> := [0xEF, 0xBB, 0xBF]

  /**
   * `DECODER.decode(slice)`. The decoded string is represented by its bytes,
   * one character per byte, after the leading byte-order mark is removed.
   */
  function DecodeUtf8(slice: seq<byte>): (s: string)
    ensures s == [] <==> slice == [] || slice == Bom
  {
    Chars(if StartsWithBom(slice) then slice[3..] else slice)
  }

  predicate StartsWithBom(slice: seq<byte>) {
    |slice| >= 3 && slice[0] == 0xEF && slice[1] == 0xBB && slice[2] == 0xBF
  }

  /** Each byte read as the character with that code. */
  function Chars(body: seq<byte>): (s: string)
    ensures |s| == |body|
  {
    if body == [] then [] else [body[0] as char] + Chars(body[1..])
  }

  /**
   * readString(bytes, p): a length prefix, then that many bytes. `subarray`
   * clamps the slice to the buffer, but the returned cursor is not clamped.
   */
  function StringAt(bytes: seq<byte>, p: nat): (r: Result<(string, nat), DecodeError>)
    ensures r.Ok? ==> r.value.1 > p
    ensures match Varint32At(bytes, p)
      case Err(e) => r == Err(e)
      case Ok((len, start)) =>
        && r.Ok? && r.value.1 == start + len
        && r.value.0 == DecodeUtf8(bytes[start .. if start + len <= |bytes| then start + len else |bytes|])
  {
    var lp :- Varint32At(bytes, p);
    var start, end := lp.1, lp.1 + lp.0;
    Ok((DecodeUtf8(bytes[start .. if end <= |bytes| then end else |bytes|]), end))
  }

  method ReadString(bytes: array<byte>, p: nat) returns (r: Result<(string, nat), DecodeError>)
    ensures r == StringAt(bytes[..], p)
  {
    var lp := ReadVarint32(bytes, p);
    if lp.Err? {
      return Err(lp.error);
    }
    var start := lp.value.1;
    var end := start + lp.value.0;
    var s := DecodeUtf8(bytes[start .. if end <= bytes.Length then end else bytes.Length]);
    return Ok((s, end));
  }

  // ---------------------------------------------------------------------------
  // DataView.getFloat32(p, true)

  /** An IEEE-754 single-precision number, kept as its four little-endian bytes. */
  datatype Float32 = Float32(b0: byte, b1: byte, b2: byte, b3: byte)

  /** `Number.isFinite`: the 8-bit exponent (bits 23..30) is not all ones. */
  predicate IsFinite(f: Float32) {
    !(f.b3 % 128 == 127 && f.b2 >= 128)
  }

  /** The quiet NaN 0x7FC00000, the parsers' initial latitude, longitude and bearing. */
  const NaN: Float32 := Float32(0x00, 0x00, 0xC0, 0x7F)

  /** getFloat32 throws a RangeError when the four bytes do not all lie in the buffer. */
  function Float32At(bytes: seq<byte>, p: nat): (r: Result<Float32, DecodeError>)
    ensures r.Ok? <==> p + 4 <= |bytes|
    ensures r.Ok? ==> [r.value.b0, r.value.b1, r.value.b2, r.value.b3] == bytes[p .. p + 4]
  {
    if p + 4 <= |bytes| then Ok(Float32(bytes[p], bytes[p + 1], bytes[p + 2], bytes[p + 3]))
    else Err(OffsetOutOfBounds)
  }

  method GetFloat32(bytes: array<byte>, p: nat) returns (r: Result<Float32, DecodeError>)
    ensures r == Float32At(bytes[..], p)
  {
    if p + 4 > bytes.Length {
      return Err(OffsetOutOfBounds);
    }
    return Ok(Float32(bytes[p], bytes[p + 1], bytes[p + 2], bytes[p + 3]));
  }

  // ---------------------------------------------------------------------------
  // What the varint and skip loops accept and reject

  /**
   * readVarint32 stops one past the first byte whose top bit is clear; it
   * throws "Varint32 too long" when the six bytes it may read all continue,
   * and "Truncated varint32" when the buffer ends before that.
   */
  lemma {:induction false} Varint32FromOutcome(bytes: seq<byte>, p: nat, shift: nat, acc: nat, limit: nat)
    requires shift <= 35 && shift + 7 * (limit - p) == 42
    ensures var r := Varint32From(bytes, p, shift, acc);
      && (r.Ok? ==> Continues(bytes, p, r.value.1 - 1) && bytes[r.value.1 - 1] < 128)
      && (r == Err(Varint32TooLong) <==> limit <= |bytes| && Continues(bytes, p, limit))
      && (r == Err(TruncatedVarint32) <==> |bytes| < limit && Continues(bytes, p, |bytes|))
      && (r.Ok? || r == Err(Varint32TooLong) || r == Err(TruncatedVarint32))
    decreases |bytes| - p
  {
    if p < |bytes| && bytes[p] >= 128 && shift + 7 <= 35 {
      Varint32FromNext(bytes, p, shift, acc);
      Varint32FromOutcome(bytes, p + 1, shift + 7, BitOr(acc, Shl(bytes[p] % 128, shift % 32) % Word), limit);
    }
  }

  lemma Varint32Outcome(bytes: seq<byte>, p: nat)
    ensures var r := Varint32At(bytes, p);
      && (r.Ok? ==> Continues(bytes, p, r.value.1 - 1) && bytes[r.value.1 - 1] < 128)
      && (r == Err(Varint32TooLong) <==> p + 6 <= |bytes| && Continues(bytes, p, p + 6))
      && (r == Err(TruncatedVarint32) <==> |bytes| < p + 6 && Continues(bytes, p, |bytes|))
      && (r.Ok? || r == Err(Varint32TooLong) || r == Err(TruncatedVarint32))
  {
    Varint32FromOutcome(bytes, p, 0, 0, p + 6);
  }

  /** readVarint64 reads at most eleven bytes, with the same stopping rule. */
  lemma {:induction false} Varint64FromOutcome(bytes: seq<byte>, p: nat, shift: nat, acc: nat, limit: nat)
    requires shift <= 70 && shift + 7 * (limit - p) == 77
    ensures var r := Varint64From(bytes, p, shift, acc);
      && (r.Ok? ==> Continues(bytes, p, r.value.1 - 1) && bytes[r.value.1 - 1] < 128)
      && (r == Err(Varint64TooLong) <==> limit <= |bytes| && Continues(bytes, p, limit))
      && (r == Err(TruncatedVarint64) <==> |bytes| < limit && Continues(bytes, p, |bytes|))
      && (r.Ok? || r == Err(Varint64TooLong) || r == Err(TruncatedVarint64))
    decreases |bytes| - p
  {
    if p < |bytes| && bytes[p] >= 128 && shift + 7 <= 70 {
      Varint64FromNext(bytes, p, shift, acc);
      Varint64FromOutcome(bytes, p + 1, shift + 7, BitOr(acc, Shl(bytes[p] % 128, shift)), limit);
    }
  }

  lemma Varint64Outcome(bytes: seq<byte>, p: nat)
    ensures var r := Varint64At(bytes, p);
      && (r.Ok? ==> Continues(bytes, p, r.value.1 - 1) && bytes[r.value.1 - 1] < 128)
      && (r == Err(Varint64TooLong) <==> p + 11 <= |bytes| && Continues(bytes, p, p + 11))
      && (r == Err(TruncatedVarint64) <==> |bytes| < p + 11 && Continues(bytes, p, |bytes|))
      && (r.Ok? || r == Err(Varint64TooLong) || r == Err(TruncatedVarint64))
  {
    Varint64FromOutcome(bytes, p, 0, 0, p + 11);
  }

  /** The wire-type-0 skip has no length limit: it fails only when the buffer ends first. */
  lemma {:induction false} SkipVarintOutcome(bytes: seq<byte>, p: nat)
    ensures var r := SkipVarintAt(bytes, p);
      && (r.Ok? ==> Continues(bytes, p, r.value - 1) && bytes[r.value - 1] < 128)
      && (r.Err? <==> Continues(bytes, p, |bytes|))
      && (r.Err? ==> r.error == TruncatedSkip)
    decreases |bytes| - p
  {
    if p < |bytes| && bytes[p] >= 128 {
      SkipVarintOutcome(bytes, p + 1);
    }
  }
}
