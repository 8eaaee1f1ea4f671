/**
 * The canonical Protocol Buffers encodings of the wire primitives, and the
 * proofs that the decoder reads each of them back: the inverse direction of
 * the worker's readVarint32, readVarint64, skipField and readString.
 */
module WireEncoding {
  import opened Results
  import opened Bits
  import opened Wire

  /** `bytes` holds `e` starting at offset s. */
  ghost predicate Embeds(bytes: seq<byte>, s: nat, e: seq<byte>) {
    OccursAt(bytes, s, e)
  }

  /** `e` occurs in `bytes` from s on, byte by byte (see EmbedsFirst). */
  ghost predicate OccursAt(bytes: seq<byte>, s: nat, e: seq<byte>)
    decreases |e|, 1
  {
    s <= |bytes| && (e != [] ==> FirstOccursAt(bytes, s, e))
  }

  ghost predicate FirstOccursAt(bytes: seq<byte>, s: nat, e: seq<byte>)
    requires e != []
    decreases |e|, 0
  {
    s < |bytes| && bytes[s] == e[0] && OccursAt(bytes, s + 1, e[1..])
  }

  /** An embedded sequence is its first byte at s, then the rest from s + 1. */
  lemma EmbedsFirst(bytes: seq<byte>, s: nat, e: seq<byte>)
    requires Embeds(bytes, s, e) && e != []
    ensures s < |bytes| && bytes[s] == e[0] && Embeds(bytes, s + 1, e[1..])
  {
    assert FirstOccursAt(bytes, s, e);
  }

  /** The i-th byte of an embedded sequence. */
  lemma {:induction false} EmbedsIndex(bytes: seq<byte>, s: nat, e: seq<byte>, i: nat)
    requires Embeds(bytes, s, e) && i < |e|
    ensures s + i < |bytes| && bytes[s + i] == e[i]
    decreases i
  {
    EmbedsFirst(bytes, s, e);
    if i > 0 {
      EmbedsIndex(bytes, s + 1, e[1..], i - 1);
    }
  }

  /** An embedded sequence is the slice of `bytes` it covers. */
  lemma {:induction false} EmbedsSlice(bytes: seq<byte>, s: nat, e: seq<byte>)
    requires Embeds(bytes, s, e)
    ensures s + |e| <= |bytes| && bytes[s .. s + |e|] == e
    decreases |e|
  {
    if e != [] {
      EmbedsFirst(bytes, s, e);
      EmbedsSlice(bytes, s + 1, e[1..]);
      assert bytes[s .. s + |e|] == [bytes[s]] + bytes[s + 1 .. s + 1 + |e[1..]|];
    }
  }

  /** A sequence embedded at s is its first part at s, then its second part right after. */
  lemma {:induction false} EmbedsSplit(bytes: seq<byte>, s: nat, a: seq<byte>, b: seq<byte>)
    requires Embeds(bytes, s, a + b)
    ensures Embeds(bytes, s, a) && Embeds(bytes, s + |a|, b)
    decreases |a|
  {
    if a == [] {
      assert a + b == b;
    } else {
      EmbedsFirst(bytes, s, a + b);
      assert (a + b)[0] == a[0] && (a + b)[1..] == a[1..] + b;
      EmbedsSplit(bytes, s + 1, a[1..], b);
    }
  }

  /** Every suffix of a sequence is embedded in it where it starts. */
  lemma {:induction false} EmbedsSuffix(bytes: seq<byte>, s: nat)
    requires s <= |bytes|
    ensures Embeds(bytes, s, bytes[s..])
    decreases |bytes| - s
  {
    if s < |bytes| {
      assert bytes[s..][1..] == bytes[s + 1..];
      EmbedsSuffix(bytes, s + 1);
    }
  }

  /** The canonical base-128 encoding: seven bits per byte, least significant group first. */
  function EncodeVarint(n: nat): (e: seq<byte>)
    ensures 1 <= |e|
    decreases n
  {
    if n < 128 then [n] else [n % 128 + 128] + EncodeVarint(n / 128)
  }

  /** A value below 2^(7k) takes at most k bytes, so every 32-bit value takes at most five. */
  lemma {:induction false} EncodeVarintSize(n: nat, k: nat)
    requires 1 <= k && n < Pow2(7 * k)
    ensures |EncodeVarint(n)| <= k
    decreases k
  {
    if n >= 128 {
      Pow2Add(7, 7 * (k - 1));
      Pow2Seven();
      if k == 1 {
        assert false;
      }
      EncodeVarintSize(n / 128, k - 1);
    }
  }

  /** The first byte of an encoding carries the low seven bits, and continues exactly when more follow. */
  lemma FirstGroup(n: nat)
    ensures EncodeVarint(n)[0] % 128 == n % 128
    ensures (EncodeVarint(n)[0] < 128) == (n < 128)
    ensures n >= 128 ==> EncodeVarint(n) == [EncodeVarint(n)[0]] + EncodeVarint(n / 128)
  {
  }

  /** Splitting off the low group of m placed at position `shift`. */
  lemma GroupArith(m: nat, P: nat, acc: nat)
    ensures acc + m * P == (acc + (m % 128) * P) + (m / 128) * (128 * P)
  {
    assert m * P == (m % 128) * P + (m / 128) * (128 * P) by {
      assert m == m % 128 + 128 * (m / 128);
    }
  }

  /** No group above the first fits when the value needs fewer than `shift + 7` bits. */
  lemma NoRoomAbove(m: nat, shift: nat, acc: nat, bound: nat)
    requires m >= 128 && acc + Shl(m, shift) < Pow2(bound)
    ensures shift + 7 < bound
  {
    var P := Pow2(shift);
    ShlMul(m, shift);
    assert Pow2(shift + 7) == 128 * P by { Pow2Add(shift, 7); Pow2Seven(); }
    assert 128 * P <= m * P by { MulMonotone(128, m, P); }
    Pow2Below(shift + 7, bound);
  }

  /** The low group placed at `shift` followed by the rest placed seven bits higher is the whole value. */
  lemma Regroup(m: nat, shift: nat, acc: nat)
    ensures acc + Shl(m % 128, shift) + Shl(m / 128, shift + 7) == acc + Shl(m, shift)
  {
    ShlMul(m % 128, shift);
    ShlMul(m / 128, shift + 7);
    ShlMul(m, shift);
    assert Pow2(shift + 7) == 128 * Pow2(shift) by { Pow2Add(shift, 7); Pow2Seven(); }
    GroupArith(m, Pow2(shift), acc);
  }

  /** A value below 2^shift is a 32-bit value while shift is at most 32. */
  lemma BelowWord(acc: nat, shift: nat)
    requires shift <= 32 && acc < Pow2(shift)
    ensures acc < Word
  {
    Pow2Word();
    Pow2Monotone(shift, 32);
  }

  /** A group shifted by less than 32 that stays below 2^32 is not truncated by `<<`. */
  lemma NoWrap(d: nat, shift: nat)
    requires shift < 32 && Shl(d, shift) < Word
    ensures Shl(d, shift % 32) % Word == Shl(d, shift)
  {
  }

  /** readVarint32 on a last byte m: the group lands in place without wrapping. */
  lemma Varint32Last(bytes: seq<byte>, s: nat, m: nat, shift: nat, acc: nat)
    requires shift < 32 && acc < Pow2(shift)
    requires acc + Shl(m, shift) < Word
    requires s < |bytes| && bytes[s] == m && m < 128
    ensures acc < Word
    ensures Varint32From(bytes, s, shift, acc) == Ok((acc + Shl(m, shift), s + 1))
  {
    BelowWord(acc, shift);
    assert bytes[s] % 128 == m;
    NoWrap(m, shift);
    OrGroup(acc, m, shift);
    Varint32FromLast(bytes, s, shift, acc);
  }

  /**
   * readVarint32 on a continuation byte: one group is added and the loop goes
   * on, so it returns whatever the rest of the loop returns, `r`.
   */
  lemma Varint32Step(bytes: seq<byte>, s: nat, shift: nat, acc: nat, d: nat, acc': nat, r: Result<(nat, nat), DecodeError>)
    requires shift + 7 < 32 && acc < Pow2(shift)
    requires s < |bytes| && bytes[s] >= 128
    requires d == bytes[s] % 128 && acc' == acc + Shl(d, shift)
    requires Varint32From(bytes, s + 1, shift + 7, acc') == r
    ensures Varint32From(bytes, s, shift, acc) == r
  {
    assert acc < Word by { BelowWord(acc, shift); }
    assert acc' < Pow2(shift + 7) && BitOr(acc, Shl(d, shift)) == acc' by { OrGroup(acc, d, shift); }
    assert acc' < Word by { BelowWord(acc', shift + 7); }
    NoWrap(d, shift);
    Varint32FromNext(bytes, s, shift, acc);
  }

  /** The first byte of the encoding of m, when more follow. */
  lemma ContinuationByte(bytes: seq<byte>, s: nat, m: nat)
    requires Embeds(bytes, s, EncodeVarint(m)) && m >= 128
    ensures s < |bytes| && bytes[s] >= 128 && bytes[s] % 128 == m % 128
    ensures Embeds(bytes, s + 1, EncodeVarint(m / 128))
    ensures |EncodeVarint(m)| == 1 + |EncodeVarint(m / 128)|
  {
    var e := EncodeVarint(m);
    FirstGroup(m);
    EmbedsFirst(bytes, s, e);
    assert e[1..] == EncodeVarint(m / 128);
  }

  /** The last byte of the encoding of m. */
  lemma LastByte(bytes: seq<byte>, s: nat, m: nat)
    requires Embeds(bytes, s, EncodeVarint(m)) && m < 128
    ensures s < |bytes| && bytes[s] == m && |EncodeVarint(m)| == 1
  {
    EmbedsFirst(bytes, s, EncodeVarint(m));
  }

  /** The facts that carry the 32-bit round trip from one group of m to the next. */
  lemma Varint32EncodingStep(bytes: seq<byte>, s: nat, m: nat, shift: nat, acc: nat)
    requires shift < 32 && acc < Pow2(shift)
    requires acc + Shl(m, shift) < Word
    requires Embeds(bytes, s, EncodeVarint(m)) && m >= 128
    ensures shift + 7 < 32
    ensures s < |bytes| && bytes[s] >= 128 && bytes[s] % 128 == m % 128
    ensures acc + Shl(m % 128, shift) < Pow2(shift + 7)
    ensures acc + Shl(m % 128, shift) + Shl(m / 128, shift + 7) == acc + Shl(m, shift)
    ensures Embeds(bytes, s + 1, EncodeVarint(m / 128))
    ensures |EncodeVarint(m)| == 1 + |EncodeVarint(m / 128)|
  {
    ContinuationByte(bytes, s, m);
    assert shift + 7 < 32 by {
      Pow2Word();
      NoRoomAbove(m, shift, acc, 32);
    }
    OrGroup(acc, m % 128, shift);
    Regroup(m, shift, acc);
  }

  /**
   * The loop of readVarint32 reads the encoding of m placed above the `shift`
   * low bits already in `acc`, as long as the whole value fits in 32 bits: it
   * returns `value`, the whole number, and `end`, the offset after the encoding.
   */
  lemma {:induction false} Varint32FromEncoding(bytes: seq<byte>, s: nat, m: nat, shift: nat, acc: nat, value: nat, end: nat)
    requires shift < 32 && acc < Pow2(shift)
    requires acc + Shl(m, shift) < Word
    requires Embeds(bytes, s, EncodeVarint(m))
    requires value == acc + Shl(m, shift) && end == s + |EncodeVarint(m)|
    ensures Varint32From(bytes, s, shift, acc) == Ok((value, end))
    decreases m
  {
    if m < 128 {
      LastByte(bytes, s, m);
      Varint32Last(bytes, s, m, shift, acc);
    } else {
      var acc' := acc + Shl(m % 128, shift);
      Varint32EncodingStep(bytes, s, m, shift, acc);
      Varint32FromEncoding(bytes, s + 1, m / 128, shift + 7, acc', value, end);
      Varint32Step(bytes, s, shift, acc, m % 128, acc', Ok((value, end)));
    }
  }

  /** Round trip: readVarint32 returns n for the canonical encoding of every n < 2^32. */
  lemma Varint32RoundTrip(bytes: seq<byte>, s: nat, n: nat)
    requires n < Word && Embeds(bytes, s, EncodeVarint(n))
    ensures Varint32At(bytes, s) == Ok((n, s + |EncodeVarint(n)|))
  {
    Varint32FromEncoding(bytes, s, n, 0, 0, n, s + |EncodeVarint(n)|);
  }

  /** readVarint64 on a last byte m. */
  lemma Varint64Last(bytes: seq<byte>, s: nat, m: nat, shift: nat, acc: nat)
    requires shift <= 70 && acc < Pow2(shift)
    requires s < |bytes| && bytes[s] == m && m < 128
    ensures Varint64From(bytes, s, shift, acc) == Ok((acc + Shl(m, shift), s + 1))
  {
    OrGroup(acc, m, shift);
    Varint64FromLast(bytes, s, shift, acc);
  }

  /** readVarint64 on a continuation byte: it returns whatever the rest of the loop returns, `r`. */
  lemma Varint64Step(bytes: seq<byte>, s: nat, shift: nat, acc: nat, d: nat, acc': nat, r: Result<(nat, nat), DecodeError>)
    requires shift + 7 <= 70 && acc < Pow2(shift)
    requires s < |bytes| && bytes[s] >= 128
    requires d == bytes[s] % 128 && acc' == acc + Shl(d, shift)
    requires Varint64From(bytes, s + 1, shift + 7, acc') == r
    ensures Varint64From(bytes, s, shift, acc) == r
  {
    OrGroup(acc, d, shift);
    Varint64FromNext(bytes, s, shift, acc);
  }

  /**
   * The facts that carry the 64-bit round trip from one group of m to the
   * next, when the value fits in the `groups` seven-bit groups still allowed.
   */
  lemma Varint64EncodingStep(bytes: seq<byte>, s: nat, m: nat, shift: nat, acc: nat, groups: nat)
    requires shift + 7 * groups <= 77 && acc < Pow2(shift)
    requires acc + Shl(m, shift) < Pow2(shift + 7 * groups)
    requires Embeds(bytes, s, EncodeVarint(m)) && m >= 128
    ensures groups >= 2 && shift + 7 <= 70
    ensures s < |bytes| && bytes[s] >= 128 && bytes[s] % 128 == m % 128
    ensures acc + Shl(m % 128, shift) < Pow2(shift + 7)
    ensures acc + Shl(m % 128, shift) + Shl(m / 128, shift + 7) == acc + Shl(m, shift)
    ensures shift + 7 + 7 * (groups - 1) <= 77
    ensures acc + Shl(m % 128, shift) + Shl(m / 128, shift + 7) < Pow2(shift + 7 + 7 * (groups - 1))
    ensures Embeds(bytes, s + 1, EncodeVarint(m / 128))
    ensures |EncodeVarint(m)| == 1 + |EncodeVarint(m / 128)|
  {
    ContinuationByte(bytes, s, m);
    NoRoomAbove(m, shift, acc, shift + 7 * groups);
    OrGroup(acc, m % 128, shift);
    Regroup(m, shift, acc);
    assert shift + 7 + 7 * (groups - 1) == shift + 7 * groups;
  }

  /**
   * The BigInt loop of readVarint64 reads back the encoding of m placed above
   * `acc`, for any value that fits in the groups left of the eleven it accepts:
   * it returns `value`, the whole number, and `end`, the offset after the encoding.
   */
  lemma {:induction false} Varint64FromEncoding(bytes: seq<byte>, s: nat, m: nat, shift: nat, acc: nat, groups: nat, value: nat, end: nat)
    requires shift + 7 * groups <= 77 && shift <= 70 && acc < Pow2(shift)
    requires acc + Shl(m, shift) < Pow2(shift + 7 * groups)
    requires Embeds(bytes, s, EncodeVarint(m))
    requires value == acc + Shl(m, shift) && end == s + |EncodeVarint(m)|
    ensures Varint64From(bytes, s, shift, acc) == Ok((value, end))
    decreases m
  {
    if m < 128 {
      LastByte(bytes, s, m);
      Varint64Last(bytes, s, m, shift, acc);
    } else {
      var acc' := acc + Shl(m % 128, shift);
      Varint64EncodingStep(bytes, s, m, shift, acc, groups);
      Varint64FromEncoding(bytes, s + 1, m / 128, shift + 7, acc', groups - 1, value, end);
      Varint64Step(bytes, s, shift, acc, m % 128, acc', Ok((value, end)));
    }
  }

  /** 2^77: the values whose encodings fit in the eleven bytes readVarint64 accepts. */
  const Varint64Bound: nat := 0x2000_0000_0000_0000_0000

  lemma Pow2SeventySeven()
    ensures Pow2(77) == Varint64Bound
  {
    Pow2Word();
    Pow2Add(32, 32);
    Pow2Add(64, 13);
  }

  /** Round trip: readVarint64 returns n, unrounded, for every n < 2^77. */
  lemma Varint64RoundTrip(bytes: seq<byte>, s: nat, n: nat)
    requires n < Varint64Bound && Embeds(bytes, s, EncodeVarint(n))
    ensures Varint64At(bytes, s) == Ok((n, s + |EncodeVarint(n)|))
  {
    assert n < Pow2(0 + 7 * 11) by { Pow2SeventySeven(); }
    Varint64FromEncoding(bytes, s, n, 0, 0, 11, n, s + |EncodeVarint(n)|);
  }

  /** skipField's wire-type-0 branch passes over the encoding of any value, however long. */
  lemma {:induction false} SkipVarintEncoding(bytes: seq<byte>, s: nat, m: nat)
    requires Embeds(bytes, s, EncodeVarint(m))
    ensures SkipVarintAt(bytes, s) == Ok(s + |EncodeVarint(m)|)
    decreases m
  {
    if m >= 128 {
      ContinuationByte(bytes, s, m);
      SkipVarintEncoding(bytes, s + 1, m / 128);
    } else {
      LastByte(bytes, s, m);
    }
  }

  /** A length-delimited payload: its length as a varint, then its bytes. */
  function EncodeBytes(b: seq<byte>): (e: seq<byte>)
    ensures |e| > |b|
  {
    EncodeVarint(|b|) + b
  }

  /** readString returns the decoded payload and the cursor just past it. */
  lemma StringRoundTrip(bytes: seq<byte>, s: nat, b: seq<byte>)
    requires |b| < Word && Embeds(bytes, s, EncodeBytes(b))
    ensures StringAt(bytes, s) == Ok((DecodeUtf8(b), s + |EncodeBytes(b)|))
  {
    EmbedsSplit(bytes, s, EncodeVarint(|b|), b);
    Varint32RoundTrip(bytes, s, |b|);
    EmbedsSlice(bytes, s + |EncodeVarint(|b|)|, b);
  }

  /** The length prefix of a length-delimited field ends where its payload starts. */
  lemma LengthPrefix(bytes: seq<byte>, s: nat, b: seq<byte>)
    requires |b| < Word && Embeds(bytes, s, EncodeBytes(b))
    ensures Varint32At(bytes, s) == Ok((|b|, s + |EncodeVarint(|b|)|))
    ensures Embeds(bytes, s + |EncodeVarint(|b|)|, b)
  {
    EmbedsSplit(bytes, s, EncodeVarint(|b|), b);
    Varint32RoundTrip(bytes, s, |b|);
  }
}
