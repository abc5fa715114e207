/** The byte writer and reader (src/byteio.cpp) as the loops they are, proved
    against the integer codec of module Codec. */
module ByteIo {
  import opened Base
  import opened Codec

  /** value >> 8 * k */
  function ShiftBytes(value: nat, k: nat): nat
    decreases k
  {
    if k == 0 then value else ShiftBytes(value / 256, k - 1)
  }

  lemma {:induction false} EncodeLeSnoc(value: nat, k: nat)
    ensures EncodeLe(value, k + 1) == EncodeLe(value, k) + [ShiftBytes(value, k) % 256]
    decreases k
  {
    if k == 0 {
    } else {
      EncodeLeSnoc(value / 256, k - 1);
    }
  }

  lemma {:induction false} DecodeLeSnoc(b: Bytes, x: Byte)
    ensures DecodeLe(b + [x]) == DecodeLe(b) + x * Pow256(|b|)
  {
    if |b| > 0 {
      assert (b + [x])[1..] == b[1..] + [x];
      DecodeLeSnoc(b[1..], x);
      MulAssoc(x, Pow256(|b| - 1));
    } else {
      assert b + [x] == [x];
    }
  }

  lemma MulAssoc(x: nat, p: nat)
    ensures 256 * (x * p) == x * (256 * p)
  {
  }

  class ByteWriter {
    var out: Bytes

    constructor ()
      ensures out == []
    {
      out := [];
    }

    /** u8, u16, u32 and u64: the low byte first. */
    method PutLe(value: nat, width: nat)
      modifies this
      ensures out == old(out) + EncodeLe(value, width)
    {
      for k := 0 to width
        invariant out == old(out) + EncodeLe(value, k)
      {
        EncodeLeSnoc(value, k);
        out := out + [ShiftBytes(value, k) % 256];
      }
    }

    method Raw(bytes: Bytes)
      modifies this
      ensures out == old(out) + bytes
    {
      out := out + bytes;
    }

    /** Length-prefixed bytes. */
    method TextField(text: Bytes)
      requires |text| <= U32_MAX
      modifies this
      ensures out == old(out) + Encode(Text(|text|), Str(text))
    {
      PutLe(|text|, 4);
      Raw(text);
    }
  }

  class ByteReader {
    const input: Bytes
    var offset: nat

    ghost predicate Valid()
      reads this
    {
      offset <= |input|
    }

    /** What is still unread. */
    function Rest(): Bytes
      requires Valid()
      reads this
    {
      input[offset..]
    }

    constructor (bytes: Bytes)
      ensures Valid() && Rest() == bytes && input == bytes
    {
      input := bytes;
      offset := 0;
    }

    /** u8, u16, u32 and u64; a short input is refused and nothing is consumed. */
    method GetLe(width: nat) returns (value: Option<nat>)
      requires Valid()
      modifies this`offset
      ensures Valid()
      ensures value.Some? <==> old(|Rest()|) >= width
      ensures value.None? ==> Rest() == old(Rest())
      ensures value.Some? ==> value.value == DecodeLe(old(Rest())[..width]) && Rest() == old(Rest())[width..]
    {
      if width > |input| - offset {
        return None;
      }
      var bytes := input[offset..offset + width];
      assert bytes == Rest()[..width];
      offset := offset + width;
      var v, i := 0, 0;
      while i < width
        invariant 0 <= i <= width
        invariant v == DecodeLe(bytes[..i])
        invariant offset == old(offset) + width
      {
        assert bytes[..i + 1] == bytes[..i] + [bytes[i]];
        DecodeLeSnoc(bytes[..i], bytes[i]);
        v := v + bytes[i] * Pow256(i);
        i := i + 1;
      }
      assert bytes[..width] == bytes;
      value := Some(v);
    }

    /** Length-prefixed bytes, refused above a bound; a refusal may leave the
        length consumed, which no caller looks at. */
    method TextField(maxBytes: U32) returns (text: Option<Bytes>)
      requires Valid()
      modifies this`offset
      ensures Valid()
      ensures text.Some? <==> Decode(Text(maxBytes), old(Rest())).Ok?
      ensures text.Some? ==> Decode(Text(maxBytes), old(Rest())) == Ok(Parsed(Str(text.value), Rest()))
    {
      var length := GetLe(4);
      if length.None? || length.value > maxBytes || length.value > |input| - offset {
        return None;
      }
      text := Some(input[offset..offset + length.value]);
      assert text.value == old(Rest())[4..4 + length.value];
      offset := offset + length.value;
      assert Rest() == old(Rest())[4 + length.value..];
    }

    predicate AtEnd()
      requires Valid()
      reads this
    {
      offset == |input|
    }
  }
}
