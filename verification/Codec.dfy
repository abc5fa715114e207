/** Little-endian, bounds-checked binary encoding (src/byteio.cpp), and the
    layouts the payload codecs are made of. */
module Codec {
  import opened Base

  // ----- integers ------------------------------------------------------------

  function Pow256(n: nat): (r: nat)
    ensures r > 0
  {
    if n == 0 then 1 else 256 * Pow256(n - 1)
  }

  lemma Pow256Values()
    ensures Pow256(1) == 0x100 && Pow256(2) == 0x1_0000 && Pow256(4) == 0x1_0000_0000
    ensures Pow256(8) == 0x1_0000_0000_0000_0000
  {
    assert Pow256(3) == 256 * Pow256(2);
    assert Pow256(5) == 256 * Pow256(4);
    assert Pow256(6) == 256 * Pow256(5);
    assert Pow256(7) == 256 * Pow256(6);
  }

  function EncodeLe(v: nat, width: nat): (r: Bytes)
    ensures |r| == width
    decreases width
  {
    if width == 0 then [] else [v % 256] + EncodeLe(v / 256, width - 1)
  }

  function DecodeLe(b: Bytes): (r: nat)
    ensures r < Pow256(|b|)
  {
    if |b| == 0 then 0 else b[0] + 256 * DecodeLe(b[1..])
  }

  lemma {:induction false} DecodeEncodeLe(v: nat, width: nat)
    requires v < Pow256(width)
    ensures DecodeLe(EncodeLe(v, width)) == v
    decreases width
  {
    if width == 0 {
    } else {
      DecodeEncodeLe(v / 256, width - 1);
    }
  }

  lemma LowDigit(x: Byte, v: nat)
    ensures (x + 256 * v) % 256 == x && (x + 256 * v) / 256 == v
  {
  }

  lemma {:induction false} EncodeDecodeLe(b: Bytes)
    ensures EncodeLe(DecodeLe(b), |b|) == b
  {
    if |b| == 0 {
    } else {
      EncodeDecodeLe(b[1..]);
      LowDigit(b[0], DecodeLe(b[1..]));
      assert b == [b[0]] + b[1..];
    }
  }

  /** The two's complement image of a signed value. */
  function Unsigned(x: I64): (r: U64)
    ensures Signed(r) == x
  {
    if x < 0 then x + 0x1_0000_0000_0000_0000 else x
  }

  function Signed(u: U64): I64 {
    if u > 0x7FFF_FFFF_FFFF_FFFF then u - 0x1_0000_0000_0000_0000 else u
  }

  // ----- layouts -------------------------------------------------------------

  /** The shape of a record on the wire: fixed-width integers one after the
      other, a length-prefixed text refused above a bound, a counted list
      refused above a bound, or one layout followed by another. */
  datatype Layout =
    | Nums(widths: seq<nat>)
    | Text(maxBytes: U32)
    | List(maxItems: U32, item: Layout)
    | Pair(first: Layout, second: Layout)

  datatype Value =
    | Tuple(ns: seq<nat>)
    | Str(text: Bytes)
    | Items(items: seq<Value>)
    | Both(fst: Value, snd: Value)

  datatype Parsed<+T> = Parsed(value: T, rest: Bytes)

  predicate FitsNums(ws: seq<nat>, ns: seq<nat>) {
    |ns| == |ws| && forall i :: 0 <= i < |ws| ==> ns[i] < Pow256(ws[i])
  }

  predicate Fits(s: Layout, v: Value) {
    match s
    case Nums(ws) => v.Tuple? && FitsNums(ws, v.ns)
    case Text(max) => v.Str? && |v.text| <= max
    case List(max, item) => v.Items? && |v.items| <= max && forall i :: 0 <= i < |v.items| ==> Fits(item, v.items[i])
    case Pair(a, b) => v.Both? && Fits(a, v.fst) && Fits(b, v.snd)
  }

  function EncodeNums(ws: seq<nat>, ns: seq<nat>): Bytes
    requires |ns| == |ws|
  {
    if |ws| == 0 then [] else EncodeLe(ns[0], ws[0]) + EncodeNums(ws[1..], ns[1..])
  }

  function Encode(s: Layout, v: Value): Bytes
    requires Fits(s, v)
    decreases s, 0
  {
    match s
    case Nums(ws) => EncodeNums(ws, v.ns)
    case Text(_) => EncodeLe(|v.text|, 4) + v.text
    case List(_, item) => EncodeLe(|v.items|, 4) + EncodeItems(item, v.items)
    case Pair(a, b) => Encode(a, v.fst) + Encode(b, v.snd)
  }

  function EncodeItems(item: Layout, vs: seq<Value>): Bytes
    requires forall i :: 0 <= i < |vs| ==> Fits(item, vs[i])
    decreases item, 1, |vs|
  {
    if |vs| == 0 then [] else Encode(item, vs[0]) + EncodeItems(item, vs[1..])
  }

  function DecodeNums(ws: seq<nat>, b: Bytes): Result<Parsed<seq<nat>>> {
    if |ws| == 0 then Ok(Parsed([], b))
    else if |b| < ws[0] then Err(TruncatedFrame)
    else
      var tail := DecodeNums(ws[1..], b[ws[0]..]);
      if tail.Err? then tail
      else Ok(Parsed([DecodeLe(b[..ws[0]])] + tail.value.value, tail.value.rest))
  }

  function Decode(s: Layout, b: Bytes): Result<Parsed<Value>>
    decreases s, 0
  {
    match s
    case Nums(ws) =>
      var r := DecodeNums(ws, b);
      if r.Err? then Err(r.error) else Ok(Parsed(Tuple(r.value.value), r.value.rest))
    case Text(max) =>
      if |b| < 4 then Err(TruncatedFrame)
      else
        var n := DecodeLe(b[..4]);
        if n > max || |b| - 4 < n then Err(TruncatedFrame)
        else Ok(Parsed(Str(b[4..4 + n]), b[4 + n..]))
    case List(max, item) =>
      if |b| < 4 then Err(TruncatedFrame)
      else
        var n := DecodeLe(b[..4]);
        if n > max then Err(BoundExceeded)
        else
          var r := DecodeItems(item, n, b[4..]);
          if r.Err? then Err(r.error) else Ok(Parsed(Items(r.value.value), r.value.rest))
    case Pair(p, q) =>
      var r := Decode(p, b);
      if r.Err? then r
      else
        var t := Decode(q, r.value.rest);
        if t.Err? then t else Ok(Parsed(Both(r.value.value, t.value.value), t.value.rest))
  }

  function DecodeItems(item: Layout, n: nat, b: Bytes): Result<Parsed<seq<Value>>>
    decreases item, 1, n
  {
    if n == 0 then Ok(Parsed([], b))
    else
      var r := Decode(item, b);
      if r.Err? then Err(r.error)
      else
        var tail := DecodeItems(item, n - 1, r.value.rest);
        if tail.Err? then tail
        else Ok(Parsed([r.value.value] + tail.value.value, tail.value.rest))
  }

  // ----- round trip ------------------------------------------------------------

  lemma {:induction false} NumsRoundTrip(ws: seq<nat>, ns: seq<nat>, rest: Bytes)
    requires FitsNums(ws, ns)
    ensures DecodeNums(ws, EncodeNums(ws, ns) + rest) == Ok(Parsed(ns, rest))
  {
    if |ws| == 0 {
      assert EncodeNums(ws, ns) + rest == rest;
    } else {
      var head, tail := EncodeLe(ns[0], ws[0]), EncodeNums(ws[1..], ns[1..]);
      assert EncodeNums(ws, ns) + rest == head + (tail + rest);
      DecodeEncodeLe(ns[0], ws[0]);
      NumsRoundTrip(ws[1..], ns[1..], rest);
      assert [ns[0]] + ns[1..] == ns;
    }
  }

  lemma CountRoundTrip(n: U32)
    ensures DecodeLe(EncodeLe(n, 4)) == n
  {
    Pow256Values();
    DecodeEncodeLe(n, 4);
  }

  /** Whatever follows it, an encoded value decodes to itself. */
  lemma {:induction false} RoundTrip(s: Layout, v: Value, rest: Bytes)
    requires Fits(s, v)
    ensures Decode(s, Encode(s, v) + rest) == Ok(Parsed(v, rest))
    decreases s, 0
  {
    hide EncodeLe, DecodeLe, Pow256, FitsNums, EncodeNums, DecodeNums;
    match s
    case Nums(ws) =>
      NumsRoundTrip(ws, v.ns, rest);
    case Text(_) =>
      var n := EncodeLe(|v.text|, 4);
      CountRoundTrip(|v.text|);
      assert Encode(s, v) + rest == n + (v.text + rest);
    case List(_, item) =>
      var n := EncodeLe(|v.items|, 4);
      CountRoundTrip(|v.items|);
      assert Encode(s, v) + rest == n + (EncodeItems(item, v.items) + rest);
      ItemsRoundTrip(item, v.items, rest);
    case Pair(a, b) =>
      assert Encode(s, v) + rest == Encode(a, v.fst) + (Encode(b, v.snd) + rest);
      RoundTrip(a, v.fst, Encode(b, v.snd) + rest);
      RoundTrip(b, v.snd, rest);
  }

  lemma {:induction false} ItemsRoundTrip(item: Layout, vs: seq<Value>, rest: Bytes)
    requires forall i :: 0 <= i < |vs| ==> Fits(item, vs[i])
    ensures DecodeItems(item, |vs|, EncodeItems(item, vs) + rest) == Ok(Parsed(vs, rest))
    decreases item, 1, |vs|
  {
    hide Decode, Encode, Fits;
    if |vs| == 0 {
      assert EncodeItems(item, vs) + rest == rest;
    } else {
      var tail := EncodeItems(item, vs[1..]);
      assert EncodeItems(item, vs) + rest == Encode(item, vs[0]) + (tail + rest);
      RoundTrip(item, vs[0], tail + rest);
      ItemsRoundTrip(item, vs[1..], rest);
      assert [vs[0]] + vs[1..] == vs;
    }
  }

  // ----- canonicity --------------------------------------------------------------

  lemma DecodeNumsStep(ws: seq<nat>, b: Bytes)
    requires |ws| > 0 && DecodeNums(ws, b).Ok?
    ensures ws[0] <= |b| && DecodeNums(ws[1..], b[ws[0]..]).Ok?
    ensures var p, tail := DecodeNums(ws, b).value, DecodeNums(ws[1..], b[ws[0]..]).value;
            p.value == [DecodeLe(b[..ws[0]])] + tail.value && p.rest == tail.rest
  {
    hide DecodeLe;
  }

  lemma FitsStep(ws: seq<nat>, n: nat, ns: seq<nat>)
    requires |ws| > 0 && n < Pow256(ws[0]) && FitsNums(ws[1..], ns)
    ensures FitsNums(ws, [n] + ns)
  {
    hide Pow256;
    var all := [n] + ns;
    forall i | 0 <= i < |ws| ensures all[i] < Pow256(ws[i]) {
      assert i > 0 ==> all[i] == ns[i - 1] && ws[i] == ws[1..][i - 1];
    }
  }

  lemma EncodeNumsStep(ws: seq<nat>, n: nat, ns: seq<nat>)
    requires |ws| == |ns| + 1
    ensures EncodeNums(ws, [n] + ns) == EncodeLe(n, ws[0]) + EncodeNums(ws[1..], ns)
  {
    hide EncodeLe;
    assert ([n] + ns)[1..] == ns;
  }

  lemma {:induction false} NumsCanonical(ws: seq<nat>, b: Bytes)
    requires DecodeNums(ws, b).Ok?
    ensures var p := DecodeNums(ws, b).value;
            FitsNums(ws, p.value) && b == EncodeNums(ws, p.value) + p.rest
  {
    if |ws| == 0 {
      assert DecodeNums(ws, b) == Ok(Parsed([], b));
      assert [] + b == b;
    } else {
      DecodeNumsStep(ws, b);
      NumsCanonical(ws[1..], b[ws[0]..]);
      NumsCanonicalStep(ws, b);
    }
  }

  lemma NumsCanonicalStep(ws: seq<nat>, b: Bytes)
    requires |ws| > 0 && DecodeNums(ws, b).Ok? && ws[0] <= |b| && DecodeNums(ws[1..], b[ws[0]..]).Ok?
    requires var p := DecodeNums(ws[1..], b[ws[0]..]).value;
             FitsNums(ws[1..], p.value) && b[ws[0]..] == EncodeNums(ws[1..], p.value) + p.rest
    ensures var p := DecodeNums(ws, b).value;
            FitsNums(ws, p.value) && b == EncodeNums(ws, p.value) + p.rest
  {
    hide EncodeLe, DecodeLe, Pow256, EncodeNums, DecodeNums;
    DecodeNumsStep(ws, b);
    var w := ws[0];
    var n, tail := DecodeLe(b[..w]), DecodeNums(ws[1..], b[w..]).value;
    EncodeDecodeLe(b[..w]);
    FitsStep(ws, n, tail.value);
    EncodeNumsStep(ws, n, tail.value);
    Joined(b, w, EncodeNums(ws[1..], tail.value), tail.rest);
  }

  lemma Joined(b: Bytes, w: nat, middle: Bytes, rest: Bytes)
    requires w <= |b| && b[w..] == middle + rest
    ensures b == b[..w] + middle + rest
  {
  }

  lemma TextCanonical(max: U32, b: Bytes)
    requires Decode(Text(max), b).Ok?
    ensures var p := Decode(Text(max), b).value;
            Fits(Text(max), p.value) && b == Encode(Text(max), p.value) + p.rest
  {
    hide EncodeLe, DecodeLe, Pow256;
    EncodeDecodeLe(b[..4]);
    var n := DecodeLe(b[..4]);
    assert b == b[..4] + b[4..4 + n] + b[4 + n..];
  }

  /** A decoder accepts nothing but encodings: the bytes it consumed are the
      encoding of the value it returned. */
  lemma {:induction false} Canonical(s: Layout, b: Bytes)
    requires Decode(s, b).Ok?
    ensures var p := Decode(s, b).value;
            Fits(s, p.value) && b == Encode(s, p.value) + p.rest
    decreases s, 0
  {
    hide EncodeLe, DecodeLe, Pow256, FitsNums, EncodeNums, DecodeNums;
    var p := Decode(s, b).value;
    match s
    case Nums(ws) =>
      NumsCanonical(ws, b);
    case Text(max) =>
      TextCanonical(max, b);
    case List(_, item) =>
      EncodeDecodeLe(b[..4]);
      ItemsCanonical(item, DecodeLe(b[..4]), b[4..]);
      assert b == b[..4] + (EncodeItems(item, p.value.items) + p.rest);
    case Pair(first, second) =>
      Canonical(first, b);
      var rest := Decode(first, b).value.rest;
      Canonical(second, rest);
      assert b == Encode(first, p.value.fst) + (Encode(second, p.value.snd) + p.rest);
  }

  lemma {:induction false} ItemsCanonical(item: Layout, n: nat, b: Bytes)
    requires DecodeItems(item, n, b).Ok?
    ensures var p := DecodeItems(item, n, b).value;
            && |p.value| == n
            && (forall i :: 0 <= i < |p.value| ==> Fits(item, p.value[i]))
            && b == EncodeItems(item, p.value) + p.rest
    decreases item, 1, n
  {
    hide Decode, Encode, Fits;
    if n == 0 {
    } else {
      Canonical(item, b);
      var head := Decode(item, b).value;
      ItemsCanonical(item, n - 1, head.rest);
      var p, tail := DecodeItems(item, n, b).value, DecodeItems(item, n - 1, head.rest).value;
      assert p.value[0] == head.value && p.value[1..] == tail.value;
      assert b == Encode(item, head.value) + (EncodeItems(item, tail.value) + p.rest);
    }
  }

  // ----- whole payloads --------------------------------------------------------------

  /** A payload must be consumed to its last byte. */
  function DecodeAll(s: Layout, b: Bytes): Result<Value> {
    var r := Decode(s, b);
    if r.Err? then Err(r.error)
    else if |r.value.rest| > 0 then Err(MalformedFrame)
    else Ok(r.value.value)
  }

  lemma DecodeAllRoundTrip(s: Layout, v: Value)
    requires Fits(s, v)
    ensures DecodeAll(s, Encode(s, v)) == Ok(v)
  {
    RoundTrip(s, v, []);
    assert Encode(s, v) + [] == Encode(s, v);
  }

  /** No proper extension of an accepted payload is accepted; read the other
      way round, no strict prefix of an accepted payload is. */
  lemma DecodeAllPrefixFree(s: Layout, b: Bytes, more: Bytes)
    requires DecodeAll(s, b).Ok? && |more| > 0
    ensures DecodeAll(s, b + more).Err?
  {
    Canonical(s, b);
    var v := Decode(s, b).value.value;
    assert b == Encode(s, v);
    RoundTrip(s, v, more);
  }
}
