/** The payload codecs (src/frame.cpp, src/store.cpp) as they work: a writer
    appended to and a reader advanced, field by field and record by record. */
module WireIo {
  import opened Base
  import opened Codec
  import opened ByteIo
  import opened Framing

  // ----- writing ---------------------------------------------------------------------

  lemma {:induction false} EncodeNumsSnoc(ws: seq<nat>, ns: seq<nat>, k: nat)
    requires |ns| == |ws| && k < |ws|
    ensures EncodeNums(ws[..k + 1], ns[..k + 1]) == EncodeNums(ws[..k], ns[..k]) + EncodeLe(ns[k], ws[k])
  {
    hide EncodeLe;
    var w, n := ws[..k + 1], ns[..k + 1];
    if k == 0 {
      assert w[1..] == [] && n[1..] == [];
      assert EncodeNums(w, n) == EncodeLe(ns[0], ws[0]) + [];
    } else {
      EncodeNumsSnoc(ws[1..], ns[1..], k - 1);
      assert w[1..] == ws[1..][..k] && n[1..] == ns[1..][..k];
      assert ws[..k][1..] == ws[1..][..k - 1] && ns[..k][1..] == ns[1..][..k - 1];
    }
  }

  lemma {:induction false} EncodeItemsSnoc(item: Layout, vs: seq<Value>, k: nat)
    requires forall i :: 0 <= i < |vs| ==> Fits(item, vs[i])
    requires k < |vs|
    ensures EncodeItems(item, vs[..k + 1]) == EncodeItems(item, vs[..k]) + Encode(item, vs[k])
    decreases k
  {
    hide Encode, Fits;
    var v := vs[..k + 1];
    if k == 0 {
      assert v[1..] == [];
      assert EncodeItems(item, v) == Encode(item, vs[0]) + [];
    } else {
      EncodeItemsSnoc(item, vs[1..], k - 1);
      assert v[1..] == vs[1..][..k];
      assert vs[..k][1..] == vs[1..][..k - 1];
    }
  }

  method WriteNums(w: ByteWriter, ws: seq<nat>, ns: seq<nat>)
    requires |ns| == |ws|
    modifies w
    ensures w.out == old(w.out) + EncodeNums(ws, ns)
  {
    hide EncodeNums, EncodeLe;
    assert EncodeNums(ws[..0], ns[..0]) == [] by { NoNums(); }
    for k := 0 to |ws|
      invariant w.out == old(w.out) + EncodeNums(ws[..k], ns[..k])
    {
      EncodeNumsSnoc(ws, ns, k);
      w.PutLe(ns[k], ws[k]);
    }
    assert ws[..|ws|] == ws && ns[..|ns|] == ns;
  }

  lemma NoNums()
    ensures EncodeNums([], []) == []
  {
  }

  /** Writes a value of a layout, field by field. */
  method WriteValue(w: ByteWriter, s: Layout, v: Value)
    requires Fits(s, v)
    modifies w
    ensures w.out == old(w.out) + Encode(s, v)
    decreases s, 1
  {
    hide EncodeLe, EncodeNums, EncodeItems, FitsNums;
    match s {
      case Nums(ws) =>
        NumsFitLength(ws, v.ns);
        WriteNums(w, ws, v.ns);
      case Text(_) =>
        w.TextField(v.text);
      case List(max, item) =>
        WriteList(w, item, v.items);
      case Pair(a, b) =>
        WriteValue(w, a, v.fst);
        WriteValue(w, b, v.snd);
    }
  }

  lemma NumsFitLength(ws: seq<nat>, ns: seq<nat>)
    requires FitsNums(ws, ns)
    ensures |ns| == |ws|
  {
  }

  /** A list is its count and then its records. */
  method WriteList(w: ByteWriter, item: Layout, vs: seq<Value>)
    requires |vs| <= U32_MAX && forall i :: 0 <= i < |vs| ==> Fits(item, vs[i])
    modifies w
    ensures w.out == old(w.out) + (EncodeLe(|vs|, 4) + EncodeItems(item, vs))
    decreases item, 2
  {
    hide Encode, EncodeItems, EncodeLe, Fits;
    w.PutLe(|vs|, 4);
    ghost var base := w.out;
    assert vs[..0] == [];
    NoItems(item);
    for k := 0 to |vs|
      invariant w.out == base + EncodeItems(item, vs[..k])
    {
      EncodeItemsSnoc(item, vs, k);
      WriteValue(w, item, vs[k]);
    }
    assert vs[..|vs|] == vs;
  }

  lemma NoItems(item: Layout)
    ensures EncodeItems(item, []) == []
  {
  }

  /** Encodes a stream payload: the stream kind, then its layout. */
  method WritePayload(s: Stream, v: Value) returns (bytes: Bytes)
    requires Fits(LayoutOf(s), v)
    ensures bytes == EncodePayload(s, v)
  {
    hide LayoutOf, Fits, Encode, EncodeLe;
    var w := new ByteWriter();
    w.PutLe(StreamCode(s), 2);
    WriteValue(w, LayoutOf(s), v);
    bytes := w.out;
  }

  /** Who sends a frame, and where it stands in the sender's order. */
  datatype Provenance = Provenance(
    epoch: U64, publisher: U64, incarnation: U64, boot: U64, sequence: U64, generation: U64, emittedAt: I64)

  /** make_frame over an encoded payload: the frame names its sender, and the
      receiver's integrity check passes and reads the same payload, as long as
      the payload is within the frame bound. */
  method MakeFrame(kind: U16, s: Stream, v: Value, from: Provenance, crc: Checksum) returns (f: Frame)
    requires Fits(LayoutOf(s), v)
    ensures f.payload == EncodePayload(s, v) && f.header.kind == kind
    ensures f.header.epoch == from.epoch && f.header.publisher == from.publisher
        && f.header.incarnation == from.incarnation
    ensures f.header.boot == from.boot && f.header.sequence == from.sequence && f.header.generation == from.generation
    ensures |f.payload| <= MAX_FRAME_BYTES ==> VerifyPayload(f.header, f.payload, crc).None?
    ensures DecodePayload(s, f.payload) == Ok(v)
  {
    hide Fits, EncodePayload, LayoutOf, DecodePayload;
    var payload := WritePayload(s, v);
    PayloadRoundTrip(s, v);
    f := Frame(FrameHeader(PROTOCOL_VERSION, kind, 0, AsU32(|payload|), from.epoch, from.publisher,
        from.incarnation, from.boot,
                           from.sequence, from.generation, from.emittedAt, crc(payload), 0), payload);
  }

  // ----- reading ----------------------------------------------------------------------

  function Prepend<T>(got: seq<T>, r: Result<Parsed<seq<T>>>): Result<Parsed<seq<T>>> {
    if r.Err? then r else Ok(Parsed(got + r.value.value, r.value.rest))
  }

  lemma NumsStep(ws: seq<nat>, k: nat, got: seq<nat>, b: Bytes)
    requires k < |ws|
    ensures |b| < ws[k] ==> Prepend(got, DecodeNums(ws[k..], b)) == Err(TruncatedFrame)
    ensures |b| >= ws[k] ==>
      Prepend(got, DecodeNums(ws[k..], b)) == Prepend(got + [DecodeLe(b[..ws[k]])], DecodeNums(ws[k + 1..], b[ws[k]..]))
  {
    hide DecodeLe;
    assert ws[k..][1..] == ws[k + 1..];
    if |b| >= ws[k] {
      var tail := DecodeNums(ws[k + 1..], b[ws[k]..]);
      if tail.Ok? {
        assert got + ([DecodeLe(b[..ws[k]])] + tail.value.value) == got + [DecodeLe(b[..ws[k]])] + tail.value.value;
      }
    }
  }

  method ReadNums(r: ByteReader, ws: seq<nat>) returns (ns: Result<seq<nat>>)
    requires r.Valid()
    modifies r`offset
    ensures r.Valid()
    ensures var d := DecodeNums(ws, old(r.Rest()));
            if d.Ok? then ns == Ok(d.value.value) && r.Rest() == d.value.rest else ns == Err(d.error)
  {
    hide DecodeNums, DecodeLe;
    var got: seq<nat> := [];
    ghost var start := r.Rest();
    PrependNothing(DecodeNums(ws, start));
    assert ws[0..] == ws;
    for k := 0 to |ws|
      invariant r.Valid() && DecodeNums(ws, start) == Prepend(got, DecodeNums(ws[k..], r.Rest()))
    {
      NumsStep(ws, k, got, r.Rest());
      var n := r.GetLe(ws[k]);
      if n.None? {
        return Err(TruncatedFrame);
      }
      got := got + [n.value];
    }
    NumsDone(ws[|ws|..], r.Rest());
    assert got + [] == got;
    ns := Ok(got);
  }

  lemma NumsDone(ws: seq<nat>, b: Bytes)
    requires |ws| == 0
    ensures DecodeNums(ws, b) == Ok(Parsed([], b))
  {
  }

  lemma PrependNothing<T>(r: Result<Parsed<seq<T>>>)
    ensures Prepend([], r) == r
  {
    if r.Ok? {
      assert [] + r.value.value == r.value.value;
    }
  }

  lemma ItemsStep(item: Layout, n: nat, got: seq<Value>, b: Bytes)
    requires n > 0
    ensures var d := Decode(item, b);
            && (d.Err? ==> Prepend(got, DecodeItems(item, n, b)) == Err(d.error))
            && (d.Ok? ==> Prepend(got, DecodeItems(item, n, b))
                          == Prepend(got + [d.value.value], DecodeItems(item, n - 1, d.value.rest)))
  {
    hide Decode;
    var d := Decode(item, b);
    if d.Ok? {
      var tail := DecodeItems(item, n - 1, d.value.rest);
      if tail.Ok? {
        assert got + ([d.value.value] + tail.value.value) == got + [d.value.value] + tail.value.value;
      }
    }
  }

  ghost predicate Agrees(d: Result<Parsed<Value>>, v: Result<Value>, rest: Bytes) {
    if d.Ok? then v == Ok(d.value.value) && rest == d.value.rest else v == Err(d.error)
  }

  /** Reads a value of a layout, or the error of the first field that fails. */
  method ReadValue(r: ByteReader, s: Layout) returns (v: Result<Value>)
    requires r.Valid()
    modifies r`offset
    ensures r.Valid()
    ensures Agrees(Decode(s, old(r.Rest())), v, r.Rest())
    decreases s, 1
  {
    match s {
      case Nums(ws) =>
        var ns := ReadNums(r, ws);
        v := if ns.Ok? then Ok(Tuple(ns.value)) else Err(ns.error);
      case Text(max) =>
        var text := r.TextField(max);
        v := if text.Some? then Ok(Str(text.value)) else Err(TruncatedFrame);
      case List(max, item) =>
        v := ReadList(r, max, item);
      case Pair(a, b) =>
        var x := ReadValue(r, a);
        if x.Err? {
          return x;
        }
        var y := ReadValue(r, b);
        v := if y.Err? then y else Ok(Both(x.value, y.value));
    }
  }

  method ReadList(r: ByteReader, max: U32, item: Layout) returns (v: Result<Value>)
    requires r.Valid()
    modifies r`offset
    ensures r.Valid()
    ensures Agrees(Decode(List(max, item), old(r.Rest())), v, r.Rest())
    decreases item, 2
  {
    ghost var all := r.Rest();
    ListDecoding(max, item, all);
    hide Decode, DecodeItems, DecodeLe;
    var n := r.GetLe(4);
    if n.None? {
      return Err(TruncatedFrame);
    }
    if n.value > max {
      return Err(BoundExceeded);
    }
    var got: seq<Value> := [];
    ghost var start := r.Rest();
    PrependNothing(DecodeItems(item, n.value, start));
    for k := 0 to n.value
      invariant r.Valid() && DecodeItems(item, n.value, start) == Prepend(got, DecodeItems(item, n.value - k, r.Rest()))
    {
      ItemsStep(item, n.value - k, got, r.Rest());
      var x := ReadValue(r, item);
      if x.Err? {
        return Err(x.error);
      }
      got := got + [x.value];
    }
    ItemsDone(item, r.Rest());
    assert got + [] == got;
    v := Ok(Items(got));
  }

  lemma ItemsDone(item: Layout, b: Bytes)
    ensures DecodeItems(item, 0, b) == Ok(Parsed([], b))
  {
  }

  lemma ListDecoding(max: U32, item: Layout, b: Bytes)
    ensures var d := Decode(List(max, item), b);
            if |b| < 4 then d == Err(TruncatedFrame)
            else if DecodeLe(b[..4]) > max then d == Err(BoundExceeded)
            else
              var r := DecodeItems(item, DecodeLe(b[..4]), b[4..]);
              d == if r.Err? then Err(r.error) else Ok(Parsed(Items(r.value.value), r.value.rest))
  {
    hide DecodeLe, DecodeItems;
  }

  /** Decodes a stream payload: the stream kind, its layout, nothing after it. */
  method ReadPayload(s: Stream, b: Bytes) returns (v: Result<Value>)
    ensures v == DecodePayload(s, b)
  {
    hide LayoutOf, Decode, DecodeLe, StreamCode;
    var r := new ByteReader(b);
    var kind := r.GetLe(2);
    if kind.None? {
      return Err(TruncatedFrame);
    }
    if kind.value != StreamCode(s) {
      return Err(MalformedFrame);
    }
    ghost var body := b[2..];
    assert r.Rest() == body;
    v := ReadValue(r, LayoutOf(s));
    ghost var d := Decode(LayoutOf(s), body);
    assert d.Ok? ==> (r.AtEnd() <==> |d.value.rest| == 0);
    if v.Ok? && !r.AtEnd() {
      v := Err(MalformedFrame);
    }
    assert v == DecodeAll(LayoutOf(s), body);
  }
}
