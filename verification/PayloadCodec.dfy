/** Compact storage of large state payloads: streaming compression against plain JSON. */
module PayloadCodec {
  import opened Sequences
  import opened Wrappers

  const TAG := "$roi_current_payload"
  const CODEC := "zlib-utf8-v1"
  const CHUNK_BYTES := 65_536
  const MAX_PAYLOAD_BYTES := 1_000_000_000

  type Bytes = seq<byte>

  datatype Value = Object(fields: map<string, Value>) | Text(text: string) | Number(number: int) | Other(code: nat)

  /** decompressobj().decompress(data, limit): the output, and whether the stream ended cleanly. */
  datatype Inflated = Inflated(data: Bytes, clean: bool)

  /** The library functions used, as they are seen from here. `compress` and `flush` depend on what the
      same compressor was fed before. */
  datatype Lib = Lib(
    fragments: Value -> seq<string>, loads: string -> Option<Value>,
    utf8: string -> Bytes, unutf8: Bytes -> Option<string>,
    compress: (seq<Bytes>, Bytes) -> Bytes, flush: seq<Bytes> -> Bytes, inflate: (Bytes, nat) -> Inflated,
    base64: Bytes -> string, unbase64: string -> Option<Bytes>)

  function Json(lib: Lib, v: Value): string {
    Concat(lib.fragments(v))
  }

  /** Everything the compressor has produced after being fed these parts. */
  function Produced(lib: Lib, fed: seq<Bytes>): Bytes {
    if fed == [] then []
    else Produced(lib, fed[..|fed| - 1]) + lib.compress(fed[..|fed| - 1], fed[|fed| - 1])
  }

  ghost predicate JsonIsFaithful(lib: Lib) {
    (forall v :: lib.loads(Json(lib, v)) == Some(v)) && lib.loads("") == None
  }

  ghost predicate Utf8IsFaithful(lib: Lib) {
    && (forall a, b :: lib.utf8(a + b) == lib.utf8(a) + lib.utf8(b))
    && (forall a :: lib.unutf8(lib.utf8(a)) == Some(a))
  }

  /** A finished stream inflates to what was fed, whenever the limit leaves room for it. */
  ghost predicate ZlibIsFaithful(lib: Lib) {
    forall fed: seq<Bytes>, limit: nat | |Concat(fed)| < limit ::
      lib.inflate(Produced(lib, fed) + lib.flush(fed), limit) == Inflated(Concat(fed), true)
  }

  ghost predicate Base64IsFaithful(lib: Lib) {
    forall b :: lib.unbase64(lib.base64(b)) == Some(b)
  }

  ghost predicate Sound(lib: Lib) {
    JsonIsFaithful(lib) && Utf8IsFaithful(lib) && ZlibIsFaithful(lib) && Base64IsFaithful(lib)
  }

  function Raw(lib: Lib, v: Value): Bytes {
    lib.utf8(Json(lib, v))
  }

  predicate Reserved(v: Value) {
    v.Object? && TAG in v.fields
  }

  function Envelope(size: int, data: string): Value {
    Object(map[TAG := Text(CODEC), "utf8_bytes" := Number(size), "data" := Text(data)])
  }

  /** decode_current_payload; None is its RuntimeError. */
  function Decode(lib: Lib, body: string): Option<Value> {
    match lib.loads(body)
    case None => None
    case Some(v) =>
      if !Reserved(v) then Some(v)
      else if v.fields.Keys != {TAG, "utf8_bytes", "data"} || v.fields[TAG] != Text(CODEC) then None
      else if !v.fields["utf8_bytes"].Number? || !(0 < v.fields["utf8_bytes"].number <= MAX_PAYLOAD_BYTES) then None
      else if !v.fields["data"].Text? then None
      else Unpack(lib, v.fields["utf8_bytes"].number, v.fields["data"].text)
  }

  function Unpack(lib: Lib, size: nat, data: string): Option<Value> {
    match lib.unbase64(data)
    case None => None
    case Some(compressed) =>
      var out := lib.inflate(compressed, size + 1);
      if |out.data| != size || !out.clean then None
      else match lib.unutf8(out.data)
        case None => None
        case Some(text) => lib.loads(text)
  }

  /** The envelope of the stream that was fed these parts. */
  function Packed(lib: Lib, v: Value, fed: seq<Bytes>): string {
    Json(lib, Envelope(|Raw(lib, v)|, lib.base64(Produced(lib, fed) + lib.flush(fed))))
  }

  /** These parts make up the payload, and the body is the envelope of their stream unless that could be
      stored plainly and is not shorter. */
  predicate Shorter(lib: Lib, v: Value, fed: seq<Bytes>, body: string) {
    && Concat(fed) == Raw(lib, v)
    && body == if Reserved(v) || |lib.utf8(Packed(lib, v, fed))| < |Raw(lib, v)| then Packed(lib, v, fed)
               else Json(lib, v)
  }

  lemma EnvelopeRoundTrip(lib: Lib, v: Value, fed: seq<Bytes>)
    requires Sound(lib) && Concat(fed) == Raw(lib, v) && |Raw(lib, v)| <= MAX_PAYLOAD_BYTES
    ensures var data := lib.base64(Produced(lib, fed) + lib.flush(fed));
      Decode(lib, Json(lib, Envelope(|Raw(lib, v)|, data))) == Some(v)
  {
    var size, packed := |Raw(lib, v)|, Produced(lib, fed) + lib.flush(fed);
    var e := Envelope(size, lib.base64(packed));
    RawIsNotEmpty(lib, v);
    assert lib.loads(Json(lib, e)) == Some(e);
    assert lib.unbase64(lib.base64(packed)) == Some(packed);
    assert lib.inflate(packed, size + 1) == Inflated(Concat(fed), true);
    assert lib.unutf8(Raw(lib, v)) == Some(Json(lib, v));
    assert Unpack(lib, size, lib.base64(packed)) == Some(v);
    assert e.fields.Keys == {TAG, "utf8_bytes", "data"};
  }

  lemma RawIsNotEmpty(lib: Lib, v: Value)
    requires JsonIsFaithful(lib) && Utf8IsFaithful(lib)
    ensures |Raw(lib, v)| > 0
  {
    assert lib.utf8("" + "") == lib.utf8("") + lib.utf8("");
    assert "" + "" == "";
    assert |lib.utf8("")| == 0;
    assert lib.unutf8(lib.utf8("")) == Some("");
    assert lib.unutf8(Raw(lib, v)) == Some(Json(lib, v));
    assert lib.loads(Json(lib, v)) == Some(v);
  }

  lemma TextComesBack(lib: Lib, v: Value)
    requires Utf8IsFaithful(lib)
    ensures lib.unutf8(Raw(lib, v)) == Some(Json(lib, v))
  {
  }

  lemma PlainRoundTrip(lib: Lib, v: Value)
    requires JsonIsFaithful(lib) && !Reserved(v)
    ensures Decode(lib, Json(lib, v)) == Some(v)
  {
    assert lib.loads(Json(lib, v)) == Some(v);
  }

  /** The stream ends cleanly after exactly the announced number of bytes, which are the text of x. */
  ghost predicate Opens(lib: Lib, size: int, data: string, x: Value) {
    && 1 <= size <= MAX_PAYLOAD_BYTES
    && exists packed, raw, text :: Unpacks(lib, size, data, packed, raw, text) && lib.loads(text) == Some(x)
  }

  predicate Unpacks(lib: Lib, size: nat, data: string, packed: Bytes, raw: Bytes, text: string) {
    && lib.unbase64(data) == Some(packed) && lib.inflate(packed, size + 1) == Inflated(raw, true)
    && |raw| == size && lib.unutf8(raw) == Some(text)
  }

  /** Nothing else that uses the reserved tag is accepted than an envelope that opens. */
  lemma OnlyEnvelopesOpen(lib: Lib, body: string, v: Value, x: Value)
    requires lib.loads(body) == Some(v) && Reserved(v)
    ensures Decode(lib, body) == Some(x) <==>
      exists size, data :: v == Envelope(size, data) && Opens(lib, size, data, x)
  {
    if Decode(lib, body) == Some(x) {
      var size, data := v.fields["utf8_bytes"].number, v.fields["data"].text;
      var packed := lib.unbase64(data).value;
      var raw := lib.inflate(packed, size + 1).data;
      assert Unpacks(lib, size, data, packed, raw, lib.unutf8(raw).value);
      assert v == Envelope(size, data);
    }
  }

  /** Stored plainly, a value using the reserved tag comes back only if it happens to be an envelope of
      itself: this is why the code never stores such a value plainly. */
  lemma ReservedPlainFails(lib: Lib, v: Value)
    requires JsonIsFaithful(lib) && Reserved(v) && v.fields.Keys != {TAG, "utf8_bytes", "data"}
    ensures Decode(lib, Json(lib, v)) == None
  {
    assert lib.loads(Json(lib, v)) == Some(v);
  }

  // ---- the streaming encoder ----

  /** The encoder after reading `text`, `fed` standing for the compressor object: compressed parts and
      pending bytes hold exactly its UTF-8 form. */
  ghost predicate Streaming(lib: Lib, text: string, fed: seq<Bytes>, compressed: Bytes, pending: Bytes, rawSize: nat) {
    && Concat(fed) + pending == lib.utf8(text) && rawSize == |lib.utf8(text)| <= MAX_PAYLOAD_BYTES
    && compressed == Produced(lib, fed) && |pending| < CHUNK_BYTES
    && (rawSize < CHUNK_BYTES ==> fed == [])
  }

  lemma FedGrows(lib: Lib, fed: seq<Bytes>, part: Bytes)
    ensures Concat(fed + [part]) == Concat(fed) + part
    ensures Produced(lib, fed + [part]) == Produced(lib, fed) + lib.compress(fed, part)
  {
    assert (fed + [part])[..|fed|] == fed;
  }

  lemma Utf8Split(lib: Lib, a: string, b: string, whole: string)
    requires Utf8IsFaithful(lib) && whole == a + b
    ensures lib.utf8(whole) == lib.utf8(a) + lib.utf8(b) && |lib.utf8(a)| <= |lib.utf8(whole)|
  {
  }

  /** One piece of at most CHUNK_BYTES characters. */
  method FeedPiece(lib: Lib, ghost text: string, piece: string, fed0: seq<Bytes>, compressed0: Bytes, pending0: Bytes,
        rawSize0: nat)
    returns (ok: bool, fed: seq<Bytes>, compressed: Bytes, pending: Bytes, rawSize: nat)
    requires Utf8IsFaithful(lib) && Streaming(lib, text, fed0, compressed0, pending0, rawSize0)
    ensures ok <==> |lib.utf8(text + piece)| <= MAX_PAYLOAD_BYTES
    ensures ok ==> Streaming(lib, text + piece, fed, compressed, pending, rawSize)
  {
    fed, compressed := fed0, compressed0;
    var data := lib.utf8(piece);
    Utf8Split(lib, text, piece, text + piece);
    rawSize := rawSize0 + |data|;
    pending := pending0 + data;
    assert Concat(fed) + pending == (Concat(fed) + pending0) + data;
    ok := rawSize <= MAX_PAYLOAD_BYTES;
    if ok && |pending| >= CHUNK_BYTES {
      FedGrows(lib, fed, pending);
      compressed := compressed + lib.compress(fed, pending);
      fed, pending := fed + [pending], [];
    }
  }

  /** One JSON fragment, cut into pieces. */
  method FeedFragment(lib: Lib, ghost text: string, fragment: string, fed0: seq<Bytes>, compressed0: Bytes,
        pending0: Bytes, rawSize0: nat)
    returns (ok: bool, fed: seq<Bytes>, compressed: Bytes, pending: Bytes, rawSize: nat)
    requires Utf8IsFaithful(lib) && Streaming(lib, text, fed0, compressed0, pending0, rawSize0)
    ensures ok <==> |lib.utf8(text + fragment)| <= MAX_PAYLOAD_BYTES
    ensures ok ==> Streaming(lib, text + fragment, fed, compressed, pending, rawSize)
  {
    ok, fed, compressed, pending, rawSize := true, fed0, compressed0, pending0, rawSize0;
    var offset := 0;
    assert text + fragment[..0] == text;
    while offset < |fragment|
      invariant offset <= |fragment| && ok
      invariant Streaming(lib, text + fragment[..offset], fed, compressed, pending, rawSize)
    {
      var end := if offset + CHUNK_BYTES < |fragment| then offset + CHUNK_BYTES else |fragment|;
      var piece := fragment[offset..end];
      ghost var before := text + fragment[..offset];
      assert before + piece == text + fragment[..end];
      ok, fed, compressed, pending, rawSize := FeedPiece(lib, before, piece, fed, compressed, pending, rawSize);
      Utf8Split(lib, before + piece, fragment[end..], text + fragment);
      if !ok {
        return;
      }
      offset := end;
    }
    assert fragment[..|fragment|] == fragment;
  }

  datatype Encoded = TooLarge | Encoded(body: string, rawSize: nat)

  /** encode_current_payload: whatever the size, the fragmentation and the compression ratio, the body
      decodes to the value, small ordinary values stay plain JSON, and no other ordinary value grows. */
  method Encode(lib: Lib, v: Value) returns (r: Encoded)
    requires Sound(lib)
    ensures r.TooLarge? <==> |Raw(lib, v)| > MAX_PAYLOAD_BYTES
    ensures r.Encoded? ==> r.rawSize == |Raw(lib, v)| && Decode(lib, r.body) == Some(v)
    ensures r.Encoded? && !Reserved(v) && |Raw(lib, v)| < CHUNK_BYTES ==> r.body == Json(lib, v)
    ensures r.Encoded? && !Reserved(v) && r.body != Json(lib, v) ==> |lib.utf8(r.body)| < |Raw(lib, v)|
    ensures r.Encoded? && (Reserved(v) || |Raw(lib, v)| >= CHUNK_BYTES) ==>
      exists fed :: Shorter(lib, v, fed, r.body)
  {
    hide Decode, JsonIsFaithful, Utf8IsFaithful, ZlibIsFaithful, Base64IsFaithful;
    var fragments := lib.fragments(v);
    var fed: seq<Bytes>, compressed: Bytes, pending: Bytes, rawSize: nat := [], [], [], 0;
    EmptyStream(lib);
    for i := 0 to |fragments|
      invariant Streaming(lib, Concat(fragments[..i]), fed, compressed, pending, rawSize)
    {
      var ok: bool;
      assert fragments[..i + 1][..i] == fragments[..i];
      ok, fed, compressed, pending, rawSize :=
        FeedFragment(lib, Concat(fragments[..i]), fragments[i], fed, compressed, pending, rawSize);
      PrefixFits(lib, fragments, i + 1);
      if !ok {
        return TooLarge;
      }
    }
    assert fragments[..|fragments|] == fragments;
    var reserved := v.Object? && TAG in v.fields;
    if rawSize < CHUNK_BYTES && !reserved {
      PlainRoundTrip(lib, v);
      assert Concat(fed) + pending == pending;
      TextComesBack(lib, v);
      var text := lib.unutf8(pending);
      return Encoded(if text.Some? then text.value else "", rawSize);
    }
    FedGrows(lib, fed, pending);
    compressed := compressed + lib.compress(fed, pending);
    fed := fed + [pending];
    compressed := compressed + lib.flush(fed);
    EnvelopeRoundTrip(lib, v, fed);
    var body := Json(lib, Envelope(rawSize, lib.base64(compressed)));
    assert Concat(fed) == Raw(lib, v) && body == Packed(lib, v, fed);
    if |lib.utf8(body)| >= rawSize && !reserved {
      PlainRoundTrip(lib, v);
      assert Shorter(lib, v, fed, Json(lib, v));
      return Encoded(Json(lib, v), rawSize);
    }
    assert Shorter(lib, v, fed, body);
    return Encoded(body, rawSize);
  }

  /** payload_hash: feeding the digest fragment by fragment hashes exactly the canonical encoding. */
  method PayloadHash(lib: Lib, digest: Bytes -> string, v: Value) returns (h: string)
    requires Utf8IsFaithful(lib)
    ensures h == digest(Raw(lib, v))
  {
    var fragments := lib.fragments(v);
    var updated: Bytes := [];
    EmptyStream(lib);
    for i := 0 to |fragments|
      invariant updated == lib.utf8(Concat(fragments[..i]))
    {
      assert fragments[..i + 1][..i] == fragments[..i];
      Utf8Split(lib, Concat(fragments[..i]), fragments[i], Concat(fragments[..i + 1]));
      updated := updated + lib.utf8(fragments[i]);
    }
    assert fragments[..|fragments|] == fragments;
    return digest(updated);
  }

  lemma EmptyStream(lib: Lib)
    requires Utf8IsFaithful(lib)
    ensures Streaming(lib, Concat([]), [], [], [], 0)
  {
    assert lib.utf8("" + "") == lib.utf8("") + lib.utf8("");
    assert "" + "" == "";
    assert |lib.utf8("")| == 0;
  }

  lemma {:induction false} PrefixFits(lib: Lib, fragments: seq<string>, i: nat)
    requires Utf8IsFaithful(lib) && i <= |fragments|
    ensures |lib.utf8(Concat(fragments[..i]))| <= |lib.utf8(Concat(fragments))|
    decreases |fragments|
  {
    if i == |fragments| {
      assert fragments[..i] == fragments;
    } else {
      var front := fragments[..|fragments| - 1];
      assert front[..i] == fragments[..i];
      PrefixFits(lib, front, i);
      Utf8Split(lib, Concat(front), fragments[|fragments| - 1], Concat(fragments));
    }
  }
}
