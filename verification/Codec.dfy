/** The packet format: header, three length modes, compression flag, AEAD and LZ4 around it.
    [magic 2][type 1][dst 4][length 2][nonce 12 = src 4 + counter 8][payload] */
module Codec {
  import opened Bytes

  const TYPE_DATA: byte := 8
  const FLAG_COMPRESS := 0x80
  const MAGIC := 0xDAAA
  const PREFIX := 9
  const NONCE_LENGTH := 12
  const HEADER := PREFIX + NONCE_LENGTH
  const TAG := 16
  const MAX_LENGTH_FIELD := 65535
  const MAX_PACKET := HEADER + MAX_LENGTH_FIELD

  datatype Error = PacketTooShort | InvalidMagic | PayloadMismatch | AuthFailure | BadCompression
  datatype Result<+T> = Ok(value: T) | Err(error: Error)
  datatype Mode = Plaintext | Ciphertext | DataCompat

  datatype Packet = Packet(src: Key4, dst: Key4, pType: byte, payload: seq<byte>)
  datatype Header = Header(src: Key4, dst: Key4, pType: byte, length: int)

  // ---------- the two libraries, as their laws ----------

  /** One direction's cipher.  `Open` of what `Seal` made returns it, and sealing adds the tag. */
  datatype Aead = Aead(
    seal: (seq<byte>, seq<byte>, seq<byte>) -> seq<byte>,
    open: (seq<byte>, seq<byte>, seq<byte>) -> Option<seq<byte>>)

  ghost predicate AeadLaw(a: Aead) {
    && (forall n, p, h :: |a.seal(n, p, h)| == |p| + TAG && a.open(n, a.seal(n, p, h), h) == Some(p))
    && (forall n, c, h :: a.open(n, c, h).Some? ==> |c| == |a.open(n, c, h).value| + TAG)
  }

  /** LZ4 blocks; an empty output of `compress` says that the input does not compress. */
  datatype Lz4 = Lz4(compress: seq<byte> -> Option<seq<byte>>, uncompress: seq<byte> -> Option<seq<byte>>)

  ghost predicate Lz4Law(z: Lz4) {
    forall p :: z.compress(p).Some? && z.compress(p).value != [] ==> z.uncompress(z.compress(p).value) == Some(p)
  }

  /** A sender's cipher state at its current counter. */
  datatype Sealer = Sealer(aead: Aead, counter: nat)

  // ---------- type byte ----------

  predicate Flagged(t: byte) { t >= FLAG_COMPRESS }

  function Unflag(t: byte): byte { t % FLAG_COMPRESS }

  function Flag(t: byte): byte { Unflag(t) + FLAG_COMPRESS }

  // ---------- length field ----------

  /** The field counts the tag even in plaintext packets; an empty payload is written as 0. */
  function LengthField(n: nat): Option<int> {
    if n > MAX_PAYLOAD then None else if n == 0 then Some(0) else Some(n + TAG)
  }

  predicate ValidPayloadLength(actual: nat, length: int, mode: Mode) {
    if length == 0 then actual == 0 else
      match mode
      case Plaintext => length > TAG && actual == length - TAG
      case Ciphertext => actual == length
      case DataCompat => actual == length || (length > TAG && actual == length - TAG)
  }

  // ---------- encoding ----------

  function Prefix(g: Packet, length: int): (b: seq<byte>)
    requires 0 <= length <= MAX_LENGTH_FIELD
    ensures |b| == PREFIX
  {
    U16Bytes(MAGIC) + [g.pType] + g.dst + U16Bytes(length)
  }

  function Encode(g: Packet, control: bool, cipher: Option<Sealer>): Option<seq<byte>> {
    var l := LengthField(|g.payload|);
    if l.None? then None else
      var prefix := Prefix(g, l.value);
      var nonce := NonceBytes(g.src, if cipher.Some? then cipher.value.counter else 0);
      Some(prefix + nonce +
        if g.payload != [] && !control && cipher.Some?
        then cipher.value.aead.seal(nonce, g.payload, prefix) else g.payload)
  }

  /** A compressed form worth sending.  Short payloads are not tried, and a 64-byte probe that
      stays above 50 bytes ends the attempt. */
  function Compress(z: Lz4, p: seq<byte>): (c: Option<seq<byte>>)
    ensures c.Some? ==> z.compress(p) == c && 0 < |c.value| < |p| && |c.value| <= MAX_PAYLOAD
  {
    if |p| <= 128 then None
    else if z.compress(p[..64]).None? || |z.compress(p[..64]).value| > 50 then None
    else if z.compress(p).None? then None
    else
      var n := |z.compress(p).value|;
      if n >= |p| || n == 0 || n > MAX_PAYLOAD then None else z.compress(p)
  }

  function EncodePacket(z: Lz4, g: Packet, control: bool, compress: bool, cipher: Option<Sealer>): Option<seq<byte>> {
    if |g.payload| > MAX_PAYLOAD then None else
      var c := Compress(z, g.payload);
      var g' := if !compress then g
                else if c.Some? then g.(pType := Flag(g.pType), payload := c.value)
                else g.(pType := Unflag(g.pType));
      Encode(g', control, cipher)
  }

  // ---------- decoding ----------

  function ParseHeader(data: seq<byte>, mode: Mode): Result<Header> {
    if |data| < HEADER then Err(PacketTooShort)
    else if |data| > MAX_PACKET then Err(PayloadMismatch)
    else if U16(data[..2]) != MAGIC then Err(InvalidMagic)
    else if Flagged(data[2]) && Unflag(data[2]) != TYPE_DATA then Err(PayloadMismatch)
    else if !ValidPayloadLength(|data| - HEADER, U16(data[7..9]), mode) then Err(PayloadMismatch)
    else Ok(Header(data[9..13], data[3..7], data[2], U16(data[7..9])))
  }

  function ParseControl(data: seq<byte>): Result<Packet> {
    match ParseHeader(data, Plaintext)
    case Err(e) => Err(e)
    case Ok(h) => Ok(Packet(h.src, h.dst, h.pType, data[HEADER..]))
  }

  function KeylessMode(data: seq<byte>): Mode {
    if |data| > 2 && Unflag(data[2]) == TYPE_DATA then DataCompat else Plaintext
  }

  /** `ParsePacket` without a key, as both sides call it on what the socket delivers. */
  function ParsePacket(data: seq<byte>): Result<Header> {
    if |data| > MAX_PACKET then Err(PayloadMismatch) else ParseHeader(data, KeylessMode(data))
  }

  /** What `DecryptParse` leaves: the raw buffer and the payload inside it. */
  datatype Opened = Opened(raw: seq<byte>, payload: seq<byte>)

  function Decrypt(raw: seq<byte>, length: int, cipher: Option<Aead>): Result<Opened>
    requires |raw| >= HEADER
  {
    if cipher.None? || length == 0 then Ok(Opened(raw, raw[HEADER..])) else
      match cipher.value.open(raw[PREFIX..HEADER], raw[HEADER..], raw[..PREFIX])
      case None => Err(AuthFailure)
      case Some(p) =>
        // decryption is in place: the tag's bytes stay behind the plaintext
        if |p| > |raw| - HEADER then Err(AuthFailure) else
        Ok(Opened(raw[..HEADER] + p + raw[HEADER + |p|..], p))
  }

  function Decompress(z: Lz4, o: Opened): Result<Opened>
    requires |o.raw| >= HEADER
  {
    match z.uncompress(o.payload)
    case None => Err(BadCompression)
    case Some(p) =>
      if p == [] || |p| > MAX_PAYLOAD then Err(BadCompression)
      else Ok(Opened(o.raw[..HEADER] + p, p))
  }

  function DecryptParse(z: Lz4, raw: seq<byte>, h: Header, cipher: Option<Aead>): Result<Opened>
    requires |raw| >= HEADER
  {
    match Decrypt(raw, h.length, cipher)
    case Err(e) => Err(e)
    case Ok(o) => if Flagged(h.pType) then Decompress(z, o) else Ok(o)
  }

  // ---------- layout ----------

  lemma Layout(prefix: seq<byte>, nonce: seq<byte>, body: seq<byte>)
    requires |prefix| == PREFIX && |nonce| == NONCE_LENGTH
    ensures var d := prefix + nonce + body;
      && d[..2] == prefix[..2] && d[2] == prefix[2] && d[3..7] == prefix[3..7] && d[7..9] == prefix[7..9]
      && d[..PREFIX] == prefix && d[9..13] == nonce[..4] && d[PREFIX..HEADER] == nonce && d[HEADER..] == body
  {
  }

  lemma PrefixFields(g: Packet, length: int)
    requires 0 <= length <= MAX_LENGTH_FIELD
    ensures var p := Prefix(g, length);
      U16(p[..2]) == MAGIC && p[2] == g.pType && p[3..7] == g.dst && U16(p[7..9]) == length
  {
    var p := Prefix(g, length);
    assert p[..2] == U16Bytes(MAGIC) && p[7..9] == U16Bytes(length);
  }

  /** Any packet laid out with a length that suits the mode is read back field by field. */
  lemma HeaderRoundTrip(g: Packet, length: int, nonce: seq<byte>, body: seq<byte>, mode: Mode)
    requires 0 <= length <= MAX_LENGTH_FIELD && |nonce| == NONCE_LENGTH && nonce[..4] == g.src
    requires |body| <= MAX_LENGTH_FIELD && ValidPayloadLength(|body|, length, mode)
    requires Flagged(g.pType) ==> Unflag(g.pType) == TYPE_DATA
    ensures ParseHeader(Prefix(g, length) + nonce + body, mode) == Ok(Header(g.src, g.dst, g.pType, length))
  {
    Layout(Prefix(g, length), nonce, body);
    PrefixFields(g, length);
  }

  // ---------- plaintext, both ways ----------

  /** The type byte may carry the flag only on data packets. */
  predicate GoodType(t: byte) { Flagged(t) ==> Unflag(t) == TYPE_DATA }

  /** A plaintext packet with any eight counter bytes. */
  function Wire(g: Packet, counter: seq<byte>): (d: seq<byte>)
    requires |counter| == 8 && |g.payload| <= MAX_PAYLOAD
  {
    Prefix(g, LengthField(|g.payload|).value) + (g.src + counter) + g.payload
  }

  lemma WireParses(g: Packet, counter: seq<byte>)
    requires |counter| == 8 && |g.payload| <= MAX_PAYLOAD && GoodType(g.pType)
    ensures ParseControl(Wire(g, counter)) == Ok(g)
  {
    var l := LengthField(|g.payload|).value;
    HeaderRoundTrip(g, l, g.src + counter, g.payload, Plaintext);
    Layout(Prefix(g, l), g.src + counter, g.payload);
  }

  lemma ParsedIsWire(d: seq<byte>)
    requires ParseControl(d).Ok?
    ensures var g := ParseControl(d).value;
      |g.payload| <= MAX_PAYLOAD && GoodType(g.pType) && d == Wire(g, d[13..21])
  {
    var g := ParseControl(d).value;
    var l := U16(d[7..9]);
    assert LengthField(|g.payload|) == Some(l);
    assert Prefix(g, l) == d[..9] by {
      assert U16Bytes(U16(d[..2])) == d[..2] && U16Bytes(l) == d[7..9];
      assert d[..9] == d[..2] + [d[2]] + d[3..7] + d[7..9];
    }
    assert g.src + d[13..21] == d[9..21];
    assert d == d[..9] + d[9..21] + d[21..];
  }

  /** The control parser accepts exactly the packets the encoder lays out, and reading is the
      inverse of laying out on both sides. */
  lemma ControlExact(d: seq<byte>, g: Packet)
    ensures ParseControl(d) == Ok(g) <==>
      |d| >= HEADER && |g.payload| <= MAX_PAYLOAD && GoodType(g.pType) && d == Wire(g, d[13..21])
  {
    if ParseControl(d) == Ok(g) { ParsedIsWire(d); }
    if |d| >= HEADER && |g.payload| <= MAX_PAYLOAD && GoodType(g.pType) && d == Wire(g, d[13..21]) {
      WireParses(g, d[13..21]);
    }
  }

  const ZERO_COUNTER: seq<byte> := [0, 0, 0, 0, 0, 0, 0, 0]

  lemma ZeroCounter()
    ensures BigEndian(0, 8) == ZERO_COUNTER
  {
    assert BigEndian(0, 2) == [0, 0];
    assert BigEndian(0, 4) == [0, 0, 0, 0];
    assert BigEndian(0, 6) == [0, 0, 0, 0, 0, 0];
  }

  /** Plaintext encoding fails exactly on oversize payloads, and otherwise is parsed back by
      the control parser and by the keyless packet parser. */
  lemma PlainRoundTrip(g: Packet, control: bool)
    requires GoodType(g.pType)
    ensures Encode(g, control, None).None? <==> |g.payload| > MAX_PAYLOAD
    ensures |g.payload| <= MAX_PAYLOAD ==>
      && ParseControl(Encode(g, control, None).value) == Ok(g)
      && ParsePacket(Encode(g, control, None).value) == Ok(Header(g.src, g.dst, g.pType, LengthField(|g.payload|).value))
      && Encode(g, control, None).value[HEADER..] == g.payload
  {
    if |g.payload| <= MAX_PAYLOAD {
      var l, nonce := LengthField(|g.payload|).value, NonceBytes(g.src, 0);
      var d := Encode(g, control, None).value;
      assert d == Wire(g, BigEndian(0, 8));
      WireParses(g, BigEndian(0, 8));
      Layout(Prefix(g, l), nonce, g.payload);
      assert nonce[..4] == g.src;
      HeaderRoundTrip(g, l, nonce, g.payload, KeylessMode(d));
    }
  }

  /** Whatever bytes the control parser accepts, re-encoding gives them back with
      the counter cleared. */
  lemma Reencode(d: seq<byte>, control: bool)
    requires ParseControl(d).Ok?
    ensures Encode(ParseControl(d).value, control, None) == Some(d[..13] + ZERO_COUNTER + d[21..])
  {
    var g := ParseControl(d).value;
    ParsedIsWire(d);
    ZeroCounter();
    var l := LengthField(|g.payload|).value;
    Layout(Prefix(g, l), g.src + d[13..21], g.payload);
    assert d[..13] == d[..9] + d[9..13];
    assert d[..13] + ZERO_COUNTER + d[21..] == d[..9] + (d[9..13] + ZERO_COUNTER) + d[21..];
    assert Encode(g, control, None).value == Prefix(g, l) + (g.src + ZERO_COUNTER) + g.payload;
  }

  // ---------- end to end ----------

  lemma SealedParses(g: Packet, s: Sealer)
    requires AeadLaw(s.aead) && Unflag(g.pType) == TYPE_DATA && 0 < |g.payload| <= MAX_PAYLOAD
    ensures Encode(g, false, Some(s)).Some?
    ensures var d := Encode(g, false, Some(s)).value; var h := Header(g.src, g.dst, g.pType, |g.payload| + TAG);
      && |d| >= HEADER && ParsePacket(d) == Ok(h)
      && Decrypt(d, h.length, Some(s.aead)).Ok?
      && Decrypt(d, h.length, Some(s.aead)).value.payload == g.payload
      && |Decrypt(d, h.length, Some(s.aead)).value.raw| == |d|
      && Decrypt(d, h.length, Some(s.aead)).value.raw[..HEADER + |g.payload|] == d[..HEADER] + g.payload
  {
    var l, nonce := |g.payload| + TAG, NonceBytes(g.src, s.counter);
    var prefix := Prefix(g, l);
    var body := s.aead.seal(nonce, g.payload, prefix);
    var d := Encode(g, false, Some(s)).value;
    assert d == prefix + nonce + body;
    Layout(prefix, nonce, body);
    PrefixFields(g, l);
    assert nonce[..4] == g.src;
    HeaderRoundTrip(g, l, nonce, body, DataCompat);
  }

  /** An empty payload is sent bare, and no key is needed to read it. */
  lemma EmptyParses(g: Packet, s: Sealer)
    requires g.pType == TYPE_DATA && g.payload == []
    ensures Encode(g, false, Some(s)).Some?
    ensures var d := Encode(g, false, Some(s)).value;
      |d| == HEADER && ParsePacket(d) == Ok(Header(g.src, g.dst, g.pType, 0)) && Decrypt(d, 0, Some(s.aead)) == Ok(Opened(d, []))
  {
    var nonce := NonceBytes(g.src, s.counter);
    Layout(Prefix(g, 0), nonce, []);
    PrefixFields(g, 0);
    assert nonce[..4] == g.src;
    HeaderRoundTrip(g, 0, nonce, [], DataCompat);
  }

  /** What the receiver ends up with: addresses, type, and the payload in both places. */
  ghost predicate Arrives(z: Lz4, d: seq<byte>, g: Packet, key: Aead) {
    && |d| >= HEADER && ParsePacket(d).Ok?
    && var h := ParsePacket(d).value;
       var o := DecryptParse(z, d, h, Some(key));
       && h.src == g.src && h.dst == g.dst && Unflag(h.pType) == TYPE_DATA
       && o.Ok? && o.value.payload == g.payload
       && |o.value.raw| >= HEADER + |g.payload|
       && o.value.raw[..HEADER + |g.payload|] == d[..HEADER] + g.payload
  }

  lemma PlainArrives(z: Lz4, g: Packet, s: Sealer)
    requires AeadLaw(s.aead) && g.pType == TYPE_DATA && |g.payload| <= MAX_PAYLOAD
    ensures Encode(g, false, Some(s)).Some? && Arrives(z, Encode(g, false, Some(s)).value, g, s.aead)
  {
    if g.payload == [] { EmptyParses(g, s); } else { SealedParses(g, s); }
  }

  lemma CompressedArrives(z: Lz4, g: Packet, c: seq<byte>, s: Sealer)
    requires AeadLaw(s.aead) && g.pType == TYPE_DATA && 0 < |c| < |g.payload| <= MAX_PAYLOAD
    requires z.uncompress(c) == Some(g.payload)
    ensures var f := g.(pType := Flag(g.pType), payload := c);
      Encode(f, false, Some(s)).Some? && Arrives(z, Encode(f, false, Some(s)).value, g, s.aead)
  {
    SealedParses(g.(pType := Flag(g.pType), payload := c), s);
  }

  /** Encoding a data packet fails exactly on an oversize payload.  Otherwise, compressed or not:
      what the sender encodes, the receiver parses without a key, opens with the matching one, and
      finds the payload again, both as the payload and as the bytes right behind the header of the
      raw buffer. */
  lemma EndToEnd(z: Lz4, g: Packet, compress: bool, s: Sealer)
    requires AeadLaw(s.aead) && Lz4Law(z) && g.pType == TYPE_DATA
    ensures EncodePacket(z, g, false, compress, Some(s)).None? <==> |g.payload| > MAX_PAYLOAD
    ensures |g.payload| <= MAX_PAYLOAD ==> Arrives(z, EncodePacket(z, g, false, compress, Some(s)).value, g, s.aead)
  {
    if |g.payload| > MAX_PAYLOAD { return; }
    var c := Compress(z, g.payload);
    if compress && c.Some? {
      CompressedArrives(z, g, c.value, s);
    } else {
      assert g.(pType := Unflag(g.pType)) == g;
      PlainArrives(z, g, s);
    }
  }

  // ---------- exactly what is written and what is accepted ----------

  /** The payload is worth sending compressed. */
  predicate Worth(z: Lz4, p: seq<byte>) {
    && |p| > 128 && z.compress(p[..64]).Some? && |z.compress(p[..64]).value| <= 50
    && z.compress(p).Some? && 0 < |z.compress(p).value| < |p|
  }

  /** Encoding fails exactly on an oversize payload, and otherwise writes, byte by byte: magic,
      type with the flag exactly if the payload went out compressed, destination, length with the
      tag counted in, source, counter, and the payload, sealed under nonce and header unless the
      packet is a control packet, has no payload or there is no key. */
  lemma EncodeExact(z: Lz4, g: Packet, control: bool, compress: bool, cipher: Option<Sealer>)
    ensures EncodePacket(z, g, control, compress, cipher).None? <==> |g.payload| > 65519
    ensures |g.payload| <= 65519 ==>
      var d := EncodePacket(z, g, control, compress, cipher).value;
      var q := if compress && Worth(z, g.payload) then z.compress(g.payload).value else g.payload;
      var l := if q == [] then 0 else |q| + 16;
      && |d| >= 21 && d[0] == 0xDA && d[1] == 0xAA
      && d[2] == (if !compress then g.pType else if Worth(z, g.payload) then g.pType % 128 + 128 else g.pType % 128)
      && d[3..7] == g.dst && d[7] as int * 256 + d[8] as int == l && d[9..13] == g.src
      && d[13..21] == BigEndian(if cipher.Some? then cipher.value.counter else 0, 8)
      && d[21..] == if q != [] && !control && cipher.Some? then cipher.value.aead.seal(d[9..21], q, d[..9]) else q
  {
    if |g.payload| > 65519 { return; }
    var c := Compress(z, g.payload);
    assert c.Some? <==> Worth(z, g.payload);
    var f := if !compress then g
             else if c.Some? then g.(pType := Flag(g.pType), payload := c.value)
             else g.(pType := Unflag(g.pType));
    EncodedBytes(f, control, cipher);
  }

  lemma EncodedBytes(g: Packet, control: bool, cipher: Option<Sealer>)
    requires |g.payload| <= 65519
    ensures Encode(g, control, cipher).Some?
    ensures var d := Encode(g, control, cipher).value; var l := if g.payload == [] then 0 else |g.payload| + 16;
      && |d| >= 21 && d[0] == 0xDA && d[1] == 0xAA && d[2] == g.pType
      && d[3..7] == g.dst && d[7] as int * 256 + d[8] as int == l && d[9..13] == g.src
      && d[13..21] == BigEndian(if cipher.Some? then cipher.value.counter else 0, 8)
      && d[21..] == if g.payload != [] && !control && cipher.Some? then cipher.value.aead.seal(d[9..21], g.payload, d[..9]) else g.payload
  {
    var l := LengthField(|g.payload|).value;
    var prefix, nonce := Prefix(g, l), NonceBytes(g.src, if cipher.Some? then cipher.value.counter else 0);
    var body := if g.payload != [] && !control && cipher.Some? then cipher.value.aead.seal(nonce, g.payload, prefix) else g.payload;
    var d := Encode(g, control, cipher).value;
    assert d == prefix + nonce + body;
    Layout(prefix, nonce, body);
    assert d[13..21] == nonce[4..];
  }

  /** What the length field says fits what is there. */
  predicate Fits(d: seq<byte>)
    requires |d| >= 21
  {
    var n, l := |d| - 21, d[7] as int * 256 + d[8] as int;
    if l == 0 then n == 0
    else if d[2] == 8 || d[2] == 0x88 then n == l || (l > 16 && n == l - 16)
    else l > 16 && n == l - 16
  }

  /** Exactly which datagrams the keyless parser accepts, what it reads off them, and why it
      refuses the others. */
  lemma KeylessExact(d: seq<byte>)
    ensures ParsePacket(d).Ok? <==>
      21 <= |d| <= 65556 && d[0] == 0xDA && d[1] == 0xAA && (d[2] < 128 || d[2] == 0x88) && Fits(d)
    ensures ParsePacket(d).Ok? ==>
      ParsePacket(d).value == Header(d[9..13], d[3..7], d[2], d[7] as int * 256 + d[8] as int)
    ensures ParsePacket(d).Err? ==>
      ParsePacket(d).error == if |d| < 21 then PacketTooShort
                              else if |d| <= 65556 && (d[0] != 0xDA || d[1] != 0xAA) then InvalidMagic
                              else PayloadMismatch
  {
    if 21 <= |d| {
      assert U16(d[..2]) == d[0] as int * 256 + d[1] as int;
      assert U16(d[7..9]) == d[7] as int * 256 + d[8] as int;
    }
  }

  /** With a key, a packet that has a payload is accepted exactly when it opens under its own nonce
      and header and, if flagged, its plaintext uncompresses to 1 to 65519 bytes; what it carries
      is then the plaintext, or its uncompressed form, and lies right behind the header. */
  lemma OpenExact(z: Lz4, raw: seq<byte>, h: Header, a: Aead)
    requires AeadLaw(a) && |raw| >= 21 && h.length > 0
    ensures var plain := a.open(raw[9..21], raw[21..], raw[..9]); var r := DecryptParse(z, raw, h, Some(a));
      && (r.Ok? <==> plain.Some? && (h.pType >= 128 ==>
            z.uncompress(plain.value).Some? && 1 <= |z.uncompress(plain.value).value| <= 65519))
      && (plain.None? ==> r == Err(AuthFailure))
      && (r.Ok? ==> r.value.payload == (if h.pType >= 128 then z.uncompress(plain.value).value else plain.value)
                    && |r.value.raw| >= 21 + |r.value.payload|
                    && r.value.raw[..21 + |r.value.payload|] == raw[..21] + r.value.payload)
  {
    var plain := a.open(raw[9..21], raw[21..], raw[..9]);
    assert plain.Some? ==> |raw[21..]| == |plain.value| + TAG;
  }

  /** Without a key, or without a payload, nothing is opened. */
  lemma ClearExact(z: Lz4, raw: seq<byte>, h: Header, cipher: Option<Aead>)
    requires |raw| >= 21 && (cipher.None? || h.length == 0)
    ensures var r, u := DecryptParse(z, raw, h, cipher), z.uncompress(raw[21..]);
      if h.pType < 128 then r == Ok(Opened(raw, raw[21..]))
      else if u.Some? && 1 <= |u.value| <= 65519 then r == Ok(Opened(raw[..21] + u.value, u.value))
      else r == Err(BadCompression)
  {
  }

  /** A deterministic cipher: what opens is what sealing the plaintext gives. */
  ghost predicate AeadStrict(a: Aead) {
    AeadLaw(a) && forall n, c, h :: a.open(n, c, h).Some? ==> a.seal(n, a.open(n, c, h).value, h) == c
  }

  /** Then an unflagged packet is accepted exactly when it is, to the last byte of header, nonce and
      tag, what sealing its payload under them gives: no other packet has that payload. */
  lemma AcceptedExact(z: Lz4, raw: seq<byte>, h: Header, a: Aead, p: seq<byte>)
    requires AeadStrict(a) && |raw| >= 21 && h.length > 0 && h.pType < 128
    ensures var r := DecryptParse(z, raw, h, Some(a));
      r.Ok? && r.value.payload == p <==> raw == raw[..21] + a.seal(raw[9..21], p, raw[..9])
  {
    OpenExact(z, raw, h, a);
    assert raw == raw[..21] + raw[21..];
    var sealed := a.seal(raw[9..21], p, raw[..9]);
    if raw == raw[..21] + sealed { assert raw[21..] == sealed; }
  }
}
