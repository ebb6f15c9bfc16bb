/** A received packet in its pooled buffer: parsing, decryption in place and decompression
    back into the raw buffer, tied to the packet format's own functions. */
module PacketBuffer {
  import opened Bytes
  import opened Codec

  /** The buffer pool.  A buffer may only be put in when it is not in already. */
  class BufPool {
    var bufs: set<array<byte>>

    constructor ()
      ensures bufs == {}
    {
      bufs := {};
    }

    method Put(b: array<byte>)
      requires b !in bufs
      modifies this
      ensures bufs == old(bufs) + {b}
    {
      bufs := bufs + {b};
    }

    /** A pooled buffer that is large enough, or a new one; a small one goes back. */
    method Get(n: nat) returns (b: array<byte>)
      modifies this
      ensures n <= b.Length && bufs == old(bufs) - {b}
      ensures b in old(bufs) || fresh(b)
    {
      if bufs != {} {
        b :| b in bufs;
        bufs := bufs - {b};
        if n <= b.Length { return; }
        Put(b);
        assert bufs == old(bufs);
      }
      b := new byte[n](_ => 0);
      assert bufs == old(bufs) - {b};
    }
  }

  /** Overwriting inside a prefix overwrites the prefix. */
  lemma PatchedPrefix(full: seq<byte>, n: nat, off: nat, p: seq<byte>)
    requires off + |p| <= n <= |full|
    ensures (full[..off] + p + full[off + |p|..])[..n] == full[..n][..off] + p + full[..n][off + |p|..]
  {
  }

  class GamePacket {
    var src: Key4
    var dst: Key4
    var pType: byte
    var length: int
    var rawData: array<byte>
    var rawLen: nat
    var payloadLen: nat

    constructor ()
    {
      src, dst, pType, length, rawLen, payloadLen := [0, 0, 0, 0], [0, 0, 0, 0], 0, 0, 0, 0;
      rawData := new byte[0];
    }

    /** A parsed packet: the payload lies right behind the header, inside the raw buffer. */
    predicate Valid() reads this {
      HEADER <= rawLen <= rawData.Length && HEADER + payloadLen <= rawLen
    }

    function Raw(): seq<byte> reads this, rawData
      requires rawLen <= rawData.Length
    {
      rawData[..rawLen]
    }

    function Payload(): seq<byte> reads this, rawData
      requires Valid()
    {
      rawData[HEADER..HEADER + payloadLen]
    }

    function Head(): Header reads this { Header(src, dst, pType, length) }

    /** A datagram in a buffer of its own. */
    static method CopyIn(pool: BufPool, content: seq<byte>) returns (data: array<byte>)
      modifies pool, pool.bufs
      ensures |content| <= data.Length && data[..|content|] == content
      ensures pool.bufs == old(pool.bufs) - {data} && (data in old(pool.bufs) || fresh(data))
    {
      data := pool.Get(|content|);
      CopyAt(data, 0, content);
      assert data[..|content|] == data[..][..|content|];
    }

    /** Copies a datagram into a buffer of its own and reads its header.  A packet that does not
        parse leaves no buffer behind: the one it had is back in the pool. */
    method ParsePacket(pool: BufPool, content: seq<byte>) returns (err: Option<Error>)
      modifies this, pool, pool.bufs
      ensures err == (match Codec.ParsePacket(content) case Ok(_) => None case Err(e) => Some(e))
      ensures err.None? ==>
        && Valid() && Raw() == content && Payload() == content[HEADER..] && Codec.ParsePacket(content) == Ok(Head())
        && rawData !in pool.bufs && pool.bufs == old(pool.bufs) - {rawData}
        && (rawData in old(pool.bufs) || fresh(rawData))
      ensures err.Some? ==> rawLen == 0 && old(pool.bufs) <= pool.bufs && fresh(pool.bufs - old(pool.bufs))
    {
      if |content| > MAX_PACKET {
        rawLen := 0;
        return Some(PayloadMismatch);
      }
      var data := CopyIn(pool, content);
      match Codec.ParsePacket(content)
      case Err(e) =>
        pool.Put(data);
        rawLen := 0;
        return Some(e);
      case Ok(h) =>
        rawData, rawLen, payloadLen := data, |content|, |content| - HEADER;
        src, dst, pType, length := h.src, h.dst, h.pType, h.length;
        assert Payload() == Raw()[HEADER..];
        return None;
    }

    /** Decryption overwrites the ciphertext; what lies behind the plaintext stays. */
    method DecryptInPlace(aead: Aead) returns (ok: bool)
      requires Valid() && HEADER + payloadLen == rawLen
      modifies this`payloadLen, rawData
      ensures ok == Decrypt(old(Raw()), length, Some(aead)).Ok?
      ensures ok ==> Valid() && Opened(Raw(), Payload()) == Decrypt(old(Raw()), length, Some(aead)).value
    {
      if length == 0 { return true; }
      var raw := rawData[..rawLen];
      match aead.open(raw[PREFIX..HEADER], raw[HEADER..], raw[..PREFIX])
      case None => return false;
      case Some(p) =>
        if |p| > rawLen - HEADER { return false; }
        ghost var full := rawData[..];
        CopyAt(rawData, HEADER, p);
        payloadLen := |p|;
        PatchedPrefix(full, rawLen, HEADER, p);
        assert rawData[..rawLen] == rawData[..][..rawLen] && raw == full[..rawLen];
        assert Payload() == Raw()[HEADER..HEADER + |p|];
        return true;
    }

    /** Puts `plain` behind the header, in place or in a new and larger buffer, in which case
        the old one goes to the pool. */
    method ReplacePayload(pool: BufPool, plain: seq<byte>)
      requires Valid() && rawData !in pool.bufs
      modifies this`rawData, this`rawLen, this`payloadLen, rawData, pool
      ensures rawData == old(rawData) || fresh(rawData)
      ensures pool.bufs == if rawData == old(rawData) then old(pool.bufs) else old(pool.bufs) + {old(rawData)}
      ensures Valid() && Raw() == old(Raw())[..HEADER] + plain && Payload() == plain
    {
      var reqLen := HEADER + |plain|;
      if reqLen > rawData.Length {
        var tempBuf := new byte[reqLen](_ => 0);
        CopyAt(tempBuf, 0, rawData[..HEADER]);
        CopyAt(tempBuf, HEADER, plain);
        pool.Put(rawData);
        rawData := tempBuf;
      } else {
        CopyAt(rawData, HEADER, plain);
      }
      rawLen, payloadLen := reqLen, |plain|;
    }

    /** Decompression goes through a scratch buffer back into the raw buffer. */
    method DecompressInPlace(pool: BufPool, z: Lz4) returns (ok: bool)
      requires Valid() && rawData !in pool.bufs
      modifies this`rawData, this`rawLen, this`payloadLen, rawData, pool, pool.bufs
      ensures rawData !in pool.bufs
      ensures rawData == old(rawData) || (fresh(rawData) && old(rawData) in pool.bufs)
      ensures ok == Decompress(z, old(Opened(Raw(), Payload()))).Ok?
      ensures ok ==> Valid() && Opened(Raw(), Payload()) == Decompress(z, old(Opened(Raw(), Payload()))).value
    {
      var u := z.uncompress(rawData[HEADER..HEADER + payloadLen]);
      var scratch := pool.Get(MAX_PAYLOAD);
      ok := u.Some? && u.value != [] && |u.value| <= MAX_PAYLOAD;
      if ok {
        CopyAt(scratch, 0, u.value);
        assert scratch[..|u.value|] == u.value;
        assert Raw()[..HEADER] == old(Raw())[..HEADER];
        ReplacePayload(pool, scratch[..|u.value|]);
      }
      pool.Put(scratch);
    }

    /** `DecryptParse` on the buffer is `DecryptParse` of the packet format on its contents. */
    method DecryptParse(pool: BufPool, z: Lz4, cipher: Option<Aead>) returns (ok: bool)
      requires Valid() && HEADER + payloadLen == rawLen && rawData !in pool.bufs
      modifies this`rawData, this`rawLen, this`payloadLen, rawData, pool, pool.bufs
      ensures rawData !in pool.bufs
      ensures rawData == old(rawData) || (fresh(rawData) && old(rawData) in pool.bufs)
      ensures ok == Codec.DecryptParse(z, old(Raw()), Head(), cipher).Ok?
      ensures ok ==> Valid() && Opened(Raw(), Payload()) == Codec.DecryptParse(z, old(Raw()), Head(), cipher).value
    {
      assert cipher.None? ==> Payload() == Raw()[HEADER..];
      if cipher.Some? {
        ok := DecryptInPlace(cipher.value);
        if !ok { return; }
      }
      if Flagged(pType) {
        ok := DecompressInPlace(pool, z);
      } else {
        ok := true;
      }
    }
  }
}
