/**
 * Length-prefixed framing of serialized messages. The encoder appends a
 * 4-byte big-endian length and the payload to an output buffer; the decoder
 * takes at most one complete frame from an input buffer, rewinding its reader
 * index when the frame is incomplete. The serializer is an arbitrary pair of
 * functions that may fail.
 */
module Codec {
  import opened Wrappers
  import opened JavaLang
  import opened Messages

  newtype byte = b: int | 0 <= b < 256

  /** A Java `byte[]`: its length is an `int`. */
  type JavaBytes = s: seq<byte> | |s| <= INT_MAX

  /** The objects the codec is configured for: `RpcRequest` on the server, `RpcResponse` on the client. */
  datatype Message = Request(request: RpcRequest) | Response(response: RpcResponse)

  /** The `genericClass` a codec was built with. */
  datatype MessageClass = RequestClass | ResponseClass

  /** `genericClass.isInstance(m)` */
  predicate IsInstance(c: MessageClass, m: Message)
  {
    match c
    case RequestClass => m.Request?
    case ResponseClass => m.Response?
  }

  /** `Serializer`: both directions may throw, which is a `Failure`. */
  datatype Serializer = Serializer(
    serialize: Message -> Result<JavaBytes>,
    deserialize: (JavaBytes, MessageClass) -> Result<Message>)

  // ---------------------------------------------------------------------------
  // Big-endian 32-bit integers, as ByteBuf.writeInt / readInt store them

  function Int32ToBytes(v: int): (b: seq<byte>)
    requires IsInt(v)
    ensures |b| == 4
  {
    var u := if v < 0 then v + TWO_POW_32 else v;
    var u1 := u / 256;
    var u2 := u1 / 256;
    [(u2 / 256) as byte, (u2 % 256) as byte, (u1 % 256) as byte, (u % 256) as byte]
  }

  function BytesToInt32(b: seq<byte>): (v: int)
    requires |b| == 4
    ensures IsInt(v)
  {
    var u := ((b[0] as int * 256 + b[1] as int) * 256 + b[2] as int) * 256 + b[3] as int;
    if u > INT_MAX then u - TWO_POW_32 else u
  }

  /** `readInt` gives back what `writeInt` stored. */
  lemma Int32RoundTrip(v: int)
    requires IsInt(v)
    ensures BytesToInt32(Int32ToBytes(v)) == v
  {
    var u := if v < 0 then v + TWO_POW_32 else v;
    var u1 := u / 256;
    var u2 := u1 / 256;
    assert u == u1 * 256 + u % 256;
    assert u1 == u2 * 256 + u1 % 256;
    assert u2 == (u2 / 256) * 256 + u2 % 256;
  }

  // ---------------------------------------------------------------------------
  // Buffers

  /**
   * The part of Netty's `ByteBuf` the codec uses: the bytes written so far
   * (the writer index is their length), the reader index and the marked
   * reader index.
   */
  class ByteBuf {
    var bytes: seq<byte>
    var readerIndex: nat
    var markedReaderIndex: nat

    ghost predicate Valid()
      reads this
    {
      readerIndex <= |bytes| && markedReaderIndex <= |bytes|
    }

    constructor (initial: seq<byte>)
      ensures Valid()
      ensures bytes == initial && readerIndex == 0 && markedReaderIndex == 0
    {
      bytes := initial;
      readerIndex := 0;
      markedReaderIndex := 0;
    }

    /** `readableBytes()` */
    function ReadableBytes(): nat
      reads this
      requires Valid()
    {
      |bytes| - readerIndex
    }

    /** `writeInt(v)`: four big-endian bytes at the writer index. */
    method WriteInt(v: int)
      requires Valid() && IsInt(v)
      modifies this
      ensures Valid()
      ensures bytes == old(bytes) + Int32ToBytes(v)
      ensures readerIndex == old(readerIndex) && markedReaderIndex == old(markedReaderIndex)
    {
      bytes := bytes + Int32ToBytes(v);
    }

    /** `writeBytes(d)` */
    method WriteBytes(d: seq<byte>)
      requires Valid()
      modifies this
      ensures Valid()
      ensures bytes == old(bytes) + d
      ensures readerIndex == old(readerIndex) && markedReaderIndex == old(markedReaderIndex)
    {
      bytes := bytes + d;
    }

    /** `markReaderIndex()` */
    method MarkReaderIndex()
      requires Valid()
      modifies this
      ensures Valid()
      ensures markedReaderIndex == readerIndex == old(readerIndex) && bytes == old(bytes)
    {
      markedReaderIndex := readerIndex;
    }

    /** `resetReaderIndex()` */
    method ResetReaderIndex()
      requires Valid()
      modifies this
      ensures Valid()
      ensures readerIndex == markedReaderIndex == old(markedReaderIndex) && bytes == old(bytes)
    {
      readerIndex := markedReaderIndex;
    }

    /** `readInt()`, called only with at least four readable bytes. */
    method ReadInt() returns (v: int)
      requires Valid() && ReadableBytes() >= 4
      modifies this
      ensures Valid()
      ensures v == BytesToInt32(old(bytes)[old(readerIndex)..old(readerIndex) + 4])
      ensures readerIndex == old(readerIndex) + 4
      ensures bytes == old(bytes) && markedReaderIndex == old(markedReaderIndex)
    {
      v := BytesToInt32(bytes[readerIndex..readerIndex + 4]);
      readerIndex := readerIndex + 4;
    }

    /** `readBytes(byte[n])`, called only with at least `n` readable bytes. */
    method ReadBytes(n: nat) returns (d: seq<byte>)
      requires Valid() && ReadableBytes() >= n
      modifies this
      ensures Valid()
      ensures d == old(bytes)[old(readerIndex)..old(readerIndex) + n]
      ensures readerIndex == old(readerIndex) + n
      ensures bytes == old(bytes) && markedReaderIndex == old(markedReaderIndex)
    {
      d := bytes[readerIndex..readerIndex + n];
      readerIndex := readerIndex + n;
    }
  }

  /** The decoder's `List<Object> out`. */
  class MessageList {
    var items: seq<Message>

    constructor ()
      ensures items == []
    {
      items := [];
    }

    method Add(m: Message)
      modifies this
      ensures items == old(items) + [m]
    {
      items := items + [m];
    }
  }

  // ---------------------------------------------------------------------------
  // Encoding

  /** One frame: the payload length as a big-endian `int`, then the payload. */
  function Frame(data: JavaBytes): (f: seq<byte>)
    ensures |f| == 4 + |data|
    ensures BytesToInt32(f[..4]) == |data| && f[4..] == data
  {
    Int32RoundTrip(|data|);
    assert (Int32ToBytes(|data|) + data)[..4] == Int32ToBytes(|data|);
    Int32ToBytes(|data|) + data
  }

  /**
   * What `encode` appends: a frame of the serialized message, or nothing when
   * the message is not of the configured class or serializing it throws.
   */
  function EncodedBytes(ser: Serializer, cls: MessageClass, m: Message): seq<byte>
  {
    if !IsInstance(cls, m) then []
    else
      match ser.serialize(m)
      case Failure(_) => []
      case Success(data) => Frame(data)
  }

  /** `RpcEncoder` */
  class RpcEncoder {
    const genericClass: MessageClass
    const serializer: Serializer

    constructor (genericClass: MessageClass, serializer: Serializer)
      ensures this.genericClass == genericClass && this.serializer == serializer
    {
      this.genericClass := genericClass;
      this.serializer := serializer;
    }

    /** `encode(ctx, m, out)`: appends to `out` and leaves its read side alone; a serialize failure is only logged. */
    method Encode(m: Message, out: ByteBuf)
      requires out.Valid()
      modifies out
      ensures out.Valid()
      ensures out.bytes == old(out.bytes) + EncodedBytes(serializer, genericClass, m)
      ensures out.readerIndex == old(out.readerIndex) && out.markedReaderIndex == old(out.markedReaderIndex)
    {
      if IsInstance(genericClass, m) {
        var r := serializer.serialize(m);
        if r.Success? {
          out.WriteInt(|r.value|);
          out.WriteBytes(r.value);
        }
      }
    }
  }

  // ---------------------------------------------------------------------------
  // Decoding

  /** What one `decode` call does to the input buffer and the output list. */
  datatype DecodeOutcome =
    | NotEnough                                      // the reader index ends where it started
    | Consumed(next: nat, emitted: Option<Message>)  // one frame read; its message, unless deserialize threw
    | NegativeLength(next: nat, len: int)            // `new byte[len]` throws after the length was read

  /** The outcome of `decode` on the bytes `b` read from index `ri`. */
  function DecodeStep(b: seq<byte>, ri: nat, ser: Serializer, cls: MessageClass): (o: DecodeOutcome)
    requires ri <= |b|
    ensures o.Consumed? ==> ri + 4 <= o.next <= |b|
    ensures o.NegativeLength? ==> o.next == ri + 4 <= |b| && o.len < 0
  {
    if |b| - ri < 4 then NotEnough
    else
      var len := BytesToInt32(b[ri..ri + 4]);
      if |b| - (ri + 4) < len then NotEnough
      else if len < 0 then NegativeLength(ri + 4, len)
      else
        var d := ser.deserialize(b[ri + 4..ri + 4 + len], cls);
        Consumed(ri + 4 + len, if d.Success? then Some(d.value) else None)
  }

  /** `RpcDecoder` */
  class RpcDecoder {
    const genericClass: MessageClass
    const serializer: Serializer

    constructor (genericClass: MessageClass, serializer: Serializer)
      ensures this.genericClass == genericClass && this.serializer == serializer
    {
      this.genericClass := genericClass;
      this.serializer := serializer;
    }

    /**
     * `decode(ctx, in, out)`. The result is the exception that escapes, if
     * any; a deserialize failure is caught and only logged.
     */
    method Decode(input: ByteBuf, out: MessageList) returns (thrown: Option<string>)
      requires input.Valid()
      modifies input, out
      ensures input.Valid() && input.bytes == old(input.bytes)
      ensures old(input.ReadableBytes()) < 4 ==> input.markedReaderIndex == old(input.markedReaderIndex)
      ensures old(input.ReadableBytes()) >= 4 ==> input.markedReaderIndex == old(input.readerIndex)
      ensures match DecodeStep(old(input.bytes), old(input.readerIndex), serializer, genericClass)
              case NotEnough =>
                input.readerIndex == old(input.readerIndex) && out.items == old(out.items) && thrown.None?
              case Consumed(next, emitted) =>
                && input.readerIndex == next && thrown.None?
                && out.items == old(out.items) + (if emitted.Some? then [emitted.value] else [])
              case NegativeLength(next, len) =>
                input.readerIndex == next && out.items == old(out.items) && thrown == Some(NegativeArraySize(len))
    {
      if input.ReadableBytes() < 4 {
        return None;
      }
      input.MarkReaderIndex();
      var dataLength := input.ReadInt();
      if input.ReadableBytes() < dataLength {
        input.ResetReaderIndex();
        return None;
      }
      if dataLength < 0 {
        return Some(NegativeArraySize(dataLength));
      }
      var data := input.ReadBytes(dataLength);
      var obj := serializer.deserialize(data, genericClass);
      if obj.Success? {
        out.Add(obj.value);
      }
      thrown := None;
    }
  }

  // ---------------------------------------------------------------------------
  // Round trip

  /** The message a decoded frame yields: `deserialize` of its payload, unless that throws. */
  function Deserialized(ser: Serializer, data: JavaBytes, cls: MessageClass): Option<Message>
  {
    var d := ser.deserialize(data, cls);
    if d.Success? then Some(d.value) else None
  }

  /**
   * A whole frame at the reader index is consumed exactly, whatever precedes
   * or follows it, and its payload bytes are what is deserialized.
   */
  lemma FrameDecodes(ser: Serializer, cls: MessageClass, prefix: seq<byte>, data: JavaBytes, suffix: seq<byte>)
    ensures DecodeStep(prefix + Frame(data) + suffix, |prefix|, ser, cls)
         == Consumed(|prefix| + 4 + |data|, Deserialized(ser, data, cls))
  {
    var f := Frame(data);
    var b := prefix + f + suffix;
    var ri := |prefix|;
    assert b[ri..ri + |f|] == f;
    assert b[ri..ri + 4] == f[..4];
    assert b[ri + 4..ri + |f|] == f[4..];
  }

  /** Any strict prefix of a frame emits nothing and leaves the reader index in place. */
  lemma PartialFrameWaits(ser: Serializer, cls: MessageClass, prefix: seq<byte>, data: JavaBytes, k: nat)
    requires k < |Frame(data)|
    ensures DecodeStep(prefix + Frame(data)[..k], |prefix|, ser, cls) == NotEnough
  {
    var b := prefix + Frame(data)[..k];
    var ri := |prefix|;
    if k >= 4 {
      assert b[ri..ri + 4] == Frame(data)[..4];
    }
  }

  /**
   * What the encoder appends to an empty buffer, the decoder reads back as
   * `deserialize(serialize(m))`; with a lossless serializer that is `m`.
   */
  lemma EncodeThenDecode(ser: Serializer, cls: MessageClass, m: Message)
    requires IsInstance(cls, m) && ser.serialize(m).Success?
    ensures DecodeStep(EncodedBytes(ser, cls, m), 0, ser, cls)
         == Consumed(4 + |ser.serialize(m).value|, Deserialized(ser, ser.serialize(m).value, cls))
    ensures ser.deserialize(ser.serialize(m).value, cls) == Success(m) ==>
              DecodeStep(EncodedBytes(ser, cls, m), 0, ser, cls).emitted == Some(m)
  {
    var data := ser.serialize(m).value;
    FrameDecodes(ser, cls, [], data, []);
    assert [] + Frame(data) + [] == EncodedBytes(ser, cls, m);
  }
}
