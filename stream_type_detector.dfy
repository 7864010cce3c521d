/**
 * Telling a screen stream's frames apart: JPEG images (the minicap stream) or
 * H.264 data (the scrcpy stream), from the first bytes of a message.
 */
module StreamTypeDetector {
  import opened Wrappers
  import opened Nal

  /** The kinds of message payload the detector distinguishes; a Blob's bytes can only be read asynchronously. */
  datatype StreamInput =
    | BlobInput(content: seq<byte>)
    | Uint8ArrayInput(bytes: seq<byte>)
    | ArrayBufferInput(bytes: seq<byte>)
    | OtherInput

  datatype StreamType = Jpeg | H264 | Unknown

  function Min(a: nat, b: nat): nat {
    if a <= b then a else b
  }

  /** `getFirstBytes(data, n)`: the first `n` bytes of a byte array or buffer, nothing for anything else. */
  function GetFirstBytes(data: StreamInput, n: nat): (r: Option<seq<byte>>)
    ensures r.Some? <==> data.Uint8ArrayInput? || data.ArrayBufferInput?
    ensures r.Some? ==> |r.value| == Min(n, |data.bytes|) && r.value == data.bytes[..|r.value|]
  {
    match data
    case Uint8ArrayInput(bytes) => Some(bytes[..Min(n, |bytes|)])
    case ArrayBufferInput(bytes) => Some(bytes[..Min(n, |bytes|)])
    case _ => None
  }

  /** `detectType`: a Blob is unknown; otherwise JPEG unless the first byte is zero. */
  function DetectType(data: StreamInput): (t: StreamType)
    ensures t == Unknown <==> data.BlobInput?
  {
    if data.BlobInput? then Unknown
    else
      var first := GetFirstBytes(data, 4);
      if first.None? || |first.value| < 2 then Jpeg
      else
        var b := first.value;
        if b[0] == 0xFF && b[1] == 0xD8 then Jpeg
        else if |b| >= 4 && b[0] == 0x00 && b[1] == 0x00 && b[2] == 0x00 && b[3] == 0x01 then H264
        else if |b| >= 3 && b[0] == 0x00 && b[1] == 0x00 && b[2] == 0x01 then H264
        else if b[0] == 0x00 then H264
        else Jpeg
  }

  /**
   * For byte input: fewer than two bytes is JPEG; otherwise the stream is H.264
   * exactly when the first byte is zero (both start codes and the scrcpy dummy
   * byte), so the JPEG marker `FF D8` and every other first byte give JPEG. Input
   * that is neither bytes nor a Blob is JPEG.
   */
  lemma DetectTypeByFirstByte(data: StreamInput)
    ensures data.OtherInput? ==> DetectType(data) == Jpeg
    ensures (data.Uint8ArrayInput? || data.ArrayBufferInput?) && |data.bytes| < 2 ==> DetectType(data) == Jpeg
    ensures (data.Uint8ArrayInput? || data.ArrayBufferInput?) && |data.bytes| >= 2 ==>
      && (DetectType(data) == H264 <==> data.bytes[0] == 0x00)
      && (DetectType(data) == Jpeg <==> data.bytes[0] != 0x00)
      && (data.bytes[0] == 0xFF && data.bytes[1] == 0xD8 ==> DetectType(data) == Jpeg)
  {
  }

  /** Only the first four bytes matter. */
  lemma DetectTypeReadsFourBytes(data: seq<byte>, other: seq<byte>)
    requires data[..Min(4, |data|)] == other[..Min(4, |other|)]
    ensures DetectType(Uint8ArrayInput(data)) == DetectType(Uint8ArrayInput(other))
    ensures DetectType(ArrayBufferInput(data)) == DetectType(Uint8ArrayInput(data))
  {
    assert |data[..Min(4, |data|)]| == |other[..Min(4, |other|)]|;
  }

  /** How many bytes of a Blob are read. */
  const BlobPeekLength: nat := 10

  /**
   * `detectTypeAsync`: any non-Blob input is classified directly; a Blob's first ten
   * bytes are read as a buffer and classified, and a failed read resolves to JPEG.
   */
  function DetectTypeAsync(data: StreamInput, readFails: bool): (t: StreamType)
    ensures t != Unknown
    ensures !data.BlobInput? ==> t == DetectType(data)
    ensures data.BlobInput? && readFails ==> t == Jpeg
  {
    if !data.BlobInput? then DetectType(data)
    else if readFails then Jpeg
    else DetectType(ArrayBufferInput(data.content[..Min(BlobPeekLength, |data.content|)]))
  }

  /** A Blob is classified like a byte array holding its content, which depends only on its first ten bytes. */
  lemma DetectTypeAsyncOfBlob(content: seq<byte>, other: seq<byte>)
    requires content[..Min(BlobPeekLength, |content|)] == other[..Min(BlobPeekLength, |other|)]
    ensures DetectTypeAsync(BlobInput(content), false) == DetectType(Uint8ArrayInput(content))
    ensures DetectTypeAsync(BlobInput(content), false) == DetectTypeAsync(BlobInput(other), false)
  {
    var peek := content[..Min(BlobPeekLength, |content|)];
    assert peek[..Min(4, |peek|)] == content[..Min(4, |content|)];
    DetectTypeReadsFourBytes(peek, content);
  }
}
