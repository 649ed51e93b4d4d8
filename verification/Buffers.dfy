/** Files handed to the client: read with a cursor, uploaded chunk by chunk, checked and encoded as stickers. */
module Buffers {
  import opened Results
  import opened Base64
  import opened Sequences
  import opened Attachments

  const CHUNK_SIZE: nat := 1024 * 1024
  const STICKER_IMAGE_MAX_SIZE: nat := 512 * 1024
  const PNG_MAGIC_BYTES: seq<Byte> := [0x89, 0x50, 0x4e, 0x47, 0x0d, 0x0a, 0x1a, 0x0a]

  datatype Whence = SeekSet | SeekEnd

  /**
   A readable buffer. `Read(n)` may hand out fewer bytes than asked for, but at least one before
   the end; how many is up to `appetite`, an arbitrary function of the number of the call.
   */
  class Buffer {
    const content: seq<Byte>
    const appetite: nat -> nat
    var cursor: nat
    var calls: nat

    constructor (content: seq<Byte>, appetite: nat -> nat)
      ensures this.content == content && this.appetite == appetite && cursor == 0
    {
      this.content, this.appetite := content, appetite;
      cursor, calls := 0, 0;
    }

    /** What is still to be read; nothing if the cursor is behind the end. */
    function Rest(): seq<Byte>
      reads this
    {
      if cursor <= |content| then content[cursor..] else []
    }

    method Read(size: nat) returns (chunk: seq<Byte>)
      modifies this
      ensures old(Rest()) == chunk + Rest()
      ensures |chunk| <= size
      ensures chunk == [] <==> size == 0 || old(Rest()) == []
    {
      var left := |Rest()|;
      var most := if size < left then size else left;
      var n := if most == 0 then 0 else 1 + appetite(calls) % most;
      calls := calls + 1;
      chunk := Rest()[..n];
      if n > 0 {
        cursor := cursor + n;
      }
    }

    /** `read()`: everything that is left. */
    method ReadAll() returns (chunk: seq<Byte>)
      modifies this
      ensures chunk == old(Rest()) && Rest() == []
    {
      chunk := Rest();
      if cursor <= |content| {
        cursor := |content|;
      }
    }

    method Seek(offset: nat, whence: Whence)
      modifies this
      ensures cursor == if whence == SeekSet then offset else |content| + offset
    {
      cursor := if whence == SeekSet then offset else |content| + offset;
    }

    method Tell() returns (position: nat)
      ensures position == cursor
    {
      position := cursor;
    }
  }

  /** `get_file_size`; the cursor is left at the beginning. */
  method GetFileSize(buffer: Buffer) returns (size: nat)
    modifies buffer
    ensures size == |buffer.content| && buffer.cursor == 0
  {
    buffer.Seek(0, SeekEnd);
    size := buffer.Tell();
    buffer.Seek(0, SeekSet);
  }

  /**
   The loop of `UploadFileMethod.execute`: what is sent is what stood behind the cursor, however short
   the reads are.
   */
  method CopyInChunks(buffer: Buffer) returns (sent: seq<Byte>)
    modifies buffer
    ensures sent == old(buffer.Rest()) && buffer.Rest() == []
  {
    sent := [];
    var chunk := buffer.Read(CHUNK_SIZE);
    assert [] + chunk == chunk;
    while chunk != []
      invariant sent + chunk + buffer.Rest() == old(buffer.Rest())
      invariant chunk == [] ==> buffer.Rest() == []
      decreases |chunk| + |buffer.Rest()|
    {
      sent := sent + chunk;
      chunk := buffer.Read(CHUNK_SIZE);
      Regroup(sent, chunk, buffer.Rest());
    }
    assert sent + [] + [] == sent;
  }

  datatype StickerError = NotPng | TooLarge

  /** The bytes the PNG check looks at: up to eight from the cursor on, in one read. */
  ghost predicate MagicInOneRead(rest: seq<Byte>, chunk: seq<Byte>)
  {
    chunk <= rest && |chunk| <= 8 && (chunk == [] <==> rest == [])
  }

  /** The `image` field for a content of which these bytes were looked at. */
  function StickerImage(content: seq<Byte>, looked: seq<Byte>): Result<string, StickerError>
  {
    if looked != PNG_MAGIC_BYTES then Failure(NotPng)
    else if |content| > STICKER_IMAGE_MAX_SIZE then Failure(TooLarge)
    else Success(EncodeRfc2397(content, "image/png"))
  }

  /** The sticker is accepted with the cursor here, if the check's read is not short. */
  predicate AcceptedFrom(content: seq<Byte>, cursor: nat)
  {
    && cursor <= |content|
    && var looked := if cursor + 8 <= |content| then content[cursor..cursor + 8] else content[cursor..];
    && StickerImage(content, looked).Success?
  }

  /**
   `add_sticker` up to the request: both checks, then the whole buffer as a data URL. The checks
   rewind the buffer, so wherever the cursor was, all of the content is sent.
   */
  method AddStickerImage(buffer: Buffer) returns (r: Result<string, StickerError>, ghost looked: seq<Byte>)
    modifies buffer
    ensures MagicInOneRead(old(buffer.Rest()), looked)
    ensures r == StickerImage(buffer.content, looked)
    ensures |looked| == 8 || looked == old(buffer.Rest()) ==>
      (r.Success? <==> AcceptedFrom(buffer.content, old(buffer.cursor)))
  {
    var magicBytes := buffer.Read(8);
    looked := magicBytes;
    assert old(buffer.Rest()) == looked + buffer.Rest();
    buffer.Seek(0, SeekSet);
    if magicBytes != PNG_MAGIC_BYTES {
      return Failure(NotPng), looked;
    }
    var fileSize := GetFileSize(buffer);
    if fileSize > STICKER_IMAGE_MAX_SIZE {
      return Failure(TooLarge), looked;
    }
    var content := buffer.ReadAll();
    r := Success(EncodeRfc2397(content, "image/png"));
  }

  /** What the image field holds. */
  lemma {:induction false} StickerText(content: seq<Byte>, looked: seq<Byte>)
    requires StickerImage(content, looked).Success?
    ensures StickerImage(content, looked).value == "data:" + "image/png" + ";base64," + Encode(content)
  {
  }

  /** An accepted image is at most 524288 bytes and decodes to the whole content. */
  lemma {:induction false} AcceptedSticker(content: seq<Byte>, looked: seq<Byte>)
    requires StickerImage(content, looked).Success?
    ensures |content| <= 524288
    ensures DecodeRfc2397(StickerImage(content, looked).value) == Success(content)
  {
    assert ',' !in "image/png";
    DecodeEncodeRfc2397(content, "image/png");
  }

  /**
   With the cursor at the beginning: only content that starts with the PNG signature is accepted;
   unless the read was short, exactly the small enough one.
   */
  lemma {:induction false} StickerIsPng(content: seq<Byte>, looked: seq<Byte>)
    requires MagicInOneRead(content, looked)
    ensures var signature := [137, 80, 78, 71, 13, 10, 26, 10];
      && PNG_MAGIC_BYTES == signature
      && (StickerImage(content, looked) == Failure(NotPng) <==> looked != signature)
      && (StickerImage(content, looked) == Failure(TooLarge) <==> looked == signature && |content| > 524288)
      && (StickerImage(content, looked).Success? ==> signature <= content)
      && (|looked| == 8 ==> (StickerImage(content, looked).Success? <==> signature <= content && |content| <= 524288))
  {
    if |looked| == 8 {
      assert looked == content[..8];
    }
  }

  /**
   From the beginning of a buffer, an accepted image is all of its content, at most 524288 bytes that
   start with the PNG signature.
   */
  method AddStickerFromStart(buffer: Buffer) returns (r: Result<string, StickerError>)
    requires buffer.cursor == 0
    modifies buffer
    ensures r.Success? ==>
      && PNG_MAGIC_BYTES <= buffer.content
      && |buffer.content| <= 524288
      && DecodeRfc2397(r.value) == Success(buffer.content)
  {
    assert buffer.Rest() == buffer.content;
    ghost var looked;
    r, looked := AddStickerImage(buffer);
    StickerIsPng(buffer.content, looked);
    if r.Success? {
      AcceptedSticker(buffer.content, looked);
    }
  }

  /**
   The check looks behind the cursor while the whole content is sent. So it keeps out what is not a
   PNG image exactly if the cursor is at the beginning, or so far behind that any content is too large.
   */
  lemma {:induction false} CheckIsSoundAtStart(cursor: nat)
    ensures (forall content :: AcceptedFrom(content, cursor) ==> PNG_MAGIC_BYTES <= content)
       <==> cursor == 0 || cursor > STICKER_IMAGE_MAX_SIZE - 8
  {
    if 0 < cursor <= STICKER_IMAGE_MAX_SIZE - 8 {
      var content: seq<Byte> := seq(cursor, _ => 0) + PNG_MAGIC_BYTES;
      assert content[cursor..cursor + 8] == PNG_MAGIC_BYTES;
      assert AcceptedFrom(content, cursor) && content[0] == 0;
    }
  }
}
