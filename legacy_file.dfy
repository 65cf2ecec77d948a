/** The older file abstraction: one encoding, fixed when the file is opened and used
    for every read and write, with no UTF-7 signature handling. */
module LegacyFiles {
  import opened Errors
  import opened Streams
  import opened Encodings
  import opened ByteOrderMark
  import Files

  class File {
    const fileName: string
    const filePath: string
    var fileSize: int
    const encoding: Encoding
    var content: seq<byte>
    var isOpen: bool

    constructor Create(filePath: string, data: seq<byte>)
      ensures this.filePath == filePath && fileName == Files.FileNameOf(filePath)
      ensures fileSize == |data| && content == data && isOpen
      ensures encoding == Detect(Window(data))
    {
      this.filePath := filePath;
      fileName := Files.FileNameOf(filePath);
      fileSize := |data|;
      content := data;
      isOpen := true;
      encoding := Detect(Window(data));
    }

    /** The size comes from the file on disk before the stream is opened, so a missing
        file throws FileNotFound; the encoding comes from the byte-order-mark table
        with no guard for empty files, whose zero window gives UTF-8. */
    static method Open(filePath: string, onDisk: Option<seq<byte>>) returns (f: File?, r: Outcome)
      ensures r == if onDisk.Some? then Pass else Fail(FileNotFound)
      ensures r.Pass? <==> f != null
      ensures f != null ==> (fresh(f) && f.filePath == filePath && f.content == onDisk.value &&
                f.fileSize == |onDisk.value| && f.encoding == Detect(Window(onDisk.value)) && f.isOpen)
      ensures f != null && |onDisk.value| == 0 ==> f.encoding == Utf8
    {
      if onDisk.None? {
        return null, Fail(FileNotFound);
      }
      f := new File.Create(filePath, onDisk.value);
      r := Pass;
    }

    /** Writes exactly the encoded bytes at `byteOffset`: no signature, and a null
        string throws. */
    method WriteToFile(codec: Codec, byteOffset: int, text: Option<string>) returns (r: Outcome)
      modifies this`content
      ensures r == if !isOpen then Fail(NotSupported) else if text.None? then Fail(ArgumentNull)
                   else if byteOffset < 0 then Fail(IO) else Pass
      ensures content == if r.Pass? then Overwrite(old(content), byteOffset, codec.getBytes(encoding, text.value))
                         else old(content)
    {
      if !isOpen {
        return Fail(NotSupported);
      }
      if text.None? {
        return Fail(ArgumentNull);
      }
      var byteArray := codec.getBytes(encoding, text.value);
      if byteOffset < 0 {
        return Fail(IO);
      }
      content := Overwrite(content, byteOffset, byteArray);
      return Pass;
    }

    /** Reads `byteCount` bytes at exactly `byteOffset` into a zero-filled array and
        decodes them with the file's encoding. */
    method ReadFromFile(codec: Codec, byteOffset: int, byteCount: int) returns (r: Result<string>)
      ensures !isOpen ==> r == Err(NotSupported)
      ensures isOpen && byteCount < 0 ==> r == Err(Overflow)
      ensures isOpen && byteCount >= 0 && byteOffset < 0 ==> r == Err(IO)
      ensures isOpen && byteCount >= 0 && byteOffset >= 0 ==>
                r == Ok(codec.getString(encoding, ReadWindow(content, byteOffset, byteCount)))
    {
      if !isOpen {
        return Err(NotSupported);
      }
      if byteCount < 0 {
        return Err(Overflow);
      }
      if byteOffset < 0 {
        return Err(IO);
      }
      var byteArray := ReadWindow(content, byteOffset, byteCount);
      return Ok(codec.getString(encoding, byteArray));
    }

    method UpdateFileSize(newFileSize: int)
      modifies this`fileSize
      ensures fileSize == newFileSize
    {
      fileSize := newFileSize;
    }

    method Dispose()
      modifies this`isOpen
      ensures !isOpen
    {
      isOpen := false;
    }
  }
}
