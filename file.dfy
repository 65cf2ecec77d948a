/** The file store: one open file's byte stream, its size, its line-ending tag and
    its separate input and output encodings. */
module Files {
  import opened Errors
  import opened Enums
  import opened Streams
  import opened Encodings
  import opened ByteOrderMark

  /** The four bytes the store writes itself for UTF-7, which its codec omits. */
  const Utf7Signature: seq<byte> := [0x2B, 0x2F, 0x76, 0x38]

  predicate IsSeparator(c: char)
  {
    c == '/' || c == '\\'
  }

  /** `Path.GetFileName`: what follows the last directory separator. */
  function FileNameOf(path: string): (name: string)
    ensures |name| <= |path|
    ensures forall i :: 0 <= i < |name| ==> name[i] == path[|path| - |name| + i]
    ensures forall i :: 0 <= i < |name| ==> !IsSeparator(name[i])
    ensures |name| < |path| ==> IsSeparator(path[|path| - |name| - 1])
  {
    if path == [] then []
    else if IsSeparator(path[|path| - 1]) then []
    else FileNameOf(path[..|path| - 1]) + [path[|path| - 1]]
  }

  /** The bytes `WriteToFile` puts at `offset` for `text`: the text encoded with the
      input encoding, preceded by the UTF-7 signature when writing UTF-7 at offset 0. */
  function WrittenBytes(codec: Codec, encoding: Encoding, offset: int, text: string): seq<byte>
  {
    (if offset == 0 && encoding == Utf7 then Utf7Signature else []) + codec.getBytes(encoding, text)
  }

  /** Where `ReadFromFile` starts reading: offset 0 of a UTF-7 file skips the signature. */
  function ReadStart(encoding: Encoding, offset: int): int
  {
    if offset == 0 && encoding == Utf7 then 4 else offset
  }

  /** What `Clear` leaves in the stream. */
  function ClearedContent(encoding: Encoding): seq<byte>
  {
    if encoding == Utf7 then Utf7Signature else []
  }

  /** Reading as many bytes as a UTF-7 file holds, from offset 0, runs four bytes past
      its end: the array ends in four zero bytes, which decode as NUL characters. */
  lemma Utf7ReadRunsPastEnd(data: seq<byte>)
    requires |data| >= 4
    ensures ReadWindow(data, ReadStart(Utf7, 0), |data|) == data[4..] + Zeros(4)
  {
    var w := ReadWindow(data, ReadStart(Utf7, 0), |data|);
    var v := data[4..] + Zeros(4);
    assert |w| == |v|;
    forall i | 0 <= i < |w| ensures w[i] == v[i] {
      if i < |data| - 4 {
        assert v[i] == data[4..][i];
      } else {
        assert v[i] == Zeros(4)[i - (|data| - 4)];
      }
    }
  }

  class File {
    const fileName: string
    const filePath: string
    var fileSize: int
    var endOfLineCharacter: LineEndings
    /** The encoding in which the bytes are interpreted when read. */
    var inputEncoding: Encoding
    /** The encoding in which the file is meant to be dumped. */
    var outputEncoding: Encoding
    /** The bytes the stream holds. */
    var content: seq<byte>
    /** False once the stream has been disposed. */
    var isOpen: bool

    /** Opens the file, creating it when missing (`onDisk` is what the disk holds at
        `filePath`). An existing non-empty file takes its length as size and its
        byte-order mark as input encoding; anything else has size 0 and UTF-8. The
        output encoding starts equal to the input encoding, the tag at LF. */
    constructor (filePath: string, onDisk: Option<seq<byte>>)
      ensures this.filePath == filePath && fileName == FileNameOf(filePath)
      ensures content == (if onDisk.Some? then onDisk.value else []) && isOpen
      ensures onDisk.Some? && |onDisk.value| > 0 ==>
                fileSize == |onDisk.value| && inputEncoding == Detect(Window(onDisk.value))
      ensures !(onDisk.Some? && |onDisk.value| > 0) ==> fileSize == 0 && inputEncoding == Utf8
      ensures outputEncoding == inputEncoding && endOfLineCharacter == LF
    {
      this.filePath := filePath;
      fileName := FileNameOf(filePath);
      content := if onDisk.Some? then onDisk.value else [];
      isOpen := true;
      endOfLineCharacter := LF;
      fileSize := 0;
      inputEncoding := Utf8;
      outputEncoding := Utf8;
      new;
      if onDisk.Some? && |onDisk.value| > 0 {
        fileSize := |onDisk.value|;
        inputEncoding := GetEncodingFromMetadata();
      }
      outputEncoding := inputEncoding;
    }

    /** Reads up to four leading bytes into a zero-filled window and looks the window
        up in the byte-order-mark table. */
    method GetEncodingFromMetadata() returns (e: Encoding)
      ensures e == Detect(Window(content))
      ensures |content| < 4 ==> e == Detect(content + Zeros(4 - |content|))
    {
      var bom := ReadWindow(content, 0, 4);
      e := Detect(bom);
      if |content| < 4 {
        assert bom == content + Zeros(4 - |content|);
      }
    }

    /** Writes `content` (null counts as empty) at `byteOffset`, encoded with the INPUT
        encoding, after the UTF-7 signature when writing UTF-7 at offset 0. A disposed
        stream cannot seek, and seeking before the start throws. The size is not updated. */
    method WriteToFile(codec: Codec, byteOffset: int, text: Option<string>) returns (r: Outcome)
      modifies this
      ensures r == if !old(isOpen) then Fail(NotSupported) else if byteOffset < 0 then Fail(IO) else Pass
      ensures r.Pass? ==> content == Overwrite(old(content), byteOffset,
                WrittenBytes(codec, inputEncoding, byteOffset, if text.Some? then text.value else ""))
      ensures r.Fail? ==> content == old(content)
      ensures fileSize == old(fileSize) && isOpen == old(isOpen) && endOfLineCharacter == old(endOfLineCharacter)
      ensures inputEncoding == old(inputEncoding) && outputEncoding == old(outputEncoding)
    {
      if !isOpen {
        return Fail(NotSupported);
      }
      var s := if text.None? then "" else text.value;
      var byteArray := codec.getBytes(inputEncoding, s);
      if byteOffset == 0 && inputEncoding == Utf7 {
        byteArray := Utf7Signature + byteArray;
      }
      assert byteArray == WrittenBytes(codec, inputEncoding, byteOffset, s);
      if byteOffset < 0 {
        return Fail(IO);
      }
      content := Overwrite(content, byteOffset, byteArray);
      return Pass;
    }

    /** Reads `byteCount` bytes at `byteOffset` (offset 0 of a UTF-7 file starts at 4)
        into a zero-filled array and decodes the whole array with the input encoding. */
    method ReadFromFile(codec: Codec, byteOffset: int, byteCount: int) returns (r: Result<string>)
      ensures !isOpen ==> r == Err(NotSupported)
      ensures isOpen && byteCount < 0 ==> r == Err(Overflow)
      ensures isOpen && byteCount >= 0 && ReadStart(inputEncoding, byteOffset) < 0 ==> r == Err(IO)
      ensures isOpen && byteCount >= 0 && ReadStart(inputEncoding, byteOffset) >= 0 ==>
                r == Ok(codec.getString(inputEncoding, ReadWindow(content, ReadStart(inputEncoding, byteOffset), byteCount)))
    {
      if !isOpen {
        return Err(NotSupported);
      }
      if byteCount < 0 {
        return Err(Overflow);
      }
      var offset := byteOffset;
      if offset == 0 && inputEncoding == Utf7 {
        offset := 4;
      }
      if offset < 0 {
        return Err(IO);
      }
      var byteArray := ReadWindow(content, offset, byteCount);
      return Ok(codec.getString(inputEncoding, byteArray));
    }

    method SetFileSize(newFileSize: int)
      modifies this`fileSize
      ensures fileSize == newFileSize
    {
      fileSize := newFileSize;
    }

    /** Records the tag only: the content is not rewritten. */
    method SetLineEndings(lineEndings: LineEndings)
      modifies this`endOfLineCharacter
      ensures endOfLineCharacter == lineEndings
    {
      endOfLineCharacter := lineEndings;
    }

    method SetInputEncoding(encoding: Encoding)
      modifies this`inputEncoding
      ensures inputEncoding == encoding
    {
      inputEncoding := encoding;
    }

    method SetInputEncodingType(t: EncodingType)
      modifies this`inputEncoding
      ensures Ok(inputEncoding) == GetEncoding(t)
    {
      inputEncoding := GetEncoding(t).value;
    }

    method SetOutputEncoding(encoding: Encoding)
      modifies this`outputEncoding
      ensures outputEncoding == encoding
    {
      outputEncoding := encoding;
    }

    method SetOutputEncodingType(t: EncodingType)
      modifies this`outputEncoding
      ensures Ok(outputEncoding) == GetEncoding(t)
    {
      outputEncoding := GetEncoding(t).value;
    }

    /** Truncates the stream, then writes the UTF-7 signature back when the input
        encoding is UTF-7. A disposed stream throws. */
    method Clear() returns (r: Outcome)
      modifies this`content
      ensures r == if old(isOpen) then Pass else Fail(ObjectDisposed)
      ensures content == if r.Pass? then ClearedContent(inputEncoding) else old(content)
    {
      if !isOpen {
        return Fail(ObjectDisposed);
      }
      content := [];
      if inputEncoding == Utf7 {
        content := Overwrite(content, 0, Utf7Signature);
      }
      return Pass;
    }

    method Dispose()
      modifies this`isOpen
      ensures !isOpen
    {
      isOpen := false;
    }
  }
}
