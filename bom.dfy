/** Recognising a file's encoding from its leading bytes. The byte-order marks are
    those of section 6 of RFC 3629 (UTF-8), section 3.2 of RFC 2781 (UTF-16),
    section 3.10 of the Unicode Standard (UTF-32) and the UTF-7 form of U+FEFF of
    RFC 2152. */
module ByteOrderMark {
  import opened Streams
  import opened Encodings

  /** The signature the engine associates with each codec. For UTF-7 it is the one
      the file store writes itself: `+/v8`. */
  function Signature(e: Encoding): seq<byte>
  {
    match e
    case Utf7 => [0x2B, 0x2F, 0x76, 0x38]
    case Utf8 => [0xEF, 0xBB, 0xBF]
    case Unicode => [0xFF, 0xFE]
    case BigEndianUnicode => [0xFE, 0xFF]
    case Utf32 => [0xFF, 0xFE, 0x00, 0x00]
    case Utf32BigEndian => [0x00, 0x00, 0xFE, 0xFF]
  }

  /** The 4-byte window the detection reads: a zero-filled `new byte[4]` into which
      up to four leading bytes of the file are read. */
  function Window(data: seq<byte>): (w: seq<byte>)
    ensures |w| == 4
    ensures forall i :: 0 <= i < 4 ==> w[i] == if i < |data| then data[i] else 0
  {
    ReadWindow(data, 0, 4)
  }

  /** The detection table, first match wins, UTF-8 when nothing matches. */
  function Detect(bom: seq<byte>): Encoding
    requires |bom| == 4
  {
    if bom[0] == 0x2B && bom[1] == 0x2F && bom[2] == 0x76 then Utf7
    else if bom[0] == 0xEF && bom[1] == 0xBB && bom[2] == 0xBF then Utf8
    else if bom[0] == 0xFF && bom[1] == 0xFE && bom[2] == 0 && bom[3] == 0 then Utf32
    else if bom[0] == 0xFF && bom[1] == 0xFE then Unicode
    else if bom[0] == 0xFE && bom[1] == 0xFF then BigEndianUnicode
    else if bom[0] == 0 && bom[1] == 0 && bom[2] == 0xFE && bom[3] == 0xFF then Utf32BigEndian
    else Utf8
  }

  /** Whether a window starts with one of the signatures the table recognises. */
  predicate HasSignature(bom: seq<byte>)
    requires |bom| == 4
  {
    (bom[0] == 0x2B && bom[1] == 0x2F && bom[2] == 0x76) ||
    (bom[0] == 0xEF && bom[1] == 0xBB && bom[2] == 0xBF) ||
    (bom[0] == 0xFF && bom[1] == 0xFE) ||
    (bom[0] == 0xFE && bom[1] == 0xFF) ||
    (bom[0] == 0 && bom[1] == 0 && bom[2] == 0xFE && bom[3] == 0xFF)
  }

  /** What each answer of the table means, each one stated independently of the
      order of the tests: UTF-32LE wins over UTF-16LE exactly when the next two bytes
      are NUL, and UTF-8 is both its own signature and the default. */
  lemma DetectMeaning(bom: seq<byte>)
    requires |bom| == 4
    ensures Detect(bom) == Utf7 <==> bom[..3] == [0x2B, 0x2F, 0x76]
    ensures Detect(bom) == Utf32 <==> bom == [0xFF, 0xFE, 0x00, 0x00]
    ensures Detect(bom) == Unicode <==> bom[..2] == [0xFF, 0xFE] && bom[2..] != [0x00, 0x00]
    ensures Detect(bom) == BigEndianUnicode <==> bom[..2] == [0xFE, 0xFF]
    ensures Detect(bom) == Utf32BigEndian <==> bom == [0x00, 0x00, 0xFE, 0xFF]
    ensures Detect(bom) == Utf8 <==> bom[..3] == [0xEF, 0xBB, 0xBF] || !HasSignature(bom)
  {
    assert bom[..3] == [bom[0], bom[1], bom[2]];
    assert bom[..2] == [bom[0], bom[1]];
    assert bom[2..] == [bom[2], bom[3]];
    assert bom == [bom[0], bom[1], bom[2], bom[3]];
  }

  /** A file that begins with a codec's signature is detected as that codec, provided
      for UTF-16LE that the first two bytes after the signature are not both NUL
      (the window is zero-filled, so a short file counts as NUL-padded). */
  lemma SignatureDetected(e: Encoding, rest: seq<byte>)
    requires e == Unicode ==> exists i :: 0 <= i < 2 && i < |rest| && rest[i] != 0
    ensures Detect(Window(Signature(e) + rest)) == e
  {
    var w := Window(Signature(e) + rest);
    if e == Unicode {
      var i :| 0 <= i < 2 && i < |rest| && rest[i] != 0;
      assert w[2 + i] == rest[i];
    }
  }

  /** An empty file has an all-zero window and is classified UTF-8. */
  lemma EmptyIsUtf8(data: seq<byte>)
    requires |data| == 0
    ensures Detect(Window(data)) == Utf8
  {
  }
}
