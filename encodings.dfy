/** The table from the six symbolic encoding types to .NET codecs, and the codec
    operations the engine uses, which are not modelled beyond their signatures. */
module Encodings {
  import opened Errors
  import opened Enums
  import opened Streams

  /** The `System.Text.Encoding` instances the engine works with. */
  datatype Encoding =
    | Utf7               // Encoding.UTF7
    | Utf8               // Encoding.UTF8
    | Unicode            // Encoding.Unicode, UTF-16 little-endian
    | BigEndianUnicode   // Encoding.BigEndianUnicode, UTF-16 big-endian
    | Utf32              // Encoding.UTF32, UTF-32 little-endian
    | Utf32BigEndian     // new UTF32Encoding(bigEndian: true, byteOrderMark: true)

  /** `Encoding.GetBytes` and `Encoding.GetString`, left uninterpreted: every
      operation that encodes or decodes takes the codec as a parameter. */
  datatype Codec = Codec(getBytes: (Encoding, string) -> seq<byte>, getString: (Encoding, seq<byte>) -> string)

  /** The dictionary of the `Encodings` class. */
  const Table: map<EncodingType, Encoding> := map[
    UTF7 := Utf7,
    UTF8 := Utf8,
    UTF16LE := Unicode,
    UTF16BE := BigEndianUnicode,
    UTF32LE := Utf32,
    UTF32BE := Utf32BigEndian
  ]

  /** The symbolic type a codec is registered under (the inverse of the table). */
  function TypeOf(e: Encoding): EncodingType
  {
    match e
    case Utf7 => UTF7
    case Utf8 => UTF8
    case Unicode => UTF16LE
    case BigEndianUnicode => UTF16BE
    case Utf32 => UTF32LE
    case Utf32BigEndian => UTF32BE
  }

  /** `Encodings.GetEncoding`: a dictionary lookup that throws InvalidOperation for an
      unregistered type. Every declared type is registered, so it never throws, and
      the codec it returns is registered under the type asked for. */
  function GetEncoding(t: EncodingType): (r: Result<Encoding>)
    ensures r.Ok?
    ensures TypeOf(r.value) == t
  {
    RegisteredTypes(t);
    if t !in Table then Err(InvalidOperation) else Ok(Table[t])
  }

  /** Every declared type has a table entry, registered under its own type. */
  lemma RegisteredTypes(t: EncodingType)
    ensures t in Table && TypeOf(Table[t]) == t
  {
    match t
    case UTF7 =>
    case UTF8 =>
    case UTF16LE =>
    case UTF16BE =>
    case UTF32LE =>
    case UTF32BE =>
  }

  /** Distinct types give distinct codecs, and every codec is reached. */
  lemma GetEncodingBijective(t1: EncodingType, t2: EncodingType, e: Encoding)
    ensures GetEncoding(t1) == GetEncoding(t2) ==> t1 == t2
    ensures GetEncoding(TypeOf(e)) == Ok(e)
  {
  }
}
