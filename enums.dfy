/** The three enumerations of the engine and the names `ToString` gives their members. */
module Enums {

  datatype LineEndings = LF | CR | CRLF

  datatype BufferType = Immediate | Lazy

  datatype EncodingType = UTF7 | UTF8 | UTF16LE | UTF16BE | UTF32LE | UTF32BE

  /** The member name, as `Enum.ToString()` prints it. */
  function EncodingTypeName(t: EncodingType): string
  {
    match t
    case UTF7 => "UTF7"
    case UTF8 => "UTF8"
    case UTF16LE => "UTF16LE"
    case UTF16BE => "UTF16BE"
    case UTF32LE => "UTF32LE"
    case UTF32BE => "UTF32BE"
  }

  /** The member name, as `Enum.ToString()` prints it. */
  function LineEndingsName(e: LineEndings): string
  {
    match e
    case LF => "LF"
    case CR => "CR"
    case CRLF => "CRLF"
  }
}
