/** The three reversible commands. Each captures the value it will restore when it
    is built, sets the new value on `Execute` and puts the captured one back on
    `Undo`. */
module Commands {
  import opened Errors
  import opened Enums
  import opened Encodings
  import opened TextCounters
  import opened Buffers
  import opened Files
  import opened Streams

  /** Reinterprets the file's bytes: sets the input encoding and reloads the buffer. */
  class ChangeEncodingInterpretation {
    const name: string
    const buffer: Buffer
    const newEncoding: EncodingType
    const previousEncoding: Encoding

    constructor (buffer: Buffer, newEncoding: EncodingType)
      ensures name == "Interpret as " + EncodingTypeName(newEncoding)
      ensures this.buffer == buffer && this.newEncoding == newEncoding
      ensures previousEncoding == buffer.fileInstance.inputEncoding
    {
      name := "Interpret as " + EncodingTypeName(newEncoding);
      this.buffer := buffer;
      this.newEncoding := newEncoding;
      previousEncoding := buffer.fileInstance.inputEncoding;
    }

    method Execute(codec: Codec) returns (r: Outcome)
      requires buffer.Valid()
      modifies buffer.fileInstance`inputEncoding, buffer.storage, buffer.counter
      ensures Ok(buffer.fileInstance.inputEncoding) == GetEncoding(newEncoding)
      ensures r == FillOutcome(buffer.fileInstance)
      ensures r.Pass? ==> buffer.storage.Text() == LoadedText(codec, buffer.fileInstance)
      ensures r.Pass? ==> buffer.counter.State() == CountOf(buffer.storage.Text())
      ensures r.Fail? ==> buffer.storage.Text() == [] && buffer.counter.State() == old(buffer.counter.State())
    {
      buffer.fileInstance.SetInputEncodingType(newEncoding);
      r := buffer.FillBufferFromFile(codec);
    }

    /** Restores the encoding captured at construction, even if it was changed by
        other means in between, and reloads. */
    method Undo(codec: Codec) returns (r: Outcome)
      requires buffer.Valid()
      modifies buffer.fileInstance`inputEncoding, buffer.storage, buffer.counter
      ensures buffer.fileInstance.inputEncoding == previousEncoding
      ensures r == FillOutcome(buffer.fileInstance)
      ensures r.Pass? ==> buffer.storage.Text() == LoadedText(codec, buffer.fileInstance)
      ensures r.Pass? ==> buffer.counter.State() == CountOf(buffer.storage.Text())
      ensures r.Fail? ==> buffer.storage.Text() == [] && buffer.counter.State() == old(buffer.counter.State())
    {
      buffer.fileInstance.SetInputEncoding(previousEncoding);
      r := buffer.FillBufferFromFile(codec);
    }
  }

  /** Chooses the encoding the file is meant to be written in; nothing is reloaded. */
  class ConvertEncoding {
    const name: string
    const buffer: Buffer
    const newEncoding: EncodingType
    const previousEncoding: Encoding

    constructor (buffer: Buffer, newEncoding: EncodingType)
      ensures name == "Convert Encoding to " + EncodingTypeName(newEncoding)
      ensures this.buffer == buffer && this.newEncoding == newEncoding
      ensures previousEncoding == buffer.fileInstance.outputEncoding
    {
      name := "Convert Encoding to " + EncodingTypeName(newEncoding);
      this.buffer := buffer;
      this.newEncoding := newEncoding;
      previousEncoding := buffer.fileInstance.outputEncoding;
    }

    method Execute()
      modifies buffer.fileInstance`outputEncoding
      ensures Ok(buffer.fileInstance.outputEncoding) == GetEncoding(newEncoding)
    {
      buffer.fileInstance.SetOutputEncodingType(newEncoding);
    }

    method Undo()
      modifies buffer.fileInstance`outputEncoding
      ensures buffer.fileInstance.outputEncoding == previousEncoding
    {
      buffer.fileInstance.SetOutputEncoding(previousEncoding);
    }
  }

  /** Retags the file's line endings; the content is not rewritten. */
  class ChangeLineEndings {
    const name: string
    const buffer: Buffer
    const newLineEnding: LineEndings
    const previousLineEnding: LineEndings

    constructor (buffer: Buffer, newLineEnding: LineEndings)
      ensures name == "Change EOLs to " + LineEndingsName(newLineEnding)
      ensures this.buffer == buffer && this.newLineEnding == newLineEnding
      ensures previousLineEnding == buffer.fileInstance.endOfLineCharacter
    {
      name := "Change EOLs to " + LineEndingsName(newLineEnding);
      this.buffer := buffer;
      this.newLineEnding := newLineEnding;
      previousLineEnding := buffer.fileInstance.endOfLineCharacter;
    }

    method Execute()
      modifies buffer.fileInstance`endOfLineCharacter
      ensures buffer.fileInstance.endOfLineCharacter == newLineEnding
    {
      buffer.fileInstance.SetLineEndings(newLineEnding);
    }

    method Undo()
      modifies buffer.fileInstance`endOfLineCharacter
      ensures buffer.fileInstance.endOfLineCharacter == previousLineEnding
    {
      buffer.fileInstance.SetLineEndings(previousLineEnding);
    }
  }

  /** A command of any of the three kinds. */
  datatype Command =
    | Interpret(interpret: ChangeEncodingInterpretation)
    | Convert(convert: ConvertEncoding)
    | Retag(retag: ChangeLineEndings)

  function Name(c: Command): string
  {
    match c
    case Interpret(x) => x.name
    case Convert(x) => x.name
    case Retag(x) => x.name
  }

  /** What the command may change: the file, and for a reinterpretation also the
      buffer's storage and counter. */
  function Footprint(c: Command): set<object?>
  {
    match c
    case Interpret(x) => {x.buffer.fileInstance, x.buffer.storage, x.buffer.counter}
    case Convert(x) => {x.buffer.fileInstance}
    case Retag(x) => {x.buffer.fileInstance}
  }

  /** The file the command acts on. */
  function FileOf(c: Command): File
    ensures FileOf(c) in Footprint(c)
  {
    match c
    case Interpret(x) => x.buffer.fileInstance
    case Convert(x) => x.buffer.fileInstance
    case Retag(x) => x.buffer.fileInstance
  }

  /** The mutable fields of a file at one moment. */
  datatype FileFields = FileFields(
    content: seq<byte>, fileSize: int, isOpen: bool,
    inputEncoding: Encoding, outputEncoding: Encoding, endOfLineCharacter: LineEndings)

  function FieldsOf(f: File): FileFields
    reads f
  {
    FileFields(f.content, f.fileSize, f.isOpen, f.inputEncoding, f.outputEncoding, f.endOfLineCharacter)
  }

  /** The fields the command does not own are the same before and after: each
      command sets one field, and none touches the content, size or open flag. */
  predicate Untouched(c: Command, before: FileFields, after: FileFields)
  {
    && after.content == before.content && after.fileSize == before.fileSize && after.isOpen == before.isOpen
    && (c.Interpret? || after.inputEncoding == before.inputEncoding)
    && (c.Convert? || after.outputEncoding == before.outputEncoding)
    && (c.Retag? || after.endOfLineCharacter == before.endOfLineCharacter)
  }

  lemma UntouchedTrans(c: Command, a: FileFields, b: FileFields, d: FileFields)
    requires Untouched(c, a, b) && Untouched(c, b, d)
    ensures Untouched(c, a, d)
  {
  }

  /** A reinterpretation reloads an immediate buffer. */
  predicate Ready(c: Command)
  {
    c.Interpret? ==> c.interpret.buffer.Valid()
  }

  /** The buffer after `FillBufferFromFile` returned `r`: the outcome the file's state
      decides, then the decoded text and its counts, or an emptied storage. */
  predicate Reloaded(b: Buffer, codec: Codec, r: Outcome)
    requires b.Valid()
    reads b.fileInstance, b.storage, b.counter
  {
    && r == FillOutcome(b.fileInstance)
    && (r.Pass? ==> b.storage.Text() == LoadedText(codec, b.fileInstance) && b.counter.State() == CountOf(b.storage.Text()))
    && (r.Fail? ==> b.storage.Text() == [])
  }

  /** What `Execute` leaves behind: the new value is set, and a reinterpretation has
      reloaded its buffer; the other two kinds always pass. */
  predicate Applied(c: Command, codec: Codec, r: Outcome)
    reads Footprint(c)
  {
    match c
    case Interpret(x) =>
      Ok(x.buffer.fileInstance.inputEncoding) == GetEncoding(x.newEncoding) && x.buffer.Valid() && Reloaded(x.buffer, codec, r)
    case Convert(x) => Ok(x.buffer.fileInstance.outputEncoding) == GetEncoding(x.newEncoding) && r == Pass
    case Retag(x) => x.buffer.fileInstance.endOfLineCharacter == x.newLineEnding && r == Pass
  }

  /** What `Undo` leaves behind: the value captured at construction is back, and a
      reinterpretation has reloaded its buffer; the other two kinds always pass. */
  predicate Reverted(c: Command, codec: Codec, r: Outcome)
    reads Footprint(c)
  {
    match c
    case Interpret(x) =>
      x.buffer.fileInstance.inputEncoding == x.previousEncoding && x.buffer.Valid() && Reloaded(x.buffer, codec, r)
    case Convert(x) => x.buffer.fileInstance.outputEncoding == x.previousEncoding && r == Pass
    case Retag(x) => x.buffer.fileInstance.endOfLineCharacter == x.previousLineEnding && r == Pass
  }

  /** The value the command captured is still the file's, as right after the command
      is built. */
  predicate Captured(c: Command)
    reads Footprint(c)
  {
    match c
    case Interpret(x) => x.previousEncoding == x.buffer.fileInstance.inputEncoding
    case Convert(x) => x.previousEncoding == x.buffer.fileInstance.outputEncoding
    case Retag(x) => x.previousLineEnding == x.buffer.fileInstance.endOfLineCharacter
  }

  /** Distinct encoding types give distinct command names. */
  lemma NamesDistinguishEncodings(t1: EncodingType, t2: EncodingType)
    requires t1 != t2
    ensures "Interpret as " + EncodingTypeName(t1) != "Interpret as " + EncodingTypeName(t2)
    ensures "Convert Encoding to " + EncodingTypeName(t1) != "Convert Encoding to " + EncodingTypeName(t2)
  {
    var p, q := "Interpret as ", "Convert Encoding to ";
    assert (p + EncodingTypeName(t1))[|p|..] == EncodingTypeName(t1);
    assert (p + EncodingTypeName(t2))[|p|..] == EncodingTypeName(t2);
    assert (q + EncodingTypeName(t1))[|q|..] == EncodingTypeName(t1);
    assert (q + EncodingTypeName(t2))[|q|..] == EncodingTypeName(t2);
  }

  method ExecuteCommand(c: Command, codec: Codec) returns (r: Outcome)
    requires Ready(c)
    modifies Footprint(c)
    ensures Untouched(c, old(FieldsOf(FileOf(c))), FieldsOf(FileOf(c)))
    ensures Applied(c, codec, r)
    ensures !c.Interpret? ==> r == Pass
    ensures c.Interpret? && r.Fail? ==> c.interpret.buffer.counter.State() == old(c.interpret.buffer.counter.State())
  {
    match c
    case Interpret(x) => r := x.Execute(codec);
    case Convert(x) => x.Execute(); r := Pass;
    case Retag(x) => x.Execute(); r := Pass;
  }

  method UndoCommand(c: Command, codec: Codec) returns (r: Outcome)
    requires Ready(c)
    modifies Footprint(c)
    ensures Untouched(c, old(FieldsOf(FileOf(c))), FieldsOf(FileOf(c)))
    ensures Reverted(c, codec, r)
    ensures !c.Interpret? ==> r == Pass
    ensures c.Interpret? && r.Fail? ==> c.interpret.buffer.counter.State() == old(c.interpret.buffer.counter.State())
  {
    match c
    case Interpret(x) => r := x.Undo(codec);
    case Convert(x) => x.Undo(); r := Pass;
    case Retag(x) => x.Undo(); r := Pass;
  }
}
