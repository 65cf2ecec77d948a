# Ouredit editing engine in Dafny

This project models the editing engine of the Ouredit text editor, the
`Components` library, and proves properties of the model. The engine has these parts:

- the **gap buffer** that holds a document's characters;
- the **text counter**, which keeps word, character and line counts up to date
  per typed or removed character;
- the **document buffer** (`Buffer` with its `ImmediateBuffer` subclass). It has:
  - a cursor;
  - insert and delete at the cursor;
  - a line/column parser;
  - a ranking of the four most frequent words;
  - loading from and dumping to a file;
- the **file store**, with two versions:
  - the current one keeps a byte stream with separate input and output
    encodings, a line-ending tag and the UTF-7 signature convention;
  - the older one has a single fixed encoding;
- the **encoding table**;
- the **byte-order-mark detection**;
- the **command history**, with its three reversible commands;
- the **open-file registry**;
- the **settings** list updates;
- the boolean-array reset.

Each source file becomes one module:

| module | file |
|---|---|
| `GapBuffers` | `gap_buffer.dfy` |
| `TextCounters` | `text_counter.dfy` |
| `Buffers` | `buffer.dfy` |
| `Files` | `file.dfy` |
| `LegacyFiles` | `legacy_file.dfy` |
| `Encodings` | `encodings.dfy` |
| `CommandHandlers` | `command_invoker.dfy` |
| `Commands` | `commands.dfy` |
| `ApplicationStates` | `application_state.dfy` |
| `SettingsHandlers` | `settings.dfy` |
| `ExtensionMethods` | `extension_methods.dfy` |

Four modules hold what these share:

- `Errors`: the .NET exceptions as an `Error` datatype, and `Outcome`/`Result`/`Option`;
- `Enums`: the three enumerations;
- `Streams` and `ByteOrderMark`: a file as a byte sequence, and the signature table;
- `Chars`: `Char.IsWhiteSpace` and line-break scanning.

Objects whose fields the engine updates in place are classes with `modifies`
frames:

- `GapBuffer` holds its two halves as `seq<char>` fields;
- `TextCounter`, `File`, `Buffer`, `CommandInvoker`, `ApplicationState` and
  `CategoryContainer` are classes too.

Each method throws as the source does, and then returns `Fail` or `Err` with the
exception's kind. Where the source throws before changing anything, the method
leaves the state unchanged.

The counter, the cursor parser and the word ranking are loops in the source.
Here they are methods with loop invariants, proved equal to reference functions:

- `AddAll`/`RemoveAll` for the counter;
- `ParsedCursor` for the cursor parser;
- `WordFrequencies`/`MostFrequentWords` for the ranking.

The properties are lemmas about those functions.

Three external effects become parameters:

- The codec operations `Encoding.GetBytes` and `Encoding.GetString` are a `Codec`
  value with two function fields, passed to every member that encodes or
  decodes.
- The disk is an `Option<seq<byte>>`, or a `map` from path to bytes, passed to
  the members that open files.
- Deserialising the settings file becomes an `Option<Settings>` argument of the
  settings constructor.

Three behaviours of the code look unintended. They are modelled as written:

- `GetMostFrequentWords` (Components/Models/ImmediateBuffer.cs:202-225) counts a
  word only when a white-space character ends it. The last word of a text is
  never counted, so `"a a b b b c"` ranks as `["b", "a"]`, not `["b", "a", "c"]`.
  See `Buffers.MostFrequentScenario`.
- `CommandInvoker` (Components/Controllers/CommandHandler.cs) has no `Redo`,
  although the menu at TextEditor_UI/Menu.cs:143 calls `CommandInvoker.Instance.Redo()`.
  The model's history has no redo either.
- `WriteToFile` (Components/Models/File.cs:62-91) encodes with `InputEncoding`,
  although an `OutputEncoding` field exists. A dump therefore writes in the
  file's input encoding.

## Model

| member | source | states |
|---|---|---|
| `Streams.Zeros` | Components/Models/File.cs:109 | a fresh `byte[n]` is n zero bytes |
| `Streams.Overwrite` | Components/Models/File.cs:85-90 | after seek and write, the written bytes sit at the offset; bytes before and after keep their values; a hole past the old end reads as zero; the length is the larger of the old end and the write's end |
| `Streams.ReadWindow` | Components/Models/File.cs:109-121 | a read of `count` bytes at an offset yields exactly `count` bytes: the stream's byte where one exists, zero past the end |
| `Streams.OverwriteEmpty` | Components/Models/ImmediateBuffer.cs:171-172 | writing at 0 over an emptied stream leaves exactly the written bytes |
| `Streams.OverwritePrefix` | Components/Models/File.cs:200-209 | writing at 0 bytes that start with the stream's current content leaves exactly the written bytes (the UTF-7 clear-then-write case) |
| `Streams.ReadWhatWasWritten` | Components/Models/File.cs:85-121 | reading back the range just written returns the written bytes |
| `Encodings.GetEncoding` | Components/Encodings.cs:29-37 | the lookup never throws for a declared type, and the codec it returns is registered under that type |
| `Encodings.RegisteredTypes` | Components/Encodings.cs:14-22 | every one of the six types has a table entry registered under itself |
| `Encodings.GetEncodingBijective` | Components/Encodings.cs:14-22 | distinct types give distinct codecs, and every codec is the lookup of its own type |
| `ByteOrderMark.Window` | Components/Models/File.cs:233-237 | the detection window is 4 bytes: the file's leading bytes, zero-padded when it is shorter |
| `ByteOrderMark.DetectMeaning` | Components/Models/File.cs:240-248 | each answer of the first-match table is characterised on its own: UTF-7 iff `2B 2F 76`; UTF-32LE iff `FF FE 00 00`; UTF-16LE iff `FF FE` not followed by `00 00`; UTF-16BE iff `FE FF`; UTF-32BE iff `00 00 FE FF`; UTF-8 iff `EF BB BF` or no signature |
| `ByteOrderMark.SignatureDetected` | Components/Models/File.cs:240-248 | a file starting with a codec's signature is detected as that codec (for UTF-16LE, when the next two bytes are not both NUL) |
| `ByteOrderMark.EmptyIsUtf8` | Components/File.cs:110-128 | an empty file's all-zero window is classified UTF-8 |
| `Chars.LastBreakEnd` | Components/Models/ImmediateBuffer.cs:42-52 | the position after the last line break is within the text, follows a break, and no break lies after it |
| `TextCounters.StepEffects` | Components/Controllers/TextCounter.cs:39-110 | adding raises characters by 1 and removing lowers them by 1. Adding `\r` adds a line, and so does `\n` not after `\r`. Removing `\r` takes 2 lines off unless it follows `\n` (then 1); removing anything else takes none. Removing whitespace after non-whitespace drops a word. Both paths remember the character |
| `TextCounters.AddAllPrevious` | Components/Controllers/TextCounter.cs:67-80 | the string overload leaves the last character of the string as the previous character |
| `TextCounters.AddAllCharacters` | Components/Controllers/TextCounter.cs:74-80 | adding a string raises the character count by its length |
| `TextCounters.RemoveAllCharacters` | Components/Controllers/TextCounter.cs:116-122 | removing a string lowers the character count by its length |
| `TextCounters.CountLines` | Components/Controllers/TextCounter.cs:24-33 | after a rescan the line count is 1 plus the number of line breaks (`\r`, or `\n` not after `\r`) |
| `TextCounters.CountWords` | Components/Controllers/TextCounter.cs:24-51 | after a rescan of a non-empty content the word count is 1 plus the number of whitespace characters that follow non-whitespace; it is 0 for empty content |
| `TextCounters.CountCharacters` | Components/Controllers/TextCounter.cs:24-33 | after a rescan the character count is the content length and the previous character is its last one |
| `TextCounters.CountScenario` | Components/Controllers/TextCounter.cs:24-68 | `"a b\r\nc"` counts 3 words, 6 characters and 2 lines |
| `TextCounters.LoneCarriageReturnRemovedTwice` | Components/Controllers/TextCounter.cs:96-107 | adding then removing a lone `\r` leaves the line count one below where it started |
| `TextCounters.TextCounter.constructor` | Components/Controllers/TextCounter.cs:13-18 | a fresh counter holds all-zero counts and previous character `\0` |
| `TextCounters.TextCounter.CountFileContent` | Components/Controllers/TextCounter.cs:24-33 | the state is the reset state (0, 0, 1, `\0`) with every character of the content added in order |
| `TextCounters.TextCounter.UpdateCountsAdd` | Components/Controllers/TextCounter.cs:39-68 | the new state is the add-path applied to the old state and the character |
| `TextCounters.TextCounter.UpdateCountsAddText` | Components/Controllers/TextCounter.cs:74-80 | the new state is the in-order fold of the add-path over the string |
| `TextCounters.TextCounter.UpdateCountsRemove` | Components/Controllers/TextCounter.cs:86-110 | the new state is the remove-path applied to the old state and the character |
| `TextCounters.TextCounter.UpdateCountsRemoveText` | Components/Controllers/TextCounter.cs:116-122 | the new state is the in-order fold of the remove-path over the string |
| `GapBuffers.Reversed` | ComponentsUnitTests/GapBufferTests.cs:239-245 | the reversal has the same length, with index i holding the character at length-1-i |
| `GapBuffers.InsertEachAtFrontReverses` | Components/Models/GapBuffer.cs:30-34 | inserting each character of s at offset 0 in turn yields reversed s followed by the old text |
| `GapBuffers.InsertEachAtEndAppends` | Components/Models/GapBuffer.cs:30-34 | inserting each character at the end in turn appends s in order |
| `GapBuffers.InsertThenDeleteRestores` | Components/Models/GapBuffer.cs:41-79 | deleting exactly the range an insert filled restores the text |
| `GapBuffers.DeleteThenInsertRestores` | Components/Models/GapBuffer.cs:41-79 | re-inserting a deleted range at its start restores the text |
| `GapBuffers.GapBuffer.constructor` | Components/Models/GapBuffer.cs:18-23 | both halves start empty |
| `GapBuffers.GapBuffer.MoveGap` | Components/Models/GapBuffer.cs:115-158 | an offset outside `[0, length]` throws ArgumentOutOfRange with both halves unchanged. Otherwise the text is unchanged and exactly `offset` characters lie before the gap |
| `GapBuffers.GapBuffer.Insert` | Components/Models/GapBuffer.cs:30-34 | for `0 <= k <= length` the text becomes `old[..k] + [c] + old[k..]` and grows by 1; otherwise ArgumentOutOfRange, nothing changed |
| `GapBuffers.GapBuffer.InsertText` | Components/Models/GapBuffer.cs:41-45 | for `0 <= k <= length` the text becomes `old[..k] + s + old[k..]` and grows by `|s|`; otherwise ArgumentOutOfRange, nothing changed |
| `GapBuffers.GapBuffer.Delete` | Components/Models/GapBuffer.cs:52-79 | Pass iff `0 <= s <= e < length`. Then the text becomes `old[..s] + old[e+1..]` and shrinks by `e-s+1`, whichever branch runs. Otherwise ArgumentOutOfRange, and nothing changes |
| `GapBuffers.GapBuffer.GetText` | Components/Models/GapBuffer.cs:87-100 | an empty buffer gives null. Otherwise the inclusive slice `[s, e]` when it is in range. A negative start or a negative count gives ArgumentOutOfRange, and a range past the end gives Argument. The state is never modified |
| `GapBuffers.GapBuffer.GetLength` | Components/Models/GapBuffer.cs:106-109 | the length of `left + right` |
| `Files.FileNameOf` | Components/Models/File.cs:36 | the name is a suffix of the path, holds no separator, and is preceded by a separator when shorter than the path |
| `Files.Utf7ReadRunsPastEnd` | Components/Models/File.cs:109-123 | reading as many bytes as a UTF-7 file holds from offset 0 yields its bytes after the signature followed by four zero bytes |
| `Files.File.constructor` | Components/Models/File.cs:32-55 | path, name and content come from the file. An existing non-empty file gets its length as size and its detected byte-order mark as input encoding; otherwise size 0 and UTF-8. The output encoding equals the input encoding, and the tag is LF |
| `Files.File.GetEncodingFromMetadata` | Components/Models/File.cs:230-249 | the answer is the table's value for the zero-filled window; a file under 4 bytes counts as NUL-padded |
| `Files.File.WriteToFile` | Components/Models/File.cs:62-91 | a disposed stream throws NotSupported and a negative offset throws IO. Otherwise the stream is overwritten at the offset with the text (null as `""`) encoded in the INPUT encoding, after `2B 2F 76 38` when writing UTF-7 at offset 0. Size, tag and both encodings are unchanged |
| `Files.File.ReadFromFile` | Components/Models/File.cs:99-124 | a disposed stream gives NotSupported, a negative count Overflow and a negative start IO. Otherwise the input-encoding decoding of the zero-filled `byteCount`-byte read, starting at 4 for UTF-7 at offset 0 and at the given offset otherwise |
| `Files.File.SetFileSize` | Components/Models/File.cs:130-136 | sets the size; nothing else is in its frame |
| `Files.File.SetLineEndings` | Components/Models/File.cs:142-148 | sets the tag only; content is not in its frame |
| `Files.File.SetInputEncoding` | Components/Models/File.cs:155-158 | sets the input encoding only |
| `Files.File.SetInputEncodingType` | Components/Models/File.cs:165-168 | sets the input encoding to the table's codec for the type, and nothing else |
| `Files.File.SetOutputEncoding` | Components/Models/File.cs:174-177 | sets the output encoding only |
| `Files.File.SetOutputEncodingType` | Components/Models/File.cs:183-186 | sets the output encoding to the table's codec for the type, and nothing else |
| `Files.File.Clear` | Components/Models/File.cs:191-215 | a disposed stream throws ObjectDisposed; otherwise the stream holds nothing, or exactly `2B 2F 76 38` when the input encoding is UTF-7 |
| `Files.File.Dispose` | Components/Models/File.cs:217-223 | the stream is closed; every other field is unchanged |
| `LegacyFiles.File.Create` | Components/File.cs:24-32 | name, path, size and content come from the file; the encoding is the table's value for its window, fixed for the object's lifetime |
| `LegacyFiles.File.Open` | Components/File.cs:24-31 | a missing file throws FileNotFound, because the size is read before the stream is opened. Otherwise a new open file as `Create` builds it, detected as UTF-8 when empty |
| `LegacyFiles.File.WriteToFile` | Components/File.cs:39-56 | a disposed stream throws NotSupported, null throws ArgumentNull and a negative offset throws IO. Otherwise exactly the encoded bytes are written at the offset, with no signature |
| `LegacyFiles.File.ReadFromFile` | Components/File.cs:64-83 | NotSupported, Overflow or IO as for the current file. Otherwise the decoding of the zero-filled read at exactly the given offset, with no UTF-7 adjustment |
| `LegacyFiles.File.UpdateFileSize` | Components/File.cs:89-95 | sets the size and nothing else |
| `LegacyFiles.File.Dispose` | Components/File.cs:97-103 | the stream is closed |
| `Buffers.Int32` | Components/Models/ImmediateBuffer.cs:137 | the cast result is in the int32 range, congruent to its argument mod 2^32, and equal to it when it already fits |
| `Buffers.Int32Wraps` | Components/Models/ImmediateBuffer.cs:137 | a 2 GiB size casts to -2^31, and 2^32+5 casts to 5 |
| `Buffers.ParsedCursorBounds` | Components/Models/ImmediateBuffer.cs:28-58 | a parsed line is at least 1, and the column is between 1 and 1 plus the number of characters scanned |
| `Buffers.ColumnIncludesCharacterAtCursor` | Components/Models/ImmediateBuffer.cs:35-57 | on a break-free text, cursor `pos` (0 < pos < length) reports line 1 and column `pos + 2`, because the scan includes the character at the cursor |
| `Buffers.BumpSpec` | Components/Models/ImmediateBuffer.cs:212-219 | incrementing or adding a word keeps keys distinct, raises that word's count by 1, leaves every other count unchanged, and adds no entry for another word |
| `Buffers.TallyCounts` | Components/Models/ImmediateBuffer.cs:197-225 | the dictionary has distinct keys, each word's count is its number of occurrences, and every key is a counted word |
| `Buffers.InsertDescPermutes` | Components/Models/ImmediateBuffer.cs:227 | one insertion step of the descending sort adds exactly the inserted entry |
| `Buffers.InsertDescSorted` | Components/Models/ImmediateBuffer.cs:227 | one insertion step keeps the entries in non-increasing count order |
| `Buffers.InsertDescStable` | Components/Models/ImmediateBuffer.cs:227 | inserting an entry ranked after all others keeps entries of equal count in rank order |
| `Buffers.SortDescStable` | Components/Models/ImmediateBuffer.cs:227 | the sort is stable: entries given in increasing rank keep that order among equal counts |
| `Buffers.SortDescSpec` | Components/Models/ImmediateBuffer.cs:227 | `OrderByDescending` yields a permutation of the entries in non-increasing count order, and entries with distinct words and equal counts keep their order in the input |
| `Buffers.BumpKeys` | Components/Models/ImmediateBuffer.cs:212-219 | incrementing leaves every word in its place; adding appends the new word at the end |
| `Buffers.TallyOrder` | Components/Models/ImmediateBuffer.cs:197-225 | the dictionary, which is never removed from, enumerates its words in the order each was first terminated |
| `Buffers.RankedEntries` | Components/Models/ImmediateBuffer.cs:195-228 | the sorted dictionary has one entry per counted word, with distinct keys and descending counts, and each count is its word's occurrences |
| `Buffers.RankedWordsTiesIn` | Components/Models/ImmediateBuffer.cs:195-228 | of two returned words with equal occurrences, the earlier one was terminated first |
| `Buffers.RankedWordsTiesOut` | Components/Models/ImmediateBuffer.cs:195-228 | a counted word left out that ties with a returned word was first terminated after it |
| `Buffers.MostFrequentWordsRanked` | Components/Models/ImmediateBuffer.cs:195-228 | the answer has `min(4, distinct words)` entries. The words are distinct, each was counted, and their occurrences do not increase. No counted word left out occurs more often than one that is in. Ties go to the word terminated first, both among the returned words and against a left-out word |
| `Buffers.TrailingWordNotCounted` | Components/Models/ImmediateBuffer.cs:202-225 | appending a whitespace-free suffix changes nothing that is counted |
| `Buffers.TerminatedPrefix` | Components/Models/ImmediateBuffer.cs:202-225 | scanning more text only appends to the counted words |
| `Buffers.LeadingWhiteSpaceCountsEmptyWord` | Components/Models/ImmediateBuffer.cs:204-222 | a text starting with whitespace counts the empty word first |
| `Buffers.ScanScenario` | Components/Models/ImmediateBuffer.cs:202-225 | `"a a b b b c"` counts the words a, a, b, b, b |
| `Buffers.TallyScenario` | Components/Models/ImmediateBuffer.cs:212-219 | tallying a, a, b, b, b gives `[("a", 2), ("b", 3)]` in insertion order |
| `Buffers.MostFrequentScenario` | Components/Models/ImmediateBuffer.cs:195-228 | the four most frequent words of `"a a b b b c"` are `["b", "a"]` |
| `Buffers.BackspaceAfterTypingRemovesTwo` | Components/Models/ImmediateBuffer.cs:92-101 | typing a character at k and then backspacing once removes the typed character and the one after it |
| `Buffers.DumpThenRead` | Components/Models/File.cs:62-124 | after a dump at offset 0, reading the encoded length from offset 0 returns exactly the encoded text; the UTF-7 signature is written and then skipped |
| `Buffers.Buffer.constructor` | Components/Models/Buffer.cs:27-37 | the file is stored, the storage is new and empty, the dictionary is empty, and the three positions are 0. An immediate buffer gets a new zeroed counter; a lazy one gets none |
| `Buffers.Buffer.Dispose` | Components/Models/Buffer.cs:52-64 | the buffer's file is disposed |
| `Buffers.Buffer.UpdateCursorPosition` | Components/Models/ImmediateBuffer.cs:23-26 | stores the cursor unchecked |
| `Buffers.Buffer.ParseCursorPosition` | Components/Models/ImmediateBuffer.cs:28-58 | returns `ParsedCursor`: (1, 1) at cursor 0 and on an empty buffer. Otherwise 1 plus the line breaks, and 1 plus the characters after the last break, over the text up to and including index `min(pos, length-1)`. ArgumentOutOfRange when that index is below -1 |
| `Buffers.Buffer.InsertAtCursor` | Components/Models/ImmediateBuffer.cs:64-72 | inserts the character at the cursor, applies the add-path to the counter and advances the cursor by 1; a cursor out of range throws, leaving text, counter and cursor unchanged |
| `Buffers.Buffer.InsertTextAtCursor` | Components/Models/ImmediateBuffer.cs:78-86 | inserts the string at the cursor, sets the counter to a full rescan of the new text and advances the cursor by `|s|`; a cursor out of range changes nothing |
| `Buffers.Buffer.DeleteAtCursorLeft` | Components/Models/ImmediateBuffer.cs:92-101 | Pass iff `0 <= pos-n`, `0 <= n` and `pos < length`. Then it removes the n+1 characters `[pos-n, pos]`, feeds them to the remove-path and sets the cursor to `pos-n`. The thrown kind (Argument or ArgumentOutOfRange) is given exactly, and nothing changes on a throw |
| `Buffers.Buffer.DeleteAtCursorRight` | Components/Models/ImmediateBuffer.cs:107-115 | Pass iff `0 <= pos`, `0 <= n` and `pos+n < length`. Then it removes the n+1 characters `[pos, pos+n]` and feeds them to the remove-path; the cursor stays. The thrown kind is given exactly, and nothing changes on a throw |
| `Buffers.Buffer.FillBufferFromFile` | Components/Models/ImmediateBuffer.cs:120-141 | on success, the text is the decoding of `(int)FileSize` bytes read from offset 0 and the counter is its rescan. A failing read leaves the storage already emptied and the counter untouched |
| `Buffers.Buffer.DumpBufferToCurrentFile` | Components/Models/ImmediateBuffer.cs:146-157 | the buffer's own file then holds exactly the text encoded in its input encoding, after the UTF-7 signature for UTF-7; a disposed file throws ObjectDisposed; size, encodings, open flag and line-ending tag are unchanged |
| `Buffers.Buffer.DumpBufferToFile` | Components/Models/ImmediateBuffer.cs:162-173 | the same for any file: clear, then write the text (`""` when empty) at offset 0; size, encodings, open flag and line-ending tag are unchanged |
| `Buffers.Buffer.GetBufferContent` | Components/Models/ImmediateBuffer.cs:179-189 | the whole text, `""` when empty |
| `Buffers.Buffer.GetMostFrequentWords` | Components/Models/ImmediateBuffer.cs:195-228 | the dictionary becomes the tally of the whitespace-terminated words, and the answer is the ranking that `MostFrequentWordsRanked` characterises |
| `Buffers.Buffer.Clear` | Components/Models/ImmediateBuffer.cs:233-244 | the storage is empty and the cursor is 0; the counter is not in its frame |
| `Commands.ChangeEncodingInterpretation.constructor` | Components/Commands/ChangeEncodingInterpretation.cs:28-35 | the name is `"Interpret as " + type`, and the file's input encoding is captured |
| `Commands.ChangeEncodingInterpretation.Execute` | Components/Commands/ChangeEncodingInterpretation.cs:37-41 | sets the input encoding to the table's codec and reloads the buffer: the reload's outcome and text as `FillBufferFromFile` states, the counter recounted from the new text on success and unchanged on failure; the output encoding is not in its frame |
| `Commands.ChangeEncodingInterpretation.Undo` | Components/Commands/ChangeEncodingInterpretation.cs:43-47 | restores the captured input encoding, whatever happened in between, and reloads, with the same outcome, text and counter as `Execute` |
| `Commands.ConvertEncoding.constructor` | Components/Commands/ConvertEncoding.cs:28-35 | the name is `"Convert Encoding to " + type`, and the output encoding is captured |
| `Commands.ConvertEncoding.Execute` | Components/Commands/ConvertEncoding.cs:37-40 | sets the output encoding to the table's codec; only that field is in its frame |
| `Commands.ConvertEncoding.Undo` | Components/Commands/ConvertEncoding.cs:42-45 | restores the captured output encoding; only that field is in its frame |
| `Commands.ChangeLineEndings.constructor` | Components/Commands/ChangeLineEndings.cs:27-34 | the name is `"Change EOLs to " + tag`, and the line-ending tag is captured |
| `Commands.ChangeLineEndings.Execute` | Components/Commands/ChangeLineEndings.cs:36-39 | sets the tag; only that field is in its frame, so it is idempotent |
| `Commands.ChangeLineEndings.Undo` | Components/Commands/ChangeLineEndings.cs:41-44 | restores the captured tag |
| `Commands.NamesDistinguishEncodings` | Components/Commands/ChangeEncodingInterpretation.cs:30 | commands built for different encodings have different names |
| `Commands.ExecuteCommand` | Components/Commands/ICommand.cs:7 | the command's new value is set (the table's codec or the new tag) and a reinterpretation has reloaded its buffer, with its outcome, text and counter; only a reinterpretation can throw. The file's content, size and open flag, and the fields owned by the other two kinds of command, are unchanged |
| `Commands.UndoCommand` | Components/Commands/ICommand.cs:8 | the value the command captured is back and a reinterpretation has reloaded its buffer, with its outcome, text and counter; only a reinterpretation can throw. The file's other fields are unchanged, as for `ExecuteCommand` |
| `CommandHandlers.NamesTopFirst` | Components/Controllers/CommandHandler.cs:41-44 | one name per command, with the top of the stack first |
| `CommandHandlers.UndoneTopOrder` | Components/Controllers/CommandHandler.cs:68-72 | undoing i commands calls `Undo` on the i most recent commands, most recent first |
| `CommandHandlers.CommandInvoker.constructor` | Components/Controllers/CommandHandler.cs:16-20 | the history starts empty |
| `CommandHandlers.CommandInvoker.GetCommandHistory` | Components/Controllers/CommandHandler.cs:41-44 | the names, most recent first; the stack is not modified |
| `CommandHandlers.CommandInvoker.Execute` | Components/Controllers/CommandHandler.cs:51-55 | the command's effect is that of `ExecuteCommand`, including the fields it leaves unchanged, and the command is pushed after it runs; a command that throws is not pushed |
| `CommandHandlers.CommandInvoker.Undo` | Components/Controllers/CommandHandler.cs:61-73 | n < 1 or n > size throws InvalidOperation with nothing popped. Otherwise the most recent commands are popped and undone, most recent first, and older entries are unchanged. Success pops exactly n; an undo that throws stops after popping its own command. The last command undone, which is the oldest one popped or the one that threw, has restored its captured value, as `UndoCommand` states. For n = 1 the file's other fields are also unchanged |
| `CommandHandlers.CommandInvoker.UndoMore` | Components/Controllers/CommandHandler.cs:68-72 | the loop: pops and undoes up to count commands, most recent first, and stops after the first undo that throws; success pops exactly count, and the last command undone has restored its captured value |
| `CommandHandlers.ExecuteThenUndo` | Components/Controllers/CommandHandler.cs:51-73 | executing a command built on the file's current value and then undoing one command gives back the file as it was in every field, and the history as it was; a reinterpretation also reloads in the restored encoding |
| `ApplicationStates.KindFor` | Components/Models/ApplicationState.cs:54-60 | Lazy exactly for files over 20·1024·1024 bytes |
| `ApplicationStates.FirstWithPath` | Components/Models/ApplicationState.cs:87 | `First`: the index of the first buffer open at the path, or -1 exactly when none is, where `First` throws |
| `ApplicationStates.RemovedKeepsDistinct` | Components/Models/ApplicationState.cs:80-91 | removing a buffer keeps the open paths pairwise distinct |
| `ApplicationStates.NotAllOpenable` | Components/Models/ApplicationState.cs:19-28 | a failed open in the constructor's loop means the list held a duplicate or a missing path |
| `ApplicationStates.ApplicationState.Empty` | Components/Models/ApplicationState.cs:21 | no buffers |
| `ApplicationStates.ApplicationState.Create` | Components/Models/ApplicationState.cs:19-28 | opens the paths in list order. It succeeds iff they are pairwise distinct and all exist, and then the open paths are exactly the list |
| `ApplicationStates.ApplicationState.OpenFile` | Components/Models/ApplicationState.cs:47-63 | an open path throws InvalidOperation and a missing file throws FileNotFound, neither changing anything. Otherwise one new buffer over a new file of that path is appended, lazy over 20 MiB. Paths stay distinct |
| `ApplicationStates.ApplicationState.SaveFile` | Components/Models/ApplicationState.cs:69-74 | throws InvalidOperation iff the path is not open; changes nothing |
| `ApplicationStates.ApplicationState.CloseFile` | Components/Models/ApplicationState.cs:80-91 | succeeds iff some buffer has another path and the path is open; otherwise InvalidOperation, nothing changed. Success disposes the first buffer at the path and removes it, keeping the rest in order; at least one file stays open. Only the buffer list and the `isOpen` flag of the file at the path are in its frame, so every other file keeps its flag |
| `SettingsHandlers.Matches` | Components/Controllers/SettingsHandler.cs:99 | `Where`: only entries of the list with that name, empty iff no entry has it |
| `SettingsHandlers.IndexOf` | Components/Controllers/SettingsHandler.cs:103 | `IndexOf`: the first index holding the element, -1 iff it is absent |
| `SettingsHandlers.IndexOfFirstMatch` | Components/Controllers/SettingsHandler.cs:99-104 | the index of the first match is the first index with that name |
| `SettingsHandlers.TextBoxesNeverChange` | Components/Controllers/SettingsHandler.cs:113-133 | as written, the string overload never changes a text box |
| `SettingsHandlers.TextBoxCounterexample` | Components/Controllers/SettingsHandler.cs:122-131 | a text box "font" with no combo box of that name: as written the call throws; as intended it sets the text box |
| `SettingsHandlers.SetStringIntendedMeaning` | Components/Controllers/SettingsHandler.cs:113-133 | the corrected overload throws iff neither list has the name. A combo-box match replaces the first combo box of that name and leaves the text boxes as they were. Otherwise it replaces the first text box of that name and leaves the combo boxes as they were |
| `SettingsHandlers.CategoryContainer.constructor` | Components/Controllers/SettingsHandler.cs:34-39 | stores the three lists |
| `SettingsHandlers.Settings.Empty` | Components/Controllers/SettingsHandler.cs:64-78 | six new, separate categories, all with empty lists |
| `SettingsHandlers.SettingsHandler.constructor` | Components/Controllers/SettingsHandler.cs:53-80 | uses the loaded settings, or falls back to six empty categories when loading failed |
| `SettingsHandlers.SettingsHandler.ChangeCheckBox` | Components/Controllers/SettingsHandler.cs:97-105 | replaces only the first check box with the name by `(name, value)`; throws InvalidOperation, changing nothing, when there is none |
| `SettingsHandlers.SettingsHandler.ChangeComboOrTextBox` | Components/Controllers/SettingsHandler.cs:113-133 | as written: replaces the first combo box with the name, or throws InvalidOperation |
| `SettingsHandlers.SettingsHandler.ChangeComboOrTextBoxIntended` | Components/Controllers/SettingsHandler.cs:113-133 | corrected: the first combo box with the name, else the first text box with it, else InvalidOperation |
| `ExtensionMethods.Clear` | Components/ExtensionMethods.cs:13-19 | every element of the array is false afterwards (so a second call changes nothing) |
| `ExtensionMethods.Select` | TextEditor_UI/Menu.cs:341-342 | clearing and then setting one index leaves exactly that flag true |

## Left out

- Locks and the shared `Mutex` objects: they only serialise concurrent callers,
  and the model is sequential.
- File streams and `FileInfo`: a file is the byte sequence its stream holds.
  Flushing is not modelled, and a stream's `CanSeek` is modelled as "not disposed".
- `Encoding.GetBytes` and `Encoding.GetString`: they are uninterpreted parameters,
  so no property depends on a codec's internals.
- Text is a sequence of Dafny `char`s, which are Unicode scalar values, while
  .NET `char`s are UTF-16 code units. The model covers text without surrogate
  pairs. For text with them, the source's lengths, cursor offsets and counts
  (`GetLength`, `CharacterCount`, `content.Length`) are in code units and differ
  from the model's, and a lone surrogate left by a delete that splits a pair
  cannot be represented.
- `Char.IsWhiteSpace` is written out from .NET's documented set of white-space
  characters, rather than derived from the Unicode database.
- Positions are the source's `long`/`ulong`/`int` values without overflow, except
  the `(int)` cast of the file size, which is modelled exactly (`Buffers.Int32`).
  Counter and cursor arithmetic does not wrap at 2^31.
- `LazyBuffer` is modelled only as a buffer kind with no counter: its members
  throw NotImplementedException, and its `UpdateCursorPosition` does not override
  the base member.
- The buffer factories become the buffer kind chosen in
  `ApplicationStates.KindFor`.
- `ICommand` becomes the datatype `Commands.Command` over the three command classes.
- `Name` setter: the commands' `Name` setter is not modelled; names are fixed at construction.
- The commands look their buffer up by path, through `GetFileBuffer`, and
  `GetFileBuffer` is not part of the source. The model's commands take the buffer
  itself. The model has no redo because the history defines none, and `NewFile`
  and `GetOpenFilePaths` are not part of this model either.
- The singleton `Instance` properties and `AutoSaver` are global wiring around the
  modelled objects.
- `ApplicationState.FileHandler` is a nested class. Its three operations are
  methods of `ApplicationStates.ApplicationState`, because modules and classes
  do not nest here.
- The settings JSON load and save (`ResetSettings`, `SaveSettingsToDisc`): file
  I/O. The result of loading is the constructor's argument.
- `Undo(n)`'s default argument `n = 1` is not modelled: callers pass n.
- `ShortcutGenerator`, `CommandList`, `SearchContext` and the UI and hosting
  projects are I/O, static tables, an unused record and event plumbing.
- `Files.FileNameOf`: treats only `/` and `\` as directory separators, and does
  not model a drive prefix such as `C:`.
- A dump leaves the file's size as it was, because the source never updates it.
- `CommandHandlers.CommandInvoker.Undo`: for n > 1 only the last command undone
  has its effect stated, since a later undo on the same file overwrites an earlier one.
  For the same reason, the file fields a command does not own are stated unchanged
  only for n = 1. The model undoes the top command first and then hands the rest
  of the source's single loop to `UndoMore`. The pops and undos happen in the same
  order as in the source.
- The `#DEBUG` `Console.WriteLine` calls in `Components/Models/File.cs` are not
  modelled, because they only log.

## Findings

| source | as written | input that shows it | evidently intended | confidence | as-written member | corrected member |
|---|---|---|---|---|---|---|
| Components/Controllers/SettingsHandler.cs:126 | the guard before the text-box update tests `comboBoxMatches` again, which is empty in that branch, so the string overload always throws when no combo box has the name | combo boxes `[]`, text boxes `[("font", "a")]`, name `"font"`, value `"b"` throws InvalidOperation | test `textBoxMatches`, so that a text box with the name is set | not executed | `SettingsHandlers.TextBoxCounterexample` | `SettingsHandlers.SettingsHandler.ChangeComboOrTextBoxIntended` |
