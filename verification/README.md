# Cognex sensor bridge — a Dafny model of its text-processing core

The Robot Raconteur driver for a Cognex vision sensor does several things:

- It reads a stream of text records from the sensor over TCP and frames them into lines.
- It parses the last complete line into recognised objects, each with a position, an angle and a confidence.
- It publishes the result under a sequence number and keeps the last batch for readers.
- Its command facade validates cell names, string values and event numbers, and builds the native command texts that read or write spreadsheet cells and fire events.

This project models that core as pure Dafny functions and proves properties about them.

| file | module | models |
|---|---|---|
| `wrappers.dfy` | `Wrappers` | `Option` and `Result` |
| `strings.dfy` | `Strings` | `str.strip()` with Python's whitespace set, substring test |
| `tokenizer.dfy` | `Tokenizer` | `multisplit`, `str.split(c)`, `filter(None, …)` |
| `lines.dfy` | `Lines` | `str.splitlines(keepends=True)` on `\n`, `\r`, `\r\n` |
| `framer.dfy` | `Framer` | one framing step of the reader loop |
| `parser.dfy` | `Parser` | `parse_sensor_string` without the Robot Raconteur types |
| `bridge.dfy` | `Bridge` | the reader loop as a state machine, sequence counter, `capture_recognized_objects` |
| `decimal.dfy` | `Decimal` | `str()` of an integer and its inverse |
| `commands.dfy` | `Commands` | the command facade, `re.match` of its two patterns, command texts |
| `scenarios.dfy` | `Scenarios` | the closing-brace record, worked through |

### Modelling choices

- **Numbers.** `float()` on a token is a function parameter, `NumParser`, which returns `None` where Python raises. The `{value:.4f}` formatting is a parameter too, `FloatFormat`. Angles stay in degrees; the conversion to a yaw in radians is not modelled.
- **Native client.** `native_exec_command` is the parameter `exec` of `Commands.Invoke`. Each valid request is described by a `NativeCall` value: host, password, command text and whether a reply is expected.

### Behaviour as written

The model keeps the following behaviour of the code:

- After a read that ends in a terminator, the old remainder is **kept**, not cleared (`Framer.RemainderKeptAfterLine`). It is glued onto the next line.
- Of several complete lines in one read, only the **last** one is parsed, after `strip()`.
- The leading text is discarded up to the **last** `{`, not the first one.
- The field right after the `{` is always dropped. The payload is the text between a field's first and second `:`.
- One failing field fails the whole record. The sequence number only counts successful parses.
- `re.match` with `$` accepts one trailing newline, so `"A123\n"` passes the cell check (`Commands.CellExamples`). A text ending in a newline passes the string check.

Three consequences of this behaviour are worth spelling out:

- **A record whose body ends in `;}`.** In `prefix{OBJ1:10.0,20.0,90.0,95.0°;OBJ2:#ERR;}` the field `OBJ1` is the one that is always dropped, `OBJ2:#ERR` is skipped, and the final field is a bare `}`. That field has no `:`, so indexing `general[1]` at line 109 raises: nothing is published and the counter stays put (`Scenarios.ClosingBraceRecordFails`).
- **A record split across reads.** When `{A:1,2,3;` arrives first and `}\r\n` second, the completed line again ends in the bare `}` field and fails in the same way (`Scenarios.SplitRecordFails`). The first half also stays in the remainder after the line completes (`Framer.RemainderKeptAfterLine`).
- **A closed peer with nothing buffered.** A zero-length read sets `connected` to false at line 174, but the code still goes on to frame the empty buffer: `splitlines` returns an empty list, and indexing its last element at line 199 raises outside every `try`. The worker ends and does not reconnect (`Bridge.ClosedPeerEndsWorker`); the model records this as `Err(WorkerDied(NothingBuffered))`. A failed read (lines 180-189) only disconnects, and the next pass reconnects and clears the remainder.

## Model

| member | source | states |
|---|---|---|
| Tokenizer.MultiSplit | src/cognex_robotraconteur_driver/cognex_robotraconteur_driver.py:36-42 | `multisplit` yields one more piece than there are delimiter characters, and no piece contains a delimiter |
| Tokenizer.MultiSplitWeave | src/cognex_robotraconteur_driver/cognex_robotraconteur_driver.py:36-42 | putting the delimiters back between the pieces gives the input again |
| Tokenizer.MultiSplitUnique | src/cognex_robotraconteur_driver/cognex_robotraconteur_driver.py:36-42 | any delimiter-free pieces that weave back to the input with its delimiters are exactly the pieces `multisplit` yields |
| Tokenizer.MultiSplitAtDelim | src/cognex_robotraconteur_driver/cognex_robotraconteur_driver.py:38-41 | a delimiter in the middle splits the result into the pieces of the text before it followed by the pieces of the text after it |
| Tokenizer.MultiSplitFree | src/cognex_robotraconteur_driver/cognex_robotraconteur_driver.py:42 | text without a delimiter is yielded whole, as the single last piece |
| Tokenizer.MultiSplitScan | src/cognex_robotraconteur_driver/cognex_robotraconteur_driver.py:36-42 | the generator's position-tracking loop yields the same pieces as the functional definition |
| Tokenizer.NonEmpty | src/cognex_robotraconteur_driver/cognex_robotraconteur_driver.py:111 | `filter(None, …)` keeps no more tokens than it was given, each non-empty and one of the given ones, and together they spell the same text; a single token is kept exactly when it is non-empty |
| Tokenizer.NonEmptyAppend | src/cognex_robotraconteur_driver/cognex_robotraconteur_driver.py:111 | filtering the concatenation of two token lists is filtering each and concatenating, so the result is every non-empty token, in order |
| Tokenizer.NonEmptyKeeps | src/cognex_robotraconteur_driver/cognex_robotraconteur_driver.py:111-123 | a non-empty token at position `i` lands in the result right after the kept tokens before it, which is the position x, y, angle and confidence are read from |
| Strings.Strip | src/cognex_robotraconteur_driver/cognex_robotraconteur_driver.py:206 | `strip()` returns a contiguous slice with whitespace only outside it and non-whitespace at both of its ends |
| Strings.StripIdempotent | src/cognex_robotraconteur_driver/cognex_robotraconteur_driver.py:206 | stripping twice is stripping once |
| Lines.SplitLines | src/cognex_robotraconteur_driver/cognex_robotraconteur_driver.py:197 | `splitlines(keepends=True)` gives no line for empty text, and never an empty line |
| Lines.SplitLinesConcat | src/cognex_robotraconteur_driver/cognex_robotraconteur_driver.py:197 | the lines concatenate back to the text |
| Lines.SplitLinesAppend | src/cognex_robotraconteur_driver/cognex_robotraconteur_driver.py:197 | appending a line that cannot merge with the text before it appends exactly that line |
| Lines.SplitLinesTail | src/cognex_robotraconteur_driver/cognex_robotraconteur_driver.py:197-206 | the last line is the unterminated fragment when there is one, and otherwise the last complete line; the line before a fragment is the last complete line |
| Framer.StripCompleteLine | src/cognex_robotraconteur_driver/cognex_robotraconteur_driver.py:206 | a stripped complete line holds no terminator |
| Framer.LinesOfBuffer | src/cognex_robotraconteur_driver/cognex_robotraconteur_driver.py:197-204 | the last line of a non-empty buffer ends in a terminator exactly when nothing is left unterminated; the last complete line is the last line or the one before the fragment |
| Framer.FrameStep | src/cognex_robotraconteur_driver/cognex_robotraconteur_driver.py:196-206 | the framing step raises exactly when remainder and chunk are both empty. Only an unterminated fragment replaces the remainder. A record is forwarded exactly when the buffer holds a terminator, and it is the stripped last complete line |
| Framer.RemainderKeptAfterLine | src/cognex_robotraconteur_driver/cognex_robotraconteur_driver.py:196-206 | completing a buffered partial line with `\n`, `\r` or `\r\n` forwards the remainder and the new text together, stripped, and leaves the old remainder in place |
| Parser.ParseObject | src/cognex_robotraconteur_driver/cognex_robotraconteur_driver.py:111-133 | an object is built exactly when there are at least three tokens and the first three (four when present) are numbers. x and y are millimetres over 1000, the angle is kept in degrees, and confidence is the fourth token over 100 or 1.0 |
| Parser.ParseField | src/cognex_robotraconteur_driver/cognex_robotraconteur_driver.py:107-126 | a field without ':' raises, and a payload holding `#ERR` is skipped. Any other field succeeds exactly when its tokens are numeric, and it then yields the object those tokens describe |
| Parser.ParseFieldsOk | src/cognex_robotraconteur_driver/cognex_robotraconteur_driver.py:106-126 | the loop over fields, with any field parser, succeeds exactly when every field parses |
| Parser.ParseFieldsKept | src/cognex_robotraconteur_driver/cognex_robotraconteur_driver.py:106-126 | on success, the objects are those of the fields that were not skipped, one each and in field order |
| Parser.ParseFieldsFirstError | src/cognex_robotraconteur_driver/cognex_robotraconteur_driver.py:106-126 | on failure, the error is that of the first failing field, and every earlier field parses |
| Parser.FlatMap | src/cognex_robotraconteur_driver/cognex_robotraconteur_driver.py:128-135 | corrected flat map: its keys are exactly the names of the objects |
| Parser.FlatMapLast | src/cognex_robotraconteur_driver/cognex_robotraconteur_driver.py:128-135 | corrected flat map: a name holds the object at position i whenever no later object has that name, i.e. the last object of that name |
| Parser.AliasedFlatMap | src/cognex_robotraconteur_driver/cognex_robotraconteur_driver.py:129-135 | flat map as written: the same keys, but every key holds the one shared structure, so every value is the last object's |
| Parser.AliasedAgreesOnLast | src/cognex_robotraconteur_driver/cognex_robotraconteur_driver.py:129-135 | the aliased and corrected maps agree on the last object's name |
| Parser.AliasingLosesEarlierEntry | src/cognex_robotraconteur_driver/cognex_robotraconteur_driver.py:129-135 | with two differently named objects, the aliased map gives the first name the second object's entry, which differs from the corrected entry |
| Parser.ParseRecordKept | src/cognex_robotraconteur_driver/cognex_robotraconteur_driver.py:97-135 | a record parses exactly when every field does. Its objects are those of the kept fields, none of which carries `#ERR`, and the map's keys are their names |
| Parser.HasPayloadIffColon | src/cognex_robotraconteur_driver/cognex_robotraconteur_driver.py:107-109 | `general[1]` exists exactly when the field contains ':' |
| Parser.FieldParts | src/cognex_robotraconteur_driver/cognex_robotraconteur_driver.py:107-109 | in `name:payload` followed by nothing or by more ':'-text, the name and the payload are recovered |
| Parser.FieldsAfterHeader | src/cognex_robotraconteur_driver/cognex_robotraconteur_driver.py:102-104 | the fields are the `;`-pieces after the last `{`, with the first piece dropped |
| Parser.LeadingTextIgnored | src/cognex_robotraconteur_driver/cognex_robotraconteur_driver.py:102 | text before the last `{` does not affect the parse |
| Bridge.ParseSensorString | src/cognex_robotraconteur_driver/cognex_robotraconteur_driver.py:137-145 | a successful parse stamps the batch with the current counter and returns the counter plus one, with the objects and map of the record |
| Bridge.Step | src/cognex_robotraconteur_driver/cognex_robotraconteur_driver.py:153-219 | a connection attempt clears the remainder; a failed read only disconnects; a connect while connected and a read while disconnected change nothing. The worker ends exactly on an empty buffer. The counter advances by one exactly on a successful parse, which also replaces the published batch; nothing else changes it |
| Bridge.StepInv | src/cognex_robotraconteur_driver/cognex_robotraconteur_driver.py:196-211 | every step keeps the remainder terminator-free and the published batch numbered one below the counter |
| Bridge.RunInv | src/cognex_robotraconteur_driver/cognex_robotraconteur_driver.py:153-219 | along any run, including reconnects, the invariant holds and the counter never decreases |
| Bridge.CaptureBeforePublish | src/cognex_robotraconteur_driver/cognex_robotraconteur_driver.py:227-233 | before the first successful parse, a reader gets an empty list rather than nothing |
| Bridge.RemainderClearedOnlyOnConnect | src/cognex_robotraconteur_driver/cognex_robotraconteur_driver.py:155-201 | a non-empty remainder is emptied only by a connection attempt |
| Bridge.ClosedPeerEndsWorker | src/cognex_robotraconteur_driver/cognex_robotraconteur_driver.py:172-199 | a zero-length read right after connecting ends the worker |
| Decimal.NatToText | src/cognex_robotraconteur_driver/cognex_robotraconteur_driver.py:243 | `str()` of a natural number is a canonical numeral: non-empty digits, with a leading zero only for `0` itself |
| Decimal.IntToText | src/cognex_robotraconteur_driver/cognex_robotraconteur_driver.py:243 | `str()` of an integer is non-empty and starts with `-` exactly when the integer is negative; with `Decimal.IntTextRoundTrip` its value is the integer |
| Decimal.IntTextRoundTrip | src/cognex_robotraconteur_driver/cognex_robotraconteur_driver.py:243 | reading back `str(i)` gives `i` |
| Decimal.IntTextInjective | src/cognex_robotraconteur_driver/cognex_robotraconteur_driver.py:243 | different integers are written differently |
| Decimal.ParsedTextIsCanonical | src/cognex_robotraconteur_driver/cognex_robotraconteur_driver.py:243 | any text the numeral reading accepts is exactly `str()` of the value read, so `08` or `-0` is never taken for a number |
| Decimal.NonCanonicalRefused | src/cognex_robotraconteur_driver/cognex_robotraconteur_driver.py:243 | `08`, `-0`, the empty text and a bare `-` are not numerals `str()` writes, and are refused |
| Commands.MatchCellIff | src/cognex_robotraconteur_driver/cognex_robotraconteur_driver.py:236 | `re.match(r'^[A-Z][0-9]{3}$', s)` holds exactly for a cell name, optionally followed by one newline |
| Commands.MatchTextIff | src/cognex_robotraconteur_driver/cognex_robotraconteur_driver.py:253 | the greedy match of `^[\x20-\x7E]+$` holds exactly for non-empty printable ASCII, optionally followed by one newline |
| Commands.PrintableRun | src/cognex_robotraconteur_driver/cognex_robotraconteur_driver.py:253 | the greedy `+` consumes the longest printable prefix and stops at the first other character |
| Commands.CommandFor | src/cognex_robotraconteur_driver/cognex_robotraconteur_driver.py:235-265 | a request is refused exactly when invalid, with the cell checked before the string and the event bounded to 0..8. The command goes to the configured host with its password, and only a cell read expects a reply |
| Commands.Invoke | src/cognex_robotraconteur_driver/cognex_robotraconteur_driver.py:235-265 | a facade call fails with the validation error exactly when the request is invalid, and otherwise returns the native client's answer to exactly the call `CommandFor` builds |
| Commands.NoNativeCallWhenInvalid | src/cognex_robotraconteur_driver/cognex_robotraconteur_driver.py:235-265 | an invalid request raises without consulting the native client |
| Commands.AcquisitionIsEvent8 | src/cognex_robotraconteur_driver/cognex_robotraconteur_driver.py:259-265 | triggering an acquisition sends the same command as event 8 |
| Commands.CommandRoundTrip | src/cognex_robotraconteur_driver/cognex_robotraconteur_driver.py:235-265 | the command text of every valid request decodes back to the request's opcode, cell and value |
| Commands.DecodedNumberIsCanonical | src/cognex_robotraconteur_driver/cognex_robotraconteur_driver.py:240-265 | a command text that reads back as an event or an integer write is exactly the opcode, the cell and `str()` of the number, so with the round trip the `SI` and `SW` texts are fixed |
| Commands.CommandsDistinct | src/cognex_robotraconteur_driver/cognex_robotraconteur_driver.py:235-265 | two valid requests that send the same text ask for the same thing |
| Commands.CellExamples | src/cognex_robotraconteur_driver/cognex_robotraconteur_driver.py:236 | `A123` and `A123\n` are accepted; `a123`, `A12`, `1234`, `A1234` and `A123\n\n` are refused |
| Commands.AcceptedTexts | src/cognex_robotraconteur_driver/cognex_robotraconteur_driver.py:253 | printable text is accepted, with or without one trailing newline |
| Commands.RefusedTexts | src/cognex_robotraconteur_driver/cognex_robotraconteur_driver.py:253 | the empty text, a lone newline, a tab and a non-ASCII letter are refused |
| Commands.EventBounds | src/cognex_robotraconteur_driver/cognex_robotraconteur_driver.py:262-265 | events 0 and 8 are accepted; 9 and -1 raise the event error |
| Scenarios.ErrFieldSkipped | src/cognex_robotraconteur_driver/cognex_robotraconteur_driver.py:109 | an `#ERR` field is skipped without error |
| Scenarios.BraceFieldFails | src/cognex_robotraconteur_driver/cognex_robotraconteur_driver.py:107-109 | a bare `}` field raises for its missing ':' |
| Scenarios.SplitRecordFails | src/cognex_robotraconteur_driver/cognex_robotraconteur_driver.py:102-109 | the line `{A:1,2,3;}` completed from two reads, and any like it, raises on its bare `}` field |
| Scenarios.ClosingBraceRecordFails | src/cognex_robotraconteur_driver/cognex_robotraconteur_driver.py:102-109 | any record ending in `;OBJ2:#ERR;}` fails to parse, whatever its first field holds |

## Left out

- Sockets, `select`, the connection backoff and the `_running` flag are left out. They are I/O and timing, and they become the `Connect`, `Receive` and `ReadFailed` events of `Bridge.Step`.
- Threads, the `RLock`, `start`, `close` and `deepcopy` are left out. The model is sequential, and the published batch is an immutable value.
- The Robot Raconteur structures are left out: poses, covariance, identifiers, the sensor-data header and the wire and pipe output. The parse keeps their numeric content; the timestamp and device info are external.
- `np.deg2rad` is left out. Angles stay in degrees.
- `float()` and `{value:.4f}` are left out as abstract parameters. Python's float semantics, including `inf` and `nan` text, is not modelled.
- `str()` of a cell value is modelled only for integers. The source accepts any Python value there.
- `int(event)` in `cognex_trigger_event` is left out. The event is already an integer in the model.
- `.decode('utf-8')` is left out: of received bytes in the reader loop, and of the reply in `cognex_get_cell`. Text is a sequence of characters throughout.
- `cognex_capture_image`, `native_read_image`, OpenCV decoding and `main` are left out. They are external calls and the image codec.
- `splitlines` breaks only at `\n`, `\r` and `\r\n` in the model. Python also breaks at `\v`, `\f`, `\x1c`–`\x1e`, `\x85`, U+2028 and U+2029.
- The parser's exceptions are caught and printed in the source. In the model they are a `ParseError` that leaves the state unchanged apart from the framing.
- Parser.ParseRecord: the parse of `parse_sensor_string` has no contract of its own. Its behaviour is stated by `Parser.ParseRecordKept`, `Parser.FlatMap`, `Parser.FlatMapLast`, `Parser.LeadingTextIgnored` and `Bridge.ParseSensorString`.
- Tokenizer.Split: `str.split` with one separator has no contract of its own. It is `Tokenizer.MultiSplit` with that one delimiter, and `Parser.FieldsAfterHeader` and `Parser.FieldParts` state what it yields on records and fields.
- Commands.MatchCell: the `re.match` emulation of the cell pattern has no contract of its own. `Commands.MatchCellIff` states that it accepts exactly the cell names, optionally followed by one newline.
- Commands.MatchText: the `re.match` emulation of the printable-text pattern has no contract of its own. `Commands.MatchTextIff` states that it accepts exactly non-empty printable ASCII, optionally followed by one newline.
- Bridge.Capture: `capture_recognized_objects` has no contract of its own. It is read through `Bridge.CaptureBeforePublish` and the publishing clauses of `Bridge.Step`.

## Findings

| source | as written | input that shows it | evidently intended | confidence | as-written member | corrected member |
|---|---|---|---|---|---|---|
| src/cognex_robotraconteur_driver/cognex_robotraconteur_driver.py:129-135 | every entry of the flat map is the one structure created in the constructor, mutated per object, so all names end up showing the last object's position | record `x{h;A:1,2,3;B:4,5,6` gives `A` the name and position of `B` | a fresh value per detected object, keyed by its name | not executed | Parser.AliasedFlatMap, Parser.AliasingLosesEarlierEntry | Parser.FlatMap, Parser.FlatMapLast |
