# swank-client protocol engine in Dafny

This project models the protocol engine of the swank-client JavaScript library,
a client for the Swank protocol (SLIME's remote evaluation and debugging protocol
for Common Lisp). It proves properties of the model with Dafny. The model covers:

- **Framing.** `send_message` writes a six-digit lower-case hexadecimal byte count
  in front of each message (`Framing`). The reassembly reader fills a fixed-size
  buffer in place and switches between awaiting a header and awaiting a body.
  It is the class `FrameReader.Reader`, proved equal to the pure state machine
  `Framing.Run`.
- **Request correlation.** `rex` sends `(:EMACS-REX cmd "pkg" thread id)` under
  an increasing counter and records the request. A `:return` resolves the
  request its id names, whatever order the replies come in.
- **Dispatch.** `on_swank_message` routes the other unsolicited events to the
  handler slots filled with `on`, and answers `:ping`.
- **Decoders.** Pure functions read the debugger, backtrace, frame-detail,
  frame-source, find-definitions and compilation replies. Where the JavaScript
  code throws, they give None.
- **Lisp codec.** `to_lisp_string`, `from_lisp_string`, `to_lisp_bool` and
  `from_lisp_bool`.

The client object is `SwankClient.Client`. Each of its methods is proved against
a pure function on the abstract state `SwankClient.ClientState`. The lemmas about
those functions state the protocol's promises:

- the invariant `Inv` is kept;
- every reply resolves only the request it names, and at most once;
- replies may arrive out of order;
- replies to unknown or already resolved ids change nothing.

Parsing is external (`paredit.parse`). Its output is the datatype `Sexp.Node`,
and an atom keeps its raw source text. A JavaScript exception is modelled as
None. `undefined` is None inside an `Option` that is stored, and
concatenating it gives the text "undefined" (`Sexp.Show`).

The model follows what the code does, also where the code departs from the
protocol's evident intent:

- In a `:zip` location the entry is read from the same element as the file
  (lib/client.js:485-486), so `zipEntry` is always `zipFile`.
- The position tag is compared with `source_path` (underscore, line 505), while
  Swank sends `:source-path`. Such a position gets no detail.
- `.type.toLowerCase == 'list'` compares a function with a string (lines 506
  and 516), so the path list and the specializers are always empty.
- A `:line` position applies `Number` to the node rather than to its source
  (lines 499 and 501), which gives NaN.
- `debug_return_from_frame` reads its reply with `from_lisp_string`, so only a
  reply whose text between the first and last character is `NIL` counts as
  success. A bare symbol `NIL` is an error with message "I".

## Model

| member | source | states |
|---|---|---|
| JsText.Lower | lib/client.js:146 | `toLowerCase` maps every character by `LowerChar` and keeps the length |
| JsText.Upper | lib/client.js:671-672 | `toUpperCase` maps every character by `UpperChar` and keeps the length |
| JsText.UpperNilIffLowerNil | lib/client.js:671-672 | comparing `toUpperCase()` with "NIL" is the same test as comparing `toLowerCase()` with "nil" |
| JsText.LowerNoCapitals | lib/client.js:146 | lower-casing text without capitals leaves it unchanged |
| JsText.CaseFoldAgree | lib/client.js:146 | two characters agree after lower-casing exactly when they agree after upper-casing |
| JsText.DropFirst | lib/client.js:474 | `slice(1)` removes exactly the first character; empty stays empty |
| JsText.DropEnds | lib/utils.js:4 | `slice(1, -1)` removes exactly the first and last character; shorter than two gives "" |
| JsText.Substring | lib/client.js:257 | `substring` gives at most the whole string, and `s[a..b]` for in-range ordered bounds |
| JsText.Decimal | lib/client.js:192 | `String(id)` is the shortest decimal digit string whose value is id |
| JsText.ParseId | lib/client.js:213 | a property name is found in `req_table` only if it is a canonical decimal |
| JsText.CanonicalIsDecimal | lib/client.js:213 | a canonical digit string is `String` of its own value |
| JsText.ParseIdExact | lib/client.js:192-215 | a reply id names request n exactly when it is spelled `String(n)` |
| JsText.Add | lib/client.js:496-497 | numeric `+`: NaN if either side is NaN, else the sum |
| JsText.ToNumber | lib/client.js:408-409 | `Number(s)` of a canonical digit string is its value |
| JsText.ToNumberOpt | lib/client.js:409 | `Number(undefined)` is NaN |
| JsText.DigitRun | lib/client.js:647 | the leading run of digits, and the character after it is not a digit |
| JsText.ParseInt | lib/client.js:647 | `parseInt` of a canonical digit string is its value |
| Sexp.Children | lib/client.js:255 | `children` exists exactly on lists |
| Sexp.Child | lib/client.js:145 | `children[i]` can be used exactly when the node is a list with more than i children |
| Sexp.Source | lib/client.js:146 | `source` exists exactly on atoms |
| Sexp.AtomAt | lib/client.js:146 | `children[i].source` usable as a string exactly when child i exists and is an atom, and it is that atom's text |
| Sexp.SourceAt | lib/client.js:152 | `children[i].source` stored: child i must exist, its source may be undefined |
| Sexp.Show | lib/client.js:227 | concatenating a defined value gives its text |
| Sexp.MapAll | lib/client.js:318-324 | `forEach` pushing a decoding that may throw: a result exactly when every element decodes, of the same length, element i the decoding of element i |
| Sexp.MapAllInverse | lib/client.js:318-324 | elements that decode to given values give exactly those values |
| LispCodec.ReplaceAll | lib/utils.js:11 | a global replace leaves text without the character unchanged |
| LispCodec.ReplaceAllAppend | lib/utils.js:11 | a global replace distributes over concatenation |
| LispCodec.ToLispString | lib/utils.js:9-12 | the literal starts and ends with a double quote |
| LispCodec.TwoPassIsEscape | lib/utils.js:11 | doubling backslashes, then escaping quotes, is the one-pass escape of each character |
| LispCodec.Unescape | lib/utils.js:5 | resolving escapes never lengthens the text |
| LispCodec.FromLispString | lib/utils.js:3-6 | the result is at most the raw text minus its two ends; shorter raw text gives "" |
| LispCodec.EscapeFacts | lib/utils.js:9-12 | the escape is well formed, one character longer per quote or backslash, and unescapes back |
| LispCodec.TokenizedIsEscape | lib/utils.js:3-6 | every well-formed literal body is the escape of its unescaping |
| LispCodec.TokenizedQuotesEscaped | lib/utils.js:9-12 | in a well-formed body every quote follows a backslash |
| LispCodec.ToLispStringShape | lib/utils.js:9-12 | the literal is a quote, the escaped body, a quote |
| LispCodec.UnescapePlainPrefix | lib/utils.js:5 | text without backslashes passes through unescaping unchanged, whatever follows it |
| LispCodec.UnescapeQuote | lib/utils.js:5 | an escaped quote reads back as a quote |
| LispCodec.UnquoteReplResult | lib/utils.js:3-6 | the literal `"(2 \"4\")"` reads back as `(2 "4")` |
| LispCodec.UnquoteNewline | lib/utils.js:3-6 | a quoted newline reads back as the newline |
| LispCodec.LispStringRoundTrip | lib/utils.js:3-12 | `from_lisp_string(to_lisp_string(s)) == s` |
| LispCodec.UnescapeKeepsOtherPairs | lib/utils.js:5 | a backslash before any other character stays |
| LispCodec.UnescapePlain | lib/utils.js:5 | text without backslashes is unchanged by unescaping |
| LispCodec.FromLispBool | lib/utils.js:15-17 | anything but a symbol reads as true |
| LispCodec.ToLispBool | lib/utils.js:20-22 | `T`/`NIL` read back by `from_lisp_bool` as the same boolean, and are upper case |
| LispCodec.FromLispBoolFalseExactlyNil | lib/utils.js:15-17 | false exactly for a symbol spelled nil in any of its eight casings |
| Framing.EncodeChar | lib/client.js:55 | one to four bytes per character, exactly one for ASCII |
| Framing.ByteLengthAtLeastLength | lib/client.js:55 | `Buffer.byteLength(msg)` is at least the number of characters, and equal exactly for ASCII text |
| Framing.Utf8 | lib/client.js:55 | the bytes `Buffer.byteLength` counts: stated by `ByteLengthAtLeastLength` (at least one byte per character, equal exactly for ASCII) |
| Framing.HexDigits | lib/client.js:55 | `toString(16)`: one or more lower-case hexadecimal digits |
| Framing.HexRun | lib/client.js:120 | the leading run `parseInt(data, 16)` reads is all hexadecimal and maximal: it is the whole text when the text is all hexadecimal, and otherwise stops at a character that is not |
| Framing.HexValueOfDigits | lib/client.js:55-120 | reading `toString(16)` back gives the number |
| Framing.HexValue | lib/client.js:120 | `parseInt(_, 16)` on a run of hexadecimal digits: stated by `HexValueOfDigits` (it reads `toString(16)` back) and `HexValueZerosPrefix` |
| Framing.HexValueZerosPrefix | lib/client.js:56 | leading zero padding does not change the value |
| Framing.Header | lib/client.js:55-56 | below 16^6 the header is six lower-case digits that parse back as the length; a seven-digit count is written as its bare digits, whose first six read as the length divided by 16; longer throws |
| Framing.Frame | lib/client.js:54-65 | a payload below 16^6 bytes is written as its header followed by itself |
| Framing.ParseHeader | lib/client.js:120 | `parseInt(header, 16)` is a number exactly when the header starts with a hexadecimal digit; its value is stated by `Framing.Header` and `Framing.FrameLayout` |
| Framing.FrameLayout | lib/client.js:54-65 | the first six bytes are hex digits parsing to the payload length, the rest is the payload |
| Framing.Run | lib/client.js:97-122 | the reassembly machine keeps the accumulated bytes within the awaited size |
| Framing.Continue | lib/client.js:104-136 | completing a buffer leaves the accumulated bytes within the awaited size |
| Framing.StuckStays | lib/client.js:118-122 | after a header that does not parse, further input changes nothing |
| Framing.RunAppend | lib/client.js:97-110 | feeding a then b is feeding a + b |
| Framing.ContinueAppend | lib/client.js:104-122 | after a completed buffer, feeding a then b is feeding a + b |
| Framing.ChunkingIrrelevant | lib/client.js:97-110 | any split of the input into socket reads gives the same bodies and state |
| Framing.OneFrame | lib/client.js:54-136 | one frame read by a fresh reader gives its payload and a reader awaiting a header |
| Framing.WireRoundTrip | lib/client.js:54-136 | the frames of non-empty payloads read back as exactly those payloads, in order |
| Framing.ChunkedRoundTrip | lib/client.js:54-136 | the same, however the bytes are split into reads |
| Framing.PartialDeliveryEmitsPrefix | lib/client.js:97-110 | a prefix of the wire hands on a prefix of the payloads, never a partial body |
| Framing.ZeroLengthBodyDeferred | lib/client.js:97-107 | an empty body is handed on only when a later read brings a byte |
| FrameReader.Reader.constructor | lib/client.js:29-30 | a reader awaiting a six-byte header with nothing received |
| FrameReader.Reader.SetupRead | lib/client.js:112-116 | a fresh buffer of the length, all missing, with the given continuation |
| FrameReader.Reader.CopyIn | lib/client.js:99-103 | copying appends the source bytes to the received part and reduces the missing count |
| FrameReader.Reader.Complete | lib/client.js:104-136 | a full buffer is completed as `Continue` prescribes |
| FrameReader.Reader.Step | lib/client.js:100-107 | one loop iteration advances as `Run` prescribes |
| FrameReader.Reader.Feed | lib/client.js:97-110 | the bodies handed on, the new state and the failure flag are those of `Run` |
| Debugger.DecodeFrame | lib/client.js:325-335 | a frame decodes exactly when it is a list of two or more with an atom description (and a flag atom when there are three); number, description, and not restartable under three elements |
| Debugger.RestartableIsLispBool | lib/client.js:326-330 | the restartable flag is `from_lisp_bool` of the flag |
| Debugger.FrameRoundTrip | lib/client.js:325-335 | a frame sent by Swank reads back as itself |
| Debugger.FramesRoundTrip | lib/client.js:384-402 | a numbered backtrace sent by Swank reads back, frame by frame, as itself |
| Debugger.DecodeStackTrace | lib/client.js:384-402 | the backtrace decodes exactly when it is a list whose every frame decodes; record i is `DecodeFrame` of frame i |
| Debugger.StackTraceRoundTrip | lib/client.js:384-402 | a backtrace sent as a list of frames reads back as those frames |
| Debugger.DecodeRestart | lib/client.js:318-322 | a restart decodes exactly when both elements are atoms, to their unquoted texts |
| Debugger.DecodeDebugSetup | lib/client.js:311-339 | a `:debug` event has six or more elements with list restarts and frames; thread and level kept; one restart and frame per element |
| Debugger.DecodeDebugSetupOf | lib/client.js:311-339 | a `:debug` event with a condition of two lisp strings and decodable restarts and frames reads back with that title, type, restarts and frames |
| Debugger.RestartsRoundTrip | lib/client.js:318-322 | restarts sent by Swank read back as themselves |
| Debugger.DebugSetupRoundTrip | lib/client.js:311-339 | a `:debug` event sent for a session reads back as that session |
| Debugger.DecodeLocal | lib/client.js:418-424 | a local decodes exactly when it is a list of six or more elements whose element 1 is an atom, to the unquoted name and the sources of elements 3 and 5 |
| Debugger.DecodeCatchTag | lib/client.js:430-432 | a catch tag decodes exactly when it is an atom |
| Debugger.ListOrEmpty | lib/client.js:417-435 | a non-list gives [], a list must decode element-wise |
| Debugger.DecodeFrameDetails | lib/client.js:416-437 | locals are set exactly when element 0 exists and decodes; catch tags exactly when locals are set and element 1 exists and decodes; a list element gives its decoded entries and any other element `[]` |
| Debugger.FrameDetailsOfAtoms | lib/client.js:416-435 | two elements that are not lists (Swank's `nil`) give empty locals and empty catch tags |
| Debugger.LocalsRoundTrip | lib/client.js:417-424 | locals sent as a list of property lists read back as themselves |
| Debugger.CatchTagsRoundTrip | lib/client.js:429-432 | catch tags sent as a list of string literals read back as themselves |
| Debugger.FrameDetailsRoundTrip | lib/client.js:416-437 | locals and catch tags sent as lists read back as themselves |
| Debugger.FindFrame | lib/client.js:408-410 | `find`: the first frame whose `Number` is the same number as the index; None when there is none |
| Debugger.SameNumber | lib/client.js:409 | the `==` of the frame number and the index after `Number(...)`: stated by `FindFrame` and `FindFrameByDecimal` |
| Debugger.FindFrameByDecimal | lib/client.js:408-410 | a frame numbered `String(k)` is found by the index `String(k)` |
| Debugger.AbortCommand | lib/client.js:372-380 | THROW-TO-TOPLEVEL exactly when the level is loosely equal to 1, else SLDB-ABORT |
| Debugger.AbortTopLevelExactlyOne | lib/client.js:374 | for a level `String(k)`, the top level is exactly k = 1 |
| Debugger.DecodeReturnFromFrame | lib/client.js:454-459 | malformed exactly when the reply has no source; success exactly when it reads "NIL" |
| Debugger.ReturnFromFrameReply | lib/client.js:453-459 | a string reply "NIL" is success, any other becomes the error message |
| Debugger.ReturnFromFrameSymbolNil | lib/client.js:455 | a bare symbol NIL is refused with message "I" |
| FrameSource.Tag | lib/client.js:474 | a tag (the head without its first character, lower-cased) exists exactly when the element is an atom |
| FrameSource.DecodeBuffer | lib/client.js:474-487 | the buffer detail matches its tag, and a zip entry is the zip file; a known tag succeeds exactly when its elements (1, or 1 and 2 for `buffer-and-file`) are atoms, an unknown tag gives no detail; the values are stated by `FileBuffer`, `BufferReply`, `BufferAndFileBuffer`, `SourceFormReply` and `ZipReply` |
| FrameSource.Sources | lib/client.js:523-525 | the qualifiers are the sources of the elements, one per element |
| FrameSource.DecodePosition | lib/client.js:489-527 | the position detail matches its type; `offset` is renamed `position`; a line is NaN; path list and specializers are empty; `position` and `function-name` succeed exactly with two or more elements, `offset`, `source_path` and `method` with three or more, any other type always; the values are stated by `PositionOffset`, `OffsetReply`, `FunctionNameReply`, `SourcePathStartReply` and `MethodReply` |
| FrameSource.DecodeLocation | lib/client.js:463-530 | the location is well typed; an error exactly for an `:error` head; zip entry = file; no specializers; no detail for `source-path` |
| FrameSource.DecodeLocationOf | lib/client.js:463-530 | a `:location` reply with a decodable buffer and position reads back as that buffer and position |
| FrameSource.DecodeFound | lib/client.js:473-528 | a found location is well typed and has a position type; the zip entry is the zip file; a method position has no specializers; a `source-path` position has no detail; the readings per tag are stated by `DecodeBuffer`, `DecodePosition`, `FilePositionReply`, `BufferAndFileReply`, `BufferReply`, `SourceFormReply`, `ZipReply`, `OffsetReply`, `FunctionNameReply`, `SourcePathStartReply`, `MethodReply` and `SourcePathReply` |
| FrameSource.DecodeFoundOf | lib/client.js:473-528 | a found location with a decodable buffer and position reads back as that buffer and position |
| FrameSource.KeywordTag | lib/client.js:474 | a lower-case keyword's tag is its name |
| FrameSource.ErrorReply | lib/client.js:469-471 | an `(:error "text")` reply gives the error text and nothing else |
| FrameSource.FilePositionReply | lib/client.js:474-493 | a file and a position, tags in any letter case, read back as that file and offset |
| FrameSource.FileBuffer | lib/client.js:475-476 | a `:file` element, tag in any letter case, gives the unquoted file |
| FrameSource.BufferAndFileBuffer | lib/client.js:479-481 | a `:buffer-and-file` element gives the unquoted buffer name and file |
| FrameSource.PositionOffset | lib/client.js:491-493 | a `:position n` element gives the offset n |
| FrameSource.BufferAndFileReply | lib/client.js:479-481 | a buffer-and-file, tag in any letter case, sets both the buffer name and the file |
| FrameSource.OffsetReply | lib/client.js:494-497 | an offset becomes a position at the sum |
| FrameSource.BufferReply | lib/client.js:477-478 | a `:buffer` element, tag in any letter case, gives the unquoted buffer name |
| FrameSource.SourceFormReply | lib/client.js:482-483 | a `:source-form` element, tag in any letter case, gives the unquoted form |
| FrameSource.ZipReply | lib/client.js:484-486 | the zip entry is lost and the file is reported twice |
| FrameSource.FunctionNameReply | lib/client.js:503-504 | the function name is element 1's text as written, undefined for a list |
| FrameSource.SourcePathStartReply | lib/client.js:505-512 | a `source_path` position gives an empty path list and element 2's text as its start |
| FrameSource.MethodReply | lib/client.js:514-526 | a `method` position gives the name's text, no specializers, and the qualifiers' texts in order |
| FrameSource.SourcePathReply | lib/client.js:505 | the `source-path` tag Swank sends matches no branch |
| Commands.FirstContaining | lib/client.js:255-262 | the least index of a form whose inclusive span contains the cursor, or None when none does |
| Commands.QuotedForm | lib/client.js:257 | a form's text in double quotes |
| Commands.QuotedForms | lib/client.js:255-257 | one quoted text per form, in order |
| Commands.MarkerOnceAtEnd | lib/client.js:249-271 | the cursor marker is the last element and occurs nowhere else |
| Commands.MarkerPlacement | lib/client.js:255-267 | the marker follows the first form containing the cursor and later forms are dropped; otherwise all forms, then `""` |
| Commands.BuildAutodoc | lib/client.js:249-276 | the request built by the loop is `AutodocRequest(AutodocForms(...))`, and none when there is no form list |
| Commands.AutodocForms | lib/client.js:255-268 | stated by `MarkerOnceAtEnd` and `MarkerPlacement`: the quoted forms up to the first one holding the cursor, then the marker; with no such form, all forms, `""` and the marker |
| Commands.AutodocRequest | lib/client.js:269-271 | the forms joined by spaces inside `(SWANK:AUTODOC '(...) :PRINT-RIGHT-MARGIN 80)`; stated together with `AutodocForms` by `BuildAutodoc` |
| Commands.Join | lib/client.js:270 | `forms.join(' ')`: stated together with `AutodocForms` by `BuildAutodoc` |
| Commands.FirstContainingExtend | lib/client.js:258-262 | scanning one more form finds it exactly when it contains the cursor |
| Commands.AutodocReply | lib/client.js:278-286 | the first element of the reply, or `:not-available` when it is missing or not a list |
| Commands.DecodeDefinition | lib/client.js:636-648 | a decoded entry carries the unquoted label, `parseInt` of element 1.2.1 as its index, and a filename chosen by the lower-cased location tag: element 1 of a `:file` location, element 2 of a `:buffer-and-file` location, none otherwise |
| Commands.KeepDecoded | lib/client.js:633-652 | the entries that decode, never more than the entries |
| Commands.KeepDecodedAppend | lib/client.js:633-652 | what an entry contributes does not depend on its neighbours |
| Commands.KeepDecodedAll | lib/client.js:633-652 | when every entry decodes, all are kept, in order |
| Commands.KeepDecodedFrom | lib/client.js:633-652 | every kept value is the decoding of an entry |
| Commands.CollectDefinitions | lib/client.js:628-655 | a list reply gives the entries that decode; anything else is rejected |
| Commands.FileDefinitionDecodes | lib/client.js:637-647 | a file definition reads back as name, file and position |
| Commands.BufferAndFileDefinitionDecodes | lib/client.js:639-647 | a `:buffer-and-file` definition, with its tag in any case, reads back as name, the file (element 2) and position |
| Commands.BufferDefinitionHasNoFile | lib/client.js:636-642 | a `:buffer` definition is kept, with no filename |
| Commands.ErrorEntryDropped | lib/client.js:634-651 | an entry with an `(:error ...)` location is dropped |
| Commands.CompilationFollowUp | lib/client.js:670-675 | LOAD-FILE of element 5 exactly when elements 2 and 4 are not NIL in any case, and then it is requested; a NIL element 2 or element 4 requests nothing; element 4 unread after a NIL element 2 |
| Commands.CompilationLoadsIffBothTrue | lib/client.js:670-675 | the load is sent exactly when both flags read true with `from_lisp_bool` |
| Commands.CompilationFailureShortCircuits | lib/client.js:671 | a NIL success flag sends nothing even when later elements are missing |
| Dispatch.DecodeReturn | lib/client.js:208-210 | a `:return` decodes exactly when it has three or more elements and an atom status; the id and value are elements 2 and 1.1 |
| Dispatch.ThreadAndLevel | lib/client.js:341-351 | thread and level are the sources of elements 1 and 2, which must exist |
| Dispatch.HeadOf | lib/client.js:148-167 | every message kind other than an ignored one belongs to a handled head |
| Dispatch.DecodeMessage | lib/client.js:142-172 | a decoded message is of the kind its lower-cased head names, and is ignored exactly when that head has no handler |
| Dispatch.Route | lib/client.js:147-158 | each message routed by a command is of the kind that command names; only a command without a handler is ignored |
| Dispatch.RouteDebugger | lib/client.js:159-170 | the same for the debugger and ping commands and the final `else` |
| Dispatch.RouteIgnoresHead | lib/client.js:146-170 | routing reads the head only through its lower-cased command |
| Dispatch.DispatchIgnoresCase | lib/client.js:146 | heads that differ only in case decode alike |
| Dispatch.DebugSetupIgnoresHead | lib/client.js:311-339 | the `:debug` decoder does not look at the head |
| Dispatch.PingEchoes | lib/client.js:224-229 | a ping is answered by a pong echoing its thread and tag |
| Dispatch.PongCommand | lib/client.js:227 | the pong text echoes the ping's thread and tag; stated by `PingEchoes`, `SwankClient.PingAnswered` and `Client.PingHandler` |
| Dispatch.ReturnNamesRequest | lib/client.js:192-215 | the `:return` for request n carries `String(n)`, which names exactly n |
| Dispatch.UnknownIgnored | lib/client.js:168-170 | any other head is ignored |
| Dispatch.WriteStringDecodes | lib/client.js:149-150 | `(:write-string "s" ...)`, with the head in any case, decodes to the unquoted text |
| Dispatch.NewPackageDecodes | lib/client.js:158-159 | `(:new-package "p" ...)`, with the head in any case, decodes to the unquoted package name |
| Dispatch.PresentationStartDecodes | lib/client.js:151-153 | `(:presentation-start id ...)` decodes to the id's source text |
| Dispatch.PresentationEndDecodes | lib/client.js:154-157 | `(:presentation-end id ...)` decodes to the id's source text |
| Dispatch.DebugActivateDecodes | lib/client.js:162-163 | `(:debug-activate thread level ...)` decodes to the thread and level texts |
| Dispatch.DebugReturnDecodes | lib/client.js:164-165 | `(:debug-return thread level ...)` decodes to the thread and level texts |
| Dispatch.DebugEventDecodes | lib/client.js:160-161 | a `:debug` event as Swank writes it decodes to the session it encodes |
| Dispatch.WriteStringEventDecodes | lib/client.js:149-150 | a `:write-string` event as Swank writes it decodes to its text, unquoted |
| Dispatch.PresentationStartEventDecodes | lib/client.js:151-153 | a `:presentation-start` event as Swank writes it decodes to its id |
| Dispatch.PresentationEndEventDecodes | lib/client.js:154-157 | a `:presentation-end` event as Swank writes it decodes to its id |
| SwankClient.Start | lib/client.js:6-31 | counter 1, no pending request, every default slot a no-op, and the invariant holds |
| SwankClient.Named | lib/client.js:213 | the request a reply id names is pending and its id is spelled `String(n)` |
| SwankClient.Written | lib/client.js:54-64 | `send_message` appends the frame of the UTF-8 bytes, or nothing when the header throws; stated by `Client.SendMessage`, `Framing.FrameLayout` and `PingAnswered` |
| SwankClient.Envelope | lib/client.js:192 | the `(:EMACS-REX cmd "pkg" thread id)` text with the id spelled `String(id)`; stated by `Client.Rex`, and the id is read back by `JsText.ParseIdExact` |
| SwankClient.AfterRex | lib/client.js:182-205 | `rex` on the abstract state: stated by `RexKeepsInv` (fresh id, invariant kept), `RexThenReturn` and `OutOfOrderReplies` |
| SwankClient.AfterReturn | lib/client.js:207-221 | the return handler on the abstract state: stated by `RexThenReturn`, `UnknownReturnIgnored`, `DuplicateReturnIgnored` and `ReceiveKeepsInv` |
| SwankClient.Receive | lib/client.js:142-172 | `on_swank_message` on a decoded message: stated by `ReceiveKeepsInv`, `PingAnswered`, `EventReachesHandler`, `EvalOutputReachesHandlers` and `Client.OnSwankMessage` |
| SwankClient.ReceiveAll | lib/client.js:125-172 | handling messages never removes a default handler slot |
| SwankClient.RexKeepsInv | lib/client.js:182-205 | `rex` keeps the invariant, and its id was neither pending nor resolved |
| SwankClient.Inv | lib/client.js:182-221 | ids below the counter, resolved ids not pending and distinct, the default slots present: kept by `RexKeepsInv`, `ReceiveKeepsInv` and `ReceiveAllKeepsInv` |
| SwankClient.ReceiveKeepsInv | lib/client.js:142-221 | every message keeps the invariant, so no request is resolved twice |
| SwankClient.ReceiveAllKeepsInv | lib/client.js:97-172 | any sequence of messages keeps the invariant |
| SwankClient.RexThenReturn | lib/client.js:182-221 | a request and its `:return` resolve it with the value and leave the table as before |
| SwankClient.OutOfOrderReplies | lib/client.js:182-221 | two requests answered in reverse order each resolve with their own value |
| SwankClient.UnknownReturnIgnored | lib/client.js:213-220 | a reply whose id names no pending request changes nothing |
| SwankClient.DuplicateReturnIgnored | lib/client.js:213-220 | a second reply for the same request changes nothing |
| SwankClient.PingAnswered | lib/client.js:224-229 | a ping adds exactly one pong frame and changes nothing else |
| SwankClient.EventReachesHandler | lib/client.js:138-148 | an event reaches the handler registered last for its slot |
| SwankClient.Notify | lib/client.js:138-157 | calling the handler of a slot: stated by `EventReachesHandler` and `EvalOutputReachesHandlers` |
| SwankClient.EvalOutputReachesHandlers | lib/client.js:142-157 | the four bodies of a REPL result (presentation start, output, presentation end, newline) add exactly four events in order: the id to both presentation handlers and the unquoted texts to print_string |
| SwankClient.EvalListExample | spec/ClientSpec.js:57-76 | for `(list (+ 1 1) "4")`, print_string receives `(2 "4")` and then a newline, between two presentation events with the same id |
| SwankClient.BacktraceExchange | lib/client.js:182-221 | a backtrace request answered by Swank's frames resolves with a reply decoding to those frames |
| SwankClient.ReturnFromFrameCommand | lib/client.js:453 | the value is sent as a literal that reads back as the value |
| SwankClient.Numbers | lib/client.js:408-410 | the frame numbers of the frame objects, in order |
| SwankClient.FrameLocalsCommand | lib/client.js:415 | `(SWANK:FRAME-LOCALS-AND-CATCH-TAGS index)`; sent as stated by `Client.DebugStackFrameDetails` |
| SwankClient.FrameSourceCommand | lib/client.js:464 | `(SWANK:FRAME-SOURCE-LOCATION frame)`; sent as stated by `Client.DebugFrameSource` |
| SwankClient.FindDefinitionsCommand | lib/client.js:629 | `(SWANK:FIND-DEFINITIONS-FOR-EMACS "name")`; sent as stated by `Client.FindDefinitions` |
| SwankClient.FrameInfo.constructor | lib/client.js:331-335 | a frame object with the record's fields and no details |
| SwankClient.FrameInfo.ApplyDetails | lib/client.js:415-437 | `locals` and `catch_tags` are set as far as the reply decodes |
| SwankClient.ApplyReplies | lib/client.js:414-437 | frame-details replies applied in order, each to the frame it is aimed at |
| SwankClient.CapturedRepliesLand | lib/client.js:407-437 | each reply applied to the frame its own request found: every requested frame gets its reply's locals, and no other frame changes |
| SwankClient.SharedVariableReplies | lib/client.js:407-408 | as written, every reply is applied to the frame in the shared variable, the one requested last |
| SwankClient.SharedVariableMisfiles | lib/client.js:407-437 | frames 0 and 1 requested before either reply: frame 0's locals land in frame 1 and frame 0 never gets its own |
| SwankClient.Client.constructor | lib/client.js:6-31 | the start state and a reader awaiting a header |
| SwankClient.Client.SendMessage | lib/client.js:54-65 | the frame of the UTF-8 bytes is written, with a header parsing to its length; nothing is written when the header throws |
| SwankClient.Client.On | lib/client.js:138-140 | the slot holds the new handler |
| SwankClient.Client.Rex | lib/client.js:182-205 | the envelope is sent under the old counter, which moves on, and the request is recorded |
| SwankClient.Client.ReturnHandler | lib/client.js:207-221 | the named pending request is removed and resolved; any other id changes nothing |
| SwankClient.Client.PingHandler | lib/client.js:224-229 | the pong is sent |
| SwankClient.Client.CallHandler | lib/client.js:148-165 | the call of the slot's current handler is recorded |
| SwankClient.Client.OnSwankMessage | lib/client.js:125-172 | the new state is `Receive` of the decoded message; a malformed one changes nothing |
| SwankClient.Client.SocketData | lib/client.js:97-136 | the reader moves as `Run` prescribes and each body is handled in order |
| SwankClient.Client.DebugGetStackTrace | lib/client.js:384-386 | sends `(SWANK:BACKTRACE 0 NIL)` |
| SwankClient.Client.DebugStackFrameDetails | lib/client.js:407-440 | no frame: nothing sent; a frame with locals: answered from the cache; otherwise its details are requested |
| SwankClient.Client.FrameDetailsTwice | lib/client.js:407-437 | asked twice with the first reply applied in between, the second call is answered from the frame exactly when the reply's locals decoded, and otherwise requests the frame again |
| SwankClient.Client.DebugAbortCurrentLevel | lib/client.js:372-380 | sends the abort command for the level |
| SwankClient.Client.DebugReturnFromFrame | lib/client.js:452-454 | sends the return-from-frame command |
| SwankClient.Client.DebugFrameSource | lib/client.js:463-465 | sends the frame-source-location command |
| SwankClient.Client.FindDefinitions | lib/client.js:628-630 | sends the find-definitions command for the package |
| SwankClient.Client.Autodoc | lib/client.js:249-278 | without a form list nothing is sent; otherwise the autodoc request goes to the REPL thread |
| SwankClient.Client.OnCompilation | lib/client.js:670-675 | LOAD-FILE is requested exactly when `CompilationFollowUp` asks for it; a malformed result changes nothing |

## Left out

- The socket (`connect`, the `end` and `error` events, the `connected` flag) is not modelled. `send_message` appends the frame to `sent` instead of writing it, and a write before connecting, which throws, is not modelled.
- Promises are modelled by the resolution recorded when the `:return` arrives. The continuation of each command is its decoder, applied to the resolved value. Rejections and `console` logging are not modelled.
- Event handlers registered with `on` are recorded with their argument but not run. A handler that throws inside `data_complete_callback` is caught there and has no modelled effect.
- `paredit.parse` is external. `SocketData` takes it as a parameter, and autodoc takes the parsed forms' spans as input.
- UTF-8 decoding of a body (`Buffer.toString`) is folded into that parameter. Encoding is modelled (`Framing.Utf8`), and only code points are covered.
- `Number`, `parseInt` and the case mappings are modelled on the inputs the protocol carries. Whitespace, a leading `+`, fractions, exponents, hexadecimal forms and non-ASCII case mapping are not modelled (so `Number("+5")`, which is 5, reads as NaN here, and a header such as `+0001a`, which `parseInt(_, 16)` reads as 26, reads as no number).
- Property lookup in `req_table` is modelled for canonical decimal ids. An id that names an inherited property (such as `constructor`) throws when resolved, so it also changes nothing.
- The thin command senders around `rex` are not modelled: `initialize`, `autocomplete`, `eval`, `debug_invoke_restart`, `debug_escape_all`, `debug_continue`, `debug_restart_frame`, `debug_disassemble_frame`, `debug_eval_in_frame`, the stepping and breakpoint commands, the `profile_*` commands, `compile_string`, `compile_file`, `inspect_presentation`, `get_type_of_*`, `interrupt` and `quit`. The mechanism they share is `Client.Rex`. Some also post-process the reply, and that is not modelled either. `autocomplete` maps `from_lisp_string` over the reply and falls back to `[]` (lib/client.js:289-299). `debug_disassemble_frame` and `debug_eval_in_frame` unquote the reply (lines 534-537 and 543 on). The `profile_*` commands call the `profile_command_complete` handler (lines 586-622).
- The inspector decoders are not part of this model.
- The global variables the source leaks (`restartable`, `stack_frames`, `location`, `errorMessage`) are modelled as locals. Each is assigned and read within one call. `frame_info` is shared across calls, and the Findings below show what that does; `Client.DebugStackFrameDetails` applies each reply to the frame its own request found.
- SwankClient.Client.SendMessage: a header of seven hex digits is written unpadded. Its layout is stated only for payloads below 16^6 bytes; `Framing.Header` states the seven-digit case.

## Findings

| source | as written | input that shows it | evidently intended | confidence | as-written member | corrected member |
|---|---|---|---|---|---|---|
| lib/client.js:407-437 | `debug_stack_frame_details` assigns the found frame to the undeclared `frame_info`, which becomes a global shared by every module and every `Client`, and the reply callback writes `locals` and `catch_tags` to whatever frame that variable holds when the reply arrives | details of frames 0 and 1 requested before either reply arrives: frame 0's locals are written into frame 1, and frame 0 never gets its own | each reply fills the frame its own request found | high, not executed | SwankClient.SharedVariableMisfiles | SwankClient.CapturedRepliesLand |
