# A model of the Aerospike HTTP proxy

The server reads HTTP requests from keep-alive connections, decodes their URIs, answers them, and
is configured from an INI file. This project models four parts of it in Dafny and proves what they
are for:

1. the incremental request parser, and the connection that feeds it and answers,
2. the Base64 encoder and its two decoders,
3. the INI reader,
4. URI decoding, query splitting, string splitting and number bases.

The project has one module per file. In each part, what the program updates in place is a class or
a method over arrays (`RequestParser.Parser`, `Http.Request`, `Reply.Reply`,
`Connection.ConnectionObject`, `Base64Coders`, `Base64Bounded`, `IniBuffer`, `IniFile`,
`Ini.Reader`, and the loops of `Split`, `Uri` and `Bases`). Each is proved equal to a function on
values, and the theorems are about these functions:

- `Grammar` says independently of the parser what a message is and which request it denotes.
  `Soundness` and `Completeness` relate the state machine to it, and `ParserTheorems` and
  `Rejection` draw the conclusions. `Characters` and `HeaderRules` say in terms of literal characters,
  words and numbers what the fields of a message mean. `Connection` has the invariant of every run, and `Sessions`
  what a whole keep-alive session gives its client. `Cuts` says which requests any run handles, and
  when these are the ones that were sent; it rests on `Ahead`, which compares two parsers of which
  one began earlier. `Framing` has the client that reads the replies, and `Recovery` says in which
  runs it recovers them.
- `Base64` has the encoding as a function on byte sequences and both round trips. `Base64Bounded`
  proves the decoder with the bounded buffer against it, and `Base64Agree` when the two decoders give
  the same.
- `Ini` is a pure line parser, `IniBuffer` and `IniFile` the C code that edits a buffer of 200
  bytes, `IniRoundTrip` the printer and its round trip, and `IniLines` the lines of the file against
  the lines that are counted.
- `BaseTheorems` compares the two evaluators of `Bases` and converts there and back.

## What the code does, where one might expect otherwise

- `parse` does not return false as soon as the input is hopeless. A content length above 16 MiB that
  can no longer change is noticed only at the line feed that ends the header block.
  `Rejection.RejectsExactlyTheHopeless` gives the exact condition, and `Rejection.RejectsTooLate` a
  family of inputs that the parser keeps waiting on. A length whose digits may still go on is not
  hopeless: `atoi` saturates at 64 bits and truncates to 32, so more digits give -1 or 0.
- Bytes that a read brings behind the end of a request are dropped
  (`Sessions.BytesBehindARequestAreDropped`). A session of valid requests is handled as it was sent if
  and only if every request ends at the end of a read (`Cuts.SessionIsHandledIfCut`).
- A refusal has no `Content-Length` line, and on a connection that was kept alive it does not end the
  connection. A client that follows section 4.4 of RFC 2616 then takes every later reply for the
  content of the refusal (`Recovery.RefusalSwallowsTheNext`).
- The method of a request is never looked at, so the answer to a HEAD request has content, which it
  must not have by section 4.4 of RFC 2616. The client then takes the content for the begin of the next
  reply (`Recovery.HeadMisleads`).
- `Recovery.RecoveredIfOrderly` and `Recovery.RecoveredByMethods` give the exact condition under which
  the client recovers the replies of a run: before the last reply there is neither a refusal nor
  content that answers a HEAD request. The answers are documents there: they do not begin with an `H`
  like a reply, and what `json_dumps` prints for an object begins with `{`.
- In `symbols` the letter at 24 is a small `o`. `BaseToDec` reads the capital `O`, and every other
  small letter, as 36, while `ConvertBase` knows both cases.
- An INI value that is empty before its continuation lines gets no newline in front of the first of
  them. An INI line that is longer than 199 bytes with its line feed is counted as several lines, so
  the result code may not be the number of a line of the file, as include/ini.h promises
  (`IniLines.CountsLinesIfAllFit`, `IniLines.LongCommentIsMisread`).
- A comment behind an INI value that is empty is taken for the value (`IniLines.EmptyValueKeepsComment`).
- `base64Decode` stops at the first character outside the alphabet, `base64DecodeToData` skips it
  (`Base64Agree.DecodersAgree`).

## How the program's types are modelled

- A byte is a `char` below 256. Where the program compares a signed `char`, a code of 128 or more is
  negative: the parser takes such bytes in URIs and values, and refuses them in methods and names.
- Members without an initial value (`keepalive_`, the version numbers and the body countdown of a new
  parser) are arbitrary; the theorems hold for every value.
- `unsigned int` wraps at 2^32 in `fast_atou` and in the body countdown; `atoi` is that of the GNU C
  library with a 64-bit `long`; the stream extraction in `url_decode` is that of GNU libstdc++,
  defined for every pair of bytes. Version numbers are unbounded, because the overflow of a C++ `int`
  is undefined.
- Locales are the C locale. A C string is its text in front of the NUL.
- An asynchronous operation is a count of what is outstanding, and completes by an event with
  arbitrary bytes or an error. The JSON document that answers a request is part of the event.

## Model

| member | source | states |
|---|---|---|
| Http.FirstHeader | include/request.hpp:45-53 | the index found is that of the first header with the name, or the number of headers if there is none |
| Http.Request.Clear | include/request.hpp:36-43 | everything in the request is empty or zero afterwards |
| Http.Request.GetHeader | include/request.hpp:45-53 | the loop returns the value of the first header of that name, the empty string without one |
| Http.Request.IsHttp11 | include/request.hpp:55-61 | true exactly for versions from 1.1 on |
| Http.Request.WantKeepalive | include/request.hpp:63-75 | the first connection header decides if it is `close` or `keep-alive` in any case, otherwise the version does |
| Characters.CharacterClasses | src/request_parser.cpp:310-337 | by codes: which characters may stand in methods and names, in values and in a uri, and what are white space and digits |
| Characters.AtoiReads | src/request_parser.cpp:284 | `atoi` skips white space, takes a sign and the digits; a number in the range of `int` is the result, above that the low 32 bits, beyond 64 bits -1 or 0 |
| Characters.AtoiReadsNothing | src/request_parser.cpp:284 | without digits the result is 0 |
| HeaderRules.NamesAreFolded | src/request_parser.cpp:203-204 | the headers of a request are the fields in order; in each name exactly the letters A to Z are moved to the codes 32 higher |
| HeaderRules.FirstFieldCounts | include/request.hpp:45-53 | a header is looked up by the first field that has the name in any letter case |
| HeaderRules.BodyIsAnnounced | src/request_parser.cpp:282-293 | the first field named content-length in any letter case announces the body: none for a number up to 0, that many bytes up to 16777216, no message above |
| HeaderRules.DecimalIsAnnounced | src/request_parser.cpp:282-293 | the same for a decimal number in the value |
| HeaderRules.KeepaliveIsAsked | include/request.hpp:63-75 | the first connection field decides by the word close or keep-alive in any letter case; otherwise the connection is kept from HTTP/1.1 on |
| RequestParser.Parser.constructor | src/request_parser.cpp:21-22 | a new parser is in its first state, with an arbitrary body countdown |
| RequestParser.Parser.Reset | src/request_parser.cpp:24-26 | only the state is reset: the body countdown stays what it was |
| RequestParser.Parser.AppendToName | src/request_parser.cpp:240-241 | the lower-cased byte goes to the end of the last header's name and nothing else changes |
| RequestParser.Parser.AppendToValue | src/request_parser.cpp:265-266 | the byte goes to the end of the last header's value and nothing else changes |
| RequestParser.Parser.ConsumeRequestLine | src/request_parser.cpp:31-123 | the code for method, URI and the word HTTP/ makes exactly the transition of the state machine |
| RequestParser.Parser.ConsumeVersion | src/request_parser.cpp:124-185 | the same for the version numbers and the first line end |
| RequestParser.Parser.ConsumeHeader | src/request_parser.cpp:186-277 | the same for header lines, continuation lines and their ends |
| RequestParser.Parser.ConsumeEnd | src/request_parser.cpp:278-303 | the same for the blank line, which looks up the first content length, and for the body |
| RequestParser.Parser.Consume | src/request_parser.cpp:28-308 | one byte changes parser and request exactly as the state machine's transition on values does, with the same result |
| RequestParser.Parser.Parse | include/request_parser.hpp:38-49 | the loop over a buffer does what feeding its bytes to the state machine does, and returns the position behind the last byte it consumed |
| RequestParser.FeedRest | include/request_parser.hpp:33-49 | what is left is a suffix of the input: nothing while more is wanted, and at least one byte is consumed before any decision |
| Completeness.FeedConcat | include/request_parser.hpp:38-49 | parsing a ++ b in one call is parsing a and, if that is indeterminate, going on with b |
| Completeness.ChunksDoNotMatter | include/request_parser.hpp:38-49 | for every list of chunks the outcome is that of their concatenation in one call: same result, request, state and rest |
| Completeness.AcceptsMessages | src/request_parser.cpp:28-308 | a fresh parser accepts the text of every valid message, consumes exactly it whatever follows, and builds the request that the grammar assigns |
| Soundness.StepTraces | src/request_parser.cpp:28-308 | each transition keeps a relation between parser, request and all bytes read, by which the bytes are the text of a partial message |
| Soundness.AcceptsOnlyMessages | src/request_parser.cpp:28-308 | what a fresh parser accepts is the text of a valid message, with the request that the message denotes |
| ParserTheorems.ParserEqualsGrammar | include/request_parser.hpp:33-49 | `parse` returns true if and only if the input begins with a message; the rest and the request are then those that the grammar gives |
| ParserTheorems.GrammarIsUnambiguous | src/request_parser.cpp:28-308 | no input begins with two different messages, and no two readings of one text denote different requests |
| ParserTheorems.ReachableIsConsistent | src/request_parser.cpp:186-303 | in every reachable state `headers.back()` exists where it is used, names are lower-case tokens, URI and values are free of control bytes, and the body read plus the countdown is the content length, from 1 to 16777216 |
| ParserTheorems.RequestRoundTrip | src/request_parser.cpp:28-308 | printing a well-formed request and parsing it gives back the same request and consumes exactly the printed bytes |
| ParserTheorems.ParsedIsWellFormed | src/request_parser.cpp:28-308 | a request can result from a parse if and only if it is well-formed |
| ParserTheorems.LeftoversDoNotMatter | src/request_parser.cpp:24-26 | values of an earlier request that `reset` leaves in place, such as the body countdown, never influence a result or a request |
| Rejection.RejectsExactlyTheHopeless | src/request_parser.cpp:28-308 | an input can be extended to a message if and only if `parse` is indeterminate on it, or has returned true on all of it, and the header lines in the input hold no content length above 16 MiB that is final: terminated, or followed by another header or by the begin of the blank line |
| Rejection.DoomedIfHopeless | src/request_parser.cpp:278-296 | that condition on the input holds exactly if the parser waits with such headers in its request |
| Rejection.RejectsTooLate | src/request_parser.cpp:278-296 | for every length above 16 MiB in the range of `int` there is an input that begins no message and on which the parser still waits |
| Rejection.FeedDoomed | src/request_parser.cpp:278-296 | once the content length is too large and final, no further input is ever accepted |
| Rejection.NotDoomedCompletes | src/request_parser.cpp:28-308 | in every other waiting state there is a continuation that makes the bytes read a valid message |
| Text.AtoiClosed | src/request_parser.cpp:283-284 | once the numeral of the content length is terminated, later bytes of the value do not change what `atoi` gives |
| Text.AtoiSaturates | src/request_parser.cpp:283-284 | enough further digits bring the content length to zero or below |
| Reply.Reply.constructor | include/reply.hpp:48-52 | a new reply has no headers and no content, and any status |
| Reply.Reply.Clear | include/reply.hpp:62-66 | headers and content are emptied, the status stays |
| Reply.Reply.ToBuffers | src/reply.cpp:105-120 | the buffers in order are the status line, each header line, the blank line and the content |
| Reply.Reply.AssignStock | src/reply.cpp:244-256 | a stock reply has the status and neither headers nor content |
| Reply.HandleRequest | src/request_handler.cpp:182-195 | status ok; the JSON text is appended to what the content was; exactly three headers, of which the first announces the whole content; the target is that of the URI |
| Framing.HeadEndsAtFirstBlankLine | src/reply.cpp:105-120 | if the headers hold no line breaks, the first blank line in the bytes sent, whatever follows, is the one that ends the header block |
| Framing.ServedHeadIs | src/request_handler.cpp:182-195 | the printed head of an answer line by line: status, Content-Length, Content-Type and Connection with their texts |
| Framing.StockHeadIs | src/reply.cpp:38-39 | the printed head of a refusal, word for word |
| Framing.LastHeader | src/request_handler.cpp:192-195 | the last header line of an answer is `Connection: Keep-Alive` if the flag is set, and `Connection: close` if not |
| Framing.ServedLength | src/request_handler.cpp:189 | the printed header block of an answer has a `Content-Length` line, which reads as the number of bytes of the content |
| Framing.StockLength | src/reply.cpp:244-256 | the printed header block of a refusal has no `Content-Length` line |
| Framing.FramedUnlessRefusal | src/reply.cpp:105-120 | of the replies that are sent, exactly those that are not refusals announce the length of their content |
| Framing.ReadRefusal | src/reply.cpp:244-256 | a client that follows section 4.4 of RFC 2616 takes all that is behind a refusal for its content |
| Framing.ReadHeadReply | src/request_handler.cpp:186-190 | a client that sent a HEAD request goes on to read at the content of its answer |
| Framing.RepliesRecovered | src/reply.cpp:105-120 | the client, which knows which replies answer HEAD requests, recovers a sequence of replies from their concatenated bytes if and only if before the last there is neither a refusal, except to a HEAD request, nor a document that answers a HEAD request |
| Framing.RepliesRoundTrip | src/reply.cpp:105-120 | under that condition it recovers the replies for any contents, not only documents |
| Connection.ConnectionObject.constructor | include/connection.hpp:34-65 | a new connection has a fresh parser, an empty request and reply, and an arbitrary keep-alive flag |
| Connection.ConnectionObject.Start | src/connection.cpp:65-67 | one read is started and nothing else changes |
| Connection.ConnectionObject.ReadMore | src/connection.cpp:69-75 | one more read is outstanding |
| Connection.ConnectionObject.AsyncWrite | src/connection.cpp:95-98 | one more write is outstanding and the socket gets the bytes of the current reply |
| Connection.ConnectionObject.Reset | include/connection.hpp:67-72 | request and reply are emptied and the parser is in its first state; the body countdown and the reply's status stay |
| Connection.ConnectionObject.Proceed | src/connection.cpp:90-110 | after each of the three results the whole connection is what the decision on values says: flag, handled request, reply, bytes written, outstanding operations |
| Connection.ConnectionObject.HandleRead | src/connection.cpp:77-114 | a completed read changes the whole connection as the transition on values does: answer a request, refuse bad bytes, or read on; an error starts nothing |
| Connection.ConnectionObject.HandleWrite | src/connection.cpp:116-137 | a completed write changes the whole connection as the transition on values does: reset and read, or shut down; an error starts nothing |
| Connection.StepKeepsInvariant | src/connection.cpp:65-137 | every completion of an operation, with any bytes or an error, keeps the invariant of the connection |
| Connection.EveryRun | src/connection.cpp:65-137 | after every run: at most one operation outstanding, none after the shutdown; reads only for a parser that started afresh with a clean reply; the reply being written is unchanged; each handled request has one reply, in order, apart from refusals; the flag is that of the last good request |
| Connection.EveryRunIsReadable | src/reply.cpp:105-120 | after every run, for any belief of the client about which replies answer HEAD requests: exactly the replies that are not refusals announce their length; the client recovers the replies from the bytes written if and only if all before the last are passable |
| Recovery.RecoveredIfOrderly | src/connection.cpp:86-132 | in terms of the events of a run: the client recovers the replies if and only if no read decides behind a read that leaves the keep-alive flag set and is refused, or answers a HEAD request by a document |
| Recovery.RecoveredByMethods | src/connection.cpp:86-132 | in terms of the handled requests and the replies sent, paired in order: the client recovers the replies if and only if before the last there is neither a refusal nor content that answers a HEAD request |
| Recovery.RefusalGoesOn | src/connection.cpp:102-132 | on a connection that was kept alive, bytes that cannot begin a request are answered by a stock reply, and then the connection listens again |
| Recovery.RefusalSwallowsTheNext | src/connection.cpp:102-132 | a failing run: a request other than HEAD, a refused read, any request; the client gets the second answer, head and all, as the content of the refusal |
| Recovery.HeadMisleads | src/request_handler.cpp:114-199 | a failing run in which nothing is refused: a HEAD request that is answered by a document, and any request; the client reads the document as the begin of the second reply and does not recover the replies |
| Recovery.HeadVisitIsValid | src/request_handler.cpp:154-157 | `HEAD /status? HTTP/1.1` with a blank line is such a request |
| Connection.ReadsAreFresh | include/connection.hpp:67-72 | whenever a read is outstanding, the next result and request are those of any fresh parser on the bytes since the last reset |
| Connection.WriteLeadsOn | src/connection.cpp:125-132 | in every run, a completed write leads to exactly one of reset and a new read, or the shutdown |
| Connection.ReplyTellsWhatFollows | src/request_handler.cpp:192-195 | in every run, behind an answer the connection is shut down exactly if its printed head ends in the line `Connection: close`, and reads on exactly if that is `Connection: Keep-Alive` |
| Cuts.EndsByFailure | src/connection.cpp:77-123 | after an error of a read or a write no event can occur |
| Sessions.VisitIsAnswered | src/connection.cpp:77-132 | a valid request whose bytes arrive in any reads that end with it is handled once and answered once, and the connection then listens again or is shut down as the request wants |
| Sessions.VisitEnds | src/connection.cpp:90-131 | a visit whose first connection field is close, in any letter case, ends with the shutdown, one with keep-alive with a new read, and any other by its version: from 1.1 on a new read, before the shutdown |
| Sessions.SessionIsAnswered | src/connection.cpp:77-132 | for any number of requests that want keep-alive, however each is cut into reads, the handler gets exactly these requests in order, and each gets one reply |
| Sessions.ClientGetsAnswers | src/connection.cpp:77-132 | the bytes that the client of such a session receives decode to one reply for each request, in order, with the documents that answer them and nothing for HEAD, if and only if no HEAD request but the last is answered by a document |
| Sessions.BytesBehindARequestAreDropped | src/connection.cpp:86-90 | a read that goes on behind the end of a request has the same effect as one that stops there |
| Cuts.EveryRunHandles | src/connection.cpp:77-132 | after every run, on any bytes, the handled requests are those found by a new parser in the bytes of the reads, begun anew with the read behind each decision |
| Cuts.FirstHandled | src/connection.cpp:77-132 | where a handled request comes from: the whole text of a message in the bytes read, and what the last of its reads brings behind it is dropped |
| Cuts.SessionIsHandledIfCut | src/connection.cpp:77-132 | for a session of requests that all want keep-alive, its bytes cut into any reads: the handler gets exactly these requests if and only if each ends at the end of a read |
| Cuts.LateIsLost | src/connection.cpp:86-90 | once the first byte of a session is lost, no cutting of the rest makes the handler get its requests |
| Ahead.InsideDiffers | src/request_parser.cpp:28-308 | a message that begins inside the text of another and ends within it denotes a different request |
| Base64.DecodeEncode | src/wp_base64.cpp:12-118 | decoding the encoding of any bytes gives the bytes |
| Base64.EncodedShape | src/wp_base64.cpp:12-63 | the encoding has 4 * ceil(n / 3) characters: alphabet characters, then the padding that the length calls for (section 4 of RFC 4648) |
| Base64.EncodeDecode | src/wp_base64.cpp:12-118 | encoding what a text decodes to gives back the text if and only if it is canonical: length a multiple of 4, right padding, unused bits zero (section 3.5 of RFC 4648) |
| Base64.IndexIsTableValue | src/wp_base64.cpp:120-145 | the search in the alphabet and the decoder table give the same value for every character |
| Base64.QuadIsBits | src/wp_base64.cpp:24-27 | the four sextets are the 24 bits of the three bytes from the top (section 4 of RFC 4648) |
| Base64Coders.SplitThree | src/wp_base64.cpp:24-27 | the masks and shifts give the four sextets of three bytes |
| Base64Coders.EncodeLast | src/wp_base64.cpp:37-59 | the last one or two bytes are encoded with zero bits and padding |
| Base64Coders.Base64Encode | src/wp_base64.cpp:12-63 | the grouping loop computes the encoding of all bytes |
| Base64Coders.JoinFour | src/wp_base64.cpp:83-85 | the masks and shifts give the three bytes of four sextets |
| Base64Coders.DecodeLast | src/wp_base64.cpp:95-115 | a group that is not full gives one byte less than it has characters, the same whatever value, 255 in the program, stands in the cleared slots |
| Base64Coders.Base64Decode | src/wp_base64.cpp:65-118 | the loop over four slots computes the decoding of the whole text, which is that of its longest prefix of alphabet characters |
| Base64Bounded.DecodeToData | src/wp_base64.cpp:147-199 | the buffer gets the first min(size, n) of the n bytes that the other decoder gives for the text without foreign characters; that number is returned; nothing at or behind the size is written |
| Base64Agree.DecodersAgree | src/wp_base64.cpp:65-199 | without a limit the two decoders give the same bytes if and only if no alphabet character follows a foreign one, or just one that would begin a group |
| Base64Bounded.CollectPart | src/wp_base64.cpp:165-166 | the accumulator always holds exactly the sextets collected so far, from the top |
| Base64Bounded.StoreGroup | src/wp_base64.cpp:168-182 | three bytes are stored unless the buffer is full after one of them, and then the result is final |
| Base64Bounded.StoreTail | src/wp_base64.cpp:186-198 | two or three leftover characters give one or two more bytes, as far as there is room |
| IniBuffer.RStrip | src/ini.c:24-30 | the string in the buffer loses its trailing white space, and nothing in front of it or from its end on changes |
| IniBuffer.LSkip | src/ini.c:33-38 | the string from the returned place is the string without its leading white space |
| IniBuffer.FindCharOrComment | src/ini.c:43-51 | the place returned is that of the first `c`, of the first `;` behind white space, or of the end |
| IniBuffer.FGets | src/ini.c:91 | the buffer holds the next line, or its first 199 bytes, as a terminated string |
| IniFile.TrimLine | src/ini.c:94-102 | the string from the start is the line without byte order mark and outer white space; the start moved exactly if something in front was skipped |
| IniFile.ParseSection | src/ini.c:115-127 | the section name is what stands before the first `]` outside a comment, and without one there is none |
| IniFile.ParseNameValue | src/ini.c:134-145 | name and value are the trimmed texts on both sides of the separator, the value without its comment |
| IniFile.ParseLine | src/ini.c:94-152 | the edits of the buffer for one line have the effect of the pure line step: same handler call, section, previous name and error |
| IniFile.ParseFile | src/ini.c:62-160 | the code over the buffer makes the handler calls of the pure parser on the whole file and returns its error |
| IniFile.ReadFile | src/INIReader.cpp:12-15 | a reader has the values and the error of the pure parser on the file, and error -1 and no values if the file cannot be opened |
| Ini.ErrorIsFirstBadLine | src/ini.c:81-159 | of the pieces that `fgets` reads, the error is the number of the first that lacks a `]`, or a `=` or `:`, and 0 if there is none |
| IniLines.MalformedLines | src/ini.c:104-152 | the lines that count as errors: no comment and no continuation, and lacking a `]` behind a `[`, or otherwise both a `=` and a `:`, in front of any comment |
| IniLines.MarkIsIgnored | src/ini.c:95-100 | a UTF-8 byte order mark at the start of a file changes nothing |
| IniLines.EmptyValueKeepsComment | src/ini.c:137-141 | behind an empty value a comment is not recognised and becomes the value |
| IniLines.CountsLinesIfAllFit | src/ini.c:91-92 | the pieces that are counted are the lines of the file if and only if every line with its line feed has at most 199 bytes |
| IniLines.ErrorIsFirstBadTextLine | include/ini.h:29-32 | the error is the number of the first bad line of the file if the lines up to that one fit, whatever is behind; without a bad line it is 0 if all lines fit |
| IniLines.CountsLinesThatFit | src/ini.c:91-92 | the first lines of the file, as long as they fit, are the first pieces that are counted |
| IniLines.LongCommentIsMisread | src/ini.c:91-92 | a file of one comment of at least 200 bytes has no bad line, and the error is 2 |
| Ini.Reader.ValueHandler | src/INIReader.cpp:59-68 | a further value of a key is joined to the earlier ones with a newline, if these are not empty |
| Ini.Reader.Get | src/INIReader.cpp:22-26 | the value under the folded key, or the default |
| Ini.Reader.GetBoolean | src/INIReader.cpp:38-49 | true, false or the default by the eight words, in any letter case |
| Ini.BooleanWords | src/INIReader.cpp:43-48 | true for true, yes, on and 1, false for false, no, off and 0, in any letter case, and otherwise the default |
| IniRoundTrip.FileRoundTrip | src/ini.c:62-160 | printed sections are read back without error: each value under its section and name in any letter case, and the default for every other key; whatever the white space around names, separators and values, with `=` or `:`, with comments behind values and sections, and with blank lines and comment lines anywhere |
| IniRoundTrip.CommentIsCut | src/ini.c:138-141 | a value ends where a `;` behind white space begins a comment, and loses that white space |
| IniRoundTrip.StepFill | src/ini.c:104-106 | a blank line, or a line that begins with `;` or `#`, changes nothing but the line number |
| IniRoundTrip.StepSection | src/ini.c:115-122 | a section line sets the section to the first 49 characters of its name and ends the continuations; what is behind the `]` does not count |
| IniRoundTrip.StepEntry | src/ini.c:128-146 | a line with a name and a value makes one call, and its name, cut to 49 characters, is that of the continuations |
| IniRoundTrip.ValueIsJoined | src/INIReader.cpp:64-66 | the value read back is its lines joined by newlines if and only if the first line is not empty or stands alone |
| IniRoundTrip.KeyIsFaithful | src/INIReader.cpp:51-57 | for sections without dots, two keys are equal if and only if sections and names are equal up to letter case |
| Uri.UrlDecode | src/request_handler.cpp:84-108 | the index loop decodes plus signs, percent pairs and other bytes one after the other, and fails on a pair that is no number or is cut off |
| Uri.ParseQuery | src/request_handler.cpp:60-82 | the map holds the pairs between the ampersands that have an equals sign, later ones replacing earlier ones |
| Uri.RouteRequest | src/request_handler.cpp:118-136 | the target is the lower-cased path and the parameters of a URI with a query; a URI without one, or that does not decode, has neither |
| Uri.DecodesPieces | src/request_handler.cpp:84-108 | every mix of literal bytes, plus signs and two-digit percent encodings, each digit in either letter case, decodes to the bytes it stands for (section 2.1 of RFC 3986) |
| Uri.CutOffFails | src/request_handler.cpp:88-100 | decoding fails at a percent sign without two characters behind it |
| Uri.NoNumberFails | src/request_handler.cpp:91-97 | decoding fails at a pair that does not begin with a digit, a sign or white space, or that has no digit |
| Uri.SignedPairs | src/request_handler.cpp:91-94 | a sign or white space counts in front of one digit, and a negative value is taken modulo 256 |
| Uri.LostBehindDigit | src/request_handler.cpp:91-94 | a character behind one digit is lost, but `0x` is no number |
| Uri.ParametersOfPairs | src/request_handler.cpp:60-82 | splitting a printed list of pairs, and of words without an equals sign, gives the map in which the last value of each key wins and words do not count |
| Uri.RouteRoundTrip | src/request_handler.cpp:118-136 | every encoding of a path and a parameter list is routed to the path, its letters A to Z moved to the codes 32 higher, and to the map in which the last value of each key wins |
| Uri.RouteOfNothing | src/request_handler.cpp:124-136 | a uri that does not decode, or decodes to a text without a question mark, has neither path nor parameters |
| Split.Find | src/util.cpp:196 | the first occurrence at or behind a place, or none |
| Split.StrSplit | src/util.cpp:192-208 | for a delimiter that is not empty the loop ends and gives the tokens |
| Split.TokensJoin | src/util.cpp:192-208 | the tokens joined by the delimiter are the input, and none contains the delimiter |
| Split.SplitJoin | src/util.cpp:192-208 | splitting joined tokens gives them back if and only if the delimiter occurs in none of them, nor across the end of one that is followed by it |
| Split.SplitJoinCharacter | src/util.cpp:192-208 | for a delimiter of one character: if and only if no token contains it |
| Split.FastAtou | src/util.cpp:210-218 | the shifts with wrap-around give the decimal value of a digit string modulo 2^32 |
| Split.SignedCodes | src/util.cpp:210-218 | other characters count by their codes less 48, codes from 128 on being negative |
| Bases.GetIndex | src/util.cpp:240-249 | the index of the character, or the length without it |
| Bases.BaseToDec | src/util.cpp:251-267 | dividing the place value from left to right gives the positional value; 0 for a base out of range |
| Bases.DivPower | src/util.cpp:264 | the place value stays an exact power of the base |
| Bases.ExtractDigits | src/util.cpp:295-310 | the loop ends, and its reversed output is the numeral of the number |
| Bases.ConvertBase | src/util.cpp:269-313 | adding powers from right to left gives the positional value, whose numeral in the target base is read as a decimal integer |
| BaseTheorems.ReadDigits | src/util.cpp:89-96 | the converted numeral is read up to its first letter, and as 0 if it begins with a letter or is no `int` |
| BaseTheorems.IndexIsDigit | src/util.cpp:240-249 | the digit tables of the two evaluators agree on a character if and only if it is in `symbols` |
| BaseTheorems.EvaluatorsAgree | src/util.cpp:251-313 | with values in range, `BaseToDec` and `ConvertBase` to base 10 agree if and only if every character is in `symbols`, and then both give the positional value |
| BaseTheorems.EvaluatorsDiffer | src/util.cpp:251-313 | on a single letter that is not in `symbols`, one gives 36 and the other the letter's value |
| BaseTheorems.CapitalOIsNoSymbol | src/util.cpp:49 | the capital O is such a letter |
| BaseTheorems.ValueOfNumeral | src/util.cpp:295-310 | the extracted digits have the value of the number, in every base from 2 to 36 |
| BaseTheorems.NumeralIsUnique | src/util.cpp:295-310 | they are the only numeral of that value in the base without leading zeros |
| BaseTheorems.ConversionRoundTrip | src/util.cpp:269-313 | converting a numeral from base a to base b and its result back gives the numeral read as a decimal integer, for bases from 2 to 10 |

## Left out

- Sockets, strands, timers, signals, the accept loop and the threads: an operation is only outstanding or completed.
- The Aerospike client and the JSON library: the document that answers a request is an arbitrary string.
- Gzip, logging, time stamps, file system helpers, glob, MIME types: input and output, or calls into libraries.
- Statuses other than 200 and 400, and `to_string` of replies: the server sends no other status and no stock content.
- `GetInteger` of the INI reader: it is `strtol` of the C library.
- Failures of `malloc` around `ini_parse_file`, which the configured build does not call, and read errors of an open file. The handler always accepts, as `ValueHandler` does.
- The arrays `section` and `prev_name` of `ini_parse_file` are strings cut to 49 characters.
- RequestParser.Parser.Consume: does not model the overflow of the version numbers, which is undefined in C++.
- Base64Coders.Base64Decode: requires a length up to INT_MAX, because the program counts it in an `int`.
- Split.StrSplit: requires a delimiter that is not empty, because the program's loop does not end for an empty one.
- Bases.BaseToDec: requires that place value and total fit an `int`, where `pow` is exact and nothing overflows.
- Bases.ConvertBase: requires a value that a `double` holds exactly, places whose power of the base is finite in a `double` (beyond that a leading zero gives 0 times infinity), and a target base from 2 on, because the loop divides by it; a negative source base is left out.
- BaseTheorems.ConversionRoundTrip: requires that the intermediate numerals, read as decimal integers, fit an `int`; otherwise the program returns 0.
