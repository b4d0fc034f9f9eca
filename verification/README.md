# Doormat: the verified core

Doormat is an HTTP proxy library. This project models its codecs and state
machines in Dafny 4.11 and proves what they guarantee. `dafny verify
dfyconfig.toml` checks everything.

What is modelled, hardest first:

- **The HTTP/1 codec.** `http_parser_execute` as it is written, one pass over a
  buffer with inner loops, `memchr` jumps, marks and a header-size counter
  (`HttpParser`), refines a machine that reads one octet at a time
  (`ParserStep`, `ParserMachine`). On the machine stand the invariant of all
  runs, the exact condition under which fragmentation is invisible, what the
  name, value and method matchers recognise (`ConnectionLists` for the lists of a
  Connection field, `Persistence` for what follows from them), and the round trips of
  header blocks, chunked bodies, whole requests and responses, and pipelined streams
  (`RoundTrip`, `Trailers`, `UntilClose`, `ChunkedFlag`). What is read but never printed
  is in `FirstLineForms`, `HeaderForms` and `ChunkSizes`. What the header limit makes of
  a stream, and of the ways of cutting it, is computed exactly (`HeaderLimit`, `ReadLimits`,
  `LoadRuns`, `HeaderSizes`). The callbacks and the decode loop of `http_codec` are
  classes (`HttpDecoder`, `Decoding`). What they tell the owner of a codec, call by
  call and read by read (`Additions`, `Reads`), is computed for printed messages
  (`Locations`, `Telling`, `Hosts`, `Streams`), with the exact condition under which it is what
  the sender meant; `Delivery.Exchange` puts both ends together.
- **Pipelining.** `Pipeline` is the state of a connection, `PipelineRuns` what
  every run of application calls, write completions and stops in which no assertion
  fails guarantees,
  `Http1Handler` the objects that refine it. `PipelineRuns.Deliver` runs from
  the calls of an application to the notices at the other end.
- **The shared timer**, whose interval is a greatest common divisor and whose
  counters are rescaled (`TimerMultiplexer`).
- **Calendar arithmetic**: the closed forms against the simple calendar
  (`Calendar`).
- **JSON**: printer, lexer and parser, the last two also as the stateful objects
  they are (`JsonReader`), with the round trip of every value without floats, what every
  object text stands for (`JsonObjects`), every escape and number (`JsonEscapes`, `JsonNumbers`), and the
  layout (`JsonLayout`).
- **Request targets** (`UrlParser`), also those of a proxy request and of a CONNECT
  (`AbsoluteForm`, `AbsoluteServer`, `AbsoluteTargets`), and what an accepted target can
  hold (`AcceptedTargets`).
- **Smaller cores**: the HTTP/2 body pump
  (`BodyPump`), the ring buffer (`RingBuffer`), base64 (`Base64`) and streaming
  statistics (`StreamingStats`).

Conventions. An octet is a `char` and a statement about all strings is one about
all octet strings. Machine widths are written out where they matter. Callbacks
return 0, and the only one that touches the parser is message-complete, which
re-initialises it when the parser belongs to a codec (`resets`). A callback whose
assertion fails or that throws ends the program; the decoder of the model refuses the
buffer, as it does when `on_url` returns an error. The parser is
in strict mode, as in its header, with the header limit of 80*1024. Ghost fields
and the `log` of a connection record history and influence nothing.

Where the code does not do what one would expect, it is modelled as it is, and
the contracts say exactly when it does what it promises:

- A header value with a refused octet is accepted or refused depending on where
  the stream is cut (`Fragmentation.CutsAreInvisible`, if and only if;
  `CutExamples.UncheckedOctet`).
- `nread` counts an octet twice when a call ends on it inside the loop over a field
  name or value, which takes all of it but its first octet; and inside such a loop
  the limit is checked only at its end. So a header block can be refused because of
  how it was cut. No cut can do so if and only if the block is within the limit even
  when those octets count twice (`ReadLimits.EveryCutIsAccepted`;
  `HeaderSizes.MessageCounts` for printed messages; `CutExamples.LongValueCuts`).
- The version of the first message on a connection is told for all that follow
  (`Streams.ToldIsOwn`, if and only if; `AnyBody.VersionIsKept`).
- A target is split fragment by fragment, every fragment but the first as the target of
  a CONNECT, and the offsets of a fragment are applied to the whole target. So a target
  is told right if and only if it comes in one read (`Locations.CutTarget`,
  `Locations.PathIsCut`), and that of a CONNECT never
  (`Locations.ConnectIsNotTold`).
- In a Connection list the parser takes a comma for a part of the element when it
  follows a beginning of "keep-alive", "close" or "upgrade", or the start of the value,
  and so misses the next element; and it gives up on the rest of the list at an empty
  element or one that begins with no token (`ConnectionLists.CloseIsMissed`;
  `ConnectionLists.ConnectionMeans` for every list). A connection whose "close" is
  missed in this way is kept open (`Persistence.KeepAliveMeans`, if and only if).
- The values of a header do not come apart again if one of them holds what is printed
  between them (`HeaderValues.CutJoin`, if and only if).
- The flag `chunked()` is kept beside the header entries and set by fewer values than
  the parser takes for "chunked". Where they disagree, the message does not arrive
  as it was meant (`ChunkedFlag.BareBodyIsRefused`, `ChunkedFlag.FramingIsBody`).
- An empty Content-Length, which the parser accepts, throws in `header`, which is
  declared not to throw (`EmptyLength.AcceptedLengths`, if and only if).
- The end of a response that is delimited by the end of the connection is never told,
  because the codec never calls the parser without octets (`NeverDone.LastIsNeverDone`).
- Any field name that begins with "content-length" counts as a Content-Length
  (`FieldNames.NameFlags`).
- Requests with the method M-SEARCH are printed with a name that no parser reads
  (`MethodNames.PrintedNamesAreRead`, if and only if), so the round trips, which are
  about what the parser reads, are for every other method (`FirstLines.CleanLine`).
- White space in front of a header value does not arrive (`HeaderLines.TrimmedExactly`,
  if and only if).
- `encode_trailer` needs a body before it, and an application that sends a
  trailer after the head alone fails its assertion (`PipelineRuns.TrailerAfterHead`;
  `Pipeline.AssertionsAreOrder`, if and only if). A response that waits behind
  another may be told in any order that makes sense in sum when its turn comes
  (`PipelineRuns.QueuedCallsAreSums`, `PipelineRuns.AllowedMeans`, if and only if).
- A second trailer prints a second last-chunk line, which the parser refuses
  (`Trailers.AtMostOneTrailer`, if and only if).
- A header map without entries fails an assertion of `serialize`, so a message
  has at least one header.
- A response with an empty reason phrase never causes the status callback.
- Under HTTP/1 the two branches of `do_write` for an empty buffer cannot be reached,
  so `should_stop` is never consulted there and the writer never closes a connection.
  (The HTTP/2 session may return true with an empty buffer and does reach them,
  src/http2/session.cpp:414-433.)
- `reserve` reads the write pointer and measures the room in two arguments of one
  call, whose order C++ leaves open. In one order the region handed out is free
  memory (`RingBuffer.ReusableBuffer.Reserve`); in the other it ends behind the array
  if and only if the buffer is empty and its positions are not at the start
  (`RingBuffer.ReusableBuffer.ReservePointerFirst`, `RingBuffer.PastTheEnd`).
- `consume` takes a pointer in front of the read position and wraps its count around
  (`RingBuffer.ReusableBuffer.Consume`).
- A handler that was listed but has not registered takes the first duration that
  anyone registers; registering again keeps the old one; the first call may come
  sooner than the duration, because time is counted from the first tick.
- The year of a date is 16 bits wide (`Calendar.ToFromDays`, if and only if), and the
  conversion of the last 719468 days of an `int` overflows (`Calendar.FromDaysIsExact`, if
  and only if).
- The JSON lexer takes the control octets 0x10 to 0x1F inside strings, ends at a NUL
  octet, skips a byte order mark between any two tokens, and keeps the last of duplicate
  keys; the comparison takes 2^64-1 and -1 for equal.
- The HTTP/2 body pump can flag the end of a body too early
  (`BodyPump.ServerEndsTooSoon`, `BodyPump.ClientEndsTooSoon`); two empty chunks
  in the queue do not count as empty.

## Model

| member | source | states |
|---|---|---|
| `ParserInvariant.RunKeepsInv` | src/http_parser/http_parser.c:634-2087 | Safety over every run: from any state that meets the invariant, any octets lead only to states that meet it, so no assertion of the parser can fail, every field stays inside the width of the C struct, and a resumed data callback continues the one before it |
| `ParserInvariant.AddToLengthExact` | src/http_parser/http_parser.c:1564-1589 | A digit is accepted exactly when there is room for one more digit of any value below 2^64; then it is added without wrapping and never reaches the "no length" sentinel; what would reach it is refused |
| `ParserCallbacks.TransitionInOrder` | src/http_parser/http_parser.c:76-140 | In every state and for every octet, a callback is only made while no other mark is open, at most one mark is open, it is the one that the next call sets on entry, and a call returns early only between messages |
| `HttpParser.LineEnd` | src/http_parser/http_parser.c:1538-1553 | The `memchr` search finds the first CR or LF inside the window, or says that there is none |
| `HttpParser.Parser.Execute` | src/http_parser/http_parser.c:634-2087 | One call on a buffer of at most 2^32-1-80*1024 octets, with its inner loops, `memchr` jumps, bulk body copies and marks, refines reading octet by octet: it overflows the header limit exactly when `Meter` says so, a function of the state, the octets and the earlier cuts alone, and then ends so; otherwise it consumes the same octets, makes the same callbacks (adjacent data merged, and never two in a row for one target) and ends in the same struct or error. Between calls `nread` is the true count plus what `Meter` says; after a success no header block read so far is longer than the limit; on an error the last data callback may be cut short |
| `HttpParser.Parser.EndOfInput` | src/http_parser/http_parser.c:656-675 | A call with no octets completes a message delimited by the end of the connection, is harmless between messages, and is an error anywhere else |
| `HttpParser.Parser.FieldText` | src/http_parser/http_parser.c:1298-1430 | The loop over a field name stops at the first octet that is not a token, having counted and matched all before it, or fails where the reference fails |
| `HttpParser.Parser.ValueText` | src/http_parser/http_parser.c:1505-1694 | The loop over a field value stops at the line end with the state of the reference, although `memchr` skips octets unseen |
| `HttpParser.Parser.BodyText` | src/http_parser/http_parser.c:1878-1919 | Taking a stretch of body at once is the same as taking its octets one by one, up to and including the octet that completes the message |
| `Fragmentation.CutsAreInvisible` | src/http_parser/http_parser.c:677-700 | Fragmentation invariance of the machine, which has no header limit, exactly: every way of cutting a stream in two gives the outcome of the uncut stream if and only if no octet that the header-character check refuses is ever jumped over by `memchr` |
| `Fragmentation.CutDiffers` | src/http_parser/http_parser.c:1526-1557 | When such an octet is jumped over, there is a cut just before it after which the parser refuses what it accepts uncut |
| `Fragmentation.FragmentsAreInvisible` | src/http_parser/http_parser.c:2057-2079 | Then any number of cuts leaves octet count, callbacks, error and struct as they are without cuts |
| `Fragmentation.CleanNeverSkips` | src/http_parser/http_parser.c:1526-1557 | A stream of header characters only meets the condition for invariance from every state |
| `ReadLimits.EveryCutIsAccepted` | src/http_parser/http_parser.c:634-2087 | Fragmentation invariance with the header limit, exactly: a well-formed stream is accepted under every way of cutting it into any number of reads if and only if no refused octet is jumped over and its load is within the limit. The load counts every octet of a header block once, and those that the loops over names and values read twice |
| `ReadLimits.EveryCutIsWithin` | src/http_parser/http_parser.c:154-163 | The limit alone, also for streams that turn out malformed: where no refused octet is jumped over, no way of cutting exceeds the limit if and only if the load does not |
| `ReadLimits.SinglesAreWorst` | src/http_parser/http_parser.c:1413-1420 | The worst case is real: read octet by octet, a stream without such an octet exceeds the limit exactly when its load does |
| `HeaderLimit.WithinLimit` | src/http_parser/http_parser.c:154-163 | A call that the limit lets pass has kept every true count within the limit |
| `CutExamples.UncheckedOctet` | src/http_parser/http_parser.c:1526-1557 | The failing input for the refused octet: a request whose value ends in the octet 1 is accepted in one read and refused when cut in front of it |
| `CutExamples.LongValueCuts` | src/http_parser/http_parser.c:1684-1694 | The failing inputs for the limit: a value of n octets is accepted in one read up to 81900 octets, but under every cut if and only if 2n+18 is within the limit |
| `FieldNames.NameMeans` | src/http_parser/http_parser.c:1298-1430 | A field name is taken for one of the five framing words exactly when it is one, whatever its case |
| `FieldNames.NameFlags` | src/http_parser/http_parser.c:1363-1376 | The exact condition of the duplicate-length error: a name changes nothing but F_CONTENTLENGTH, which every name that begins with "content-length" sets, and is refused if and only if it begins so and the flag was set |
| `FieldValues.LengthIsExact` | src/http_parser/http_parser.c:1564-1589 | The length stored is the decimal value of the field; digits are refused only when that value is within 16 of 2^64 |
| `FieldValues.CodingMeans` | src/http_parser/http_parser.c:1591-1661 | Transfer-Encoding sets the chunked flag exactly when its value is "chunked", in any case, followed by nothing but spaces |
| `FieldValues.OtherValue` | src/http_parser/http_parser.c:1602-1680 | No value of any other field is refused or changes the framing |
| `HeaderLines.BlockOver` | src/http_parser/http_parser.c:1248-1772 | A block of any number of well-formed lines is read under any fragmentation as exactly its pairs in order, each name and each value once and whole, empty values included, but for the white space in front of the values |
| `HeaderLines.TrimmedExactly` | src/http_parser/http_parser.c:1432-1446 | A value comes back as it was printed if and only if no white space is in front of it |
| `HeaderLines.BlockFraming` | src/http_parser/http_parser.c:1363-1694 | After a lawful block the framing is exactly what its lines announce: chunked if some line says so, the announced length, nothing else |
| `HeaderForms.FormsOver` | src/http_parser/http_parser.c:1432-1772 | A block of lines that are spelled otherwise, with any white space or none behind the colon and with bare line feeds, in any mixture, is read as exactly its pairs in order |
| `HeaderForms.FoldedReads` | src/http_parser/http_parser.c:1700-1772 | A value on any number of lines, in a field that means nothing to the parser, is read as one value: its lines with the white space that each begins with |
| `ConnectionLists.ConnectionMeans` | src/http_parser/http_parser.c:1591-1694 | The matcher of Connection values, for every value: after it the flags say of "keep-alive", "close" and "upgrade", in any case, exactly whether `Holds` finds them in the list between the commas |
| `ConnectionLists.HoldsIsListed` | src/http_parser/http_parser.c:1591-1694 | Against the list as it stands: what is found is an element, and in a list whose elements are all read every element is found |
| `ConnectionLists.CloseIsMissed` | src/http_parser/http_parser.c:1617-1661 | The failing inputs: "c,close", ",close" and "a,,close" have the element "close", and it is not found |
| `Persistence.BlockMeans` | src/http_parser/http_parser.c:1363-1694 | After a lawful block the flags of the connection are exactly what its lines say: a list of some Connection or Proxy-Connection line holds the word, some Upgrade line has a value |
| `Persistence.KeepAliveMeans` | src/http_parser/http_parser.c:2115-2131 | For every lawful block and first line, in terms of the lines: the connection is kept open from HTTP/1.1 on if and only if no list holds "close", before if and only if some list holds "keep-alive", and in both cases only if the message says where it ends |
| `MethodNames.NamesAreExact` | src/http_parser/http_parser.c:954-1051 | The parser, which guesses a method from its first letter and changes its mind on the way, recognises each of the 33 methods by its name and by nothing else |
| `MethodNames.PrintedNamesAreRead` | src/http/http_request.cpp:6-18 | Every printed method is read back as itself except M-SEARCH, which is printed as MSEARCH and is not read as any method |
| `RequestLine.RequestLineOver` | src/http_parser/http_parser.c:954-1246 | A request line with any method, any target that survives the URL states (for CONNECT, those of a server) and any HTTP/1 version is read whole: one message-begin, the target in one piece, then the header block; which targets these are say the rows of `AbsoluteTargets` and `PrintedTargetsAreClean` |
| `RequestLine.SplitTargetsAreClean` | src/http_parser/http_parser.c:487-632 | Every target that `http_parser_parse_url` accepts for another method than CONNECT is let through by the parser |
| `RequestLine.PrintedTargetsAreClean` | src/http/http_request.cpp:15-37 | So is every target that a request prints for well-formed path, query and fragment |
| `AbsoluteTargets.AbsoluteLineOver` | src/http_parser/http_parser.c:487-632 | For every scheme of letters, optional user information, host name or bracketed address with or without a zone, optional port up to 65535, path, query and fragment of their own characters: a request line with the target that is made of them is read whole, the target in one piece |
| `AbsoluteTargets.AbsoluteSplits` | src/http_parser/http_parser.c:2252-2439 | And its split is exactly these seven texts and that port |
| `AbsoluteTargets.AbsoluteTold` | src/http/http_codec_impl.h:142-161 | And the owner is told exactly these when the target comes in one fragment |
| `AbsoluteTargets.AuthorityLineOver` | src/http_parser/http_parser.c:525-560 | The request line of a CONNECT to any such server is read whole |
| `AbsoluteTargets.AuthoritySplits` | src/http_parser/http_parser.c:2252-2439 | Such a server is accepted as the target of a CONNECT if and only if it has a port and no user information, and its split is its host and its port |
| `AbsoluteTargets.ProxiedIsAbsolute` | src/http_parser/http_parser.c:505-632 | For instance "http://example.com/" |
| `StatusLine.StatusLineOver` | src/http_parser/http_parser.c:781-952 | A status line is read whole: version, a code of at most three digits and a reason phrase, with one message-begin |
| `FirstLineForms.RequestReads` | src/http_parser/http_parser.c:954-1246 | A request line with any line ends in front, any number of spaces, numbers of up to 999 as its version and a bare line feed behind it is read whole, with that version |
| `FirstLineForms.SimpleReads` | src/http_parser/http_parser.c:1081-1120 | So is one of nothing but a method and a target, as HTTP/0.9 |
| `FirstLineForms.StatusReads` | src/http_parser/http_parser.c:781-952 | So is a status line with such a version, any number of spaces, a code of up to 999, and a reason phrase, an empty one or none; the status callback is made only where there is one |
| `FirstLines.PrintReply` | src/http/http_response.cpp:54-65 | The printed head of a response is the status line and the lines of the grouped header map |
| `FirstLines.PrintAsk` | src/http/http_request.cpp:15-37 | The printed head of a request is its method by the name of the table of printed names, which for M-SEARCH is MSEARCH, its target, its version, and the lines of the grouped header map |
| `FirstLines.PrintHead` | src/http/http_request.cpp:15-37 | So is that of either kind of message |
| `UrlParser.FieldsAreSound` | src/http_parser/http_parser.c:2338-2439 | Whenever a target of at most 65535 octets is accepted, its fields are non-empty, in bounds, in order and pairwise disjoint, every octet outside them is a delimiter (one of `: / @ [ ] ? #`), the port is the decimal value of its field and at most 65535, a schema comes with a host, and CONNECT targets have exactly host and port |
| `UrlParser.PrintedSplits` | src/http/http_request.cpp:15-37 | Splitting a printed target gives back exactly its path (or "/"), query and fragment, and no other field |
| `AcceptedTargets.AcceptedIsClean` | src/http_parser/http_parser.c:454-632 | And whatever target is accepted, for CONNECT or not: its scheme is letters, its user information, path, query and fragment are octets of their own kind, its host is a name or an address with or without a zone, and its port is digits |
| `UrlParser.SplitUrl` | src/http_parser/http_parser.c:2337-2439 | The loop over a target computes the split of which `AbsoluteTargets.AbsoluteSplits`, `UrlParser.PrintedSplits` and `UrlParser.FieldsAreSound` say what it is |
| `UrlParser.SplitHost` | src/http_parser/http_parser.c:2252-2330 | The loop over the server part, with user information, IPv6 zones and port, computes the split that the lemmas are about |
| `HttpEncoder.Encoder.EncodeHeader` | src/http/http_codec.h:42-49 | Only between messages; remembers whether the message is chunked |
| `HttpEncoder.Encoder.EncodeBody` | src/http/http_codec.cpp:20-38 | Prints one chunk, or the octets, or nothing at all for an empty body, so that no last-chunk comes early |
| `HttpEncoder.Encoder.EncodeTrailer` | src/http/http_codec.cpp:40-52 | Only after a body or a trailer; prints a last-chunk line before the trailer line, every time |
| `HttpEncoder.Encoder.EncodeEom` | src/http/http_codec.cpp:54-72 | Ends the message in each state: last-chunk and blank line, blank line alone after a trailer, nothing when not chunked |
| `HttpEncoder.Serialize` | src/http/http_structured_data.cpp:202-234 | The loop with its remembered key prints the lines of the grouped header map and a blank line; what the grouped map is says `GroupedMeans` |
| `HttpEncoder.GroupedMeans` | src/http/http_structured_data.cpp:202-234 | For every multimap: one field for each key, whose value is all values of that key in map order, joined with "; " for cookie and ", " otherwise |
| `HttpEncoder.EntriesInOrder` | src/http/http_structured_data.cpp:202-234 | Every entry of the map is in the field of its key, and the fields stand in map order |
| `HeaderValues.CutJoin` | src/http/http_structured_data.cpp:209-214 | Values that are joined come apart again as they were, for any two different characters between them, if and only if none of them contains the two |
| `HeaderValues.ValuesComeBack` | src/http/http_structured_data.cpp:202-234 | So for every multimap and each key: what the receiver reads for it, cut at "; " for cookie and at ", " otherwise, is the list of its values if and only if none contains this, unless the first begins with white space or is empty |
| `ChunkedCoding.ChunkOver` | src/http_parser/http_parser.c:1930-2048 | A printed chunk of any size is read as one chunk header with the exact size, its data whole, and one chunk-complete |
| `ChunkSizes.SizeLineReads` | src/http_parser/http_parser.c:1930-2006 | A chunk-size line in any spelling, with zeros in front, digits in either case and any extension: read as exactly its number if and only if this is at most 2^64-17, and otherwise an error whatever follows |
| `ChunkSizes.NoSize` | src/http_parser/http_parser.c:1930-1943 | Anything but a hexadecimal digit at the start of a chunk is an error |
| `RoundTrip.ChunkedOver` | src/http/http_codec.cpp:20-72 | The chunked round trip (section 4.1 of RFC 7230): for all bodies and at most one trailer, the parser reports the bodies in order, the trailer and exactly one message-complete, consumes every octet, and is back at its start |
| `Trailers.AtMostOneTrailer` | src/http/http_codec.cpp:40-52 | For all bodies and well-formed trailers, the printed end of a chunked message is read without error if and only if there is at most one trailer; otherwise the second last-chunk line is refused as a header line |
| `RoundTrip.PrintMessage` | src/http/http_codec.cpp:20-72 | The sender drives `serialize` and the encoder through head, bodies piece by piece, trailer and end: what comes out is the text of the message, framed as its flag `chunked()` says, whatever its header lines say |
| `ChunkedFlag.BareBodyIsRefused` | src/http/http_structured_data.cpp:53-58 | What becomes of a message whose lines say "chunked" while its flag does not: the body goes out bare, and the parser refuses it unless it happens to begin with a hexadecimal digit |
| `ChunkedFlag.TrailingSpaceIsRefused` | src/http/http_structured_data.cpp:53-58 | A concrete message of this kind: the value "chunked" with a space behind it, which the parser takes for the coding and `icompare` does not |
| `ChunkedFlag.FramingIsBody` | src/http/http_codec.cpp:20-72 | The other disagreement: the flag is set and the lines of a response announce nothing; then the receiver reads the chunk framing as body, up to the end of the connection |
| `RoundTrip.MessageOver` | src/http_parser/http_parser.c:634-2087 | The round trip of whole requests, CONNECT included, and responses, whichever framing they use and however the body was cut: first line, each field once, body, trailer, one message-complete; the parser is back at its start |
| `UntilClose.LastMessageOver` | src/http_parser/http_parser.c:2092-2124 | The round trip of a response that announces nothing about its body (section 3.3.3 of RFC 7230), for the parser alone: its head, whatever body follows and a call without octets are read as exactly that response, completed once; it is never told as persistent, because nothing delimits it |
| `NeverDone.LastIsNeverDone` | src/http/http_codec.cpp:82-115 | The codec never makes that call: however such a response and any octets behind it are cut into reads, and however many reads bring nothing, the owner is told the head and the body so far, and never an end |
| `RoundTrip.StreamOver` | src/http_parser/http_parser.c:1921-1928 | A pipelined stream is read as its messages, one by one and in order |
| `HeaderSizes.MessageCounts` | src/http_parser/http_parser.c:154-163 | The load of a printed message, exactly, from its text alone: the longest of its head, its chunk-size lines and its trailer, each with all but the first octet of every name and value counted twice, and never a body |
| `HeaderSizes.StreamCounts` | src/http_parser/http_parser.c:154-163 | The load of a pipelined stream is the largest of its messages; nothing is carried from one to the next |
| `HeaderSizes.FitsMeans` | src/http_parser/http_parser.c:154-163 | A message is within the limit if and only if its head and its trailer are; chunk sizes never matter |
| `HttpDecoder.SplitsAreInvisible` | src/http/http_codec_impl.h:52-61 | What the callbacks accumulate does not show where a data callback was split, unless it is for a target |
| `Additions.CallsDeliver` | src/http/http_codec_impl.h:129-298 | Delivering the callbacks of a call one by one, as the source does, tells the owner exactly what delivering the additions to the merged trace tells it, and something objects to the one if and only if to the other |
| `Additions.AddedTwice` | src/http/http_codec_impl.h:129-298 | So do two calls one after the other, unless a target goes on from the first to the second |
| `ParserCalls.OctetApart` | src/http_parser/http_parser.c:1053-1120 | Whatever the octet: in one call no two callbacks in a row are for a target, so the merged callbacks of a call never join two of them |
| `HttpDecoder.Impl.OnUrl` | src/http/http_codec_impl.h:142-161 | Splits the fragment on its own, the first as an ordinary target and the others as that of a CONNECT, writes its entries over those before, takes the texts from the whole target read so far if the fragment could be split, and returns an error exactly when more than 8192 octets have come |
| `HttpDecoder.Impl.HandleAll` | src/http/http_codec.cpp:117-177 | The object, handed callbacks, ends as the fold over them says, if and only if none of its assertions and checks, and no conversion of a Content-Length, objects to one of them |
| `HttpDecoder.Impl.OnField` | src/http/http_codec_impl.h:171-178 | A field name stores the header before it, or hands over the trailer before it, and accumulates |
| `HttpDecoder.Impl.OnHeadersComplete` | src/http/http_codec_impl.h:188-231 | The version is taken from the first message on the connection and told for all; the last header is stored, and a target without a host gets it from the host header (`Hosts.HostTold`), before the owner is told of the head; the major version must be 1, as the source asserts |
| `HttpDecoder.Impl.OnMessageComplete` | src/http/http_codec_impl.h:282-298 | A pending trailer is handed over, the owner is told of the end, and nothing of the message is left |
| `HttpDecoder.Impl.Reset` | src/http/http_codec_impl.h:70-99 | Nothing accumulated is left but the version |
| `Decoding.Decoder.Call` | src/http/http_codec.cpp:82-90 | One call of the parser, whose callbacks are handed over in order: fine exactly when the header limit is kept, the octets are well formed and nothing objects; then the owner is told exactly what the call adds to the callbacks so far |
| `Decoding.Decoder.Decode` | src/http/http_codec.cpp:82-115 | The loop reads the whole buffer message after message, as one uninterrupted run; it refuses the buffer exactly when the stream is malformed there, the header limit, metered over the whole run, is exceeded, or something objects to a callback; otherwise the owner is told what the run adds; the callbacks of a malformed buffer are those of the reference, the last data callback possibly cut short |
| `Decoding.Decoder.Receive` | src/http/http_codec.cpp:82-115 | However a stream is cut into reads, it is accepted exactly when its fragments are and nothing objects, and the owner is told what they add, read by read; if no refused octet is jumped over and the load is within the limit, the parser accepts it as it accepts the uncut stream |
| `Locations.OnTargetFits` | src/http/http_codec_impl.h:142-161 | No `substr` of the callback throws, in whatever fragments a target comes |
| `Locations.WholeTarget` | src/http/http_codec_impl.h:142-161 | A target in one fragment: the owner is told exactly the printed path, query and fragment if and only if these are legal, for any three strings; otherwise it is one of them that differs |
| `Locations.CutTarget` | src/http/http_codec_impl.h:142-161 | Any printed target in any fragments: the owner is told exactly what was printed if and only if there is only one fragment and path, query and fragment are legal |
| `Locations.PathIsCut` | src/http/http_codec_impl.h:142-161 | For instance "/a/b" cut after "/a" is told as the path "/a" |
| `Locations.ConnectIsNotTold` | src/http/http_codec_impl.h:142-161 | The target of a CONNECT that arrives whole is never told: whatever is split as one is refused as an ordinary target |
| `Locations.ConnectExample` | src/http/http_codec_impl.h:142-161 | For instance "h:1" |
| `Reads.ReadsSplit` | src/http/http_codec.cpp:82-115 | What is told of any reads is told of those up to a position and then of those from it on, wherever the position is, unless a target goes on across it |
| `Reads.PlainReads` | src/http/http_codec.cpp:82-115 | Where no target is read, no cut shows in what the owner is told |
| `Reads.TargetReads` | src/http/http_codec_impl.h:142-161 | The reads of a target are told as its pieces that are not empty |
| `Telling.RestDelivered` | src/http/http_codec_impl.h:162-298 | The callbacks behind the first line of a printed message tell its receiver exactly its method and location or its status and reason, its fields in order (without the white space in front of their values), its body and its trailer, and nothing objects to them |
| `Telling.MessageHeard` | src/http/http_codec_impl.h:129-298 | A printed message that arrives in any reads tells its receiver exactly this, with the version of the first message on the connection and the location that the pieces of its target give |
| `Hosts.HostTold` | src/http/http_codec_impl.h:206-217 | For every request, in any reads: a target that tells a host keeps it; otherwise host and port are those of the last host line, cut at its first colon, or the whole line and the port unchanged where there is none; without such a line nothing is changed |
| `Streams.StreamHeard` | src/http/http_codec_impl.h:129-298 | So does every message of a pipelined stream, in order, under every cut |
| `Streams.ToldIsOwn` | src/http/http_codec_impl.h:142-231 | The receiver of a stream is told of each message its own version and the location that its sender means if and only if all messages are of one version (minor version 1, or not), all targets are legal and each arrives in one piece; for streams whose targets are all legal or all in one piece |
| `Streams.RepliesTold` | src/http/http_codec_impl.h:129-298 | Of responses, neither the cuts of the octets nor those of the bodies show |
| `AnyBody.VersionIsKept` | src/http/http_codec_impl.h:193-196 | A concrete stream, for any two bodies: a response in HTTP/1.0 and one in HTTP/1.1, both told as HTTP/1.0 |
| `EmptyLength.AcceptedLengths` | src/http/http_structured_data.cpp:48-52 | Of a Content-Length that the parser accepts on one line, the conversion in `header` throws if and only if the value is empty |
| `EmptyLength.EmptyLengthThrows` | src/http/http_structured_data.cpp:48-52 | A request with an empty Content-Length: the parser reads it to its end, and the receiver throws at the end of its header block |
| `Delivery.EveryCutArrives` | src/http/http_codec.cpp:82-115 | Printed messages arrive however the network cuts them, with nothing objecting to a callback, if and only if every head and every trailer fits the limit |
| `Delivery.CutsAreAll` | src/http/http_codec.cpp:82-115 | The sizes of the reads that Exchange takes stand for every way of cutting a stream |
| `Delivery.Arrive` | src/http/http_codec.cpp:82-115 | A decoder and its callbacks, as objects, given such a stream in any reads, tell their owner of the messages in order, as `AllTold` says of these reads; this is what their senders mean if and only if the messages are of one version and every target is legal and in one piece |
| `Delivery.Exchange` | src/http/http_codec.cpp:20-115 | End to end, through the objects: one side prints any messages that fit with an encoder, the network cuts the octets into reads of any sizes, and the callbacks of the decoder on the other side tell its owner of them in order, under the same condition exactly as they were meant |
| `AnyBody.PlainArrives` | src/http/http_codec.cpp:20-115 | Every body that fits a string can be sent: a response with its length and nothing else in the header block is such a message, and arrives under every cut |
| `Pipeline.Outcome` | src/protocol/handler_http1.h:304-366 | The invariant of all runs, kept by every step (requests, calls in any order, completed and failed writes, stops, closes): the account of what was said, polled, serialised, written and acknowledged; between steps nothing that could be sent is waiting |
| `Pipeline.PollOnceKeeps` | src/protocol/handler_http1.h:338-366 | A poll that meets the assertion of the encoder keeps the invariant |
| `Pipeline.PollShrinks` | src/protocol/handler_http1.h:338-366 | And leaves less to do, so polling terminates |
| `Pipeline.PollsMeans` | src/protocol/handler_http1.h:304-366 | No assertion of the encoder fails in the loops over the queue and over a response if and only if the front response passes, and behind every response that has ended the next one |
| `Pipeline.PassesMeans` | src/protocol/handler_http1.h:338-366 | Polling a response to the end meets every assertion if and only if what is stored makes sense for the state of the encoder, whatever the number of polls |
| `Pipeline.CompletedKeeps` | src/connector.h:257-269 | A completed write keeps the invariant: its octets move from outstanding to written, its feedbacks from outstanding to given, and the next write takes all that waits |
| `Pipeline.BrokenKeeps` | src/connector.h:271-281 | A failed write keeps the invariant: nothing is counted as written and its feedbacks are given as failures |
| `Pipeline.ListenKeeps` | src/http/server/response.cpp:8-31 | Any call on any response after which polling meets the assertions, whatever its place in the queue, keeps the invariant; on a response that waits that is any call in any order |
| `PipelineRuns.Conservation` | src/connector.h:219-283 | In every run at most one write is outstanding and its buffer is left alone; until the connector stops, what was written, what is being written and what waits are together exactly what was serialised |
| `PipelineRuns.Acknowledged` | src/connector.h:256-282 | In every run, success is reported in request order, never together with failure, and only after every octet of that response and of all before it was written |
| `PipelineRuns.OneSide` | src/connector.h:257-281 | In every run no feedback is given twice, on either side |
| `PipelineRuns.AllWritten` | src/connector.h:261-269 | A connector that is neither writing nor stopped has written everything and acknowledged every finished response |
| `PipelineRuns.DestroyedFails` | src/protocol/handler_http1.h:287-300 | When the connector is gone, every finished response that was not acknowledged fails, in request order, so that each finished response has been given exactly one result |
| `PipelineRuns.InOrder` | src/protocol/handler_http1.h:304-366 | In every run, what was serialised is the finished responses in request order, each exactly as it was said, then the part of the front response said so far; nothing sayable is held back |
| `Pipeline.AssertionsAreOrder` | src/http/http_codec.cpp:20-72 | The exact condition for the assertions of the encoder at the front of the queue: in every reachable state, polling after a call meets them if and only if the call comes in the order head, body, trailers, end or is a body without octets, which is never polled; a trailer needs a non-empty body before it |
| `PipelineRuns.AllowedMeans` | src/protocol/handler_http1.h:304-366 | The exact condition for a call to be part of a run, for the whole queue: on a response that waits, any call; on the front, a call in order; and the call that ends the front only if what has been said to those behind it, up to the first that has not ended, makes up responses |
| `PipelineRuns.QueuedCallsAreSums` | src/protocol/handler_http1.h:338-366 | The laxer condition behind the front: there, any calls in any order pass if and only if what was said in sum makes sense, because the head is polled before the body and the body before the trailers |
| `PipelineRuns.TrailerAfterHead` | src/http/http_codec.cpp:40-52 | A concrete run: a request, its response head, and then a trailer fail the assertion, whatever the head and the trailer |
| `PipelineRuns.ScheduleIsInvisible` | src/protocol/handler_http1.h:304-407 | Schedule independence (section 6.3.2 of RFC 7230): however the calls on the responses interleave with each other and with the writes, those on waiting responses in any order, the serialised stream is one of exactly those responses in request order, and a receiver is told the same in whatever reads |
| `PipelineRuns.PlainIsIdentical` | src/protocol/handler_http1.h:387-392 | A response of announced length goes out octet for octet the same under every schedule |
| `PipelineRuns.Deliver` | src/protocol/handler_http1.h:304-407 | From the calls of the application, in any order, through handler, connector and a network that cuts anywhere, to the callbacks of the decoder at the other end: it tells its owner of those responses in order, exactly as they are if and only if they are of one version |
| `Http1Handler.Connector.DoWrite` | src/connector.h:219-283 | Does nothing while writing or stopped; otherwise takes the whole serialisation and the pending feedbacks together; with this handler, the branches for an empty buffer after `on_write` returned true are unreachable |
| `Http1Handler.Connector.WriteDone` | src/connector.h:257-282 | A write that went well acknowledges and starts the next; one that failed stops the connector and fails its feedbacks; one that was cancelled, because the connector had stopped, only fails its feedbacks |
| `Http1Handler.Handler.OnWrite` | src/protocol/handler_http1.h:218-230 | Hands over the serialisation whole and leaves none |
| `Http1Handler.Handler.PollLocal` | src/protocol/handler_http1.h:338-366 | Takes everything the front response offers, in the order headers, body, trailers, end, terminates, and says whether the response has ended |
| `Http1Handler.Handler.NotifyLocalContent` | src/protocol/handler_http1.h:304-325 | Sends what every response at the front has to offer; afterwards the queue is empty or its front offers nothing; terminates |
| `Http1Handler.Handler.Open` | src/protocol/handler_http1.h:51-63 | A new request gets a response at the end of the queue |
| `Http1Handler.Handler.Say` | src/http/server/response.cpp:8-31 | A call on any listed response is stored and sent as far as its turn has come, and keeps the invariant of all runs |
| `Http1Handler.Handler.Close` | src/protocol/handler_http1.h:235-242 | A close by the user drops every response and stops the connector; pending feedbacks are not given |
| `Http1Handler.Handler.OnConnectorNulled` | src/protocol/handler_http1.h:287-300 | Unless the user closed, pending feedbacks are given as failures and every response is dropped |
| `Http1Handler.LocalResponse.GetState` | src/http/server/response.cpp:60-74 | What is offered next: headers before body before trailers before the end |
| `TimerMultiplexer.GCD` | src/http/client/client_connection_multiplexer.cpp:16-24 | The loop computes the greatest common divisor |
| `TimerMultiplexer.Multiplexer.Rescale` | src/http/client/client_connection_multiplexer.cpp:33-44 | After any registrations the interval is the greatest common divisor of all durations asked for; elapsed time, first duration and largest duration, counted in ticks, are unchanged by the rescaling |
| `TimerMultiplexer.Multiplexer.UpdateTimeout` | src/http/client/client_connection_multiplexer.cpp:33-62 | Every listed live handler keeps the first duration registered while it was listed, whoever registered it, and nothing it was called for changes |
| `TimerMultiplexer.Multiplexer.Timeout` | src/http/client/client_connection_multiplexer.cpp:64-78 | One tick: a live handler is called exactly when the elapsed time is a multiple of its duration, and stays listed; afterwards the front is live, or the list is empty and the timer disarmed |
| `TimerMultiplexer.Multiplexer.ClearExpired` | src/http/client/client_connection_multiplexer.cpp:81-88 | Drops exactly the leading run of handlers that are gone: the new front is live; the timer is disarmed when none is left and armed as before otherwise |
| `TimerMultiplexer.TickCoincides` | src/http/client/client_connection_multiplexer.cpp:71-71 | Counting ticks modulo the period is testing multiples of the duration, through every rescaling |
| `TimerMultiplexer.NoneIsSkipped` | src/http/client/client_connection_multiplexer.cpp:64-78 | No multiple of a duration falls between two ticks |
| `TimerMultiplexer.CountersAreSmall` | src/http/client/client_connection_multiplexer.cpp:41-54 | No counter outgrows the time or duration that it counts, so rescaling cannot overflow first |
| `Calendar.FromToDays` | src/utils/date.h:2507-2523 | Every valid date comes back from its day number, negative years included |
| `Calendar.ToFromDays` | src/utils/date.h:2399-2413 | A day number comes back from its date if and only if its year fits the 16-bit year |
| `Calendar.ToDaysMeans` | src/utils/date.h:2399-2413 | The closed form in terms of era, year of era and day of year, with the annotated ranges and no unsigned wrap-around |
| `Calendar.CivilIsCalendar` | src/utils/date.h:2507-2523 | The closed form is the simple calendar: day 0 is 1970-01-01 and each day is followed by its successor under the leap-year rule and the table of month lengths |
| `Calendar.ToDaysIsExact` | src/utils/date.h:2399-2413 | For every date with a 16-bit year every value on the way to its day is that of the formula: none leaves its 32-bit type, signed or not |
| `Calendar.FromDaysIsExact` | src/utils/date.h:2507-2523 | For every day that an int holds, the first sum overflows if and only if the day is within 719468 of the largest; otherwise nothing leaves its type |
| `Calendar.WeekAdvances` | src/utils/date.h:1441-1445 | Weekdays follow one another modulo 7 through the epoch and before it; day 0 is a Thursday |
| `Calendar.DayFromWeekday` | src/utils/date.h:2686-2692 | Every day is found again from its weekday and index in the month |
| `Calendar.WeekdayFromDay` | src/utils/date.h:2670-2701 | An indexed weekday comes back from its day if and only if it is `ok` |
| `Calendar.MonthsAddUp` | src/utils/date.h:1820-1827 | Adding months counts months from year 0, whatever the sign, and always gives a month |
| `Calendar.MonthsCompose` | src/utils/date.h:1820-1827 | Months can be added one after another and taken back |
| `JsonText.ExtraSpace` | src/utils/json.hpp:5760-5798 | Exactly the number of octets by which escaping lengthens a string |
| `JsonText.EscapeString` | src/utils/json.hpp:5809-5913 | Filling the preallocated result in place never leaves it, fills every position, and gives the escaped text |
| `JsonText.EscapeInverse` | src/utils/json.hpp:8085-8186 | Every octet string survives escaping and reading back, and its escaped form is well-escaped text |
| `JsonText.Utf8Inverse` | src/utils/json.hpp:7151-7213 | Every number up to 0x10FFFF, surrogates included, and no other, is encoded, in the shortest form with lead and continuation octets as UTF-8 has them, and comes back |
| `JsonText.PairsAreExact` | src/utils/json.hpp:7151-7180 | A surrogate pair gives a code point between 0x10000 and 0x10FFFF that determines the pair |
| `JsonText.PairsAreAll` | src/utils/json.hpp:7151-7180 | Every such code point has a pair |
| `JsonEscapes.CodeEscape` | src/utils/json.hpp:8085-8186 | For every code up to 0xFFFF that is no high surrogate, and every spelling of it in four hexadecimal digits: the escape is read as the octets of that code |
| `JsonEscapes.PairEscape` | src/utils/json.hpp:8085-8186 | For every code from 0x10000 to 0x10FFFF: the escapes of its two surrogates are read as its octets |
| `JsonEscapes.LoneHigh` | src/utils/json.hpp:8085-8186 | A high surrogate that no escape follows is an error |
| `JsonEscapes.WrongLow` | src/utils/json.hpp:8085-8186 | So is one that is followed by the escape of anything but a low surrogate |
| `JsonEscapes.ShortEscape` | src/utils/json.hpp:8085-8186 | Each of the eight short escapes is read as its character |
| `JsonEscapes.EscapeMeans` | src/utils/json.hpp:5809-5913 | What is printed for every character: its short escape, for other control characters the escape of their number, and otherwise the character itself |
| `JsonEscapes.NoOtherEscape` | src/utils/json.hpp:7266-8028 | No character but these eight and "u" may stand behind a backslash |
| `JsonEscapes.NoOtherCode` | src/utils/json.hpp:7266-8028 | Behind "u" stand four hexadecimal digits |
| `JsonLayout.ArrayLines` | src/utils/json.hpp:5932-6083 | A pretty array is its elements, each on a line of its own and indented by the step more than its brackets |
| `JsonLayout.ObjectLines` | src/utils/json.hpp:5932-6083 | A pretty object is its members, laid out in the same way, with ": " behind each key |
| `JsonLayout.ArrayOnOneLine` | src/utils/json.hpp:5932-6083 | A compact array has nothing but commas between its elements |
| `JsonLayout.ObjectOnOneLine` | src/utils/json.hpp:5932-6083 | And a compact object nothing but a colon behind its keys |
| `JsonLexer.StringEndMeans` | src/utils/json.hpp:7266-8028 | The scanner accepts a string token exactly when it is well-escaped text up to the quote that ends it |
| `JsonNumbers.NumberIsToken` | src/utils/json.hpp:7266-8028 | Every number of the grammar, wherever it stands, is one token up to its end if the next character does not prolong it |
| `JsonNumbers.TokenIsNumber` | src/utils/json.hpp:7266-8028 | Every number token covers a number of the grammar |
| `JsonNumbers.NumberMeans` | src/utils/json.hpp:8310-8380 | What each number token stands for: an integer that fits 64 bits, signed or not, is that integer; any other number is kept as a float; digits behind a zero, or a dot behind an integer that does not fit, are an error |
| `JsonNumbers.BlankPassed` | src/utils/json.hpp:7266-8028 | White space between tokens, of any length, is passed over |
| `JsonRoundTrip.RoundTrip` | src/utils/json.hpp:5932-6083 | Every value without floats, printed compactly or at any indentation, parses to a value that compares equal to it; the value read differs only in that non-negative integers are unsigned |
| `JsonRoundTrip.RereadEqual` | src/utils/json.hpp:5212-5291 | Reading numbers back as unsigned is invisible to the comparison, in both directions |
| `JsonReader.Lexer.Scan` | src/utils/json.hpp:7266-8028 | The scanner with its cursor finds the next token and where it ends, for every text |
| `JsonReader.Lexer.GetString` | src/utils/json.hpp:8085-8186 | Unescaping a string token in a loop, with its errors for surrogates |
| `JsonReader.ParseText` | src/utils/json.hpp:8415-8650 | The recursive parser with its look-ahead token computes the parse that `JsonRoundTrip.RoundTrip` and `JsonObjects.ObjectIsMap` are about, errors included, for every text |
| `JsonObjects.ObjectIsMap` | src/utils/json.hpp:8426-8503 | For every object text that parses: the members are in the order of their keys, each key that is written stands once, and with the value that is written for it last |
| `JsonObjects.MapIsUnique` | src/utils/json.hpp:8496-8496 | The pairs that are written determine this list of members |
| `JsonObjects.ParsedIsMaps` | src/utils/json.hpp:8426-8503 | In every value that is read, all objects at every depth are maps |
| `BodyPump.Stream.OnBody` | src/http2/stream.cpp:243-249 | Queues the chunk at the end; what was queued is what was copied out and what remains |
| `BodyPump.Stream.BodyLength` | src/http2/stream.cpp:116-130 | The number of octets that remain; the subtraction never goes below zero |
| `BodyPump.EmptyMeans` | src/http2/stream.cpp:106-109 | Exactly when the emptiness test is right: nothing remains and at most one chunk is queued |
| `BodyPump.Stream.ReadServer` | src/http2/stream.cpp:142-190 | Conservation of the body for every frame length; deferred exactly when no end, no trailers and an empty body; the end flag comes with octets left over exactly when the body before the call is as long as the frame and the octets that fit from the first chunk together |
| `BodyPump.Stream.ReadClient` | src/http2/stream_client.cpp:140-186 | The same on the client, where the end flag comes too early exactly when the remainder before the copy equals the frame length and the first chunk is shorter |
| `BodyPump.ServerEndsTooSoon` | src/http2/stream.cpp:181-186 | A concrete body of two frames of which the server loses the second |
| `BodyPump.ClientEndsTooSoon` | src/http2/stream_client.cpp:155-160 | A concrete last frame in two chunks of which the client loses the second |
| `RingBuffer.ReusableBuffer.Reserve` | src/utils/reusable_buffer.h:46-49 | When the room is measured before the pointer is read: none of the reserved octets is unread, the region is inside the array, and it is empty exactly when the buffer is full |
| `RingBuffer.ReusableBuffer.ReservePointerFirst` | src/utils/reusable_buffer.h:46-49 | The other order of evaluation: the region is inside the array if and only if measuring does not move the pointer, that is unless an empty buffer has positions other than the start |
| `RingBuffer.PastTheEnd` | src/utils/reusable_buffer.h:46-49 | A concrete run in that order: one octet in, the octet out, and the next region of a buffer of two octets ends behind it |
| `RingBuffer.ReusableBuffer.Produce` | src/utils/reusable_buffer.h:51-66 | Refines a FIFO: octets that fit a reservation become unread behind the others, also across the wrap |
| `RingBuffer.ReusableBuffer.Consume` | src/utils/reusable_buffer.h:68-84 | Refines a FIFO: the octets up to the pointer leave from the front in the order they came; a pointer outside the run changes nothing, except one in front of the read position, for which the position moves back and the count wraps around |
| `RingBuffer.ReusableBuffer.AvailMem` | src/utils/reusable_buffer.h:16-30 | The contiguous room at the write position; the unread octets stay |
| `Base64.RoundTrip` | src/utils/base64.cpp:45-130 | Every octet string comes back from its encoding, of 4*ceil(n/3) characters, through the last group whose fillers are looked up and not found |
| `Base64.LettersAre` | src/utils/base64.cpp:33-36 | The 64 letters, in their order |
| `Base64.GroupMeans` | src/utils/base64.cpp:45-86 | A group of one to three octets is the number that they are in base 256, written in base 64 with these letters from the front, and fillers for the digits without octets |
| `Base64.Encode` | src/utils/base64.cpp:45-86 | The loop over groups of three computes the encoding |
| `Base64.Decode` | src/utils/base64.cpp:88-130 | The loop over groups of four computes the decoding, for every text |
| `StreamingStats.MeanMoves` | utils/measurement_convergence.py:22-24 | The update of the average is the mean of one value more |
| `StreamingStats.DeviationsMove` | utils/measurement_convergence.py:23-25 | The update of `m2` is the sum of squared deviations of one value more, around the new mean |
| `StreamingStats.Summarise` | utils/measurement_convergence.py:11-30 | For any interleaving of names, each average is the arithmetic mean and each `m2` the sum of squared deviations of exactly the values recorded for that name |

## Left out

- HttpParser.Parser.Execute: longer buffers, on which the 32-bit `nread` could wrap around; on an error the callbacks of the reference are only known up to the last data callback, which the source also drops when it jumps to its error label; on a header overflow nothing is said about the callbacks made before.
- Decoding.Decoder.Receive: nothing is said about the callbacks of a stream that the header limit stops, nor of those behind one that is objected to.
- Streams.ToldIsOwn: nothing is claimed of a stream that has both an illegal target and one that is cut; `Streams.StreamHeard` says what is told of it.
- Telling.MessageHeard: the owner is taken to give a message object of the kind that arrives and without entries or location of its own.
- RoundTrip.MessageOver: the octets of a tunnel behind a CONNECT request are read as the next message, as in the source, and have to be one.
- RoundTrip.ChunkedOver: at most one trailer, because with more the message is refused (`Trailers.AtMostOneTrailer`).
- UrlParser.FieldsAreSound: targets of more than 65535 octets wrap the 16-bit offsets; the model computes the wrapped values but nothing is claimed about them. `strtoul` is taken to stop at the end of the buffer.
- BodyPump.Stream.ReadServer: sessions, header and trailer frames of nghttp2 are foreign; the frame length is any number.
- Http1Handler.Connector.WriteDone: a write is only cancelled when the connector has stopped, because nothing else closes its socket.
- JsonText.Utf8Inverse: the code does not refuse surrogates, and their three octets are not UTF-8.
- Http1Handler.Handler.OnConnectorNulled: a connector that is gone is one that has stopped.
- The branch `send_continue` and everything about 100-continue; it can leave finished content unpolled.
- `_skip_next_header`, `ignore_content_len`, errors that the owner declares not fatal, and `decoding_failure`: they do not keep the stated invariants.
- Lifetimes, weak pointers and user callbacks: responses live as long as they are listed; sockets, deadlines and posting are single steps.
- `header()`, `remove_header`, `filter` and the other accessors of `http_structured_data`: a header map is given as its entries in order, with the flag `chunked()` beside it; what the object of a receiver makes of the entries, the version and the persistency it is given.
- The reading side of `handler_http1` (remote objects, `update_persistent`), which forwards what the codec tells it.
- Status-message tables, content types, logging, error strings: tables and plumbing.
- Floats, iterators, the container interface, parser callbacks and stream refill of the JSON library: floats are opaque text.
- Parsing and formatting of dates, `time_of_day`, the mutating operators: thin wrappers around the conversions.
- The second loop of the statistics script, and rounding: arithmetic is over the reals.
- 32-bit limits on the length of a base64 text and on the depth of JSON recursion.
