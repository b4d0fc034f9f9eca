/**
 The parser's data: its states, the C struct as a record, and the callbacks it
 makes as an event trace.
 */
module ParserTypes {
  const U64_MAX: nat := 0xFFFF_FFFF_FFFF_FFFF
  const MAX_HEADER_SIZE: nat := 80 * 1024

  datatype Option<+T> = None | Some(value: T)

  datatype Kind = Request | Response | Both

  datatype State =
    | Dead
    | StartReqOrRes | ResOrRespH
    | StartRes | ResH | ResHT | ResHTT | ResHTTP
    | ResFirstHttpMajor | ResHttpMajor | ResFirstHttpMinor | ResHttpMinor
    | ResFirstStatusCode | ResStatusCode | ResStatusStart | ResStatus | ResLineAlmostDone
    | StartReq | ReqMethod | ReqSpacesBeforeUrl
    | ReqSchema | ReqSchemaSlash | ReqSchemaSlashSlash
    | ReqServerStart | ReqServer | ReqServerWithAt
    | ReqPath | ReqQueryStringStart | ReqQueryString | ReqFragmentStart | ReqFragment
    | ReqHttpStart | ReqHttpH | ReqHttpHT | ReqHttpHTT | ReqHttpHTTP
    | ReqFirstHttpMajor | ReqHttpMajor | ReqFirstHttpMinor | ReqHttpMinor | ReqLineAlmostDone
    | HeaderFieldStart | HeaderField
    | HeaderValueDiscardWs | HeaderValueDiscardWsAlmostDone | HeaderValueDiscardLws
    | HeaderValueStart | HeaderValue | HeaderValueLws | HeaderAlmostDone
    | ChunkSizeStart | ChunkSize | ChunkParameters | ChunkSizeAlmostDone
    | HeadersAlmostDone | HeadersDone
    | ChunkData | ChunkDataAlmostDone | ChunkDataDone
    | BodyIdentity | BodyIdentityEof
    | MessageDone

  /** `PARSING_HEADER`: the states whose octets count towards the header limit. */
  predicate ParsingHeader(s: State) {
    !(s.ChunkData? || s.ChunkDataAlmostDone? || s.ChunkDataDone?
      || s.BodyIdentity? || s.BodyIdentityEof? || s.MessageDone?)
  }

  datatype HeaderState =
    | General | HC | HCO | HCON
    | MatchingConnection | MatchingProxyConnection | MatchingContentLength
    | MatchingTransferEncoding | MatchingUpgrade
    | HConnection | HContentLength | HTransferEncoding | HUpgrade
    | MatchingChunked
    | MatchingTokenStart | MatchingKeepAlive | MatchingClose | MatchingConnUpgrade | MatchingToken
    | HChunked | HKeepAlive | HClose | HConnUpgrade

  /** The `F_*` bits of `http_parser.flags`. */
  datatype Flags = Flags(
    chunked: bool, keepAlive: bool, close: bool, connUpgrade: bool,
    trailing: bool, upgrade: bool, skipBody: bool, contentLength: bool)

  const NO_FLAGS := Flags(false, false, false, false, false, false, false, false)

  datatype Errno =
    | Ok | InvalidEofState | HeaderOverflow | ClosedConnection | InvalidVersion | InvalidStatus
    | InvalidMethod | InvalidUrl | LfExpected | InvalidHeaderToken | InvalidContentLength
    | UnexpectedContentLength | InvalidChunkSize | InvalidConstant | Strict

  datatype Method =
    | DELETE | GET | HEAD | POST | PUT | CONNECT | OPTIONS | TRACE
    | COPY | LOCK | MKCOL | MOVE | PROPFIND | PROPPATCH | SEARCH | UNLOCK | BIND | REBIND | UNBIND | ACL
    | REPORT | MKACTIVITY | CHECKOUT | MERGE
    | MSEARCH | NOTIFY | SUBSCRIBE | UNSUBSCRIBE
    | PATCH | PURGE | MKCALENDAR | LINK | UNLINK

  function MethodString(m: Method): string {
    match m
    case DELETE => "DELETE" case GET => "GET" case HEAD => "HEAD" case POST => "POST" case PUT => "PUT"
    case CONNECT => "CONNECT" case OPTIONS => "OPTIONS" case TRACE => "TRACE" case COPY => "COPY"
    case LOCK => "LOCK" case MKCOL => "MKCOL" case MOVE => "MOVE" case PROPFIND => "PROPFIND"
    case PROPPATCH => "PROPPATCH" case SEARCH => "SEARCH" case UNLOCK => "UNLOCK" case BIND => "BIND"
    case REBIND => "REBIND" case UNBIND => "UNBIND" case ACL => "ACL" case REPORT => "REPORT"
    case MKACTIVITY => "MKACTIVITY" case CHECKOUT => "CHECKOUT" case MERGE => "MERGE"
    case MSEARCH => "M-SEARCH" case NOTIFY => "NOTIFY" case SUBSCRIBE => "SUBSCRIBE"
    case UNSUBSCRIBE => "UNSUBSCRIBE" case PATCH => "PATCH" case PURGE => "PURGE"
    case MKCALENDAR => "MKCALENDAR" case LINK => "LINK" case UNLINK => "UNLINK"
  }

  /** What the start line sets. */
  datatype StartLine = StartLine(kind: Kind, major: nat, minor: nat, status: nat, verb: Method)

  /** What the matchers of the header block and the length counters set. */
  datatype Matcher = Matcher(hs: HeaderState, index: nat, flags: Flags, contentLength: nat)

  /**
   `struct http_parser`, apart from `nread` (kept beside it by its users).
   `resets` stands for the callbacks' owner: when true, `on_message_complete`
   re-initialises the parser, as `http_codec::impl` does.
   */
  datatype Core = Core(
    state: State, line: StartLine, m: Matcher, upgrade: bool, lenient: bool, errno: Errno, resets: bool)

  /** `http_parser_init`: everything is zeroed (method 0 is DELETE). */
  function Init(kind: Kind, resets: bool): Core {
    Core(StartStateOf(kind), StartLine(kind, 0, 0, 0, DELETE), Matcher(General, 0, NO_FLAGS, 0),
         false, false, Ok, resets)
  }

  function StartStateOf(kind: Kind): State {
    match kind
    case Request => StartReq
    case Response => StartRes
    case Both => StartReqOrRes
  }

  /** The five marks of `http_parser_execute`, i.e. the five data callbacks. */
  datatype Mark = Field | Value | Url | Body | Status

  datatype Event =
    | Data(mark: Mark, text: string)
    | MessageBegin
    | HeadersComplete(line: StartLine, keepAlive: bool)
    | ChunkHeader(length: nat, isFinal: bool)
    | ChunkComplete(isFinal: bool)
    | MessageComplete

  /** Appends an event, concatenating data callbacks of the same kind. */
  function Emit(tr: seq<Event>, e: Event): seq<Event> {
    if EndsWith(tr, e) then tr[..|tr| - 1] + [Data(e.mark, tr[|tr| - 1].text + e.text)]
    else tr + [e]
  }

  /** True when `tr` ends in a data event that `e` continues. */
  predicate EndsWith(tr: seq<Event>, e: Event) {
    e.Data? && tr != [] && tr[|tr| - 1].Data? && tr[|tr| - 1].mark == e.mark
  }

  /** What one step of the C switch does besides changing the struct. */
  datatype Act =
    | Set(mark: Mark)      // MARK
    | Flush(mark: Mark)    // CALLBACK_DATA
    | Note(event: Event)   // CALLBACK_NOTIFY

  /** Result of one step: `clears` zeroes `nread`, `exits` leaves `http_parser_execute`. */
  datatype Out = Out(core: Core, acts: seq<Act>, clears: bool, exits: bool)
}
