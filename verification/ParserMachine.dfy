/**
 The octet-at-a-time parser: the reference against which the buffered
 `http_parser_execute` is proved.
 */
module ParserMachine {
  import opened ParserTypes
  import opened ParserStep

  /**
   `hdr` counts the header octets since the last reset of `nread`; `jumped` says
   that `memchr` is skipping the rest of a header value; `trace` is every
   callback made so far.
   */
  datatype Machine = Machine(core: Core, hdr: nat, jumped: bool, trace: seq<Event>)

  function Start(kind: Kind, resets: bool): Machine { Machine(Init(kind, resets), 0, false, []) }

  /** What the next call to `http_parser_execute` starts from. */
  function Resume(m: Machine): Machine { m.(jumped := false) }

  /** The mark set on entry of `http_parser_execute`, by state. */
  function OpenMark(s: State): Option<Mark> {
    if s.HeaderField? then Some(Field)
    else if s.HeaderValue? then Some(Value)
    else if InUrl(s) then Some(Mark.Url)
    else if s.ResStatus? then Some(Mark.Status)
    else None
  }

  /**
   The callbacks of one step whose octet is a fragment of its own, entered with
   the mark `k` set at that octet: every data callback is for no octet at all.
   */
  function Interpret(tr: seq<Event>, acts: seq<Act>, k: Option<Mark>): seq<Event>
    decreases |acts|
  {
    if acts == [] then tr
    else
      match acts[0]
      case Set(j) => Interpret(tr, acts[1..], if k.None? then Some(j) else k)
      case Flush(j) =>
        if k == Some(j) then Interpret(Emit(tr, Data(j, "")), acts[1..], None) else Interpret(tr, acts[1..], k)
      case Note(e) => Interpret(Emit(tr, e), acts[1..], k)
  }

  function Jumps(m: Machine, o: Out): bool {
    m.core.state.HeaderValue? && m.core.m.hs.General? && o.core.state.HeaderValue? && o.core.errno.Ok?
  }

  function After(m: Machine, ch: char, o: Out): Machine {
    var tr := Interpret(m.trace, o.acts, OpenMark(m.core.state));
    Machine(o.core,
            if o.clears then 0 else if ParsingHeader(m.core.state) then m.hdr + 1 else m.hdr,
            Jumps(m, o),
            match OpenMark(o.core.state)
              case Some(k) => if o.core.errno.Ok? then Emit(tr, Data(k, [ch])) else tr
              case None => tr)
  }

  function Step(m: Machine, ch: char): Machine { After(m, ch, Transition(m.core, m.jumped, ch)) }

  predicate Exits(m: Machine, ch: char) { Transition(m.core, m.jumped, ch).exits }

  /* ---- runs ----------------------------------------------------------- */

  /** `n` octets were consumed; on an error the octet at `n` is the offending one. */
  datatype Scanned = Scanned(m: Machine, n: nat)

  /** The reference for one call of `http_parser_execute`. */
  function Scan(m: Machine, data: string): (r: Scanned)
    ensures r.n <= |data|
    decreases |data|
  {
    hide Transition;
    if data == [] || !m.core.errno.Ok? then Scanned(m, 0)
    else
      var m' := Step(m, data[0]);
      if !m'.core.errno.Ok? then Scanned(m', 0)
      else if Exits(m, data[0]) then Scanned(m', 1)
      else
        var r := Scan(m', data[1..]);
        r.(n := r.n + 1)
  }

  /** The reference for a stream: like `Scan`, but going on where a call would have returned early. */
  function Run(m: Machine, data: string): (r: Scanned)
    ensures r.n <= |data| && (r.m.core.errno.Ok? ==> r.n == |data|)
    decreases |data|
  {
    hide Transition;
    if data == [] || !m.core.errno.Ok? then Scanned(m, 0)
    else
      var m' := Step(m, data[0]);
      if !m'.core.errno.Ok? then Scanned(m', 0)
      else
        var r := Run(m', data[1..]);
        r.(n := r.n + 1)
  }

  /** The states in which the end of the input is not an error. */
  predicate MayEnd(s: State) {
    s.Dead? || s.StartReqOrRes? || s.StartRes? || s.StartReq? || s.BodyIdentityEof?
  }

  /** The reference for a call with no octets, which signals the end of the input. */
  function AtEnd(m: Machine): Machine {
    if m.core.state.BodyIdentityEof? then
      Machine(if m.core.resets then Init(Both, true) else m.core, if m.core.resets then 0 else m.hdr, false,
              m.trace + [MessageComplete])
    else if MayEnd(m.core.state) then m
    else m.(core := m.core.(errno := InvalidEofState))
  }

  /* ---- invariant ------------------------------------------------------ */

  /** The word that a matcher state compares with, or "" when it compares nothing. */
  function Word(h: HeaderState): string {
    if h.MatchingConnection? then CONNECTION
    else if h.MatchingProxyConnection? then PROXY_CONNECTION
    else if h.MatchingContentLength? then CONTENT_LENGTH
    else if h.MatchingTransferEncoding? then TRANSFER_ENCODING
    else if h.MatchingUpgrade? || h.MatchingConnUpgrade? then UPGRADE
    else if h.MatchingChunked? then CHUNKED
    else if h.MatchingKeepAlive? then KEEP_ALIVE
    else if h.MatchingClose? then CLOSE
    else ""
  }

  /** Every field fits the width that the C struct gives it. */
  predicate LineFits(l: StartLine) { l.major <= 999 && l.minor <= 999 && l.status <= 999 }

  predicate MatcherFits(m: Matcher) { m.contentLength <= U64_MAX && m.index <= 20 }

  /** The matcher's position stays inside the word it is matching. */
  predicate Positioned(m: Matcher) {
    && (Word(m.hs) != "" ==> m.index < |Word(m.hs)| - 1)
    && (m.hs.HC? ==> m.index == 0) && (m.hs.HCO? ==> m.index == 1) && (m.hs.HCON? ==> m.index == 2)
    && (m.hs.MatchingTokenStart? ==> m.index == 0)
  }

  predicate FieldReady(m: Matcher) { FieldKnows(m.hs) && Positioned(m) }

  predicate ValueReady(m: Matcher) {
    ValueKnows(m.hs) && Positioned(m) && (m.hs.HContentLength? ==> m.contentLength < U64_MAX)
  }

  /** What the assertions of the C code rely on, state by state. */
  predicate Sound(c: Core) {
    if c.state.ReqMethod? then c.m.index <= |MethodString(c.line.verb)|
    else if c.state.HeaderField? then FieldReady(c.m)
    else if c.state.HeaderValue? then ValueReady(c.m)
    else if c.state.ChunkData? then c.m.flags.chunked && 0 < c.m.contentLength < U64_MAX
    else if c.state.ChunkDataAlmostDone? then c.m.flags.chunked && c.m.contentLength == 0
    else if c.state.ChunkSizeStart? || c.state.ChunkDataDone? then c.m.flags.chunked
    else if InChunk(c.state) then c.m.flags.chunked && c.m.contentLength < U64_MAX
    else c.state.BodyIdentity? ==> 0 < c.m.contentLength < U64_MAX
  }

  predicate EndsIn(tr: seq<Event>, k: Mark) { EndsWith(tr, Data(k, "")) }

  /** A resumed data callback continues the last event. */
  predicate Resumable(s: State, tr: seq<Event>) {
    && (OpenMark(s).Some? ==> EndsIn(tr, OpenMark(s).value))
    && (s.ChunkDataAlmostDone? ==> EndsIn(tr, Mark.Body))
  }

  predicate CoreInv(c: Core) { LineFits(c.line) && MatcherFits(c.m) && Sound(c) }

  predicate Inv(m: Machine) {
    && CoreInv(m.core)
    && (m.core.state.ChunkSizeStart? ==> m.hdr == 0)
    && Resumable(m.core.state, m.trace)
  }
}
