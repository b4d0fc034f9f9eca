/**
 The chunked coding (section 4.1 of RFC 7230): what the encoder prints and what
 the parser makes of it.
 */
module ChunkedCoding {
  import opened Ascii
  import opened ParserTypes
  import opened ParserStep
  import opened ParserMachine
  import opened ParserRuns
  import opened ParserInvariant
  import opened ParserWords

  /** The largest string the implementation can hold. */
  const MAX_STRING: nat := 0x7FFF_FFFF_FFFF_FFFF

  function HexDigit(d: nat): char
    requires d < 16
  {
    if d < 10 then (d + '0' as int) as char else (d - 10 + 'a' as int) as char
  }

  /** `std::hex` output, as `utils::from` produces it. */
  function ToHex(n: nat): (s: string)
    ensures s != ""
  {
    if n < 16 then [HexDigit(n)] else ToHex(n / 16) + [HexDigit(n % 16)]
  }

  lemma HexDigitValue(d: nat)
    requires d < 16
    ensures Unhex(HexDigit(d)) == d && HexDigit(d) != CR
  {
  }

  /* ---- single octets -------------------------------------------------- */

  /** The machine as far as the body phase is concerned. */
  predicate InBodyAt(w: Machine, m: Machine, s: State, left: nat, tr: seq<Event>) {
    && w.core == m.core.(state := s, m := m.core.m.(contentLength := left))
    && w.trace == tr
  }

  lemma SizeFirst(m: Machine, d: nat)
    requires m.core.errno.Ok? && m.core.state.ChunkSizeStart? && d < 16
    ensures InBodyAt(Step(m, HexDigit(d)), m, ChunkSize, d, m.trace)
  {
    hide StartStep, StatusLineStep, UrlPhaseStep, RequestVersionStep, HeaderStep, HexDigit, Unhex;
    HexDigitValue(d);
  }

  lemma SizeNext(m: Machine, d: nat)
    requires m.core.errno.Ok? && m.core.state.ChunkSize? && d < 16
    requires m.core.m.contentLength <= (U64_MAX - 16) / 16
    ensures InBodyAt(Step(m, HexDigit(d)), m, ChunkSize, m.core.m.contentLength * 16 + d, m.trace)
  {
    hide StartStep, StatusLineStep, UrlPhaseStep, RequestVersionStep, HeaderStep, HexDigit, Unhex, AddToLength;
    HexDigitValue(d);
    AddToLengthExact(m.core.m, 16, d);
  }

  lemma SizeReturn(m: Machine)
    requires m.core.errno.Ok? && m.core.state.ChunkSize?
    ensures InBodyAt(Step(m, CR), m, ChunkSizeAlmostDone, m.core.m.contentLength, m.trace)
  {
    hide StartStep, StatusLineStep, UrlPhaseStep, RequestVersionStep, HeaderStep, Unhex, AddToLength;
  }

  lemma OneNote(tr: seq<Event>, e: Event)
    ensures Interpret(tr, [Note(e)] + [], None) == Emit(tr, e)
  {
    assert [Note(e)] + [] == [Note(e)];
    assert Interpret(tr, [Note(e)], None) == Interpret(Emit(tr, e), [], None);
  }

  lemma SizeFeed(m: Machine)
    requires m.core.errno.Ok? && m.core.state.ChunkSizeAlmostDone?
    ensures
      var n := m.core.m.contentLength;
      var w := Step(m, LF);
      && w.trace == m.trace + [ChunkHeader(n, false)] && w.hdr == 0
      && if n > 0 then w.core == m.core.(state := ChunkData)
         else w.core == m.core.(state := HeaderFieldStart, m := m.core.m.(flags := m.core.m.flags.(trailing := true)))
  {
    hide Transition, Step, Interpret;
    BodyTurn(m.core, m.jumped, LF);
    PlainStep(m, LF, OnChunkSizeAlmostDone(m.core, LF));
    OneNote(m.trace, ChunkHeader(m.core.m.contentLength, false));
  }

  lemma DataReturn(m: Machine)
    requires m.core.errno.Ok? && m.core.state.ChunkDataAlmostDone?
    ensures InBodyAt(Step(m, CR), m, ChunkDataDone, m.core.m.contentLength, m.trace)
  {
    hide Transition, Step;
    BodyTurn(m.core, m.jumped, CR);
    PlainStep(m, CR, OnChunkDataAlmostDone(m.core, CR));
    assert [Flush(Mark.Body)] + [] == [Flush(Mark.Body)];
    assert Interpret(m.trace, [Flush(Mark.Body)], None) == Interpret(m.trace, [], None);
  }

  lemma DataFeed(m: Machine)
    requires m.core.errno.Ok? && m.core.state.ChunkDataDone?
    ensures InBodyAt(Step(m, LF), m, ChunkSizeStart, m.core.m.contentLength, m.trace + [ChunkComplete(false)])
  {
    hide Transition, Step, Interpret;
    BodyTurn(m.core, m.jumped, LF);
    PlainStep(m, LF, OnChunkDataDone(m.core, LF));
    OneNote(m.trace, ChunkComplete(false));
  }

  /* ---- whole chunks --------------------------------------------------- */

  lemma {:induction false} HexOver(m: Machine, n: nat) returns (w: Machine)
    requires m.core.errno.Ok? && m.core.state.ChunkSizeStart? && n <= U64_MAX - 16
    ensures Over(m, ToHex(n), w) && InBodyAt(w, m, ChunkSize, n, m.trace)
    decreases n
  {
    hide Transition, Step, Over, HexDigit;
    if n < 16 {
      SizeFirst(m, n);
      OverOctet(m, HexDigit(n));
      w := Step(m, HexDigit(n));
    } else {
      var a := HexOver(m, n / 16);
      SizeNext(a, n % 16);
      OverThen(m, ToHex(n / 16), a, HexDigit(n % 16));
      w := Step(a, HexDigit(n % 16));
    }
  }

  /** A chunk-size line, up to the callback that announces the chunk. */
  lemma SizeLineOver(m: Machine, n: nat) returns (w: Machine)
    requires m.core.errno.Ok? && m.core.state.ChunkSizeStart? && n <= U64_MAX - 16
    ensures Over(m, ToHex(n) + CRLF, w) && w.trace == m.trace + [ChunkHeader(n, false)] && w.hdr == 0
    ensures w.core == if n > 0 then m.core.(state := ChunkData, m := m.core.m.(contentLength := n))
      else m.core.(state := HeaderFieldStart,
                   m := m.core.m.(contentLength := 0, flags := m.core.m.flags.(trailing := true)))
  {
    hide Transition, Step, Over, HexDigit;
    var a := HexOver(m, n);
    SizeReturn(a);
    OverThen(m, ToHex(n), a, CR);
    var b := Step(a, CR);
    SizeFeed(b);
    OverThen(m, ToHex(n) + [CR], b, LF);
    w := Step(b, LF);
    assert ToHex(n) + [CR] + [LF] == ToHex(n) + CRLF;
  }

  lemma {:induction false} DataOver(m: Machine, s: string) returns (w: Machine)
    requires m.core.errno.Ok? && CanTake(m.core, |s|) && s != ""
    ensures Over(m, s, w) && w == Taken(m, s)
    decreases |s|
  {
    hide Transition, Step, Over, TakenCore, Emit;
    BodyOctet(m, s[0]);
    TakenOk(m.core, 1);
    OverOctet(m, s[0]);
    w := Step(m, s[0]);
    if |s| == 1 {
      assert s == [s[0]];
    } else {
      assert s == [s[0]] + s[1..];
      TakenTwice(m, [s[0]], s[1..]);
      var x := w;
      w := DataOver(x, s[1..]);
      OverTrans(m, [s[0]], x, s[1..], w);
    }
  }

  /** The text of one chunk. */
  function Chunk(d: string): string { ToHex(|d|) + CRLF + d + CRLF }

  function ChunkEvents(d: string): seq<Event> { [ChunkHeader(|d|, false), Data(Mark.Body, d), ChunkComplete(false)] }

  /** A chunk is reported as exactly its data, and leaves the parser ready for the next one. */
  lemma ChunkOver(m: Machine, d: string) returns (w: Machine)
    requires m.core.errno.Ok? && m.core.state.ChunkSizeStart? && 0 < |d| <= MAX_STRING
    ensures Over(m, Chunk(d), w) && InBodyAt(w, m, ChunkSizeStart, 0, m.trace + ChunkEvents(d))
  {
    hide Transition, Step, Over, ToHex;
    var a := SizeLineOver(m, |d|);
    var b := DataOver(a, d);
    OverTrans(m, ToHex(|d|) + CRLF, a, d, b);
    assert b.trace == a.trace + [Data(Mark.Body, d)];
    DataReturn(b);
    OverThen(m, ToHex(|d|) + CRLF + d, b, CR);
    var c := Step(b, CR);
    DataFeed(c);
    OverThen(m, ToHex(|d|) + CRLF + d + [CR], c, LF);
    w := Step(c, LF);
    assert ToHex(|d|) + CRLF + d + [CR] + [LF] == Chunk(d);
    assert m.trace + [ChunkHeader(|d|, false)] + [Data(Mark.Body, d)] + [ChunkComplete(false)]
      == m.trace + ChunkEvents(d);
  }
}
