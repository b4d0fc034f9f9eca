/**
 What becomes of a message whose flag `chunked()` and whose header lines do not say
 the same about its body: the encoder follows the flag, the parser the lines.
 */
module ChunkedFlag {
  import opened Ascii
  import opened ParserTypes
  import opened ParserStep
  import opened ParserMachine
  import opened ParserWords
  import opened FieldNames
  import opened FieldValues
  import opened HeaderLines
  import opened HttpEncoder
  import opened FirstLines
  import opened RoundTrip
  import opened Trailers
  import opened UntilClose

  lemma NoSize(m: Machine, ch: char)
    requires m.core.errno.Ok? && m.core.state.ChunkSizeStart? && Unhex(ch) == -1
    ensures Step(m, ch).core.errno == InvalidChunkSize
  {
    hide BodyStep, Interpret, Emit, Unhex;
    BodyTurn(m.core, m.jumped, ch);
    SizeStartFails(m.core, ch);
  }

  lemma SizeStartFails(c: Core, ch: char)
    requires c.state.ChunkSizeStart? && Unhex(ch) == -1
    ensures BodyStep(c, ch).core.errno == InvalidChunkSize
  {
    hide Unhex;
  }

  lemma RunStops(m: Machine, s: string)
    requires m.core.errno.Ok? && s != "" && !Step(m, s[0]).core.errno.Ok?
    ensures Run(m, s).m == Step(m, s[0])
  {
    hide Transition, Step;
  }

  /**
   The lines say "chunked" and the flag does not: the body goes out as it is, and is
   refused unless it happens to begin with a chunk size.
   */
  lemma BareBodyIsRefused(r: Message)
    requires Sendable(r) && r.chunked && r.trailer.None? && Concat(r.bodies) != "" && Unhex(Concat(r.bodies)[0]) == -1
    ensures
      r.first.minor < 10 && Run(Start(Both, true), TextOf(r.(chunked := false))).m.core.errno == InvalidChunkSize
  {
    SendableHead(r);
    hide Over, Transition, Step, Run, Head, HeadEvents, HeadMatcher, Sendable, Concat, BodiesText, CleanPairs,
      CleanLine, Lawful, Grouped, Unhex;
    var m, s, body := Start(Both, true), r.(chunked := false), Concat(r.bodies);
    var a := HeadOver(m, r);
    PlainBodies(r.bodies);
    assert Head(s) == Head(r) by { SameHead(r, s); }
    OverRun(m, Head(r), a, body);
    NoSize(a, body[0]);
    RunStops(a, body);
  }

  lemma SameHead(r: Message, s: Message)
    requires r.first == s.first && r.headers == s.headers && r.first.minor < 10
    ensures Head(r) == Head(s)
  {
  }

  /** Such a message: `icompare` does not take "chunked " for "chunked", the parser does. */
  const TRAILING_SPACE := Message(Reply(1, 200, "OK"), [("transfer-encoding", "chunked ")], true, ["x"], None)

  lemma CodingName()
    ensures CleanKey("transfer-encoding") && LowerName("transfer-encoding") == TRANSFER_ENCODING
    ensures !Begins(CONTENT_LENGTH, LowerName("transfer-encoding"))
  {
    var k := "transfer-encoding";
    assert forall i :: 0 <= i < |k| ==> IsToken(k[i]) && TokenLower(k[i]) == k[i];
    assert LowerName(k)[0] == 't' && CONTENT_LENGTH[0] == 'c';
  }

  lemma SpacedValue()
    ensures CleanValue("chunked ") && IsChunkedText("chunked ")
  {
    assert forall i :: 0 <= i < 8 ==> IsHeaderChar("chunked "[i]);
  }

  lemma TrailingSpaceIsRefused()
    ensures Sendable(TRAILING_SPACE)
    ensures Run(Start(Both, true), TextOf(TRAILING_SPACE.(chunked := false))).m.core.errno == InvalidChunkSize
  {
    hide Run, Head, IsToken, IsHeaderChar, IsChunkedText, CleanValue, CleanKey, LowerName;
    var r := TRAILING_SPACE;
    var ps := [("transfer-encoding", "chunked ")];
    OneEntry(ps[0]);
    CodingName();
    assert Fields(r) == ps;
    assert ps[1..] == [];
    SpacedValue();
    assert Concat(["x"]) == "x" + Concat(["x"][1..]) == "x";
    assert Sendable(r);
    BareBodyIsRefused(r);
  }

  lemma OneEntry(p: (string, string))
    requires p.1 != "" && p.1[0] != SP && p.1[0] != HT
    ensures Grouped([p]) == [p] == AsRead([p])
  {
    assert [p][..0] == [] && Grouped([]) == [];
    ReadOne(p);
    TrimmedExactly(p.1);
  }

  /**
   The flag is set and the lines say nothing: the receiver of a response reads on to
   the end of the connection, and takes the chunk framing for body.
   */
  lemma FramingIsBody(r: Message)
    requires Unframed(r.(chunked := false, trailer := None)) && r.chunked
    ensures
      var s := r.(chunked := false, bodies := [ChunkedText(r.bodies, r.trailer)], trailer := None);
      Unframed(s) && r.first.minor < 10 && TextOf(r) == LastText(s)
        && Concat(s.bodies) == ChunkedText(r.bodies, r.trailer)
  {
    hide CleanLine, CleanPairs, Lawful, SaysChunked, SaysLength, ChunkedText, Grouped, LineText, Lines,
      BlockMatcher, MayBeSilent;
    var text := ChunkedText(r.bodies, r.trailer);
    LineIsPlain(r.first);
    assert [text][1..] == [];
    assert Concat([text]) == text + Concat([]) == text;
    PlainBodies([text]);
  }
}
