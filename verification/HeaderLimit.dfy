/**
 The header-size counter `nread`, exactly.  Each octet of a header block counts
 once, except that an octet on which a call ends inside the loop over a name or a
 value counts twice; and inside such a loop the limit is only checked at its end.
 */
module HeaderLimit {
  import opened Ascii
  import opened ParserTypes
  import opened ParserStep
  import opened ParserMachine
  import opened ParserRuns

  /** The octet is read by the loop over a field name or over a field value. */
  predicate InLoop(m: Machine, ch: char) {
    (m.core.state.HeaderField? && IsToken(ch)) || (m.core.state.HeaderValue? && ch != CR && ch != LF)
  }

  /** What `nread` exceeds the true count by, after an octet inside a call. */
  function Carried(m: Machine, over: nat, ch: char): nat {
    if Transition(m.core, m.jumped, ch).clears then 0 else over
  }

  function Limited(n: nat, over: nat): Option<nat> { if n > MAX_HEADER_SIZE then None else Some(over) }

  /* ---- one call ------------------------------------------------------- */

  /**
   What a call of `http_parser_execute` makes of the limit: `None` when it is
   exceeded, otherwise what `nread` exceeds the true count by afterwards.  `over`
   is that excess now, and `inside` says that the octet before was read by the loop
   that may read this one.
   */
  function Meter(m: Machine, over: nat, inside: bool, data: string): Option<nat>
    decreases |data|, 1
  {
    if data == "" || !m.core.errno.Ok? then Some(over)
    else if ParsingHeader(m.core.state) && !(inside && InLoop(m, data[0]))
      && m.hdr + over + 1 > MAX_HEADER_SIZE then None
    else Beyond(m, over, data)
  }

  /** The same, when the octet to be read has been counted and is within the limit. */
  function Beyond(m: Machine, over: nat, data: string): Option<nat>
    requires data != ""
    decreases |data|, 0
  {
    hide Transition;
    var ch, w := data[0], Step(m, data[0]);
    if !w.core.errno.Ok? || Exits(m, ch) then Some(Carried(m, over, ch))
    else if |data| == 1 && InLoop(m, ch) then Limited(m.hdr + over + 2, over + 1)
    else Meter(w, Carried(m, over, ch), InLoop(m, ch), data[1..])
  }

  /** The same inside a loop, which counts its octets when it ends. */
  function Loop(m: Machine, over: nat, entered: bool, data: string): Option<nat> {
    if data == "" then Limited(m.hdr + over + 1, over + 1)
    else if entered then Meter(m, over, true, data)
    else Beyond(m, over, data)
  }

  lemma LoopPlain(m: Machine, ch: char)
    requires m.core.errno.Ok? && InLoop(m, ch) && Step(m, ch).core.errno.Ok?
    ensures !Exits(m, ch) && !Transition(m.core, m.jumped, ch).clears && Step(m, ch).hdr == m.hdr + 1
    ensures Step(m, ch).core.state == m.core.state && ParsingHeader(m.core.state)
  {
    hide FieldByte, ValueByte, IsHeaderChar, IsToken;
    if m.core.state.HeaderField? {
      if FieldByte(m.core.m, ch).errno.Ok? { FieldOctet(m, ch); } else { FieldOctetFails(m, ch); }
    } else {
      if ValueAccepts(m, ch) { ValueOctet(m, ch); } else { ValueOctetFails(m, ch); }
    }
  }

  lemma LoopIsBeyond(m: Machine, over: nat, entered: bool, data: string)
    requires m.core.errno.Ok? && data != "" && InLoop(m, data[0])
    ensures Loop(m, over, entered, data) == Beyond(m, over, data)
  {
    hide Beyond, InLoop;
  }

  /** One more octet of the loop. */
  lemma LoopStep(m: Machine, over: nat, entered: bool, data: string)
    requires m.core.errno.Ok? && data != "" && InLoop(m, data[0])
    ensures
      var w := Step(m, data[0]);
      if w.core.errno.Ok? then Loop(m, over, entered, data) == Loop(w, over, true, data[1..])
      else Loop(m, over, entered, data).Some?
  {
    LoopIsBeyond(m, over, entered, data);
    hide Transition, Step, Exits, InLoop, Meter;
    if Step(m, data[0]).core.errno.Ok? { LoopPlain(m, data[0]); }
  }

  /** The octet that ends the loop is counted with those before it. */
  lemma LoopStops(m: Machine, over: nat, data: string)
    requires m.core.errno.Ok? && data != "" && !InLoop(m, data[0]) && ParsingHeader(m.core.state)
    ensures Loop(m, over, true, data) == if m.hdr + over + 1 > MAX_HEADER_SIZE then None else Beyond(m, over, data)
  {
    hide Beyond;
  }

  /** A stretch that `memchr` jumps over. */
  lemma {:induction false} LoopJump(m: Machine, over: nat, entered: bool, data: string, p: nat, q: nat)
    requires m.core.errno.Ok? && m.core.state.HeaderValue? && m.core.m.hs.General?
    requires p < q <= |data| && NoLineEnd(data, p, q)
    requires m.core.lenient || m.jumped || IsHeaderChar(data[p])
    ensures Loop(m, over, entered, data[p..]) == Loop(Jumped(m, data[p..q]), over, true, data[q..])
    decreases q - p
  {
    hide Transition, Step, Exits, Loop, Emit;
    ValueOctet(m, data[p]);
    LoopStep(m, over, entered, data[p..]);
    assert data[p..][1..] == data[p + 1..];
    var w := Step(m, data[p]);
    assert w == Jumped(m, [data[p]]);
    if q == p + 1 {
      assert data[p..q] == [data[p]];
    } else {
      assert data[p..q] == [data[p]] + data[p + 1..q];
      LoopJump(w, over, true, data, p + 1, q);
      EmitExtend(m.trace, Value, [data[p]], data[p + 1..q]);
    }
  }

  /** Past the limit, the loop over a value can only end in an overflow. */
  lemma {:induction false} LoopPastLimit(m: Machine, over: nat, data: string)
    requires m.core.errno.Ok? && m.core.state.HeaderValue? && m.core.m.hs.General? && m.jumped
    requires m.hdr + over + 1 > MAX_HEADER_SIZE
    ensures Loop(m, over, true, data).None?
    decreases |data|
  {
    hide Transition, Step, Exits, Emit, IsHeaderChar;
    if data != "" {
      if data[0] == CR || data[0] == LF {
        hide Beyond;
        LoopStops(m, over, data);
      } else {
        ValueOctet(m, data[0]);
        LoopStep(m, over, true, data);
        LoopPastLimit(Step(m, data[0]), over, data[1..]);
      }
    }
  }

  /** A stretch of body that does not complete its message. */
  lemma {:induction false} MeterBody(m: Machine, over: nat, data: string, p: nat, q: nat)
    requires m.core.errno.Ok? && p < q <= |data| && CanTake(m.core, q - p)
    ensures Meter(m, over, false, data[p..]) == Meter(Taken(m, data[p..q]), over, false, data[q..])
    decreases q - p
  {
    hide Transition, Step, Exits, TakenCore, Meter, Beyond, Carried, Emit;
    BodyOctet(m, data[p]);
    BodyCarries(m, over, data[p]);
    StreamsPlainly(m.core, data[p]);
    var w := Step(m, data[p]);
    TakenOk(m.core, 1);
    MeterHere(m, over, data[p..]);
    BeyondOutside(m, over, data[p..]);
    assert data[p..][1..] == data[p + 1..];
    if q == p + 1 {
      assert data[p..q] == [data[p]];
    } else {
      assert data[p..q] == [data[p]] + data[p + 1..q];
      TakenTwice(m, [data[p]], data[p + 1..q]);
      MeterBody(w, over, data, p + 1, q);
    }
  }

  lemma BodyCarries(m: Machine, over: nat, ch: char)
    requires m.core.errno.Ok? && CanTake(m.core, 1)
    ensures Carried(m, over, ch) == over && !InLoop(m, ch)
  {
    StreamsPlainly(m.core, ch);
    hide Transition, TakenCore, BodyStep;
    BodyOut(m.core, ch);
    BodyTurn(m.core, m.jumped, ch);
  }

  /** The octet at the head of the main loop: counted, and checked at once. */
  lemma MeterHere(m: Machine, over: nat, data: string)
    requires m.core.errno.Ok? && data != ""
    ensures
      Meter(m, over, false, data) ==
        if ParsingHeader(m.core.state) && m.hdr + over + 1 > MAX_HEADER_SIZE then None else Beyond(m, over, data)
  {
    hide Beyond, InLoop;
  }

  /** An octet outside the loops. */
  lemma BeyondOutside(m: Machine, over: nat, data: string)
    requires data != "" && !InLoop(m, data[0])
    ensures
      var w := Step(m, data[0]);
      Beyond(m, over, data) ==
        if !w.core.errno.Ok? || Exits(m, data[0]) then Some(Carried(m, over, data[0]))
        else Meter(w, Carried(m, over, data[0]), false, data[1..])
  {
    hide Transition, Step, Exits, Carried, InLoop;
  }

  /** A jump under way is none of the counter's business when a line end comes. */
  lemma BeyondForgets(m: Machine, over: nat, data: string)
    requires m.core.errno.Ok? && m.core.state.HeaderValue? && data != "" && (data[0] == CR || data[0] == LF)
    ensures Beyond(m, over, data) == Beyond(Resume(m), over, data)
  {
    SameLineEnd(m, data[0]);
    SameClears(m, data[0]);
    hide Transition, Step, Exits, Meter;
  }

  lemma SameClears(m: Machine, ch: char)
    requires m.core.state.HeaderValue? && (ch == CR || ch == LF)
    ensures Transition(m.core, m.jumped, ch) == Transition(m.core, false, ch)
  {
    hide StartStep, StatusLineStep, UrlPhaseStep, RequestVersionStep, BodyStep, ValueByte;
  }

  /** The largest number of header octets counted while scanning `data`. */
  function Peak(m: Machine, data: string): nat
    decreases |data|
  {
    hide Transition;
    if data == [] || !m.core.errno.Ok? then 0
    else
      var m' := Step(m, data[0]);
      var here := if ParsingHeader(m.core.state) then m.hdr + 1 else 0;
      var rest := if m'.core.errno.Ok? then Peak(m', data[1..]) else 0;
      if here > rest then here else rest
  }

  lemma PeakHere(m: Machine, data: string, p: nat)
    requires m.core.errno.Ok? && p < |data| && ParsingHeader(m.core.state)
    ensures Peak(m, data[p..]) >= m.hdr + 1
  {
    hide Transition, Step, Exits;
  }

  lemma ExitIsOutside(m: Machine, ch: char)
    requires m.core.errno.Ok? && Exits(m, ch) && Step(m, ch).core.errno.Ok?
    ensures !InLoop(m, ch)
  {
    hide Transition, Step, InLoop;
    if InLoop(m, ch) { LoopPlain(m, ch); }
  }

  /** A call that succeeds has kept every true count within the limit. */
  lemma {:induction false} WithinLimit(m: Machine, over: nat, inside: bool, data: string)
    requires Meter(m, over, inside, data).Some? && Scan(m, data).m.core.errno.Ok?
    ensures Peak(m, data[..Scan(m, data).n]) <= MAX_HEADER_SIZE
    decreases |data|
  {
    hide Transition, Step, ParsingHeader, InLoop, Carried;
    if data != "" && m.core.errno.Ok? {
      var ch, w, n := data[0], Step(m, data[0]), Scan(m, data).n;
      assert data[..n][0] == ch;
      if Exits(m, ch) {
        ExitIsOutside(m, ch);
        assert data[..n][1..] == "";
      } else {
        var rest := data[1..];
        assert data[..n][1..] == rest[..n - 1];
        if InLoop(m, ch) { LoopPlain(m, ch); }
        if rest != "" {
          WithinLimit(w, Carried(m, over, ch), InLoop(m, ch), rest);
          if InLoop(m, ch) {
            assert n >= 2;
            assert rest[..n - 1][0..] == rest[..n - 1];
            PeakHere(w, rest[..n - 1], 0);
          }
        }
      }
    }
  }
}
