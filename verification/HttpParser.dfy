/**
 `http_parser_execute` itself: one pass over a buffer, with inner loops over
 header text, `memchr` jumps, bulk body copies, marks and the header-size
 counter, proved against the octet-at-a-time reference of `ParserMachine`.
 */
module HttpParser {
  import opened Ascii
  import opened ParserTypes
  import opened ParserStep
  import opened ParserMachine
  import opened ParserInvariant
  import opened ParserCallbacks
  import opened ParserRuns
  import opened ParserMarks
  import opened HeaderLimit
  import opened ParserCalls

  /** `nread` is kept in 32 bits. */
  const U32: nat := 0x1_0000_0000

  /** The longest buffer in which the counter cannot wrap around. */
  const MAX_BUFFER: nat := U32 - 1 - MAX_HEADER_SIZE

  function Min(a: nat, b: nat): nat { if a < b then a else b }

  /** `memchr(data + from, ch, limit)`: the first position of `ch`, or -1. */
  method MemChr(data: string, from: nat, limit: nat, ch: char) returns (i: int)
    requires from + limit <= |data|
    ensures i == -1 || from <= i < from + limit
    ensures i == -1 ==> forall j :: from <= j < from + limit ==> data[j] != ch
    ensures i != -1 ==> data[i] == ch && forall j :: from <= j < i ==> data[j] != ch
  {
    i := from;
    while i < from + limit
      invariant from <= i <= from + limit
      invariant forall j :: from <= j < i ==> data[j] != ch
    {
      if data[i] == ch { return; }
      i := i + 1;
    }
    i := -1;
  }

  /** The first line end within `limit` octets; when there is none, the end of the buffer. */
  method LineEnd(data: string, from: nat, limit: nat) returns (found: bool, to: nat)
    requires from + limit <= |data|
    ensures if found then from <= to < from + limit && (data[to] == CR || data[to] == LF) else to == |data|
    ensures NoLineEnd(data, from, if found then to else from + limit)
  {
    var cr := MemChr(data, from, limit, CR);
    var lf := MemChr(data, from, limit, LF);
    found := cr != -1 || lf != -1;
    to := if cr != -1 then (if lf != -1 && cr >= lf then lf else cr) else if lf != -1 then lf else |data|;
  }

  class Parser {
    var core: Core
    var nread: nat
    /** The callbacks of the latest call, in order. */
    var calls: seq<Event>
    /** Every callback made so far, adjacent data callbacks of one kind concatenated. */
    ghost var trace: seq<Event>
    /** The five mark pointers; all null between calls. */
    var marks: Marks
    /** The reference, octet by octet. */
    ghost var model: Machine
    /** What `nread` exceeds the true count by: the calls since its last reset that ended inside a name or a value. */
    ghost var over: nat

    ghost predicate Valid()
      reads this
    {
      && marks == map[]
      && (core.errno.Ok? ==>
            && Inv(model) && model.core == core && model.trace == trace && !model.jumped
            && nread == model.hdr + over <= MAX_HEADER_SIZE
            && (core.state.ChunkSizeStart? ==> nread == 0))
    }

    /**
     Inside a call that began in `first`: the octets before `p` are processed, and
     `ahead` more are counted.
     */
    ghost predicate Running(data: string, p: nat, first: Machine, ahead: nat)
      reads this
    {
      && p <= |data| && core.errno.Ok? && model.core == core && Inv(model)
      && Leads(first, data, 0, model, p)
      && nread == model.hdr + over + ahead <= MAX_HEADER_SIZE
      && (core.state.ChunkSizeStart? ==> nread == ahead)
      && Pending(marks, trace, model, data, p)
      && (forall m :: m in marks ==> marks[m] <= p)
      && trace == EmitAll(first.trace, calls) && Apart(calls, marks, core.state)
    }

    /** At the head of the main loop; `fate` is what the header limit makes of the call. */
    ghost predicate AtHead(data: string, p: nat, first: Machine, fate: Option<nat>)
      reads this
    {
      && Running(data, p, first, 0) && (p < |data| ==> !model.jumped)
      && fate == Meter(model, over, false, data[p..])
    }

    /** After the counting of the octet at `p`. */
    ghost predicate Counted(data: string, p: nat, first: Machine, fate: Option<nat>)
      reads this
    {
      && p < |data| && Running(data, p, first, if ParsingHeader(core.state) then 1 else 0) && !model.jumped
      && fate == Beyond(model, over, data[p..])
    }

    /** How a call ends early: because the header is too long, or as the reference does. */
    ghost predicate Failed(data: string, p: nat, first: Machine, fate: Option<nat>)
      reads this
    {
      var r := Scan(first, data);
      && marks == map[] && !core.errno.Ok? && trace == EmitAll(first.trace, calls)
      && if fate.None? then core.errno.HeaderOverflow?
         else core.errno == r.m.core.errno && p == r.n && Lags(trace, r.m.trace)
    }

    /** How a call ends well, having consumed `n` octets. */
    ghost predicate Succeeded(data: string, n: nat, first: Machine, fate: Option<nat>)
      reads this
    {
      var r := Scan(first, data);
      && Valid() && core.errno.Ok? && n == r.n && model == Resume(r.m) && fate == Some(over)
      && trace == EmitAll(first.trace, calls) && Single(calls)
    }

    constructor (kind: Kind, resets: bool)
      ensures Valid() && core == Init(kind, resets) && model == Start(kind, resets) && trace == []
      ensures nread == over == 0
    {
      core, nread, calls, marks := Init(kind, resets), 0, [], map[];
      trace := [];
      model, over := Start(kind, resets), 0;
    }

    /** `http_parser_init`, as `http_codec::impl` calls it after an error; the history begins anew. */
    method Reset()
      modifies this
      ensures Valid() && core == Init(Both, true) && model == Start(Both, true) && over == 0
    {
      core, nread, calls, marks := Init(Both, true), 0, [], map[];
      model, over, trace := Start(Both, true), 0, [];
    }

    /** `MARK`, `CALLBACK_DATA` and `CALLBACK_NOTIFY`, in the order the state lists them. */
    method Callbacks(acts: seq<Act>, data: string, p: nat)
      requires p <= |data| && forall k :: k in marks ==> marks[k] <= p
      modifies this`trace, this`calls, this`marks
      ensures (trace, marks) == Perform(old(trace), old(marks), acts, data, p)
      ensures calls == old(calls) + Calls(old(marks), acts, data, p)
      ensures forall tr :: old(trace) == EmitAll(tr, old(calls)) ==> trace == EmitAll(tr, calls)
    {
      var i := 0;
      assert calls + Calls(marks, acts, data, p) == old(calls) + Calls(old(marks), acts, data, p);
      while i < |acts|
        invariant i <= |acts| && forall k :: k in marks ==> marks[k] <= p
        invariant Perform(trace, marks, acts[i..], data, p) == Perform(old(trace), old(marks), acts, data, p)
        invariant calls + Calls(marks, acts[i..], data, p) == old(calls) + Calls(old(marks), acts, data, p)
      {
        assert acts[i..][0] == acts[i] && acts[i..][1..] == acts[i + 1..];
        match acts[i] {
          case Set(k) => if k !in marks { marks := marks[k := p]; }
          case Flush(k) =>
            if k in marks {
              CallsMore(calls, Data(k, data[marks[k]..p]), Calls(marks - {k}, acts[i + 1..], data, p));
              calls := calls + [Data(k, data[marks[k]..p])];
              trace := Emit(trace, Data(k, data[marks[k]..p]));
              marks := marks - {k};
            }
          case Note(e) =>
            CallsMore(calls, e, Calls(marks, acts[i + 1..], data, p));
            calls := calls + [e];
            trace := Emit(trace, e);
        }
        i := i + 1;
      }
      assert calls + [] == calls;
      PerformCalls(old(trace), old(marks), acts, data, p);
      forall tr | old(trace) == EmitAll(tr, old(calls)) ensures trace == EmitAll(tr, calls) {
        EmitAllConcat(tr, old(calls), Calls(old(marks), acts, data, p));
      }
    }

    /** The switch on one octet, for the states that take octets one by one. */
    method Octet(data: string, p: nat, ghost first: Machine, ghost fate: Option<nat>) returns (exits: bool)
      requires Counted(data, p, first, fate) && !Streams(core.state)
      requires !InLoop(model, data[p])
      modifies this
      ensures core.errno.Ok? && !exits ==> AtHead(data, p + 1, first, fate)
      ensures core.errno.Ok? && exits ==> Succeeded(data, p + 1, first, fate)
      ensures !core.errno.Ok? ==> Failed(data, p, first, fate)
    {
      hide Transition, Inv, CoreInv, Pending, Perform, Leads, Scan, Lags, InOrder, Interpret, Meter, Beyond;
      InvAsserts(model);
      assert core.state.ChunkSizeStart? ==> nread == 1;
      assert InChunk(core.state) ==> core.m.flags.chunked;
      assert core.state.ChunkDataAlmostDone? ==> core.m.contentLength == 0;
      ScanHere(first, data, p, model);
      OctetPends(model, trace, marks, data, p);
      OctetApart(model, trace, calls, marks, data, p);
      StepKeepsInv(model, data[p]);
      StepClears(model, data[p]);
      LineEndLeaves(model, data[p]);
      OutsideLoop(model, over, data, p);
      var o := Transition(core, false, data[p]);
      Callbacks(o.acts, data, p);
      core := o.core;
      if o.clears { nread := 0; }
      exits := o.exits;
      over := Carried(model, over, data[p]);
      model := Step(model, data[p]);
      if !core.errno.Ok? { marks := map[]; }
      if core.errno.Ok? && exits { ExitPends(model, marks, trace, data, p + 1); }
    }

    /** `COUNT_HEADER_SIZE`; on an overflow the call ends at `p`. */
    method Count(n: nat)
      requires core.errno.Ok? && nread + n < U32
      modifies this`nread, this`core, this`marks
      ensures nread == old(nread) + n
      ensures if nread > MAX_HEADER_SIZE then core == old(core).(errno := HeaderOverflow) && marks == map[]
              else core == old(core) && marks == old(marks)
    {
      nread := (nread + n) % U32;
      if nread > MAX_HEADER_SIZE {
        core := core.(errno := HeaderOverflow);
        marks := map[];
      }
    }

    /** The count behind the inner loop over a name or a value, from `p` to `q`. */
    method CountText(k: Mark, data: string, p: nat, q: nat, ghost first: Machine, ghost fate: Option<nat>,
                     ghost before: Marks)
      requires p <= q <= |data| <= MAX_BUFFER && core.errno.Ok? && model.core == core && Inv(model)
      requires if k.Field? then core.state.HeaderField? else k.Value? && core.state.HeaderValue?
      requires Leads(first, data, 0, model, q) && (q < |data| ==> !model.jumped && !InLoop(model, data[q]))
      requires nread + (q - p) == model.hdr + over + 1 && nread <= MAX_HEADER_SIZE
      requires Pends(k, marks, trace, model.trace, data, q)
      requires trace == EmitAll(first.trace, calls) && Apart(calls, before, core.state)
      requires fate == Loop(model, over, q > p, data[q..])
      modifies this
      ensures core.errno.Ok? ==>
        core == old(core) && if q == |data| then AtHead(data, q, first, fate) else Counted(data, q, first, fate)
      ensures !core.errno.Ok? ==> Failed(data, q, first, fate)
    {
      hide Transition, Inv, Pends, Leads, Scan, Lags, Loop, Meter, Beyond, EmitAll, Apart, InLoop;
      MarksBelow(k, marks, trace, model.trace, data, q);
      TextApart(calls, before, marks, k, core.state);
      LoopEnds(model, over, q > p, data, q);
      Count(q - p);
      if q == |data| {
        over := over + 1;
        AllRead(model, over, data);
      }
    }

    /** The inner loop over a field name: from `p` to its end, to `q`. */
    method FieldText(data: string, p: nat, ghost first: Machine, ghost fate: Option<nat>) returns (q: nat)
      requires |data| <= MAX_BUFFER && Counted(data, p, first, fate) && core.state.HeaderField?
      modifies this
      ensures p <= q
      ensures core.errno.Ok? ==>
        if q == |data| then AtHead(data, q, first, fate)
        else Counted(data, q, first, fate) && core.state.HeaderField? && !IsToken(data[q])
      ensures !core.errno.Ok? ==> Failed(data, q, first, fate)
    {
      hide Transition, Inv, Pends, Leads, Scan, Lags, FieldByte, Loop, Meter, Beyond, EmitAll, Apart;
      ghost var h, n0, c0, t0 := model.hdr, nread, calls, trace;
      ghost var oldMarks := marks;
      q := p;
      LoopStarts(model, over, data, p);
      while q < |data| && IsToken(data[q])
        invariant p <= q <= |data| && core.errno.Ok? && core.state.HeaderField?
        invariant model.core == core && Inv(model) && !model.jumped
        invariant Leads(first, data, 0, model, q)
        invariant calls == c0 && trace == t0
        invariant nread == n0 && model.hdr == h + (q - p) && over == old(over)
        invariant Pends(Field, marks, trace, model.trace, data, q)
        invariant fate == Loop(model, over, q > p, data[q..])
      {
        FieldAdvances(first, model, marks, trace, data, q);
        FieldCounts(model, over, q > p, data, q);
        assert FieldKnows(core.m.hs);
        var r := FieldByte(core.m, data[q]);
        if r.errno != Ok {
          core := core.(errno := r.errno);
          marks := map[];
          return;
        }
        model := Text(model, Field, r, false, data[q]);
        core := core.(m := r.m);
        q := q + 1;
      }
      CountText(Field, data, p, q, first, fate, oldMarks);
    }

    /**
     The inner loop over a field value.  In the general state `memchr` jumps to
     the next line end, looking no further than the header limit.
     */
    method ValueText(data: string, p: nat, ghost first: Machine, ghost fate: Option<nat>) returns (q: nat)
      requires |data| <= MAX_BUFFER && Counted(data, p, first, fate) && core.state.HeaderValue?
      modifies this
      ensures p <= q
      ensures core.errno.Ok? ==>
        if q == |data| then AtHead(data, q, first, fate)
        else Counted(data, q, first, fate) && core.state.HeaderValue? && (data[q] == CR || data[q] == LF)
      ensures !core.errno.Ok? ==> Failed(data, q, first, fate)
    {
      hide Transition, Inv, Pends, Leads, Scan, Lags, ValueByte, IsHeaderChar, Emit, Loop, Meter, Beyond, EmitAll,
        Apart;
      ghost var h, n0, c0, t0 := model.hdr, nread, calls, trace;
      ghost var oldMarks := marks;
      q := p;
      LoopStarts(model, over, data, p);
      while q < |data| && data[q] != CR && data[q] != LF
        invariant p <= q <= |data| && core.errno.Ok? && core.state.HeaderValue?
        invariant model.core == core && Inv(model)
        invariant model.jumped ==> q == |data| || data[q] == CR || data[q] == LF
        invariant Leads(first, data, 0, model, q)
        invariant calls == c0 && trace == t0
        invariant nread == n0 && model.hdr == h + (q - p) && over == old(over)
        invariant Pends(Value, marks, trace, model.trace, data, q)
        invariant fate == Loop(model, over, q > p, data[q..])
      {
        ValueAdvances(first, model, marks, trace, data, q);
        ValueCounts(model, over, q > p, data, q);
        assert ValueKnows(core.m.hs);
        if !core.lenient && !IsHeaderChar(data[q]) {
          core := core.(errno := InvalidHeaderToken);
          marks := map[];
          return;
        }
        if core.m.hs.General? {
          var limit := Min(|data| - q, MAX_HEADER_SIZE);
          var found, to := LineEnd(data, q, limit);
          if !found && limit < |data| - q {
            // the jump to the end of the buffer is longer than the header limit
            JumpOverflows(model, over, q > p, data, q, q + limit);
            Count(to - p);
            q := to;
            return;
          }
          ValueJumps(first, model, marks, trace, data, q, to);
          LoopJump(model, over, q > p, data, q, to);
          model := Jumped(model, data[q..to]);
          q := to;
        } else {
          var r := ValueByte(core.m, data[q]);
          if r.errno != Ok {
            core := core.(errno := r.errno);
            marks := map[];
            return;
          }
          model := Text(model, Value, r, false, data[q]);
          core := core.(m := r.m);
          q := q + 1;
        }
      }
      if q < |data| {
        ForgetJump(first, model, data, q);
        LoopForgets(model, over, q > p, data, q);
        model := Resume(model);
      }
      CountText(Value, data, p, q, first, fate, oldMarks);
    }

    /** The callback for the last piece of a body. */
    method LastPiece(data: string, p: nat, q: nat, ghost before: seq<Event>)
      requires p < q <= |data| && trace == EmitAll(before, calls)
      modifies this`calls, this`trace, this`marks
      ensures calls == old(calls) + [Data(Mark.Body, data[p..q])] && marks == map[]
      ensures trace == Emit(old(trace), Data(Mark.Body, data[p..q])) == EmitAll(before, calls)
    {
      hide Emit;
      EmitAllConcat(before, calls, [Data(Mark.Body, data[p..q])]);
      EmitOne(trace, Data(Mark.Body, data[p..q]));
      marks := marks[Mark.Body := p];
      calls := calls + [Data(Mark.Body, data[marks[Mark.Body]..q])];
      trace := Emit(trace, Data(Mark.Body, data[p..q]));
      marks := map[];
    }

    /** `s_body_identity` with the whole rest of the body in the buffer, up to `q`. */
    method FinishBody(data: string, p: nat, q: nat, ghost first: Machine, ghost fate: Option<nat>) returns (exits: bool)
      requires Counted(data, p, first, fate) && core.state.BodyIdentity?
      requires p < q <= |data| && q - p == core.m.contentLength
      modifies this
      ensures core.errno.Ok?
      ensures if exits then Succeeded(data, q, first, fate) else AtHead(data, q, first, fate)
    {
      hide Transition, Inv, Leads, Scan, Emit, Lags, Perform, Pending, OnMessageDone, Meter, Beyond, EmitAll, Apart,
        Single, Calls;
      BodyFate(model, over, data, p, q);
      StreamsUnmarked(model, marks, trace, data, p);
      BodyApart(calls, marks, model.core.state, data[p..q], data, q - 1);
      BodyCompletes(first, model, data, p, q);
      core := BodyDone(core);
      LastPiece(data, p, q, first.trace);
      var o := OnMessageDone(core);
      Callbacks(o.acts, data, q - 1);
      model := Machine(o.core, if o.clears then 0 else model.hdr, false, trace);
      core := o.core;
      if o.clears { nread, over := 0, 0; }
      exits := o.exits;
      StartPends(model, data, q);
    }

    /** The three body states, which take as much of the buffer as belongs to them. */
    method BodyText(data: string, p: nat, ghost first: Machine, ghost fate: Option<nat>) returns (q: nat, exits: bool)
      requires Counted(data, p, first, fate) && Streams(core.state)
      modifies this
      ensures p < q <= |data| && core.errno.Ok?
      ensures if exits then Succeeded(data, q, first, fate) else AtHead(data, q, first, fate)
    {
      hide Transition, Inv, Leads, Scan, Emit, Lags, Pending, Taken, Meter, Beyond;
      StreamsUnmarked(model, marks, trace, data, p);
      InvSized(model);
      assert !core.state.BodyIdentityEof? ==> 0 < core.m.contentLength < U64_MAX;
      assert core.state.ChunkData? ==> core.m.flags.chunked;
      var toRead := if core.state.BodyIdentityEof? then |data| - p else Min(core.m.contentLength, |data| - p);
      q, exits := p + toRead, false;
      if core.state.BodyIdentity? && toRead == core.m.contentLength {
        exits := FinishBody(data, p, q, first, fate);
      } else {
        marks := marks[Mark.Body := p];
        StreamTaken(first, model, trace, data, p, q);
        BodyCounts(model, over, data, p, q);
        TakenFields(model, data[p..q]);
        model := Taken(model, data[p..q]);
        if !core.state.BodyIdentityEof? {
          core := core.(m := core.m.(contentLength := core.m.contentLength - toRead));
          if core.m.contentLength == 0 { core := core.(state := ChunkDataAlmostDone); }
        }
      }
    }

    /** A call with no octets. */
    method EndOfInput() returns (n: nat)
      requires Valid() && core.errno.Ok?
      modifies this
      ensures Valid() && model == AtEnd(old(model)) && core == model.core && trace == model.trace
      ensures n == if core.errno.Ok? then 0 else 1
    {
      n := 0;
      calls := [];
      model := AtEnd(model);
      if core.state.BodyIdentityEof? {
        calls := [MessageComplete];
        trace := trace + [MessageComplete];
        if core.resets {
          core := Init(Both, true);
          nread, over := 0, 0;
        }
      } else if !(core.state.Dead? || core.state.StartReqOrRes? || core.state.StartRes? || core.state.StartReq?) {
        core := core.(errno := InvalidEofState);
        n := 1;
      }
    }

    /** `http_parser_execute`: returns the number of octets consumed. */
    method Execute(data: string) returns (n: nat)
      requires Valid() && |data| <= MAX_BUFFER
      modifies this
      ensures Valid()
      ensures !old(core).errno.Ok? ==> n == 0 && core == old(core) && trace == old(trace) && calls == []
      ensures old(core).errno.Ok? && data == [] ==>
        model == AtEnd(old(model)) && core == model.core && trace == model.trace
      ensures old(core).errno.Ok? && data != [] ==>
        var fate := Meter(old(model), old(over), false, data);
        && (if core.errno.Ok? then Succeeded(data, n, old(model), fate) else Failed(data, n, old(model), fate))
        && (core.errno.Ok? ==> Peak(old(model), data[..n]) <= MAX_HEADER_SIZE)
    {
      hide Inv, Leads, Scan, Lags, Pending, Pends, Perform, Emit, AtEnd, OpenMark, ParsingHeader, Streams, IsToken,
        Meter, Beyond;
      n := 0;
      calls := [];
      if !core.errno.Ok? { return; }
      if data == [] {
        n := EndOfInput();
        return;
      }
      n := Read(data);
      if core.errno.Ok? { WithinLimit(old(model), old(over), false, data); }
    }

    /** The main loop. */
    method Read(data: string) returns (n: nat)
      requires Valid() && core.errno.Ok? && data != [] && |data| <= MAX_BUFFER
      modifies this
      ensures Valid()
      ensures
        var fate := Meter(old(model), old(over), false, data);
        if core.errno.Ok? then Succeeded(data, n, old(model), fate) else Failed(data, n, old(model), fate)
    {
      hide Inv, Leads, Scan, Lags, Pending, Pends, Perform, Emit, OpenMark, ParsingHeader, Streams, IsToken, Meter,
        Beyond, InLoop, EmitAll, Apart, Single, Calls, EndsInTarget;
      n := 0;
      ghost var first, fate := model, Meter(model, over, false, data);
      calls := [];
      marks := SetAt(OpenMark(core.state), 0);
      CallStarts(model, data);
      NothingCalled(trace, marks, core.state);
      assert data[0..] == data;
      while n < |data|
        invariant n <= |data| && AtHead(data, n, first, fate)
        decreases |data| - n
      {
        MeterHere(model, over, data[n..]);
        if ParsingHeader(core.state) {
          Count(1);
          if !core.errno.Ok? { return; }
        }
        if core.state.HeaderField? {
          n := FieldText(data, n, first, fate);
        } else if core.state.HeaderValue? {
          n := ValueText(data, n, first, fate);
        }
        if !core.errno.Ok? { return; }
        if n == |data| { break; }
        var exits;
        if Streams(core.state) {
          n, exits := BodyText(data, n, first, fate);
        } else {
          NotInLoop(model, data[n]);
          exits := Octet(data, n, first, fate);
          if !core.errno.Ok? { return; }
          n := n + 1;
        }
        if exits { return; }
      }
      HeldBack(data, first, fate);
    }

    /** The callbacks held back at the end of the buffer; at most one mark is set. */
    method HeldBack(data: string, ghost first: Machine, ghost fate: Option<nat>)
      requires AtHead(data, |data|, first, fate) && core.errno.Ok? && data != []
      modifies this
      ensures core.errno.Ok? && Succeeded(data, |data|, first, fate)
    {
      hide Inv, Leads, Scan, Lags, Pending, Pends, Perform, Emit, OpenMark, ParsingHeader, Meter, Beyond, InLoop,
        EmitAll, Apart, Single, Calls, EndsInTarget;
      AllRead(model, over, data);
      CallEnds(first, model, marks, trace, data);
      assert |marks| <= 1;
      ApartMeans(calls, marks, core.state);
      FlushedApart(calls, marks, [Flush(Field), Flush(Value), Flush(Mark.Url), Flush(Mark.Body), Flush(Mark.Status)],
        data, |data|);
      Callbacks([Flush(Field), Flush(Value), Flush(Mark.Url), Flush(Mark.Body), Flush(Mark.Status)], data, |data|);
      model := Resume(model);
    }
  }

  lemma CallsMore(calls: seq<Event>, e: Event, rest: seq<Event>)
    ensures calls + ([e] + rest) == calls + [e] + rest
  {
  }

  /* ---- the header limit ----------------------------------------------- */

  lemma OutsideLoop(m: Machine, over: nat, data: string, p: nat)
    requires m.core.errno.Ok? && p < |data| && !InLoop(m, data[p])
    ensures
      var w := Step(m, data[p]);
      Beyond(m, over, data[p..]) ==
        if !w.core.errno.Ok? || Exits(m, data[p]) then Some(Carried(m, over, data[p]))
        else Meter(w, Carried(m, over, data[p]), false, data[p + 1..])
  {
    hide Transition, Step, Exits, Carried, InLoop, Meter, Beyond;
    assert data[p..][0] == data[p] && data[p..][1..] == data[p + 1..];
    BeyondOutside(m, over, data[p..]);
  }

  lemma NotInLoop(m: Machine, ch: char)
    requires m.core.state.HeaderField? ==> !IsToken(ch)
    requires m.core.state.HeaderValue? ==> ch == CR || ch == LF
    ensures !InLoop(m, ch)
  {
  }

  lemma LoopStarts(m: Machine, over: nat, data: string, p: nat)
    requires p < |data|
    ensures Loop(m, over, false, data[p..]) == Beyond(m, over, data[p..])
  {
    hide Beyond, Meter;
  }

  /** At the end of a loop, before its octets are counted. */
  lemma LoopEnds(m: Machine, over: nat, entered: bool, data: string, q: nat)
    requires m.core.errno.Ok? && q <= |data| && (m.core.state.HeaderField? || m.core.state.HeaderValue?)
    requires q < |data| ==> !InLoop(m, data[q])
    ensures
      Loop(m, over, entered, data[q..]) ==
        if q == |data| then Limited(m.hdr + over + 1, over + 1)
        else if entered && m.hdr + over + 1 > MAX_HEADER_SIZE then None else Beyond(m, over, data[q..])
  {
    hide Beyond, Meter, InLoop;
    if q < |data| {
      assert data[q..][0] == data[q];
      LoopStops(m, over, data[q..]);
    } else {
      assert data[q..] == "";
    }
  }

  lemma FieldCounts(m: Machine, over: nat, entered: bool, data: string, q: nat)
    requires m.core.errno.Ok? && m.core.state.HeaderField? && q < |data| && IsToken(data[q])
    ensures
      var r := FieldByte(m.core.m, data[q]);
      if r.errno.Ok? then
        Loop(m, over, entered, data[q..])
        == Loop(Text(m, Field, r, false, data[q]), over, true, data[q + 1..])
      else Loop(m, over, entered, data[q..]).Some?
  {
    hide Transition, Step, Loop, FieldByte, IsToken, Emit;
    assert data[q..][0] == data[q] && data[q..][1..] == data[q + 1..];
    LoopStep(m, over, entered, data[q..]);
    if FieldByte(m.core.m, data[q]).errno.Ok? { FieldOctet(m, data[q]); } else { FieldOctetFails(m, data[q]); }
  }

  lemma ValueCounts(m: Machine, over: nat, entered: bool, data: string, q: nat)
    requires m.core.errno.Ok? && m.core.state.HeaderValue? && q < |data| && data[q] != CR && data[q] != LF
    ensures
      var r := ValueByte(m.core.m, data[q]);
      if ValueAccepts(m, data[q]) then
        Loop(m, over, entered, data[q..])
          == Loop(Text(m, Value, r, m.core.m.hs.General?, data[q]), over, true, data[q + 1..])
      else Loop(m, over, entered, data[q..]).Some?
  {
    hide Transition, Step, Loop, ValueByte, IsHeaderChar, Emit;
    assert data[q..][0] == data[q] && data[q..][1..] == data[q + 1..];
    LoopStep(m, over, entered, data[q..]);
    if ValueAccepts(m, data[q]) {
      ValueAcceptsOk(m, data[q]);
      ValueOctet(m, data[q]);
    } else {
      ValueOctetFails(m, data[q]);
    }
  }

  lemma ValueAcceptsOk(m: Machine, ch: char)
    requires ValueAccepts(m, ch)
    ensures ValueByte(m.core.m, ch).errno.Ok?
  {
  }

  /** A jump longer than the limit overflows it, wherever the value ends. */
  lemma JumpOverflows(m: Machine, over: nat, entered: bool, data: string, p: nat, q: nat)
    requires m.core.errno.Ok? && m.core.state.HeaderValue? && m.core.m.hs.General?
    requires p < q <= |data| && NoLineEnd(data, p, q) && q - p >= MAX_HEADER_SIZE
    requires m.core.lenient || m.jumped || IsHeaderChar(data[p])
    ensures Loop(m, over, entered, data[p..]).None?
  {
    hide Loop, Emit, IsHeaderChar;
    LoopJump(m, over, entered, data, p, q);
    LoopPastLimit(Jumped(m, data[p..q]), over, data[q..]);
  }

  lemma AllRead(m: Machine, over: nat, data: string)
    ensures Meter(m, over, false, data[|data|..]) == Some(over)
  {
    assert data[|data|..] == "";
  }

  lemma LoopForgets(m: Machine, over: nat, entered: bool, data: string, q: nat)
    requires m.core.errno.Ok? && m.core.state.HeaderValue? && q < |data| && (data[q] == CR || data[q] == LF)
    ensures !InLoop(m, data[q]) && !InLoop(Resume(m), data[q])
    ensures Loop(m, over, entered, data[q..]) == Loop(Resume(m), over, entered, data[q..])
  {
    hide Beyond, Meter, Loop, Resume;
    NoLoop(m, data[q]);
    NoLoop(Resume(m), data[q]);
    LoopEnds(m, over, entered, data, q);
    LoopEnds(Resume(m), over, entered, data, q);
    assert data[q..][0] == data[q];
    BeyondForgets(m, over, data[q..]);
  }

  lemma NoLoop(m: Machine, ch: char)
    requires m.core.state.HeaderValue? && (ch == CR || ch == LF)
    ensures !InLoop(m, ch) && Resume(m).core == m.core && Resume(m).hdr == m.hdr
  {
  }

  lemma BodyCounts(m: Machine, over: nat, data: string, p: nat, q: nat)
    requires m.core.errno.Ok? && p < q <= |data| && CanTake(m.core, q - p)
    ensures Beyond(m, over, data[p..]) == Meter(Taken(m, data[p..q]), over, false, data[q..])
  {
    hide Meter, Beyond, Taken;
    StreamsPlainly(m.core, data[p]);
    MeterHere(m, over, data[p..]);
    MeterBody(m, over, data, p, q);
  }

  /** The body of known length, to its end. */
  lemma BodyFate(m: Machine, over: nat, data: string, p: nat, q: nat)
    requires m.core.errno.Ok? && Inv(m) && m.core.state.BodyIdentity? && p < q <= |data|
      && q - p == m.core.m.contentLength
    ensures
      var o := OnMessageDone(BodyDone(m.core));
      var w := Machine(o.core, if o.clears then 0 else m.hdr, false,
                       Emit(Emit(m.trace, Data(Mark.Body, data[p..q])), MessageComplete));
      Beyond(m, over, data[p..]) ==
        if o.exits then Some(if o.clears then 0 else over)
        else Meter(w, if o.clears then 0 else over, false, data[q..])
  {
    hide Transition, Step, Exits, CoreInv, Emit, Taken, Meter, Beyond, Complete;
    var x := if q - 1 == p then m else Taken(m, data[p..q - 1]);
    assert data[p..q - 1] + [data[q - 1]] == data[p..q];
    StreamsPlainly(m.core, data[p]);
    if q - 1 > p {
      BodyCounts(m, over, data, p, q - 1);
      TakenSized(m, data[p..q - 1]);
    } else {
      assert data[p..q] == [data[q - 1]];
    }
    assert Beyond(m, over, data[p..]) == Beyond(x, over, data[q - 1..]) by {
      if q - 1 > p { MeterHere(x, over, data[q - 1..]); }
    }
    LastBodyOctet(x, data[q - 1]);
    LastCarries(x, over, data[q - 1]);
    CompleteState(BodyDone(m.core));
    EmitExtend(m.trace, Mark.Body, data[p..q - 1], [data[q - 1]]);
    OutsideLoop(x, over, data, q - 1);
  }

  lemma LastCarries(m: Machine, over: nat, ch: char)
    requires m.core.errno.Ok? && m.core.state.BodyIdentity? && m.core.m.contentLength == 1
    ensures Carried(m, over, ch) == (if OnMessageDone(BodyDone(m.core)).clears then 0 else over) && !InLoop(m, ch)
  {
    hide BodyStep, Complete;
    LastBodyOut(m.core, ch);
    BodyTurn(m.core, m.jumped, ch);
  }

  /* ---- one octet, one stretch ----------------------------------------- */

  /** The marks set on entry hold nothing back yet. */
  lemma CallStarts(m: Machine, data: string)
    requires Inv(m) && data != []
    ensures Leads(m, data, 0, m, 0)
    ensures Pending(SetAt(OpenMark(m.core.state), 0), m.trace, m, data, 0)
  {
    hide Scan, Transition;
    assert data[0..0] == "";
    if OpenMark(m.core.state).Some? { EmitNothing(m.trace, OpenMark(m.core.state).value); }
  }

  /** The callbacks left at the end of the buffer complete the reference's trace. */
  lemma CallEnds(first: Machine, m: Machine, marks: Marks, log: seq<Event>, data: string)
    requires m.core.errno.Ok? && Inv(m) && Leads(first, data, 0, m, |data|) && Pending(marks, log, m, data, |data|)
    requires forall k :: k in marks ==> marks[k] <= |data|
    ensures Scan(first, data) == Scanned(m, |data|) && |marks| <= 1
    ensures Perform(log, marks, [Flush(Field), Flush(Value), Flush(Mark.Url), Flush(Mark.Body), Flush(Mark.Status)],
                    data, |data|) == (m.trace, map[])
    ensures Inv(Resume(m))
  {
    hide Transition, CoreInv;
    assert data[0..] == data && data[|data|..] == "";
    var all := [Flush(Field), Flush(Value), Flush(Mark.Url), Flush(Mark.Body), Flush(Mark.Status)];
    if marks == map[] {
      FlushNone(log, all, data);
    } else {
      var k := if OpenMark(m.core.state).Some? then OpenMark(m.core.state).value else Mark.Body;
      assert marks == map[k := marks[k]];
      FlushAll(log, k, marks, all, data);
    }
  }

  lemma {:induction false} FlushNone(log: seq<Event>, acts: seq<Act>, data: string)
    requires forall i :: 0 <= i < |acts| ==> acts[i].Flush?
    ensures Perform(log, map[], acts, data, |data|) == (log, map[])
    decreases |acts|
  {
    if acts != [] { FlushNone(log, acts[1..], data); }
  }

  lemma {:induction false} FlushAll(log: seq<Event>, k: Mark, marks: Marks, acts: seq<Act>, data: string)
    requires k in marks && marks == map[k := marks[k]] && marks[k] <= |data|
    requires (forall i :: 0 <= i < |acts| ==> acts[i].Flush?) && Flush(k) in acts
    ensures Perform(log, marks, acts, data, |data|) == (Emit(log, Data(k, data[marks[k]..|data|])), map[])
    decreases |acts|
  {
    if acts[0].mark == k {
      assert marks - {k} == map[];
      FlushNone(Emit(log, Data(k, data[marks[k]..|data|])), acts[1..], data);
    } else {
      FlushAll(log, k, marks, acts[1..], data);
    }
  }

  lemma InvAsserts(m: Machine)
    requires Inv(m)
    ensures InChunk(m.core.state) ==> m.core.m.flags.chunked
    ensures m.core.state.ChunkDataAlmostDone? ==> m.core.m.contentLength == 0
  {
  }

  lemma StartPends(m: Machine, data: string, p: nat)
    requires InStart(m.core.state)
    ensures Pending(map[], m.trace, m, data, p)
  {
  }

  lemma TakenFields(m: Machine, s: string)
    requires m.core.errno.Ok? && Streams(m.core.state)
    ensures Taken(m, s).core.errno.Ok? && Taken(m, s).hdr == m.hdr && !Taken(m, s).core.state.ChunkSizeStart?
    ensures !Taken(m, s).jumped
    ensures Taken(m, s).core == TakenCore(m.core, |s|)
  {
  }

  lemma StreamsUnmarked(m: Machine, marks: Marks, log: seq<Event>, data: string, p: nat)
    requires Streams(m.core.state) && p < |data| && Pending(marks, log, m, data, p)
    ensures marks == map[] && log == m.trace
  {
  }

  lemma InvSized(m: Machine)
    requires Inv(m)
    ensures m.core.state.ChunkData? || m.core.state.BodyIdentity? ==> 0 < m.core.m.contentLength < U64_MAX
    ensures m.core.state.ChunkData? ==> m.core.m.flags.chunked
  {
  }

  /** A stretch of body that does not complete its message. */
  lemma StreamTaken(first: Machine, m: Machine, log: seq<Event>, data: string, p: nat, q: nat)
    requires m.core.errno.Ok? && Inv(m) && Leads(first, data, 0, m, p) && log == m.trace
    requires p < q <= |data| && CanTake(m.core, q - p)
    requires m.core.state.BodyIdentityEof? || q == |data| || q - p == m.core.m.contentLength
    requires m.core.state.BodyIdentityEof? ==> q == |data|
    ensures
      var w := Taken(m, data[p..q]);
      && Leads(first, data, 0, w, q) && Inv(w)
      && Pending(map[Mark.Body := p], log, w, data, q)
  {
    hide Scan, Transition, Emit;
    BodyLeads(m, data, p, q);
    LeadsTrans(first, data, 0, m, p, Taken(m, data[p..q]), q);
    PendsNew(Mark.Body, log, data, p, q);
    TakenStays(m.core, q - p);
    EmitEnds(log, Mark.Body, data[p..q]);
  }

  /** The stretch of body that completes its message. */
  lemma BodyCompletes(first: Machine, m: Machine, data: string, p: nat, q: nat)
    requires m.core.errno.Ok? && Inv(m) && Leads(first, data, 0, m, p) && m.core.state.BodyIdentity?
    requires p < q <= |data| && q - p == m.core.m.contentLength
    ensures
      var o := OnMessageDone(BodyDone(m.core));
      var tr := Emit(m.trace, Data(Mark.Body, data[p..q]));
      var w := Machine(o.core, if o.clears then 0 else m.hdr, false, Emit(tr, MessageComplete));
      && o.acts == [Note(MessageComplete)] && w.core.errno.Ok? && InStart(w.core.state) && Inv(w)
      && Perform(tr, map[], o.acts, data, q - 1) == (w.trace, map[])
      && if o.exits then Scan(first, data) == Scanned(w, q) else Leads(first, data, 0, w, q)
  {
    hide Scan, Leads, Transition, Step, Exits, CoreInv, Emit, Taken;
    var x := if q - 1 == p then m else Taken(m, data[p..q - 1]);
    assert data[p..q - 1] + [data[q - 1]] == data[p..q];
    if q - 1 > p {
      BodyLeads(m, data, p, q - 1);
      LeadsTrans(first, data, 0, m, p, x, q - 1);
      TakenSized(m, data[p..q - 1]);
    } else {
      assert data[p..q] == [data[q - 1]];
    }
    LastBodyOctet(x, data[q - 1]);
    CompleteState(BodyDone(m.core));
    EmitExtend(m.trace, Mark.Body, data[p..q - 1], [data[q - 1]]);
    ScanHere(first, data, q - 1, x);
    StepKeepsInv(x, data[q - 1]);
    var tr := Emit(m.trace, Data(Mark.Body, data[p..q]));
    assert [Note(MessageComplete)][1..] == [];
    assert Perform(tr, map[], [Note(MessageComplete)], data, q - 1)
      == Perform(Emit(tr, MessageComplete), map[], [], data, q - 1);
  }

  lemma TakenSized(m: Machine, s: string)
    requires Inv(m) && m.core.errno.Ok? && m.core.state.BodyIdentity? && |s| < m.core.m.contentLength
    ensures
      var w := Taken(m, s);
      && Inv(w) && w.core.errno.Ok? && w.core.state.BodyIdentity? && !w.jumped && w.hdr == m.hdr
      && w.core.m.contentLength == m.core.m.contentLength - |s|
      && BodyDone(w.core) == BodyDone(m.core)
      && w.trace == Emit(m.trace, Data(Mark.Body, s))
  {
  }

  /** One octet of a field value that is inspected, in the buffer and in the reference. */
  lemma ValueAdvances(first: Machine, m: Machine, marks: Marks, log: seq<Event>, data: string, q: nat)
    requires m.core.errno.Ok? && m.core.state.HeaderValue? && Inv(m) && !m.jumped
    requires q < |data| && data[q] != CR && data[q] != LF && Leads(first, data, 0, m, q)
    requires Pends(Value, marks, log, m.trace, data, q)
    ensures ValueKnows(m.core.m.hs)
    ensures
      var r := ValueByte(m.core.m, data[q]);
      var w := Text(m, Value, r, m.core.m.hs.General?, data[q]);
      var end := Scan(first, data);
      if ValueAccepts(m, data[q]) then
        && Inv(w) && Leads(first, data, 0, w, q + 1)
        && Pends(Value, marks, log, w.trace, data, q + 1)
      else
        && end.n == q && Lags(log, end.m.trace)
        && end.m.core.errno == if !m.core.lenient && !IsHeaderChar(data[q]) then InvalidHeaderToken else r.errno
  {
    hide Transition, Step, Exits, Inv, Leads, Scan, Lags, ValueByte, IsHeaderChar, Emit, Pends, ValueAccepts;
    InvKnows(m);
    ScanHere(first, data, q, m);
    if ValueAccepts(m, data[q]) {
      AcceptsOk(m, data[q]);
      ValueOctet(m, data[q]);
      StepKeepsInv(m, data[q]);
      PendsMore(Value, marks, log, m.trace, data, q, q + 1);
      assert data[q..q + 1] == [data[q]];
    } else {
      ValueOctetFails(m, data[q]);
      PendsLags(Value, marks, log, m.trace, data, q);
    }
  }

  lemma AcceptsOk(m: Machine, ch: char)
    requires ValueAccepts(m, ch)
    ensures ValueByte(m.core.m, ch).errno.Ok?
  {
  }

  lemma ValueJumps(first: Machine, m: Machine, marks: Marks, log: seq<Event>, data: string, q: nat, t: nat)
    requires m.core.errno.Ok? && m.core.state.HeaderValue? && m.core.m.hs.General? && Inv(m)
    requires q < t <= |data| && NoLineEnd(data, q, t) && Leads(first, data, 0, m, q)
    requires m.core.lenient || IsHeaderChar(data[q])
    requires Pends(Value, marks, log, m.trace, data, q)
    ensures
      var w := Jumped(m, data[q..t]);
      && Inv(w) && Leads(first, data, 0, w, t)
      && Pends(Value, marks, log, w.trace, data, t)
  {
    hide Transition, Leads, Scan, Emit, CoreInv;
    JumpLeads(m, data, q, t);
    LeadsTrans(first, data, 0, m, q, Jumped(m, data[q..t]), t);
    PendsMore(Value, marks, log, m.trace, data, q, t);
  }

  lemma ForgetJump(first: Machine, m: Machine, data: string, q: nat)
    requires m.core.errno.Ok? && m.core.state.HeaderValue? && q < |data| && (data[q] == CR || data[q] == LF)
    requires Leads(first, data, 0, m, q) && Inv(m)
    ensures Leads(first, data, 0, Resume(m), q) && Inv(Resume(m))
  {
    hide Scan, CoreInv;
    LineEndForgets(m, data, q);
  }

  lemma MarksBelow(k: Mark, marks: Marks, log: seq<Event>, tr: seq<Event>, data: string, q: nat)
    requires Pends(k, marks, log, tr, data, q)
    ensures (forall m :: m in marks ==> marks[m] <= q) && marks.Keys == {k}
  {
  }

  lemma NothingCalled(log: seq<Event>, marks: Marks, s: State)
    ensures Apart([], marks, s) && EmitAll(log, []) == log
  {
  }

  lemma ApartMeans(calls: seq<Event>, marks: Marks, s: State)
    requires Apart(calls, marks, s)
    ensures Single(calls) && (Mark.Url in marks ==> !EndsInTarget(calls))
  {
  }

  /** Inside a header line no target is marked. */
  lemma TextApart(calls: seq<Event>, marks: Marks, now: Marks, k: Mark, s: State)
    requires Apart(calls, marks, s) && now.Keys == {k} && !k.Url? && (s.HeaderField? || s.HeaderValue?)
    ensures Apart(calls, now, s)
  {
  }

  /** The last piece of a body, and its end. */
  lemma BodyApart(calls: seq<Event>, marks: Marks, s: State, text: string, data: string, p: nat)
    requires Apart(calls, marks, s) && p <= |data|
    ensures
      var all := calls + [Data(Mark.Body, text)] + Calls(map[], [Note(MessageComplete)], data, p);
      Single(all) && forall t :: Apart(all, map[], t)
  {
    var more := [Data(Mark.Body, text)] + [MessageComplete];
    assert [Note(MessageComplete)][1..] == [];
    assert Calls(map[], [Note(MessageComplete)], data, p) == [MessageComplete] + [];
    SingleMore(calls, more);
    assert calls + more == calls + [Data(Mark.Body, text)] + [MessageComplete];
  }

  /** One octet of a field name, in the buffer and in the reference. */
  lemma FieldAdvances(first: Machine, m: Machine, marks: Marks, log: seq<Event>, data: string, q: nat)
    requires m.core.errno.Ok? && m.core.state.HeaderField? && Inv(m)
    requires q < |data| && IsToken(data[q]) && Leads(first, data, 0, m, q)
    requires Pends(Field, marks, log, m.trace, data, q)
    ensures FieldKnows(m.core.m.hs)
    ensures
      var r := FieldByte(m.core.m, data[q]);
      var w := Text(m, Field, r, false, data[q]);
      if r.errno.Ok? then
        && Inv(w) && Leads(first, data, 0, w, q + 1)
        && Pends(Field, marks, log, w.trace, data, q + 1)
      else
        Scan(first, data).n == q && Scan(first, data).m.core.errno == r.errno
        && Lags(log, Scan(first, data).m.trace)
  {
    hide Transition, Step, Exits, Inv, Leads, Scan, Lags, FieldByte, Emit, Pends;
    InvKnows(m);
    ScanHere(first, data, q, m);
    if FieldByte(m.core.m, data[q]).errno.Ok? {
      FieldOctet(m, data[q]);
      StepKeepsInv(m, data[q]);
      PendsMore(Field, marks, log, m.trace, data, q, q + 1);
      assert data[q..q + 1] == [data[q]];
    } else {
      FieldOctetFails(m, data[q]);
      PendsLags(Field, marks, log, m.trace, data, q);
    }
  }

  lemma PendsLags(k: Mark, marks: Marks, log: seq<Event>, tr: seq<Event>, data: string, q: nat)
    requires Pends(k, marks, log, tr, data, q)
    ensures Lags(log, tr)
  {
    hide Lags;
    EmitLags(log, k, data[marks[k]..q]);
  }

  lemma InvKnows(m: Machine)
    requires Inv(m)
    ensures m.core.state.HeaderField? ==> FieldKnows(m.core.m.hs)
    ensures m.core.state.HeaderValue? ==> ValueKnows(m.core.m.hs)
  {
  }

  /** Entering a chunk size zeroes the counter. */
  lemma StepClears(m: Machine, ch: char)
    requires m.core.errno.Ok? && Inv(m)
    ensures
      var o := Transition(m.core, m.jumped, ch);
      && (o.core.errno.Ok? && o.core.state.ChunkSizeStart? ==> o.clears)
      && (o.exits ==> InStart(o.core.state))
  {
    hide Transition;
    TransitionKeeps(m.core, m.jumped, ch);
    TransitionInOrder(m.core, m.jumped, ch);
  }

  lemma ExitPends(m: Machine, marks: Marks, log: seq<Event>, data: string, p: nat)
    requires InStart(m.core.state) && Pending(marks, log, m, data, p)
    ensures marks == map[] && log == m.trace
  {
  }
}
