/**
 Facts about stretches of input: how the octet-at-a-time reference gets from one
 position of a buffer to another, in particular across the stretches that
 `http_parser_execute` takes in one go.
 */
module ParserRuns {
  import opened Ascii
  import opened ParserTypes
  import opened ParserStep
  import opened ParserMachine

  /** The reference, at `p` in state `m`, gets to `q` in state `w`. */
  ghost predicate Leads(m: Machine, data: string, p: nat, w: Machine, q: nat) {
    && p <= q <= |data|
    && Scan(m, data[p..]) == Scan(w, data[q..]).(n := Scan(w, data[q..]).n + (q - p))
  }

  lemma LeadsStep(m: Machine, data: string, p: nat)
    requires m.core.errno.Ok? && p < |data|
    requires Step(m, data[p]).core.errno.Ok? && !Exits(m, data[p])
    ensures Leads(m, data, p, Step(m, data[p]), p + 1)
  {
    hide Transition, Step, Exits;
    assert data[p..][0] == data[p] && data[p..][1..] == data[p + 1..];
  }

  lemma LeadsTrans(m: Machine, data: string, p: nat, w: Machine, q: nat, x: Machine, r: nat)
    requires Leads(m, data, p, w, q) && Leads(w, data, q, x, r)
    ensures Leads(m, data, p, x, r)
  {
    hide Scan;
  }

  lemma EmitExtend(tr: seq<Event>, k: Mark, a: string, b: string)
    ensures Emit(Emit(tr, Data(k, a)), Data(k, b)) == Emit(tr, Data(k, a + b))
  {
    if EndsIn(tr, k) {
      var t := tr[|tr| - 1].text;
      assert (t + a) + b == t + (a + b);
    }
  }

  lemma EmitNothing(tr: seq<Event>, k: Mark)
    requires EndsIn(tr, k)
    ensures Emit(tr, Data(k, "")) == tr
  {
    var t := tr[|tr| - 1].text;
    assert t + "" == t;
  }

  /* ---- header text ---------------------------------------------------- */

  /** One octet of a field name or value that stays inside it. */
  function Text(m: Machine, k: Mark, r: Matched, jumped: bool, ch: char): Machine {
    Machine(m.core.(m := r.m, errno := r.errno), m.hdr + 1, jumped, Emit(m.trace, Data(k, [ch])))
  }

  lemma FieldOctet(m: Machine, ch: char)
    requires m.core.errno.Ok? && m.core.state.HeaderField? && IsToken(ch) && FieldByte(m.core.m, ch).errno.Ok?
    ensures Step(m, ch) == Text(m, Field, FieldByte(m.core.m, ch), false, ch) && !Exits(m, ch)
  {
    hide FieldByte;
  }

  lemma FieldOctetFails(m: Machine, ch: char)
    requires m.core.errno.Ok? && m.core.state.HeaderField? && IsToken(ch) && !FieldByte(m.core.m, ch).errno.Ok?
    ensures Step(m, ch).core.errno == FieldByte(m.core.m, ch).errno && Step(m, ch).trace == m.trace
  {
    hide FieldByte;
  }

  predicate ValueAccepts(m: Machine, ch: char) {
    ch != CR && ch != LF && (m.core.lenient || m.jumped || IsHeaderChar(ch)) && ValueByte(m.core.m, ch).errno.Ok?
  }

  lemma ValueOctet(m: Machine, ch: char)
    requires m.core.errno.Ok? && m.core.state.HeaderValue? && ValueAccepts(m, ch)
    ensures Step(m, ch) == Text(m, Value, ValueByte(m.core.m, ch), m.core.m.hs.General?, ch) && !Exits(m, ch)
  {
    hide ValueByte;
  }

  lemma ValueOctetFails(m: Machine, ch: char)
    requires m.core.errno.Ok? && m.core.state.HeaderValue? && ch != CR && ch != LF && !ValueAccepts(m, ch)
    ensures
      Step(m, ch).trace == m.trace &&
      Step(m, ch).core.errno ==
        (if !m.core.lenient && !m.jumped && !IsHeaderChar(ch) then InvalidHeaderToken
         else ValueByte(m.core.m, ch).errno)
    ensures !Step(m, ch).core.errno.Ok?
  {
    hide ValueByte;
  }

  predicate NoLineEnd(s: string, p: nat, q: nat)
    requires q <= |s|
  {
    forall i :: p <= i < q ==> s[i] != CR && s[i] != LF
  }

  /** The state after an uninspected stretch of a header value. */
  function Jumped(m: Machine, s: string): Machine {
    Machine(m.core, m.hdr + |s|, true, Emit(m.trace, Data(Value, s)))
  }

  /** `memchr` jumps over a stretch of a value without changing the parser. */
  lemma {:induction false} JumpLeads(m: Machine, data: string, p: nat, q: nat)
    requires m.core.errno.Ok? && m.core.state.HeaderValue? && m.core.m.hs.General?
    requires p < q <= |data| && NoLineEnd(data, p, q)
    requires m.core.lenient || m.jumped || IsHeaderChar(data[p])
    ensures Leads(m, data, p, Jumped(m, data[p..q]), q)
    decreases q - p
  {
    hide Transition, Step, Exits, Scan, Leads;
    ValueOctet(m, data[p]);
    LeadsStep(m, data, p);
    var w := Step(m, data[p]);
    assert w == Jumped(m, [data[p]]);
    if q == p + 1 {
      assert data[p..q] == [data[p]];
    } else {
      assert data[p..q] == [data[p]] + data[p + 1..q];
      JumpLeads(w, data, p + 1, q);
      EmitExtend(m.trace, Value, [data[p]], data[p + 1..q]);
      assert Leads(m, data, p, w, p + 1);
      LeadsTrans(m, data, p, w, p + 1, Jumped(w, data[p + 1..q]), q);
    }
  }

  /* ---- bodies --------------------------------------------------------- */

  /** The states in which a whole stretch of body is taken at once. */
  predicate Streams(s: State) { s.ChunkData? || s.BodyIdentity? || s.BodyIdentityEof? }

  function TakenCore(c: Core, n: nat): Core {
    if c.state.BodyIdentityEof? then c
    else
      var left := if c.m.contentLength >= n then c.m.contentLength - n else 0;
      c.(m := c.m.(contentLength := left), state := if left == 0 then ChunkDataAlmostDone else c.state)
  }

  /** The state after a stretch of body that does not complete the message. */
  function Taken(m: Machine, s: string): Machine {
    Machine(TakenCore(m.core, |s|), m.hdr, false, Emit(m.trace, Data(Mark.Body, s)))
  }

  /** How much can be taken: all of it, the rest of the chunk, or all but the last octet of a sized body. */
  predicate CanTake(c: Core, n: nat) {
    && Streams(c.state)
    && (c.state.ChunkData? ==> n <= c.m.contentLength)
    && (c.state.BodyIdentity? ==> n < c.m.contentLength)
  }

  lemma BodyOut(c: Core, ch: char)
    requires c.errno.Ok? && CanTake(c, 1)
    ensures BodyStep(c, ch) == Out(TakenCore(c, 1), [Note(Data(Mark.Body, [ch]))], false, false)
  {
    var e := Note(Data(Mark.Body, [ch]));
    assert [e] + [] == [e];
  }

  lemma StreamsPlainly(c: Core, ch: char)
    requires Streams(c.state)
    ensures OpenMark(c.state).None? && InBody(c.state) && !ParsingHeader(c.state) && !c.state.HeaderValue?
  {
  }

  lemma BodyOctet(m: Machine, ch: char)
    requires m.core.errno.Ok? && CanTake(m.core, 1)
    ensures Step(m, ch) == Taken(m, [ch]) && !Exits(m, ch)
  {
    StreamsPlainly(m.core, ch);
    hide Transition, TakenCore, OpenMark, Streams, Emit;
    BodyOut(m.core, ch);
    BodyTurn(m.core, m.jumped, ch);
    TakenStays(m.core, 1);
    var e := Data(Mark.Body, [ch]);
    assert Interpret(m.trace, [Note(e)], None) == Interpret(Emit(m.trace, e), [], None);
  }

  lemma TakenStays(c: Core, n: nat)
    requires Streams(c.state)
    ensures OpenMark(TakenCore(c, n).state).None? && !TakenCore(c, n).state.HeaderValue?
  {
  }

  lemma TakenTwice(m: Machine, a: string, b: string)
    requires CanTake(m.core, |a| + |b|) && b != []
    ensures CanTake(Taken(m, a).core, |b|)
    ensures Taken(Taken(m, a), b) == Taken(m, a + b)
  {
    EmitExtend(m.trace, Mark.Body, a, b);
  }

  lemma {:induction false} BodyLeads(m: Machine, data: string, p: nat, q: nat)
    requires m.core.errno.Ok? && p < q <= |data| && CanTake(m.core, q - p)
    ensures Leads(m, data, p, Taken(m, data[p..q]), q)
    decreases q - p
  {
    hide Transition, Step, Exits, Scan, Leads, TakenCore;
    BodyOctet(m, data[p]);
    var w := Step(m, data[p]);
    TakenOk(m.core, 1);
    LeadsStep(m, data, p);
    if q == p + 1 {
      assert data[p..q] == [data[p]];
    } else {
      assert data[p..q] == [data[p]] + data[p + 1..q];
      TakenTwice(m, [data[p]], data[p + 1..q]);
      BodyLeads(w, data, p + 1, q);
      LeadsTrans(m, data, p, w, p + 1, Taken(w, data[p + 1..q]), q);
    }
  }

  lemma TakenOk(c: Core, n: nat)
    ensures TakenCore(c, n).errno == c.errno
  {
  }

  /** The struct at the end of a body of known length. */
  function BodyDone(c: Core): Core { c.(m := c.m.(contentLength := 0), state := MessageDone) }

  lemma LastBodyOut(c: Core, ch: char)
    requires c.state.BodyIdentity? && c.m.contentLength == 1
    ensures
      BodyStep(c, ch) == OnMessageDone(BodyDone(c)).(acts := [Note(Data(Mark.Body, [ch])), Note(MessageComplete)])
  {
    hide Complete;
    CompleteState(BodyDone(c));
    assert [Note(Data(Mark.Body, [ch]))] + [Note(MessageComplete)]
      == [Note(Data(Mark.Body, [ch])), Note(MessageComplete)];
  }

  lemma TwoNotes(tr: seq<Event>, e: Event, f: Event)
    ensures Interpret(tr, [Note(e), Note(f)], None) == Emit(Emit(tr, e), f)
  {
    assert [Note(e), Note(f)][1..] == [Note(f)];
    assert Interpret(Emit(tr, e), [Note(f)], None) == Interpret(Emit(Emit(tr, e), f), [], None);
  }

  /** The octet that completes a body of known length. */
  lemma LastBodyOctet(m: Machine, ch: char)
    requires m.core.errno.Ok? && m.core.state.BodyIdentity? && m.core.m.contentLength == 1
    ensures
      var o := OnMessageDone(BodyDone(m.core));
      && Exits(m, ch) == o.exits
      && Step(m, ch) == Machine(o.core, if o.clears then 0 else m.hdr, false,
                                Emit(Emit(m.trace, Data(Mark.Body, [ch])), MessageComplete))
  {
    hide BodyStep, Interpret, Complete, Emit;
    LastBodyOut(m.core, ch);
    CompleteState(BodyDone(m.core));
    TwoNotes(m.trace, Data(Mark.Body, [ch]), MessageComplete);
  }

  lemma CompleteState(c: Core)
    ensures Complete(c, false).acts == [Note(MessageComplete)] && !Complete(c, false).exits
    ensures Complete(c, false).clears == c.resets
    ensures InStart(Complete(c, false).core.state)
      && Complete(c, false).core.errno == (if c.resets then Ok else c.errno)
  {
  }

  /** A line end is never inspected by the character check, so the jump is forgotten there. */
  lemma LineEndForgets(m: Machine, data: string, p: nat)
    requires m.core.errno.Ok? && m.core.state.HeaderValue? && p < |data| && (data[p] == CR || data[p] == LF)
    ensures Scan(m, data[p..]) == Scan(Resume(m), data[p..])
  {
    SameLineEnd(m, data[p]);
    hide Step, Exits, Transition;
  }

  lemma SameLineEnd(m: Machine, ch: char)
    requires m.core.errno.Ok? && m.core.state.HeaderValue? && (ch == CR || ch == LF)
    ensures Step(m, ch) == Step(Resume(m), ch) && Exits(m, ch) == Exits(Resume(m), ch)
  {
    hide StartStep, StatusLineStep, UrlPhaseStep, RequestVersionStep, BodyStep, ValueByte;
  }

  /** A line end leaves the value, so nothing is being jumped over afterwards. */
  lemma LineEndLeaves(m: Machine, ch: char)
    requires m.core.errno.Ok? && (m.core.state.HeaderValue? ==> ch == CR || ch == LF)
    ensures !Step(m, ch).jumped
  {
    hide StartStep, StatusLineStep, UrlPhaseStep, RequestVersionStep, BodyStep;
  }

  /** What the reference makes of the octet it has reached. */
  lemma ScanHere(first: Machine, data: string, p: nat, m: Machine)
    requires Leads(first, data, 0, m, p) && p < |data| && m.core.errno.Ok?
    ensures
      var w := Step(m, data[p]);
      && (!w.core.errno.Ok? ==> Scan(first, data) == Scanned(w, p))
      && (w.core.errno.Ok? && Exits(m, data[p]) ==> Scan(first, data) == Scanned(w, p + 1))
      && (w.core.errno.Ok? && !Exits(m, data[p]) ==> Leads(first, data, 0, w, p + 1))
  {
    hide Step, Exits, Transition;
    assert data[0..] == data;
    assert data[p..][0] == data[p] && data[p..][1..] == data[p + 1..];
    if Step(m, data[p]).core.errno.Ok? && !Exits(m, data[p]) {
      LeadsStep(m, data, p);
      LeadsTrans(first, data, 0, m, p, Step(m, data[p]), p + 1);
    }
  }
}
