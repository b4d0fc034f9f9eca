/** The loop of `http_codec` over a buffer that may hold several messages, and over the reads of a connection. */
module Decoding {
  import opened ParserTypes
  import opened ParserStep
  import opened ParserMachine
  import opened ParserCallbacks
  import opened ParserCalls
  import opened Fragmentation
  import opened HttpParser
  import opened HttpDecoder
  import opened Additions
  import opened HeaderLimit
  import opened ParserMarks
  import opened ReadLimits

  /* ---- the decode loop ------------------------------------------------ */

  /** A call that returned early is continued by the next one. */
  lemma {:induction false} ScanContinues(m: Machine, data: string)
    requires m.core.errno.Ok?
    ensures
      var r := Scan(m, data);
      if !r.m.core.errno.Ok? then Run(m, data) == r
      else
        && Run(m, data) == Run(r.m, data[r.n..]).(n := r.n + Run(r.m, data[r.n..]).n)
        && (data != [] ==> r.n > 0)
        && (r.n < |data| ==> InStart(r.m.core.state))
    decreases |data|
  {
    hide Transition, Step, Exits, InStart;
    var r := Scan(m, data);
    if data != [] && Step(m, data[0]).core.errno.Ok? {
      if Exits(m, data[0]) {
        ExitStarts(m, data[0]);
      } else {
        ScanContinues(Step(m, data[0]), data[1..]);
        var s := Scan(Step(m, data[0]), data[1..]);
        assert s.m.core.errno.Ok? ==> data[1..][s.n..] == data[r.n..];
      }
    } else {
      assert data[0..] == data;
    }
  }

  lemma ExitStarts(m: Machine, ch: char)
    requires Exits(m, ch)
    ensures InStart(Step(m, ch).core.state)
  {
    hide Transition, OpenMark;
    TransitionInOrder(m.core, m.jumped, ch);
  }

  /** So is what the header limit makes of it. */
  lemma {:induction false} MeterContinues(m: Machine, over: nat, inside: bool, data: string)
    requires m.core.errno.Ok?
    ensures
      var a, r := Meter(m, over, inside, data), Scan(m, data);
      RunMeter(m, over, inside, data) ==
        if a.None? || !r.m.core.errno.Ok? then a else RunMeter(r.m, a.value, false, data[r.n..])
    decreases |data|
  {
    hide Transition, Step, Exits, ParsingHeader, InLoop, Carried;
    if data == "" {
    } else {
      var ch, w := data[0], Step(m, data[0]);
      if w.core.errno.Ok? {
        if Exits(m, ch) {
          ExitIsOutside(m, ch);
        } else {
          MeterContinues(w, Carried(m, over, ch), InLoop(m, ch), data[1..]);
          var s := Scan(w, data[1..]);
          assert data[1..][s.n..] == data[1 + s.n..];
          if |data| == 1 {
            assert data[1..] == "";
          }
        }
      }
    }
  }

  /** Between messages no jump is under way. */
  lemma StartResumes(m: Machine, over: nat, data: string)
    requires InStart(m.core.state)
    ensures Same(Run(Resume(m), data), Run(m, data))
    ensures RunMeter(Resume(m), over, false, data) == RunMeter(m, over, false, data)
  {
    hide Transition, Step, InStart;
    assert !m.core.state.HeaderValue? by { StartIsNoValue(m.core.state); }
    if data != [] {
      StepForgets(m, data[0]);
      ClearsForgets(m, data[0]);
    }
  }

  lemma StartIsNoValue(s: State)
    requires InStart(s)
    ensures !s.HeaderValue?
  {
  }

  /** What one successful call of the parser leaves for the next. */
  lemma CallContinues(m: Machine, over: nat, w: Machine, after: nat, data: string, n: nat)
    requires m.core.errno.Ok? && Scan(m, data).m.core.errno.Ok? && Scan(m, data).n == n && w == Resume(Scan(m, data).m)
    requires Meter(m, over, false, data) == Some(after)
    ensures
      var r := Run(w, data[n..]);
      && Same(Run(m, data), r.(n := n + r.n))
      && RunMeter(m, over, false, data) == RunMeter(w, after, false, data[n..])
      && (data != [] ==> n > 0)
  {
    hide Run, Scan, Meter, RunMeter, Step, InStart;
    ScanContinues(m, data);
    MeterContinues(m, over, false, data);
    var x := Scan(m, data).m;
    if n < |data| {
      StartResumes(x, after, data[n..]);
    } else {
      assert data[n..] == "";
      RunEnds(x, after);
      RunEnds(w, after);
    }
  }

  lemma RunEnds(m: Machine, over: nat)
    ensures Run(m, "") == Scanned(m, 0) && RunMeter(m, over, false, "") == Some(over)
  {
    hide Transition;
  }

  /** A call that was refused. */
  lemma CallRefuses(m: Machine, over: nat, data: string)
    requires m.core.errno.Ok? && (Meter(m, over, false, data).None? || !Scan(m, data).m.core.errno.Ok?)
    ensures RunMeter(m, over, false, data) == Meter(m, over, false, data)
    ensures Meter(m, over, false, data).Some? ==> Run(m, data) == Scan(m, data)
  {
    hide Run, Scan, Meter, RunMeter;
    ScanContinues(m, data);
    MeterContinues(m, over, false, data);
  }

  /** One read of a stream, which leaves the parser between two calls. */
  lemma FragmentContinues(m: Machine, over: nat, w: Machine, after: nat, frags: seq<string>)
    requires frags != [] && !m.jumped && Run(m, frags[0]).m.core.errno.Ok?
    requires w == Resume(Run(m, frags[0]).m) && RunMeter(m, over, false, frags[0]) == Some(after)
    ensures Resume(RunFragments(m, frags).m) == Resume(RunFragments(w, frags[1..]).m)
    ensures FragmentsMeter(m, over, frags) == FragmentsMeter(w, after, frags[1..])
  {
    hide Run, RunMeter;
    assert Resume(m) == m;
  }

  lemma FragmentRefuses(m: Machine, over: nat, frags: seq<string>)
    requires frags != [] && !m.jumped
    requires RunMeter(m, over, false, frags[0]).None? || !Run(m, frags[0]).m.core.errno.Ok?
    ensures FragmentsMeter(m, over, frags) == RunMeter(m, over, false, frags[0])
    ensures FragmentsMeter(m, over, frags).Some? ==> RunFragments(m, frags) == Run(m, frags[0])
    ensures !Accepts(m, over, frags)
  {
    hide Run, RunMeter;
    assert Resume(m) == m;
  }

  /** Reads of a stream that no cut can harm. */
  lemma SafeReads(m: Machine, over: nat, frags: seq<string>)
    requires m.core.errno.Ok? && NeverSkips(m, Flatten(frags)) && Load(m, over, Flatten(frags)) <= MAX_HEADER_SIZE
    ensures Accepts(m, over, frags) == Run(m, Flatten(frags)).m.core.errno.Ok?
    ensures Resume(RunFragments(m, frags).m) == Resume(Run(m, Flatten(frags)).m)
  {
    hide FragmentsMeter, Load, NeverSkips, Flatten, Run, RunFragments;
    EveryCutIsWithin(m, over, Flatten(frags));
    FragmentsAreInvisible(m, frags);
  }

  lemma NothingToContinue(h: Held)
    ensures Continuable(h, [])
  {
  }

  /** What is told while a machine gets from `m` to `w`. */
  function Heard(h: Held, m: Machine, w: Machine): Held {
    if Extends(m.trace, w.trace) then DeliverAll(h, Added(m.trace, w.trace)) else h
  }

  /** None of it is objected to. */
  predicate Unopposed(h: Held, m: Machine, w: Machine) {
    Extends(m.trace, w.trace) ==> AllTolerated(h, Added(m.trace, w.trace))
  }

  /** What is told of a stream that arrives in fragments; a target that is cut is told piece by piece. */
  function FragmentsHeard(h: Held, m: Machine, frags: seq<string>): Held
    decreases |frags|
  {
    hide Transition;
    if frags == [] then h
    else
      var r := Run(Resume(m), frags[0]);
      if !r.m.core.errno.Ok? then Heard(h, m, r.m) else FragmentsHeard(Heard(h, m, r.m), r.m, frags[1..])
  }

  predicate FragmentsUnopposed(h: Held, m: Machine, frags: seq<string>)
    decreases |frags|
  {
    hide Transition;
    frags == [] ||
    (var r := Run(Resume(m), frags[0]);
     Unopposed(h, m, r.m) && (r.m.core.errno.Ok? ==> FragmentsUnopposed(Heard(h, m, r.m), r.m, frags[1..])))
  }

  /** What is told of a run can be told in two parts, at the end of a message or of the run. */
  lemma HeardTwice(h: Held, m: Machine, x: Machine, w: Machine)
    requires Extends(m.trace, x.trace) && Extends(x.trace, w.trace) && NoneGoesOn(x.trace, w.trace)
    ensures Heard(h, m, w) == Heard(Heard(h, m, x), x, w)
    ensures Unopposed(h, m, w) <==> Unopposed(h, m, x) && Unopposed(Heard(h, m, x), x, w)
  {
    hide Deliver, Tolerated, Extends, Added;
    AddedTwice(h, m.trace, x.trace, w.trace);
  }

  lemma NothingHeard(h: Held, m: Machine, w: Machine)
    requires m.trace == w.trace
    ensures Heard(h, m, w) == h && Unopposed(h, m, w)
  {
    hide Deliver, Tolerated;
    ExtendsSelf(m.trace);
    assert DeliverAll(h, []) == h;
  }

  /** The end of a message is no target. */
  lemma {:induction false} ExitIsNoTarget(m: Machine, data: string)
    requires m.core.errno.Ok?
    ensures
      var r := Scan(m, data);
      r.m.core.errno.Ok? && r.n < |data| ==> r.m.trace != [] && !IsTarget(r.m.trace[|r.m.trace| - 1])
    decreases |data|
  {
    hide Transition, Step, Exits;
    if data != "" && Step(m, data[0]).core.errno.Ok? {
      if Exits(m, data[0]) { ExitEndsMessage(m, data[0]); } else { ExitIsNoTarget(Step(m, data[0]), data[1..]); }
    }
  }

  lemma {:induction false} ScanExtends(m: Machine, data: string)
    ensures Extends(m.trace, Scan(m, data).m.trace)
    decreases |data|
  {
    hide Transition, Step, Extends, Exits;
    ExtendsSelf(m.trace);
    if data != "" && m.core.errno.Ok? {
      StepExtends(m, data[0]);
      if Step(m, data[0]).core.errno.Ok? && !Exits(m, data[0]) {
        ScanExtends(Step(m, data[0]), data[1..]);
        ExtendsTwice(m.trace, Step(m, data[0]).trace, Scan(Step(m, data[0]), data[1..]).m.trace);
      }
    }
  }

  /** What one successful call tells, and what is left to tell. */
  lemma CallHeard(h: Held, m: Machine, w: Machine, data: string, n: nat)
    requires m.core.errno.Ok? && Scan(m, data).m.core.errno.Ok? && Scan(m, data).n == n && w == Resume(Scan(m, data).m)
    requires Run(w, data[n..]).m.trace == Run(m, data).m.trace
    ensures
      var r := Run(m, data).m;
      && Extends(m.trace, w.trace) && Heard(h, m, r) == Heard(Heard(h, m, w), w, r)
      && (Unopposed(h, m, r) <==> Unopposed(h, m, w) && Unopposed(Heard(h, m, w), w, r))
  {
    hide Run, Scan, Step, Transition, Extends, Heard, Unopposed;
    var r := Run(m, data).m;
    ScanExtends(m, data);
    RunExtends(w, data[n..]);
    if n < |data| {
      ExitIsNoTarget(m, data);
    } else {
      assert data[n..] == "";
      RunEnds(w, 0);
    }
    HeardTwice(h, m, w, r);
  }

  /** The decoder of a connection, with what its callbacks hold. */
  class Decoder {
    const parser: Parser
    const impl: Impl

    ghost predicate Valid()
      reads this, parser, impl
    {
      parser.Valid() && parser.core.errno.Ok? && Continuable(impl.View(), parser.model.trace)
    }

    constructor (requests: bool)
      ensures Valid() && fresh(parser) && fresh(impl)
      ensures parser.trace == [] && parser.model == Start(Both, true) && parser.over == 0
        && impl.View() == Empty(requests, Unset, [])
    {
      parser := new Parser(Both, true);
      impl := new Impl(requests);
    }

    /** One call of the parser, whose callbacks are handed over in order; an error or an objection ends it. */
    method Call(data: string) returns (n: nat, fine: bool, ghost heard: seq<Event>)
      requires Valid() && data != "" && |data| <= MAX_BUFFER
      modifies parser, impl
      ensures
        var m, fate := old(parser.model), Meter(old(parser.model), old(parser.over), false, data);
        var r := Scan(m, data);
        && (fine <==> fate.Some? && r.m.core.errno.Ok? && Unopposed(old(impl.View()), m, r.m))
        && (fine ==> Valid() && n == r.n && parser.model == Resume(r.m) && fate == Some(parser.over)
                     && impl.View() == Heard(old(impl.View()), m, r.m))
        && (!fine && fate.Some? && !r.m.core.errno.Ok? ==> Lags(heard, r.m.trace))
      ensures !fine ==>
        Valid() && parser.core == Init(Both, true) && impl.View() == Empty(impl.requests, impl.version, impl.out)
    {
      hide Meter, Scan, Inv, Lags, AllTolerated, DeliverAll, Run, Peak, Continuable, EmitAll, ParserCalls.Single,
        Extends, Added;
      ghost var h, m := impl.View(), parser.model;
      n := parser.Execute(data);
      heard := parser.trace;
      if parser.core.errno.Ok? {
        CallsDeliver(h, m.trace, parser.calls);
      }
      fine := impl.HandleAll(parser.calls);
      if parser.core.errno.Ok? {
        if fine { ContinuableAgain(h, m.trace, parser.calls); }
      } else {
        fine := false;
      }
      if !fine {
        parser.Reset();
        impl.Reset();
        NothingToContinue(impl.View());
      }
    }

    /**
     `http_codec::decode`: the whole buffer is read, message after message.  It is
     refused exactly when the stream is malformed there, a header block exceeds the limit
     or something objects to a callback; what a malformed stream has made the parser call
     until then is known.
     */
    method Decode(data: string) returns (ok: bool, ghost heard: seq<Event>)
      requires Valid() && |data| <= MAX_BUFFER
      modifies parser, impl
      ensures Valid()
      ensures
        var m, h := old(parser.model), old(impl.View());
        var r, a := Run(m, data), RunMeter(m, old(parser.over), false, data);
        && (ok <==> a.Some? && r.m.core.errno.Ok? && Unopposed(h, m, r.m))
        && (ok ==> parser.model == Resume(r.m) && a == Some(parser.over) && impl.View() == Heard(h, m, r.m))
        && (!ok ==> parser.core == Init(Both, true) && impl.View() == Empty(impl.requests, impl.version, impl.out))
        && (a.Some? && !r.m.core.errno.Ok? && Unopposed(h, m, r.m) ==> Lags(heard, r.m.trace))
    {
      hide Run, Scan, Meter, RunMeter, Peak, Step, Transition, Inv, Lags, AllTolerated, DeliverAll, Continuable,
        Extends, Added;
      ghost var m, o, h := parser.model, parser.over, impl.View();
      ghost var r := Run(m, data);
      var b := 0;
      heard := [];
      assert data[0..] == data;
      while b < |data|
        invariant b <= |data| && Valid()
        invariant
          var t := Run(parser.model, data[b..]);
          && Same(r, t.(n := b + t.n))
          && RunMeter(m, o, false, data) == RunMeter(parser.model, parser.over, false, data[b..])
        invariant Heard(impl.View(), parser.model, r.m) == Heard(h, m, r.m)
        invariant Unopposed(impl.View(), parser.model, r.m) == Unopposed(h, m, r.m)
      {
        ghost var w, e, g, rest := parser.model, parser.over, impl.View(), data[b..];
        var n, fine;
        n, fine, heard := Call(data[b..]);
        if !fine {
          CallOpposed(g, w, rest, Scan(w, rest).n);
          if Meter(w, e, false, rest).None? || !Scan(w, rest).m.core.errno.Ok? { CallRefuses(w, e, rest); }
          return false, heard;
        }
        CallContinues(w, e, parser.model, parser.over, rest, n);
        CallHeard(g, w, parser.model, rest, n);
        assert data[b..][n..] == data[b + n..];
        b := b + n;
      }
      assert data[b..] == "";
      RunEnds(parser.model, parser.over);
      NothingHeard(impl.View(), parser.model, r.m);
      ok := true;
    }

    /**
     The reads of a connection, each handed to `Decode` as it arrives, until one is
     refused.  For a stream on which no cut makes a difference to the parser, it accepts
     what it accepts uncut.
     */
    method Receive(buffers: seq<string>) returns (ok: bool, ghost heard: seq<Event>)
      requires Valid() && forall i :: 0 <= i < |buffers| ==> |buffers[i]| <= MAX_BUFFER
      modifies parser, impl
      ensures Valid()
      ensures
        var m, o, h := old(parser.model), old(parser.over), old(impl.View());
        var r, a := RunFragments(m, buffers), FragmentsMeter(m, o, buffers);
        && (ok <==> Accepts(m, o, buffers) && FragmentsUnopposed(h, m, buffers))
        && (ok ==>
              parser.model == Resume(r.m) && a == Some(parser.over) && impl.View() == FragmentsHeard(h, m, buffers))
        && (!ok ==> parser.core == Init(Both, true) && impl.View() == Empty(impl.requests, impl.version, impl.out))
        && (a.Some? && !r.m.core.errno.Ok? && FragmentsUnopposed(h, m, buffers) ==> Lags(heard, r.m.trace))
      ensures
        var m, h, all := old(parser.model), old(impl.View()), Flatten(buffers);
        NeverSkips(m, all) && Load(m, old(parser.over), all) <= MAX_HEADER_SIZE ==>
          && ok == (Run(m, all).m.core.errno.Ok? && FragmentsUnopposed(h, m, buffers))
          && (ok ==> parser.model == Resume(Run(m, all).m))
    {
      hide Run, Step, Transition, Inv, NeverSkips, Load, Lags, RunMeter, FragmentsMeter, RunFragments, Accepts, Flatten,
        FragmentsHeard, FragmentsUnopposed, Heard, Unopposed, Continuable;
      ghost var m, o, h := parser.model, parser.over, impl.View();
      if NeverSkips(m, Flatten(buffers)) && Load(m, o, Flatten(buffers)) <= MAX_HEADER_SIZE {
        SafeReads(m, o, buffers);
      }
      var i := 0;
      heard := [];
      assert buffers[0..] == buffers;
      while i < |buffers|
        invariant i <= |buffers| && Valid()
        invariant Resume(RunFragments(m, buffers).m) == Resume(RunFragments(parser.model, buffers[i..]).m)
        invariant FragmentsMeter(m, o, buffers) == FragmentsMeter(parser.model, parser.over, buffers[i..])
        invariant FragmentsUnopposed(impl.View(), parser.model, buffers[i..]) == FragmentsUnopposed(h, m, buffers)
        invariant
          FragmentsUnopposed(h, m, buffers) && Accepts(m, o, buffers) ==>
            FragmentsHeard(impl.View(), parser.model, buffers[i..]) == FragmentsHeard(h, m, buffers)
      {
        ghost var w, e, g, rest := parser.model, parser.over, impl.View(), buffers[i..];
        assert rest[1..] == buffers[i + 1..] && rest[0] == buffers[i];
        ok, heard := Decode(buffers[i]);
        FragmentHeard(g, w, rest);
        SameAcceptance(m, o, buffers, w, e, rest);
        if !ok {
          if RunMeter(w, e, false, rest[0]).None? || !Run(w, rest[0]).m.core.errno.Ok? { FragmentRefuses(w, e, rest); }
          return;
        }
        FragmentContinues(w, e, parser.model, parser.over, rest);
        FragmentGoesOn(g, w, parser.model, rest);
        i := i + 1;
      }
      NoFragments(parser.model, parser.over, impl.View());
      assert buffers[i..] == [];
      SameAcceptance(m, o, buffers, parser.model, parser.over, []);
      ok := true;
    }
  }

  /** What objects to a call objects to the run. */
  lemma CallOpposed(h: Held, m: Machine, data: string, n: nat)
    requires m.core.errno.Ok? && Scan(m, data).n == n
    ensures Scan(m, data).m.core.errno.Ok? && !Unopposed(h, m, Scan(m, data).m) ==> !Unopposed(h, m, Run(m, data).m)
  {
    hide Run, Scan, Step, Transition, Extends, Heard, Unopposed;
    var x := Scan(m, data).m;
    if x.core.errno.Ok? {
      var w := Resume(x);
      ScanContinues(m, data);
      if n < |data| { StartResumes(x, 0, data[n..]); } else { assert data[n..] == ""; RunEnds(x, 0); RunEnds(w, 0); }
      CallHeard(h, m, w, data, n);
      SameTrace(h, m, w, x);
    }
  }

  lemma SameTrace(h: Held, m: Machine, w: Machine, x: Machine)
    requires w.trace == x.trace
    ensures Heard(h, m, w) == Heard(h, m, x) && (Unopposed(h, m, w) <==> Unopposed(h, m, x))
  {
  }

  lemma NoFragments(m: Machine, over: nat, h: Held)
    ensures FragmentsHeard(h, m, []) == h && FragmentsUnopposed(h, m, [])
    ensures RunFragments(m, []) == Scanned(m, 0) && FragmentsMeter(m, over, []) == Some(over)
    ensures Accepts(m, over, []) == m.core.errno.Ok?
  {
  }

  lemma SameAcceptance(m: Machine, over: nat, frags: seq<string>, w: Machine, after: nat, rest: seq<string>)
    requires Resume(RunFragments(m, frags).m) == Resume(RunFragments(w, rest).m)
    requires FragmentsMeter(m, over, frags) == FragmentsMeter(w, after, rest)
    ensures Accepts(m, over, frags) == Accepts(w, after, rest)
  {
    hide RunFragments, FragmentsMeter;
  }

  /** What the first fragment decides. */
  lemma FragmentHeard(h: Held, m: Machine, frags: seq<string>)
    requires frags != [] && !m.jumped
    ensures !Unopposed(h, m, Run(m, frags[0]).m) ==> !FragmentsUnopposed(h, m, frags)
    ensures !Run(m, frags[0]).m.core.errno.Ok?
      ==> FragmentsUnopposed(h, m, frags) == Unopposed(h, m, Run(m, frags[0]).m)
  {
    hide Run, Heard, Unopposed;
    assert Resume(m) == m;
  }

  lemma FragmentGoesOn(h: Held, m: Machine, w: Machine, frags: seq<string>)
    requires frags != [] && !m.jumped && Run(m, frags[0]).m.core.errno.Ok? && w == Resume(Run(m, frags[0]).m)
    requires Unopposed(h, m, Run(m, frags[0]).m)
    ensures
      var g := Heard(h, m, Run(m, frags[0]).m);
      && FragmentsUnopposed(h, m, frags) == FragmentsUnopposed(g, w, frags[1..])
      && FragmentsHeard(h, m, frags) == FragmentsHeard(g, w, frags[1..])
  {
    hide Run, Heard, Unopposed;
    assert Resume(m) == m;
    Resumed(Heard(h, m, Run(m, frags[0]).m), Run(m, frags[0]).m, frags[1..]);
  }

  lemma Resumed(h: Held, m: Machine, frags: seq<string>)
    ensures FragmentsUnopposed(h, m, frags) == FragmentsUnopposed(h, Resume(m), frags)
    ensures FragmentsHeard(h, m, frags) == FragmentsHeard(h, Resume(m), frags)
  {
    hide Run, Extends;
    assert Resume(Resume(m)) == Resume(m);
    if frags != [] { SameStart(h, m, Run(Resume(m), frags[0]).m); }
  }

  lemma SameStart(h: Held, m: Machine, w: Machine)
    ensures Heard(h, m, w) == Heard(h, Resume(m), w) && Unopposed(h, m, w) == Unopposed(h, Resume(m), w)
  {
  }
}
