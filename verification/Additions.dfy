/**
 What a call of the parser adds to the events so far, and that telling the owner of
 the additions is telling it of the callbacks one by one.
 */
module Additions {
  import opened ParserTypes
  import opened ParserStep
  import opened ParserMachine
  import opened ParserCalls
  import opened HttpDecoder

  /** `b` is `a` with more events, or with more text in its last data callback. */
  predicate Extends(a: seq<Event>, b: seq<Event>) {
    a == [] ||
    (var n := |a| - 1;
     && n < |b| && a[..n] == b[..n]
     && (b[n] == a[n] || (b[n].Data? && a[n].Data? && b[n].mark == a[n].mark && a[n].text <= b[n].text)))
  }

  /** The text that the last data callback of `a` has got in `b`. */
  function More(a: seq<Event>, b: seq<Event>): seq<Event>
    requires Extends(a, b)
  {
    if a == [] || b[|a| - 1] == a[|a| - 1] then []
    else [Data(a[|a| - 1].mark, b[|a| - 1].text[|a[|a| - 1].text|..])]
  }

  /** What has been added. */
  function Added(a: seq<Event>, b: seq<Event>): seq<Event>
    requires Extends(a, b)
  {
    More(a, b) + b[|a|..]
  }

  lemma ExtendsSelf(a: seq<Event>)
    ensures Extends(a, a) && Added(a, a) == []
  {
  }

  lemma ExtendsTwice(a: seq<Event>, b: seq<Event>, c: seq<Event>)
    requires Extends(a, b) && Extends(b, c)
    ensures Extends(a, c)
  {
    if a != [] {
      var n := |a| - 1;
      assert b[..|b| - 1] == c[..|b| - 1];
      assert n < |b| - 1 ==> c[n] == b[n] && c[..n] == b[..|b| - 1][..n];
    }
  }

  lemma EmitExtends(tr: seq<Event>, e: Event)
    ensures Extends(tr, Emit(tr, e))
    ensures Added(tr, Emit(tr, e)) == if EndsWith(tr, e) && e.text == "" then [] else [e]
  {
    if EndsWith(tr, e) {
      var t := tr[|tr| - 1].text;
      assert (t + e.text)[|t|..] == e.text;
      assert e.text == "" ==> t + e.text == t;
    }
  }

  lemma {:induction false} EmitAllExtends(tr: seq<Event>, calls: seq<Event>)
    ensures Extends(tr, EmitAll(tr, calls))
    decreases |calls|
  {
    hide Emit, Extends;
    if calls == [] {
      ExtendsSelf(tr);
    } else {
      var n := |calls| - 1;
      EmitAllExtends(tr, calls[..n]);
      EmitExtends(EmitAll(tr, calls[..n]), calls[n]);
      ExtendsTwice(tr, EmitAll(tr, calls[..n]), EmitAll(tr, calls));
    }
  }

  lemma {:induction false} InterpretExtends(tr: seq<Event>, acts: seq<Act>, k: Option<Mark>)
    ensures Extends(tr, Interpret(tr, acts, k))
    decreases |acts|
  {
    hide Emit, Extends;
    if acts == [] {
      ExtendsSelf(tr);
    } else {
      match acts[0]
      case Set(j) => InterpretExtends(tr, acts[1..], if k.None? then Some(j) else k);
      case Flush(j) =>
        if k == Some(j) {
          var t := Emit(tr, Data(j, ""));
          EmitExtends(tr, Data(j, ""));
          InterpretExtends(t, acts[1..], None);
          ExtendsTwice(tr, t, Interpret(t, acts[1..], None));
        } else {
          InterpretExtends(tr, acts[1..], k);
        }
      case Note(e) =>
        EmitExtends(tr, e);
        InterpretExtends(Emit(tr, e), acts[1..], k);
        ExtendsTwice(tr, Emit(tr, e), Interpret(Emit(tr, e), acts[1..], k));
    }
  }

  lemma StepExtends(m: Machine, ch: char)
    ensures Extends(m.trace, Step(m, ch).trace)
  {
    hide Transition, Interpret, Emit, Extends;
    var o := Transition(m.core, m.jumped, ch);
    var tr := Interpret(m.trace, o.acts, OpenMark(m.core.state));
    InterpretExtends(m.trace, o.acts, OpenMark(m.core.state));
    if OpenMark(o.core.state).Some? {
      var e := Data(OpenMark(o.core.state).value, [ch]);
      EmitExtends(tr, e);
      ExtendsTwice(m.trace, tr, Emit(tr, e));
    }
  }

  lemma {:induction false} RunExtends(m: Machine, s: string)
    ensures Extends(m.trace, Run(m, s).m.trace)
    decreases |s|
  {
    hide Transition, Step, Extends;
    ExtendsSelf(m.trace);
    if s != "" && m.core.errno.Ok? {
      StepExtends(m, s[0]);
      if Step(m, s[0]).core.errno.Ok? {
        RunExtends(Step(m, s[0]), s[1..]);
        ExtendsTwice(m.trace, Step(m, s[0]).trace, Run(Step(m, s[0]), s[1..]).m.trace);
      }
    }
  }

  /* ---- one by one ------------------------------------------------------ */

  /** What is held fits the events so far: their last data callback could go on. */
  predicate Continuable(h: Held, a: seq<Event>) {
    a != [] && a[|a| - 1].Data? ==>
      var e := Data(a[|a| - 1].mark, "");
      Tolerated(h, e) && Deliver(h, e) == h
  }

  /** One callback more. */
  lemma AddedMore(a: seq<Event>, t: seq<Event>, e: Event)
    requires Extends(a, t)
    ensures Extends(a, Emit(t, e))
    ensures
      var d := Added(a, t);
      && (d == [] ==> t == a)
      && Added(a, Emit(t, e)) == (if d != [] then Emit(d, e) else if EndsWith(a, e) && e.text == "" then [] else [e])
      && (d != [] ==> EndsWith(d, e) == EndsWith(t, e))
  {
    EmitExtends(t, e);
    ExtendsTwice(a, t, Emit(t, e));
    var d := Added(a, t);
    if d == [] {
      NoneAdded(a, t);
    } else {
      LastAdded(a, t);
      hide Extends, More, Added;
      if EndsWith(t, e) { LongerAdded(a, t, e); } else { NextAdded(a, t, e); }
    }
  }

  lemma NoneAdded(a: seq<Event>, t: seq<Event>)
    requires Extends(a, t) && Added(a, t) == []
    ensures t == a
  {
  }

  lemma NextAdded(a: seq<Event>, t: seq<Event>, e: Event)
    requires Extends(a, t) && Extends(a, Emit(t, e)) && Added(a, t) != [] && !EndsWith(t, e)
    ensures Added(a, Emit(t, e)) == Added(a, t) + [e]
  {
    assert Emit(t, e)[|a|..] == t[|a|..] + [e];
    assert More(a, Emit(t, e)) == More(a, t);
  }

  lemma LastAdded(a: seq<Event>, t: seq<Event>)
    requires Extends(a, t) && Added(a, t) != []
    ensures
      var d, x := Added(a, t), t[|t| - 1];
      var y := d[|d| - 1];
      t != [] && (y == x || (|t| == |a| && |d| == 1 && x.Data? && y.Data? && y.mark == x.mark && a[|a| - 1].Data?
                             && a[|a| - 1].mark == x.mark && x.text == a[|a| - 1].text + y.text))
  {
  }

  lemma LongerAdded(a: seq<Event>, t: seq<Event>, e: Event)
    requires Extends(a, t) && Extends(a, Emit(t, e)) && Added(a, t) != [] && EndsWith(t, e) && EndsWith(Added(a, t), e)
    ensures Added(a, Emit(t, e)) == Emit(Added(a, t), e)
  {
    var d, n := Added(a, t), |t| - 1;
    var w := Emit(t, e);
    LastAdded(a, t);
    if |t| == |a| {
      var p, x, y := a[n].text, t[n].text, w[n].text;
      assert x == p + x[|p|..] && y == x + e.text;
      assert y[|p|..] == x[|p|..] + e.text;
      assert w[|a|..] == [] && t[|a|..] == [];
    } else {
      assert w[|a|..] == t[|a|..][..|t| - |a| - 1] + [w[n]];
      assert More(a, w) == More(a, t);
    }
  }

  /**
   The callbacks of one call, delivered one by one, tell the owner what delivering the
   additions to the trace tells it; and whatever objects to them objects to the additions.
   */
  lemma {:induction false} CallsDeliver(h: Held, a: seq<Event>, calls: seq<Event>)
    requires Continuable(h, a) && Single(calls)
    ensures
      var t := EmitAll(a, calls);
      && Extends(a, t) && DeliverAll(h, calls) == DeliverAll(h, Added(a, t))
      && (AllTolerated(h, calls) <==> AllTolerated(h, Added(a, t)))
    decreases |calls|
  {
    hide Deliver, Tolerated, Emit, Extends, Added, EndsWith, IsTarget, Continuable;
    EmitAllExtends(a, calls);
    if calls == [] {
      ExtendsSelf(a);
    } else {
      var n := |calls| - 1;
      var before, e := calls[..n], calls[n];
      var t := EmitAll(a, before);
      CallsDeliver(h, a, before);
      AddedMore(a, t, e);
      var d := Added(a, t);
      if d == [] {
        NothingAdded(h, a, e);
        DeliverOne(h, e);
        OneTolerated(h, e);
      } else {
        if before != [] { TargetsApart(a, calls); }
        if before == [] { ExtendsSelf(a); }
        EmitDelivers(h, d, e);
      }
    }
  }

  lemma NothingAdded(h: Held, a: seq<Event>, e: Event)
    requires Continuable(h, a)
    ensures EndsWith(a, e) && e.text == "" ==> Tolerated(h, e) && Deliver(h, e) == h
  {
    hide Deliver, Tolerated;
    if EndsWith(a, e) && e.text == "" { assert e == Data(e.mark, ""); }
  }

  /** Two callbacks in a row are never for one target, so nothing is joined there. */
  lemma TargetsApart(a: seq<Event>, calls: seq<Event>)
    requires Single(calls) && |calls| > 1
    ensures
      var n := |calls| - 1;
      IsTarget(calls[n]) ==> !EndsWith(EmitAll(a, calls[..n]), calls[n])
  {
    var n := |calls| - 1;
    assert calls[..n][..n - 1] == calls[..n - 1] && calls[..n][n - 1] == calls[n - 1];
    LastKind(EmitAll(a, calls[..n - 1]), calls[n - 1]);
  }

  lemma LastKind(tr: seq<Event>, e: Event)
    ensures var w := Emit(tr, e); w != [] && w[|w| - 1].Data? == e.Data? && (e.Data? ==> w[|w| - 1].mark == e.mark)
  {
  }

  /** Joining a callback to the last one does not show, unless it is for a target. */
  lemma EmitDelivers(h: Held, d: seq<Event>, e: Event)
    requires IsTarget(e) ==> !EndsWith(d, e)
    ensures DeliverAll(h, Emit(d, e)) == Deliver(DeliverAll(h, d), e)
    ensures AllTolerated(h, Emit(d, e)) <==> AllTolerated(h, d) && Tolerated(DeliverAll(h, d), e)
  {
    hide Deliver, Tolerated;
    var r := Emit(d, e);
    if EndsWith(d, e) {
      var n := |d| - 1;
      assert r[..n] == d[..n];
      SplitsAreInvisible(DeliverAll(h, d[..n]), e.mark, d[n].text, e.text);
      SplitsAreTolerated(DeliverAll(h, d[..n]), e.mark, d[n].text, e.text);
    } else {
      assert r[..|d|] == d;
    }
  }

  /** What is held afterwards fits again. */
  lemma {:induction false} ContinuableAgain(h: Held, a: seq<Event>, calls: seq<Event>)
    requires Continuable(h, a) && AllTolerated(h, calls)
    ensures Continuable(DeliverAll(h, calls), EmitAll(a, calls))
  {
    hide Deliver, Tolerated, Emit;
    if calls != [] {
      var n := |calls| - 1;
      var g, e := DeliverAll(h, calls[..n]), calls[n];
      LastKind(EmitAll(a, calls[..n]), e);
      if e.Data? { EmptyIsNothing(g, e.mark, e.text); }
    }
  }

  /* ---- one read after the other ---------------------------------------- */

  /** From `b` to `c` no target goes on. */
  predicate NoneGoesOn(b: seq<Event>, c: seq<Event>)
    requires Extends(b, c)
  {
    b != [] && IsTarget(b[|b| - 1]) ==> c[|b| - 1] == b[|b| - 1]
  }

  /** Additions can be delivered in two parts, unless a target is cut. */
  lemma AddedTwice(h: Held, a: seq<Event>, b: seq<Event>, c: seq<Event>)
    requires Extends(a, b) && Extends(b, c) && NoneGoesOn(b, c)
    ensures
      var g := DeliverAll(h, Added(a, b));
      && Extends(a, c) && DeliverAll(h, Added(a, c)) == DeliverAll(g, Added(b, c))
      && (AllTolerated(h, Added(a, c)) <==> AllTolerated(h, Added(a, b)) && AllTolerated(g, Added(b, c)))
  {
    hide Deliver, Tolerated, DeliverAll, AllTolerated;
    ExtendsTwice(a, b, c);
    var x := Added(a, b);
    if b == [] {
      assert a == [] && x == [] && Added(b, c) == Added(a, c);
      DeliverConcat(h, x, Added(b, c));
      ToleratedConcat(h, x, Added(b, c));
      assert x + Added(b, c) == Added(a, c);
    } else if c[|b| - 1] == b[|b| - 1] {
      AddedBehind(a, b, c);
      DeliverConcat(h, x, Added(b, c));
      ToleratedConcat(h, x, Added(b, c));
    } else {
      var rest, e := c[|b|..], Data(b[|b| - 1].mark, c[|b| - 1].text[|b[|b| - 1].text|..]);
      assert Added(b, c) == [e] + rest;
      AddedInside(a, b, c);
      var g := DeliverAll(h, x);
      DeliverConcat(g, [e], rest);
      ToleratedConcat(g, [e], rest);
      DeliverOne(g, e);
      OneTolerated(g, e);
      if x == [] {
        NoneDelivered(h);
        assert Added(a, c) == Added(b, c);
      } else {
        EmitDelivers(h, x, e);
        DeliverConcat(h, Emit(x, e), rest);
        ToleratedConcat(h, Emit(x, e), rest);
      }
    }
  }

  lemma NoneDelivered(h: Held)
    ensures DeliverAll(h, []) == h && AllTolerated(h, [])
  {
  }

  lemma AddedBehind(a: seq<Event>, b: seq<Event>, c: seq<Event>)
    requires Extends(a, b) && Extends(b, c) && Extends(a, c) && b != [] && c[|b| - 1] == b[|b| - 1]
    ensures Added(a, c) == Added(a, b) + Added(b, c)
  {
    assert b[..|b| - 1] == c[..|b| - 1];
    assert c[|a|..] == b[|a|..] + c[|b|..] by { assert c[..|b|] == b; }
    if a != [] { assert c[|a| - 1] == b[|a| - 1]; }
  }

  lemma AddedInside(a: seq<Event>, b: seq<Event>, c: seq<Event>)
    requires Extends(a, b) && Extends(b, c) && Extends(a, c) && b != [] && c[|b| - 1] != b[|b| - 1]
    ensures
      var e := Data(b[|b| - 1].mark, c[|b| - 1].text[|b[|b| - 1].text|..]);
      Added(a, c) == (if Added(a, b) == [] then [e] else Emit(Added(a, b), e)) + c[|b|..]
  {
    var n := |b| - 1;
    var e := Data(b[n].mark, c[n].text[|b[n].text|..]);
    assert c[n] == Emit(b, e)[n] && c[..n] == b[..n];
    assert c == Emit(b, e) + c[|b|..];
    AddedMore(a, b, e);
    if Added(a, b) == [] { assert EndsWith(a, e); }
    assert c[|b|..] == c[|Emit(b, e)|..];
    AddedBehind(a, Emit(b, e), c);
    assert Added(Emit(b, e), c) == c[|b|..];
  }
}
