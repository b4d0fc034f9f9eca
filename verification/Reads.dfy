/**
 A stream cut into reads: which cuts the owner of a decoder is told of.  Only a cut
 inside the target of a request shows.
 */
module Reads {
  import opened ParserTypes
  import opened ParserStep
  import opened ParserMachine
  import opened ParserInvariant
  import opened ParserRuns
  import opened ParserCalls
  import opened ParserWords
  import opened Fragmentation
  import opened HttpDecoder
  import opened Additions
  import opened Decoding
  import opened RequestLine

  /* ---- fragments up to a position -------------------------------------- */

  function Front(frags: seq<string>, n: nat): seq<string>
    decreases |frags|
  {
    if n == 0 || frags == [] then []
    else if |frags[0]| <= n then [frags[0]] + Front(frags[1..], n - |frags[0]|)
    else [frags[0][..n]]
  }

  function Back(frags: seq<string>, n: nat): seq<string>
    decreases |frags|
  {
    if n == 0 || frags == [] then frags
    else if |frags[0]| <= n then Back(frags[1..], n - |frags[0]|)
    else [frags[0][n..]] + frags[1..]
  }

  lemma {:induction false} FrontAndBack(frags: seq<string>, n: nat)
    requires n <= |Flatten(frags)|
    ensures Flatten(Front(frags, n)) == Flatten(frags)[..n] && Flatten(Back(frags, n)) == Flatten(frags)[n..]
    decreases |frags|
  {
    if n > 0 && frags != [] {
      var f, rest := frags[0], frags[1..];
      if |f| <= n {
        FrontAndBack(rest, n - |f|);
        assert ([f] + Front(rest, n - |f|))[1..] == Front(rest, n - |f|);
        assert Flatten(frags)[..n] == f + Flatten(rest)[..n - |f|];
        assert Flatten(frags)[n..] == Flatten(rest)[n - |f|..];
      } else {
        assert [f[..n]][1..] == [] && f[..n] + "" == f[..n];
        assert ([f[n..]] + rest)[1..] == rest;
        assert Flatten(frags)[..n] == f[..n] && Flatten(frags)[n..] == f[n..] + Flatten(rest);
      }
    }
  }

  /** The fragments that hold something. */
  function Pieces(frags: seq<string>): seq<string> {
    if frags == [] then [] else (if frags[0] == "" then [] else [frags[0]]) + Pieces(frags[1..])
  }

  lemma {:induction false} PiecesHold(frags: seq<string>)
    ensures Flatten(Pieces(frags)) == Flatten(frags) && forall i :: 0 <= i < |Pieces(frags)| ==> Pieces(frags)[i] != ""
    decreases |frags|
  {
    if frags != [] {
      PiecesHold(frags[1..]);
      if frags[0] == "" {
        PieceLess(frags);
      } else {
        assert ([frags[0]] + Pieces(frags[1..]))[1..] == Pieces(frags[1..]);
      }
    }
  }

  lemma PieceLess(frags: seq<string>)
    requires frags != [] && frags[0] == ""
    ensures Flatten(frags) == Flatten(frags[1..]) && Pieces(frags) == Pieces(frags[1..])
  {
    assert "" + Flatten(frags[1..]) == Flatten(frags[1..]) && [] + Pieces(frags[1..]) == Pieces(frags[1..]);
  }

  /* ---- parts of a run -------------------------------------------------- */

  lemma {:induction false} OverPart(m: Machine, a: string, b: string, w: Machine) returns (x: Machine)
    requires Over(m, a + b, w)
    ensures Over(m, a, x) && Over(x, b, w)
    decreases |a|
  {
    hide Transition, Step, Skips;
    if a == "" {
      assert a + b == b;
      x := m;
      OverNothing(m);
    } else {
      assert (a + b)[0] == a[0] && (a + b)[1..] == a[1..] + b;
      x := OverPart(Step(m, a[0]), a[1..], b, w);
    }
  }

  lemma OverSame(m: Machine, a: string, x: Machine, y: Machine)
    requires Over(m, a, x) && Over(m, a, y)
    ensures x == y
  {
  }

  /** A read leaves what the run leaves, but for a jump under way. */
  lemma OverRead(m: Machine, a: string, x: Machine)
    requires Over(m, a, x)
    ensures
      var y := Run(Resume(m), a).m;
      y.core.errno.Ok? && Resume(y) == Resume(x) && y.trace == x.trace && Extends(m.trace, x.trace)
  {
    hide Transition, Step, Extends;
    ResumeMeets(m, a);
    RunExtends(m, a);
  }

  /** The first read and the rest. */
  lemma FirstRead(h: Held, m: Machine, frags: seq<string>, x: Machine)
    requires frags != [] && Over(m, frags[0], x)
    ensures FragmentsHeard(h, m, frags) == FragmentsHeard(Heard(h, m, x), x, frags[1..])
    ensures FragmentsUnopposed(h, m, frags) <==> Unopposed(h, m, x) && FragmentsUnopposed(Heard(h, m, x), x, frags[1..])
  {
    hide Run, Over, Extends, Heard, Unopposed;
    OverRead(m, frags[0], x);
    var y := Run(Resume(m), frags[0]).m;
    SameTrace(h, m, y, x);
    Resumed(Heard(h, m, x), y, frags[1..]);
    Resumed(Heard(h, m, x), x, frags[1..]);
  }

  lemma OverEnds(m: Machine, w: Machine)
    requires Over(m, "", w)
    ensures w == m
  {
    hide Transition;
  }

  lemma NoReads(h: Held, m: Machine)
    ensures FragmentsHeard(h, m, []) == h && FragmentsUnopposed(h, m, [])
  {
  }

  lemma OverExtends(m: Machine, s: string, w: Machine)
    requires Over(m, s, w)
    ensures Extends(m.trace, w.trace)
  {
    hide Extends, Transition;
    RunExtends(m, s);
  }

  /** What does not go on in the end has not gone on in between. */
  lemma NoneBetween(b: seq<Event>, c: seq<Event>, d: seq<Event>)
    requires Extends(b, c) && Extends(c, d) && Extends(b, d) && NoneGoesOn(b, d)
    ensures NoneGoesOn(b, c)
  {
    if b != [] && IsTarget(b[|b| - 1]) {
      var n := |b| - 1;
      assert n < |c| - 1 ==> c[..|c| - 1][n] == d[..|c| - 1][n];
    }
  }

  /** Reads can be told in two parts, unless the position is inside a target. */
  lemma {:induction false} ReadsSplit(h: Held, m: Machine, frags: seq<string>, n: nat, x: Machine, w: Machine)
    requires n <= |Flatten(frags)| && Over(m, Flatten(frags)[..n], x) && Over(x, Flatten(frags)[n..], w)
    requires Extends(x.trace, w.trace) && NoneGoesOn(x.trace, w.trace)
    ensures
      var g := FragmentsHeard(h, m, Front(frags, n));
      && FragmentsHeard(h, m, frags) == FragmentsHeard(g, x, Back(frags, n))
      && (FragmentsUnopposed(h, m, frags)
          <==> FragmentsUnopposed(h, m, Front(frags, n)) && FragmentsUnopposed(g, x, Back(frags, n)))
    decreases |frags|
  {
    hide Over, Heard, Unopposed, FragmentsHeard, FragmentsUnopposed, Extends, NoneGoesOn, IsTarget;
    var all := Flatten(frags);
    NoReads(h, m);
    if n == 0 || frags == [] {
      assert all[..n] == "";
      OverEnds(m, x);
    } else {
      var f, rest := frags[0], frags[1..];
      if |f| <= n {
        assert all[..n] == f + Flatten(rest)[..n - |f|] && all[n..] == Flatten(rest)[n - |f|..];
        var y := OverPart(m, f, Flatten(rest)[..n - |f|], x);
        FirstRead(h, m, frags, y);
        ReadsSplit(Heard(h, m, y), y, rest, n - |f|, x, w);
        assert Front(frags, n)[0] == f && Front(frags, n)[1..] == Front(rest, n - |f|);
        FirstRead(h, m, Front(frags, n), y);
      } else {
        var p, q := f[..n], f[n..];
        assert all[..n] == p && all[n..] == q + Flatten(rest) && p + q == f;
        var y := OverPart(x, q, Flatten(rest), w);
        OverTrans(m, p, x, q, y);
        FirstRead(h, m, frags, y);
        OverExtends(m, p, x);
        OverExtends(x, q, y);
        OverExtends(y, Flatten(rest), w);
        NoneBetween(x.trace, y.trace, w.trace);
        HeardTwice(h, m, x, y);
        FirstRead(h, m, [p], x);
        assert [p][1..] == [];
        NoReads(Heard(h, m, x), x);
        assert ([q] + rest)[0] == q && ([q] + rest)[1..] == rest;
        FirstRead(Heard(h, m, x), x, [q] + rest, y);
      }
    }
  }

  /** No target goes on where none is among the additions. */
  predicate NoTargets(es: seq<Event>) { forall i :: 0 <= i < |es| ==> !IsTarget(es[i]) }

  lemma NoTargetGoesOn(a: seq<Event>, b: seq<Event>, c: seq<Event>)
    requires Extends(a, b) && Extends(b, c) && Extends(a, c) && NoTargets(Added(a, c))
    ensures NoneGoesOn(b, c) && NoTargets(Added(b, c))
  {
    var d := Added(a, c);
    if b != [] && c[|b| - 1] != b[|b| - 1] {
      AddedInside(a, b, c);
      LastOfPart(a, b, c);
    } else {
      AddedSuffix(a, b, c);
    }
  }

  lemma LastOfPart(a: seq<Event>, b: seq<Event>, c: seq<Event>)
    requires Extends(a, b) && Extends(b, c) && Extends(a, c) && NoTargets(Added(a, c)) && b != []
      && c[|b| - 1] != b[|b| - 1]
    ensures !IsTarget(c[|b| - 1]) && NoTargets(Added(b, c))
  {
    var n, k := |b| - 1, |a| - 1;
    var d := Added(a, c);
    if n > k {
      assert d[|More(a, c)| + n - |a|] == c[n];
    } else {
      assert n == k && c[n] != a[n];
      assert d[0] == More(a, c)[0];
    }
    forall i | |b| <= i < |c| ensures !IsTarget(c[i]) { assert d[|More(a, c)| + i - |a|] == c[i]; }
  }

  lemma AddedSuffix(a: seq<Event>, b: seq<Event>, c: seq<Event>)
    requires Extends(a, b) && Extends(b, c) && Extends(a, c) && NoTargets(Added(a, c))
      && (b != [] ==> c[|b| - 1] == b[|b| - 1])
    ensures NoTargets(Added(b, c))
  {
    forall i | |b| <= i < |c| ensures !IsTarget(c[i]) { assert Added(a, c)[|More(a, c)| + i - |a|] == c[i]; }
  }

  /** Where no target is read, no cut shows. */
  lemma {:induction false} PlainReads(h: Held, m: Machine, frags: seq<string>, w: Machine)
    requires Over(m, Flatten(frags), w) && Extends(m.trace, w.trace) && NoTargets(Added(m.trace, w.trace))
    ensures FragmentsHeard(h, m, frags) == Heard(h, m, w)
    ensures FragmentsUnopposed(h, m, frags) <==> Unopposed(h, m, w)
    decreases |frags|
  {
    hide Over, Heard, Unopposed, FragmentsHeard, FragmentsUnopposed, Extends, NoneGoesOn, NoTargets, Added;
    if frags == [] {
      NoReads(h, m);
      OverEnds(m, w);
      NothingHeard(h, m, w);
    } else {
      var x := OverPart(m, frags[0], Flatten(frags[1..]), w);
      FirstRead(h, m, frags, x);
      OverExtends(m, frags[0], x);
      OverExtends(x, Flatten(frags[1..]), w);
      NoTargetGoesOn(m.trace, x.trace, w.trace);
      PlainReads(Heard(h, m, x), x, frags[1..], w);
      HeardTwice(h, m, x, w);
    }
  }

  /* ---- the target ------------------------------------------------------ */

  /** In front of a target, or inside it. */
  predicate AtTarget(m: Machine) {
    m.core.errno.Ok? && (m.core.state.ReqSpacesBeforeUrl? || (InUrl(m.core.state) && EndsIn(m.trace, Mark.Url)))
  }

  function UrlFrom(m: Machine): State {
    if m.core.state.ReqSpacesBeforeUrl? then UrlStart(m.core.line.verb) else m.core.state
  }

  /** A part of a target. */
  lemma TargetPart(m: Machine, s: string) returns (w: Machine)
    requires AtTarget(m) && s != "" && !UrlRun(UrlFrom(m), s).Dead?
    ensures Over(m, s, w) && w.trace == Emit(m.trace, Data(Mark.Url, s)) && AtTarget(w)
    ensures w.core == m.core.(state := UrlRun(UrlFrom(m), s)) && InUrl(w.core.state) && UrlFrom(w) == w.core.state
  {
    hide Transition, Step, Over, ParseUrlChar, Emit, EndsIn, InUrl, UrlStart;
    if ParseUrlChar(UrlFrom(m), s[0]).Dead? { DeadStays(s[1..]); }
    EmitEnds(m.trace, Mark.Url, [s[0]]);
    EmitExtend(m.trace, Mark.Url, [s[0]], s[1..]);
    EmitEnds(m.trace, Mark.Url, s);
    assert [s[0]] + s[1..] == s;
    if m.core.state.ReqSpacesBeforeUrl? { UrlFirst(m, s[0]); } else { UrlStepOver(m, s[0]); }
    UrlCharIn(UrlFrom(m), s[0]);
    var a := Step(m, s[0]);
    w := UrlOver(a, s[1..]);
    OverTrans(m, [s[0]], a, s[1..], w);
    RunIn(UrlFrom(m), s);
    UrlIsNoSpace(w.core.state);
  }

  lemma UrlIsNoSpace(s: State)
    ensures InUrl(s) ==> !s.ReqSpacesBeforeUrl?
  {
  }

  lemma {:induction false} RunIn(s: State, t: string)
    requires t != "" && !UrlRun(s, t).Dead?
    ensures InUrl(UrlRun(s, t))
    decreases |t|
  {
    hide ParseUrlChar, InUrl;
    var u := ParseUrlChar(s, t[0]);
    if u.Dead? { DeadStays(t[1..]); }
    UrlCharIn(s, t[0]);
    if t[1..] != "" { RunIn(u, t[1..]); }
  }

  lemma {:induction false} UrlRunTwice(s: State, a: string, b: string)
    ensures UrlRun(s, a + b) == UrlRun(UrlRun(s, a), b)
    decreases |a|
  {
    hide ParseUrlChar;
    if a == "" {
      assert a + b == b;
    } else {
      assert (a + b)[0] == a[0] && (a + b)[1..] == a[1..] + b;
      UrlRunTwice(ParseUrlChar(s, a[0]), a[1..], b);
    }
  }

  /** The reads of a target are told as its pieces. */
  lemma {:induction false} TargetReads(h: Held, m: Machine, frags: seq<string>)
    requires AtTarget(m) && !UrlRun(UrlFrom(m), Flatten(frags)).Dead?
    requires h.requests && |h.locator.target + Flatten(frags)| <= L.MAX_TARGET
    ensures FragmentsHeard(h, m, frags) == h.(locator := L.OnTargets(h.locator, Pieces(frags)))
    ensures FragmentsUnopposed(h, m, frags)
    decreases |frags|
  {
    hide Over, Heard, Unopposed, FragmentsHeard, FragmentsUnopposed, AtTarget, UrlFrom, L.OnTarget, UrlRun;
    if frags == [] {
      NoReads(h, m);
    } else {
      var f, rest := frags[0], frags[1..];
      if f == "" {
        TargetIsOk(m);
        OverNothing(m);
        FirstRead(h, m, frags, m);
        NothingHeard(h, m, m);
        PieceLess(frags);
        TargetReads(h, m, rest);
      } else {
        UrlRunTwice(UrlFrom(m), f, Flatten(rest));
        if UrlRun(UrlFrom(m), f).Dead? { DeadStays(Flatten(rest)); }
        var w := TargetPart(m, f);
        FirstRead(h, m, frags, w);
        PieceHeard(h, m, f, w);
        var g := h.(locator := L.OnTarget(h.locator, f));
        PieceTarget(h.locator, f);
        assert h.locator.target + f + Flatten(rest) == h.locator.target + (f + Flatten(rest));
        TargetReads(g, w, rest);
        assert ([f] + Pieces(rest))[1..] == Pieces(rest);
      }
    }
  }

  lemma TargetIsOk(m: Machine)
    requires AtTarget(m)
    ensures m.core.errno.Ok?
  {
  }

  lemma PieceTarget(l: L.Locator, s: string)
    ensures L.OnTarget(l, s).target == l.target + s
  {
  }

  lemma PieceHeard(h: Held, m: Machine, f: string, w: Machine)
    requires w.trace == Emit(m.trace, Data(Mark.Url, f)) && f != "" && h.requests
      && |h.locator.target + f| <= L.MAX_TARGET
    ensures Heard(h, m, w) == h.(locator := L.OnTarget(h.locator, f)) && Unopposed(h, m, w)
  {
    hide L.OnTarget, Extends, Added, Emit;
    var e := Data(Mark.Url, f);
    EmitExtends(m.trace, e);
    DeliverOne(h, e);
    OneTolerated(h, e);
  }
}
