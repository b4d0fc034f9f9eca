/**
 The header limit over a whole stream: what it makes of a stream that arrives in
 reads, and exactly when no way of cutting the stream can exceed it.
 */
module ReadLimits {
  import opened Ascii
  import opened ParserTypes
  import opened ParserStep
  import opened ParserMachine
  import opened Fragmentation
  import opened HeaderLimit

  /** `Meter` for one read, continued where a call would have returned early. */
  function RunMeter(m: Machine, over: nat, inside: bool, data: string): Option<nat>
    decreases |data|
  {
    hide Transition;
    if data == "" || !m.core.errno.Ok? then Some(over)
    else
      var ch, w := data[0], Step(m, data[0]);
      if ParsingHeader(m.core.state) && !(inside && InLoop(m, ch)) && m.hdr + over + 1 > MAX_HEADER_SIZE then None
      else if !w.core.errno.Ok? then Some(Carried(m, over, ch))
      else if |data| == 1 && InLoop(m, ch) then Limited(m.hdr + over + 2, over + 1)
      else RunMeter(w, Carried(m, over, ch), InLoop(m, ch), data[1..])
  }

  /** The same for a stream that arrives in fragments. */
  function FragmentsMeter(m: Machine, over: nat, frags: seq<string>): Option<nat>
    decreases |frags|
  {
    hide Transition;
    if frags == [] then Some(over)
    else
      var a, r := RunMeter(Resume(m), over, false, frags[0]), Run(Resume(m), frags[0]);
      if a.None? || !r.m.core.errno.Ok? then a else FragmentsMeter(r.m, a.value, frags[1..])
  }

  /** The fragments are well formed and stay within the limit. */
  predicate Accepts(m: Machine, over: nat, frags: seq<string>) {
    FragmentsMeter(m, over, frags).Some? && RunFragments(m, frags).m.core.errno.Ok?
  }

  /* ---- the worst case ------------------------------------------------- */

  /** What `nread` exceeds the true count by after an octet that is a read of its own. */
  function Single(m: Machine, over: nat, ch: char): nat { Carried(m, over, ch) + (if InLoop(m, ch) then 1 else 0) }

  function SingleAll(m: Machine, over: nat, data: string): nat
    decreases |data|
  {
    hide Transition;
    if data == "" || !m.core.errno.Ok? then over else SingleAll(Step(m, data[0]), Single(m, over, data[0]), data[1..])
  }

  function Max(a: nat, b: nat): nat { if a > b then a else b }

  /** What one octet that is a read of its own brings `nread` to; bodies do not count. */
  function Here(m: Machine, over: nat, ch: char): nat {
    hide Transition;
    if !ParsingHeader(m.core.state) then 0
    else if Step(m, ch).core.errno.Ok? && InLoop(m, ch) then m.hdr + over + 2
    else m.hdr + over + 1
  }

  /**
   The highest value of `nread` when every octet is a read of its own: each octet of
   a header block counts once, and those read by the loops over names and values twice.
   */
  function Load(m: Machine, over: nat, data: string): nat
    decreases |data|
  {
    hide Transition;
    if data == "" || !m.core.errno.Ok? then 0
    else
      var w := Step(m, data[0]);
      if !w.core.errno.Ok? then Here(m, over, data[0])
      else Max(Here(m, over, data[0]), Load(w, Single(m, over, data[0]), data[1..]))
  }

  lemma ClearsForgets(m: Machine, ch: char)
    requires !Skips(m, ch)
    ensures Transition(m.core, m.jumped, ch) == Transition(m.core, false, ch)
  {
    hide StartStep, StatusLineStep, UrlPhaseStep, RequestVersionStep, BodyStep, ValueByte, IsHeaderChar;
  }

  /** Where no refused octet is jumped over, a jump under way does not matter. */
  lemma LoadResumes(m: Machine, over: nat, data: string)
    requires NeverSkips(m, data)
    ensures Load(Resume(m), over, data) == Load(m, over, data)
  {
    hide Transition, Step, Skips;
    if data != "" && m.core.errno.Ok? {
      StepForgets(m, data[0]);
      ClearsForgets(m, data[0]);
    }
  }

  lemma {:induction false} LoadJoins(m: Machine, over: nat, a: string, b: string)
    requires Run(m, a).m.core.errno.Ok?
    ensures Load(m, over, a + b) == Max(Load(m, over, a), Load(Run(m, a).m, SingleAll(m, over, a), b))
    decreases |a|
  {
    hide Transition, Step, Here, Single;
    if a == "" {
      assert a + b == b;
    } else {
      assert (a + b)[0] == a[0] && (a + b)[1..] == a[1..] + b;
      if m.core.errno.Ok? { LoadJoins(Step(m, a[0]), Single(m, over, a[0]), a[1..], b); }
    }
  }

  /** No way of reading counts more than octet by octet. */
  lemma {:induction false} MeterWithin(m: Machine, over: nat, more: nat, inside: bool, data: string)
    requires over <= more
    ensures
      var a := RunMeter(m, over, inside, data);
      if a.None? then Load(m, more, data) > MAX_HEADER_SIZE
      else Run(m, data).m.core.errno.Ok? ==> a.value <= SingleAll(m, more, data)
    decreases |data|
  {
    hide Transition, Step, ParsingHeader, InLoop;
    if data != "" && m.core.errno.Ok? && Step(m, data[0]).core.errno.Ok? {
      var ch := data[0];
      if |data| == 1 {
        assert data[1..] == "";
        MeterWithin(Step(m, ch), Carried(m, over, ch), Single(m, more, ch), InLoop(m, ch), "");
        if InLoop(m, ch) { LoopPlain(m, ch); }
      } else {
        MeterWithin(Step(m, ch), Carried(m, over, ch), Single(m, more, ch), InLoop(m, ch), data[1..]);
      }
    }
  }

  lemma {:induction false} FragmentsWithin(m: Machine, over: nat, more: nat, frags: seq<string>)
    requires over <= more && NeverSkips(m, Flatten(frags)) && FragmentsMeter(m, over, frags).None?
    ensures Load(m, more, Flatten(frags)) > MAX_HEADER_SIZE
    decreases |frags|
  {
    hide Transition, Step, Skips, Run, NeverSkips, Load, RunMeter, SingleAll;
    var a, b, x := frags[0], Flatten(frags[1..]), Resume(m);
    LoadResumes(m, more, a + b);
    ResumeMeets(m, a + b);
    MeterWithin(x, over, more, false, a);
    var r := Run(x, a);
    if RunMeter(x, over, false, a).None? {
      LoadOfPart(x, more, a, b);
    } else if r.m.core.errno.Ok? {
      LoadJoins(x, more, a, b);
      NeverSkipsRest(x, a, b);
      FragmentsWithin(r.m, RunMeter(x, over, false, a).value, SingleAll(x, more, a), frags[1..]);
    }
  }

  lemma {:induction false} LoadOfPart(m: Machine, over: nat, a: string, b: string)
    ensures Load(m, over, a) <= Load(m, over, a + b)
    decreases |a|
  {
    hide Transition, Step, Here, Single;
    if a != "" {
      assert (a + b)[0] == a[0] && (a + b)[1..] == a[1..] + b;
      if m.core.errno.Ok? { LoadOfPart(Step(m, a[0]), Single(m, over, a[0]), a[1..], b); }
    }
  }

  /* ---- octet by octet ------------------------------------------------- */

  function Singles(s: string): (frags: seq<string>)
    ensures Flatten(frags) == s
  {
    if s == "" then [] else
      var rest := Singles(s[1..]);
      assert ([[s[0]]] + rest)[1..] == rest;
      assert [s[0]] + s[1..] == s;
      [[s[0]]] + rest
  }

  lemma OneRead(m: Machine, over: nat, ch: char)
    requires m.core.errno.Ok?
    ensures
      RunMeter(m, over, false, [ch]) ==
        if Here(m, over, ch) > MAX_HEADER_SIZE then None
        else Some(if Step(m, ch).core.errno.Ok? then Single(m, over, ch) else Carried(m, over, ch))
    ensures Run(m, [ch]).m == Step(m, ch)
  {
    hide Transition, Step, ParsingHeader, InLoop, Run;
    assert [ch][1..] == "" && [ch][0] == ch;
    var w := Step(m, ch);
    if w.core.errno.Ok? && InLoop(m, ch) { LoopPlain(m, ch); }
    RunOne(m, ch);
  }

  lemma RunOne(m: Machine, ch: char)
    requires m.core.errno.Ok?
    ensures Run(m, [ch]).m == Step(m, ch)
  {
    hide Transition, Step;
    assert [ch][1..] == "" && [ch][0] == ch;
  }

  /** Read octet by octet, a stream exceeds the limit exactly when its load does. */
  lemma {:induction false} SinglesAreWorst(m: Machine, over: nat, s: string)
    requires NeverSkips(m, s) && m.core.errno.Ok?
    ensures FragmentsMeter(m, over, Singles(s)).None? <==> Load(m, over, s) > MAX_HEADER_SIZE
    decreases |s|
  {
    hide Transition, Step, Skips, Here, Single, Run, RunMeter;
    if s != "" {
      var x, w := Resume(m), Step(m, s[0]);
      OneRead(x, over, s[0]);
      StepForgets(m, s[0]);
      LoadResumes(m, over, s);
      HereForgets(m, over, s[0]);
      assert Singles(s)[0] == [s[0]] && Singles(s)[1..] == Singles(s[1..]);
      if w.core.errno.Ok? { SinglesAreWorst(w, Single(m, over, s[0]), s[1..]); }
    }
  }

  lemma HereForgets(m: Machine, over: nat, ch: char)
    requires !Skips(m, ch)
    ensures Here(m, over, ch) == Here(Resume(m), over, ch) && Single(m, over, ch) == Single(Resume(m), over, ch)
  {
    hide Transition, Step, Skips;
    StepForgets(m, ch);
    ClearsForgets(m, ch);
  }

  /* ---- every cut ------------------------------------------------------ */

  /** No way of cutting a stream exceeds the limit if and only if its load does not. */
  lemma EveryCutIsWithin(m: Machine, over: nat, all: string)
    requires m.core.errno.Ok? && NeverSkips(m, all)
    ensures
      (forall frags | Flatten(frags) == all :: FragmentsMeter(m, over, frags).Some?)
        <==> Load(m, over, all) <= MAX_HEADER_SIZE
  {
    hide FragmentsMeter, Load, NeverSkips, Singles, Flatten;
    SinglesAreWorst(m, over, all);
    assert Flatten(Singles(all)) == all;
    forall frags | Flatten(frags) == all && FragmentsMeter(m, over, frags).None?
      ensures Load(m, over, all) > MAX_HEADER_SIZE {
      FragmentsWithin(m, over, over, frags);
    }
  }

  /**
   Fragmentation invariance of the parser with its header limit, exactly: a
   well-formed stream is accepted under every way of cutting it if and only if no
   refused octet is jumped over and its load is within the limit.
   */
  lemma EveryCutIsAccepted(m: Machine, over: nat, all: string)
    requires m.core.errno.Ok? && !m.jumped && Run(m, all).m.core.errno.Ok?
    ensures
      (forall frags | Flatten(frags) == all :: Accepts(m, over, frags))
      <==> NeverSkips(m, all) && Load(m, over, all) <= MAX_HEADER_SIZE
  {
    hide FragmentsMeter, Load, NeverSkips, Flatten, Run, RunFragments, Splice;
    if NeverSkips(m, all) {
      EveryCutIsWithin(m, over, all);
      forall frags | Flatten(frags) == all ensures RunFragments(m, frags).m.core.errno.Ok? {
        FragmentsAreInvisible(m, frags);
      }
      assert (forall frags | Flatten(frags) == all :: Accepts(m, over, frags))
        ==> (forall frags | Flatten(frags) == all :: FragmentsMeter(m, over, frags).Some?);
    } else {
      var i := CutDiffers(m, all);
      var two := [all[..i], all[i..]];
      CutInTwo(m, all, i);
      assert Flatten(two) == all && !Accepts(m, over, two);
    }
  }

  /** A stream cut in two. */
  lemma CutInTwo(m: Machine, all: string, i: nat)
    requires !m.jumped && i <= |all| && Run(m, all[..i]).m.core.errno.Ok? && Splice(m, all[..i], all[i..]).n < |all|
    ensures Flatten([all[..i], all[i..]]) == all && !RunFragments(m, [all[..i], all[i..]]).m.core.errno.Ok?
  {
    hide Transition, Step, Run;
    var a, b := all[..i], all[i..];
    assert [a, b][1..] == [b] && [b][1..] == [];
    assert Flatten([b]) == b + Flatten([]) == b;
    assert a + b == all;
    assert Resume(m) == m;
    var r := Run(m, a);
    assert RunFragments(m, [a, b]).m == RunFragments(r.m, [b]).m;
    assert RunFragments(r.m, [b]).m.core.errno.Ok? ==> Run(Resume(r.m), b).m.core.errno.Ok?;
  }
}
