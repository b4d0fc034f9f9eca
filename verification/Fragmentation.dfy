/**
 How a stream may be cut into buffers.  The reference decides every octet alone,
 so the only thing a cut can change is the `memchr` jump over the rest of a
 header value: an octet that is jumped over is not checked.
 */
module Fragmentation {
  import opened Ascii
  import opened ParserStep
  import opened ParserMachine

  /** Two calls, the second one resuming after the first. */
  function Splice(m: Machine, a: string, b: string): Scanned {
    hide Transition;
    var r := Run(m, a);
    if !r.m.core.errno.Ok? then r
    else
      var s := Run(Resume(r.m), b);
      s.(n := r.n + s.n)
  }

  /** The same octets consumed, the same callbacks, the same error, and the same struct. */
  predicate Same(r: Scanned, s: Scanned) { r.n == s.n && Resume(r.m) == Resume(s.m) }

  /** `memchr` jumps over an octet that the character check would have refused. */
  predicate Skips(m: Machine, ch: char) {
    m.core.state.HeaderValue? && m.jumped && !m.core.lenient && !IsHeaderChar(ch)
  }

  /** No refused octet is jumped over when `data` arrives in one piece. */
  predicate NeverSkips(m: Machine, data: string)
    decreases |data|
  {
    hide Transition;
    data == [] || !m.core.errno.Ok?
    || (!Skips(m, data[0]) && NeverSkips(Step(m, data[0]), data[1..]))
  }

  /** Only the check of a jumped octet remembers where the buffer began. */
  lemma StepForgets(m: Machine, ch: char)
    requires !Skips(m, ch)
    ensures Step(m, ch) == Step(Resume(m), ch)
  {
    hide StartStep, StatusLineStep, UrlPhaseStep, RequestVersionStep, BodyStep, ValueByte, IsHeaderChar;
  }

  /** A jumped octet that would have been refused is accepted, and refused after a cut. */
  lemma StepSkips(m: Machine, ch: char)
    requires m.core.errno.Ok? && Skips(m, ch) && m.core.m.hs.General?
    ensures Step(m, ch).core.errno.Ok? && !Step(Resume(m), ch).core.errno.Ok?
  {
  }

  /** `memchr` only ever jumps in the general state of a value. */
  predicate JumpsInGeneral(m: Machine) { m.jumped ==> m.core.state.HeaderValue? && m.core.m.hs.General? }

  lemma StepJumps(m: Machine, ch: char)
    requires m.core.errno.Ok?
    ensures JumpsInGeneral(Step(m, ch))
  {
    hide StartStep, StatusLineStep, UrlPhaseStep, RequestVersionStep, BodyStep;
  }

  /** One octet after a cut, the two runs have met again. */
  lemma ResumeMeets(m: Machine, b: string)
    requires NeverSkips(m, b)
    ensures Same(Run(Resume(m), b), Run(m, b)) && NeverSkips(Resume(m), b)
  {
    hide Step, Transition, Skips;
    if b != [] && m.core.errno.Ok? {
      StepForgets(m, b[0]);
      assert !Skips(Resume(m), b[0]) by { ResumedNeverSkips(m, b[0]); }
    }
  }

  lemma ResumedNeverSkips(m: Machine, ch: char)
    ensures !Skips(Resume(m), ch)
  {
  }

  lemma {:induction false} CutKeeps(m: Machine, a: string, b: string)
    requires NeverSkips(m, a + b)
    ensures Same(Splice(m, a, b), Run(m, a + b))
    decreases |a|
  {
    hide Step, Transition, Skips;
    if a == [] {
      assert a + b == b;
      ResumeMeets(m, b);
    } else if m.core.errno.Ok? {
      assert (a + b)[0] == a[0] && (a + b)[1..] == a[1..] + b;
      if Step(m, a[0]).core.errno.Ok? { CutKeeps(Step(m, a[0]), a[1..], b); }
    }
  }

  /** The first jumped octet that should have been refused, if there is one. */
  lemma {:induction false} CutDiffers(m: Machine, data: string) returns (i: nat)
    requires JumpsInGeneral(m) && !NeverSkips(m, data)
    ensures i < |data| && !Same(Splice(m, data[..i], data[i..]), Run(m, data))
    ensures Splice(m, data[..i], data[i..]).n == i < Run(m, data).n
    ensures Run(m, data[..i]).m.core.errno.Ok?
    decreases |data|
  {
    hide Step, Transition, Skips, JumpsInGeneral;
    if Skips(m, data[0]) {
      i := 0;
      assert data[..0] == "" && data[0..] == data;
      SkipsInGeneral(m, data[0]);
      StepSkips(m, data[0]);
    } else {
      StepJumps(m, data[0]);
      var w := Step(m, data[0]);
      var j := CutDiffers(w, data[1..]);
      i := j + 1;
      assert data[..i][0] == data[0] && data[..i][1..] == data[1..][..j];
      assert data[i..] == data[1..][j..];
    }
  }

  lemma SkipsInGeneral(m: Machine, ch: char)
    requires JumpsInGeneral(m) && Skips(m, ch)
    ensures m.core.m.hs.General?
  {
  }

  predicate CutSafe(m: Machine, data: string, i: nat)
    requires i <= |data|
  {
    Same(Splice(m, data[..i], data[i..]), Run(m, data))
  }

  /**
   Fragmentation invariance, exactly: every way to cut a stream in two gives the
   outcome of the uncut stream if and only if no octet that the character check
   refuses is ever jumped over.
   */
  lemma CutsAreInvisible(m: Machine, data: string)
    requires JumpsInGeneral(m)
    ensures (forall i :: 0 <= i <= |data| ==> CutSafe(m, data, i)) <==> NeverSkips(m, data)
  {
    hide Run, Splice, NeverSkips, Transition, Step;
    if NeverSkips(m, data) {
      forall i | 0 <= i <= |data| ensures CutSafe(m, data, i) {
        assert data[..i] + data[i..] == data;
        CutKeeps(m, data[..i], data[i..]);
      }
    } else {
      var i := CutDiffers(m, data);
      assert !CutSafe(m, data, i);
    }
  }

  /** What a caller can check beforehand: header characters only, as in any well-formed message head. */
  lemma {:induction false} CleanNeverSkips(m: Machine, data: string)
    requires forall i :: 0 <= i < |data| ==> IsHeaderChar(data[i])
    ensures NeverSkips(m, data)
    decreases |data|
  {
    hide Step, Transition;
    if data != [] { CleanNeverSkips(Step(m, data[0]), data[1..]); }
  }

  /* ---- any number of cuts --------------------------------------------- */

  function Flatten(frags: seq<string>): string {
    if frags == [] then "" else frags[0] + Flatten(frags[1..])
  }

  /** A stream that arrives in fragments; an error stops it. */
  function RunFragments(m: Machine, frags: seq<string>): Scanned
    decreases |frags|
  {
    hide Transition;
    if frags == [] then Scanned(m, 0)
    else
      var r := Run(Resume(m), frags[0]);
      if !r.m.core.errno.Ok? then r
      else
        var s := RunFragments(r.m, frags[1..]);
        s.(n := r.n + s.n)
  }

  lemma {:induction false} NeverSkipsRest(m: Machine, a: string, b: string)
    requires NeverSkips(m, a + b) && Run(m, a).m.core.errno.Ok?
    ensures NeverSkips(Run(m, a).m, b)
    decreases |a|
  {
    hide Step, Transition, Skips;
    if a == [] {
      assert a + b == b;
    } else if m.core.errno.Ok? {
      assert (a + b)[0] == a[0] && (a + b)[1..] == a[1..] + b;
      NeverSkipsRest(Step(m, a[0]), a[1..], b);
    }
  }

  /** However a stream is cut, the outcome is that of the uncut stream. */
  lemma {:induction false} FragmentsAreInvisible(m: Machine, frags: seq<string>)
    requires m.core.errno.Ok? && NeverSkips(m, Flatten(frags))
    ensures Same(RunFragments(m, frags), Run(m, Flatten(frags)))
    decreases |frags|
  {
    hide Step, Transition, Skips, Run, NeverSkips;
    if frags == [] {
      RunEmpty(m);
    } else {
      var a, b := frags[0], Flatten(frags[1..]);
      ResumeMeets(m, a + b);
      var r := Run(Resume(m), a);
      CutKeeps(Resume(m), a, b);
      if r.m.core.errno.Ok? {
        NeverSkipsRest(Resume(m), a, b);
        FragmentsAreInvisible(r.m, frags[1..]);
        ResumeMeets(r.m, b);
      }
    }
  }

  lemma RunEmpty(m: Machine)
    ensures Run(m, "") == Scanned(m, 0)
  {
    hide Transition;
  }
}
