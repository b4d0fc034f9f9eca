/** Streams on which the way they are cut into reads does make a difference. */
module CutExamples {
  import opened Ascii
  import opened ParserTypes
  import opened ParserStep
  import opened ParserMachine
  import opened ParserInvariant
  import opened ParserRuns
  import opened Fragmentation
  import opened FieldNames
  import opened FieldValues
  import opened ParserWords
  import opened HeaderLines
  import opened HeaderLimit
  import opened ReadLimits
  import opened LoadRuns
  import opened HeaderSizes
  import opened RequestLine

  /** The beginning of a request, up to the value of its first field. */
  const OPENING: string := "GET / HTTP/1.1\r\nA: "

  lemma OpeningText()
    ensures OPENING == RequestText(GET, "/", 1) + "A: " && |OPENING| == 19
  {
    assert RequestText(GET, "/", 1) == "GET" + [SP] + ("/" + [SP] + ("HTTP/1." + ['1'] + CRLF));
    assert "GET" + [SP] + ("/" + [SP] + ("HTTP/1." + ['1'] + CRLF)) == "GET / HTTP/1.1\r\n";
  }

  lemma RootIsClean()
    ensures CleanTarget(GET, "/")
  {
    assert ParseUrlChar(ReqSpacesBeforeUrl, '/') == ReqPath;
    assert "/"[1..] == "" && UrlRun(ReqPath, "") == ReqPath;
  }

  lemma NameIsGeneral(m: Matcher)
    ensures CleanKey("A") && Name(m, "A").errno.Ok? && Name(m, "A").m.hs.General?
  {
    assert "A"[1..] == "";
    assert NameRun(NameStart(m, 'A'), "") == Now(NameStart(m, 'A'));
  }

  /** In front of the value, with what has been counted. */
  lemma OpeningOver(m: Machine) returns (w: Machine)
    requires m.core == Init(Both, true)
    ensures Over(m, OPENING, w) && w.core.errno.Ok? && w.core.state.HeaderValueDiscardWs? && w.core.m.hs.General?
      && !w.core.lenient
    ensures Noted(w.trace) == Noted(m.trace) && Twice(m, OPENING) == 0
  {
    hide Over, Transition, Step, MethodString, CleanTarget, Name, RequestText, Twice, Noted, Emit, CleanKey;
    OpeningText();
    RootIsClean();
    var a := RequestLineOver(m, GET, "/", 1);
    NameIsGeneral(a.core.m);
    w := KeyOver(a, "A");
    assert "A" + ": " == "A: ";
    OverTrans(m, RequestText(GET, "/", 1), a, "A: ", w);
    NotedAll(m.trace, [MessageBegin, Data(Mark.Url, "/")]);
    NotedEmit(a.trace, Data(Field, "A"));
    DataMarksNot(Field, "A");
    RestsAtStart(m.core.state);
    LineTwice(m, RequestText(GET, "/", 1), a);
    KeyTwice(a, "A");
    TwiceJoins(m, RequestText(GET, "/", 1), a, "A: ");
  }

  /** One octet of a value that means nothing. */
  lemma ValueBegins(m: Machine, ch: char) returns (w: Machine)
    requires m.core.errno.Ok? && m.core.state.HeaderValueDiscardWs? && m.core.m.hs.General?
    requires ch != SP && ch != HT && ch != CR && ch != LF
    ensures Over(m, [ch], w) && w.core.errno.Ok? && w.core.state.HeaderValue? && w.core.m.hs.General?
      && w.core.lenient == m.core.lenient
    ensures EndsIn(w.trace, Value) && Noted(w.trace) == Noted(m.trace) && !InLoop(m, ch) && !w.jumped
  {
    hide Over, Transition, Step, Noted, Emit;
    ValueFirst(m, ch);
    OverOctet(m, ch);
    w := Step(m, ch);
    EmitEnds(m.trace, Value, [ch]);
    NotedEmit(m.trace, Data(Value, [ch]));
    DataMarksNot(Value, [ch]);
    NoJumpYet(m, ch);
  }

  lemma NoJumpYet(m: Machine, ch: char)
    requires !m.core.state.HeaderValue?
    ensures !Step(m, ch).jumped
  {
    hide Transition, Interpret;
  }

  /* ---- a refused octet ------------------------------------------------ */

  /** A value of three octets, of which the header-character check refuses the last. */
  const UNCHECKED: string := OPENING + "bc" + [1 as char]

  /**
   Read at once, it is accepted, because the check is skipped after the second
   octet; cut in front of the third, it is refused.
   */
  lemma UncheckedOctet()
    ensures
      var m, i := Start(Both, true), |UNCHECKED| - 1;
      && !NeverSkips(m, UNCHECKED)
      && RunFragments(m, [UNCHECKED]).m.core.errno.Ok?
      && RunFragments(m, [UNCHECKED[..i], UNCHECKED[i..]]).m.core.errno == InvalidHeaderToken
  {
    hide Over, Transition, Step, Emit, Noted, ValueByte, Run, NeverSkips, RunFragments, Twice;
    var m, bad, i := Start(Both, true), 1 as char, |UNCHECKED| - 1;
    var a := OpeningOver(m);
    var b := ValueBegins(a, 'b');
    PlainOctet(b, 'c');
    OverOctet(b, 'c');
    var c := Step(b, 'c');
    OverTrans(m, OPENING, a, "b", b);
    OverTrans(m, OPENING + "b", b, "c", c);
    assert OPENING + "b" + "c" == UNCHECKED[..i] && [bad] == UNCHECKED[i..];
    PlainOctet(c, bad);
    BadOctet(Resume(c), bad);
    OverRuns(m, UNCHECKED[..i], c);
    RunOne(c, bad);
    RunOne(Resume(c), bad);
    RunJoins(m, UNCHECKED[..i], [bad]);
    assert UNCHECKED[..i] + [bad] == UNCHECKED;
    OneFragment(m, UNCHECKED);
    TwoFragments(m, UNCHECKED[..i], [bad]);
    if NeverSkips(m, UNCHECKED) {
      CutKeeps(m, UNCHECKED[..i], [bad]);
      SpliceMeans(m, UNCHECKED[..i], [bad]);
    }
  }

  lemma PlainOctet(m: Machine, ch: char)
    requires m.core.errno.Ok? && m.core.state.HeaderValue? && m.core.m.hs.General? && ch != CR && ch != LF
    requires IsHeaderChar(ch) || m.jumped
    ensures Step(m, ch).core.errno.Ok? && Step(m, ch).core == m.core && Step(m, ch).jumped
  {
    hide Emit;
    ValueOctet(m, ch);
  }

  lemma BadOctet(m: Machine, ch: char)
    requires m.core.errno.Ok? && m.core.state.HeaderValue? && !m.core.lenient && !m.jumped
    requires !IsHeaderChar(ch) && ch != CR && ch != LF
    ensures Step(m, ch).core.errno == InvalidHeaderToken
  {
    ValueOctetFails(m, ch);
  }

  lemma OverRuns(m: Machine, s: string, w: Machine)
    requires Over(m, s, w)
    ensures Run(m, s).m == w && m.core.errno.Ok?
  {
  }

  lemma {:induction false} RunJoins(m: Machine, a: string, b: string)
    requires Run(m, a).m.core.errno.Ok?
    ensures Run(m, a + b).m == Run(Run(m, a).m, b).m
    decreases |a|
  {
    hide Transition, Step;
    if a == "" {
      assert a + b == b;
    } else {
      assert (a + b)[0] == a[0] && (a + b)[1..] == a[1..] + b;
      if m.core.errno.Ok? { RunJoins(Step(m, a[0]), a[1..], b); }
    }
  }

  lemma OneFragment(m: Machine, s: string)
    requires !m.jumped
    ensures RunFragments(m, [s]).m == Run(m, s).m && FragmentsMeter(m, 0, [s]) == RunMeter(m, 0, false, s)
  {
    hide Transition, Run, RunMeter;
    assert Resume(m) == m && [s][1..] == [];
  }

  lemma TwoFragments(m: Machine, a: string, b: string)
    requires !m.jumped && Run(m, a).m.core.errno.Ok?
    ensures RunFragments(m, [a, b]).m == Run(Resume(Run(m, a).m), b).m
  {
    hide Transition, Run;
    assert Resume(m) == m && [a, b][1..] == [b] && [b][1..] == [];
    assert RunFragments(Run(m, a).m, [b]).m == Run(Resume(Run(m, a).m), b).m;
  }

  lemma SpliceMeans(m: Machine, a: string, b: string)
    requires Run(m, a).m.core.errno.Ok?
    ensures Splice(m, a, b).m == Run(Resume(Run(m, a).m), b).m
  {
    hide Run;
  }

  /* ---- a long value ---------------------------------------------------- */

  function Bs(n: nat): string { seq(n, _ => 'b') }

  /** A value of `n` octets, still open. */
  function LongValue(n: nat): string { OPENING + Bs(n) }

  lemma {:induction false} ShortIsWithin(m: Machine, over: nat, inside: bool, s: string)
    requires m.hdr + over + |s| + 1 <= MAX_HEADER_SIZE
    ensures RunMeter(m, over, inside, s).Some?
    decreases |s|
  {
    hide Transition, Step, InLoop, ParsingHeader;
    if s != "" && m.core.errno.Ok? {
      CountsOne(m, over, s[0]);
      ShortIsWithin(Step(m, s[0]), Carried(m, over, s[0]), InLoop(m, s[0]), s[1..]);
    }
  }

  lemma CountsOne(m: Machine, over: nat, ch: char)
    ensures Step(m, ch).hdr <= m.hdr + 1 && Carried(m, over, ch) <= over
  {
    hide Transition, Interpret, OpenMark, ParsingHeader;
  }

  lemma ValueGoesOn(m: Machine, s: string) returns (w: Machine)
    requires m.core.errno.Ok? && m.core.state.HeaderValue? && m.core.m.hs.General? && EndsIn(m.trace, Value)
    requires forall i :: 0 <= i < |s| ==> s[i] == 'b'
    ensures Over(m, s, w) && Twice(m, s) == |s| && Noted(w.trace) == Noted(m.trace)
  {
    hide Over, Transition, Step, Noted, Emit, Twice, ValueRun;
    HarmlessRun(m.core.m, s);
    w := ValueOver(m, s);
    LoopTwice(m, s, w);
    NotedEmit(m.trace, Data(Value, s));
    DataMarksNot(Value, s);
  }

  lemma LongValueOver(n: nat) returns (w: Machine)
    requires n > 0
    ensures Over(Start(Both, true), LongValue(n), w)
    ensures Load(Start(Both, true), 0, LongValue(n)) == 2 * n + 18
  {
    hide Over, Transition, Step, Noted, Twice, Calm, Load, SingleAll;
    var m := Start(Both, true);
    OpeningText();
    var a := OpeningOver(m);
    var b := ValueBegins(a, 'b');
    w := ValueGoesOn(b, Bs(n)[1..]);
    OneTwice(a, 'b');
    OverTrans(m, OPENING, a, "b", b);
    TwiceJoins(m, OPENING, a, "b");
    OverTrans(m, OPENING + "b", b, Bs(n)[1..], w);
    TwiceJoins(m, OPENING + "b", b, Bs(n)[1..]);
    assert OPENING + "b" + Bs(n)[1..] == LongValue(n);
    RestsAtStart(m.core.state);
    QuietRun(m, LongValue(n), w);
    CalmLoad(m, 0, LongValue(n), w);
  }

  /**
   A long value is accepted when it comes in one read, up to 81900 octets, but not
   under every way of cutting it, from 40952 octets on.
   */
  lemma LongValueCuts(n: nat)
    requires 0 < n
    ensures
      (forall frags | Flatten(frags) == LongValue(n) :: Accepts(Start(Both, true), 0, frags))
        <==> 2 * n + 18 <= MAX_HEADER_SIZE
    ensures n + 20 <= MAX_HEADER_SIZE ==> Accepts(Start(Both, true), 0, [LongValue(n)])
    ensures 2 * n + 18 > MAX_HEADER_SIZE ==> !Accepts(Start(Both, true), 0, Singles(LongValue(n)))
  {
    hide Transition, Step, Load, Accepts, Flatten, NeverSkips, Run, RunMeter, FragmentsMeter, RunFragments, Singles;
    var m, s := Start(Both, true), LongValue(n);
    var w := LongValueOver(n);
    OpeningText();
    EveryCutIsAccepted(m, 0, s);
    OneFragment(m, s);
    SinglesAreWorst(m, 0, s);
    if n + 20 <= MAX_HEADER_SIZE { ShortIsWithin(m, 0, false, s); }
    AcceptsMeans(m, [s]);
    AcceptsMeans(m, Singles(s));
  }

  lemma AcceptsMeans(m: Machine, frags: seq<string>)
    ensures Accepts(m, 0, frags) <==> FragmentsMeter(m, 0, frags).Some? && RunFragments(m, frags).m.core.errno.Ok?
  {
    hide FragmentsMeter, RunFragments;
  }
}
