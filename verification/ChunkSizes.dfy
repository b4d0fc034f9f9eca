/**
 Chunk-size lines that are spelled otherwise than the encoder spells them (section 4.1 of
 RFC 7230): digits in either case, zeros in front, and chunk extensions.
 */
module ChunkSizes {
  import opened Ascii
  import opened Numerals
  import opened ParserTypes
  import opened ParserStep
  import opened ParserMachine
  import opened ParserInvariant
  import opened ParserWords
  import opened ChunkedCoding

  /** The text spells these digits. */
  predicate HexText(x: string, ds: seq<nat>) {
    |x| == |ds| && forall i :: 0 <= i < |x| ==> IsDigit16(x[i], ds[i])
  }

  function HexNumber(ds: seq<nat>): nat
    decreases |ds|
  {
    if ds == [] then 0 else HexNumber(ds[..|ds| - 1]) * 16 + ds[|ds| - 1]
  }

  /** What may stand between the size and the line end. */
  predicate IsExtension(e: string) {
    e == "" || ((e[0] == ';' || e[0] == ' ') && forall i :: 0 <= i < |e| ==> e[i] != '\r')
  }

  /** What one more octet does in a chunk-size line. */
  lemma SizeTurn(m: Machine, ch: char, o: Out)
    requires m.core.state.ChunkSizeStart? || m.core.state.ChunkSize? || m.core.state.ChunkParameters?
    requires o == (if m.core.state.ChunkSizeStart? then OnChunkSizeStart(m.core, ch)
                   else if m.core.state.ChunkSize? then OnChunkSize(m.core, ch) else OnChunkParameters(m.core, ch))
    requires OpenMark(o.core.state).None? && o.acts == []
    ensures Is(Step(m, ch), o.core, m.trace)
  {
    BodyTurn(m.core, m.jumped, ch);
    hide Transition, Step, OnChunkSizeStart, OnChunkSize, OnChunkParameters;
    PlainStep(m, ch, o);
  }

  lemma FirstDigit(m: Machine, ch: char, d: nat)
    requires m.core.errno.Ok? && m.core.state.ChunkSizeStart? && IsDigit16(ch, d)
    ensures InBodyAt(Step(m, ch), m, ChunkSize, d, m.trace)
  {
    DigitIs(ch, d);
    hide Step, Transition, Unhex, IsDigit16;
    SizeTurn(m, ch, OnChunkSizeStart(m.core, ch));
  }

  lemma NextDigit(m: Machine, ch: char, d: nat)
    requires m.core.errno.Ok? && m.core.state.ChunkSize? && IsDigit16(ch, d)
    ensures
      var n := m.core.m.contentLength;
      if n <= (U64_MAX - 16) / 16 then InBodyAt(Step(m, ch), m, ChunkSize, n * 16 + d, m.trace)
      else Step(m, ch).core.errno == InvalidContentLength
  {
    DigitIs(ch, d);
    NoReturn(ch, d);
    AddToLengthExact(m.core.m, 16, d);
    if m.core.m.contentLength > (U64_MAX - 16) / 16 { NoRoom(m.core.m, d); }
    hide Step, Transition, Unhex, IsDigit16, AddToLength;
    SizeTurn(m, ch, OnChunkSize(m.core, ch));
  }

  lemma NoReturn(ch: char, d: nat)
    requires IsDigit16(ch, d)
    ensures ch != CR
  {
  }

  lemma NoRoom(m: Matcher, d: nat)
    requires d < 16 && m.contentLength > (U64_MAX - 16) / 16
    ensures AddToLength(m, 16, d) == Matched(m, InvalidContentLength)
  {
  }

  lemma HexMore(x: string, ds: seq<nat>)
    requires HexText(x, ds) && |x| > 1
    ensures
      var k := |x| - 1;
      && HexText(x[..k], ds[..k]) && IsDigit16(x[k], ds[k]) && x[..k] + [x[k]] == x
      && HexNumber(ds) == HexNumber(ds[..k]) * 16 + ds[k]
  {
    hide IsDigit16;
  }

  lemma OneHex(x: string, ds: seq<nat>)
    requires HexText(x, ds) && |x| == 1
    ensures IsDigit16(x[0], ds[0]) && HexNumber(ds) == ds[0] && x == [x[0]]
  {
    hide IsDigit16;
    assert ds[..0] == [];
  }

  /** The largest size that can be read. */
  const MAX_SIZE: nat := U64_MAX - 16

  /** The text is refused for its size, whatever follows. */
  ghost predicate TooLarge(m: Machine, x: string) {
    forall t :: Run(m, x + t).m.core.errno == InvalidContentLength
  }

  lemma LargeOn(m: Machine, y: string, ch: char)
    requires TooLarge(m, y)
    ensures TooLarge(m, y + [ch])
  {
    hide Run;
    forall t ensures Run(m, y + [ch] + t).m.core.errno == InvalidContentLength {
      assert y + [ch] + t == y + ([ch] + t);
    }
  }

  lemma DigitThen(m: Machine, y: string, a: Machine, n: nat, ch: char, d: nat) returns (w: Machine)
    requires Over(m, y, a) && InBodyAt(a, m, ChunkSize, n, m.trace) && IsDigit16(ch, d)
    ensures
      if n * 16 + d <= MAX_SIZE then Over(m, y + [ch], w) && InBodyAt(w, m, ChunkSize, n * 16 + d, m.trace)
      else TooLarge(m, y + [ch])
  {
    SmallDigit(ch, d);
    OverIsOk(m, y, a);
    BodyAgain(a, m, n);
    hide Step, Transition, Over, IsDigit16, TooLarge, InBodyAt;
    NextDigit(a, ch, d);
    w := Step(a, ch);
    if n * 16 + d <= MAX_SIZE {
      NextBody(w, a, m, n, n * 16 + d);
      OverThen(m, y, a, ch);
    } else {
      LargeThen(m, y, a, ch);
    }
  }

  lemma BodyAgain(a: Machine, m: Machine, n: nat)
    requires InBodyAt(a, m, ChunkSize, n, m.trace)
    ensures a.core.state.ChunkSize? && a.core.m.contentLength == n && a.core.errno == m.core.errno
  {
  }

  lemma NextBody(w: Machine, a: Machine, m: Machine, n: nat, k: nat)
    requires InBodyAt(a, m, ChunkSize, n, m.trace) && InBodyAt(w, a, ChunkSize, k, a.trace)
    ensures InBodyAt(w, m, ChunkSize, k, m.trace) && w.core.errno == a.core.errno
  {
  }

  lemma OverIsOk(m: Machine, y: string, a: Machine)
    requires Over(m, y, a)
    ensures m.core.errno.Ok? && a.core.errno.Ok?
  {
    hide Run;
  }

  lemma LargeThen(m: Machine, y: string, a: Machine, ch: char)
    requires Over(m, y, a) && Step(a, ch).core.errno == InvalidContentLength
    ensures TooLarge(m, y + [ch])
  {
    hide Step, Transition, Run, Over;
    forall t ensures Run(m, y + [ch] + t).m.core.errno == InvalidContentLength {
      RefusedThen(m, y, a, ch, t);
      assert y + [ch] + t == y + ([ch] + t);
    }
  }

  lemma {:induction false} DigitsOver(m: Machine, x: string, ds: seq<nat>) returns (w: Machine)
    requires m.core.errno.Ok? && m.core.state.ChunkSizeStart? && x != "" && HexText(x, ds)
    ensures
      if HexNumber(ds) <= MAX_SIZE then Over(m, x, w) && InBodyAt(w, m, ChunkSize, HexNumber(ds), m.trace)
      else TooLarge(m, x)
    decreases |x|
  {
    assert |ds| == |x|;
    hide Step, Transition, Run, Over, HexText, HexNumber, IsDigit16, TooLarge;
    var k := |x| - 1;
    if k == 0 {
      OneHex(x, ds);
      FirstDigit(m, x[0], ds[0]);
      OverOctet(m, x[0]);
      SmallDigit(x[0], ds[0]);
      w := Step(m, x[0]);
    } else {
      HexMore(x, ds);
      w := DigitsOver(m, x[..k], ds[..k]);
      if HexNumber(ds[..k]) > MAX_SIZE { LargeOn(m, x[..k], x[k]); }
      else { w := DigitThen(m, x[..k], w, HexNumber(ds[..k]), x[k], ds[k]); }
    }
  }

  lemma SmallDigit(ch: char, d: nat)
    requires IsDigit16(ch, d)
    ensures d < 16
  {
  }

  lemma {:induction false} RefusedThen(m: Machine, a: string, w: Machine, ch: char, t: string)
    requires Over(m, a, w) && !Step(w, ch).core.errno.Ok?
    ensures Run(m, a + ([ch] + t)).m == Step(w, ch)
    decreases |a|
  {
    hide Transition, Step;
    var s := a + ([ch] + t);
    if a == "" {
      assert s[0] == ch;
    } else {
      assert s[0] == a[0] && s[1..] == a[1..] + ([ch] + t);
      RefusedThen(Step(m, a[0]), a[1..], w, ch, t);
    }
  }

  /* ---- extensions -------------------------------------------------------- */

  lemma ExtensionTurn(m: Machine, ch: char)
    requires m.core.errno.Ok? && ch != CR
    requires m.core.state.ChunkParameters? || (m.core.state.ChunkSize? && (ch == ';' || ch == SP))
    ensures InBodyAt(Step(m, ch), m, ChunkParameters, m.core.m.contentLength, m.trace)
  {
    NoDigit(ch);
    hide Step, Transition, Unhex;
    SizeTurn(m, ch, if m.core.state.ChunkSize? then OnChunkSize(m.core, ch) else OnChunkParameters(m.core, ch));
  }

  lemma NoDigit(ch: char)
    ensures ch == ';' || ch == SP ==> Unhex(ch) == -1
  {
  }

  lemma {:induction false} ExtensionOver(m: Machine, e: string) returns (w: Machine)
    requires m.core.errno.Ok? && (m.core.state.ChunkSize? || m.core.state.ChunkParameters?)
    requires if m.core.state.ChunkSize? then IsExtension(e) else forall i :: 0 <= i < |e| ==> e[i] != '\r'
    ensures Over(m, e, w)
    ensures
      InBodyAt(w, m, if e == "" then m.core.state else ChunkParameters, m.core.m.contentLength, m.trace)
    decreases |e|
  {
    hide Step, Transition, Over;
    if e == "" {
      w := m;
      OverNothing(m);
    } else {
      ExtensionTurn(m, e[0]);
      OverOctet(m, e[0]);
      var a := Step(m, e[0]);
      w := ExtensionOver(a, e[1..]);
      OverTrans(m, [e[0]], a, e[1..], w);
      assert [e[0]] + e[1..] == e;
    }
  }

  lemma ReturnTurn(m: Machine)
    requires m.core.errno.Ok? && (m.core.state.ChunkSize? || m.core.state.ChunkParameters?)
    ensures InBodyAt(Step(m, CR), m, ChunkSizeAlmostDone, m.core.m.contentLength, m.trace)
  {
    hide Step, Transition, Unhex;
    SizeTurn(m, CR, if m.core.state.ChunkSize? then OnChunkSize(m.core, CR) else OnChunkParameters(m.core, CR));
  }

  /**
   A chunk-size line in any spelling, with any extension: it is read, as exactly its number,
   if and only if that number is at most 2^64-17; otherwise it is an error, whatever follows.
   */
  lemma SizeLineReads(m: Machine, x: string, ds: seq<nat>, e: string) returns (w: Machine)
    requires m.core.errno.Ok? && m.core.state.ChunkSizeStart? && x != "" && HexText(x, ds) && IsExtension(e)
    ensures
      var n := HexNumber(ds);
      if n > MAX_SIZE then TooLarge(m, x)
      else
        && Over(m, x + e + CRLF, w) && w.trace == m.trace + [ChunkHeader(n, false)]
        && w.core == if n > 0 then m.core.(state := ChunkData, m := m.core.m.(contentLength := n))
           else m.core.(state := HeaderFieldStart,
                        m := m.core.m.(contentLength := 0, flags := m.core.m.flags.(trailing := true)))
  {
    hide Step, Transition, Over, Run, HexText, HexNumber, IsExtension, TooLarge;
    var a := DigitsOver(m, x, ds);
    w := a;
    if HexNumber(ds) <= MAX_SIZE {
      var b := ExtensionOver(a, e);
      OverTrans(m, x, a, e, b);
      ReturnTurn(b);
      OverThen(m, x + e, b, CR);
      var c := Step(b, CR);
      SizeFeed(c);
      OverThen(m, x + e + [CR], c, LF);
      w := Step(c, LF);
      assert x + e + [CR] + [LF] == x + e + CRLF;
    }
  }

  /** Anything else at the start of a chunk is refused. */
  lemma NoSize(m: Machine, ch: char, t: string)
    requires m.core.errno.Ok? && m.core.state.ChunkSizeStart? && forall d :: !IsDigit16(ch, d)
    ensures Run(m, [ch] + t).m.core.errno == InvalidChunkSize
  {
    NotHex(ch);
    hide Step, Transition, Unhex;
    SizeTurn(m, ch, OnChunkSizeStart(m.core, ch));
    OverNothing(m);
    RefusedThen(m, "", m, ch, t);
    assert "" + ([ch] + t) == [ch] + t;
  }
}
