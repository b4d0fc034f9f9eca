/** Whether a connection is kept open, in terms of the lines of the message. */
module Persistence {
  import opened Ascii
  import opened Numerals
  import opened ParserTypes
  import opened ParserStep
  import opened FieldNames
  import opened FieldValues
  import opened HeaderLines
  import opened ConnectionLists
  import opened FirstLines

  /** A Connection or Proxy-Connection field, in any case. */
  predicate IsConnection(k: string) { SpelledAs(k, "connection") || SpelledAs(k, "proxy-connection") }

  /** The list of some Connection field holds the word. */
  predicate SomeHolds(ps: Pairs, word: string) {
    exists i :: 0 <= i < |ps| && IsConnection(ps[i].0) && Holds(ps[i].1, word)
  }

  /** Some line asks for another protocol. */
  predicate AsksUpgrade(ps: Pairs) { exists i :: 0 <= i < |ps| && SpelledAs(ps[i].0, "upgrade") && ps[i].1 != "" }

  /** The message says where it ends, or cannot have a body. */
  predicate Delimited(f: FirstLine, ps: Pairs)
    requires CleanPairs(ps)
  {
    f.Ask? || f.status / 100 == 1 || f.status == 204 || f.status == 304 || SaysChunked(ps) || SaysLength(ps)
  }

  /**
   The connection persists (section 6.3 of RFC 7230): from HTTP/1.1 on unless some list
   holds "close", before if some list holds "keep-alive"; and the message must be delimited.
   */
  predicate Persists(f: FirstLine, ps: Pairs)
    requires CleanPairs(ps)
  {
    (if f.minor > 0 then !SomeHolds(ps, "close") else SomeHolds(ps, "keep-alive")) && Delimited(f, ps)
  }

  /* ---- one line -------------------------------------------------------- */

  lemma SpelledIsLower(k: string, word: string)
    requires IsTokens(k) && forall i :: 0 <= i < |word| ==> 'a' <= word[i] <= 'z' || word[i] == '-'
    ensures SpelledAs(k, word) <==> LowerName(k) == word
  {
    if LowerName(k) == word {
      forall i | 0 <= i < |k| ensures AnyCase(k[i], word[i]) { assert LowerName(k)[i] == TokenLower(k[i]); }
    }
    if SpelledAs(k, word) {
      forall i | 0 <= i < |k| ensures LowerName(k)[i] == word[i] { assert AnyCase(k[i], word[i]); }
    }
  }

  lemma FramingWords()
    ensures CONNECTION == "connection" && PROXY_CONNECTION == "proxy-connection" && UPGRADE == "upgrade"
    ensures |"connection"| == 10 && |"proxy-connection"| == 16
    ensures forall i :: 0 <= i < 10 ==> 'a' <= "connection"[i] <= 'z'
    ensures forall i :: 0 <= i < 16 ==> 'a' <= "proxy-connection"[i] <= 'z' || "proxy-connection"[i] == '-'
    ensures forall i :: 0 <= i < 7 ==> 'a' <= "upgrade"[i] <= 'z'
  {
  }

  /** What the name of a field says here. */
  lemma NameSays(m: Matcher, k: string)
    requires CleanKey(k) && Name(m, k).errno.Ok?
    ensures Name(m, k).m.hs.HConnection? <==> IsConnection(k)
    ensures Name(m, k).m.hs.HUpgrade? <==> SpelledAs(k, "upgrade")
    ensures Name(m, k).m.flags == LengthFlag(m.flags, LowerName(k)) && NameState(Name(m, k).m.hs)
  {
    FramingWords();
    SpelledIsLower(k, "connection");
    SpelledIsLower(k, "proxy-connection");
    SpelledIsLower(k, "upgrade");
    assert CONTENT_LENGTH[3] == 't' && TRANSFER_ENCODING[0] == 't';
    NameMeans(m, k, HConnection);
    NameMeans(m, k, HUpgrade);
    NameFlags(m, k);
    hide NameRun, FieldByte, LowerName, SpelledAs, IsToken;
    NameLeaves(m, k);
  }

  /** A state in which a name can leave the matcher. */
  predicate NameState(h: HeaderState) {
    h.General? || h.HC? || h.HCO? || h.HCON? || h.MatchingConnection? || h.MatchingProxyConnection?
    || h.MatchingContentLength? || h.MatchingTransferEncoding? || h.MatchingUpgrade?
    || h.HConnection? || h.HContentLength? || h.HTransferEncoding? || h.HUpgrade?
  }

  lemma NameLeaves(m: Matcher, k: string)
    requires CleanKey(k) && Name(m, k).errno.Ok?
    ensures NameState(Name(m, k).m.hs)
  {
    hide NameRun, FieldByte;
    StartReads(m, k[0]);
    NameRunReads(NameStart(m, k[0]), k[1..], [TokenLower(k[0])]);
  }

  /** What one line does to the flags that persistence depends on. */
  predicate LineSays(m: Matcher, k: string, v: string)
    requires CleanKey(k)
  {
    var r := LineMatcher(m, k, v);
    r.errno.Ok? ==>
      && r.m.flags.close == (m.flags.close || (IsConnection(k) && Holds(v, "close")))
      && r.m.flags.keepAlive == (m.flags.keepAlive || (IsConnection(k) && Holds(v, "keep-alive")))
      && r.m.flags.connUpgrade == (m.flags.connUpgrade || (IsConnection(k) && Holds(v, "upgrade")))
      && r.m.flags.upgrade == (m.flags.upgrade || (SpelledAs(k, "upgrade") && v != ""))
  }

  /** The flags other than those of the framing. */
  datatype Wishes = Wishes(close: bool, keepAlive: bool, connUpgrade: bool, upgrade: bool)

  function WishesOf(m: Matcher): Wishes {
    Wishes(m.flags.close, m.flags.keepAlive, m.flags.connUpgrade, m.flags.upgrade)
  }

  /** The header states of values that do not touch them. */
  predicate Indifferent(h: HeaderState) { h.General? || h.HContentLength? || h.MatchingChunked? || h.HChunked? }

  lemma IndifferentByte(m: Matcher, ch: char)
    requires Indifferent(m.hs)
    ensures Indifferent(ValueByte(m, ch).m.hs) && WishesOf(ValueByte(m, ch).m) == WishesOf(m)
  {
    hide Lower;
  }

  lemma {:induction false} IndifferentRun(m: Matcher, v: string)
    requires Indifferent(m.hs)
    ensures Indifferent(ValueRun(m, v).m.hs) && WishesOf(TokenFlags(ValueRun(m, v).m)) == WishesOf(m)
    decreases |v|
  {
    hide ValueByte;
    if v != "" {
      IndifferentByte(m, v[0]);
      if ValueByte(m, v[0]).errno.Ok? {
        IndifferentRun(ValueByte(m, v[0]).m, v[1..]);
      }
    }
  }

  lemma FirstIndifferent(m: Matcher, ch: char)
    requires NameState(m.hs) && !m.hs.HConnection?
    ensures
      var r := FirstValueByte(m, ch).m;
      Indifferent(r.hs) && WishesOf(r) == WishesOf(m).(upgrade := m.flags.upgrade || m.hs.HUpgrade?)
  {
    hide Lower;
  }

  /** A value of any other field. */
  lemma OtherWishes(m: Matcher, v: string)
    requires v != "" && NameState(m.hs) && !m.hs.HConnection?
    ensures WishesOf(TokenFlags(ValueOf(m, v).m)) == WishesOf(m).(upgrade := m.flags.upgrade || m.hs.HUpgrade?)
  {
    hide ValueByte, FirstValueByte, TokenFlags, Indifferent;
    FirstIndifferent(m, v[0]);
    FirstKeeps(m, v[0]);
    if FirstValueByte(m, v[0]).errno.Ok? { IndifferentRun(FirstValueByte(m, v[0]).m, v[1..]); }
  }

  lemma FirstKeeps(m: Matcher, ch: char)
    ensures Indifferent(FirstValueByte(m, ch).m.hs) ==>
      WishesOf(TokenFlags(FirstValueByte(m, ch).m)) == WishesOf(FirstValueByte(m, ch).m)
  {
    hide FirstValueByte;
  }

  lemma NothingHeld(word: string)
    requires word != ""
    ensures !Holds("", word)
  {
    assert Elements("") == [""];
    assert !Held([], false, word);
  }

  lemma LineMeans(m: Matcher, k: string, v: string)
    requires CleanKey(k) && CleanValue(v)
    ensures LineSays(m, k, v)
  {
    hide Name, ValueOf, IsToken, Holds, LengthFlag, SpelledAs, IsConnection;
    if Name(m, k).errno.Ok? {
      var n := Name(m, k).m;
      NameSays(m, k);
      LengthFlagOnly(m.flags, LowerName(k));
      if v == "" {
        NothingHeld("close");
        NothingHeld("keep-alive");
        NothingHeld("upgrade");
      } else if n.hs.HConnection? {
        ConnectionMeans(n, v);
        ConnectionIsNoUpgrade(k);
        ConnectionKeepsUpgrade(n, v);
      } else {
        OtherWishes(n, v);
      }
    }
  }

  lemma LengthFlagOnly(f: Flags, name: string)
    ensures LengthFlag(f, name) == f.(contentLength := LengthFlag(f, name).contentLength)
  {
  }

  lemma ConnectionIsNoUpgrade(k: string)
    requires IsConnection(k)
    ensures !SpelledAs(k, "upgrade")
  {
  }

  lemma ConnectionKeepsUpgrade(m: Matcher, v: string)
    requires m.hs.HConnection? && v != ""
    ensures TokenFlags(ValueOf(m, v).m).flags.upgrade == m.flags.upgrade
  {
    hide ValueByte, FirstValueByte;
    OtherValue(m, v);
  }

  /* ---- the block ------------------------------------------------------- */

  lemma {:induction false} BlockMeans(m: Matcher, ps: Pairs)
    requires CleanPairs(ps) && BlockMatcher(m, ps).errno.Ok?
    ensures
      var r := BlockMatcher(m, ps).m;
      && r.flags.close == (m.flags.close || SomeHolds(ps, "close"))
      && r.flags.keepAlive == (m.flags.keepAlive || SomeHolds(ps, "keep-alive"))
      && r.flags.connUpgrade == (m.flags.connUpgrade || SomeHolds(ps, "upgrade"))
      && r.flags.upgrade == (m.flags.upgrade || AsksUpgrade(ps))
    decreases |ps|
  {
    hide LineMatcher, CleanKey, CleanValue, Holds, IsConnection, SpelledAs;
    if ps != [] {
      LineMeans(m, ps[0].0, ps[0].1);
      BlockMeans(LineMatcher(m, ps[0].0, ps[0].1).m, ps[1..]);
      SomeSplits(ps, "close");
      SomeSplits(ps, "keep-alive");
      SomeSplits(ps, "upgrade");
    }
  }

  lemma SomeSplits(ps: Pairs, word: string)
    requires ps != []
    ensures SomeHolds(ps, word) <==> (IsConnection(ps[0].0) && Holds(ps[0].1, word)) || SomeHolds(ps[1..], word)
    ensures AsksUpgrade(ps) <==> (SpelledAs(ps[0].0, "upgrade") && ps[0].1 != "") || AsksUpgrade(ps[1..])
  {
    hide Holds, IsConnection, SpelledAs;
    assert forall i :: 0 < i < |ps| ==> ps[i] == ps[1..][i - 1];
    if SomeHolds(ps[1..], word) {
      var i :| 0 <= i < |ps| - 1 && IsConnection(ps[1..][i].0) && Holds(ps[1..][i].1, word);
      assert ps[i + 1] == ps[1..][i];
    }
    if AsksUpgrade(ps[1..]) {
      var i :| 0 <= i < |ps| - 1 && SpelledAs(ps[1..][i].0, "upgrade") && ps[1..][i].1 != "";
      assert ps[i + 1] == ps[1..][i];
    }
  }

  /** What the parser answers after any lawful header block is what its lines say. */
  lemma KeepAliveMeans(f: FirstLine, ps: Pairs)
    requires CleanPairs(ps) && Lawful(ps, false)
    ensures BlockMatcher(LineEnd(f), ps).errno.Ok?
    ensures ShouldKeepAlive(LineOf(f), BlockMatcher(LineEnd(f), ps).m) <==> Persists(f, ps)
  {
    hide BlockMatcher, CleanPairs, Lawful, SomeHolds, SaysChunked, SaysLength, MethodString;
    BlockFraming(LineEnd(f), ps);
    BlockMeans(LineEnd(f), ps);
    LengthSaid(ps);
  }

  /** The length that is announced is one, and not the sign for none. */
  lemma {:induction false} LengthSaid(ps: Pairs)
    requires CleanPairs(ps) && Lawful(ps, false)
    ensures Announced(ps, U64_MAX) != U64_MAX <==> SaysLength(ps)
    decreases |ps|
  {
    hide IsToken, CleanValue;
    if ps != [] {
      if LowerName(ps[0].0) == CONTENT_LENGTH {
        AnnouncedOnce(ps[1..], Decimal(ps[0].1));
      } else {
        LengthSaid(ps[1..]);
      }
    }
  }

  lemma {:induction false} AnnouncedOnce(ps: Pairs, n: nat)
    requires CleanPairs(ps) && Lawful(ps, true)
    ensures Announced(ps, n) == n
    decreases |ps|
  {
    hide CleanKey, CleanValue;
    if ps != [] { AnnouncedOnce(ps[1..], n); }
  }
}
