/** There is a message for every body that fits a string. */
module AnyBody {
  import opened Ascii
  import opened Numerals
  import opened ParserTypes
  import opened ParserStep
  import opened Fragmentation
  import opened FieldNames
  import opened FieldValues
  import opened HeaderLines
  import opened ChunkedCoding
  import opened HttpEncoder
  import opened FirstLines
  import opened RoundTrip
  import opened HeaderSizes
  import opened HttpDecoder
  import opened Reads
  import opened Telling
  import opened Streams
  import opened Delivery

  function LengthField(body: string): (string, string) { ("content-length", ToDecimal(|body|)) }

  /** A response with the body and nothing else. */
  function Plain(minor: nat, body: string): Message {
    Message(Reply(minor, 200, "OK"), [LengthField(body)], false, [body], None)
  }

  lemma OneField(minor: nat, body: string)
    ensures Fields(Plain(minor, body)) == Grouped(Plain(minor, body).headers) == [LengthField(body)]
  {
    hide ToDecimal;
    var p := LengthField(body);
    GroupedOne(p);
    assert IsNum(p.1[0]);
    TrimmedExactly(p.1);
    ReadOne(p);
  }

  lemma GroupedOne(p: (string, string))
    ensures Grouped([p]) == [p]
  {
    assert [p][..0] == [] && Grouped([]) == [];
  }

  lemma LengthName()
    ensures CleanKey("content-length") && LowerName("content-length") == CONTENT_LENGTH
  {
    var k := "content-length";
    assert forall i :: 0 <= i < |k| ==> IsToken(k[i]) && TokenLower(k[i]) == k[i];
  }

  lemma DigitsAreClean(v: string)
    requires v != "" && IsDigits(v)
    ensures CleanValue(v)
  {
    forall i | 0 <= i < |v| ensures IsHeaderChar(v[i]) && v[i] != CR && v[i] != LF {
      assert IsNum(v[i]);
    }
    assert IsNum(v[0]);
  }

  lemma Says(body: string)
    ensures
      var ps := [LengthField(body)];
      CleanPairs(ps) && !SaysChunked(ps) && SaysLength(ps) && Announced(ps, U64_MAX) == |body|
      && (|body| <= MAX_STRING ==> Lawful(ps, false))
  {
    hide ToDecimal, IsHeaderChar, IsToken, CleanKey, CleanValue, LowerName, IsChunkedText;
    var ps := [LengthField(body)];
    LengthName();
    DigitsAreClean(LengthField(body).1);
    assert ps[1..] == [];
    assert CONTENT_LENGTH != TRANSFER_ENCODING;
    assert Announced([], |body|) == |body|;
  }

  /** It can be sent. */
  lemma PlainIsSendable(minor: nat, body: string)
    requires minor < 10 && |body| <= MAX_STRING
    ensures Sendable(Plain(minor, body))
  {
    hide Fields, CleanPairs, SaysChunked, SaysLength, Announced, Lawful;
    OneField(minor, body);
    Says(body);
    assert [body][1..] == [] && Concat([body]) == body + Concat([]) == body;
  }

  function PowerOfTen(n: nat): nat { if n == 0 then 1 else 10 * PowerOfTen(n - 1) }

  lemma {:induction false} DecimalLength(n: nat, k: nat)
    requires 0 < k && n < PowerOfTen(k)
    ensures |ToDecimal(n)| <= k
    decreases k
  {
    if n >= 10 { DecimalLength(n / 10, k - 1); }
  }

  lemma LengthOfLength(n: nat)
    requires n <= MAX_STRING
    ensures |ToDecimal(n)| <= 20
  {
    assert PowerOfTen(5) == 100000;
    assert PowerOfTen(10) == 100000 * PowerOfTen(5);
    assert PowerOfTen(15) == 100000 * PowerOfTen(10);
    assert PowerOfTen(20) == 100000 * PowerOfTen(15) > MAX_STRING;
    DecimalLength(n, 20);
  }

  lemma LineLength(minor: nat)
    requires minor < 10
    ensures |LineText(Reply(minor, 200, "OK"))| <= 30
  {
    DecimalLength(200, 3);
  }

  lemma PlainFits(minor: nat, body: string)
    requires minor < 10 && |body| <= MAX_STRING
    ensures Sendable(Plain(minor, body)) && Fits(Plain(minor, body))
  {
    hide Sendable, LineText, ToDecimal, Fields;
    PlainIsSendable(minor, body);
    OneField(minor, body);
    LengthOfLength(|body|);
    LineLength(minor);
    var ps := [LengthField(body)];
    assert ps[1..] == [];
    assert |Lines(ps)| <= 40;
    assert SurplusAll(ps) <= 40 by { TrimmedIsShort(LengthField(body).1); }
  }

  /** And arrives, however it is cut. */
  lemma PlainArrives(minor: nat, body: string)
    requires minor < 10 && |body| <= MAX_STRING
    ensures AllSendable([Plain(minor, body)]) && Moderate([Plain(minor, body)])
    ensures forall frags | Flatten(frags) == Stream([Plain(minor, body)]) :: Arrives(false, frags)
  {
    hide Sendable, Fits, Stream, Flatten, Arrives;
    PlainFits(minor, body);
    EveryCutArrives([Plain(minor, body)], false);
  }

  lemma TrimmedIsShort(v: string)
    ensures |Trimmed(v)| <= |v|
  {
    var padding := PaddingTrimmed(v);
    assert |padding| + |Trimmed(v)| == |v|;
  }

  lemma TwoTold(a: string, b: string, frags: seq<string>)
    requires Sendable(Plain(0, a)) && Sendable(Plain(1, b))
    ensures
      var x, y := Plain(0, a), Plain(1, b);
      AllSendable([x, y]) && AllTold(Unset, [x, y], frags) == Told(x, Http10, L.NOWHERE) + Told(y, Http10, L.NOWHERE)
  {
    hide Sendable, Told, Wire;
    var x, y := Plain(0, a), Plain(1, b);
    var back := Back(frags, |Wire(x)|);
    var f, g := LocationTold(x.first, Front(frags, |Wire(x)|)), LocationTold(y.first, Front(back, |Wire(y)|));
    assert [x, y][1..] == [y] && [y][1..] == [];
    RecutTold(x, x, Http10, f, L.NOWHERE);
    RecutTold(y, y, Http10, g, L.NOWHERE);
    assert AllTold(Http10, [y], back) == Told(y, Http10, g) + AllTold(Http10, [], Back(back, |Wire(y)|));
    assert Told(y, Http10, g) + [] == Told(y, Http10, g);
  }

  /**
   A response in HTTP/1.0 and then one in HTTP/1.1 on the same connection: both arrive,
   and the receiver is told HTTP/1.0 of both.
   */
  lemma VersionIsKept(a: string, b: string)
    requires |a| <= MAX_STRING && |b| <= MAX_STRING
    ensures
      var x, y := Plain(0, a), Plain(1, b);
      && Sendable(x) && Sendable(y) && AllSendable([x, y])
      && (forall frags | Flatten(frags) == Stream([x, y]) :: Arrives(false, frags))
      && (forall frags :: AllTold(Unset, [x, y], frags) == Told(x, Http10, L.NOWHERE) + Told(y, Http10, L.NOWHERE))
      && Told(x, Http10, L.NOWHERE) + Told(y, Http10, L.NOWHERE) != AllOwn([x, y])
  {
    hide Sendable, Fits, Stream, Flatten, Arrives, Told, AllTold, AllOwn;
    var x, y := Plain(0, a), Plain(1, b);
    var rs := [x, y];
    PlainFits(0, a);
    PlainFits(1, b);
    EveryCutArrives(rs, false);
    forall frags ensures AllTold(Unset, rs, frags) == Told(x, Http10, L.NOWHERE) + Told(y, Http10, L.NOWHERE) {
      TwoTold(a, b, frags);
    }
    var whole := Buffers(Stream(rs));
    RepliesUncut(rs, whole);
    ToldIsOwn(rs, whole);
    assert VersionOf(rs[0].first.minor) != Http11 && VersionOf(rs[1].first.minor) != Http10;
  }
}
