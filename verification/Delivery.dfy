/**
 End to end: what an encoder printed is what the decoder on the other side of the
 connection tells its owner, and how the cuts of the octets in between show.
 */
module Delivery {
  import opened ParserTypes
  import opened ParserMachine
  import opened Fragmentation
  import opened HttpEncoder
  import opened HttpParser
  import opened RoundTrip
  import opened HttpDecoder
  import opened Decoding
  import opened HeaderSizes
  import opened ParserMarks
  import opened ReadLimits
  import opened Streams

  /** Every head and every trailer is within the limit, even if each octet comes in a read of its own. */
  predicate Moderate(rs: seq<Message>)
    requires AllSendable(rs)
  {
    forall i :: 0 <= i < |rs| ==> Fits(rs[i])
  }

  lemma {:induction false} ModerateMeans(rs: seq<Message>)
    requires AllSendable(rs)
    ensures Moderate(rs) <==> StreamLoad(rs) <= MAX_HEADER_SIZE
    decreases |rs|
  {
    hide Sendable, MessageLoad, Fits;
    if rs != [] {
      FitsMeans(rs[0]);
      ModerateMeans(rs[1..]);
      assert Moderate(rs) ==> Fits(rs[0]) && Moderate(rs[1..]);
      if Fits(rs[0]) && Moderate(rs[1..]) {
        forall i | 0 <= i < |rs| ensures Fits(rs[i]) {
          if i > 0 { assert rs[i] == rs[1..][i - 1]; }
        }
      }
    }
  }

  /** The whole stream, for a decoder that has just been made. */
  lemma StreamArrives(rs: seq<Message>)
    requires AllSendable(rs)
    ensures
      var m := Start(Both, true);
      && NeverSkips(m, Stream(rs)) && Load(m, 0, Stream(rs)) == StreamLoad(rs)
      && Run(m, Stream(rs)).m.core == Init(Both, true)
  {
    hide Run, NeverSkips, Load, Sendable, StreamLoad, StreamEvents, Stream;
    var m := Start(Both, true);
    assert Inv(m);
    var w := StreamOver(m, rs);
    StreamCounts(m, rs);
  }

  /** A new decoder takes these reads: the parser accepts them, and nothing objects to a callback. */
  ghost predicate Arrives(requests: bool, frags: seq<string>) {
    var m := Start(Both, true);
    Accepts(m, 0, frags) && FragmentsUnopposed(Empty(requests, Unset, []), m, frags)
  }

  /**
   Exactly when messages arrive however the network cuts them: what each of them
   counts towards the header limit, octet by octet, is within it.
   */
  lemma EveryCutArrives(rs: seq<Message>, requests: bool)
    requires AllSendable(rs) && Alike(rs, requests)
    ensures (forall frags | Flatten(frags) == Stream(rs) :: Arrives(requests, frags)) <==> Moderate(rs)
  {
    hide Run, NeverSkips, Load, Sendable, StreamLoad, Stream, Moderate, Accepts, Flatten, FragmentsUnopposed;
    var m := Start(Both, true);
    StreamArrives(rs);
    ModerateMeans(rs);
    EveryCutIsAccepted(m, 0, Stream(rs));
    forall frags | Flatten(frags) == Stream(rs) ensures Arrives(requests, frags) <==> Accepts(m, 0, frags) {
      var w := StreamHeard(requests, Unset, [], m, rs, frags);
    }
  }

  /**
   A stream of messages arrives in some reads: its receiver is told of the messages in
   order, the target of each as its pieces tell it and the version of the first.  That
   is what their senders mean exactly if all are of one version, and every target is
   legal and comes in one piece.
   */
  method Arrive(ghost rs: seq<Message>, requests: bool, buffers: seq<string>) returns (notices: seq<Notice>)
    requires AllSendable(rs) && Moderate(rs) && Alike(rs, requests) && Flatten(buffers) == Stream(rs)
    requires forall i :: 0 <= i < |buffers| ==> |buffers[i]| <= MAX_BUFFER
    ensures notices == AllTold(Unset, rs, buffers)
    ensures AllLegal(rs) || Uncut(rs, buffers) ==>
      (notices == AllOwn(rs) <==> OneVersion(rs) && AllLegal(rs) && Uncut(rs, buffers))
  {
    hide Run, NeverSkips, Load, Sendable, Moderate, Inv, Stream, StreamLoad, AllTold, RunFragments, FragmentsMeter,
      Accepts, Lags, FragmentsHeard, FragmentsUnopposed, Uncut, AllLegal, AllOwn, OneVersion, Flatten, StreamEvents;
    var decoder := new Decoder(requests);
    var ok, heard := decoder.Receive(buffers);
    StreamArrives(rs);
    ModerateMeans(rs);
    ghost var w := StreamHeard(requests, Unset, [], Start(Both, true), rs, buffers);
    assert [] + AllTold(Unset, rs, buffers) == AllTold(Unset, rs, buffers);
    notices := decoder.impl.out;
    if AllLegal(rs) || Uncut(rs, buffers) { ToldIsOwn(rs, buffers); }
  }

  /* ---- the network ---------------------------------------------------- */

  function Least(a: nat, b: nat): nat { if a < b then a else b }

  /** One read more, in front. */
  lemma ReadMore(s: string, n: nat, rest: seq<string>)
    requires n <= |s| && n <= MAX_BUFFER && Flatten(rest) == s[n..]
    requires forall i :: 0 <= i < |rest| ==> |rest[i]| <= MAX_BUFFER
    ensures
      var frags := [s[..n]] + rest;
      Flatten(frags) == s && forall i :: 0 <= i < |frags| ==> |frags[i]| <= MAX_BUFFER
  {
    assert ([s[..n]] + rest)[1..] == rest && s[..n] + s[n..] == s;
  }

  /** A stream read in buffers of the largest size. */
  function Buffers(s: string): (frags: seq<string>)
    ensures Flatten(frags) == s && forall i :: 0 <= i < |frags| ==> |frags[i]| <= MAX_BUFFER
    decreases |s|
  {
    if s == "" then []
    else
      var n := Least(MAX_BUFFER, |s|);
      var rest := Buffers(s[n..]);
      ReadMore(s, n, rest);
      [s[..n]] + rest
  }

  /** A stream cut into reads of the given sizes, and the rest. */
  function Cut(s: string, sizes: seq<nat>): (frags: seq<string>)
    ensures Flatten(frags) == s && forall i :: 0 <= i < |frags| ==> |frags[i]| <= MAX_BUFFER
    decreases |sizes|
  {
    if sizes == [] then Buffers(s)
    else
      var n := Least(Least(sizes[0], MAX_BUFFER), |s|);
      var rest := Cut(s[n..], sizes[1..]);
      ReadMore(s, n, rest);
      [s[..n]] + rest
  }

  /** Every way of cutting a stream is one of these. */
  lemma {:induction false} CutsAreAll(frags: seq<string>)
    requires forall i :: 0 <= i < |frags| ==> |frags[i]| <= MAX_BUFFER
    ensures Cut(Flatten(frags), seq(|frags|, i requires 0 <= i < |frags| => |frags[i]|)) == frags
    decreases |frags|
  {
    var s, sizes := Flatten(frags), seq(|frags|, i requires 0 <= i < |frags| => |frags[i]|);
    if frags != [] {
      var rest := frags[1..];
      CutsAreAll(rest);
      assert sizes[1..] == seq(|rest|, i requires 0 <= i < |rest| => |rest[i]|);
      assert s[|frags[0]|..] == Flatten(rest) && s[..|frags[0]|] == frags[0];
      assert frags == [frags[0]] + rest;
    }
  }

  /**
   End to end: one side encodes any messages, the network cuts the octets anywhere,
   and the other side decodes them read by read.
   */
  method Exchange(rs: seq<Message>, requests: bool, sizes: seq<nat>) returns (notices: seq<Notice>)
    requires AllSendable(rs) && Moderate(rs) && Alike(rs, requests)
    ensures notices == AllTold(Unset, rs, Cut(Stream(rs), sizes))
    ensures
      var frags := Cut(Stream(rs), sizes);
      AllLegal(rs) || Uncut(rs, frags) ==>
        (notices == AllOwn(rs) <==> OneVersion(rs) && AllLegal(rs) && Uncut(rs, frags))
  {
    hide Sendable, Moderate, Wire, AllTold, AllOwn, Uncut, AllLegal, OneVersion, Alike, Cut;
    var e := new Encoder();
    var stream, i := "", 0;
    assert rs[0..] == rs;
    while i < |rs|
      invariant i <= |rs| && e.state.ZERO? && stream + Stream(rs[i..]) == Stream(rs)
    {
      assert rs[i..][1..] == rs[i + 1..];
      SendableIsPrintable(rs[i]);
      var msg := PrintMessage(e, rs[i]);
      assert stream + (msg + Stream(rs[i + 1..])) == stream + msg + Stream(rs[i + 1..]);
      stream := stream + msg;
      i := i + 1;
    }
    assert stream + "" == stream;
    notices := Arrive(rs, requests, Cut(stream, sizes));
  }
}
