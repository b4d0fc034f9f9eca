/**
 What a receiver is told of a stream of messages, read by read, and when that is what
 their sender meant.
 */
module Streams {
  import opened ParserTypes
  import opened ParserMachine
  import opened ParserWords
  import opened Fragmentation
  import opened FirstLines
  import opened Persistence
  import opened HttpEncoder
  import opened RoundTrip
  import opened HeaderLines
  import opened HttpDecoder
  import opened Additions
  import opened Decoding
  import opened Reads
  import opened Telling

  /** The receiver's message object is of the kind that arrives: requests, or responses. */
  predicate Alike(rs: seq<Message>, requests: bool) { forall i :: 0 <= i < |rs| ==> rs[i].first.Ask? == requests }

  function KnownOf(v: Version, rs: seq<Message>): Version { if rs == [] then v else Known(v, rs[0]) }

  /** What the receiver of a stream of messages is told. */
  function AllTold(v: Version, rs: seq<Message>, frags: seq<string>): seq<Notice>
    requires AllSendable(rs)
    decreases |rs|
  {
    if rs == [] then []
    else
      var version, n := Known(v, rs[0]), |Wire(rs[0])|;
      Told(rs[0], version, LocationTold(rs[0].first, Front(frags, n))) + AllTold(version, rs[1..], Back(frags, n))
  }

  /** A stream that arrives in any reads tells its receiver exactly this. */
  lemma {:induction false} StreamHeard(
    requests: bool, v: Version, out: seq<Notice>, m: Machine, rs: seq<Message>, frags: seq<string>) returns (w: Machine)
    requires m.core == Init(Both, true) && AllSendable(rs) && Alike(rs, requests) && Flatten(frags) == Stream(rs)
    ensures Over(m, Stream(rs), w) && Is(w, Init(Both, true), m.trace + StreamEvents(rs))
    ensures
      var h := Empty(requests, v, out);
      && FragmentsHeard(h, m, frags) == Empty(requests, KnownOf(v, rs), out + AllTold(v, rs, frags))
      && FragmentsUnopposed(h, m, frags)
    decreases |rs|
  {
    hide Over, Sendable, Wire, WireEvents, Told, Extends, Added, NoneGoesOn, NoTargets, FragmentsHeard,
      FragmentsUnopposed, Front, Back, Heard, Unopposed, LocationTold, Known;
    var h := Empty(requests, v, out);
    if rs == [] {
      w := m;
      OverNothing(m);
      AddedAppend(m.trace, []);
      NothingIsNoTarget();
      assert m.trace + [] == m.trace && out + [] == out;
      PlainReads(h, m, frags, m);
      NothingHeard(h, m, m);
    } else {
      var r, rest, n := rs[0], rs[1..], |Wire(rs[0])|;
      var all := Stream(rs);
      assert all[..n] == Wire(r) && all[n..] == Stream(rest);
      FrontAndBack(frags, n);
      var x := MessageHeard(requests, v, out, m, r, Front(frags, n));
      var version := Known(v, r);
      var told := Told(r, version, LocationTold(r.first, Front(frags, n)));
      KnownStays(v, r, rest);
      w := StreamHeard(requests, version, out + told, x, rest, Back(frags, n));
      OverTrans(m, Wire(r), x, Stream(rest), w);
      AddedAppend(x.trace, StreamEvents(rest));
      ReadsSplit(h, m, frags, n, x, w);
      assert m.trace + WireEvents(r) + StreamEvents(rest) == m.trace + (WireEvents(r) + StreamEvents(rest));
      assert out + told + AllTold(version, rest, Back(frags, n))
        == out + (told + AllTold(version, rest, Back(frags, n)));
    }
  }

  lemma KnownStays(v: Version, r: Message, rest: seq<Message>)
    ensures KnownOf(Known(v, r), rest) == Known(v, r)
  {
  }

  /* ---- what was meant -------------------------------------------------- */

  /** The location that the sender of a request means. */
  function Meant(f: FirstLine): L.Location {
    if f.Ask? then L.Sent(f.path, f.query, f.fragment) else L.NOWHERE
  }

  /** What is to be told: of each message its own version, and the location that its sender means. */
  function AllOwn(rs: seq<Message>): seq<Notice>
    requires AllSendable(rs)
  {
    if rs == [] then [] else Told(rs[0], VersionOf(rs[0].first.minor), Meant(rs[0].first)) + AllOwn(rs[1..])
  }

  /** All messages are of this version. */
  predicate Speaks(v: Version, rs: seq<Message>) { forall i :: 0 <= i < |rs| ==> VersionOf(rs[i].first.minor) == v }

  /** They all have minor version 1, or all have another. */
  predicate OneVersion(rs: seq<Message>) { Speaks(Http11, rs) || Speaks(Http10, rs) }

  /** The parts of the target are such that they can be told apart again. */
  predicate LegalLine(f: FirstLine) { f.Ask? ==> U.Legal(f.path, f.query, f.fragment) }

  predicate AllLegal(rs: seq<Message>) { forall i :: 0 <= i < |rs| ==> LegalLine(rs[i].first) }

  /** The target arrives in one read. */
  predicate UncutLine(f: FirstLine, frags: seq<string>) { f.Ask? ==> |PiecesOf(f, frags)| == 1 }

  predicate Uncut(rs: seq<Message>, frags: seq<string>)
    requires AllSendable(rs)
    decreases |rs|
  {
    rs == [] ||
    (var n := |Wire(rs[0])|;
     UncutLine(rs[0].first, Front(frags, n)) && Uncut(rs[1..], Back(frags, n)))
  }

  /** A host header does not touch the parts of the target. */
  lemma HostKeepsParts(a: L.Location, fs: Pairs)
    ensures L.SameParts(WithHost(a, fs), a)
  {
    hide HostHeader;
  }

  /** What is told of the target is what is meant exactly if the target is legal and not cut. */
  lemma TargetTold(r: Message, frags: seq<string>)
    requires Sendable(r) && Flatten(frags) == Wire(r) && (LegalLine(r.first) || UncutLine(r.first, frags))
    ensures
      OpeningTold(r, LocationTold(r.first, frags)) == OpeningTold(r, Meant(r.first))
      <==> LegalLine(r.first) && UncutLine(r.first, frags)
  {
    hide Sendable, Wire, U.Printed, U.Legal, WithHost, L.OnTarget, Fields, PiecesOf;
    if r.first.Ask? {
      var f, ps := r.first, PiecesOf(r.first, frags);
      PiecesAreTarget(r, frags);
      HostKeepsParts(LocationTold(f, frags), Fields(r));
      HostKeepsParts(Meant(f), Fields(r));
      if |ps| == 1 {
        OneTarget(ps);
        L.WholeTarget(f.path, f.query, f.fragment);
      } else {
        L.LegalTarget(ps, f.path, f.query, f.fragment);
      }
    }
  }

  lemma OneTarget(ps: seq<string>)
    requires |ps| == 1
    ensures L.OnTargets(L.UNLOCATED, ps) == L.OnTarget(L.UNLOCATED, Flatten(ps))
  {
    hide L.OnTarget;
    assert ps[1..] == [] && ps[0] + "" == ps[0];
  }

  lemma TellingsDiffer(r: Message, v: Version, w: Version, a: L.Location, b: L.Location, s: seq<Notice>, t: seq<Notice>)
    requires Sendable(r)
    ensures Told(r, v, a) + s == Told(r, w, b) + t <==> v == w && OpeningTold(r, a) == OpeningTold(r, b) && s == t
  {
    hide Sendable, OpeningTold, Grouped, Persists, HeadMatcher, BodyTold;
    var x, y, n := Told(r, v, a), Told(r, w, b), |Told(r, v, a)|;
    assert |x| == |y| && x[1] == HeadTold(r, v, a) && y[1] == HeadTold(r, w, b) && x[2..] == y[2..];
    if x + s == y + t {
      assert (x + s)[..n] == x && (y + t)[..n] == y && (x + s)[n..] == s && (y + t)[n..] == t;
    }
    if v == w && OpeningTold(r, a) == OpeningTold(r, b) { assert x == y; }
  }

  /** The version is told right exactly if all messages have the version that is known. */
  lemma {:induction false} ToldIsKnown(v: Version, rs: seq<Message>, frags: seq<string>)
    requires AllSendable(rs) && Flatten(frags) == Stream(rs) && !v.Unset? && (AllLegal(rs) || Uncut(rs, frags))
    ensures AllTold(v, rs, frags) == AllOwn(rs) <==> Speaks(v, rs) && AllLegal(rs) && Uncut(rs, frags)
    decreases |rs|
  {
    hide Sendable, Wire, Told, LegalLine, UncutLine, LocationTold, OpeningTold, Meant, Front, Back, VersionOf;
    if rs != [] {
      var r, rest, n := rs[0], rs[1..], |Wire(rs[0])|;
      assert Stream(rs)[..n] == Wire(r) && Stream(rs)[n..] == Stream(rest);
      FrontAndBack(frags, n);
      assert AllLegal(rs) ==> LegalLine(r.first) && AllLegal(rest);
      TargetTold(r, Front(frags, n));
      ToldIsKnown(v, rest, Back(frags, n));
      TellingsDiffer(r, v, VersionOf(r.first.minor), LocationTold(r.first, Front(frags, n)), Meant(r.first),
                     AllTold(v, rest, Back(frags, n)), AllOwn(rest));
      AllSplits(v, rs);
    }
  }

  lemma AllSplits(v: Version, rs: seq<Message>)
    requires rs != []
    ensures Speaks(v, rs) <==> VersionOf(rs[0].first.minor) == v && Speaks(v, rs[1..])
    ensures AllLegal(rs) <==> LegalLine(rs[0].first) && AllLegal(rs[1..])
  {
    hide LegalLine, VersionOf;
    assert forall i :: 0 < i < |rs| ==> rs[i] == rs[1..][i - 1];
  }

  /**
   On a new connection: of every message its receiver is told the version and the
   location that the sender means if and only if all messages are of one version, all
   targets are legal and none is cut.
   */
  lemma ToldIsOwn(rs: seq<Message>, frags: seq<string>)
    requires AllSendable(rs) && Flatten(frags) == Stream(rs) && (AllLegal(rs) || Uncut(rs, frags))
    ensures AllTold(Unset, rs, frags) == AllOwn(rs) <==> OneVersion(rs) && AllLegal(rs) && Uncut(rs, frags)
  {
    hide Sendable, Wire, Told, LegalLine, Uncut, LocationTold, Front, Back, AllOwn;
    if rs == [] {
      assert AllOwn(rs) == [] by { NothingOwn(); }
      assert Uncut(rs, frags) by { NothingUncut(frags); }
    } else {
      var v := VersionOf(rs[0].first.minor);
      assert AllTold(Unset, rs, frags) == AllTold(v, rs, frags);
      ToldIsKnown(v, rs, frags);
      assert OneVersion(rs) <==> Speaks(v, rs);
    }
  }

  lemma NothingOwn()
    ensures AllOwn([]) == []
  {
  }

  lemma NothingUncut(frags: seq<string>)
    ensures Uncut([], frags)
  {
  }

  /* ---- responses ------------------------------------------------------- */

  /** The same message, with its body in other pieces. */
  predicate Recut(a: Message, b: Message) { a.(bodies := b.bodies) == b && Concat(a.bodies) == Concat(b.bodies) }

  lemma RecutTold(a: Message, b: Message, v: Version, k: L.Location, l: L.Location)
    requires Sendable(a) && Sendable(b) && Recut(a, b) && (a.first.Ask? ==> k == l)
    ensures Told(a, v, k) == Told(b, v, l)
  {
    hide Sendable, Persists, Concat, BodyTold, Grouped;
    assert HeadMatcher(a) == HeadMatcher(b);
  }

  /** Of responses, neither the cuts of the octets nor those of the bodies show. */
  lemma {:induction false} RepliesTold(v: Version, rs: seq<Message>, ts: seq<Message>, f: seq<string>, g: seq<string>)
    requires AllSendable(rs) && AllSendable(ts) && Alike(rs, false)
    requires |rs| == |ts| && forall i :: 0 <= i < |rs| ==> Recut(rs[i], ts[i])
    ensures AllTold(v, rs, f) == AllTold(v, ts, g)
    decreases |rs|
  {
    hide Sendable, Told, Recut, LocationTold, Wire, Front, Back;
    if rs != [] {
      var r, t := rs[0], ts[0];
      RecutLine(r, t);
      RecutTold(r, t, Known(v, r), LocationTold(r.first, Front(f, |Wire(r)|)),
        LocationTold(t.first, Front(g, |Wire(t)|)));
      RepliesTold(Known(v, r), rs[1..], ts[1..], Back(f, |Wire(r)|), Back(g, |Wire(t)|));
    }
  }

  lemma RecutLine(a: Message, b: Message)
    requires Recut(a, b)
    ensures a.first == b.first
  {
  }

  lemma {:induction false} RepliesUncut(rs: seq<Message>, frags: seq<string>)
    requires AllSendable(rs) && Alike(rs, false)
    ensures AllLegal(rs) && Uncut(rs, frags)
    decreases |rs|
  {
    hide Sendable, Wire, Front, Back, U.Legal, PiecesOf;
    if rs != [] { RepliesUncut(rs[1..], Back(frags, |Wire(rs[0])|)); }
  }
}
