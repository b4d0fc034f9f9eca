/** The host and the port that the receiver of a request is told. */
module Hosts {
  import opened ParserTypes
  import opened ParserMachine
  import opened Fragmentation
  import opened HeaderLines
  import opened ConnectionLists
  import opened RoundTrip
  import opened HttpDecoder
  import opened Decoding
  import opened Telling

  predicate IsHost(k: string) { SpelledAs(k, "host") }

  /** The last host field of a header block: the one that is kept. */
  predicate IsLastHost(ps: Pairs, i: nat) {
    i < |ps| && IsHost(ps[i].0) && forall n :: i < n < |ps| ==> !IsHost(ps[n].0)
  }

  lemma HostName(k: string)
    ensures LowerCase(k) == "host" <==> IsHost(k)
  {
    if LowerCase(k) == "host" {
      forall i | 0 <= i < |k| ensures AnyCase(k[i], "host"[i]) { assert LowerCase(k)[i] == ToLower(k[i]); }
    }
    if IsHost(k) {
      forall i | 0 <= i < |k| ensures LowerCase(k)[i] == "host"[i] { assert AnyCase(k[i], "host"[i]); }
    }
  }

  lemma {:induction false} LastHost(ps: Pairs, i: nat)
    ensures IsLastHost(ps, i) ==> HostHeader(ps) == ps[i].1
    ensures (forall n :: 0 <= n < |ps| ==> !IsHost(ps[n].0)) ==> HostHeader(ps) == ""
    decreases |ps|
  {
    hide IsHost;
    if ps != [] {
      var n := |ps| - 1;
      HostName(ps[n].0);
      LastHost(ps[..n], i);
    }
  }

  lemma {:induction false} ColonIsFirst(a: string, b: string)
    requires ':' !in a
    ensures ColonAt(a + (":" + b)) == |a| && ColonAt(a) == |a|
    decreases |a|
  {
    var s := a + (":" + b);
    if a == "" {
      assert s[0] == ':';
    } else {
      assert s[0] == a[0] && s[1..] == a[1..] + (":" + b);
      ColonIsFirst(a[1..], b);
    }
  }

  /** What is told of host and port: nothing else of the location changes. */
  lemma HostMeans(l: L.Location, ps: Pairs, i: nat, a: string, b: string)
    requires ':' !in a
    ensures
      var x := WithHost(l, ps);
      && x == l.(host := x.host, port := x.port)
      && (l.host != "" ==> x == l)
      && (l.host == "" && IsLastHost(ps, i) && ps[i].1 == a + (":" + b) ==> x.host == a && x.port == b)
      && (l.host == "" && IsLastHost(ps, i) && ps[i].1 == a ==> x.host == a && x.port == l.port)
      && ((forall n :: 0 <= n < |ps| ==> !IsHost(ps[n].0)) ==> x == l)
  {
    hide IsHost, HostHeader;
    LastHost(ps, i);
    ColonIsFirst(a, b);
    ColonIsFirst("", "");
    var s := a + (":" + b);
    assert s[..|a|] == a && s[|a| + 1..] == b;
  }

  lemma HeadIsSecond(out: seq<Notice>, r: Message, v: Version, l: L.Location)
    requires Sendable(r)
    ensures
      var n := out + Told(r, v, l);
      |n| > |out| + 1 && n[|out| + 1] == HeadTold(r, v, l)
  {
    hide Sendable, HeadTold, BodyTold, Concat;
  }

  /**
   A request that arrives in any reads.  If its target tells a host, that host and port
   are told.  Otherwise they are those of the last host field: cut at the first colon, or
   the whole field where there is none, the port then being that of the target.
   */
  lemma HostTold(v: Version, out: seq<Notice>, m: Machine, r: Message, frags: seq<string>, i: nat, a: string, b: string)
    requires m.core == Init(Both, true) && Sendable(r) && r.first.Ask? && Flatten(frags) == Wire(r) && ':' !in a
    ensures
      var notices := FragmentsHeard(Empty(true, v, out), m, frags).out;
      && |notices| > |out| + 1 && notices[|out| + 1].Head? && notices[|out| + 1].opening.Asked?
      && var l, x, ps := LocationTold(r.first, frags), notices[|out| + 1].opening.location, Fields(r);
      && x == l.(host := x.host, port := x.port)
      && (l.host != "" ==> x == l)
      && (l.host == "" && IsLastHost(ps, i) && ps[i].1 == a + (":" + b) ==> x.host == a && x.port == b)
      && (l.host == "" && IsLastHost(ps, i) && ps[i].1 == a ==> x.host == a && x.port == l.port)
      && ((forall n :: 0 <= n < |ps| ==> !IsHost(ps[n].0)) ==> x == l)
  {
    hide Sendable, Wire, FragmentsHeard, FragmentsUnopposed, Told, Fields, LocationTold, WithHost, IsLastHost,
      IsHost, Known;
    var w := MessageHeard(true, v, out, m, r, frags);
    var l := LocationTold(r.first, frags);
    HeadIsSecond(out, r, Known(v, r), l);
    HostMeans(l, Fields(r), i, a, b);
  }
}
