/**
 The objects of a connection: responses, the handler that polls them and the
 connector that writes, each proved against the connection of `Pipeline`.
 */
module Http1Handler {
  import opened ParserTypes
  import opened HeaderLines
  import opened HttpEncoder
  import P = Pipeline

  /** `http::response`: filled by the application, emptied by the handler. */
  class LocalResponse {
    const id: nat
    var responseHeaders: Option<P.Preamble>
    var content: string
    var trailers: Pairs
    var ended: bool

    function View(): P.Local
      reads this
    {
      P.Local(id, responseHeaders, content, trailers, ended)
    }

    constructor (id: nat)
      ensures View() == P.Local(id, None, "", [], false)
    {
      this.id := id;
      responseHeaders, content, trailers, ended := None, "", [], false;
    }

    method GetState() returns (o: P.Offer)
      ensures o == P.GetState(View())
    {
      if responseHeaders.Some? { return P.HeadersReceived; }
      if |content| > 0 { return P.BodyReceived; }
      if |trailers| > 0 { return P.TrailerReceived; }
      if ended { return P.Ended; }
      return P.Pending;
    }

    method Preamble() returns (p: P.Preamble)
      requires responseHeaders.Some?
      modifies this
      ensures p == old(responseHeaders).value && View() == old(View()).(head := None)
    {
      p := responseHeaders.value;
      responseHeaders := None;
    }

    method GetBody() returns (ret: string)
      modifies this
      ensures ret == old(content) && View() == old(View()).(content := "")
    {
      ret := "";
      content, ret := ret, content;
    }

    method GetTrailer() returns (t: (string, string))
      requires trailers != []
      modifies this
      ensures t == old(trailers)[0] && View() == old(View()).(trailers := old(trailers)[1..])
    {
      t := trailers[0];
      trailers := trailers[1..];
    }

    /** What a call stores, before the handler is notified. */
    method Store(call: P.Call)
      modifies this
      ensures View() == P.Hear(old(View()), call)
    {
      match call
      case Headers(p) => responseHeaders := Some(p);
      case Body(text) => content := content + text;
      case Trailer(k, v) => trailers := trailers + [(k, v)];
      case End => ended := true;
    }
  }

  function Views(q: seq<LocalResponse>): (v: seq<P.Local>)
    reads q
    ensures |v| == |q| && forall i :: 0 <= i < |q| ==> v[i] == q[i].View()
  {
    if q == [] then [] else [q[0].View()] + Views(q[1..])
  }

  lemma DistinctTail(q: seq<LocalResponse>)
    requires Distinct(q) && q != []
    ensures Distinct(q[1..])
  {
  }

  predicate Distinct(q: seq<LocalResponse>) { forall i, j :: 0 <= i < j < |q| ==> q[i] != q[j] }

  /** How an asynchronous write ends. */
  datatype WriteOutcome = Written | Cancelled | Failed

  /** `connector`, as far as it writes. */
  class Connector {
    var writing: bool
    var stopped: bool
    var out: string
    /** The outstanding writes, and what became of the others. */
    var flights: seq<P.Flight>
    var written: string
    var succeeded: seq<nat>
    var failed: seq<nat>

    function View(): P.Link
      reads this
    {
      P.Link(writing, stopped, out, flights, written, succeeded, failed)
    }

    constructor ()
      ensures View() == P.Link(false, false, "", [], "", [], [])
    {
      writing, stopped, out, flights, written, succeeded, failed := false, false, "", [], "", [], [];
    }

    method Stop()
      modifies this
      ensures View() == old(View()).(stopped := true)
    {
      if !stopped { stopped := true; }
    }

    method DoWrite(h: Handler)
      requires h.connector == this
      modifies this, h`serialization, h`pendingClearCallbacks
      ensures h.View() == P.DoWrite(old(h.View()))
    {
      hide Views;
      if writing || stopped { return; }
      out := "";
      var some, data := h.OnWrite();
      if !some {
        var cbs := h.WriteFeedbacks();
        succeeded := succeeded + cbs;
        return;
      }
      // the handler has only just said that there is something to write
      assert data != "";
      out := data;
      writing := true;
      var cbs := h.WriteFeedbacks();
      flights := flights + [P.Flight(out, cbs)];
    }

    /** The completion handler of `async_write`; only a connector that has stopped has cancelled its writes. */
    method WriteDone(h: Handler, outcome: WriteOutcome)
      requires h.connector == this && flights != [] && (outcome.Cancelled? ==> stopped)
      modifies this, h`serialization, h`pendingClearCallbacks
      ensures h.View() == if outcome.Written? then P.Completed(old(h.View())) else P.Broken(old(h.View()))
    {
      hide Views, P.DoWrite;
      var f := flights[0];
      flights := flights[1..];
      writing := false;
      if outcome.Written? {
        written := written + f.text;
        succeeded := succeeded + f.feedbacks;
        DoWrite(h);
      } else {
        if !outcome.Cancelled? { Stop(); }
        failed := failed + f.feedbacks;
      }
    }
  }

  /** `handler_http1` */
  class Handler {
    var localObjects: seq<LocalResponse>
    var serialization: string
    /** The feedbacks to give with the next write, by the number of their response. */
    var pendingClearCallbacks: seq<nat>
    var requests: nat
    const encoder: Encoder
    const connector: Connector
    /** The user closed the connection, or its connector is gone. */
    var closed: bool
    ghost var log: P.Log

    ghost function View(): P.Conn
      reads this, encoder, connector, localObjects
    {
      P.Conn(Views(localObjects), encoder.state, encoder.chunked, serialization, pendingClearCallbacks,
             connector.View(), log)
    }

    constructor ()
      ensures View() == P.Fresh() && localObjects == [] && requests == 0 && fresh(encoder) && fresh(connector)
    {
      localObjects, serialization, pendingClearCallbacks, requests, closed := [], "", [], 0, false;
      encoder := new Encoder();
      connector := new Connector();
      log := P.Log("", [], P.NOTHING, [], false);
    }

    method OnWrite() returns (some: bool, data: string)
      modifies this`serialization
      ensures some == (old(serialization) != "") && data == old(serialization) && serialization == ""
    {
      if serialization != "" {
        data := serialization;
        serialization := "";
        return true, data;
      }
      return false, "";
    }

    method WriteFeedbacks() returns (cbs: seq<nat>)
      modifies this`pendingClearCallbacks
      ensures cbs == old(pendingClearCallbacks) && pendingClearCallbacks == []
    {
      cbs := pendingClearCallbacks;
      pendingClearCallbacks := [];
    }

    /** `serialization.append(text); do_write();` */
    method Append(text: string)
      modifies this`serialization, this`pendingClearCallbacks, this`log, connector
      ensures View() == P.Append(old(View()), text) && log.said == old(log).said
    {
      serialization := serialization + text;
      log := log.(emitted := log.emitted + text);
      connector.DoWrite(this);
    }

    method NotifyLocalHeaders(p: P.Preamble)
      requires encoder.state.ZERO?
      modifies this`serialization, this`pendingClearCallbacks, this`log, connector, encoder
      ensures log.said == old(log).said
      ensures
        var c := old(View());
        View() == P.Append(c.(enc := HEADER, chunked := p.chunked,
                              log := c.log.(current := c.log.current.(head := Some(p)))), p.text)
    {
      var msg := encoder.EncodeHeader(p.text, p.chunked);
      log := log.(current := log.current.(head := Some(p)));
      Append(msg);
    }

    method NotifyLocalBody(body: string)
      requires encoder.state.HEADER? || encoder.state.BODY?
      modifies this`serialization, this`pendingClearCallbacks, this`log, connector, encoder
      ensures log.said == old(log).said
      ensures
        var c := old(View());
        View() == P.Append(c.(enc := BODY,
          log := c.log.(current := c.log.current.(pieces := c.log.current.pieces + [body]))),
                           BodyText(c.chunked, body))
    {
      var msg := encoder.EncodeBody(body);
      log := log.(current := log.current.(pieces := log.current.pieces + [body]));
      Append(msg);
    }

    method NotifyLocalTrailer(k: string, v: string)
      requires encoder.state.BODY? || encoder.state.TRAILER?
      modifies this`serialization, this`pendingClearCallbacks, this`log, connector, encoder
      ensures log.said == old(log).said
      ensures
        var c := old(View());
        View() == P.Append(c.(enc := TRAILER,
                              log := c.log.(current := c.log.current.(trailers := c.log.current.trailers + [(k, v)]))),
                           TrailerText(k, v))
    {
      var msg := encoder.EncodeTrailer(k, v);
      log := log.(current := log.current.(trailers := log.current.trailers + [(k, v)]));
      Append(msg);
    }

    method NotifyLocalEnd()
      requires !encoder.state.ZERO?
      modifies this`serialization, this`pendingClearCallbacks, this`log, connector, encoder
      ensures log.said == old(log).said
      ensures
        var c := old(View());
        View() == P.Append(c.(enc := ZERO,
          log := c.log.(finished := c.log.finished + [c.log.current], current := P.NOTHING)),
                           EomText(c.chunked, c.enc))
    {
      var msg := encoder.EncodeEom();
      log := log.(finished := log.finished + [log.current], current := P.NOTHING);
      Append(msg);
    }

    /** The invariant of all runs, on the objects. */
    ghost predicate Valid()
      reads this, encoder, connector, localObjects
    {
      Distinct(localObjects) && requests == |log.said| && P.Sound(View())
    }

    /** What one round does to a response that stays, and what is left to do with one that ends. */
    ghost function Rest(ended: bool): P.Conn
      reads this, encoder, connector, localObjects
    {
      if ended && localObjects != [] then View().(queue := Views(localObjects[1..])) else View()
    }

    /* The cases of the switch in `poll_local`. */

    method PollHeaders(loc: LocalResponse)
      requires Distinct(localObjects) && localObjects != [] && loc == localObjects[0]
      requires P.GetState(loc.View()).HeadersReceived? && P.Accepts(encoder.state, P.HeadersReceived)
      modifies loc, this`serialization, this`pendingClearCallbacks, this`log, connector, encoder
      ensures P.Offers(old(View())) && P.Encodable(old(View())) && log.said == old(log).said
      ensures View() == P.PollOnce(old(View()))
    {
      hide BodyText, EomText, TrailerText, P.Append;
      ghost var c := View();
      var p := loc.Preamble();
      assert View() == c.(queue := [c.queue[0].(head := None)] + c.queue[1..]);
      NotifyLocalHeaders(p);
    }

    method PollBody(loc: LocalResponse)
      requires Distinct(localObjects) && localObjects != [] && loc == localObjects[0]
      requires P.GetState(loc.View()).BodyReceived? && P.Accepts(encoder.state, P.BodyReceived)
      modifies loc, this`serialization, this`pendingClearCallbacks, this`log, connector, encoder
      ensures P.Offers(old(View())) && P.Encodable(old(View())) && log.said == old(log).said
      ensures View() == P.PollOnce(old(View()))
    {
      hide BodyText, EomText, TrailerText, P.Append;
      ghost var c := View();
      var body := loc.GetBody();
      assert View() == c.(queue := [c.queue[0].(content := "")] + c.queue[1..]);
      NotifyLocalBody(body);
    }

    method PollTrailer(loc: LocalResponse)
      requires Distinct(localObjects) && localObjects != [] && loc == localObjects[0]
      requires P.GetState(loc.View()).TrailerReceived? && P.Accepts(encoder.state, P.TrailerReceived)
      modifies loc, this`serialization, this`pendingClearCallbacks, this`log, connector, encoder
      ensures P.Offers(old(View())) && P.Encodable(old(View())) && log.said == old(log).said
      ensures View() == P.PollOnce(old(View()))
    {
      hide BodyText, EomText, TrailerText, P.Append;
      ghost var c := View();
      var t := loc.GetTrailer();
      assert View() == c.(queue := [c.queue[0].(trailers := c.queue[0].trailers[1..])] + c.queue[1..]);
      NotifyLocalTrailer(t.0, t.1);
    }

    method PollEnd(loc: LocalResponse)
      requires Distinct(localObjects) && localObjects != [] && loc == localObjects[0]
      requires P.GetState(loc.View()).Ended? && P.Accepts(encoder.state, P.Ended)
      modifies loc, this`serialization, this`pendingClearCallbacks, this`log, connector, encoder
      ensures P.Offers(old(View())) && P.Encodable(old(View())) && log.said == old(log).said
      ensures Rest(true) == P.PollOnce(old(View()))
    {
      hide BodyText, EomText, TrailerText, P.DoWrite;
      ghost var c := View();
      pendingClearCallbacks := pendingClearCallbacks + [loc.id];
      ghost var d := View();
      NotifyLocalEnd();
      AppendIgnoresQueue(d.(enc := ZERO,
        log := d.log.(finished := d.log.finished + [d.log.current], current := P.NOTHING)),
                         c.queue[1..], EomText(d.chunked, d.enc));
      assert Views(localObjects[1..]) == c.queue[1..];
    }

    method PollRound(loc: LocalResponse, state: P.Offer)
      requires Valid() && localObjects != [] && loc == localObjects[0]
      requires state == P.GetState(loc.View()) != P.Pending
      modifies loc, this`serialization, this`pendingClearCallbacks, this`log, connector, encoder
      ensures log.said == old(log).said
      ensures
        var c := Rest(state.Ended?);
        P.Sound(c) && P.Notify(c) == P.Notify(old(View())) && P.Work(c.queue) < P.Work(old(View()).queue)
    {
      P.NotifyPolls(View());
      hide P.Sound, P.Notify, P.Work, P.PollOnce, P.Accepts, P.GetState, Distinct, Views;
      match state
      case HeadersReceived => PollHeaders(loc);
      case BodyReceived => PollBody(loc);
      case TrailerReceived => PollTrailer(loc);
      case Ended => PollEnd(loc);
    }

    /** Takes everything that the front response offers; `done` when it has ended. */
    method PollLocal(loc: LocalResponse) returns (done: bool)
      requires Valid() && localObjects != [] && loc == localObjects[0]
      modifies loc, this`serialization, this`pendingClearCallbacks, this`log, connector, encoder
      ensures log.said == old(log).said
      ensures
        var c := Rest(done);
        && P.Sound(c) && P.Notify(c) == P.Notify(old(View()))
        && (if done then P.Work(c.queue) < P.Work(old(View()).queue) else !P.Offers(c))
    {
      hide P.Sound, P.Work, P.Notify, P.GetState, Distinct, Views;
      ghost var c := View();
      var state := loc.GetState();
      while state != P.Pending
        invariant Distinct(localObjects) && log.said == old(log).said && state == P.GetState(loc.View())
        invariant P.Sound(View()) && P.Notify(View()) == P.Notify(c) && P.Work(View().queue) <= P.Work(c.queue)
        decreases P.Work(View().queue)
      {
        PollRound(loc, state);
        if state == P.Ended { return true; }
        state := loc.GetState();
      }
      return false;
    }

    /** `local_objects.pop_front()` */
    method PopFront()
      requires Distinct(localObjects) && localObjects != []
      modifies this`localObjects
      ensures localObjects == old(localObjects)[1..] && Distinct(localObjects) && View() == old(Rest(true))
    {
      DistinctTail(localObjects);
      localObjects := localObjects[1..];
    }

    /** `notify_local_content` */
    method NotifyLocalContent()
      requires Valid()
      modifies this`localObjects, this`serialization, this`pendingClearCallbacks, this`log, connector, encoder,
        localObjects
      ensures Valid() && View() == P.Notify(old(View()))
    {
      hide P.Sound, P.Work, P.Notify, Distinct, Views;
      ghost var all, k := localObjects, 0;
      while localObjects != []
        invariant k <= |all| && localObjects == all[k..]
        invariant Valid() && P.Notify(View()) == P.Notify(old(View()))
        decreases P.Work(View().queue)
      {
        var s := localObjects[0];
        assert s == all[k];
        var done := PollLocal(s);
        if !done { break; }
        PopFront();
        k := k + 1;
      }
      P.NotifyPolls(View());
    }

    /** `get_user_handlers` */
    method Open() returns (r: LocalResponse)
      requires Valid() && !log.dropped && P.Settled(View())
      modifies this
      ensures Valid() && View() == P.Advance(old(View()), P.Request)
      ensures localObjects == old(localObjects) + [r] && fresh(r)
    {
      hide P.Inv, P.Settled, Views;
      ghost var c := View();
      P.OpenedKeeps(c);
      r := new LocalResponse(requests);
      requests := requests + 1;
      localObjects := localObjects + [r];
      log := log.(said := log.said + [P.Said(None, "", [], false)]);
      assert Views(localObjects) == c.queue + [r.View()];
      assert View() == P.Opened(c);
      SettledIsSound(View());
    }

    /** An application's call on a listed response: stored, then sent as far as its turn has come. */
    method Say(i: nat, call: P.Call)
      requires Valid() && P.Settled(View()) && i < |localObjects| && !log.dropped
      requires P.Allowed(View(), P.Say(|log.finished| + i, call))
      modifies this`localObjects, this`serialization, this`pendingClearCallbacks, this`log, connector, encoder,
        localObjects
      ensures Valid()
      ensures View() == P.Advance(old(View()), P.Say(|old(log).finished| + i, call))
    {
      hide P.Inv, P.Settled, P.Notify, P.MaySay, P.Idle, P.Listen, Distinct, Views;
      ghost var c, id := View(), |log.finished| + i;
      QueueBounds(c, id);
      P.ListenKeeps(c, id, call);
      P.ListenIdles(c, id, call);
      Record(i, call);
      NotifyLocalContent();
    }

    /** The first half of a call's callback. */
    method Record(i: nat, call: P.Call)
      requires Distinct(localObjects) && i < |localObjects| && !log.dropped && |log.finished| + i < |log.said|
      modifies localObjects[i], this`log
      ensures |log.said| == |old(log).said| && View() == P.Listen(old(View()), |old(log).finished| + i, call)
    {
      hide P.Hear, P.Note, Views;
      ghost var c, id := View(), |log.finished| + i;
      var r := localObjects[i];
      r.Store(call);
      log := log.(said := log.said[id := P.Note(log.said[id], call)]);
      assert Views(localObjects) == c.queue[i := r.View()];
    }

    /** `close`: an explicit close by the user. */
    method Close()
      modifies this`localObjects, this`closed, this`log, connector
      ensures View() == P.Drop(old(View())) && closed == log.dropped
    {
      closed := true;
      connector.Stop();
      localObjects := [];
      log := log.(dropped := true);
    }

    /** `on_connector_nulled`; a connector that is gone is modelled as one that has stopped. */
    method OnConnectorNulled()
      requires closed == log.dropped
      modifies this`localObjects, this`pendingClearCallbacks, this`closed, this`log, connector
      ensures View() == P.Nulled(old(View())) && closed == log.dropped
    {
      if closed { return; }
      connector.failed := connector.failed + pendingClearCallbacks;
      pendingClearCallbacks := [];
      connector.stopped := true;
      closed := true;
      localObjects := [];
      log := log.(dropped := true);
    }
  }

  lemma AppendIgnoresQueue(c: P.Conn, q: seq<P.Local>, text: string)
    ensures P.Append(c.(queue := q), text) == P.Append(c, text).(queue := q)
  {
  }

  lemma QueueBounds(c: P.Conn, id: nat)
    requires P.Inv(c) && !c.log.dropped && |c.log.finished| <= id < |c.log.finished| + |c.queue|
    ensures id < |c.log.said|
  {
  }

  lemma SettledIsSound(c: P.Conn)
    requires P.Inv(c) && P.Settled(c)
    ensures P.Sound(c)
  {
  }
}
