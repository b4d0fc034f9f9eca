/**
 The body of an HTTP/2 stream: chunks queued by the application, read frame by
 frame by the session, on the server and on the client.
 */
module BodyPump {
  function Join(body: seq<string>): string {
    if body == [] then "" else body[0] + Join(body[1..])
  }

  lemma {:induction false} JoinMore(body: seq<string>, chunk: string)
    ensures Join(body + [chunk]) == Join(body) + chunk
    decreases |body|
  {
    if body == [] {
      assert [] + [chunk] == [chunk];
      assert Join([chunk]) == chunk + Join([chunk][1..]) == chunk;
    } else {
      assert (body + [chunk])[1..] == body[1..] + [chunk];
      JoinMore(body[1..], chunk);
      assert body[0] + (Join(body[1..]) + chunk) == body[0] + Join(body[1..]) + chunk;
    }
  }

  /** A position in the first chunk, at its end only if the chunk is empty. */
  predicate Placed(body: seq<string>, index: nat) {
    if body == [] then index == 0 else index < |body[0]| || index == |body[0]| == 0
  }

  /** The octets still to be read. */
  function Remaining(body: seq<string>, index: nat): string
    requires Placed(body, index)
  {
    Join(body)[index..]
  }

  /** `body_empty` */
  predicate BodyEmpty(body: seq<string>, index: nat) { |body| == 0 || (|body| == 1 && |body[0]| == index) }

  /** It means that nothing remains, as long as there are not two chunks, both of them empty. */
  lemma EmptyMeans(body: seq<string>, index: nat)
    requires Placed(body, index)
    ensures BodyEmpty(body, index) <==> Remaining(body, index) == "" && |body| <= 1
  {
    if |body| == 1 { assert body[0] + Join(body[1..]) == body[0]; }
  }

  /** How a read answers: deferred, or some octets with the two flags. */
  datatype Frame = Deferred | Data(text: string, eof: bool, noEndStream: bool)

  function Min(a: nat, b: nat): nat { if a < b then a else b }

  /** How much of the first chunk goes into a frame. */
  function Fits(body: seq<string>, index: nat, length: nat): nat
    requires Placed(body, index)
  {
    if BodyEmpty(body, index) then 0 else Min(|body[0]| - index, length)
  }

  class Stream {
    var body: seq<string>
    var bodyIndex: nat
    var eof: bool
    var trailers: nat
    var resumeNeeded: bool
    var bodySent: bool
    /** All that the application queued and all that was copied into frames. */
    ghost var queued: string
    ghost var copied: string

    ghost predicate Valid()
      reads this
    {
      Placed(body, bodyIndex) && queued == copied + Remaining(body, bodyIndex)
    }

    constructor ()
      ensures Valid() && queued == copied == "" && !eof && trailers == 0 && body == [] && bodyIndex == 0
    {
      body, bodyIndex, eof, trailers, resumeNeeded, bodySent := [], 0, false, 0, false, false;
      queued, copied := "", "";
    }

    /** `on_body`; a deferred read is resumed. */
    method OnBody(data: string)
      requires Valid()
      modifies this`body, this`resumeNeeded, this`queued
      ensures Valid() && queued == old(queued) + data && !resumeNeeded && body == old(body) + [data]
    {
      JoinMore(body, data);
      assert Join(body + [data])[bodyIndex..] == Join(body)[bodyIndex..] + data;
      assert copied + Remaining(body, bodyIndex) + data == copied + (Remaining(body, bodyIndex) + data);
      body := body + [data];
      queued := queued + data;
      resumeNeeded := false;
    }

    method OnTrailer()
      requires Valid()
      modifies this`trailers
      ensures Valid() && trailers == old(trailers) + 1
    {
      trailers := trailers + 1;
    }

    method OnEom()
      requires Valid()
      modifies this`eof, this`resumeNeeded
      ensures Valid() && eof && !resumeNeeded
    {
      eof, resumeNeeded := true, false;
    }

    /** `body_length`: the subtraction never goes below zero. */
    method BodyLength() returns (r: nat)
      requires Valid()
      ensures r == |Remaining(body, bodyIndex)|
    {
      r := 0;
      var first := true;
      var i := 0;
      assert body[0..] == body;
      while i < |body|
        invariant i <= |body| && first == (i == 0)
        invariant r + |Join(body[i..])| == |Join(body)| - (if first then 0 else bodyIndex)
      {
        assert body[i..][1..] == body[i + 1..];
        r := r + |body[i]|;
        if first {
          first := false;
          r := r - bodyIndex;
        }
        i := i + 1;
      }
    }

    method IsLastFrame(length: nat) returns (last: bool)
      requires Valid()
      ensures last <==> eof && trailers == 0 && |Remaining(body, bodyIndex)| == length
    {
      var n := BodyLength();
      last := eof && trailers == 0 && n == length;
    }

    /** Copies what fits of the first chunk, and drops it when it is used up. */
    method Copy(length: nat) returns (text: string)
      requires Valid() && body != []
      modifies this`body, this`bodyIndex, this`copied
      ensures Valid() && copied == old(copied) + text && |text| == Min(old(|body[0]| - bodyIndex), length)
      ensures Remaining(body, bodyIndex) == old(Remaining(body, bodyIndex))[|text|..]
    {
      ghost var before := Remaining(body, bodyIndex);
      var first := body[0];
      var r := Min(|first| - bodyIndex, length);
      text := first[bodyIndex..bodyIndex + r];
      assert Join(body) == first + Join(body[1..]);
      assert text == before[..r];
      bodyIndex := bodyIndex + r;
      if bodyIndex == |first| {
        body := body[1..];
        bodyIndex := 0;
      }
      assert Remaining(body, bodyIndex) == before[r..];
      assert copied + before == copied + before[..r] + before[r..];
      copied := copied + text;
    }

    /** The read callback of `stream`, on the server. */
    method ReadServer(length: nat) returns (f: Frame)
      requires Valid()
      modifies this`body, this`bodyIndex, this`resumeNeeded, this`bodySent, this`copied
      ensures Valid()
      ensures f.Deferred? <==> !eof && trailers == 0 && old(BodyEmpty(body, bodyIndex))
      ensures f.Deferred? ==> resumeNeeded && copied == old(copied)
      ensures f.Data? ==>
        && copied == old(copied) + f.text && |f.text| == Fits(old(body), old(bodyIndex), length)
          && f.noEndStream == (trailers > 0)
        && (f.eof <==> ((eof || trailers > 0) && BodyEmpty(body, bodyIndex))
                       || (eof && trailers == 0 && |Remaining(body, bodyIndex)| == length))
        && ((f.eof && |Remaining(body, bodyIndex)| > 0)
              <==> (eof && trailers == 0
                && |old(Remaining(body, bodyIndex))| == length + Fits(old(body), old(bodyIndex), length)
                    && length > 0))
    {
      if !eof && trailers == 0 && BodyEmpty(body, bodyIndex) {
        resumeNeeded := true;
        return Deferred;
      }
      var noEndStream := trailers > 0;
      var text := "";
      assert copied + "" == copied;
      if !BodyEmpty(body, bodyIndex) { text := Copy(length); }
      var last := IsLastFrame(length);
      var end := (BodyEmpty(body, bodyIndex) && (eof || trailers > 0)) || last;
      if end { bodySent := true; }
      EmptyMeans(body, bodyIndex);
      f := Data(text, end, noEndStream);
    }

    /** The read callback of `stream_client`: the end is decided before the copy. */
    method ReadClient(length: nat) returns (f: Frame)
      requires Valid()
      modifies this`body, this`bodyIndex, this`resumeNeeded, this`bodySent, this`copied
      ensures Valid()
      ensures f.Deferred? <==> !eof && trailers == 0 && old(BodyEmpty(body, bodyIndex))
      ensures f.Deferred? ==> resumeNeeded && copied == old(copied)
      ensures f.Data? ==>
        && copied == old(copied) + f.text && |f.text| == Fits(old(body), old(bodyIndex), length)
          && f.noEndStream == (trailers > 0)
        && (f.eof <==> ((eof || trailers > 0) && old(BodyEmpty(body, bodyIndex)))
                       || (eof && trailers == 0 && |old(Remaining(body, bodyIndex))| == length))
        && ((f.eof && |Remaining(body, bodyIndex)| > 0)
              <==> (eof && trailers == 0 && |old(Remaining(body, bodyIndex))| == length
                    && old(body != [] && |body[0]| - bodyIndex < length)))
    {
      if !eof && trailers == 0 && BodyEmpty(body, bodyIndex) {
        resumeNeeded := true;
        return Deferred;
      }
      EmptyMeans(body, bodyIndex);
      var last := IsLastFrame(length);
      var end := (BodyEmpty(body, bodyIndex) && (eof || trailers > 0)) || last;
      if end { bodySent := true; }
      var noEndStream := trailers > 0;
      if BodyEmpty(body, bodyIndex) {
        assert copied + "" == copied;
        return Data("", end, noEndStream);
      }
      var text := Copy(length);
      f := Data(text, end, noEndStream);
    }
  }

  /* The exceptions are real. */

  /** On the server a body of two frames ends after the first one. */
  method ServerEndsTooSoon() returns (frame: Frame, lost: string)
    ensures frame == Data("a", true, false) && lost == "b"
  {
    var s := new Stream();
    s.OnBody("ab");
    s.OnEom();
    assert s.queued == "ab";
    frame := s.ReadServer(1);
    lost := Rest(s);
    assert "ab" == frame.text + lost && |frame.text| == 1;
    assert "ab"[0] == frame.text[0] && "ab"[1] == lost[0];
  }

  /** On the client a last frame's worth of body in two chunks ends after the first chunk. */
  method ClientEndsTooSoon() returns (frame: Frame, lost: string)
    ensures frame == Data("a", true, false) && lost == "b"
  {
    var c := new Stream();
    c.OnBody("a");
    c.OnBody("b");
    c.OnEom();
    assert c.queued == "ab" && Remaining(c.body, c.bodyIndex) == "ab";
    frame := c.ReadClient(2);
    lost := Rest(c);
    assert "ab" == frame.text + lost && |frame.text| == 1;
    assert "ab"[0] == frame.text[0] && "ab"[1] == lost[0];
  }

  /** What a stream has not sent. */
  method Rest(s: Stream) returns (text: string)
    requires s.Valid()
    ensures text == Remaining(s.body, s.bodyIndex)
  {
    text := Join(s.body)[s.bodyIndex..];
  }
}
