/** The objects that are read: maps, whatever the order and the number of the members in the text. */
module JsonObjects {
  import opened JsonText
  import opened JsonLexer
  import opened JsonValue
  import opened JsonParser

  type Members = seq<(string, Json)>

  /* ---- the order of the keys ------------------------------------------- */

  lemma {:induction false} LessIsOrder(a: string, b: string)
    ensures !Less(a, a)
    ensures Less(a, b) ==> a != b && !Less(b, a)
    ensures a != b ==> Less(a, b) || Less(b, a)
    decreases |a|
  {
    if a != "" {
      LessIsOrder(a[1..], if b == "" then "" else b[1..]);
      if b != "" && a[0] == b[0] && a[1..] == b[1..] { assert a == [a[0]] + a[1..] == b; }
    }
  }

  lemma {:induction false} LessTwice(a: string, b: string, c: string)
    requires Less(a, b) && Less(b, c)
    ensures Less(a, c)
    decreases |a|
  {
    if a != "" && a[0] == b[0] == c[0] { LessTwice(a[1..], b[1..], c[1..]); }
  }

  /* ---- maps ------------------------------------------------------------ */

  predicate HasKey(ms: Members, key: string) { exists i :: 0 <= i < |ms| && ms[i].0 == key }

  /** The pair is the last one with its key. */
  predicate IsLast(ps: Members, i: nat) { i < |ps| && forall n :: i < n < |ps| ==> ps[n].0 != ps[i].0 }

  /** In the order of the keys, each key that is written once, with the value that is written for it last. */
  predicate IsMapOf(ms: Members, ps: Members) {
    && Sorted(ms)
    && (forall i :: 0 <= i < |ps| ==> HasKey(ms, ps[i].0))
    && (forall j :: 0 <= j < |ms| ==> exists i :: 0 <= i < |ps| && IsLast(ps, i) && ps[i] == ms[j])
  }

  /** Maps with the same members are the same. */
  lemma {:induction false} SameMembers(a: Members, b: Members)
    requires Sorted(a) && Sorted(b) && forall x :: x in a <==> x in b
    ensures a == b
    decreases |a|
  {
    hide Less;
    if a == [] {
      FirstIsIn(b);
    } else {
      assert a[0] in b;
      var j :| 0 <= j < |b| && b[j] == a[0];
      assert b[0] in a;
      var i :| 0 <= i < |a| && a[i] == b[0];
      if i > 0 || j > 0 { LessIsOrder(a[0].0, b[0].0); LessIsOrder(a[0].0, a[0].0); }
      var c, d := a[1..], b[1..];
      forall x ensures x in c <==> x in d { RestMembers(a, x); RestMembers(b, x); }
      SameMembers(c, d);
      assert a == [a[0]] + c && b == [b[0]] + d;
    }
  }

  lemma FirstIsIn(ms: Members)
    ensures ms != [] ==> ms[0] in ms
  {
  }

  lemma RestMembers(ms: Members, x: (string, Json))
    requires Sorted(ms) && ms != []
    ensures x in ms[1..] <==> x in ms && x != ms[0]
  {
    hide Less;
    if x in ms && x != ms[0] {
      var i :| 0 <= i < |ms| && ms[i] == x;
      assert ms[1..][i - 1] == x;
    }
    if x in ms[1..] {
      var i :| 0 <= i < |ms| - 1 && ms[1..][i] == x;
      assert ms[i + 1] == x && Less(ms[0].0, x.0);
      LessIsOrder(ms[0].0, x.0);
    }
  }

  /** The pairs determine the map. */
  lemma MapIsUnique(a: Members, b: Members, ps: Members)
    requires IsMapOf(a, ps) && IsMapOf(b, ps)
    ensures a == b
  {
    forall x ensures x in a <==> x in b {
      MemberOfBoth(a, b, ps, x);
      MemberOfBoth(b, a, ps, x);
    }
    SameMembers(a, b);
  }

  lemma OneLast(ps: Members, i: nat, n: nat)
    requires IsLast(ps, i) && IsLast(ps, n) && ps[i].0 == ps[n].0
    ensures i == n
  {
  }

  lemma MemberOfBoth(a: Members, b: Members, ps: Members, x: (string, Json))
    requires IsMapOf(a, ps) && IsMapOf(b, ps)
    ensures x in a ==> x in b
  {
    hide Less, Sorted;
    if x in a {
      var j :| 0 <= j < |a| && a[j] == x;
      var i :| 0 <= i < |ps| && IsLast(ps, i) && ps[i] == a[j];
      assert HasKey(b, ps[i].0);
      var k :| 0 <= k < |b| && b[k].0 == x.0;
      var n :| 0 <= n < |ps| && IsLast(ps, n) && ps[n] == b[k];
      OneLast(ps, i, n);
    }
  }

  /* ---- one member more ------------------------------------------------- */

  /** The members with one of them put in. */
  predicate IsPut(r: Members, ms: Members, key: string, value: Json) {
    && Sorted(r) && (key, value) in r
    && (forall i :: 0 <= i < |r| ==> r[i] == (key, value) || (r[i].0 != key && r[i] in ms))
    && (forall i :: 0 <= i < |ms| && ms[i].0 != key ==> ms[i] in r)
  }

  /** In the place of the first. */
  lemma PutHere(ms: Members, key: string, value: Json)
    requires Sorted(ms) && ms != [] && ms[0].0 == key
    ensures IsPut([(key, value)] + ms[1..], ms, key, value)
  {
    hide Less;
    var r := [(key, value)] + ms[1..];
    assert r[0] == (key, value);
    forall i | 0 < i < |ms| ensures r[i] == ms[i] && ms[i].0 != key { LessIsOrder(ms[0].0, ms[i].0); }
  }

  /** In front of the first. */
  lemma PutBefore(ms: Members, key: string, value: Json)
    requires Sorted(ms) && ms != [] && Less(key, ms[0].0)
    ensures IsPut([(key, value)] + ms, ms, key, value)
  {
    hide Less;
    var r := [(key, value)] + ms;
    assert r[0] == (key, value);
    forall i | 0 <= i < |ms| ensures r[i + 1] == ms[i] && Less(key, ms[i].0) && ms[i].0 != key {
      if i > 0 { LessTwice(key, ms[0].0, ms[i].0); }
      LessIsOrder(key, ms[i].0);
    }
    assert forall i :: 0 < i < |r| ==> r[i] == ms[i - 1];
  }

  /** Behind the first. */
  lemma PutBehind(ms: Members, q: Members, key: string, value: Json)
    requires Sorted(ms) && ms != [] && Less(ms[0].0, key) && IsPut(q, ms[1..], key, value)
    ensures IsPut([ms[0]] + q, ms, key, value)
  {
    hide Less;
    var r, rest := [ms[0]] + q, ms[1..];
    LessIsOrder(ms[0].0, key);
    assert forall i :: 0 < i < |ms| ==> rest[i - 1] == ms[i];
    assert r[0] == ms[0];
    forall i | 0 < i < |r| ensures r[i] == q[i - 1] && Less(ms[0].0, r[i].0) && (r[i] == (key, value) || r[i] in ms) {
      if q[i - 1] != (key, value) {
        var k :| 0 <= k < |rest| && rest[k] == q[i - 1];
        assert ms[k + 1] == r[i];
      }
    }
    var k :| 0 <= k < |q| && q[k] == (key, value);
    assert r[k + 1] == (key, value);
    forall i | 0 <= i < |ms| && ms[i].0 != key ensures ms[i] in r {
      if i > 0 {
        var n :| 0 <= n < |q| && q[n] == rest[i - 1];
        assert r[n + 1] == ms[i];
      }
    }
  }

  /** Where a member is put. */
  lemma {:induction false} PutMeans(ms: Members, key: string, value: Json)
    requires Sorted(ms)
    ensures IsPut(Put(ms, key, value), ms, key, value)
    decreases |ms|
  {
    hide Less, IsPut;
    if ms == [] {
      PutFirst(key, value);
    } else if ms[0].0 == key {
      PutHere(ms, key, value);
    } else if Less(key, ms[0].0) {
      PutBefore(ms, key, value);
    } else {
      LessIsOrder(key, ms[0].0);
      PutMeans(ms[1..], key, value);
      PutBehind(ms, Put(ms[1..], key, value), key, value);
    }
  }

  lemma PutFirst(key: string, value: Json)
    ensures IsPut([(key, value)], [], key, value)
  {
    assert [(key, value)][0] == (key, value);
  }

  /** The map of one pair more. */
  lemma PutIsMap(ms: Members, ps: Members, key: string, value: Json)
    requires IsMapOf(ms, ps)
    ensures IsMapOf(Put(ms, key, value), ps + [(key, value)])
  {
    PutMeans(ms, key, value);
    hide Put, Less;
    var r, qs := Put(ms, key, value), ps + [(key, value)];
    forall i | 0 <= i < |qs| ensures HasKey(r, qs[i].0) {
      if i < |ps| && ps[i].0 != key {
        assert HasKey(ms, ps[i].0);
        var j :| 0 <= j < |ms| && ms[j].0 == ps[i].0;
        assert ms[j] in r;
      }
    }
    forall j | 0 <= j < |r| ensures exists i :: 0 <= i < |qs| && IsLast(qs, i) && qs[i] == r[j] {
      if r[j] == (key, value) {
        assert IsLast(qs, |ps|);
      } else {
        var k :| 0 <= k < |ms| && ms[k] == r[j];
        var i :| 0 <= i < |ps| && IsLast(ps, i) && ps[i] == ms[k];
        assert IsLast(qs, i);
      }
    }
  }

  /* ---- the text -------------------------------------------------------- */

  /** The pairs that are written, from a key on, as they stand in the text. */
  function Pairs(s: string, t: Token): Members
    requires Readable(s, t)
    decreases |s| + 1 - t.end
  {
    if !t.kind.ValueString? then []
    else
      var key, colon := Unescape(s[t.start + 1..t.end - 1]), Next(s, t.end);
      if key.Error? || !colon.kind.NameSeparator? then []
      else
        var value := ParseValue(s, Next(s, colon.end));
        if value.Error? then []
        else
          var (v, u) := value.value;
          [(key.value, v)] + (if u.kind.ValueSeparator? then Pairs(s, Next(s, u.end)) else [])
  }

  lemma {:induction false} MembersAreMap(s: string, t: Token, ms: Members, ps: Members)
    requires Readable(s, t) && IsMapOf(ms, ps) && ParseMembers(s, t, ms).Ok?
    ensures
      var j := ParseMembers(s, t, ms).value.0;
      j.Object? && IsMapOf(j.members, ps + Pairs(s, t))
    decreases |s| + 1 - t.end
  {
    hide Next, ParseValue, Unescape, WellEscaped, IsMapOf, Put;
    var key, colon := Unescape(s[t.start + 1..t.end - 1]), Next(s, t.end);
    var (v, u) := ParseValue(s, Next(s, colon.end)).value;
    PutIsMap(ms, ps, key.value, v);
    var qs := ps + [(key.value, v)];
    if u.kind.ValueSeparator? {
      MembersAreMap(s, Next(s, u.end), Put(ms, key.value, v), qs);
      assert qs + Pairs(s, Next(s, u.end)) == ps + Pairs(s, t);
    } else {
      assert qs == ps + Pairs(s, t);
    }
  }

  lemma NoMembers()
    ensures IsMapOf([], [])
  {
  }

  /**
   Every object text that parses: its members are in the order of their keys, each key that
   is written stands once, and with the value that is written for it last.
   */
  lemma ObjectIsMap(s: string, t: Token)
    requires Readable(s, t) && t.kind.BeginObject? && ParseValue(s, t).Ok?
    ensures
      var j, u := ParseValue(s, t).value.0, Next(s, t.end);
      j.Object? && IsMapOf(j.members, if u.kind.EndObject? then [] else Pairs(s, u))
  {
    hide Next, IsMapOf, ParseMembers, Pairs;
    NoMembers();
    var u := Next(s, t.end);
    if !u.kind.EndObject? {
      MembersAreMap(s, u, [], []);
      assert [] + Pairs(s, u) == Pairs(s, u);
    }
  }

  /* ---- at every depth -------------------------------------------------- */

  /** All objects in a value are maps. */
  predicate AllMaps(j: Json)
    decreases j
  {
    match j
    case Array(es) => forall i :: 0 <= i < |es| ==> AllMaps(es[i])
    case Object(ms) => Sorted(ms) && forall i :: 0 <= i < |ms| ==> AllMaps(ms[i].1)
    case _ => true
  }

  lemma {:induction false} ValueIsMaps(s: string, t: Token)
    requires Readable(s, t)
    ensures ParseValue(s, t).Ok? ==> AllMaps(ParseValue(s, t).value.0)
    decreases |s| + 1 - t.end, 1
  {
    hide Next, ParseMembers, ParseElements, AllMaps, Unescape, GetNumber, WellEscaped;
    ScalarsAreMaps();
    if t.kind.BeginObject? {
      var u := Next(s, t.end);
      if !u.kind.EndObject? && !u.kind.ValueSeparator? { MembersAreMaps(s, u, []); }
    }
    if t.kind.BeginArray? {
      var u := Next(s, t.end);
      if !u.kind.EndArray? && !u.kind.ValueSeparator? { ElementsAreMaps(s, u, []); }
    }
    if t.kind.ValueNumber? { NumberIsMap(s, t); }
  }

  lemma ScalarsAreMaps()
    ensures AllMaps(Object([])) && AllMaps(Array([])) && AllMaps(Null) && AllMaps(Boolean(true))
      && AllMaps(Boolean(false))
    ensures forall x :: AllMaps(Str(x))
  {
  }

  lemma NumberIsMap(s: string, t: Token)
    requires Readable(s, t) && t.kind.ValueNumber?
    ensures GetNumber(s, t).Ok? ==> AllMaps(GetNumber(s, t).value)
  {
  }

  lemma {:induction false} MembersAreMaps(s: string, t: Token, ms: Members)
    requires Readable(s, t) && AllMaps(Object(ms))
    ensures ParseMembers(s, t, ms).Ok? ==> AllMaps(ParseMembers(s, t, ms).value.0)
    decreases |s| + 1 - t.end, 2
  {
    hide Next, ParseValue, AllMaps, Unescape, WellEscaped, Put;
    if ParseMembers(s, t, ms).Ok? {
      var key, colon := Unescape(s[t.start + 1..t.end - 1]), Next(s, t.end);
      var (v, u) := ParseValue(s, Next(s, colon.end)).value;
      ValueIsMaps(s, Next(s, colon.end));
      PutStaysMap(ms, key.value, v);
      if u.kind.ValueSeparator? { MembersAreMaps(s, Next(s, u.end), Put(ms, key.value, v)); }
    }
  }

  lemma PutStaysMap(ms: Members, key: string, value: Json)
    requires AllMaps(Object(ms)) && AllMaps(value)
    ensures AllMaps(Object(Put(ms, key, value)))
  {
    PutMeans(ms, key, value);
    var r := Put(ms, key, value);
    hide Put, Less, Sorted;
    forall i | 0 <= i < |r| ensures AllMaps(r[i].1) {
      if r[i] != (key, value) {
        var k :| 0 <= k < |ms| && ms[k] == r[i];
      }
    }
  }

  lemma {:induction false} ElementsAreMaps(s: string, t: Token, es: seq<Json>)
    requires Readable(s, t) && AllMaps(Array(es))
    ensures ParseElements(s, t, es).Ok? ==> AllMaps(ParseElements(s, t, es).value.0)
    decreases |s| + 1 - t.end, 2
  {
    hide Next, ParseValue, AllMaps;
    ValueIsMaps(s, t);
    if ParseValue(s, t).Ok? {
      var (v, u) := ParseValue(s, t).value;
      OneElementMore(es, v);
      if u.kind.ValueSeparator? { ElementsAreMaps(s, Next(s, u.end), es + [v]); }
    }
  }

  lemma OneElementMore(es: seq<Json>, v: Json)
    requires AllMaps(Array(es)) && AllMaps(v)
    ensures AllMaps(Array(es + [v]))
  {
  }

  /** Whatever is read, all objects in it are maps. */
  lemma ParsedIsMaps(s: string)
    ensures Parse(s).Ok? ==> AllMaps(Parse(s).value)
  {
    hide Next, ParseValue, AllMaps;
    ValueIsMaps(s, Next(s, 0));
  }
}
