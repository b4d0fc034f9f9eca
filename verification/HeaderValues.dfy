/** The values of a header map, joined by the sender of a message and cut apart again by its receiver. */
module HeaderValues {
  import opened Ascii
  import opened HeaderLines
  import opened HttpEncoder

  /** The two characters stand somewhere in the text. */
  predicate Contains(v: string, a: char, b: char) { exists i :: 0 <= i < |v| - 1 && v[i] == a && v[i + 1] == b }

  /** The text cut wherever the two characters stand, from the left. */
  function CutAt(v: string, a: char, b: char): (vs: seq<string>)
    ensures vs != []
    decreases |v|
  {
    if |v| < 2 then [v]
    else if v[0] == a && v[1] == b then [""] + CutAt(v[2..], a, b)
    else
      var rest := CutAt(v[1..], a, b);
      [[v[0]] + rest[0]] + rest[1..]
  }

  /** A value, the two characters, and the rest. */
  lemma {:induction false} CutFirst(v: string, rest: string, a: char, b: char)
    requires a != b && !Contains(v, a, b)
    ensures CutAt(v + ([a, b] + rest), a, b) == [v] + CutAt(rest, a, b)
    decreases |v|
  {
    var t := v + ([a, b] + rest);
    if v == "" {
      assert t == [a, b] + rest && t[2..] == rest;
    } else {
      assert t[0] == v[0] && t[1..] == v[1..] + ([a, b] + rest);
      assert |v| > 1 ==> t[1] == v[1];
      assert forall i :: 0 <= i < |v| - 1 ==> v[1..][i] == v[i + 1];
      CutFirst(v[1..], rest, a, b);
      var r := CutAt(t[1..], a, b);
      assert r[0] == v[1..] && r[1..] == CutAt(rest, a, b);
      assert [v[0]] + v[1..] == v;
    }
  }

  lemma {:induction false} CutNothing(v: string, a: char, b: char)
    requires !Contains(v, a, b)
    ensures CutAt(v, a, b) == [v]
    decreases |v|
  {
    if |v| >= 2 {
      assert forall i :: 0 <= i < |v| - 1 ==> v[1..][i] == v[i + 1];
      CutNothing(v[1..], a, b);
      assert [v[0]] + v[1..] == v;
    }
  }

  /** No piece holds them. */
  lemma {:induction false} PiecesAreFree(v: string, a: char, b: char)
    requires a != b
    ensures forall i :: 0 <= i < |CutAt(v, a, b)| ==> !Contains(CutAt(v, a, b)[i], a, b)
    ensures |v| > 0 && CutAt(v, a, b)[0] != "" ==> CutAt(v, a, b)[0][0] == v[0]
    decreases |v|
  {
    if |v| >= 2 {
      if v[0] == a && v[1] == b {
        PiecesAreFree(v[2..], a, b);
      } else {
        PiecesAreFree(v[1..], a, b);
        var rest := CutAt(v[1..], a, b);
        OneMore(v[0], rest[0], a, b);
      }
    }
  }

  lemma OneMore(c: char, r: string, a: char, b: char)
    requires !Contains(r, a, b) && (r != "" && c == a ==> r[0] != b)
    ensures !Contains([c] + r, a, b)
  {
    var p := [c] + r;
    assert forall i :: 0 < i < |p| ==> p[i] == r[i - 1];
  }

  /** The joined values, from the front. */
  lemma {:induction false} JoinFront(separator: string, v: string, vs: seq<string>)
    requires vs != []
    ensures JoinWith(separator, [v] + vs) == v + (separator + JoinWith(separator, vs))
    decreases |vs|
  {
    var n := |vs| - 1;
    var all := [v] + vs;
    if n == 0 {
      assert all[..1] == [v] && JoinWith(separator, [v]) == v;
      assert v + separator + vs[0] == v + (separator + vs[0]);
    } else {
      JoinFront(separator, v, vs[..n]);
      assert all[..n + 1] == [v] + vs[..n];
      var j := JoinWith(separator, vs[..n]);
      assert v + (separator + j) + separator + vs[n] == v + (separator + (j + separator + vs[n]));
    }
  }

  lemma {:induction false} JoinCuts(vs: seq<string>, a: char, b: char)
    requires vs != [] && a != b && forall i :: 0 <= i < |vs| ==> !Contains(vs[i], a, b)
    ensures CutAt(JoinWith([a, b], vs), a, b) == vs
    decreases |vs|
  {
    if |vs| == 1 {
      CutNothing(vs[0], a, b);
    } else {
      assert [vs[0]] + vs[1..] == vs;
      JoinFront([a, b], vs[0], vs[1..]);
      JoinCuts(vs[1..], a, b);
      CutFirst(vs[0], JoinWith([a, b], vs[1..]), a, b);
    }
  }

  /** Values come apart again as they were if and only if none of them holds what is put between them. */
  lemma CutJoin(vs: seq<string>, a: char, b: char)
    requires vs != [] && a != b
    ensures CutAt(JoinWith([a, b], vs), a, b) == vs <==> forall i :: 0 <= i < |vs| ==> !Contains(vs[i], a, b)
  {
    PiecesAreFree(JoinWith([a, b], vs), a, b);
    if forall i :: 0 <= i < |vs| ==> !Contains(vs[i], a, b) { JoinCuts(vs, a, b); }
  }

  /** A field as it is read: the values of its key, in order. */
  lemma ValuesComeBack(h: Pairs, i: nat)
    requires IsMultimap(h) && i < |Grouped(h)|
    ensures |AsRead(Grouped(h))| == |Grouped(h)|
    ensures
      var (key, value) := AsRead(Grouped(h))[i];
      var vs := ValuesOf(h, key);
      var a := if key == "cookie" then ';' else ',';
      && key == Grouped(h)[i].0 && vs != []
      && (vs[0] != "" && vs[0][0] != SP && vs[0][0] != HT ==>
            (CutAt(value, a, ' ') == vs <==> forall n :: 0 <= n < |vs| ==> !Contains(vs[n], a, ' ')))
  {
    hide Grouped, AsRead, Contains, CutAt, ValuesOf, JoinWith;
    GroupedMeans(h);
    ReadValue(Grouped(h), i);
    var (key, value) := Grouped(h)[i];
    var vs, a := ValuesOf(h, key), if key == "cookie" then ';' else ',';
    assert [';', ' '] == "; " && [',', ' '] == ", ";
    CutJoin(vs, a, ' ');
    if vs[0] != "" {
      JoinStarts([a, ' '], vs);
      TrimmedExactly(value);
    }
  }

  lemma {:induction false} JoinStarts(separator: string, vs: seq<string>)
    requires vs != [] && vs[0] != ""
    ensures JoinWith(separator, vs) != "" && JoinWith(separator, vs)[0] == vs[0][0]
    decreases |vs|
  {
    if |vs| > 1 { JoinStarts(separator, vs[..|vs| - 1]); }
  }

  lemma {:induction false} ReadValue(ps: Pairs, i: nat)
    requires i < |ps|
    ensures |AsRead(ps)| == |ps| && AsRead(ps)[i] == (ps[i].0, Trimmed(ps[i].1))
    decreases i
  {
    ReadLength(ps);
    if i > 0 { ReadValue(ps[1..], i - 1); }
  }
}
