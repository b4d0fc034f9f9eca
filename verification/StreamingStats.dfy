/**
 The mean and the squared deviations of named measurements, updated one sample
 at a time, against their two-pass definitions over the reals.
 */
module StreamingStats {
  function Sum(vs: seq<real>): real {
    if vs == [] then 0.0 else Sum(vs[..|vs| - 1]) + vs[|vs| - 1]
  }

  /** The sum of the squared distances from `c`. */
  function Deviations(vs: seq<real>, c: real): real {
    if vs == [] then 0.0
    else
      Deviations(vs[..|vs| - 1], c) + Square(vs[|vs| - 1] - c)
  }

  function Square(x: real): real { x * x }

  function Mean(vs: seq<real>): real
    requires vs != []
  {
    Sum(vs) / (|vs| as real)
  }

  /** What a shift by `k` adds to the squared deviations of `n` values. */
  function Shift(k: real, offCentre: real, n: real): real { 2.0 * k * offCentre + n * Square(k) }

  /** Around another centre, the squared deviations grow by the square of the shift for each value. */
  lemma {:induction false} DeviationsShift(vs: seq<real>, c: real, e: real)
    ensures Deviations(vs, e) == Deviations(vs, c) + Shift(c - e, OffCentre(vs, c), |vs| as real)
    decreases |vs|
  {
    hide Deviations, Square, Shift, OffCentre;
    if vs == [] {
      NoValues(c, e);
    } else {
      var rest, v := vs[..|vs| - 1], vs[|vs| - 1];
      assert rest + [v] == vs;
      DeviationsShift(rest, c, e);
      LastDeviation(rest, v, c);
      LastDeviation(rest, v, e);
      OffCentreMore(rest, v, c);
      ShiftStep(OffCentre(rest, c), |rest| as real, c - e, v - c);
      assert v - e == (v - c) + (c - e);
    }
  }

  lemma NoValues(c: real, e: real)
    ensures Deviations([], e) == Deviations([], c) + Shift(c - e, OffCentre([], c), 0.0)
  {
  }

  /** How far `c` is from the mean, times the number of values. */
  function OffCentre(vs: seq<real>, c: real): real { Sum(vs) - |vs| as real * c }

  lemma OffCentreMore(vs: seq<real>, v: real, c: real)
    ensures OffCentre(vs + [v], c) == OffCentre(vs, c) + (v - c)
  {
    assert (vs + [v])[..|vs|] == vs;
    var n := |vs| as real;
    assert |vs + [v]| as real == n + 1.0;
    assert (n + 1.0) * c == n * c + c;
  }

  lemma ShiftStep(p: real, n: real, k: real, x: real)
    ensures Shift(k, p, n) + Square(x + k) == Square(x) + Shift(k, p + x, n + 1.0)
  {
    assert (x + k) * (x + k) == x * x + 2.0 * k * x + k * k;
    assert 2.0 * k * (p + x) == 2.0 * k * p + 2.0 * k * x;
    assert (n + 1.0) * (k * k) == n * (k * k) + k * k;
  }

  /** The running mean moves by the deviation of the new value over the new count. */
  lemma MeanMoves(vs: seq<real>, v: real)
    requires vs != []
    ensures Mean(vs + [v]) == Mean(vs) + (v - Mean(vs)) / (|vs| as real + 1.0)
  {
    assert (vs + [v])[..|vs|] == vs;
    var n, a := |vs| as real, Mean(vs);
    assert Sum(vs) == n * a;
    assert Sum(vs + [v]) == n * a + v;
    var b := a + (v - a) / (n + 1.0);
    assert (n + 1.0) * b == (n + 1.0) * a + (v - a);
    assert (n + 1.0) * b == n * a + v;
  }

  /** And the squared deviations grow by the product of the deviations from the old and the new mean. */
  lemma DeviationsMove(vs: seq<real>, v: real)
    requires vs != []
    ensures Deviations(vs + [v], Mean(vs + [v]))
      == Deviations(vs, Mean(vs)) + (v - Mean(vs)) * (v - Mean(vs + [v]))
  {
    hide Mean, Deviations, OffCentre, Shift, Square;
    var n, a, b := |vs| as real, Mean(vs), Mean(vs + [v]);
    MeanStep(vs, v);
    DeviationsShift(vs, a, b);
    MeanIsCentre(vs);
    LastDeviation(vs, v, b);
    assert Shift(a - b, OffCentre(vs, a), n) == Shift(a - b, 0.0, n);
    Balance(n, a, b, v);
  }

  lemma MeanStep(vs: seq<real>, v: real)
    requires vs != []
    ensures (|vs| as real + 1.0) * (Mean(vs + [v]) - Mean(vs)) == v - Mean(vs)
  {
    MeanMoves(vs, v);
    hide Mean;
    var n, d := |vs| as real + 1.0, v - Mean(vs);
    assert n * (d / n) == d;
  }

  lemma MeanIsCentre(vs: seq<real>)
    requires vs != []
    ensures OffCentre(vs, Mean(vs)) == 0.0
  {
  }

  lemma LastDeviation(vs: seq<real>, v: real, c: real)
    ensures Deviations(vs + [v], c) == Deviations(vs, c) + Square(v - c)
  {
    assert (vs + [v])[..|vs|] == vs;
  }

  lemma Balance(n: real, a: real, b: real, v: real)
    requires (n + 1.0) * (b - a) == v - a
    ensures Shift(a - b, 0.0, n) + Square(v - b) == (v - a) * (v - b)
  {
    var d := b - a;
    assert n * d == v - b;
    assert n * ((a - b) * (a - b)) == (n * d) * d;
    assert (v - b) * d + (v - b) * (v - b) == (v - b) * (d + (v - b));
  }

  /** The values recorded for a name, in order. */
  function Recorded(lines: seq<(string, real)>, name: string): seq<real> {
    if lines == [] then []
    else
      var n := |lines| - 1;
      Recorded(lines[..n], name) + (if lines[n].0 == name then [lines[n].1] else [])
  }

  lemma RecordedNext(lines: seq<(string, real)>, i: nat, name: string)
    requires i < |lines|
    ensures Recorded(lines[..i + 1], name)
      == if lines[i].0 == name then Recorded(lines[..i], name) + [lines[i].1] else Recorded(lines[..i], name)
  {
    assert lines[..i + 1][..i] == lines[..i];
  }

  /** The dictionaries of the script. */
  datatype Summary = Summary(
    allValues: map<string, seq<real>>, averages: map<string, real>, m2: map<string, real>, samples: map<string, nat>)

  /** What they must hold for a name whose values are `vs`. */
  ghost predicate Summarises(t: Summary, name: string, vs: seq<real>) {
    if vs == [] then name !in t.allValues && name !in t.averages && name !in t.m2 && name !in t.samples
    else
      && name in t.allValues && name in t.averages && name in t.m2 && name in t.samples
      && t.allValues[name] == vs && t.samples[name] == |vs|
      && t.averages[name] == Mean(vs) && t.m2[name] == Deviations(vs, Mean(vs))
  }

  ghost predicate SummarisesOne(t: Summary, lines: seq<(string, real)>, name: string) {
    Summarises(t, name, Recorded(lines, name))
  }

  ghost predicate SummarisesAll(t: Summary, lines: seq<(string, real)>) { forall name :: SummarisesOne(t, lines, name) }

  /** One line: the body of the script's first loop. */
  method Record(t: Summary, name: string, value: real, ghost vs: seq<real>) returns (u: Summary)
    requires Summarises(t, name, vs)
    ensures Summarises(u, name, vs + [value])
    ensures forall other, ws :: other != name && Summarises(t, other, ws) ==> Summarises(u, other, ws)
  {
    hide Mean, Deviations;
    var Summary(allValues, averages, m2, samples) := t;
    if name in allValues {
      MeanMoves(vs, value);
      DeviationsMove(vs, value);
      allValues := allValues[name := allValues[name] + [value]];
      samples := samples[name := samples[name] + 1];
      var oldAvg := averages[name];
      var delta := value - oldAvg;
      averages := averages[name := averages[name] + delta / (samples[name] as real)];
      m2 := m2[name := m2[name] + delta * (value - averages[name])];
    } else {
      OneSample(value);
      allValues := allValues[name := [value]];
      averages := averages[name := value];
      samples := samples[name := 1];
      m2 := m2[name := 0.0];
    }
    u := Summary(allValues, averages, m2, samples);
  }

  /** The first loop of the script, over the lines of its input, already parsed. */
  method Summarise(lines: seq<(string, real)>) returns (t: Summary)
    ensures SummarisesAll(t, lines)
  {
    hide Summarises;
    t := Summary(map[], map[], map[], map[]);
    NothingRecorded(t);
    var i := 0;
    while i < |lines|
      invariant i <= |lines| && SummarisesAll(t, lines[..i])
    {
      var (name, value) := lines[i];
      ghost var before := t;
      assert SummarisesOne(t, lines[..i], name);
      t := Record(t, name, value, Recorded(lines[..i], name));
      ghost var next := lines[..i + 1];
      forall other ensures SummarisesOne(t, next, other) {
        RecordedNext(lines, i, other);
        assert SummarisesOne(before, lines[..i], other);
      }
      i := i + 1;
    }
    assert lines[..i] == lines;
  }

  lemma NothingRecorded(t: Summary)
    requires t == Summary(map[], map[], map[], map[])
    ensures SummarisesAll(t, [])
  {
  }

  lemma OneSample(v: real)
    ensures Mean([v]) == v && Deviations([v], v) == 0.0 && [] + [v] == [v]
  {
    assert [v][..0] == [] && Sum([v]) == Sum([]) + v;
    assert v / 1.0 == v && (v - v) * (v - v) == 0.0;
  }
}
