/** Number tokens (section 6 of RFC 8259): which texts they cover, and what value they stand for. */
module JsonNumbers {
  import opened Ascii
  import opened Numerals
  import opened Substrings
  import opened JsonText
  import opened JsonLexer
  import opened JsonValue
  import opened JsonParser

  /** The parts of a number; an empty text stands for a part that is not there. */
  datatype Number = Number(minus: string, whole: string, fraction: string, power: string)

  predicate AreDigits(x: string) { x != "" && IsDigits(x) }

  predicate IsFraction(x: string) { x == "" || (x[0] == '.' && AreDigits(x[1..])) }

  predicate IsPower(x: string) {
    x == "" || ((x[0] == 'e' || x[0] == 'E') && |x| > 1
      && if x[1] == '+' || x[1] == '-' then AreDigits(x[2..]) else AreDigits(x[1..]))
  }

  /** No sign but a minus, and no zero in front of other digits. */
  predicate IsNumber(n: Number) {
    && (n.minus == "" || n.minus == "-") && AreDigits(n.whole) && (n.whole[0] == '0' ==> n.whole == "0")
    && IsFraction(n.fraction) && IsPower(n.power)
  }

  function NumberText(n: Number): string { n.minus + (n.whole + (n.fraction + n.power)) }

  /* ---- digits ------------------------------------------------------------ */

  /** A run of digits ends where the next character is none. */
  lemma {:induction false} DigitsRun(s: string, i: nat, x: string)
    requires Stands(s, i, x) && IsDigits(x)
    ensures DigitsEnd(s, i) >= i + |x| && DigitsEnd(s, i) == DigitsEnd(s, i + |x|)
    decreases |x|
  {
    if x != "" {
      StandAt(s, i, x);
      assert s[i + 1..i + |x|] == s[i..i + |x|][1..] == x[1..];
      DigitsRun(s, i + 1, x[1..]);
    }
  }

  lemma {:induction false} DigitsCovered(s: string, i: nat)
    requires i <= |s|
    ensures IsDigits(s[i..DigitsEnd(s, i)]) && !IsNum(At(s, DigitsEnd(s, i)))
    decreases |s| - i
  {
    if IsNum(At(s, i)) {
      DigitsCovered(s, i + 1);
      var e := DigitsEnd(s, i);
      forall k | 0 <= k < e - i ensures IsNum(s[i..e][k]) {
        if k > 0 { assert s[i..e][k] == s[i + 1..e][k - 1]; }
      }
    }
  }

  /* ---- what is a token ----------------------------------------------------- */

  /** The character behind a number does not prolong it. */
  predicate Stops(n: Number, c: char) {
    && ((n.whole != "0" || n.fraction != "" || n.power != "") ==> !IsNum(c))
    && (n.power == "" ==> c != 'e' && c != 'E') && (n.power == "" && n.fraction == "" ==> c != '.')
  }

  lemma FractionRuns(s: string, i: nat, x: string)
    requires Stands(s, i, x) && IsFraction(x) && x != "" && !IsNum(At(s, i + |x|))
    ensures At(s, i) == '.' && IsNum(At(s, i + 1)) && DigitsEnd(s, i + 1) == i + |x|
  {
    StandAt(s, i, x);
    assert s[i + 1..i + |x|] == s[i..i + |x|][1..] == x[1..];
    DigitsRun(s, i + 1, x[1..]);
  }

  lemma PowerRuns(s: string, i: nat, x: string)
    requires Stands(s, i, x) && IsPower(x) && x != "" && !IsNum(At(s, i + |x|))
    ensures (At(s, i) == 'e' || At(s, i) == 'E') && i < |s| && ExponentEnd(s, i) == i + |x|
  {
    StandAt(s, i, x);
    var k := if x[1] == '+' || x[1] == '-' then 2 else 1;
    assert s[i + k..i + |x|] == s[i..i + |x|][k..] == x[k..];
    assert IsNum(x[k..][0]) && x[k..][0] == x[k];
    DigitsRun(s, i + k, x[k..]);
  }

  /** A character that begins a part. */
  lemma PartStarts(s: string, i: nat, x: string, y: string)
    requires Stands(s, i, x) && Stands(s, i + |x|, y) && (x == "" || IsFraction(x)) && IsPower(y)
    ensures x != "" ==> !IsNum(At(s, i))
    ensures x == "" && y != "" ==> !IsNum(At(s, i)) && At(s, i) != '.'
    ensures y != "" ==> !IsNum(At(s, i + |x|)) && At(s, i + |x|) != '.'
  {
    StandAt(s, i, x);
    StandAt(s, i + |x|, y);
  }

  lemma RestRuns(s: string, i: nat, n: Number)
    requires IsNumber(n) && Stands(s, i, n.fraction) && Stands(s, i + |n.fraction|, n.power)
    requires Stops(n, At(s, i + |n.fraction| + |n.power|))
    ensures NumberEnd(s, i) == i + |n.fraction| + |n.power|
  {
    PartStarts(s, i, n.fraction, n.power);
    hide IsFraction, IsPower, AreDigits, DigitsEnd, ExponentEnd, NumberEnd, IsNum, At;
    var k := i + |n.fraction|;
    if n.fraction != "" { FractionRuns(s, i, n.fraction); }
    if n.power != "" { PowerRuns(s, k, n.power); }
    StandsInside(s, k, n.power);
    RestEnds(s, i, k, k + |n.power|);
  }

  /** The two optional parts, one behind the other. */
  lemma RestEnds(s: string, i: nat, k: nat, e: nat)
    requires i <= k <= e <= |s|
    requires if i == k then At(s, i) != '.' else At(s, i) == '.' && IsNum(At(s, i + 1)) && DigitsEnd(s, i + 1) == k
    requires
      if k == e then At(s, k) != 'e' && At(s, k) != 'E'
      else k < |s| && (At(s, k) == 'e' || At(s, k) == 'E') && ExponentEnd(s, k) == e
    ensures NumberEnd(s, i) == e
  {
    hide DigitsEnd, ExponentEnd, IsNum;
  }

  lemma WholeRuns(s: string, i: nat, n: Number)
    requires IsNumber(n) && Stands(s, i, n.whole) && (n.whole != "0" ==> !IsNum(At(s, i + |n.whole|)))
    ensures i < |s| && IsNum(At(s, i)) && WholeEnd(s, i) == i + |n.whole|
  {
    StandAt(s, i, n.whole);
    if n.whole != "0" { DigitsRun(s, i, n.whole); }
  }

  lemma NumberStands(s: string, i: nat, n: Number)
    requires IsNumber(n) && Stands(s, i, NumberText(n))
    ensures
      var a := i + |n.minus|;
      var b := a + |n.whole|;
      && Stands(s, i, n.minus) && Stands(s, a, n.whole) && Stands(s, b, n.fraction)
      && Stands(s, b + |n.fraction|, n.power) && |NumberText(n)| == |n.minus| + |n.whole| + |n.fraction| + |n.power|
  {
    hide Stands, IsFraction, IsPower;
    StandParts(s, i, n.minus, n.whole + (n.fraction + n.power));
    StandParts(s, i + |n.minus|, n.whole, n.fraction + n.power);
    StandParts(s, i + |n.minus| + |n.whole|, n.fraction, n.power);
  }

  lemma MinusStands(s: string, i: nat, n: Number)
    requires IsNumber(n) && Stands(s, i, n.minus) && Stands(s, i + |n.minus|, n.whole)
    ensures n.minus == "" <==> At(s, i) != '-'
  {
    StandAt(s, i, n.minus);
    StandAt(s, i + |n.minus|, n.whole);
  }

  lemma WholeIsLast(s: string, i: nat, n: Number)
    requires IsNumber(n) && Stands(s, i, n.fraction) && Stands(s, i + |n.fraction|, n.power) && n.whole != "0"
    requires Stops(n, At(s, i + |n.fraction| + |n.power|))
    ensures !IsNum(At(s, i))
  {
    PartStarts(s, i, n.fraction, n.power);
  }

  /** Where the scan lets the whole part end: a zero stands alone. */
  function WholeEnd(s: string, a: nat): (b: nat)
    requires a < |s|
    ensures a < b <= |s|
  {
    if s[a] == '0' then a + 1 else DigitsEnd(s, a + 1)
  }

  /** The case of the scan for a number without a minus. */
  lemma NumberCase(s: string, i: nat)
    requires i <= |s| && IsNum(At(s, i))
    ensures i < |s| && Scan(s, i) == Token(ValueNumber, i, NumberEnd(s, WholeEnd(s, i)))
  {
    hide StringEnd, NumberEnd, DigitsEnd;
  }

  lemma MinusCase(s: string, i: nat, a: nat)
    requires i <= |s| && At(s, i) == '-' && a == i + 1 && IsNum(At(s, a))
    ensures a < |s| && Scan(s, i) == Token(ValueNumber, i, NumberEnd(s, WholeEnd(s, a)))
  {
    DigitsNext(s, a);
    hide StringEnd, NumberEnd, DigitsEnd;
    assert i + 1 == a && i + 2 == a + 1;
  }

  lemma StartCase(s: string, i: nat, a: nat)
    requires i <= |s| && IsNum(At(s, a)) && (if At(s, i) == '-' then a == i + 1 else a == i)
    ensures a < |s| && Scan(s, i) == Token(ValueNumber, i, NumberEnd(s, WholeEnd(s, a)))
  {
    hide Scan, NumberEnd, DigitsEnd, WholeEnd;
    if At(s, i) == '-' { MinusCase(s, i, a); } else { NumberCase(s, i); }
  }

  /** Every number that nothing prolongs is one token. */
  lemma NumberIsToken(s: string, i: nat, n: Number)
    requires IsNumber(n) && Stands(s, i, NumberText(n)) && Stops(n, At(s, i + |NumberText(n)|))
    ensures i <= |s| && Scan(s, i) == Token(ValueNumber, i, i + |NumberText(n)|)
  {
    NumberStands(s, i, n);
    MinusIs(n);
    StandsInside(s, i, NumberText(n));
    hide *;
    var a := i + |n.minus|;
    var b := a + |n.whole|;
    var k := b + |n.fraction|;
    NumberRuns(s, i, n, a, b, k, i + |NumberText(n)|);
  }

  lemma NumberRuns(s: string, i: nat, n: Number, a: nat, b: nat, k: nat, e: nat)
    requires IsNumber(n) && Stands(s, i, n.minus) && Stands(s, a, n.whole) && Stands(s, b, n.fraction)
    requires Stands(s, k, n.power) && Stops(n, At(s, e)) && i <= |s|
    requires a == i + |n.minus| && b == a + |n.whole| && k == b + |n.fraction| && e == k + |n.power|
    ensures Scan(s, i) == Token(ValueNumber, i, e)
  {
    MinusIs(n);
    hide *;
    MinusStands(s, i, n);
    if n.whole != "0" { WholeIsLast(s, b, n); }
    WholeRuns(s, a, n);
    assert WholeEnd(s, a) == b;
    RestRuns(s, b, n);
    assert NumberEnd(s, b) == e;
    StartCase(s, i, a);
  }

  lemma MinusIs(n: Number)
    requires IsNumber(n)
    ensures n.minus == "" || (n.minus == "-" && |n.minus| == 1)
    ensures |n.whole| >= 1 && (n.whole == "0" ==> |n.whole| == 1)
  {
  }

  lemma DigitsNext(s: string, i: nat)
    requires i < |s| && IsNum(s[i])
    ensures DigitsEnd(s, i) == DigitsEnd(s, i + 1)
  {
  }

  /* ---- and nothing else is ---------------------------------------------------- */

  lemma WholeCovered(s: string, i: nat) returns (x: string)
    requires i < |s| && IsNum(s[i])
    ensures x == s[i..WholeEnd(s, i)] && AreDigits(x) && (x[0] == '0' ==> x == "0")
  {
    if s[i] == '0' {
      x := s[i..i + 1];
    } else {
      DigitsNext(s, i);
      DigitsCovered(s, i);
      x := s[i..DigitsEnd(s, i)];
    }
  }

  lemma FractionCovered(s: string, i: nat)
    requires i <= |s|
    ensures
      var k := if At(s, i) == '.' && IsNum(At(s, i + 1)) then DigitsEnd(s, i + 1) else i;
      i <= k <= |s| && IsFraction(s[i..k])
  {
    if At(s, i) == '.' && IsNum(At(s, i + 1)) {
      DigitsCovered(s, i + 1);
      var k := DigitsEnd(s, i + 1);
      assert s[i..k][1..] == s[i + 1..k] && k > i + 1;
    }
  }

  lemma PowerCovered(s: string, i: nat)
    requires i < |s| && (s[i] == 'e' || s[i] == 'E')
    ensures IsPower(s[i..ExponentEnd(s, i)])
  {
    var k := if At(s, i + 1) == '+' || At(s, i + 1) == '-' then i + 2 else i + 1;
    if IsNum(At(s, k)) {
      DigitsCovered(s, k);
      var e := DigitsEnd(s, k);
      var x := s[i..e];
      assert x[k - i..] == s[k..e] && e > k && x[1] == s[i + 1];
    }
  }

  lemma RestCovered(s: string, i: nat) returns (fraction: string, power: string)
    requires i <= |s|
    ensures IsFraction(fraction) && IsPower(power) && s[i..NumberEnd(s, i)] == fraction + power
  {
    FractionCovered(s, i);
    hide IsFraction, IsPower, DigitsEnd, ExponentEnd;
    var k := if At(s, i) == '.' && IsNum(At(s, i + 1)) then DigitsEnd(s, i + 1) else i;
    fraction, power := s[i..k], "";
    if At(s, k) == 'e' || At(s, k) == 'E' {
      PowerCovered(s, k);
      power := s[k..NumberEnd(s, i)];
    } else {
      NoPower();
    }
  }

  lemma NoPower()
    ensures IsPower("")
  {
  }

  /** An integer of more than a zero takes all digits. */
  predicate TakesDigits(s: string, n: Number, e: nat) {
    n.whole != "0" && n.fraction == "" && n.power == "" ==> !IsNum(At(s, e))
  }

  lemma WholeTaken(s: string, a: nat)
    requires a < |s| && IsNum(s[a])
    ensures s[a] != '0' ==> !IsNum(At(s, WholeEnd(s, a)))
  {
    DigitsCovered(s, a + 1);
  }

  lemma Covered(s: string, i: nat, a: nat) returns (n: Number)
    requires i <= a < |s| && IsNum(s[a]) && (s[i..a] == "" || s[i..a] == "-")
    ensures
      var e := NumberEnd(s, WholeEnd(s, a));
      IsNumber(n) && n.minus == s[i..a] && a <= e <= |s| && s[i..e] == NumberText(n) && TakesDigits(s, n, e)
  {
    var whole := WholeCovered(s, a);
    WholeTaken(s, a);
    hide IsFraction, IsPower, NumberEnd, AreDigits, WholeEnd;
    var b := WholeEnd(s, a);
    var fraction, power := RestCovered(s, b);
    n := Number(s[i..a], whole, fraction, power);
    Joined(s, i, a, b, NumberEnd(s, b), fraction, power);
  }

  lemma Joined(s: string, i: nat, a: nat, b: nat, e: nat, fraction: string, power: string)
    requires i <= a <= b <= e <= |s| && s[b..e] == fraction + power
    ensures s[i..e] == s[i..a] + (s[a..b] + (fraction + power))
    ensures fraction == "" && power == "" ==> e == b
  {
  }

  /** The cases of a scan that gives a number. */
  lemma NumberCases(s: string, i: nat)
    requires i <= |s| && Scan(s, i).kind.ValueNumber?
    ensures
      var c := At(s, i);
      || (IsSpace(c) && i < |s| && Scan(s, i) == Scan(s, i + 1)) || IsNum(c) || (c == '-' && IsNum(At(s, i + 1)))
      || (i + 3 <= |s| && Scan(s, i) == Scan(s, i + 3))
  {
    hide StringEnd, NumberEnd, DigitsEnd;
  }

  /** Every number token covers a number. */
  lemma {:induction false} TokenIsNumber(s: string, i: nat) returns (n: Number)
    requires i <= |s| && Scan(s, i).kind.ValueNumber?
    ensures
      var t := Scan(s, i);
      IsNumber(n) && t.end <= |s| && s[t.start..t.end] == NumberText(n) && TakesDigits(s, n, t.end)
    decreases |s| - i
  {
    NumberCases(s, i);
    hide IsNumber, NumberText, NumberEnd, Scan, TakesDigits, IsSpace, IsNum, WholeEnd;
    var c := At(s, i);
    if c == '-' && IsNum(At(s, i + 1)) {
      MinusCase(s, i, i + 1);
      n := Covered(s, i, i + 1);
    } else if IsNum(c) {
      NumberCase(s, i);
      n := Covered(s, i, i);
    } else if IsSpace(c) && i < |s| && Scan(s, i) == Scan(s, i + 1) {
      n := TokenIsNumber(s, i + 1);
    } else {
      n := TokenIsNumber(s, i + 3);
    }
  }

  /* ---- values ------------------------------------------------------------------- */

  /** What a number stands for, when `c` is the character behind it. */
  function Value(n: Number, c: char): Result<Json>
    requires IsDigits(n.whole)
  {
    var v := Decimal(n.whole);
    if n.fraction != "" || n.power != "" then Ok(Float(NumberText(n)))
    else if n.whole == "0" && IsNum(c) then Error("not a number")
    else if n.minus == "" && v <= 0xFFFF_FFFF_FFFF_FFFF then Ok(Unsigned(v))
    else if n.minus == "-" && v <= 0x8000_0000_0000_0000 then Ok(Integer(0 - v))
    else if c == '.' then Error("not a number")
    else Ok(Float(NumberText(n)))
  }

  /** Where the digits from `a` on end, when the whole part ends at `b` and the number at `e`. */
  predicate DigitsStopAt(s: string, n: Number, a: nat, b: nat, e: nat) {
    && a <= b <= e <= |s| && s[a..b] == n.whole && (b == e <==> n.fraction == "" && n.power == "")
    && if n.whole == "0" && b == e && IsNum(At(s, e)) then DigitsEnd(s, a) > b else DigitsEnd(s, a) == b
  }

  lemma WholeEnds(s: string, a: nat, n: Number, b: nat, e: nat)
    requires IsNumber(n) && Stands(s, a, n.whole) && TakesDigits(s, n, e) && b == a + |n.whole|
    requires Stands(s, b, n.fraction) && Stands(s, b + |n.fraction|, n.power) && e == b + |n.fraction| + |n.power|
    ensures DigitsStopAt(s, n, a, b, e)
  {
    PartStarts(s, b, n.fraction, n.power);
    DigitsRun(s, a, n.whole);
    StandsInside(s, a, n.whole);
    StandsInside(s, b, n.fraction);
    StandsInside(s, b + |n.fraction|, n.power);
    NextDigits(s, b);
    hide IsFraction, IsPower, DigitsEnd, Stands;
  }

  lemma NextDigits(s: string, i: nat)
    requires i <= |s|
    ensures if IsNum(At(s, i)) then DigitsEnd(s, i) > i else DigitsEnd(s, i) == i
  {
  }

  /** Where the digits of a token begin. */
  predicate Signed(s: string, t: Token, n: Number, a: nat) {
    && t.start < t.end <= |s|
    && if s[t.start] == '-' then n.minus == "-" && a == t.start + 1 else n.minus == "" && a == t.start
  }

  lemma NumberFloat(s: string, t: Token, n: Number, a: nat)
    requires Readable(s, t) && t.kind.ValueNumber? && Signed(s, t, n, a) && a <= |s| && DigitsEnd(s, a) < t.end
    ensures GetNumber(s, t) == Ok(Float(s[t.start..t.end]))
  {
    hide DigitsEnd, Decimal, IsDigits;
  }

  lemma NumberBeyond(s: string, t: Token, n: Number, a: nat)
    requires Readable(s, t) && t.kind.ValueNumber? && Signed(s, t, n, a) && a <= |s| && DigitsEnd(s, a) > t.end
    ensures GetNumber(s, t) == Error("not a number")
  {
    hide DigitsEnd, Decimal, IsDigits;
  }

  lemma NumberWhole(s: string, t: Token, n: Number, a: nat)
    requires Readable(s, t) && t.kind.ValueNumber? && Signed(s, t, n, a) && a <= t.end && DigitsEnd(s, a) == t.end
    requires IsDigits(n.whole) && s[a..t.end] == n.whole
    ensures
      var v := Decimal(n.whole);
      GetNumber(s, t) ==
        if n.minus == "" && v <= 0xFFFF_FFFF_FFFF_FFFF then Ok(Unsigned(v))
        else if n.minus == "-" && v <= 0x8000_0000_0000_0000 then Ok(Integer(0 - v))
        else if At(s, t.end) == '.' then Error("not a number")
        else Ok(Float(s[t.start..t.end]))
  {
    hide DigitsEnd, Decimal, IsDigits, At;
  }

  /** `get_number`, when it is known where the digits end. */
  lemma NumberValue(s: string, t: Token, n: Number, a: nat, b: nat)
    requires Readable(s, t) && t.kind.ValueNumber? && DigitsStopAt(s, n, a, b, t.end) && Signed(s, t, n, a)
    requires s[t.start..t.end] == NumberText(n) && IsDigits(n.whole)
    ensures GetNumber(s, t) == Value(n, At(s, t.end))
  {
    StopMeans(s, n, a, b, t.end);
    hide DigitsEnd, Decimal, IsDigits, NumberText, Readable, GetNumber, DigitsStopAt, IsNum, At, Signed;
    if b < t.end { NumberFloat(s, t, n, a); }
    else if DigitsEnd(s, a) > b { NumberBeyond(s, t, n, a); }
    else { NumberWhole(s, t, n, a); }
  }

  lemma StopMeans(s: string, n: Number, a: nat, b: nat, e: nat)
    requires DigitsStopAt(s, n, a, b, e)
    ensures a <= b <= e <= |s| && (b == e <==> n.fraction == "" && n.power == "")
    ensures DigitsEnd(s, a) == b ==> s[a..DigitsEnd(s, a)] == n.whole
    ensures DigitsEnd(s, a) == b || (DigitsEnd(s, a) > b == e && n.whole == "0" && IsNum(At(s, e)))
    ensures n.whole == "0" && b == e && IsNum(At(s, e)) ==> DigitsEnd(s, a) > b
  {
    hide DigitsEnd;
  }

  /**
   What a number token stands for.  An integer that fits 64 bits is one; any other number
   is kept as a float; and digits behind a zero, or a dot behind an integer that does
   not fit, are an error.
   */
  lemma NumberMeans(s: string, i: nat) returns (n: Number)
    requires i <= |s| && Scan(s, i).kind.ValueNumber?
    ensures
      var t := Scan(s, i);
      && IsNumber(n) && t.end <= |s| && s[t.start..t.end] == NumberText(n)
      && Readable(s, t) && GetNumber(s, t) == Value(n, At(s, t.end))
  {
    var t := Next(s, i);
    assert t == Scan(s, i);
    n := TokenIsNumber(s, i);
    NumberTokenStarts(s, i);
    hide *;
    NumberFrom(s, t, n, t.start + |n.minus|, t.start + |n.minus| + |n.whole|);
  }

  lemma NumberFrom(s: string, t: Token, n: Number, a: nat, b: nat)
    requires Readable(s, t) && t.kind.ValueNumber? && IsNumber(n) && t.start < t.end <= |s| && TakesDigits(s, n, t.end)
    requires s[t.start..t.end] == NumberText(n) && a == t.start + |n.minus| && b == a + |n.whole|
    ensures GetNumber(s, t) == Value(n, At(s, t.end))
  {
    NumberParts(s, t.start, t.end, n);
    MinusIs(n);
    IsNumberMeans(n);
    hide *;
    MinusStands(s, t.start, n);
    SignedIs(s, t, n);
    WholeEnds(s, a, n, b, t.end);
    NumberValue(s, t, n, a, b);
  }

  lemma SignedIs(s: string, t: Token, n: Number)
    requires t.start < t.end <= |s| && (n.minus == "" <==> At(s, t.start) != '-') && (n.minus == "" || n.minus == "-")
    ensures Signed(s, t, n, t.start + |n.minus|)
  {
  }

  lemma IsNumberMeans(n: Number)
    requires IsNumber(n)
    ensures IsDigits(n.whole)
  {
  }

  lemma NumberParts(s: string, i: nat, e: nat, n: Number)
    requires IsNumber(n) && i <= e <= |s| && s[i..e] == NumberText(n)
    ensures
      var a := i + |n.minus|;
      var b := a + |n.whole|;
      && Stands(s, i, n.minus) && Stands(s, a, n.whole) && Stands(s, b, n.fraction)
      && Stands(s, b + |n.fraction|, n.power) && e == b + |n.fraction| + |n.power|
  {
    assert Stands(s, i, NumberText(n));
    hide Stands, NumberText;
    NumberStands(s, i, n);
  }

  /* ---- white space -------------------------------------------------------------- */

  /** White space between tokens is passed over. */
  lemma {:induction false} BlankPassed(s: string, i: nat, x: string)
    requires Stands(s, i, x) && forall k :: 0 <= k < |x| ==> x[k] in " \t\n\r"
    ensures i + |x| <= |s| && Scan(s, i) == Scan(s, i + |x|)
    decreases |x|
  {
    hide StringEnd, NumberEnd, DigitsEnd;
    if x != "" {
      StandAt(s, i, x);
      assert x[0] in " \t\n\r" && s[i] == x[0];
      assert s[i + 1..i + |x|] == s[i..i + |x|][1..] == x[1..];
      BlankPassed(s, i + 1, x[1..]);
    }
  }
}
