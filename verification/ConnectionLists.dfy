/**
 What the parser makes of the value of a Connection field: a list of elements between
 commas, of which it looks for "keep-alive", "close" and "upgrade" in any case.
 */
module ConnectionLists {
  import opened Ascii
  import opened ParserTypes
  import opened ParserStep
  import opened FieldValues

  /* ---- the list -------------------------------------------------------- */

  /** A letter in either case; nothing else has two. */
  predicate AnyCase(c: char, l: char) { c == l || ('a' <= l <= 'z' && c as int + 0x20 == l as int) }

  predicate SpelledAs(s: string, word: string) { |s| == |word| && forall i :: 0 <= i < |s| ==> AnyCase(s[i], word[i]) }

  function CommaAt(v: string): (n: nat)
    ensures n <= |v| && (n < |v| ==> v[n] == ',') && forall i :: 0 <= i < n ==> v[i] != ','
  {
    if v == "" || v[0] == ',' then 0 else 1 + CommaAt(v[1..])
  }

  /** The texts between the commas; there is always one. */
  function Elements(v: string): (es: seq<string>)
    ensures es != []
    decreases |v|
  {
    var n := CommaAt(v);
    if n == |v| then [v] else [v[..n]] + Elements(v[n + 1..])
  }

  /** The element without the spaces in front of it. */
  function Unspaced(e: string): string
    decreases |e|
  {
    if e != "" && e[0] == SP then Unspaced(e[1..]) else e
  }

  /** The word, and nothing behind it but spaces. */
  predicate Whole(t: string, word: string) {
    |t| >= |word| && SpelledAs(t[..|word|], word) && forall i :: |word| <= i < |t| ==> t[i] == SP
  }

  predicate Part(t: string, word: string) { 0 < |t| < |word| && SpelledAs(t, word[..|t|]) }

  predicate AnyPart(t: string) { Part(t, "keep-alive") || Part(t, "close") || Part(t, "upgrade") }

  predicate IsWord(e: string, word: string) { Whole(Unspaced(e), word) }

  /** The element is in the list. */
  predicate Listed(v: string, word: string) { exists i :: 0 <= i < |Elements(v)| && IsWord(Elements(v)[i], word) }

  /* ---- what is read of it ---------------------------------------------- */

  /** An element that begins otherwise, or is empty, makes the parser give up on the rest of the list. */
  predicate Opens(e: string) { Unspaced(e) != "" && IsToken(Lower(Unspaced(e)[0])) }

  /** An element after which the comma is taken for a part of it, and so is the next element. */
  predicate Swallows(e: string, first: bool) { if first && e == "" then true else AnyPart(Unspaced(e)) }

  /** The elements behind the first that are read. */
  function Behind(es: seq<string>, first: bool): seq<string>
    requires es != []
  {
    if !Swallows(es[0], first) then es[1..] else if |es| > 1 then es[2..] else []
  }

  /** The word is found. */
  predicate Held(es: seq<string>, first: bool, word: string)
    decreases |es|
  {
    es != [] && (first || Opens(es[0])) && (IsWord(es[0], word) || Held(Behind(es, first), false, word))
  }

  predicate Holds(v: string, word: string) { Held(Elements(v), true, word) }

  /** All elements are read. */
  predicate AllRead(es: seq<string>, first: bool) {
    && (es != [] ==> !Swallows(es[0], first) && (first || Opens(es[0])))
    && forall i :: 1 <= i < |es| ==> Opens(es[i]) && !Swallows(es[i], false)
  }

  /** A list whose elements are all read. */
  predicate Regular(v: string) { AllRead(Elements(v), true) }

  lemma {:induction false} HeldIsListed(es: seq<string>, first: bool, word: string)
    ensures Held(es, first, word) ==> exists i :: 0 <= i < |es| && IsWord(es[i], word)
    ensures AllRead(es, first) ==> (Held(es, first, word) <==> exists i :: 0 <= i < |es| && IsWord(es[i], word))
    decreases |es|
  {
    hide IsWord, Opens, Swallows;
    if es != [] {
      var rest := Behind(es, first);
      var n := |es| - |rest|;
      HeldIsListed(rest, false, word);
      assert forall i :: 0 <= i < |rest| ==> rest[i] == es[n + i];
      if i :| 0 <= i < |rest| && IsWord(rest[i], word) { assert IsWord(es[n + i], word); }
      if AllRead(es, first) {
        assert n == 1;
        if i :| 0 <= i < |es| && IsWord(es[i], word) {
          if i > 0 { assert IsWord(rest[i - 1], word); }
        }
      }
    }
  }

  /** What is found is in the list; and in a list whose elements are all read it is found. */
  lemma HoldsIsListed(v: string, word: string)
    ensures Holds(v, word) ==> Listed(v, word)
    ensures Regular(v) ==> (Holds(v, word) <==> Listed(v, word))
  {
    hide IsWord, Opens, Swallows, Held;
    HeldIsListed(Elements(v), true, word);
  }

  /** Lists in which "close" is not found: behind a part of a word, or an empty element. */
  lemma CloseIsMissed()
    ensures Listed("c,close", "close") && !Holds("c,close", "close")
    ensures Listed(",close", "close") && !Holds(",close", "close")
    ensures Listed("a,,close", "close") && !Holds("a,,close", "close")
  {
    hide *;
    BehindPart();
    BehindComma();
    BehindEmpty();
  }

  lemma BehindPart()
    ensures Listed("c,close", "close") && !Holds("c,close", "close")
  {
    CloseElement();
    ElementsOfTwo("c", "close");
    assert "c" + "," + "close" == "c,close";
    assert Part("c", "close") && !Whole("c", "close");
    assert Held([], false, "close") == false;
    assert Behind(["c", "close"], true) == [];
  }

  lemma BehindComma()
    ensures Listed(",close", "close") && !Holds(",close", "close")
  {
    CloseElement();
    ElementsOfTwo("", "close");
    assert "" + "," + "close" == ",close" && !Whole("", "close");
    assert Held([], false, "close") == false;
    assert Behind(["", "close"], true) == [];
  }

  lemma BehindEmpty()
    ensures Listed("a,,close", "close") && !Holds("a,,close", "close")
  {
    ElementsOfThree();
    assert Behind(["a", "", "close"], true) == ["", "close"];
    assert !Opens("");
  }

  lemma CloseElement()
    ensures IsWord("close", "close") && CommaAt("close") == 5 && Elements("close") == ["close"]
  {
    var s := "close";
    assert s[..5] == s;
    assert CommaAt(s[5..]) == 0 && CommaAt(s[4..]) == 1;
    assert s[4..] == "e" && s[3..] == "se" && s[2..] == "ose" && s[1..] == "lose";
  }

  lemma ElementsOfTwo(a: string, b: string)
    requires CommaAt(b) == |b| && CommaAt(a) == |a|
    ensures Elements(a + "," + b) == [a, b]
    ensures Elements(a + "," + b)[0] == a && Elements(a + "," + b)[1] == b
  {
    var v := a + "," + b;
    var n := CommaAt(v);
    assert v[|a|] == ',';
    assert forall i :: 0 <= i < |a| ==> v[i] == a[i];
    assert n == |a| && v[..n] == a && v[n + 1..] == b;
  }

  lemma ElementsOfThree()
    ensures Elements("a,,close") == ["a", "", "close"] && !Whole("a", "close") && !AnyPart("a") && Unspaced("a") == "a"
    ensures Listed("a,,close", "close")
  {
    CloseElement();
    var v := "a,,close";
    assert CommaAt(v) == 1;
    assert v[2..] == ",close" && v[..1] == "a";
    ElementsOfTwo("", "close");
    assert "" + "," + "close" == ",close";
    assert IsWord(Elements(v)[2], "close");
  }

  /* ---- the matcher ----------------------------------------------------- */

  /** What has been read of an element, without the spaces in front. */
  predicate Stands(h: HeaderState, index: nat, t: string) {
    t != "" &&
    if h.MatchingKeepAlive? then Part(t, "keep-alive") && index == |t| - 1
    else if h.MatchingClose? then Part(t, "close") && index == |t| - 1
    else if h.MatchingConnUpgrade? then Part(t, "upgrade") && index == |t| - 1
    else if h.HKeepAlive? then Whole(t, "keep-alive")
    else if h.HClose? then Whole(t, "close")
    else if h.HConnUpgrade? then Whole(t, "upgrade")
    else
      h.MatchingToken? && !AnyPart(t) && !Whole(t, "keep-alive") && !Whole(t, "close") && !Whole(t, "upgrade")
  }

  predicate IsValueText(v: string) { forall i :: 0 <= i < |v| ==> IsHeaderChar(v[i]) && v[i] != CR && v[i] != LF }

  lemma LowerMeans(c: char, l: char)
    requires IsHeaderChar(c) && c != CR && ('a' <= l <= 'z' || l == '-')
    ensures Lower(c) == l <==> AnyCase(c, l)
  {
  }

  /** One octet more of a word. */
  lemma WordGrows(t: string, c: char, word: string)
    requires t != "" && IsHeaderChar(c) && c != CR
    requires forall i :: 0 <= i < |word| ==> 'a' <= word[i] <= 'z' || word[i] == '-'
    ensures Part(t, word) && |t| + 1 < |word| ==> (Part(t + [c], word) <==> Lower(c) == word[|t|])
    ensures Part(t, word) && |t| + 1 == |word| ==> (Whole(t + [c], word) <==> Lower(c) == word[|t|])
    ensures !Part(t, word) ==> !Part(t + [c], word)
    ensures Part(t, word) && |t| + 1 < |word| ==> !Whole(t + [c], word)
    ensures Part(t, word) && |t| + 1 == |word| ==> !Part(t + [c], word)
    ensures Whole(t, word) ==> (Whole(t + [c], word) <==> c == SP) && !Part(t + [c], word)
    ensures !Part(t, word) && !Whole(t, word) ==> !Whole(t + [c], word)
  {
    var s := t + [c];
    if |t| < |word| { LowerMeans(c, word[|t|]); }
    assert s[..|t|] == t && s[|t|] == c;
    assert forall i :: 0 <= i < |t| ==> s[i] == t[i];
    if |s| >= |word| {
      assert forall i :: 0 <= i < |word| ==> s[..|word|][i] == s[i];
      if |t| >= |word| { assert s[..|word|] == t[..|word|]; }
    }
    if |t| + 1 == |word| { assert s[..|word|] == s && word[..|t|] + [word[|t|]] == word; }
    if Part(s, word) { assert forall i :: 0 <= i < |t| ==> word[..|t|][i] == word[..|s|][i]; }
    if Whole(s, word) && |t| + 1 == |word| { assert forall i :: 0 <= i < |t| ==> AnyCase(t[i], word[..|t|][i]); }
    if Part(t, word) && |t| + 1 <= |word| && Lower(c) == word[|t|] {
      assert forall i :: 0 <= i < |s| ==> AnyCase(s[i], word[..|s|][i]);
    }
    if Part(s, word) { assert AnyCase(s[|t|], word[..|s|][|t|]); }
    if Whole(s, word) && |t| + 1 == |word| { assert AnyCase(s[..|word|][|t|], word[|t|]); }
  }

  /** The three words begin differently. */
  lemma OneWord(t: string)
    requires t != ""
    ensures Part(t, "keep-alive") || Whole(t, "keep-alive") ==> t[0] == 'k' || t[0] == 'K'
    ensures Part(t, "close") || Whole(t, "close") ==> t[0] == 'c' || t[0] == 'C'
    ensures Part(t, "upgrade") || Whole(t, "upgrade") ==> t[0] == 'u' || t[0] == 'U'
  {
    assert |t| >= 10 ==> t[..10][0] == t[0];
    assert |t| >= 5 ==> t[..5][0] == t[0];
    assert |t| >= 7 ==> t[..7][0] == t[0];
  }

  lemma WordLetters()
    ensures |KEEP_ALIVE| == |"keep-alive"| == 10 && |CLOSE| == |"close"| == 5 && |UPGRADE| == |"upgrade"| == 7
    ensures forall i :: 0 <= i < 10 ==> KEEP_ALIVE[i] == "keep-alive"[i]
    ensures forall i :: 0 <= i < 5 ==> CLOSE[i] == "close"[i]
    ensures forall i :: 0 <= i < 7 ==> UPGRADE[i] == "upgrade"[i]
    ensures forall i :: 0 <= i < 10 ==> 'a' <= "keep-alive"[i] <= 'z' || "keep-alive"[i] == '-'
    ensures forall i :: 0 <= i < 5 ==> 'a' <= "close"[i] <= 'z'
    ensures forall i :: 0 <= i < 7 ==> 'a' <= "upgrade"[i] <= 'z'
  {
  }

  /** What one octet does to what has been read. */
  predicate StandsNext(m: Matcher, ch: char, t: string) {
    var r := ValueByte(m, ch);
    && r.errno.Ok? && Stands(r.m.hs, r.m.index, t + [ch])
    && r.m == m.(hs := r.m.hs, index := r.m.index)
  }

  lemma KeepAliveStandsOn(m: Matcher, ch: char, t: string)
    requires Stands(m.hs, m.index, t) && IsHeaderChar(ch) && ch != CR && ch != ',' && Part(t, "keep-alive")
    ensures StandsNext(m, ch, t)
  {
    WordLetters();
    WordGrows(t, ch, "keep-alive");
    OneWord(t);
    OneWord(t + [ch]);
    assert (t + [ch])[0] == t[0];
    PartIsNotWhole(t);
    hide Part, Whole, Lower, IsHeaderChar;
  }

  lemma CloseStandsOn(m: Matcher, ch: char, t: string)
    requires Stands(m.hs, m.index, t) && IsHeaderChar(ch) && ch != CR && ch != ',' && Part(t, "close")
    ensures StandsNext(m, ch, t)
  {
    WordLetters();
    WordGrows(t, ch, "close");
    OneWord(t);
    OneWord(t + [ch]);
    assert (t + [ch])[0] == t[0];
    PartIsNotWhole(t);
    hide Part, Whole, Lower, IsHeaderChar;
  }

  lemma UpgradeStandsOn(m: Matcher, ch: char, t: string)
    requires Stands(m.hs, m.index, t) && IsHeaderChar(ch) && ch != CR && ch != ',' && Part(t, "upgrade")
    ensures StandsNext(m, ch, t)
  {
    WordLetters();
    WordGrows(t, ch, "upgrade");
    OneWord(t);
    OneWord(t + [ch]);
    assert (t + [ch])[0] == t[0];
    PartIsNotWhole(t);
    hide Part, Whole, Lower, IsHeaderChar;
  }

  lemma PartIsNotWhole(t: string)
    ensures Part(t, "keep-alive") ==> !Whole(t, "keep-alive")
    ensures Part(t, "close") ==> !Whole(t, "close")
    ensures Part(t, "upgrade") ==> !Whole(t, "upgrade")
  {
  }

  lemma WholeStandsOn(m: Matcher, ch: char, t: string)
    requires Stands(m.hs, m.index, t) && IsHeaderChar(ch) && ch != CR && ch != ',' && !AnyPart(t)
    ensures StandsNext(m, ch, t)
  {
    WordLetters();
    WordGrows(t, ch, "keep-alive");
    WordGrows(t, ch, "close");
    WordGrows(t, ch, "upgrade");
    OneWord(t);
    OneWord(t + [ch]);
    assert (t + [ch])[0] == t[0];
    hide Part, Whole, Lower, IsHeaderChar, Advance;
  }

  lemma StandsOn(m: Matcher, ch: char, t: string)
    requires Stands(m.hs, m.index, t) && IsHeaderChar(ch) && ch != CR && ch != ','
    ensures StandsNext(m, ch, t)
  {
    hide Stands, StandsNext;
    if Part(t, "keep-alive") { KeepAliveStandsOn(m, ch, t); }
    else if Part(t, "close") { CloseStandsOn(m, ch, t); }
    else if Part(t, "upgrade") { UpgradeStandsOn(m, ch, t); }
    else { WholeStandsOn(m, ch, t); }
  }

  lemma {:induction false} StandsRun(m: Matcher, e: string, rest: string, t: string) returns (w: Matcher)
    requires Stands(m.hs, m.index, t) && IsValueText(e) && forall i :: 0 <= i < |e| ==> e[i] != ','
    ensures Stands(w.hs, w.index, t + e) && w == m.(hs := w.hs, index := w.index)
    ensures ValueRun(m, e + rest) == ValueRun(w, rest)
    decreases |e|
  {
    hide Stands, ValueByte, IsHeaderChar;
    if e == "" {
      w := m;
      assert e + rest == rest && t + e == t;
    } else {
      StandsOn(m, e[0], t);
      assert (e + rest)[0] == e[0] && (e + rest)[1..] == e[1..] + rest;
      assert t + [e[0]] + e[1..] == t + e;
      w := StandsRun(ValueByte(m, e[0]).m, e[1..], rest, t + [e[0]]);
    }
  }

  /* ---- the list, element by element ------------------------------------ */

  function Joined(es: seq<string>): string
    requires es != []
  {
    if |es| == 1 then es[0] else es[0] + ([','] + Joined(es[1..]))
  }

  /** Texts between commas. */
  predicate AreElements(es: seq<string>) {
    forall i, k :: 0 <= i < |es| && 0 <= k < |es[i]| ==>
      IsHeaderChar(es[i][k]) && es[i][k] != CR && es[i][k] != LF && es[i][k] != ','
  }

  lemma {:induction false} ElementsJoin(v: string)
    requires IsValueText(v)
    ensures Joined(Elements(v)) == v && AreElements(Elements(v))
    decreases |v|
  {
    hide IsHeaderChar;
    var n := CommaAt(v);
    if n < |v| {
      ElementsJoin(v[n + 1..]);
      assert Elements(v)[1..] == Elements(v[n + 1..]);
      assert v == v[..n] + ([','] + v[n + 1..]);
    }
  }

  /** The flags after a list in which some words are found. */
  function Flagged(f: Flags, es: seq<string>, first: bool): Flags {
    f.(keepAlive := f.keepAlive || Held(es, first, "keep-alive"), close := f.close || Held(es, first, "close"),
       connUpgrade := f.connUpgrade || Held(es, first, "upgrade"))
  }

  /** The flags after an element. */
  function Noted(f: Flags, t: string): Flags {
    f.(keepAlive := f.keepAlive || Whole(t, "keep-alive"), close := f.close || Whole(t, "close"),
       connUpgrade := f.connUpgrade || Whole(t, "upgrade"))
  }

  /** The end of an element: of the list, or a comma. */
  lemma ElementEnds(m: Matcher, t: string)
    requires Stands(m.hs, m.index, t)
    ensures TokenFlags(m).flags == Noted(m.flags, t)
    ensures
      var r := ValueByte(m, ',');
      r.errno.Ok? &&
      if AnyPart(t) then r.m.hs.MatchingToken? && r.m.flags == m.flags && Noted(m.flags, t) == m.flags
      else r.m.hs.MatchingTokenStart? && r.m.index == 0 && r.m.flags == Noted(m.flags, t)
  {
    WordLetters();
    OneWord(t);
    PartIsNotWhole(t);
    hide Part, Whole;
  }

  /** A list that goes on in the middle of an element. */
  lemma {:induction false} InElement(m: Matcher, t: string, es: seq<string>)
    requires Stands(m.hs, m.index, t) && es != [] && AreElements(es)
    ensures
      var r := ValueRun(m, Joined(es));
      var rest := if |es| == 1 then [] else if AnyPart(t + es[0]) then es[2..] else es[1..];
      r.errno.Ok? && TokenFlags(r.m).flags == Flagged(Noted(m.flags, t + es[0]), rest, false)
    decreases |es|, 0
  {
    hide Stands, ValueByte, IsHeaderChar, AnyPart, Whole, TokenFlags;
    var e := es[0];
    var w := StandsRun(m, e, if |es| == 1 then "" else [','] + Joined(es[1..]), t);
    ElementEnds(w, t + e);
    if |es| == 1 {
      assert e + "" == e;
    } else {
      var text := [','] + Joined(es[1..]);
      assert text[0] == ',' && text[1..] == Joined(es[1..]);
      var n := ValueByte(w, ',').m;
      if AnyPart(t + e) {
        Skipping(n, es[1..]);
        assert es[1..][1..] == es[2..];
      } else {
        FromStart(n, es[1..]);
      }
    }
  }

  /** A list whose first element is passed over. */
  lemma {:induction false} Skipping(m: Matcher, es: seq<string>)
    requires m.hs.MatchingToken? && es != [] && AreElements(es)
    ensures
      var r := ValueRun(m, Joined(es));
      r.errno.Ok? && TokenFlags(r.m).flags == Flagged(m.flags, es[1..], false)
    decreases |es|, 1
  {
    hide ValueByte, IsHeaderChar, Opens, IsWord;
    SkipRun(m, es[0], if |es| == 1 then "" else [','] + Joined(es[1..]));
    if |es| == 1 {
      assert es[0] + "" == es[0];
    } else {
      var text := [','] + Joined(es[1..]);
      assert text[0] == ',' && text[1..] == Joined(es[1..]);
      CommaInToken(m);
      FromStart(ValueByte(m, ',').m, es[1..]);
    }
  }

  lemma CommaInToken(m: Matcher)
    requires m.hs.MatchingToken?
    ensures ValueByte(m, ',') == Now(m.(hs := MatchingTokenStart, index := 0)) && TokenFlags(m) == m
  {
  }

  lemma {:induction false} SkipRun(m: Matcher, e: string, rest: string)
    requires m.hs.MatchingToken? && forall i :: 0 <= i < |e| ==> e[i] != ','
    ensures ValueRun(m, e + rest) == ValueRun(m, rest) && TokenFlags(m) == m
    decreases |e|
  {
    if e == "" {
      assert e + rest == rest;
    } else {
      assert (e + rest)[0] == e[0] && (e + rest)[1..] == e[1..] + rest;
      SkipRun(m, e[1..], rest);
    }
  }

  lemma {:induction false} GeneralRun(m: Matcher, v: string)
    requires m.hs.General?
    ensures ValueRun(m, v) == Now(m) && TokenFlags(m) == m
    decreases |v|
  {
    if v != "" { GeneralRun(m, v[1..]); }
  }

  /** The first octet of an element. */
  lemma TokenOpens(m: Matcher, ch: char)
    requires m.hs.MatchingTokenStart? && m.index == 0 && IsHeaderChar(ch) && ch != CR && ch != SP
    ensures
      var r := ValueByte(m, ch);
      && r.errno.Ok? && r.m == m.(hs := r.m.hs)
      && if IsToken(Lower(ch)) then Stands(r.m.hs, r.m.index, [ch]) else r.m.hs.General?
  {
    FirstStands(ch);
  }

  lemma FirstStands(ch: char)
    requires IsHeaderChar(ch) && ch != CR
    ensures Lower(ch) == 'k' ==> Stands(MatchingKeepAlive, 0, [ch]) && IsToken(Lower(ch))
    ensures Lower(ch) == 'c' ==> Stands(MatchingClose, 0, [ch]) && IsToken(Lower(ch))
    ensures Lower(ch) == 'u' ==> Stands(MatchingConnUpgrade, 0, [ch]) && IsToken(Lower(ch))
    ensures Lower(ch) != 'k' && Lower(ch) != 'c' && Lower(ch) != 'u' ==> Stands(MatchingToken, 0, [ch])
  {
    LowerMeans(ch, 'k');
    LowerMeans(ch, 'c');
    LowerMeans(ch, 'u');
    OneWord([ch]);
    assert [ch][0] == ch;
  }

  /** A list from the start of an element that is not the first. */
  lemma {:induction false} FromStart(m: Matcher, es: seq<string>)
    requires m.hs.MatchingTokenStart? && m.index == 0 && es != [] && AreElements(es)
    ensures
      var r := ValueRun(m, Joined(es));
      r.errno.Ok? && TokenFlags(r.m).flags == Flagged(m.flags, es, false)
    decreases |es|, 1
  {
    hide ValueByte, IsHeaderChar, AnyPart, Whole, TokenFlags, Stands, IsToken, Held;
    var e := es[0];
    var tail := if |es| == 1 then "" else [','] + Joined(es[1..]);
    assert Joined(es) == e + tail;
    SpacesRun(m, e, tail);
    UnspacedText(e);
    var t := Unspaced(e);
    if t == "" {
      NothingOpens(m, es, tail);
    } else {
      TokenOpens(m, t[0]);
      var n := ValueByte(m, t[0]).m;
      assert (t + tail)[0] == t[0] && (t + tail)[1..] == t[1..] + tail;
      if !IsToken(Lower(t[0])) {
        GeneralRun(n, t[1..] + tail);
        FlaggedCloses(m.flags, es);
      } else {
        FlaggedOpens(m.flags, es, false);
        var fs := es[0 := t[1..]];
        assert fs[1..] == es[1..] && fs[0] == t[1..];
        assert |es| > 1 ==> fs[2..] == es[2..];
        assert [t[0]] + t[1..] == t;
        assert Joined(fs) == t[1..] + tail;
        InElement(n, [t[0]], fs);
      }
    }
  }

  /** What the first element contributes. */
  lemma FlaggedOpens(f: Flags, es: seq<string>, first: bool)
    requires es != [] && (first || Opens(es[0]))
    ensures Flagged(f, es, first) == Flagged(Noted(f, Unspaced(es[0])), Behind(es, first), false)
  {
    hide Whole, Opens, Swallows, Behind;
  }

  lemma FlaggedCloses(f: Flags, es: seq<string>)
    requires es != [] ==> !Opens(es[0])
    ensures Flagged(f, es, false) == f
  {
    hide Opens;
  }

  lemma NothingOpens(m: Matcher, es: seq<string>, tail: string)
    requires m.hs.MatchingTokenStart? && es != [] && Unspaced(es[0]) == ""
    requires tail == if |es| == 1 then "" else [','] + Joined(es[1..])
    ensures
      var r := ValueRun(m, "" + tail);
      r.errno.Ok? && TokenFlags(r.m).flags == m.flags == Flagged(m.flags, es, false)
  {
    hide ValueByte, Held;
    FlaggedCloses(m.flags, es);
    assert "" + tail == tail;
    if |es| > 1 {
      assert tail[0] == ',';
      CommaAtStart(m);
      GeneralRun(ValueByte(m, ',').m, tail[1..]);
    }
  }

  lemma CommaAtStart(m: Matcher)
    requires m.hs.MatchingTokenStart?
    ensures ValueByte(m, ',') == Now(m.(hs := General)) && ValueByte(m, SP) == Now(m)
  {
  }

  lemma {:induction false} SpacesRun(m: Matcher, e: string, tail: string)
    requires m.hs.MatchingTokenStart?
    ensures ValueRun(m, e + tail) == ValueRun(m, Unspaced(e) + tail)
    decreases |e|
  {
    hide ValueByte;
    if e != "" && e[0] == SP {
      assert (e + tail)[0] == SP && (e + tail)[1..] == e[1..] + tail;
      CommaAtStart(m);
      SpacesRun(m, e[1..], tail);
    }
  }

  lemma {:induction false} UnspacedText(e: string)
    ensures Unspaced(e) != "" ==> Unspaced(e)[0] != SP
    ensures |Unspaced(e)| <= |e| && Unspaced(e) == e[|e| - |Unspaced(e)|..]
    decreases |e|
  {
    if e != "" && e[0] == SP { UnspacedText(e[1..]); }
  }

  /** A list that begins with a comma. */
  lemma EmptyFirst(m: Matcher, es: seq<string>)
    requires m.hs.MatchingToken? && |es| > 1 && AreElements(es) && es[0] == ""
    ensures
      var r := ValueRun(m, Joined(es[1..]));
      r.errno.Ok? && TokenFlags(r.m).flags == Flagged(m.flags, es, true)
  {
    hide ValueRun, IsHeaderChar, AnyPart, Whole, TokenFlags, Held;
    FlaggedOpens(m.flags, es, true);
    EmptyIsNoWord();
    Skipping(m, es[1..]);
    assert es[1..][1..] == es[2..];
  }

  /** One that does not, behind its first octet. */
  lemma TextFirst(m: Matcher, es: seq<string>)
    requires es != [] && AreElements(es) && es[0] != "" && es[0][0] != SP && Stands(m.hs, m.index, es[0][..1])
    ensures
      var r := ValueRun(m, Joined(es[0 := es[0][1..]]));
      r.errno.Ok? && TokenFlags(r.m).flags == Flagged(m.flags, es, true)
  {
    hide ValueRun, IsHeaderChar, AnyPart, Whole, TokenFlags, Stands, Held;
    var e, fs := es[0], es[0 := es[0][1..]];
    FlaggedOpens(m.flags, es, true);
    assert fs[1..] == es[1..] && fs[0] == e[1..] && (|es| > 1 ==> fs[2..] == es[2..]);
    assert e[..1] + e[1..] == e && Unspaced(e) == e;
    InElement(m, e[..1], fs);
  }

  /**
   The value of a Connection field sets the flags of the words that its list holds, as far
   as it is read, and no others; no value is refused.
   */
  lemma ConnectionMeans(m: Matcher, v: string)
    requires m.hs.HConnection? && v != "" && v[0] != SP && IsValueText(v)
    ensures
      var r := ValueOf(m, v);
      && r.errno.Ok?
      && TokenFlags(r.m).flags ==
           m.flags.(keepAlive := m.flags.keepAlive || Holds(v, "keep-alive"),
                    close := m.flags.close || Holds(v, "close"),
                    connUpgrade := m.flags.connUpgrade || Holds(v, "upgrade"))
  {
    hide ValueByte, ValueRun, IsHeaderChar, TokenFlags, Stands, Held, FirstValueByte;
    ElementsJoin(v);
    var es := Elements(v);
    FirstByte(m, v[0]);
    FirstOfList(es, v);
    if v[0] == ',' {
      EmptyFirst(FirstValueByte(m, v[0]).m, es);
    } else {
      assert es[0][..1] == [v[0]];
      TextFirst(FirstValueByte(m, v[0]).m, es);
    }
  }

  lemma EmptyIsNoWord()
    ensures !Whole("", "keep-alive") && !Whole("", "close") && !Whole("", "upgrade") && Unspaced("") == ""
  {
  }

  lemma FirstByte(m: Matcher, ch: char)
    requires m.hs.HConnection? && IsHeaderChar(ch) && ch != CR
    ensures
      var r := FirstValueByte(m, ch);
      && r.errno.Ok? && r.m.flags == m.flags && Stands(r.m.hs, r.m.index, [ch]) && (ch == ',' ==> r.m.hs.MatchingToken?)
  {
    FirstStands(ch);
    hide Stands;
  }

  lemma FirstOfList(es: seq<string>, v: string)
    requires es != [] && v != "" && Joined(es) == v && AreElements(es)
    ensures if v[0] == ',' then |es| > 1 && es[0] == "" && v[1..] == Joined(es[1..])
            else es[0] != "" && es[0][0] == v[0] && v[1..] == Joined(es[0 := es[0][1..]])
  {
    hide IsHeaderChar;
    if es[0] == "" {
      assert v == [','] + Joined(es[1..]);
    } else {
      var fs := es[0 := es[0][1..]];
      assert fs[1..] == es[1..];
      assert |es| > 1 ==> v == es[0] + ([','] + Joined(es[1..])) && v[1..] == es[0][1..] + ([','] + Joined(es[1..]));
    }
  }
}
