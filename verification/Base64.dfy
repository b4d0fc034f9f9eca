/** Base 64 (section 4 of RFC 4648), by groups of three octets and four characters. */
module Base64 {
  import opened Divisors

  type Octet = x: int | 0 <= x < 256

  predicate IsAlnum(c: char) { 'A' <= c <= 'Z' || 'a' <= c <= 'z' || '0' <= c <= '9' }

  predicate IsBase64(c: char) { IsAlnum(c) || c == '+' || c == '/' }

  /** `base64_chars`: A to Z, a to z, 0 to 9, `+` and `/`. */
  function Letter(k: Octet): char
    requires k < 64
  {
    if k < 26 then ('A' as int + k) as char
    else if k < 52 then ('a' as int + k - 26) as char
    else if k < 62 then ('0' as int + k - 52) as char
    else if k == 62 then '+' else '/'
  }

  /** `base64_chars.find`, stored in an `unsigned char`: 255 when there is no such character. */
  function Find(c: char): Octet {
    if 'A' <= c <= 'Z' then c as int - 'A' as int
    else if 'a' <= c <= 'z' then c as int - 'a' as int + 26
    else if '0' <= c <= '9' then c as int - '0' as int + 52
    else if c == '+' then 62
    else if c == '/' then 63
    else 255
  }

  lemma FindInverse(k: Octet)
    requires k < 64
    ensures IsBase64(Letter(k)) && Letter(k) != '=' && Find(Letter(k)) == k
  {
  }

  /* ---- groups --------------------------------------------------------- */

  /** The four six-bit values of three octets. */
  function Spread(a: Octet, b: Octet, c: Octet): (v: seq<Octet>)
    ensures |v| == 4
  {
    [a / 4, a % 4 * 16 + b / 16, b % 16 * 4 + c / 64, c % 64]
  }

  /** The three octets of four values; what does not fit an octet is cut off. */
  function Gather(p: Octet, q: Octet, r: Octet, s: Octet): (g: seq<Octet>)
    ensures |g| == 3
  {
    [(p * 4 + q / 16 % 4) % 256, (q % 16 * 16 + r / 4 % 16) % 256, (r % 4 * 64 + s) % 256]
  }

  lemma SpreadFits(a: Octet, b: Octet, c: Octet)
    ensures forall i :: 0 <= i < 4 ==> Spread(a, b, c)[i] < 64
  {
  }

  /** A whole group comes back; so do the octets of a short one, whatever stands for the filler. */
  lemma GatherSpread(a: Octet, b: Octet, c: Octet, r: Octet, s: Octet)
    ensures
      var v := Spread(a, b, c);
      && Gather(v[0], v[1], v[2], v[3]) == [a, b, c]
      && Gather(v[0], v[1], v[2], s)[..2] == [a, b]
      && Gather(v[0], v[1], r, s)[0] == a
  {
    var v := Spread(a, b, c);
    assert v[0] * 4 + v[1] / 16 % 4 == a;
    assert v[1] % 16 * 16 + v[2] / 4 % 16 == b;
    assert v[2] % 4 * 64 + v[3] == c;
  }

  /* ---- whole strings -------------------------------------------------- */

  /** The characters of a group of `n` octets, filled up with `=`. */
  function GroupText(g: seq<Octet>): string
    requires 1 <= |g| <= 3
  {
    var v := Spread(g[0], if |g| > 1 then g[1] else 0, if |g| > 2 then g[2] else 0);
    [Letter(v[0]), Letter(v[1]), if |g| > 1 then Letter(v[2]) else '=', if |g| > 2 then Letter(v[3]) else '=']
  }

  function Encoded(b: seq<Octet>): string {
    if b == [] then ""
    else if |b| <= 3 then GroupText(b)
    else GroupText(b[..3]) + Encoded(b[3..])
  }

  const ALPHABET: string := "ABCDEFGHIJKLMNOPQRSTUVWXYZ" + "abcdefghijklmnopqrstuvwxyz" + "0123456789" + "+/"

  /** The letters, one by one (table 1 of RFC 4648). */
  lemma LettersAre(k: Octet)
    requires k < 64
    ensures |ALPHABET| == 64 && Letter(k) == ALPHABET[k]
  {
    if k < 26 { assert ALPHABET[k] == "ABCDEFGHIJKLMNOPQRSTUVWXYZ"[k]; }
    else if k < 52 { assert ALPHABET[k] == "abcdefghijklmnopqrstuvwxyz"[k - 26]; }
    else if k < 62 { assert ALPHABET[k] == "0123456789"[k - 52]; }
  }

  /** Octets as a number in base 256, and its digits in base 64, from the front. */
  function Number(a: Octet, b: Octet, c: Octet): nat { (a as int) * 0x1_0000 + (b as int) * 0x100 + c as int }

  function SixBits(n: nat, i: nat): (d: nat)
    requires i < 4
    ensures d < 64
  {
    (if i == 0 then n / 0x4_0000 else if i == 1 then n / 0x1000 else if i == 2 then n / 0x40 else n) % 0x40
  }

  lemma SpreadMeans(a: Octet, b: Octet, c: Octet)
    ensures forall i :: 0 <= i < 4 ==> SixBits(Number(a, b, c), i) == Spread(a, b, c)[i]
  {
    FirstSix(a, b, c);
    SecondSix(a, b, c);
    ThirdSix(a, b, c);
  }

  lemma FirstSix(a: Octet, b: Octet, c: Octet)
    ensures Number(a, b, c) / 0x4_0000 == a / 4
  {
  }

  lemma SecondSix(a: Octet, b: Octet, c: Octet)
    ensures Number(a, b, c) / 0x1000 % 0x40 == a % 4 * 16 + b / 16
  {
    var x: nat, y: nat, z: nat := a as int, b as int, c as int;
    DivUnique(Number(a, b, c), 0x1000, x * 16 + y / 16, y % 16 * 0x100 + z);
    DivUnique(x * 16 + y / 16, 0x40, x / 4, x % 4 * 16 + y / 16);
  }

  lemma ThirdSix(a: Octet, b: Octet, c: Octet)
    ensures Number(a, b, c) / 0x40 % 0x40 == b % 16 * 4 + c / 64
  {
    var x: nat, y: nat, z: nat := a as int, b as int, c as int;
    DivUnique(Number(a, b, c), 0x40, x * 0x400 + y * 4 + z / 64, z % 64);
    DivUnique(x * 0x400 + y * 4 + z / 64, 0x40, x * 0x10 + y / 16, y % 16 * 4 + z / 64);
  }

  /** A group is the number of its octets, digit by digit; digits without octets are fillers. */
  lemma GroupMeans(g: seq<Octet>)
    requires 1 <= |g| <= 3
    ensures |ALPHABET| == 64
    ensures
      var n := Number(g[0], if |g| > 1 then g[1] else 0, if |g| > 2 then g[2] else 0);
      && |GroupText(g)| == 4
      && forall i :: 0 <= i < 4 ==> GroupText(g)[i] == if i <= |g| then ALPHABET[SixBits(n, i)] else '='
  {
    hide Letter, Spread, ALPHABET, SixBits, Number;
    var b, c := if |g| > 1 then g[1] else 0, if |g| > 2 then g[2] else 0;
    SpreadMeans(g[0], b, c);
    var v := Spread(g[0], b, c);
    SpreadFits(g[0], b, c);
    LettersAre(v[0]);
    LettersAre(v[1]);
    LettersAre(v[2]);
    LettersAre(v[3]);
  }

  /** How far `base64_decode` reads. */
  function Readable(s: string): string {
    if s == "" || s[0] == '=' || !IsBase64(s[0]) then "" else [s[0]] + Readable(s[1..])
  }

  /** The octets of at most four characters; fillers are looked up too, and not found. */
  function GroupOctets(s: string): seq<Octet>
    requires 1 <= |s| <= 4
  {
    var v := (i: int) => if 0 <= i < |s| then Find(s[i]) else 255;
    Gather(v(0), v(1), v(2), v(3))[..|s| - 1]
  }

  function DecodedGroups(s: string): seq<Octet> {
    if s == "" then []
    else if |s| <= 4 then GroupOctets(s)
    else GroupOctets(s[..4]) + DecodedGroups(s[4..])
  }

  function Decoded(s: string): seq<Octet> { DecodedGroups(Readable(s)) }

  /** Every octet string comes back from its encoding, whose length is that of the standard. */
  lemma {:induction false} RoundTrip(b: seq<Octet>)
    ensures Decoded(Encoded(b)) == b && |Encoded(b)| == 4 * ((|b| + 2) / 3)
    decreases |b|
  {
    hide Spread, Gather, Letter, Find, IsBase64;
    if b == [] {
    } else if |b| <= 3 {
      LastGroup(b);
    } else {
      RoundTrip(b[3..]);
      WholeGroup(b[..3], Encoded(b[3..]));
    }
  }

  /** A whole group is read entirely and gives its octets. */
  lemma WholeGroup(g: seq<Octet>, rest: string)
    requires |g| == 3
    ensures Decoded(GroupText(g) + rest) == g + Decoded(rest)
  {
    hide Spread, Gather, Letter, Find, IsBase64;
    var v := Spread(g[0], g[1], g[2]);
    var t := GroupText(g);
    SpreadFits(g[0], g[1], g[2]);
    FindInverse(v[0]);
    FindInverse(v[1]);
    FindInverse(v[2]);
    FindInverse(v[3]);
    GatherSpread(g[0], g[1], g[2], 0, 0);
    ReadFour(t, rest);
    assert GroupOctets(t) == g;
    if Readable(rest) == "" {
      assert t + "" == t && g + [] == g;
    } else {
      assert (t + Readable(rest))[..4] == t && (t + Readable(rest))[4..] == Readable(rest);
    }
  }

  lemma ReadFour(t: string, rest: string)
    requires |t| == 4 && forall i :: 0 <= i < 4 ==> IsBase64(t[i]) && t[i] != '='
    ensures Readable(t + rest) == t + Readable(rest)
  {
    hide IsBase64;
    var s := t + rest;
    assert s[1..] == t[1..] + rest && s[2..] == t[2..] + rest && s[3..] == t[3..] + rest && s[4..] == rest;
    assert s[1..][1..] == s[2..] && s[2..][1..] == s[3..] && s[3..][1..] == s[4..];
    assert Readable(s[3..]) == [t[3]] + Readable(rest);
    assert Readable(s[2..]) == [t[2]] + ([t[3]] + Readable(rest));
    assert Readable(s[1..]) == [t[1]] + ([t[2]] + ([t[3]] + Readable(rest)));
  }

  lemma {:induction false} ReadSome(t: string, rest: string)
    requires rest != "" && rest[0] == '=' && forall i :: 0 <= i < |t| ==> IsBase64(t[i]) && t[i] != '='
    ensures Readable(t + rest) == t
    decreases |t|
  {
    hide IsBase64;
    if t == "" {
      assert t + rest == rest;
    } else {
      assert (t + rest)[1..] == t[1..] + rest;
      ReadSome(t[1..], rest);
      assert [t[0]] + t[1..] == t;
    }
  }

  /** The last group, whole or filled up. */
  lemma LastGroup(g: seq<Octet>)
    requires 1 <= |g| <= 3
    ensures Decoded(GroupText(g)) == g
  {
    if |g| == 3 {
      assert GroupText(g) + "" == GroupText(g) && g + Decoded("") == g;
      WholeGroup(g, "");
    } else {
      ShortGroup(g);
    }
  }

  lemma ShortGroup(g: seq<Octet>)
    requires 1 <= |g| <= 2
    ensures Decoded(GroupText(g)) == g
  {
    hide Spread, Gather, Letter, Find, IsBase64;
    var b := if |g| > 1 then g[1] else 0;
    var v := Spread(g[0], b, 0);
    var t := GroupText(g);
    SpreadFits(g[0], b, 0);
    FindInverse(v[0]);
    FindInverse(v[1]);
    FindInverse(v[2]);
    GatherSpread(g[0], b, 0, 255, 255);
    if |g| == 1 {
      ReadSome([t[0], t[1]], ['=', '=']);
      assert t == [t[0], t[1]] + ['=', '='];
      assert Decoded(t) == GroupOctets([t[0], t[1]]);
    } else {
      ReadSome([t[0], t[1], t[2]], ['=']);
      assert t == [t[0], t[1], t[2]] + ['='];
      assert Decoded(t) == GroupOctets([t[0], t[1], t[2]]);
    }
  }

  /* ---- the loops ------------------------------------------------------ */

  lemma {:induction false} EncodedMore(a: seq<Octet>, g: seq<Octet>)
    requires |a| % 3 == 0 && 1 <= |g| <= 3
    ensures Encoded(a + g) == Encoded(a) + GroupText(g)
    decreases |a|
  {
    hide GroupText;
    if a == [] {
      assert a + g == g;
    } else {
      assert (a + g)[..3] == a[..3] && (a + g)[3..] == a[3..] + g;
      EncodedMore(a[3..], g);
      if |a| == 3 { assert a[..3] == a && Encoded(a[3..]) == ""; }
    }
  }

  lemma GroupAdded(bytes: seq<Octet>, p: nat, k: nat)
    requires 1 <= k <= 3 && k <= p <= |bytes| && (p - k) % 3 == 0
    ensures Encoded(bytes[..p]) == Encoded(bytes[..p - k]) + GroupText(bytes[p - k..p])
  {
    hide Encoded, GroupText;
    EncodedMore(bytes[..p - k], bytes[p - k..p]);
    assert bytes[..p - k] + bytes[p - k..p] == bytes[..p];
  }

  /** The letters of one group. */
  method EmitGroup(g: array<Octet>, n: nat) returns (text: string)
    requires g.Length == 3 && 1 <= n <= 3 && forall k :: n <= k < 3 ==> g[k] == 0
    ensures text == GroupText(g[..n])
  {
    var v := [g[0] / 4, g[0] % 4 * 16 + g[1] / 16, g[1] % 16 * 4 + g[2] / 64, g[2] % 64];
    SpreadFits(g[0], g[1], g[2]);
    text := "";
    var j := 0;
    while j < n + 1
      invariant j <= n + 1 && |text| == j && forall k :: 0 <= k < j ==> text[k] == Letter(v[k])
    {
      text := text + [Letter(v[j])];
      j := j + 1;
    }
    var i := n;
    while i < 3
      invariant n <= i <= 3 && |text| == i + 1
      invariant forall k :: 0 <= k < i + 1 ==> text[k] == if k < n + 1 then Letter(v[k]) else '='
    {
      text := text + "=";
      i := i + 1;
    }
  }

  /** `base64_encode` */
  method Encode(bytes: seq<Octet>) returns (ret: string)
    ensures ret == Encoded(bytes)
  {
    hide Encoded, GroupText;
    ret := "";
    var g := new Octet[3];
    var i, p := 0, 0;
    NothingEncoded();
    assert bytes[..0] == [];
    while p < |bytes|
      invariant i < 3 && i <= p <= |bytes| && (p - i) % 3 == 0
      invariant g[..i] == bytes[p - i..p] && ret == Encoded(bytes[..p - i])
    {
      g[i] := bytes[p];
      i, p := i + 1, p + 1;
      assert g[..i] == bytes[p - i..p];
      if i == 3 {
        var text := EmitGroup(g, 3);
        GroupAdded(bytes, p, 3);
        ret := ret + text;
        i := 0;
      }
    }
    assert bytes[..p] == bytes;
    if i > 0 {
      var j := i;
      while j < 3
        invariant i <= j <= 3 && g[..i] == bytes[p - i..p] && forall k :: i <= k < j ==> g[k] == 0
      {
        g[j] := 0;
        j := j + 1;
      }
      var text := EmitGroup(g, i);
      GroupAdded(bytes, p, i);
      ret := ret + text;
    }
  }

  lemma NothingEncoded()
    ensures Encoded([]) == "" && DecodedGroups("") == []
  {
  }

  lemma {:induction false} DecodedMore(a: string, g: string)
    requires |a| % 4 == 0 && 1 <= |g| <= 4
    ensures DecodedGroups(a + g) == DecodedGroups(a) + GroupOctets(g)
    decreases |a|
  {
    hide GroupOctets;
    if a == "" {
      assert a + g == g;
    } else {
      assert (a + g)[..4] == a[..4] && (a + g)[4..] == a[4..] + g;
      DecodedMore(a[4..], g);
      if |a| == 4 { assert a[..4] == a && DecodedGroups(a[4..]) == []; }
    }
  }

  /** The octets of one group of characters, those after the `n`-th being NUL. */
  method ReadGroup(q: array<char>, n: nat) returns (octets: seq<Octet>)
    requires q.Length == 4 && 1 <= n <= 4 && forall k :: n <= k < 4 ==> q[k] == 0 as char
    ensures octets == GroupOctets(q[..n])
  {
    var v := new Octet[4];
    var j := 0;
    while j < 4
      invariant j <= 4 && forall k :: 0 <= k < j ==> v[k] == Find(q[k])
    {
      v[j] := Find(q[j]);
      j := j + 1;
    }
    var all := Gather(v[0], v[1], v[2], v[3]);
    octets := [];
    j := 0;
    while j < n - 1
      invariant j <= n - 1 && octets == all[..j]
    {
      octets := octets + [all[j]];
      j := j + 1;
    }
    assert all[..n - 1] == GroupOctets(q[..n]);
  }

  lemma Regroup(a: string, b: string, c: string)
    ensures a + (b + c) == (a + b) + c
  {
  }

  lemma NothingReadable()
    ensures Readable("") == ""
  {
  }

  lemma ReadableStep(s: string, p: nat)
    requires p < |s|
    ensures Readable(s[p..]) == if s[p] != '=' && IsBase64(s[p]) then [s[p]] + Readable(s[p + 1..]) else ""
  {
    hide IsBase64;
    assert s[p..][1..] == s[p + 1..];
  }

  /** One more character is read, or none. */
  lemma ReadOn(s: string, p: nat)
    requires p <= |s| && Readable(s) == s[..p] + Readable(s[p..])
    ensures
      if p < |s| && s[p] != '=' && IsBase64(s[p]) then Readable(s) == s[..p + 1] + Readable(s[p + 1..])
      else Readable(s) == s[..p]
  {
    hide IsBase64, Readable;
    if p < |s| {
      ReadableStep(s, p);
      Regroup(s[..p], [s[p]], Readable(s[p + 1..]));
      assert s[..p] + [s[p]] == s[..p + 1];
    } else {
      assert s[p..] == "";
      NothingReadable();
    }
    assert s[..p] + "" == s[..p];
  }

  /** `base64_decode` */
  method Decode(s: string) returns (ret: seq<Octet>)
    ensures ret == Decoded(s)
  {
    hide DecodedGroups, GroupOctets, IsBase64, Readable;
    ret := [];
    var q := new char[4];
    var i, p := 0, 0;
    NothingEncoded();
    assert s[..0] == "" && s[0..] == s;
    while p < |s| && s[p] != '=' && IsBase64(s[p])
      invariant i < 4 && i <= p <= |s| && (p - i) % 4 == 0
      invariant q[..i] == s[p - i..p] && ret == DecodedGroups(s[..p - i])
      invariant Readable(s) == s[..p] + Readable(s[p..])
    {
      ReadOn(s, p);
      q[i] := s[p];
      i, p := i + 1, p + 1;
      assert q[..i] == s[p - i..p];
      if i == 4 {
        var octets := ReadGroup(q, 4);
        DecodedMore(s[..p - 4], s[p - 4..p]);
        assert s[..p - 4] + s[p - 4..p] == s[..p];
        ret := ret + octets;
        i := 0;
      }
    }
    ReadOn(s, p);
    if i > 0 {
      var j := i;
      while j < 4
        invariant i <= j <= 4 && q[..i] == s[p - i..p] && forall k :: i <= k < j ==> q[k] == 0 as char
      {
        q[j] := 0 as char;
        j := j + 1;
      }
      var octets := ReadGroup(q, i);
      DecodedMore(s[..p - i], s[p - i..p]);
      assert s[..p - i] + s[p - i..p] == s[..p];
      ret := ret + octets;
    }
  }
}
