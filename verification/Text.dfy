/** Go strings, one character for each byte. */
module Text {
  import opened Wrappers

  function Last<T>(s: seq<T>): T
    requires s != []
  {
    s[|s| - 1]
  }

  /** A decoded character before what the rest decodes to. */
  function Prepend(head: string, tail: Option<string>): Option<string> {
    match tail
    case None => None
    case Some(t) => Some(head + t)
  }

  lemma SameTail(a: string, x: string, y: string)
    requires a + x == a + y
    ensures x == y
  {
    assert (a + x)[|a|..] == x && (a + y)[|a|..] == y;
  }

  predicate IsHexDigit(c: char) {
    '0' <= c <= '9' || 'a' <= c <= 'f' || 'A' <= c <= 'F'
  }

  predicate IsHex(s: string, length: nat) {
    |s| == length && forall c :: c in s ==> IsHexDigit(c)
  }

  predicate ValidInfohash(s: string) { IsHex(s, 40) }

  predicate ValidInfohashV2(s: string) { IsHex(s, 64) }

  // ---------- white space ----------

  // The UTF-8 encodings, of one to three bytes, of the characters strings.TrimSpace removes.
  predicate IsSpace(a: char) {
    9 <= a as int <= 13 || a == ' '
  }

  predicate IsSpacePair(a: char, b: char) {
    a as int == 0xC2 && (b as int == 0x85 || b as int == 0xA0)
  }

  predicate IsSpaceTriple(a: char, b: char, c: char) {
    || (a as int == 0xE1 && b as int == 0x9A && c as int == 0x80)
    || (a as int == 0xE2 && b as int == 0x80
        && (0x80 <= c as int <= 0x8A || c as int == 0xA8 || c as int == 0xA9 || c as int == 0xAF))
    || (a as int == 0xE2 && b as int == 0x81 && c as int == 0x9F)
    || (a as int == 0xE3 && b as int == 0x80 && c as int == 0x80)
  }

  /** The length of the space character a string starts with, 0 if there is none. */
  function LeadingSpace(s: string): (n: nat)
    ensures n <= |s|
  {
    if |s| >= 1 && IsSpace(s[0]) then 1
    else if |s| >= 2 && IsSpacePair(s[0], s[1]) then 2
    else if |s| >= 3 && IsSpaceTriple(s[0], s[1], s[2]) then 3
    else 0
  }

  function TrailingSpace(s: string): (n: nat)
    ensures n <= |s|
  {
    var e := |s|;
    if e >= 1 && IsSpace(s[e - 1]) then 1
    else if e >= 2 && IsSpacePair(s[e - 2], s[e - 1]) then 2
    else if e >= 3 && IsSpaceTriple(s[e - 3], s[e - 2], s[e - 1]) then 3
    else 0
  }

  function TrimLeft(s: string): string
    decreases |s|
  {
    var n := LeadingSpace(s);
    if n == 0 then s else TrimLeft(s[n..])
  }

  function TrimRight(s: string): string
    decreases |s|
  {
    var n := TrailingSpace(s);
    if n == 0 then s else TrimRight(s[..|s| - n])
  }

  function TrimSpace(s: string): string {
    TrimRight(TrimLeft(s))
  }

  /** The UTF-8 encoding of a code point of the basic plane. */
  function Utf8(code: nat): string
    requires code < 0xD800
  {
    if code < 0x80 then [code as char]
    else if code < 0x800 then [(0xC0 + code / 64) as char, (0x80 + code % 64) as char]
    else [(0xE0 + code / 4096) as char, (0x80 + code / 64 % 64) as char, (0x80 + code % 64) as char]
  }

  // The characters that count as white space, by their code points in the Unicode table.
  predicate IsSpaceCode(code: nat) {
    || 0x09 <= code <= 0x0D || code in {0x20, 0x85, 0xA0, 0x1680} || 0x2000 <= code <= 0x200A
    || code in {0x2028, 0x2029, 0x202F, 0x205F, 0x3000}
  }

  /** The encoding of one white space character. */
  ghost predicate IsSpaceChar(s: string) {
    exists code: nat :: code < 0xD800 && IsSpaceCode(code) && s == Utf8(code)
  }

  /** A sequence of them. */
  ghost predicate AllSpace(s: string)
    decreases |s|
  {
    s == "" || exists n :: 1 <= n <= |s| && IsSpaceChar(s[..n]) && AllSpace(s[n..])
  }

  /** A text starts with a white space character exactly if LeadingSpace finds one, and then with that
      one; likewise at its end. */
  lemma LeadingIsSpace(s: string)
    ensures LeadingSpace(s) > 0 ==> IsSpaceChar(s[..LeadingSpace(s)])
  {
    var n := LeadingSpace(s);
    if n == 1 {
      assert s[..1] == Utf8(s[0] as int);
    } else if n == 2 {
      assert s[..2] == Utf8(s[1] as int);
    } else if n == 3 {
      assert s[..3] == Utf8(((s[0] as int - 0xE0) * 64 + s[1] as int - 0x80) * 64 + s[2] as int - 0x80);
    }
  }

  lemma TrailingIsSpace(s: string)
    ensures TrailingSpace(s) > 0 ==> IsSpaceChar(s[|s| - TrailingSpace(s)..])
  {
    var n := TrailingSpace(s);
    var u := s[|s| - n..];
    if n > 0 {
      SpaceEnds(s);
      LeadingIsSpace(u);
      assert u[..n] == u;
    }
  }

  lemma SpaceEnds(s: string)
    ensures LeadingSpace(s[|s| - TrailingSpace(s)..]) == TrailingSpace(s)
  {}

  lemma SpaceLeads(code: nat, rest: string)
    requires code < 0xD800 && IsSpaceCode(code)
    ensures LeadingSpace(Utf8(code) + rest) == |Utf8(code)|
  {}

  lemma SpaceTrails(code: nat, rest: string)
    requires code < 0xD800 && IsSpaceCode(code)
    ensures TrailingSpace(rest + Utf8(code)) == |Utf8(code)|
  {}

  lemma {:induction false} TrimLeftLeaves(s: string) returns (lead: string)
    ensures s == lead + TrimLeft(s) && AllSpace(lead) && LeadingSpace(TrimLeft(s)) == 0
    decreases |s|
  {
    var n := LeadingSpace(s);
    LeadingIsSpace(s);
    hide LeadingSpace, IsSpaceChar;
    lead := "";
    if n > 0 {
      lead := TrimLeftLeaves(s[n..]);
      SpaceBefore(s[..n], lead);
      lead := s[..n] + lead;
    }
  }

  lemma SpaceBefore(u: string, more: string)
    requires u != "" && IsSpaceChar(u) && AllSpace(more)
    ensures AllSpace(u + more)
  {
    hide IsSpaceChar;
    assert (u + more)[..|u|] == u && (u + more)[|u|..] == more;
  }

  lemma {:induction false} SpaceAfter(more: string, u: string)
    requires AllSpace(more) && u != "" && IsSpaceChar(u)
    ensures AllSpace(more + u)
    decreases |more|
  {
    hide IsSpaceChar;
    if more == "" {
      SpaceBefore(u, "");
      assert more + u == u + "";
    } else {
      var n :| 1 <= n <= |more| && IsSpaceChar(more[..n]) && AllSpace(more[n..]);
      SpaceAfter(more[n..], u);
      SpaceBefore(more[..n], more[n..] + u);
      assert more[..n] + (more[n..] + u) == more + u;
    }
  }

  lemma {:induction false} TrimRightLeaves(s: string) returns (tail: string)
    requires LeadingSpace(s) == 0
    ensures s == TrimRight(s) + tail && AllSpace(tail)
    ensures LeadingSpace(TrimRight(s)) == 0 && TrailingSpace(TrimRight(s)) == 0
    decreases |s|
  {
    hide LeadingSpace, TrailingSpace, IsSpaceChar;
    var n := TrailingSpace(s);
    if n == 0 {
      tail := "";
    } else {
      var init, u := s[..|s| - n], s[|s| - n..];
      assert TrimRight(s) == TrimRight(init);
      hide TrimRight, AllSpace;
      TrailingIsSpace(s);
      ShorterLead(s, |s| - n);
      var rest := TrimRightLeaves(init);
      SpaceAfter(rest, u);
      tail := rest + u;
      assert s == init + u;
    }
  }

  lemma ShorterLead(s: string, k: nat)
    requires LeadingSpace(s) == 0 && k <= |s|
    ensures LeadingSpace(s[..k]) == 0
  {}

  lemma NoSpaceAtEnds(t: string, u: string, rest: string)
    requires LeadingSpace(t) == 0 && TrailingSpace(t) == 0 && IsSpaceChar(u)
    ensures t != u + rest && t != rest + u
  {
    hide LeadingSpace, TrailingSpace, Utf8;
    var code: nat :| code < 0xD800 && IsSpaceCode(code) && u == Utf8(code);
    SpaceLeads(code, rest);
    SpaceTrails(code, rest);
    SpaceHasBytes(code);
  }

  lemma SpaceHasBytes(code: nat)
    requires code < 0xD800
    ensures |Utf8(code)| > 0
  {}

  /** Trimming takes white space away from both ends, only that, and all of it. */
  lemma TrimLeaves(s: string) returns (lead: string, tail: string)
    ensures s == lead + TrimSpace(s) + tail && AllSpace(lead) && AllSpace(tail)
    ensures forall u, rest :: IsSpaceChar(u) ==> TrimSpace(s) != u + rest && TrimSpace(s) != rest + u
  {
    hide LeadingSpace, TrailingSpace, TrimLeft, TrimRight, IsSpaceChar, AllSpace;
    lead := TrimLeftLeaves(s);
    tail := TrimRightLeaves(TrimLeft(s));
    assert lead + (TrimSpace(s) + tail) == lead + TrimSpace(s) + tail;
    var t := TrimSpace(s);
    hide TrimSpace;
    forall u, rest | IsSpaceChar(u) ensures t != u + rest && t != rest + u {
      NoSpaceAtEnds(t, u, rest);
    }
  }

  // ---------- splitting and numbers ----------

  /** strings.Split on one character. */
  function SplitOn(s: string, sep: char): (parts: seq<string>)
    ensures parts != []
  {
    if s == [] then [""]
    else if s[0] == sep then [""] + SplitOn(s[1..], sep)
    else
      var rest := SplitOn(s[1..], sep);
      [[s[0]] + rest[0]] + rest[1..]
  }

  function JoinWith(parts: seq<string>, sep: char): string {
    if parts == [] then "" else if |parts| == 1 then parts[0]
    else parts[0] + [sep] + JoinWith(parts[1..], sep)
  }

  lemma {:induction false} SplitPrefix(p: string, rest: string, sep: char)
    requires sep !in p
    ensures SplitOn(p + [sep] + rest, sep) == [p] + SplitOn(rest, sep)
    ensures SplitOn(p, sep) == [p]
  {
    var s := p + [sep] + rest;
    if p == [] {
      assert s[1..] == rest;
    } else {
      assert p[0] in p && forall c :: c in p[1..] ==> c in p;
      SplitPrefix(p[1..], rest, sep);
      assert s[1..] == p[1..] + [sep] + rest;
      assert p == [p[0]] + p[1..];
    }
  }

  /** Splitting undoes joining ... */
  lemma {:induction false} SplitJoined(parts: seq<string>, sep: char)
    requires parts != [] && forall p :: p in parts ==> sep !in p
    ensures SplitOn(JoinWith(parts, sep), sep) == parts
  {
    hide SplitOn;
    if |parts| == 1 {
      SplitPrefix(parts[0], "", sep);
    } else {
      SplitJoined(parts[1..], sep);
      SplitPrefix(parts[0], JoinWith(parts[1..], sep), sep);
      assert parts == [parts[0]] + parts[1..];
    }
  }

  /** ... and joining undoes splitting; no part holds the separator. */
  lemma {:induction false} JoinSplit(s: string, sep: char)
    ensures JoinWith(SplitOn(s, sep), sep) == s
    ensures forall p :: p in SplitOn(s, sep) ==> sep !in p
  {
    if s != [] {
      var rest := SplitOn(s[1..], sep);
      JoinSplit(s[1..], sep);
      assert s == [s[0]] + s[1..];
      JoinHead(s[0], rest, sep);
    }
  }

  lemma JoinHead(c: char, rest: seq<string>, sep: char)
    requires rest != []
    ensures JoinWith([""] + rest, sep) == [sep] + JoinWith(rest, sep)
    ensures JoinWith([[c] + rest[0]] + rest[1..], sep) == [c] + JoinWith(rest, sep)
  {
    var longer := [[c] + rest[0]] + rest[1..];
    assert longer[1..] == rest[1..] && ([""] + rest)[1..] == rest;
    assert "" + [sep] + JoinWith(rest, sep) == [sep] + JoinWith(rest, sep);
    if |rest| > 1 {
      assert [c] + rest[0] + [sep] + JoinWith(rest[1..], sep) == [c] + (rest[0] + [sep] + JoinWith(rest[1..], sep));
    }
  }

  function Decimal(n: nat): string {
    if n < 10 then [('0' as int + n) as char]
    else Decimal(n / 10) + [('0' as int + n % 10) as char]
  }

  // ---------- distinct values ----------

  /** The nonempty values in the order they are first seen. */
  function Distinct(values: seq<string>): seq<string>
    decreases |values|
  {
    if values == [] then []
    else
      var before := Distinct(values[..|values| - 1]);
      if Last(values) == "" || Last(values) in before then before else before + [Last(values)]
  }

  lemma DistinctSnoc(values: seq<string>, v: string)
    ensures Distinct(values + [v])
         == if v == "" || v in Distinct(values) then Distinct(values) else Distinct(values) + [v]
  {
    assert (values + [v])[..|values|] == values;
  }

  /** What Distinct promises, without saying how: no value twice, exactly the nonempty values, each
      where it is first seen. */
  ghost predicate FirstSeen(values: seq<string>, r: seq<string>, at: seq<nat>) {
    && |at| == |r|
    && (forall i :: 0 <= i < |r| ==>
          at[i] < |values| && values[at[i]] == r[i] && r[i] != "" && r[i] !in values[..at[i]])
    && (forall i, j :: 0 <= i < j < |r| ==> at[i] < at[j])
    && (forall i, j :: 0 <= i < j < |r| ==> r[i] != r[j])
    && (forall v :: v in r <==> v in values && v != "")
  }

  lemma {:induction false} DistinctIsFirstSeen(values: seq<string>) returns (at: seq<nat>)
    ensures FirstSeen(values, Distinct(values), at)
    decreases |values|
  {
    if values == [] {
      at := [];
    } else {
      var init, v := values[..|values| - 1], Last(values);
      at := DistinctIsFirstSeen(init);
      assert values == init + [v];
      DistinctSnoc(init, v);
      hide FirstSeen, Distinct;
      OneMoreSeen(init, Distinct(init), at, v);
      if v != "" && v !in Distinct(init) {
        at := at + [|init|];
      }
    }
  }

  lemma OneMoreSeen(init: seq<string>, r: seq<string>, at: seq<nat>, v: string)
    requires FirstSeen(init, r, at)
    ensures if v == "" || v in r then FirstSeen(init + [v], r, at)
            else FirstSeen(init + [v], r + [v], at + [|init|])
  {
    var values := init + [v];
    assert forall i :: 0 <= i < |at| ==> values[..at[i]] == init[..at[i]];
    assert values[..|init|] == init && values[|init|] == v;
    if v != "" && v !in r {
      assert v !in init;
    }
  }

  // ---------- hexadecimal digits ----------

  function LowerHex(n: nat): char
    requires n < 16
  {
    if n < 10 then ('0' as int + n) as char else ('a' as int + (n - 10)) as char
  }

  function UpperHex(n: nat): char
    requires n < 16
  {
    if n < 10 then ('0' as int + n) as char else ('A' as int + (n - 10)) as char
  }

  function HexValue(c: char): int {
    if '0' <= c <= '9' then c as int - '0' as int
    else if 'a' <= c <= 'f' then c as int - 'a' as int + 10
    else if 'A' <= c <= 'F' then c as int - 'A' as int + 10
    else -1
  }

  /** The digits are those that have a value below sixteen. */
  lemma HexDigitIff(c: char)
    ensures IsHexDigit(c) <==> 0 <= HexValue(c) < 16
    ensures HexValue(c) >= 0 ==> c == LowerHex(HexValue(c)) || c == UpperHex(HexValue(c))
  {}

  lemma HexDigitRoundTrip(n: nat)
    requires n < 16
    ensures HexValue(LowerHex(n)) == n == HexValue(UpperHex(n))
  {}
}
