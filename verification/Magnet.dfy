/** The magnet printer of internal/torrent/magnet.go and a reader for what it prints. */
module Magnet {
  import opened Wrappers
  import opened Chunks
  import opened Text

  // ---------- hexadecimal and form encoding ----------

  function HexEncode(b: seq<byte>): string {
    if b == [] then "" else [LowerHex(b[0] / 16), LowerHex(b[0] % 16)] + HexEncode(b[1..])
  }

  function HexDecode(s: string): Option<seq<byte>>
    decreases |s|
  {
    if s == [] then Some([])
    else if |s| < 2 || HexValue(s[0]) < 0 || HexValue(s[1]) < 0 then None
    else
      var rest := HexDecode(s[2..]);
      if rest.None? then None else Some([HexValue(s[0]) * 16 + HexValue(s[1])] + rest.value)
  }

  lemma HexDecodeOne(b: byte, rest: string)
    requires HexDecode(rest).Some?
    ensures HexDecode([LowerHex(b / 16), LowerHex(b % 16)] + rest) == Some([b] + HexDecode(rest).value)
  {
    var s := [LowerHex(b / 16), LowerHex(b % 16)] + rest;
    assert s[2..] == rest;
    HexDigitRoundTrip(b / 16);
    HexDigitRoundTrip(b % 16);
    hide LowerHex, HexValue;
  }

  lemma {:induction false} HexRoundTrip(b: seq<byte>)
    ensures HexDecode(HexEncode(b)) == Some(b)
  {
    if b != [] {
      HexRoundTrip(b[1..]);
      HexDecodeOne(b[0], HexEncode(b[1..]));
      assert b == [b[0]] + b[1..];
    }
  }

  function ToLower(s: string): string {
    if s == [] then ""
    else [if 'A' <= s[0] <= 'Z' then (s[0] as int + 32) as char else s[0]] + ToLower(s[1..])
  }

  /** Lowering keeps every digit's value and leaves no capital. */
  lemma {:induction false} LowerKeepsValues(s: string)
    ensures |ToLower(s)| == |s|
    ensures forall i :: 0 <= i < |s| ==> HexValue(ToLower(s)[i]) == HexValue(s[i])
    ensures forall c :: c in ToLower(s) ==> !('A' <= c <= 'Z')
    ensures forall i :: 0 <= i < |s| && !('A' <= s[i] <= 'Z') ==> ToLower(s)[i] == s[i]
  {
    if s != [] {
      LowerKeepsValues(s[1..]);
    }
  }

  /** A hash is printed as two lower-case digits for each byte. */
  lemma {:induction false} HexDigits(b: seq<byte>)
    ensures |HexEncode(b)| == 2 * |b|
    ensures forall c :: c in HexEncode(b) ==> '0' <= c <= '9' || 'a' <= c <= 'f'
  {
    if b != [] {
      HexDigits(b[1..]);
    }
  }

  /** So two v2 hashes are printed alike exactly if their digits have the same values. */
  lemma {:induction false} SameLowerIff(s: string, t: string)
    requires forall c :: c in s || c in t ==> IsHexDigit(c)
    ensures ToLower(s) == ToLower(t) <==>
      |s| == |t| && forall i :: 0 <= i < |s| ==> HexValue(s[i]) == HexValue(t[i])
  {
    LowerKeepsValues(s);
    LowerKeepsValues(t);
    if |s| == |t| && forall i :: 0 <= i < |s| ==> HexValue(s[i]) == HexValue(t[i]) {
      forall i | 0 <= i < |s| ensures ToLower(s)[i] == ToLower(t)[i] {
        LowerIsDigit(s, i);
        LowerIsDigit(t, i);
      }
    }
  }

  lemma LowerIsDigit(s: string, i: nat)
    requires i < |s| && IsHexDigit(s[i])
    ensures |ToLower(s)| == |s| && var c := ToLower(s)[i]; '0' <= c <= '9' || 'a' <= c <= 'f'
  {
    LowerKeepsValues(s);
    hide ToLower;
    assert ToLower(s)[i] in ToLower(s);
  }

  /** Go strings are bytes. */
  predicate IsBytes(s: string) {
    forall c :: c in s ==> c as int < 256
  }

  predicate Unreserved(c: char) {
    'a' <= c <= 'z' || 'A' <= c <= 'Z' || '0' <= c <= '9' || c in {'-', '_', '.', '~'}
  }

  function EscapeOne(c: char): string
    requires c as int < 256
  {
    if Unreserved(c) then [c]
    else if c == ' ' then "+"
    else ['%', UpperHex(c as int / 16), UpperHex(c as int % 16)]
  }

  /** url.QueryEscape. */
  function QueryEscape(s: string): string
    requires IsBytes(s)
  {
    if s == [] then ""
    else
      assert s[0] in s;
      assert forall c :: c in s[1..] ==> c in s;
      EscapeOne(s[0]) + QueryEscape(s[1..])
  }

  /** Reading a form-encoded value. */
  function QueryUnescape(s: string): Option<string>
    decreases |s|
  {
    if s == [] then Some("")
    else if s[0] == '%' then
      if |s| < 3 || HexValue(s[1]) < 0 || HexValue(s[2]) < 0 then None
      else Prepend([(HexValue(s[1]) * 16 + HexValue(s[2])) as char], QueryUnescape(s[3..]))
    else Prepend(if s[0] == '+' then " " else [s[0]], QueryUnescape(s[1..]))
  }

  lemma UnescapeOne(c: char, rest: string)
    requires c as int < 256
    ensures QueryUnescape(EscapeOne(c) + rest) == Prepend([c], QueryUnescape(rest))
  {
    var e := EscapeOne(c);
    var s := e + rest;
    assert s[|e|..] == rest;
    if |e| == 3 {
      assert HexValue(s[1]) == c as int / 16 && HexValue(s[2]) == c as int % 16;
    }
  }

  lemma EscapeStep(s: string)
    requires IsBytes(s) && s != []
    ensures s[0] as int < 256 && IsBytes(s[1..]) && s == [s[0]] + s[1..]
    ensures QueryEscape(s) == EscapeOne(s[0]) + QueryEscape(s[1..])
  {
    assert s[0] in s;
    assert forall c :: c in s[1..] ==> c in s;
    hide EscapeOne;
  }

  lemma OneHasNoAmpersand(c: char)
    requires c as int < 256
    ensures '&' !in EscapeOne(c)
  {}

  lemma {:induction false} EscapeHasNoAmpersand(s: string)
    requires IsBytes(s)
    ensures '&' !in QueryEscape(s)
  {
    if s != [] {
      EscapeStep(s);
      hide IsBytes, QueryEscape, EscapeOne;
      OneHasNoAmpersand(s[0]);
      EscapeHasNoAmpersand(s[1..]);
    }
  }

  lemma {:induction false} UnescapeEscaped(s: string)
    requires IsBytes(s)
    ensures QueryUnescape(QueryEscape(s)) == Some(s)
  {
    if s == [] {
      assert QueryEscape(s) == [];
    } else {
      EscapeStep(s);
      hide IsBytes, QueryEscape, EscapeOne, QueryUnescape;
      UnescapeEscaped(s[1..]);
      UnescapeOne(s[0], QueryEscape(s[1..]));
    }
  }

  lemma EscapeRoundTrip(s: string)
    requires IsBytes(s)
    ensures QueryUnescape(QueryEscape(s)) == Some(s)
    ensures '&' !in QueryEscape(s)
  {
    hide IsBytes, QueryEscape, QueryUnescape;
    UnescapeEscaped(s);
    EscapeHasNoAmpersand(s);
  }

  // ---------- the printer ----------

  function Trimmed(values: seq<string>): seq<string> {
    seq(|values|, i requires 0 <= i < |values| => TrimSpace(values[i]))
  }

  /** Trimmed, nonempty, each once, in first-seen order. */
  function Normalized(values: seq<string>): seq<string> {
    Distinct(Trimmed(values))
  }

  method NormalizeMagnetValues(values: seq<string>) returns (r: seq<string>)
    ensures r == Normalized(values)
  {
    hide TrimSpace, Distinct;
    r := [];
    var seen: set<string> := {};
    NoneDistinct();
    for i := 0 to |values|
      invariant r == Distinct(Trimmed(values[..i]))
      invariant seen == set v | v in r
    {
      var trimmed := TrimSpace(values[i]);
      assert Trimmed(values[..i + 1]) == Trimmed(values[..i]) + [trimmed];
      DistinctSnoc(Trimmed(values[..i]), trimmed);
      if trimmed == "" {
        continue;
      }
      if trimmed in seen {
        continue;
      }
      seen := seen + {trimmed};
      r := r + [trimmed];
    }
    assert values[..|values|] == values;
  }

  lemma NoneDistinct()
    ensures Distinct(Trimmed([])) == []
  {}

  /** A parameter and its value before encoding. */
  datatype Param = Param(key: string, value: string)

  function Keyed(key: string, values: seq<string>): seq<Param> {
    seq(|values|, i requires 0 <= i < |values| => Param(key, values[i]))
  }

  /** Identities are printed raw, everything else form-encoded. */
  function Printed(p: Param): string
    requires IsBytes(p.value)
  {
    p.key + "=" + (if p.key == "xt" then p.value else QueryEscape(p.value))
  }

  ghost predicate AllBytes(params: seq<Param>) {
    forall p :: p in params ==> IsBytes(p.value)
  }

  ghost function PrintAll(params: seq<Param>): seq<string>
    requires AllBytes(params)
  {
    seq(|params|, i requires 0 <= i < |params| => Printed(params[i]))
  }

  const BTIH := "urn:btih:"
  const BTMH := "urn:btmh:1220"

  function HeadParams(infoHash: seq<byte>, v2: string, dn: string): seq<Param> {
    [Param("xt", BTIH + HexEncode(infoHash))]
    + (if v2 != "" then [Param("xt", BTMH + ToLower(v2))] else [])
    + (if dn != "" then [Param("dn", dn)] else [])
  }

  /** What a magnet says, as parameters in their order; trimmed v2 hash and name, normalized trackers
      and webseeds. */
  function Params(infoHash: seq<byte>, v2: string, dn: string, tr: seq<string>, ws: seq<string>): seq<Param> {
    HeadParams(infoHash, v2, dn) + Keyed("tr", tr) + Keyed("ws", ws)
  }

  ghost predicate InputsAreBytes(v2: string, dn: string, tr: seq<string>, ws: seq<string>) {
    && IsBytes(v2) && IsBytes(dn)
    && (forall t :: t in tr ==> IsBytes(t)) && (forall w :: w in ws ==> IsBytes(w))
  }

  method BuildMagnetFromInfoHash(infoHash: seq<byte>, infoHashV2: string, name: string,
                                 trackers: seq<string>, webseeds: seq<string>)
    returns (r: Option<string>)
    requires InputsAreBytes(infoHashV2, name, trackers, webseeds)
    ensures r.Some? <==> |infoHash| == 20 && (TrimSpace(infoHashV2) == "" || IsHex(TrimSpace(infoHashV2), 64))
    ensures r.Some? ==>
      var params := Params(infoHash, TrimSpace(infoHashV2), TrimSpace(name),
                           Normalized(trackers), Normalized(webseeds));
      // What is printed, and that reading it gives it back.
      Holds(r.value, params) && Parse(r.value) == Some(params)
  {
    hide TrimSpace, Normalized, HexEncode, ToLower, IsBytes, IsHex, Parse, Holds, BTIH, BTMH, Keyed;
    NormalizedInputs(infoHashV2, name, trackers, webseeds);
    if |infoHash| != 20 {
      return None;
    }
    var v2 := TrimSpace(infoHashV2);
    if v2 != "" && !ValidInfohashV2(v2) {
      return None;
    }
    var normTrackers := NormalizeMagnetValues(trackers);
    var normWebseeds := NormalizeMagnetValues(webseeds);
    HeadIsBytes(infoHash, v2, TrimSpace(name));
    var b, done := BuildHead(infoHash, v2, TrimSpace(name));
    b, done := AppendAll(b, done, "tr", normTrackers);
    b, done := AppendAll(b, done, "ws", normWebseeds);
    MagnetRoundTrip(infoHash, v2, TrimSpace(name), normTrackers, normWebseeds, b);
    r := Some(b);
  }

  /** Identities and name. */
  method BuildHead(infoHash: seq<byte>, v2: string, dn: string) returns (b: string, ghost done: seq<Param>)
    requires IsBytes(BTIH + HexEncode(infoHash)) && IsBytes(BTMH + ToLower(v2)) && IsBytes(dn)
    ensures done == HeadParams(infoHash, v2, dn) && Holds(b, done) && |b| > 8
  {
    hide IsBytes, PrintAll, HexEncode, ToLower;
    HoldsNothing();
    hide Holds;
    b, done := Append("magnet:?", [], Param("xt", BTIH + HexEncode(infoHash)));
    if v2 != "" {
      b, done := Append(b, done, Param("xt", BTMH + ToLower(v2)));
    }
    if dn != "" {
      b, done := Append(b, done, Param("dn", dn));
    }
  }

  lemma HoldsNothing()
    ensures Holds("magnet:?", [])
  {
    assert PrintAll([]) == [];
    assert "magnet:?" + "" == "magnet:?";
  }

  /** The builder holds exactly the parameters of `done`. */
  ghost predicate Holds(b: string, done: seq<Param>) {
    AllBytes(done) && b == "magnet:?" + JoinWith(PrintAll(done), '&')
  }

  /** One parameter, after an ampersand unless it is the first. */
  method Append(b: string, ghost done: seq<Param>, p: Param) returns (b': string, ghost done': seq<Param>)
    requires Holds(b, done) && IsBytes(p.value) && (done == [] <==> |b| == 8)
    ensures done' == done + [p] && Holds(b', done') && |b'| > 8
  {
    b' := b + (if |b| == 8 then "" else "&") + Printed(p);
    done' := done + [p];
    HoldsMore(b, done, p);
  }

  lemma HoldsMore(b: string, done: seq<Param>, p: Param)
    requires Holds(b, done) && IsBytes(p.value) && (done == [] <==> |b| == 8)
    ensures Holds(b + (if |b| == 8 then "" else "&") + Printed(p), done + [p])
    ensures |Printed(p)| > 0
  {
    hide IsBytes, QueryEscape;
    JoinSnoc(PrintAll(done), Printed(p));
    assert PrintAll(done + [p]) == PrintAll(done) + [Printed(p)];
    var text := JoinWith(PrintAll(done), '&');
    if done == [] {
      assert b == "magnet:?" && b + "" == b;
    } else {
      assert "magnet:?" + text + "&" + Printed(p) == "magnet:?" + (text + "&" + Printed(p));
    }
  }

  method AppendAll(b: string, ghost done: seq<Param>, key: string, values: seq<string>)
    returns (b': string, ghost done': seq<Param>)
    requires Holds(b, done) && done != [] && |b| > 8
    requires forall v :: v in values ==> IsBytes(v)
    ensures done' == done + Keyed(key, values) && Holds(b', done') && |b'| > 8
  {
    hide Holds;
    b', done' := b, done;
    for i := 0 to |values|
      invariant done' == done + Keyed(key, values[..i]) && Holds(b', done') && |b'| > 8
    {
      assert values[i] in values;
      b', done' := Append(b', done', Param(key, values[i]));
      assert Keyed(key, values[..i + 1]) == Keyed(key, values[..i]) + [Param(key, values[i])];
    }
    assert values[..|values|] == values;
  }

  lemma {:induction false} JoinSnoc(parts: seq<string>, p: string)
    ensures JoinWith(parts + [p], '&') == if parts == [] then p else JoinWith(parts, '&') + "&" + p
  {
    var all := parts + [p];
    if parts != [] {
      assert all[0] == parts[0] && all[1..] == parts[1..] + [p];
      JoinSnoc(parts[1..], p);
      assert JoinWith(all, '&') == parts[0] + "&" + JoinWith(all[1..], '&');
      if |parts| > 1 {
        Regroup(parts[0], JoinWith(parts[1..], '&'), p);
      }
    }
  }

  lemma Regroup(a: string, b: string, c: string)
    ensures a + "&" + (b + "&" + c) == a + "&" + b + "&" + c
  {}

  // ---------- everything printed is bytes ----------

  lemma {:induction false} TrimIsBytes(s: string)
    requires IsBytes(s)
    ensures IsBytes(TrimSpace(s))
  {
    TrimLeftPart(s);
    TrimRightPart(TrimLeft(s));
  }

  lemma {:induction false} TrimLeftPart(s: string)
    ensures forall c :: c in TrimLeft(s) ==> c in s
    decreases |s|
  {
    if LeadingSpace(s) > 0 {
      TrimLeftPart(s[LeadingSpace(s)..]);
    }
  }

  lemma {:induction false} TrimRightPart(s: string)
    ensures forall c :: c in TrimRight(s) ==> c in s
    decreases |s|
  {
    if TrailingSpace(s) > 0 {
      TrimRightPart(s[..|s| - TrailingSpace(s)]);
    }
  }

  lemma NormalizedIsBytes(values: seq<string>)
    requires forall v :: v in values ==> IsBytes(v)
    ensures forall v :: v in Normalized(values) ==> IsBytes(v)
  {
    var t := Trimmed(values);
    var at := DistinctIsFirstSeen(t);
    hide TrimSpace, Distinct, IsBytes;
    forall v | v in Normalized(values) ensures IsBytes(v) {
      assert v in t;
      var i :| 0 <= i < |t| && t[i] == v;
      assert values[i] in values;
      TrimIsBytes(values[i]);
    }
  }

  lemma {:induction false} HexIsBytes(b: seq<byte>)
    ensures IsBytes(HexEncode(b)) && '&' !in HexEncode(b)
  {
    if b != [] {
      HexIsBytes(b[1..]);
    }
  }

  lemma {:induction false} LowerIsBytes(s: string)
    requires IsBytes(s)
    ensures IsBytes(ToLower(s))
    ensures '&' !in s ==> '&' !in ToLower(s)
  {
    if s != [] {
      assert s[0] in s;
      assert forall c :: c in s[1..] ==> c in s;
      LowerIsBytes(s[1..]);
    }
  }

  lemma HeadIsBytes(infoHash: seq<byte>, v2: string, dn: string)
    requires IsBytes(v2) && IsBytes(dn)
    ensures IsBytes(BTIH + HexEncode(infoHash)) && IsBytes(BTMH + ToLower(v2))
    ensures AllBytes(HeadParams(infoHash, v2, dn))
  {
    HexIsBytes(infoHash);
    LowerIsBytes(v2);
    assert IsBytes(BTIH) && IsBytes(BTMH);
    hide HexEncode, ToLower;
  }

  lemma KeyedIsBytes(key: string, values: seq<string>)
    requires forall v :: v in values ==> IsBytes(v)
    ensures AllBytes(Keyed(key, values))
  {
    hide IsBytes;
    forall p | p in Keyed(key, values) ensures IsBytes(p.value) {
      var i :| 0 <= i < |values| && Keyed(key, values)[i] == p;
      assert values[i] in values;
    }
  }

  lemma NormalizedInputs(infoHashV2: string, name: string, trackers: seq<string>, webseeds: seq<string>)
    requires InputsAreBytes(infoHashV2, name, trackers, webseeds)
    ensures InputsAreBytes(TrimSpace(infoHashV2), TrimSpace(name), Normalized(trackers), Normalized(webseeds))
  {
    hide TrimSpace, Normalized, IsBytes;
    NormalizedIsBytes(trackers);
    NormalizedIsBytes(webseeds);
    TrimIsBytes(infoHashV2);
    TrimIsBytes(name);
  }

  // ---------- the reader ----------

  /** Everything before the first '=', and everything after it. */
  function CutAtEquals(s: string): Param {
    if s == [] then Param("", "")
    else if s[0] == '=' then Param("", s[1..])
    else var rest := CutAtEquals(s[1..]); Param([s[0]] + rest.key, rest.value)
  }

  function DecodeAll(parts: seq<string>): Option<seq<Param>> {
    if parts == [] then Some([])
    else
      var p := CutAtEquals(parts[0]);
      var v, rest := QueryUnescape(p.value), DecodeAll(parts[1..]);
      if v.None? || rest.None? then None else Some([Param(p.key, v.value)] + rest.value)
  }

  /** Split on '&' and '=', form-unescape. */
  function Parse(magnet: string): Option<seq<Param>> {
    if |magnet| < 8 || magnet[..8] != "magnet:?" then None else DecodeAll(SplitOn(magnet[8..], '&'))
  }

  /** The values of one key, in order. */
  function ValuesOf(params: seq<Param>, key: string): seq<string> {
    if params == [] then []
    else (if params[0].key == key then [params[0].value] else []) + ValuesOf(params[1..], key)
  }

  lemma {:induction false} CutPrinted(key: string, value: string)
    requires '=' !in key
    ensures CutAtEquals(key + "=" + value) == Param(key, value)
  {
    var s := key + "=" + value;
    if key == [] {
      assert s[1..] == value;
    } else {
      assert key[0] in key && forall c :: c in key[1..] ==> c in key;
      CutPrinted(key[1..], value);
      assert s[1..] == key[1..] + "=" + value;
    }
  }

  /** A value without '%', '+' and '&' is its own encoding. */
  ghost predicate Verbatim(s: string) {
    forall c :: c in s ==> c != '%' && c != '+' && c != '&'
  }

  lemma {:induction false} VerbatimUnescape(s: string)
    requires Verbatim(s)
    ensures QueryUnescape(s) == Some(s)
  {
    if s != [] {
      assert s[0] in s && forall c :: c in s[1..] ==> c in s;
      VerbatimUnescape(s[1..]);
      assert s == [s[0]] + s[1..];
    }
  }

  ghost predicate Printable(p: Param) {
    p.key in {"xt", "dn", "tr", "ws"} && IsBytes(p.value) && (p.key == "xt" ==> Verbatim(p.value))
  }

  lemma ReadPrinted(p: Param)
    requires Printable(p)
    ensures '&' !in Printed(p)
    ensures var c := CutAtEquals(Printed(p)); c.key == p.key && QueryUnescape(c.value) == Some(p.value)
  {
    var text := if p.key == "xt" then p.value else QueryEscape(p.value);
    if p.key == "xt" {
      VerbatimUnescape(p.value);
    } else {
      EscapeRoundTrip(p.value);
    }
    CutPrinted(p.key, text);
  }

  lemma {:induction false} DecodePrinted(params: seq<Param>)
    requires AllBytes(params) && AllPrintable(params)
    ensures DecodeAll(PrintAll(params)) == Some(params)
    ensures forall s :: s in PrintAll(params) ==> '&' !in s
  {
    hide CutAtEquals, QueryUnescape, Printed, Printable, IsBytes;
    if params != [] {
      var rest := params[1..];
      assert params[0] in params && AllPrintable(rest);
      ReadPrinted(params[0]);
      DecodePrinted(rest);
      assert PrintAll(params) == [Printed(params[0])] + PrintAll(rest);
      DecodeCons(Printed(params[0]), PrintAll(rest), params[0]);
      assert params == [params[0]] + rest;
    }
  }

  lemma DecodeCons(part: string, parts: seq<string>, p: Param)
    requires var c := CutAtEquals(part); c.key == p.key && QueryUnescape(c.value) == Some(p.value)
    ensures DecodeAll([part] + parts) == if DecodeAll(parts).None? then None else Some([p] + DecodeAll(parts).value)
  {
    hide CutAtEquals, QueryUnescape;
    assert ([part] + parts)[0] == part && ([part] + parts)[1..] == parts;
  }

  lemma {:induction false} HexVerbatim(b: seq<byte>)
    ensures Verbatim(HexEncode(b))
  {
    if b != [] {
      HexVerbatim(b[1..]);
    }
  }

  lemma {:induction false} LowerVerbatim(s: string)
    requires forall c :: c in s ==> IsHexDigit(c)
    ensures Verbatim(ToLower(s))
  {
    if s != [] {
      assert s[0] in s && forall c :: c in s[1..] ==> c in s;
      LowerVerbatim(s[1..]);
    }
  }

  ghost predicate AllPrintable(params: seq<Param>) {
    forall p :: p in params ==> Printable(p)
  }

  lemma HeadIsPrintable(infoHash: seq<byte>, v2: string, dn: string)
    requires IsBytes(v2) && IsBytes(dn) && (v2 == "" || ValidInfohashV2(v2))
    ensures AllPrintable(HeadParams(infoHash, v2, dn))
  {
    HeadIsBytes(infoHash, v2, dn);
    HexVerbatim(infoHash);
    if v2 != "" {
      LowerVerbatim(v2);
    }
    assert Verbatim(BTIH) && Verbatim(BTMH);
    hide HexEncode, ToLower, IsBytes;
  }

  lemma KeyedIsPrintable(key: string, values: seq<string>)
    requires key in {"tr", "ws"} && forall v :: v in values ==> IsBytes(v)
    ensures AllPrintable(Keyed(key, values))
  {
    KeyedIsBytes(key, values);
    hide IsBytes;
  }

  lemma ParamsArePrintable(infoHash: seq<byte>, v2: string, dn: string, tr: seq<string>, ws: seq<string>)
    requires InputsAreBytes(v2, dn, tr, ws) && (v2 == "" || ValidInfohashV2(v2))
    ensures AllPrintable(Params(infoHash, v2, dn, tr, ws))
  {
    hide IsBytes, ValidInfohashV2, HeadParams, Keyed, Printable;
    HeadIsPrintable(infoHash, v2, dn);
    KeyedIsPrintable("tr", tr);
    KeyedIsPrintable("ws", ws);
  }

  /** Reading a printed magnet gives back what was printed. */
  lemma MagnetRoundTrip(infoHash: seq<byte>, v2: string, dn: string, tr: seq<string>, ws: seq<string>, magnet: string)
    requires InputsAreBytes(v2, dn, tr, ws) && (v2 == "" || ValidInfohashV2(v2))
    requires Holds(magnet, Params(infoHash, v2, dn, tr, ws))
    ensures Parse(magnet) == Some(Params(infoHash, v2, dn, tr, ws))
  {
    hide Params, InputsAreBytes, ValidInfohashV2;
    ParamsArePrintable(infoHash, v2, dn, tr, ws);
    ParamsNotEmpty(infoHash, v2, dn, tr, ws);
    ParsePrinted(Params(infoHash, v2, dn, tr, ws), magnet);
  }

  lemma ParsePrinted(params: seq<Param>, magnet: string)
    requires params != [] && AllPrintable(params) && Holds(magnet, params)
    ensures Parse(magnet) == Some(params)
  {
    hide SplitOn, DecodeAll, JoinWith, Printable, IsBytes;
    DecodePrinted(params);
    SplitJoined(PrintAll(params), '&');
    assert magnet[8..] == JoinWith(PrintAll(params), '&');
  }

  lemma ParamsNotEmpty(infoHash: seq<byte>, v2: string, dn: string, tr: seq<string>, ws: seq<string>)
    ensures Params(infoHash, v2, dn, tr, ws) != []
  {}

  // ---------- what the parameters say ----------

  lemma {:induction false} ValuesOfSum(a: seq<Param>, b: seq<Param>, key: string)
    ensures ValuesOf(a + b, key) == ValuesOf(a, key) + ValuesOf(b, key)
  {
    if a == [] {
      assert a + b == b;
    } else {
      assert (a + b)[0] == a[0] && (a + b)[1..] == a[1..] + b;
      ValuesOfSum(a[1..], b, key);
    }
  }

  lemma {:induction false} ValuesOfKeyed(k: string, values: seq<string>, key: string)
    ensures ValuesOf(Keyed(k, values), key) == if k == key then values else []
  {
    if values != [] {
      assert Keyed(k, values)[1..] == Keyed(k, values[1..]);
      ValuesOfKeyed(k, values[1..], key);
    }
  }

  lemma ValuesOfOne(p: Param, key: string)
    ensures ValuesOf([p], key) == if p.key == key then [p.value] else []
  {
    assert ValuesOf([p][1..], key) == [];
  }

  lemma HeadSays(infoHash: seq<byte>, v2: string, dn: string, key: string)
    ensures ValuesOf(HeadParams(infoHash, v2, dn), key)
         == (if key == "xt" then [BTIH + HexEncode(infoHash)] else [])
          + (if key == "xt" && v2 != "" then [BTMH + ToLower(v2)] else [])
          + (if key == "dn" && dn != "" then [dn] else [])
  {
    hide HexEncode, ToLower, ValuesOf;
    var a := [Param("xt", BTIH + HexEncode(infoHash))];
    var b := if v2 != "" then [Param("xt", BTMH + ToLower(v2))] else [];
    var c := if dn != "" then [Param("dn", dn)] else [];
    NoValues(key);
    ValuesOfOne(a[0], key);
    if v2 != "" { ValuesOfOne(b[0], key); }
    if dn != "" { ValuesOfOne(c[0], key); }
    ValuesOfSum(a, b, key);
    ValuesOfSum(a + b, c, key);
  }

  lemma ParamsSay(infoHash: seq<byte>, v2: string, dn: string, tr: seq<string>, ws: seq<string>, key: string)
    ensures ValuesOf(Params(infoHash, v2, dn, tr, ws), key)
         == ValuesOf(HeadParams(infoHash, v2, dn), key)
          + (if key == "tr" then tr else []) + (if key == "ws" then ws else [])
  {
    hide ValuesOf, Keyed, HeadParams;
    var head := HeadParams(infoHash, v2, dn);
    ValuesOfKeyed("tr", tr, key);
    ValuesOfKeyed("ws", ws, key);
    ValuesOfSum(head, Keyed("tr", tr), key);
    ValuesOfSum(head + Keyed("tr", tr), Keyed("ws", ws), key);
  }

  /** The parameters hold the infohash, the lowercased v2 hash, the name, the trackers and the
      webseeds, in order. */
  lemma WhatParamsSay(infoHash: seq<byte>, v2: string, dn: string, tr: seq<string>, ws: seq<string>)
    ensures var params := Params(infoHash, v2, dn, tr, ws);
      && ValuesOf(params, "xt") == ["urn:btih:" + HexEncode(infoHash)]
           + (if v2 != "" then ["urn:btmh:1220" + ToLower(v2)] else [])
      && ValuesOf(params, "dn") == (if dn != "" then [dn] else [])
      && ValuesOf(params, "tr") == tr && ValuesOf(params, "ws") == ws
  {
    hide HexEncode, ToLower, Params, HeadParams, ValuesOf;
    ParamsSay(infoHash, v2, dn, tr, ws, "xt");
    HeadSays(infoHash, v2, dn, "xt");
    ParamsSay(infoHash, v2, dn, tr, ws, "dn");
    HeadSays(infoHash, v2, dn, "dn");
    ParamsSay(infoHash, v2, dn, tr, ws, "tr");
    HeadSays(infoHash, v2, dn, "tr");
    ParamsSay(infoHash, v2, dn, tr, ws, "ws");
    HeadSays(infoHash, v2, dn, "ws");
  }

  lemma NoValues(key: string)
    ensures ValuesOf([], key) == []
  {}

  /** Equal magnets come only from equal normalized inputs. */
  lemma MagnetsIdentifyInputs(ih: seq<byte>, v2: string, dn: string, tr: seq<string>, ws: seq<string>,
                              ih': seq<byte>, v2': string, dn': string, tr': seq<string>, ws': seq<string>,
                              magnet: string)
    requires InputsAreBytes(v2, dn, tr, ws) && (v2 == "" || ValidInfohashV2(v2))
    requires InputsAreBytes(v2', dn', tr', ws') && (v2' == "" || ValidInfohashV2(v2'))
    requires Holds(magnet, Params(ih, v2, dn, tr, ws)) && Holds(magnet, Params(ih', v2', dn', tr', ws'))
    ensures ih == ih' && ToLower(v2) == ToLower(v2') && dn == dn' && tr == tr' && ws == ws'
  {
    hide Params, Parse, Holds, InputsAreBytes, ValidInfohashV2;
    MagnetRoundTrip(ih, v2, dn, tr, ws, magnet);
    MagnetRoundTrip(ih', v2', dn', tr', ws', magnet);
    WhatParamsSay(ih, v2, dn, tr, ws);
    WhatParamsSay(ih', v2', dn', tr', ws');
    SameIdentities(ih, v2, ih', v2');
  }

  lemma SameIdentities(ih: seq<byte>, v2: string, ih': seq<byte>, v2': string)
    requires [BTIH + HexEncode(ih)] + (if v2 != "" then [BTMH + ToLower(v2)] else [])
          == [BTIH + HexEncode(ih')] + (if v2' != "" then [BTMH + ToLower(v2')] else [])
    ensures ih == ih' && ToLower(v2) == ToLower(v2')
  {
    hide HexEncode, HexDecode;
    var xt := [BTIH + HexEncode(ih)] + (if v2 != "" then [BTMH + ToLower(v2)] else []);
    assert xt[0] == BTIH + HexEncode(ih) == BTIH + HexEncode(ih');
    SameTail(BTIH, HexEncode(ih), HexEncode(ih'));
    HexRoundTrip(ih);
    HexRoundTrip(ih');
    if v2 != "" {
      assert xt[1] == BTMH + ToLower(v2) == BTMH + ToLower(v2');
      SameTail(BTMH, ToLower(v2), ToLower(v2'));
    }
  }
}
