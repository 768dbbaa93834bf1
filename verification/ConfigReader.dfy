/** Reading the printed config back: the comment stripper, then a reader of JSON objects by RFC 8259.
    Numbers are integers; arrays and null, which the printer never writes, are not read. */
module ConfigReader {
  import opened Wrappers
  import opened Text
  import opened JsonComments
  import opened ConfigPrinter

  datatype Json = Str(s: string) | Num(n: int) | Flag(b: bool) | Obj(members: seq<(string, Json)>)

  /** What is read from the front of a text, and what is left of it. */
  datatype Parsed<T> = Parsed(value: T, rest: string)

  // ---------- the reader ----------

  function SkipSpace(s: string): (r: string)
    ensures |r| <= |s|
  {
    if s != [] && s[0] in {' ', '\n', '\r', '\t'} then SkipSpace(s[1..]) else s
  }

  /** Where the literal ends whose opening quote has been read. */
  function Closing(s: string): (r: Option<nat>)
    ensures r.Some? ==> r.value < |s|
    decreases |s|
  {
    if s == [] then None
    else if s[0] == '"' then Some(0)
    else
      var n := if s[0] == '\\' && |s| > 1 then 2 else 1;
      match Closing(s[n..])
      case Some(k) => Some(n + k)
      case None => None
  }

  function ReadString(s: string): (r: Option<Parsed<string>>)
    ensures r.Some? ==> |r.value.rest| < |s|
  {
    if s == [] || s[0] != '"' then None
    else
      match Closing(s[1..])
      case None => None
      case Some(k) =>
        match Unescape(s[1..][..k])
        case None => None
        case Some(t) => Some(Parsed(t, s[1..][k + 1..]))
  }

  function Digits(s: string): (n: nat)
    ensures n <= |s|
  {
    if s != [] && '0' <= s[0] <= '9' then 1 + Digits(s[1..]) else 0
  }

  predicate AllDigits(s: string) {
    forall c :: c in s ==> '0' <= c <= '9'
  }

  function Value(digits: string): int {
    if digits == [] then 0
    else 10 * Value(digits[..|digits| - 1]) + (Last(digits) as int - '0' as int)
  }

  /** Digits, without a leading zero. */
  function ReadNat(s: string): (r: Option<Parsed<int>>)
    ensures r.Some? ==> |r.value.rest| < |s|
  {
    var k := Digits(s);
    if k == 0 || (k > 1 && s[0] == '0') then None else Some(Parsed(Value(s[..k]), s[k..]))
  }

  function ReadInt(s: string): (r: Option<Parsed<Json>>)
    ensures r.Some? ==> |r.value.rest| < |s|
  {
    var minus := s != [] && s[0] == '-';
    match ReadNat(if minus then s[1..] else s)
    case None => None
    case Some(p) => Some(Parsed(Num(if minus then -p.value else p.value), p.rest))
  }

  function ReadValue(s: string): (r: Option<Parsed<Json>>)
    ensures r.Some? ==> |r.value.rest| < |s|
    decreases |s|
  {
    if s == [] then None
    else if s[0] == '"' then
      match ReadString(s)
      case None => None
      case Some(p) => Some(Parsed(Str(p.value), p.rest))
    else if s[0] == '{' then
      var t := SkipSpace(s[1..]);
      if t != [] && t[0] == '}' then Some(Parsed(Obj([]), t[1..]))
      else
        match ReadMembers(t)
        case None => None
        case Some(p) => Some(Parsed(Obj(p.value), p.rest))
    else if "true" <= s then Some(Parsed(Flag(true), s[4..]))
    else if "false" <= s then Some(Parsed(Flag(false), s[5..]))
    else ReadInt(s)
  }

  /** The members of an object from a key on, with its closing brace. */
  function ReadMembers(s: string): (r: Option<Parsed<seq<(string, Json)>>>)
    ensures r.Some? ==> |r.value.rest| < |s|
    decreases |s|
  {
    match ReadMember(s)
    case None => None
    case Some(p) =>
      var t := SkipSpace(p.rest);
      if t != [] && t[0] == '}' then Some(Parsed([p.value], t[1..]))
      else if t == [] || t[0] != ',' then None
      else
        match ReadMembers(SkipSpace(t[1..]))
        case None => None
        case Some(more) => Some(Parsed([p.value] + more.value, more.rest))
  }

  function ReadMember(s: string): (r: Option<Parsed<(string, Json)>>)
    ensures r.Some? ==> |r.value.rest| < |s|
    decreases |s|, 0
  {
    match ReadString(s)
    case None => None
    case Some(key) =>
      var t := SkipSpace(key.rest);
      if t == [] || t[0] != ':' then None
      else
        match ReadValue(SkipSpace(t[1..]))
        case None => None
        case Some(v) => Some(Parsed((key.value, v.value), v.rest))
  }

  /** A text that is one value. */
  function ReadDocument(s: string): Option<Json> {
    match ReadValue(SkipSpace(s))
    case None => None
    case Some(p) => if SkipSpace(p.rest) == "" then Some(p.value) else None
  }

  // ---------- reading what was printed ----------

  /** Where a value may end. */
  predicate Ends(rest: string) {
    rest == [] || rest[0] in {',', '\n', '}'}
  }

  /** The text is read as that value, whatever follows it. */
  ghost predicate Gives(text: string, v: Json) {
    && text != [] && text[0] !in {' ', '\n', '\r', '\t', '}'}
    && forall rest :: Ends(rest) ==> ReadValue(text + rest) == Some(Parsed(v, rest))
  }

  lemma {:induction false} ClosingOf(t: string, rest: string)
    requires LiteralTail(t)
    ensures Closing(t + rest) == Some(|t| - 1)
    decreases |t|
  {
    var s := t + rest;
    if t[0] == '"' {
    } else if t[0] == '\\' {
      assert s[2..] == t[2..] + rest;
      ClosingOf(t[2..], rest);
    } else {
      assert s[1..] == t[1..] + rest;
      ClosingOf(t[1..], rest);
    }
  }

  lemma StringRead(v: string, rest: string)
    ensures ReadString(JsonQuote(v) + rest) == Some(Parsed(v, rest))
  {
    var t := QuoteBody(v) + ['"'];
    var s := JsonQuote(v) + rest;
    hide Closing, Unescape, QuoteBody;
    QuoteIsTail(v);
    ClosingOf(t, rest);
    UnescapeQuoted(v);
    assert s[1..] == t + rest;
    assert (t + rest)[..|t| - 1] == QuoteBody(v) && (t + rest)[|t|..] == rest;
  }

  lemma StringGives(v: string)
    ensures Gives(JsonQuote(v), Str(v))
  {
    forall rest | Ends(rest) ensures ReadValue(JsonQuote(v) + rest) == Some(Parsed(Str(v), rest)) {
      StringRead(v, rest);
      hide ReadString;
    }
  }

  lemma FlagGives(b: bool)
    ensures Gives(BoolText(b), Flag(b))
  {
    forall rest | Ends(rest) ensures ReadValue(BoolText(b) + rest) == Some(Parsed(Flag(b), rest)) {
      assert (BoolText(b) + rest)[|BoolText(b)|..] == rest;
    }
  }

  lemma {:induction false} DecimalRead(n: nat)
    ensures Decimal(n) != [] && (n >= 10 ==> Decimal(n)[0] != '0')
    ensures AllDigits(Decimal(n))
    ensures Value(Decimal(n)) == n
    decreases n
  {
    if n >= 10 {
      DecimalRead(n / 10);
      if n < 100 {
        assert Decimal(n / 10) == [('0' as int + n / 10) as char];
      }
      var d := Decimal(n);
      assert d[..|d| - 1] == Decimal(n / 10);
    } else {
      assert Decimal(n)[..0] == "";
    }
  }

  lemma {:induction false} DigitsOf(d: string, rest: string)
    requires AllDigits(d) && Ends(rest)
    ensures Digits(d + rest) == |d|
  {
    if d == [] {
      assert d + rest == rest;
    } else {
      assert d[0] in d && (d + rest)[1..] == d[1..] + rest;
      assert forall c :: c in d[1..] ==> c in d;
      DigitsOf(d[1..], rest);
    }
  }

  lemma NatRead(n: nat, rest: string)
    requires Ends(rest)
    ensures ReadNat(Decimal(n) + rest) == Some(Parsed(n as int, rest))
    ensures Decimal(n) != [] && '0' <= Decimal(n)[0] <= '9'
  {
    var d := Decimal(n);
    DecimalRead(n);
    if n < 10 {
      assert |d| == 1;
    }
    hide Decimal, Value, Digits;
    DigitsOf(d, rest);
    assert (d + rest)[..|d|] == d && (d + rest)[|d|..] == rest;
  }

  lemma IntRead(n: int, rest: string)
    requires Ends(rest)
    ensures ReadInt(IntText(n) + rest) == Some(Parsed(Num(n), rest))
    ensures var t := IntText(n); t != [] && (t[0] == '-' || '0' <= t[0] <= '9')
  {
    hide ReadNat, Decimal;
    NatRead(if n < 0 then -n else n, rest);
    if n < 0 {
      assert (IntText(n) + rest)[1..] == Decimal(-n) + rest;
    }
  }

  lemma ValueIsInt(s: string)
    requires s != [] && (s[0] == '-' || '0' <= s[0] <= '9')
    ensures ReadValue(s) == ReadInt(s)
  {
    hide ReadInt, ReadString, ReadMembers, SkipSpace;
  }

  lemma IntGives(n: int)
    ensures Gives(IntText(n), Num(n))
  {
    hide IntText, ReadInt, ReadValue;
    IntRead(n, "");
    forall rest | Ends(rest) ensures ReadValue(IntText(n) + rest) == Some(Parsed(Num(n), rest)) {
      IntRead(n, rest);
      ValueIsInt(IntText(n) + rest);
    }
  }

  /** The letters of the printed keys, which are quoted as they are. */
  predicate KeyText(k: string) {
    forall c :: c in k ==> 'a' <= c <= 'z' || c == '_'
  }

  lemma {:induction false} KeyIsQuoted(k: string)
    requires KeyText(k)
    ensures QuoteBody(k) == k
  {
    if k != [] {
      assert k[0] in k && forall c :: c in k[1..] ==> c in k;
      LetterIsKept(k[0]);
      hide Escape;
      KeyIsQuoted(k[1..]);
      assert k == [k[0]] + k[1..];
    }
  }

  lemma LetterIsKept(c: char)
    requires 'a' <= c <= 'z' || c == '_'
    ensures Escape(c) == [c]
  {}

  lemma SpaceSkipped(text: string)
    requires text != [] && text[0] !in {' ', '\n', '\r', '\t'}
    ensures SkipSpace(text) == text && SkipSpace(" " + text) == text
  {
    assert (" " + text)[1..] == text;
  }

  lemma MemberParts(s: string, key: string, value: string, v: Json, rest: string)
    requires ReadString(s) == Some(Parsed(key, ": " + value))
    requires value != [] && value[0] !in {' ', '\n', '\r', '\t'} && ReadValue(value) == Some(Parsed(v, rest))
    ensures ReadMember(s) == Some(Parsed((key, v), rest))
  {
    hide ReadString, ReadValue, SkipSpace;
    var after := ": " + value;
    assert after[1..] == " " + value;
    SpaceSkipped(after);
    SpaceSkipped(value);
  }

  lemma MemberRead(key: string, text: string, v: Json, rest: string)
    requires KeyText(key) && Gives(text, v) && Ends(rest)
    ensures ReadMember(Member(key, text) + rest) == Some(Parsed((key, v), rest))
  {
    KeyIsQuoted(key);
    hide QuoteBody, ReadString, ReadValue, ReadMember, SkipSpace;
    assert Member(key, text) + rest == JsonQuote(key) + (": " + (text + rest));
    hide JsonQuote, Member;
    StringRead(key, ": " + (text + rest));
    MemberParts(Member(key, text) + rest, key, text + rest, v, rest);
  }

  /** The keys and values of printed members. */
  ghost predicate GivesAll(members: seq<(string, string)>, vs: seq<(string, Json)>) {
    && |members| == |vs|
    && forall i :: 0 <= i < |vs| ==>
         members[i].0 == vs[i].0 && KeyText(vs[i].0) && Gives(members[i].1, vs[i].1)
  }

  /** One member and what comes after it. */
  lemma MembersStep(key: string, text: string, v: Json, after: string)
    requires KeyText(key) && Gives(text, v) && Ends(after)
    ensures var r, t := ReadMembers(Member(key, text) + after), SkipSpace(after);
      && (t != [] && t[0] == '}' ==> r == Some(Parsed([(key, v)], t[1..])))
      && (t != [] && t[0] == ',' && ReadMembers(SkipSpace(t[1..])).Some? ==>
            var more := ReadMembers(SkipSpace(t[1..])).value;
            r == Some(Parsed([(key, v)] + more.value, more.rest)))
  {
    MemberRead(key, text, v, after);
    hide ReadMember, Gives, KeyText;
  }

  predicate Blank(s: string) {
    forall c :: c in s ==> c == ' ' || c == '\n'
  }

  lemma {:induction false} BlankFront(a: string, text: string)
    requires Blank(a)
    ensures SkipSpace(a + text) == SkipSpace(text)
  {
    if a == [] {
      assert a + text == text;
    } else {
      assert a[0] in a && (a + text)[1..] == a[1..] + text;
      assert forall c :: c in a[1..] ==> c in a;
      BlankFront(a[1..], text);
    }
  }

  lemma LastMember(key: string, text: string, v: Json, gap: string, rest: string)
    requires KeyText(key) && Gives(text, v) && Blank(gap) && Ends(gap) && gap != []
    ensures ReadMembers(Member(key, text) + (gap + ("}" + rest))) == Some(Parsed([(key, v)], rest))
  {
    var end := "}" + rest;
    BlankFront(gap, end);
    assert end[1..] == rest && SkipSpace(end) == end;
    MembersStep(key, text, v, gap + end);
  }

  lemma OtherMember(key: string, text: string, v: Json, gap: string, next: string,
                    more: seq<(string, Json)>, rest: string)
    requires KeyText(key) && Gives(text, v) && Blank(gap)
    requires ReadMembers(SkipSpace(next)) == Some(Parsed(more, rest))
    ensures ReadMembers(Member(key, text) + ("," + (gap + next))) == Some(Parsed([(key, v)] + more, rest))
  {
    hide ReadMembers, Gives, KeyText, Member;
    var after := "," + (gap + next);
    BlankFront(gap, next);
    assert after[1..] == gap + next && SkipSpace(after) == after;
    hide SkipSpace;
    MembersStep(key, text, v, after);
  }

  lemma GivesTail(members: seq<(string, string)>, vs: seq<(string, Json)>)
    requires GivesAll(members, vs) && members != []
    ensures GivesAll(members[1..], vs[1..]) && |vs| == |members| && vs == [(members[0].0, vs[0].1)] + vs[1..]
    ensures KeyText(members[0].0) && Gives(members[0].1, vs[0].1)
  {
    hide KeyText, Gives;
  }

  lemma Regroup(first: string, gap: string, more: string, end: string)
    ensures first + ("," + gap) + more + end == first + ("," + (gap + (more + end)))
    ensures first + "" + "" + end == first + end
  {}

  lemma MembersCons(members: seq<(string, string)>, end: string)
    requires members != []
    ensures var first, more := Member(members[0].0, members[0].1), members[1..];
      MembersText(members) + end
        == first + (if more == [] then end else "," + ("\n    " + (MembersText(more) + end)))
    ensures (MembersText(members) + end)[0] == '"'
  {
    var first, more := Member(members[0].0, members[0].1), MembersText(members[1..]);
    assert first[0] == '"';
    hide Member;
    assert ",\n    " == "," + "\n    ";
    Regroup(first, "\n    ", more, end);
  }

  /** The members of a nested object. */
  lemma {:induction false} MembersRead(members: seq<(string, string)>, vs: seq<(string, Json)>, rest: string)
    requires GivesAll(members, vs) && members != []
    ensures var s := MembersText(members) + ("\n  " + ("}" + rest));
      SkipSpace(s) == s && ReadMembers(s) == Some(Parsed(vs, rest))
    decreases |members|
  {
    var end, more := "\n  " + ("}" + rest), members[1..];
    MembersCons(members, end);
    GivesTail(members, vs);
    hide MembersText, GivesAll, KeyText, Gives, ReadMembers, Member;
    var key, text, v := members[0].0, members[0].1, vs[0].1;
    if more == [] {
      assert vs == [(key, v)];
      LastMember(key, text, v, "\n  ", rest);
    } else {
      MembersRead(more, vs[1..], rest);
      OtherMember(key, text, v, "\n    ", MembersText(more) + end, vs[1..], rest);
    }
  }

  lemma NotClosed(s: string)
    requires ReadMembers(s).Some?
    ensures s != [] && s[0] == '"'
  {
    hide ReadValue;
  }

  lemma BraceRead(text: string, vs: seq<(string, Json)>, rest: string)
    requires ReadMembers(SkipSpace(text)) == Some(Parsed(vs, rest))
    ensures ReadValue("{" + text) == Some(Parsed(Obj(vs), rest))
  {
    NotClosed(SkipSpace(text));
    hide SkipSpace, ReadMembers;
    assert ("{" + text)[1..] == text;
  }

  lemma ObjectShape(all: string, rest: string)
    ensures "{\n    " + all + "\n  }" + rest == "{" + ("\n    " + (all + ("\n  " + ("}" + rest))))
  {
    assert "{\n    " == "{" + "\n    " && "\n  }" == "\n  " + "}";
  }

  lemma ObjectRead(members: seq<(string, string)>, vs: seq<(string, Json)>, rest: string)
    requires GivesAll(members, vs) && members != []
    ensures ReadValue(ObjectText(members) + rest) == Some(Parsed(Obj(vs), rest))
  {
    hide GivesAll, ReadMembers, ReadValue, MembersText, SkipSpace;
    var inner := MembersText(members) + ("\n  " + ("}" + rest));
    ObjectShape(MembersText(members), rest);
    assert ObjectText(members) + rest == "{" + ("\n    " + inner);
    hide ObjectText;
    MembersRead(members, vs, rest);
    BlankFront("\n    ", inner);
    BraceRead("\n    " + inner, vs, rest);
  }

  lemma ObjectGives(members: seq<(string, string)>, vs: seq<(string, Json)>)
    requires GivesAll(members, vs) && members != []
    ensures Gives(ObjectText(members), Obj(vs))
  {
    hide GivesAll, ReadValue, MembersText;
    forall rest | Ends(rest) ensures ReadValue(ObjectText(members) + rest) == Some(Parsed(Obj(vs), rest)) {
      ObjectRead(members, vs, rest);
    }
  }

  // ---------- the document ----------

  ghost predicate GivesFields(fields: seq<Field>, vs: seq<(string, Json)>) {
    && |fields| == |vs|
    && forall i :: 0 <= i < |vs| ==>
         fields[i].key == vs[i].0 && KeyText(vs[i].0) && Gives(fields[i].value, vs[i].1)
  }

  lemma FieldsTail(fields: seq<Field>, vs: seq<(string, Json)>)
    requires GivesFields(fields, vs) && fields != []
    ensures GivesFields(fields[1..], vs[1..]) && |vs| == |fields| && vs == [(fields[0].key, vs[0].1)] + vs[1..]
    ensures KeyText(fields[0].key) && Gives(fields[0].value, vs[0].1)
  {
    hide KeyText, Gives;
  }

  lemma {:induction false} BlankNotes(notes: seq<string>)
    ensures Blank(NoteLines(notes, false))
  {
    if notes != [] {
      BlankNotes(notes[1..]);
    }
  }

  lemma FieldSkipped(f: Field, after: string)
    ensures SkipSpace(FieldText(f, false) + after) == Member(f.key, f.value) + after
  {
    var blank, text := NoteLines(f.notes, false) + "  ", Member(f.key, f.value) + after;
    BlankNotes(f.notes);
    hide NoteLines;
    assert text[0] == '"' && SkipSpace(text) == text;
    assert FieldText(f, false) + after == blank + text;
    BlankFront(blank, text);
  }

  lemma FieldsCons(fields: seq<Field>, end: string)
    requires fields != []
    ensures var first, more := FieldText(fields[0], false), fields[1..];
      FieldsText(fields, false) + end
        == first + (if more == [] then end else "," + ("\n\n" + (FieldsText(more, false) + end)))
  {
    hide FieldText;
    assert ",\n\n" == "," + "\n\n";
    Regroup(FieldText(fields[0], false), "\n\n", FieldsText(fields[1..], false), end);
  }

  lemma {:induction false} FieldsRead(fields: seq<Field>, vs: seq<(string, Json)>, rest: string)
    requires GivesFields(fields, vs) && fields != []
    ensures ReadMembers(SkipSpace(FieldsText(fields, false) + ("\n" + ("}" + rest)))) == Some(Parsed(vs, rest))
    decreases |fields|
  {
    var end, more := "\n" + ("}" + rest), fields[1..];
    FieldsCons(fields, end);
    FieldsTail(fields, vs);
    hide FieldsText, FieldText, GivesFields, KeyText, Gives, ReadMembers, Member, SkipSpace;
    var f, v := fields[0], vs[0].1;
    if more == [] {
      assert vs == [(f.key, v)];
      FieldSkipped(f, end);
      LastMember(f.key, f.value, v, "\n", rest);
    } else {
      var next := FieldsText(more, false) + end;
      FieldsRead(more, vs[1..], rest);
      FieldSkipped(f, "," + ("\n\n" + next));
      OtherMember(f.key, f.value, v, "\n\n", next, vs[1..], rest);
    }
  }

  lemma DocumentShape(all: string)
    ensures "{\n" + all + "\n}\n" + "\n" == "{" + ("\n" + (all + ("\n" + ("}" + "\n\n"))))
  {
    assert "{\n" == "{" + "\n" && "\n}\n" + "\n" == "\n" + ("}" + "\n\n");
  }

  lemma NoSpace()
    ensures SkipSpace("\n\n") == ""
  {
    BlankFront("\n\n", "");
    assert "\n\n" + "" == "\n\n";
  }

  lemma DocumentRead(fields: seq<Field>, vs: seq<(string, Json)>)
    requires GivesFields(fields, vs) && fields != []
    ensures ReadDocument(Document(fields, false) + "\n") == Some(Obj(vs))
  {
    var inner := FieldsText(fields, false) + ("\n" + ("}" + "\n\n"));
    var all := "{" + ("\n" + inner);
    assert SkipSpace(all) == all;
    hide GivesFields, ReadMembers, ReadValue, FieldsText, SkipSpace;
    FieldsRead(fields, vs, "\n\n");
    DocumentShape(FieldsText(fields, false));
    BlankFront("\n", inner);
    BraceRead("\n" + inner, vs, "\n\n");
    NoSpace();
  }

  // ---------- what the config file says ----------

  function When(shown: bool, key: string, v: Json): seq<(string, Json)> {
    if shown then [(key, v)] else []
  }

  function ServerSettings(enabled: bool, url: string): seq<(string, Json)> {
    [("enabled", Flag(enabled)), ("url", Str(TrimSpace(url)))]
  }

  function QBittorrentSettings(q: QBittorrent): seq<(string, Json)> {
    ServerSettings(q.enabled, q.url) + [("username", Str(q.username))]
    + When(q.category != "", "category", Str(q.category)) + When(q.skipTLSVerify, "skip_tls_verify", Flag(true))
  }

  function TransmissionSettings(t: Transmission): seq<(string, Json)> {
    ServerSettings(t.enabled, t.url)
    + When(t.username != "", "username", Str(t.username)) + When(t.skipTLSVerify, "skip_tls_verify", Flag(true))
  }

  function SwitchSettings(cfg: File): seq<(string, Json)> {
    [("streaming_hash", Flag(cfg.streamingHash)),
     ("debug", Flag(cfg.debug == Some(true))),
     ("telemetry_enabled", Flag(cfg.telemetryEnabled != Some(false)))]
  }

  function NetworkSettings(cfg: File): seq<(string, Json)> {
    [("registry_ingest_url", Str(if TrimSpace(cfg.registryIngestURL) == "" then "https://api.hali.network/ingest"
                                 else TrimSpace(cfg.registryIngestURL))),
     ("lan_hmac_enabled", Flag(cfg.lanHMACEnabled == Some(true))),
     ("lan_hmac_shared_secret", Str(TrimSpace(cfg.lanHMACSharedSecret)))]
  }

  function DirectorySettings(cfg: File, modelsDir: string): seq<(string, Json)> {
    [("models_dir", Str(TrimSpace(if TrimSpace(cfg.modelsDir) == "" then modelsDir else cfg.modelsDir))),
     ("lmstudio_models_dir", Str(TrimSpace(cfg.lmStudioModels))),
     ("ollama_models_dir", Str(TrimSpace(cfg.ollamaModelsDir)))]
  }

  function LimitSettings(cfg: File): seq<(string, Json)> {
    [("max_upload_mbps", Num(cfg.maxUploadMBps)),
     ("max_download_mbps", Num(cfg.maxDownloadMBps)),
     ("pull_concurrency", Num(if cfg.pullConcurrency >= 1 then cfg.pullConcurrency else 1))]
  }

  function TimeoutSettings(cfg: File): seq<(string, Json)> {
    When(cfg.torrentMetaTimeoutMs > 0, "torrent_meta_timeout_ms", Num(cfg.torrentMetaTimeoutMs))
    + When(cfg.ipcDeadlineMs > 0, "ipc_deadline_ms", Num(cfg.ipcDeadlineMs))
    + When(cfg.launchTimeoutMs > 0, "launch_timeout_ms", Num(cfg.launchTimeoutMs))
  }

  /** A client without a URL is not written. */
  function QBittorrentSetting(cfg: File): seq<(string, Json)> {
    match cfg.qBittorrent
    case Some(q) => When(TrimSpace(q.url) != "", "qbittorrent", Obj(QBittorrentSettings(q)))
    case None => []
  }

  function TransmissionSetting(cfg: File): seq<(string, Json)> {
    match cfg.transmission
    case Some(t) => When(TrimSpace(t.url) != "", "transmission", Obj(TransmissionSettings(t)))
    case None => []
  }

  function ClientSettings(cfg: File): seq<(string, Json)> {
    QBittorrentSetting(cfg) + TransmissionSetting(cfg)
  }

  /** The keys of the file and what each says. */
  function Settings(cfg: File, modelsDir: string): seq<(string, Json)> {
    SwitchSettings(cfg) + NetworkSettings(cfg) + DirectorySettings(cfg, modelsDir) + LimitSettings(cfg)
    + TimeoutSettings(cfg) + ClientSettings(cfg)
  }

  lemma One(notes: Notes, key: string, value: string, v: Json)
    requires KeyText(key) && Gives(value, v)
    ensures GivesFields(Entry(notes, key, value), [(key, v)])
  {
    hide KeyText, Gives;
  }

  lemma Both(a: seq<Field>, vs: seq<(string, Json)>, b: seq<Field>, ws: seq<(string, Json)>)
    requires GivesFields(a, vs) && GivesFields(b, ws)
    ensures GivesFields(a + b, vs + ws)
  {
    hide KeyText, Gives;
  }

  lemma Three(notes: Notes, k1: string, t1: string, v1: Json, k2: string, t2: string, v2: Json,
              k3: string, t3: string, v3: Json)
    requires KeyText(k1) && KeyText(k2) && KeyText(k3) && Gives(t1, v1) && Gives(t2, v2) && Gives(t3, v3)
    ensures GivesFields(Entry(notes, k1, t1) + Entry(notes, k2, t2) + Entry(notes, k3, t3),
                        [(k1, v1), (k2, v2), (k3, v3)])
  {
    One(notes, k1, t1, v1);
    One(notes, k2, t2, v2);
    One(notes, k3, t3, v3);
    hide KeyText, Gives, GivesFields, Entry;
    Both(Entry(notes, k1, t1), [(k1, v1)], Entry(notes, k2, t2), [(k2, v2)]);
    Both(Entry(notes, k1, t1) + Entry(notes, k2, t2), [(k1, v1)] + [(k2, v2)], Entry(notes, k3, t3), [(k3, v3)]);
    assert [(k1, v1)] + [(k2, v2)] + [(k3, v3)] == [(k1, v1), (k2, v2), (k3, v3)];
  }

  lemma GiveSwitches(cfg: File, modelsDir: string, notes: Notes)
    ensures GivesFields(Basics(WithDefaults(cfg, modelsDir), notes), SwitchSettings(cfg))
  {
    var f := WithDefaults(cfg, modelsDir);
    FlagGives(f.streamingHash);
    FlagGives(OrDefault(f.debug, false));
    FlagGives(OrDefault(f.telemetryEnabled, true));
    hide Gives, GivesFields, Entry, BoolText, TrimSpace;
    Three(notes, "streaming_hash", BoolText(f.streamingHash), Flag(f.streamingHash),
          "debug", BoolText(OrDefault(f.debug, false)), Flag(OrDefault(f.debug, false)),
          "telemetry_enabled", BoolText(OrDefault(f.telemetryEnabled, true)),
          Flag(OrDefault(f.telemetryEnabled, true)));
  }

  lemma WordIsTrimmed(s: string)
    requires s != [] && 'a' <= s[0] <= 'z' && 'a' <= Last(s) <= 'z'
    ensures TrimSpace(s) == s
  {}

  lemma DefaultURLIsTrimmed()
    ensures TrimSpace(DEFAULT_INGEST_URL) == DEFAULT_INGEST_URL && TrimSpace("") == ""
  {
    WordIsTrimmed(DEFAULT_INGEST_URL);
    assert TrimLeft("") == "" && TrimRight("") == "";
    hide TrimLeft, TrimRight;
  }

  lemma GiveNetwork(cfg: File, modelsDir: string, notes: Notes)
    ensures GivesFields(Network(WithDefaults(cfg, modelsDir), notes), NetworkSettings(cfg))
  {
    var f := WithDefaults(cfg, modelsDir);
    DefaultURLIsTrimmed();
    FlagGives(OrDefault(f.lanHMACEnabled, false));
    hide TrimSpace, Gives, GivesFields, Entry, BoolText, JsonQuote;
    StringGives(TrimSpace(f.registryIngestURL));
    StringGives(TrimSpace(f.lanHMACSharedSecret));
    Three(notes, "registry_ingest_url", JsonQuote(TrimSpace(f.registryIngestURL)),
          Str(TrimSpace(f.registryIngestURL)),
          "lan_hmac_enabled", BoolText(OrDefault(f.lanHMACEnabled, false)), Flag(OrDefault(f.lanHMACEnabled, false)),
          "lan_hmac_shared_secret", JsonQuote(TrimSpace(f.lanHMACSharedSecret)),
          Str(TrimSpace(f.lanHMACSharedSecret)));
  }

  lemma GiveDirectories(cfg: File, modelsDir: string, notes: Notes)
    ensures GivesFields(Directories(WithDefaults(cfg, modelsDir), notes), DirectorySettings(cfg, modelsDir))
  {
    hide TrimSpace, Gives, GivesFields, Entry, JsonQuote;
    var f := WithDefaults(cfg, modelsDir);
    StringGives(TrimSpace(f.modelsDir));
    StringGives(TrimSpace(f.lmStudioModels));
    StringGives(TrimSpace(f.ollamaModelsDir));
    Three(notes, "models_dir", JsonQuote(TrimSpace(f.modelsDir)), Str(TrimSpace(f.modelsDir)),
          "lmstudio_models_dir", JsonQuote(TrimSpace(f.lmStudioModels)), Str(TrimSpace(f.lmStudioModels)),
          "ollama_models_dir", JsonQuote(TrimSpace(f.ollamaModelsDir)), Str(TrimSpace(f.ollamaModelsDir)));
  }

  lemma GiveLimits(cfg: File, modelsDir: string, notes: Notes)
    ensures GivesFields(Limits(WithDefaults(cfg, modelsDir), notes), LimitSettings(cfg))
  {
    hide TrimSpace, Gives, GivesFields, Entry, IntText;
    var f := WithDefaults(cfg, modelsDir);
    IntGives(f.maxUploadMBps);
    IntGives(f.maxDownloadMBps);
    IntGives(f.pullConcurrency);
    Three(notes, "max_upload_mbps", IntText(f.maxUploadMBps), Num(f.maxUploadMBps),
          "max_download_mbps", IntText(f.maxDownloadMBps), Num(f.maxDownloadMBps),
          "pull_concurrency", IntText(f.pullConcurrency), Num(f.pullConcurrency));
  }

  lemma GiveNumberIf(notes: Notes, key: string, n: int)
    requires KeyText(key)
    ensures GivesFields(if n > 0 then Entry(notes, key, IntText(n)) else [], When(n > 0, key, Num(n)))
  {
    hide KeyText, Gives, Entry, IntText;
    IntGives(n);
    One(notes, key, IntText(n), Num(n));
  }

  lemma GiveTimeouts(cfg: File, modelsDir: string, notes: Notes)
    ensures GivesFields(Timeouts(WithDefaults(cfg, modelsDir), notes), TimeoutSettings(cfg))
  {
    hide TrimSpace, GivesFields, Entry, IntText, When;
    GiveNumberIf(notes, "torrent_meta_timeout_ms", cfg.torrentMetaTimeoutMs);
    GiveNumberIf(notes, "ipc_deadline_ms", cfg.ipcDeadlineMs);
    GiveNumberIf(notes, "launch_timeout_ms", cfg.launchTimeoutMs);
    var a, va := if cfg.torrentMetaTimeoutMs > 0
                 then Entry(notes, "torrent_meta_timeout_ms", IntText(cfg.torrentMetaTimeoutMs)) else [],
                 When(cfg.torrentMetaTimeoutMs > 0, "torrent_meta_timeout_ms", Num(cfg.torrentMetaTimeoutMs));
    var b, vb := if cfg.ipcDeadlineMs > 0 then Entry(notes, "ipc_deadline_ms", IntText(cfg.ipcDeadlineMs)) else [],
                 When(cfg.ipcDeadlineMs > 0, "ipc_deadline_ms", Num(cfg.ipcDeadlineMs));
    var c, vc := if cfg.launchTimeoutMs > 0
                 then Entry(notes, "launch_timeout_ms", IntText(cfg.launchTimeoutMs)) else [],
                 When(cfg.launchTimeoutMs > 0, "launch_timeout_ms", Num(cfg.launchTimeoutMs));
    Both(a, va, b, vb);
    Both(a + b, va + vb, c, vc);
  }

  lemma OneMember(key: string, text: string, v: Json)
    requires KeyText(key) && Gives(text, v)
    ensures GivesAll([(key, text)], [(key, v)])
  {
    hide KeyText, Gives;
  }

  lemma OneMemberIf(shown: bool, key: string, text: string, v: Json)
    requires KeyText(key) && Gives(text, v)
    ensures GivesAll(Optional(shown, key, text), When(shown, key, v))
  {
    hide KeyText, Gives;
  }

  lemma BothMembers(a: seq<(string, string)>, vs: seq<(string, Json)>, b: seq<(string, string)>,
                    ws: seq<(string, Json)>)
    requires GivesAll(a, vs) && GivesAll(b, ws)
    ensures GivesAll(a + b, vs + ws)
  {
    hide KeyText, Gives;
  }

  lemma GiveServer(enabled: bool, url: string)
    ensures GivesAll(ServerMembers(enabled, url), ServerSettings(enabled, url))
  {
    FlagGives(enabled);
    hide Gives, GivesAll, BoolText, JsonQuote, TrimSpace;
    StringGives(TrimSpace(url));
    OneMember("enabled", BoolText(enabled), Flag(enabled));
    OneMember("url", JsonQuote(TrimSpace(url)), Str(TrimSpace(url)));
    BothMembers([("enabled", BoolText(enabled))], [("enabled", Flag(enabled))],
                [("url", JsonQuote(TrimSpace(url)))], [("url", Str(TrimSpace(url)))]);
    assert [("enabled", Flag(enabled))] + [("url", Str(TrimSpace(url)))] == ServerSettings(enabled, url);
  }

  lemma GiveQBittorrent(q: QBittorrent)
    ensures GivesAll(QBittorrentMembers(q), QBittorrentSettings(q))
  {
    FlagGives(true);
    hide Gives, GivesAll, BoolText, JsonQuote, TrimSpace, ServerMembers, ServerSettings;
    GiveServer(q.enabled, q.url);
    StringGives(q.username);
    StringGives(q.category);
    OneMemberIf(true, "username", JsonQuote(q.username), Str(q.username));
    OneMemberIf(q.category != "", "category", JsonQuote(q.category), Str(q.category));
    OneMemberIf(q.skipTLSVerify, "skip_tls_verify", BoolText(true), Flag(true));
    assert When(true, "username", Str(q.username)) == [("username", Str(q.username))];
    hide Optional, When;
    var a, va := ServerMembers(q.enabled, q.url), ServerSettings(q.enabled, q.url);
    var b, vb := Optional(true, "username", JsonQuote(q.username)), When(true, "username", Str(q.username));
    var c, vc := Optional(q.category != "", "category", JsonQuote(q.category)),
                 When(q.category != "", "category", Str(q.category));
    BothMembers(a, va, b, vb);
    BothMembers(a + b, va + vb, c, vc);
    BothMembers(a + b + c, va + vb + vc, Optional(q.skipTLSVerify, "skip_tls_verify", BoolText(true)),
                When(q.skipTLSVerify, "skip_tls_verify", Flag(true)));
  }

  lemma GiveTransmission(t: Transmission)
    ensures GivesAll(TransmissionMembers(t), TransmissionSettings(t))
  {
    FlagGives(true);
    hide Gives, GivesAll, BoolText, JsonQuote, TrimSpace, ServerMembers, ServerSettings;
    GiveServer(t.enabled, t.url);
    StringGives(t.username);
    OneMemberIf(t.username != "", "username", JsonQuote(t.username), Str(t.username));
    OneMemberIf(t.skipTLSVerify, "skip_tls_verify", BoolText(true), Flag(true));
    hide Optional, When;
    var a, va := ServerMembers(t.enabled, t.url), ServerSettings(t.enabled, t.url);
    var b, vb := Optional(t.username != "", "username", JsonQuote(t.username)),
                 When(t.username != "", "username", Str(t.username));
    BothMembers(a, va, b, vb);
    BothMembers(a + b, va + vb, Optional(t.skipTLSVerify, "skip_tls_verify", BoolText(true)),
                When(t.skipTLSVerify, "skip_tls_verify", Flag(true)));
  }

  lemma GiveObjectIf(notes: Notes, shown: bool, key: string, members: seq<(string, string)>,
                     vs: seq<(string, Json)>)
    requires KeyText(key) && GivesAll(members, vs) && members != []
    ensures GivesFields(if shown then Entry(notes, key, ObjectText(members)) else [], When(shown, key, Obj(vs)))
  {
    ObjectGives(members, vs);
    hide KeyText, Gives, GivesAll, Entry, ObjectText;
    One(notes, key, ObjectText(members), Obj(vs));
  }

  lemma GiveQBittorrentField(cfg: File, f: File, notes: Notes)
    requires f.qBittorrent == cfg.qBittorrent
    ensures GivesFields(QBittorrentField(f, notes), QBittorrentSetting(cfg))
  {
    hide TrimSpace, GivesAll, Entry, ObjectText, QBittorrentSettings, Gives;
    if cfg.qBittorrent.Some? {
      var q := cfg.qBittorrent.value;
      assert QBittorrentMembers(q) != [];
      GiveQBittorrent(q);
      hide QBittorrentMembers, GivesFields, When;
      GiveObjectIf(notes, TrimSpace(q.url) != "", "qbittorrent", QBittorrentMembers(q), QBittorrentSettings(q));
    }
  }

  lemma GiveTransmissionField(cfg: File, f: File, notes: Notes)
    requires f.transmission == cfg.transmission
    ensures GivesFields(TransmissionField(f, notes), TransmissionSetting(cfg))
  {
    hide TrimSpace, GivesAll, Entry, ObjectText, TransmissionSettings, Gives;
    if cfg.transmission.Some? {
      var t := cfg.transmission.value;
      assert TransmissionMembers(t) != [];
      GiveTransmission(t);
      hide TransmissionMembers, GivesFields, When;
      GiveObjectIf(notes, TrimSpace(t.url) != "", "transmission", TransmissionMembers(t), TransmissionSettings(t));
    }
  }

  lemma GiveClients(cfg: File, modelsDir: string, notes: Notes)
    ensures GivesFields(Clients(WithDefaults(cfg, modelsDir), notes), ClientSettings(cfg))
  {
    hide GivesFields, WithDefaults, QBittorrentField, QBittorrentSetting, TransmissionField, TransmissionSetting;
    var f := WithDefaults(cfg, modelsDir);
    DefaultsKeepClients(cfg, modelsDir);
    GiveQBittorrentField(cfg, f, notes);
    GiveTransmissionField(cfg, f, notes);
    Both(QBittorrentField(f, notes), QBittorrentSetting(cfg), TransmissionField(f, notes), TransmissionSetting(cfg));
  }

  lemma DefaultsKeepClients(cfg: File, modelsDir: string)
    ensures WithDefaults(cfg, modelsDir).qBittorrent == cfg.qBittorrent
    ensures WithDefaults(cfg, modelsDir).transmission == cfg.transmission
  {
    hide TrimSpace;
  }

  lemma GiveFields(cfg: File, modelsDir: string, notes: Notes)
    ensures GivesFields(Fields(cfg, modelsDir, notes), Settings(cfg, modelsDir))
    ensures Fields(cfg, modelsDir, notes) != []
  {
    var f := WithDefaults(cfg, modelsDir);
    assert Basics(f, notes) != [];
    hide GivesFields, Basics, Network, Directories, Limits, Timeouts, Clients, WithDefaults, SwitchSettings,
      NetworkSettings, DirectorySettings, LimitSettings, TimeoutSettings, ClientSettings;
    GiveSwitches(cfg, modelsDir, notes);
    GiveNetwork(cfg, modelsDir, notes);
    GiveDirectories(cfg, modelsDir, notes);
    GiveLimits(cfg, modelsDir, notes);
    GiveTimeouts(cfg, modelsDir, notes);
    GiveClients(cfg, modelsDir, notes);
    var a, va := Basics(f, notes) + Network(f, notes), SwitchSettings(cfg) + NetworkSettings(cfg);
    Both(Basics(f, notes), SwitchSettings(cfg), Network(f, notes), NetworkSettings(cfg));
    Both(a, va, Directories(f, notes), DirectorySettings(cfg, modelsDir));
    var b, vb := a + Directories(f, notes), va + DirectorySettings(cfg, modelsDir);
    Both(b, vb, Limits(f, notes), LimitSettings(cfg));
    Both(b + Limits(f, notes), vb + LimitSettings(cfg), Timeouts(f, notes), TimeoutSettings(cfg));
    Both(b + Limits(f, notes) + Timeouts(f, notes), vb + LimitSettings(cfg) + TimeoutSettings(cfg),
         Clients(f, notes), ClientSettings(cfg));
  }

  /** Saving a config and reading the file back, comments and all, gives every setting under its own
      key, for all configs and all comment lines. */
  lemma SavedIsRead(cfg: File, modelsDir: string, notes: Notes)
    requires OneLineNotes(notes)
    ensures ReadDocument(Strip(Normal, RenderConfigJSONC(cfg, modelsDir, notes) + "\n"))
         == Some(Obj(Settings(cfg, modelsDir)))
  {
    hide Fields, Settings, GivesFields, ReadDocument, RenderConfigJSONC, Document;
    StrippingRendered(cfg, modelsDir, notes);
    GiveFields(cfg, modelsDir, notes);
    DocumentRead(Fields(cfg, modelsDir, notes), Settings(cfg, modelsDir));
  }
}
