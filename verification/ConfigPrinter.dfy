/** renderConfigJSONC and jsonQuote of internal/config/config.go, against the comment stripper that
    reads the file back. Strings are UTF-8 bytes. */
module ConfigPrinter {
  import opened Wrappers
  import opened Text
  import opened JsonComments

  // ---------- string literals ----------

  function Escape(c: char): string {
    if c == '"' then "\\\""
    else if c == '\\' then "\\\\"
    else if c as int == 8 then "\\b"
    else if c as int == 12 then "\\f"
    else if c == '\n' then "\\n"
    else if c == '\r' then "\\r"
    else if c == '\t' then "\\t"
    else if c as int < 0x20 || c in {'<', '>', '&'} then "\\u00" + [LowerHex(c as int / 16), LowerHex(c as int % 16)]
    else [c]
  }

  /** The bytes of U+2028 or U+2029, which are escaped too. */
  predicate IsLineSeparator(s: string) {
    |s| >= 3 && s[0] as int == 0xE2 && s[1] as int == 0x80 && s[2] as int in {0xA8, 0xA9}
  }

  function QuoteBody(s: string): string
    decreases |s|
  {
    if s == [] then []
    else if IsLineSeparator(s) then
      (if s[2] as int == 0xA8 then "\\u2028" else "\\u2029") + QuoteBody(s[3..])
    else Escape(s[0]) + QuoteBody(s[1..])
  }

  function JsonQuote(v: string): string {
    ['"'] + QuoteBody(v) + ['"']
  }

  /** Reading a literal's contents back, by section 7 of RFC 8259; surrogates are not part of this
      model. */
  function Unescape(s: string): Option<string>
    decreases |s|
  {
    if s == [] then Some([])
    else if s[0] != '\\' then
      if s[0] == '"' || s[0] as int < 0x20 then None else Prepend([s[0]], Unescape(s[1..]))
    else if |s| < 2 then None
    else
      var c := s[1];
      if c == '"' || c == '\\' || c == '/' then Prepend([c], Unescape(s[2..]))
      else if c == 'b' then Prepend([8 as char], Unescape(s[2..]))
      else if c == 'f' then Prepend([12 as char], Unescape(s[2..]))
      else if c == 'n' then Prepend("\n", Unescape(s[2..]))
      else if c == 'r' then Prepend("\r", Unescape(s[2..]))
      else if c == 't' then Prepend("\t", Unescape(s[2..]))
      else if c != 'u' || |s| < 6 then None
      else
        var h := [HexValue(s[2]), HexValue(s[3]), HexValue(s[4]), HexValue(s[5])];
        if -1 in h then None
        else
          var code := ((h[0] * 16 + h[1]) * 16 + h[2]) * 16 + h[3];
          if code < 0 || code >= 0xD800 then None else Prepend(Utf8(code), Unescape(s[6..]))
  }

  function Unquote(lit: string): Option<string> {
    if |lit| < 2 || lit[0] != '"' || Last(lit) != '"' then None else Unescape(lit[1..|lit| - 1])
  }

  lemma UnescapeHex(c: char, rest: string)
    requires |Escape(c)| == 6
    ensures Unescape(Escape(c) + rest) == Prepend([c], Unescape(rest))
  {
    var s := Escape(c) + rest;
    assert s[6..] == rest;
    var hi, lo := c as int / 16, c as int % 16;
    assert s[0] == '\\' && s[1] == 'u' && s[2] == '0' && s[3] == '0' && s[4] == LowerHex(hi) && s[5] == LowerHex(lo);
    HexDigitRoundTrip(hi);
    HexDigitRoundTrip(lo);
    assert HexValue('0') == 0;
    hide Escape, LowerHex, HexValue;
  }

  lemma UnescapeOne(c: char, rest: string)
    ensures Unescape(Escape(c) + rest) == Prepend([c], Unescape(rest))
  {
    if |Escape(c)| == 6 {
      UnescapeHex(c, rest);
    } else {
      hide Utf8, HexValue;
      assert (Escape(c) + rest)[|Escape(c)|..] == rest;
    }
  }

  lemma UnescapeSeparator(last: char, rest: string)
    requires last == '8' || last == '9'
    ensures Unescape("\\u202" + [last] + rest)
         == Prepend([0xE2 as char, 0x80 as char, if last == '8' then 0xA8 as char else 0xA9 as char], Unescape(rest))
  {
    var s := "\\u202" + [last] + rest;
    assert s[6..] == rest;
    assert s[2] == '2' && s[3] == '0' && s[4] == '2' && s[5] == last;
  }

  lemma SeparatorStep(v: string)
    requires IsLineSeparator(v)
    ensures var last := if v[2] as int == 0xA8 then '8' else '9';
      && QuoteBody(v) == "\\u202" + [last] + QuoteBody(v[3..])
      && v == [0xE2 as char, 0x80 as char, if last == '8' then 0xA8 as char else 0xA9 as char] + v[3..]
  {
    assert v == [v[0], v[1], v[2]] + v[3..];
    assert "\\u2028" == "\\u202" + ['8'] && "\\u2029" == "\\u202" + ['9'];
    assert v[0] == 0xE2 as char && v[1] == 0x80 as char && (v[2] == 0xA8 as char || v[2] == 0xA9 as char);
    hide Escape;
  }

  lemma OtherStep(v: string)
    requires v != [] && !IsLineSeparator(v)
    ensures QuoteBody(v) == Escape(v[0]) + QuoteBody(v[1..]) && v == [v[0]] + v[1..]
  {
    hide Escape, IsLineSeparator;
  }

  /** Reading back what was quoted gives the string, for every byte string. */
  lemma {:induction false} UnescapeQuoted(v: string)
    ensures Unescape(QuoteBody(v)) == Some(v)
    decreases |v|
  {
    if v == [] {
      assert QuoteBody(v) == [];
    } else {
      hide Unescape, Escape, QuoteBody;
      if IsLineSeparator(v) {
        SeparatorStep(v);
        UnescapeQuoted(v[3..]);
        UnescapeSeparator(if v[2] as int == 0xA8 then '8' else '9', QuoteBody(v[3..]));
      } else {
        OtherStep(v);
        UnescapeQuoted(v[1..]);
        UnescapeOne(v[0], QuoteBody(v[1..]));
      }
    }
  }

  lemma QuoteRoundTrip(v: string)
    ensures Unquote(JsonQuote(v)) == Some(v)
  {
    UnescapeQuoted(v);
    assert JsonQuote(v)[1..|JsonQuote(v)| - 1] == QuoteBody(v);
  }

  lemma TailAfterEscape(c: char, rest: string)
    requires LiteralTail(rest)
    ensures LiteralTail(Escape(c) + rest)
  {
    var e := Escape(c);
    var s := e + rest;
    assert s[|e|..] == rest;
    if |e| == 6 {
      assert LowerHex(c as int / 16) != '"' && LowerHex(c as int / 16) != '\\';
      assert LowerHex(c as int % 16) != '"' && LowerHex(c as int % 16) != '\\';
      TailAfterSix(s);
    }
  }

  lemma TailAfterSix(s: string)
    requires |s| >= 6 && s[0] == '\\' && LiteralTail(s[6..])
    requires forall i :: 2 <= i < 6 ==> s[i] != '"' && s[i] != '\\'
    ensures LiteralTail(s)
  {
    var t := s[2..];
    assert t[1..][1..][1..][1..] == s[6..];
    assert t[0] == s[2] && t[1..][0] == s[3] && t[1..][1..][0] == s[4] && t[1..][1..][1..][0] == s[5];
    assert LiteralTail(t[1..][1..][1..]);
    assert LiteralTail(t[1..][1..]);
  }

  lemma {:induction false} QuoteIsTail(v: string)
    ensures LiteralTail(QuoteBody(v) + ['"'])
    decreases |v|
  {
    if v != [] {
      hide LiteralTail, Escape;
      if IsLineSeparator(v) {
        QuoteIsTail(v[3..]);
        var six := if v[2] as int == 0xA8 then "\\u2028" else "\\u2029";
        var rest := QuoteBody(v[3..]) + ['"'];
        assert QuoteBody(v) + ['"'] == six + rest;
        assert (six + rest)[6..] == rest;
        TailAfterSix(six + rest);
      } else {
        QuoteIsTail(v[1..]);
        var rest := QuoteBody(v[1..]) + ['"'];
        assert QuoteBody(v) + ['"'] == Escape(v[0]) + rest;
        TailAfterEscape(v[0], rest);
      }
    } else {
      assert QuoteBody(v) + ['"'] == ['"'];
    }
  }

  lemma QuoteIsLiteral(v: string)
    ensures IsLiteral(JsonQuote(v))
  {
    QuoteIsTail(v);
    assert JsonQuote(v)[1..] == QuoteBody(v) + ['"'];
  }

  // ---------- the document ----------

  datatype QBittorrent = QBittorrent(enabled: bool, url: string, username: string, category: string,
                                     skipTLSVerify: bool)
  datatype Transmission = Transmission(enabled: bool, url: string, username: string, skipTLSVerify: bool)

  datatype File = File(
    streamingHash: bool, debug: Option<bool>, telemetryEnabled: Option<bool>, registryIngestURL: string,
    lanHMACEnabled: Option<bool>, lanHMACSharedSecret: string, modelsDir: string, lmStudioModels: string,
    ollamaModelsDir: string, maxUploadMBps: int, maxDownloadMBps: int, pullConcurrency: int,
    torrentMetaTimeoutMs: int, ipcDeadlineMs: int, launchTimeoutMs: int,
    qBittorrent: Option<QBittorrent>, transmission: Option<Transmission>)

  const DEFAULT_INGEST_URL := "https://api.hali.network/ingest"

  function OrDefault(b: Option<bool>, d: bool): bool {
    match b
    case Some(v) => v
    case None => d
  }

  /** Unset values replaced by the visible defaults. */
  function WithDefaults(cfg: File, modelsDir: string): File {
    cfg.(debug := Some(OrDefault(cfg.debug, false)),
         telemetryEnabled := Some(OrDefault(cfg.telemetryEnabled, true)),
         lanHMACEnabled := Some(OrDefault(cfg.lanHMACEnabled, false)),
         registryIngestURL := if TrimSpace(cfg.registryIngestURL) == ""
                              then DEFAULT_INGEST_URL else cfg.registryIngestURL,
         lanHMACSharedSecret := if TrimSpace(cfg.lanHMACSharedSecret) == "" then "" else cfg.lanHMACSharedSecret,
         modelsDir := if TrimSpace(cfg.modelsDir) == "" then modelsDir else cfg.modelsDir,
         pullConcurrency := if cfg.pullConcurrency < 1 then 1 else cfg.pullConcurrency)
  }

  function BoolText(b: bool): string {
    if b then "true" else "false"
  }

  function IntText(n: int): string {
    if n < 0 then "-" + Decimal(-n) else Decimal(n)
  }

  /** A key with its value, under its comment lines. */
  datatype Field = Field(notes: seq<string>, key: string, value: string)

  function Member(key: string, value: string): string {
    "\"" + key + "\": " + value
  }

  function MembersText(members: seq<(string, string)>): string {
    if members == [] then ""
    else Member(members[0].0, members[0].1) + (if |members| > 1 then ",\n    " else "") + MembersText(members[1..])
  }

  /** A nested object, one member a line. */
  function ObjectText(members: seq<(string, string)>): string {
    "{\n    " + MembersText(members) + "\n  }"
  }

  function Optional(shown: bool, key: string, value: string): seq<(string, string)> {
    if shown then [(key, value)] else []
  }

  function ServerMembers(enabled: bool, url: string): seq<(string, string)> {
    [("enabled", BoolText(enabled))] + [("url", JsonQuote(TrimSpace(url)))]
  }

  function QBittorrentMembers(q: QBittorrent): seq<(string, string)> {
    ServerMembers(q.enabled, q.url)
    + Optional(true, "username", JsonQuote(q.username))
    + Optional(q.category != "", "category", JsonQuote(q.category))
    + Optional(q.skipTLSVerify, "skip_tls_verify", BoolText(true))
  }

  function TransmissionMembers(t: Transmission): seq<(string, string)> {
    ServerMembers(t.enabled, t.url)
    + Optional(t.username != "", "username", JsonQuote(t.username))
    + Optional(t.skipTLSVerify, "skip_tls_verify", BoolText(true))
  }

  /** The comment lines the printer puts above each key. Their wording is not part of this model. */
  type Notes = string -> seq<string>

  function Entry(notes: Notes, key: string, value: string): seq<Field> {
    [Field(notes(key), key, value)]
  }

  function Basics(f: File, notes: Notes): seq<Field> {
    Entry(notes, "streaming_hash", BoolText(f.streamingHash))
    + Entry(notes, "debug", BoolText(OrDefault(f.debug, false)))
    + Entry(notes, "telemetry_enabled", BoolText(OrDefault(f.telemetryEnabled, true)))
  }

  function Network(f: File, notes: Notes): seq<Field> {
    Entry(notes, "registry_ingest_url", JsonQuote(TrimSpace(f.registryIngestURL)))
    + Entry(notes, "lan_hmac_enabled", BoolText(OrDefault(f.lanHMACEnabled, false)))
    + Entry(notes, "lan_hmac_shared_secret", JsonQuote(TrimSpace(f.lanHMACSharedSecret)))
  }

  function Directories(f: File, notes: Notes): seq<Field> {
    Entry(notes, "models_dir", JsonQuote(TrimSpace(f.modelsDir)))
    + Entry(notes, "lmstudio_models_dir", JsonQuote(TrimSpace(f.lmStudioModels)))
    + Entry(notes, "ollama_models_dir", JsonQuote(TrimSpace(f.ollamaModelsDir)))
  }

  function Limits(f: File, notes: Notes): seq<Field> {
    Entry(notes, "max_upload_mbps", IntText(f.maxUploadMBps))
    + Entry(notes, "max_download_mbps", IntText(f.maxDownloadMBps))
    + Entry(notes, "pull_concurrency", IntText(f.pullConcurrency))
  }

  function Timeouts(f: File, notes: Notes): seq<Field> {
    (if f.torrentMetaTimeoutMs > 0
     then Entry(notes, "torrent_meta_timeout_ms", IntText(f.torrentMetaTimeoutMs)) else [])
    + (if f.ipcDeadlineMs > 0 then Entry(notes, "ipc_deadline_ms", IntText(f.ipcDeadlineMs)) else [])
    + (if f.launchTimeoutMs > 0 then Entry(notes, "launch_timeout_ms", IntText(f.launchTimeoutMs)) else [])
  }

  function QBittorrentField(f: File, notes: Notes): seq<Field> {
    if f.qBittorrent.Some? && TrimSpace(f.qBittorrent.value.url) != ""
    then Entry(notes, "qbittorrent", ObjectText(QBittorrentMembers(f.qBittorrent.value))) else []
  }

  function TransmissionField(f: File, notes: Notes): seq<Field> {
    if f.transmission.Some? && TrimSpace(f.transmission.value.url) != ""
    then Entry(notes, "transmission", ObjectText(TransmissionMembers(f.transmission.value))) else []
  }

  function Clients(f: File, notes: Notes): seq<Field> {
    QBittorrentField(f, notes) + TransmissionField(f, notes)
  }

  function Fields(cfg: File, modelsDir: string, notes: Notes): seq<Field> {
    var f := WithDefaults(cfg, modelsDir);
    Basics(f, notes) + Network(f, notes) + Directories(f, notes) + Limits(f, notes)
    + Timeouts(f, notes) + Clients(f, notes)
  }

  /** With comments as they are written, or with the comment text taken out. */
  function NoteLines(notes: seq<string>, comments: bool): string {
    if notes == [] then ""
    else "  " + (if comments then "//" + notes[0] else "") + "\n" + NoteLines(notes[1..], comments)
  }

  function FieldText(f: Field, comments: bool): string {
    NoteLines(f.notes, comments) + "  " + Member(f.key, f.value)
  }

  function FieldsText(fields: seq<Field>, comments: bool): string {
    if fields == [] then ""
    else FieldText(fields[0], comments) + (if |fields| > 1 then ",\n\n" else "") + FieldsText(fields[1..], comments)
  }

  function Document(fields: seq<Field>, comments: bool): string {
    "{\n" + FieldsText(fields, comments) + "\n}\n"
  }

  function RenderConfigJSONC(cfg: File, modelsDir: string, notes: Notes): string {
    Document(Fields(cfg, modelsDir, notes), true)
  }

  // ---------- stripping it ----------

  /** Stripping `a` gives `r`, and whatever follows is read as if it came first. */
  predicate Reads(a: string, r: string) {
    Strip(Normal, a) == r && End(Normal, a) == Normal && (a == [] || Last(a) != '/')
  }

  lemma ReadsBoth(a: string, r: string, b: string, t: string)
    requires Reads(a, r) && Reads(b, t)
    ensures Reads(a + b, r + t)
  {
    if EndsInSlash(Normal, a) {
      SlashIsLast(Normal, a);
    }
    StripAppend(Normal, a, b);
    if b == [] {
      assert a + b == a;
    } else {
      assert Last(a + b) == Last(b);
    }
  }

  predicate PlainText(s: string) {
    forall c :: c in s ==> c != '"' && c != '/'
  }

  lemma {:induction false} ReadsPlain(s: string)
    requires PlainText(s)
    ensures Reads(s, s)
  {
    if s != [] {
      assert s[0] in s;
      assert forall c :: c in s[1..] ==> c in s;
      ReadsPlain(s[1..]);
      assert s == [s[0]] + s[1..];
      assert Last(s) in s;
    }
  }

  lemma ReadsLiteral(lit: string)
    requires IsLiteral(lit)
    ensures Reads(lit, lit)
  {
    LiteralCopied(lit);
  }

  predicate NoNewline(s: string) {
    forall c :: c in s ==> c != '\n'
  }

  lemma {:induction false} LineSkipped(note: string)
    requires NoNewline(note)
    ensures Strip(InLine, note + "\n") == "\n" && End(InLine, note + "\n") == Normal
  {
    var s := note + "\n";
    if note != [] {
      assert note[0] in note;
      assert s[1..] == note[1..] + "\n";
      assert forall c :: c in note[1..] ==> c in note;
      LineSkipped(note[1..]);
    } else {
      assert s == "\n" && s[1..] == "";
    }
  }

  lemma ReadsNote(note: string)
    requires NoNewline(note)
    ensures Reads("//" + note + "\n", "\n")
  {
    var s := "//" + note + "\n";
    LineSkipped(note);
    assert s[2..] == note + "\n";
    assert Last(s) == '\n';
  }

  lemma {:induction false} ReadsNotes(notes: seq<string>)
    requires forall n :: n in notes ==> NoNewline(n)
    ensures Reads(NoteLines(notes, true), NoteLines(notes, false))
  {
    if notes == [] {
      ReadsPlain("");
    } else {
      assert notes[0] in notes;
      ReadsNotes(notes[1..]);
      ReadsNote(notes[0]);
      ReadsPlain("  ");
      hide Reads;
      ReadsBoth("  ", "  ", "//" + notes[0] + "\n", "\n");
      ReadsBoth("  " + ("//" + notes[0] + "\n"), "  " + "\n",
                NoteLines(notes[1..], true), NoteLines(notes[1..], false));
      assert NoteLines(notes, true) == "  " + ("//" + notes[0] + "\n") + NoteLines(notes[1..], true);
      assert NoteLines(notes, false) == "  " + "\n" + NoteLines(notes[1..], false);
    }
  }

  ghost predicate GoodField(f: Field) {
    && (forall n :: n in f.notes ==> NoNewline(n))
    && IsLiteral("\"" + f.key + "\"") && Reads(f.value, f.value)
  }

  lemma ReadsMember(key: string, value: string)
    requires IsLiteral("\"" + key + "\"") && Reads(value, value)
    ensures Reads(Member(key, value), Member(key, value))
  {
    var k := "\"" + key + "\"";
    ReadsLiteral(k);
    ReadsPlain(": ");
    hide Reads;
    ReadsBoth(k, k, ": ", ": ");
    ReadsBoth(k + ": ", k + ": ", value, value);
    assert Member(key, value) == k + ": " + value;
  }

  lemma ReadsField(f: Field)
    requires GoodField(f)
    ensures Reads(FieldText(f, true), FieldText(f, false))
  {
    ReadsNotes(f.notes);
    ReadsPlain("  ");
    ReadsMember(f.key, f.value);
    hide Reads, NoteLines;
    ReadsBoth(NoteLines(f.notes, true), NoteLines(f.notes, false), "  ", "  ");
    ReadsBoth(NoteLines(f.notes, true) + "  ", NoteLines(f.notes, false) + "  ",
              Member(f.key, f.value), Member(f.key, f.value));
  }

  lemma {:induction false} ReadsFields(fields: seq<Field>)
    requires forall f :: f in fields ==> GoodField(f)
    ensures Reads(FieldsText(fields, true), FieldsText(fields, false))
  {
    if fields == [] {
      ReadsPlain("");
    } else {
      var sep := if |fields| > 1 then ",\n\n" else "";
      ReadsField(fields[0]);
      ReadsPlain(sep);
      ReadsFields(fields[1..]);
      hide Reads, FieldText;
      ReadsBoth(FieldText(fields[0], true), FieldText(fields[0], false), sep, sep);
      ReadsBoth(FieldText(fields[0], true) + sep, FieldText(fields[0], false) + sep,
                FieldsText(fields[1..], true), FieldsText(fields[1..], false));
    }
  }

  lemma ReadsDocument(fields: seq<Field>)
    requires forall f :: f in fields ==> GoodField(f)
    ensures Reads(Document(fields, true), Document(fields, false))
  {
    ReadsPlain("{\n");
    ReadsPlain("\n}\n");
    ReadsFields(fields);
    hide Reads, FieldsText;
    ReadsBoth("{\n", "{\n", FieldsText(fields, true), FieldsText(fields, false));
    ReadsBoth("{\n" + FieldsText(fields, true), "{\n" + FieldsText(fields, false), "\n}\n", "\n}\n");
  }

  // ---------- every field of every config is good ----------

  predicate PlainKey(k: string) {
    forall c :: c in k ==> c != '"' && c != '\\'
  }

  lemma {:induction false} KeyTail(k: string)
    requires PlainKey(k)
    ensures LiteralTail(k + "\"")
  {
    var s := k + "\"";
    if k != [] {
      assert k[0] in k;
      assert s[1..] == k[1..] + "\"";
      assert forall c :: c in k[1..] ==> c in k;
      KeyTail(k[1..]);
    }
  }

  lemma KeyIsLiteral(k: string)
    requires PlainKey(k)
    ensures IsLiteral("\"" + k + "\"")
  {
    KeyTail(k);
    assert ("\"" + k + "\"")[1..] == k + "\"";
  }

  lemma {:induction false} DecimalIsPlain(n: nat)
    ensures PlainText(Decimal(n))
    decreases n
  {
    if n >= 10 {
      DecimalIsPlain(n / 10);
    }
  }

  lemma ReadsInt(n: int)
    ensures Reads(IntText(n), IntText(n))
  {
    DecimalIsPlain(if n < 0 then -n else n);
    ReadsPlain(IntText(n));
  }

  lemma ReadsBool(b: bool)
    ensures Reads(BoolText(b), BoolText(b))
  {
    ReadsPlain(BoolText(b));
  }

  lemma ReadsQuoted(v: string)
    ensures Reads(JsonQuote(v), JsonQuote(v))
  {
    QuoteIsLiteral(v);
    ReadsLiteral(JsonQuote(v));
  }

  ghost predicate OneLineNotes(notes: Notes) {
    forall key, n :: n in notes(key) ==> NoNewline(n)
  }

  ghost predicate AllGood(fields: seq<Field>) {
    forall f :: f in fields ==> GoodField(f)
  }

  lemma GoodEntry(notes: Notes, key: string, value: string)
    requires OneLineNotes(notes) && PlainKey(key) && Reads(value, value)
    ensures AllGood(Entry(notes, key, value))
  {
    KeyIsLiteral(key);
    hide Reads, IsLiteral, PlainKey;
  }

  lemma GoodSum(a: seq<Field>, b: seq<Field>)
    requires AllGood(a) && AllGood(b)
    ensures AllGood(a + b)
  {
    hide GoodField;
  }

  lemma GoodText(notes: Notes, key: string, v: string)
    requires OneLineNotes(notes) && PlainKey(key)
    ensures AllGood(Entry(notes, key, JsonQuote(v)))
  {
    hide Reads, PlainKey, AllGood;
    ReadsQuoted(v);
    GoodEntry(notes, key, JsonQuote(v));
  }

  lemma GoodFlag(notes: Notes, key: string, b: bool)
    requires OneLineNotes(notes) && PlainKey(key)
    ensures AllGood(Entry(notes, key, BoolText(b)))
  {
    hide Reads, PlainKey, AllGood;
    ReadsBool(b);
    GoodEntry(notes, key, BoolText(b));
  }

  lemma GoodNumber(notes: Notes, key: string, n: int)
    requires OneLineNotes(notes) && PlainKey(key)
    ensures AllGood(Entry(notes, key, IntText(n)))
  {
    hide Reads, PlainKey, AllGood;
    ReadsInt(n);
    GoodEntry(notes, key, IntText(n));
  }

  lemma GoodNumberIf(notes: Notes, key: string, n: int)
    requires OneLineNotes(notes) && PlainKey(key)
    ensures AllGood(if n > 0 then Entry(notes, key, IntText(n)) else [])
  {
    GoodNumber(notes, key, n);
    hide IntText, Entry;
  }

  lemma GoodThree(a: seq<Field>, b: seq<Field>, c: seq<Field>)
    requires AllGood(a) && AllGood(b) && AllGood(c)
    ensures AllGood(a + b + c)
  {
    GoodSum(a, b);
    hide AllGood;
    GoodSum(a + b, c);
  }

  lemma GoodBasics(f: File, notes: Notes)
    requires OneLineNotes(notes)
    ensures AllGood(Basics(f, notes))
  {
    hide AllGood, OneLineNotes, Entry, JsonQuote, BoolText, IntText, TrimSpace, OrDefault;
    GoodFlag(notes, "streaming_hash", f.streamingHash);
    GoodFlag(notes, "debug", OrDefault(f.debug, false));
    GoodFlag(notes, "telemetry_enabled", OrDefault(f.telemetryEnabled, true));
    GoodThree(Entry(notes, "streaming_hash", BoolText(f.streamingHash)),
              Entry(notes, "debug", BoolText(OrDefault(f.debug, false))),
              Entry(notes, "telemetry_enabled", BoolText(OrDefault(f.telemetryEnabled, true))));
  }

  lemma GoodNetwork(f: File, notes: Notes)
    requires OneLineNotes(notes)
    ensures AllGood(Network(f, notes))
  {
    hide AllGood, OneLineNotes, Entry, JsonQuote, BoolText, IntText, TrimSpace, OrDefault;
    GoodText(notes, "registry_ingest_url", TrimSpace(f.registryIngestURL));
    GoodFlag(notes, "lan_hmac_enabled", OrDefault(f.lanHMACEnabled, false));
    GoodText(notes, "lan_hmac_shared_secret", TrimSpace(f.lanHMACSharedSecret));
    GoodThree(Entry(notes, "registry_ingest_url", JsonQuote(TrimSpace(f.registryIngestURL))),
              Entry(notes, "lan_hmac_enabled", BoolText(OrDefault(f.lanHMACEnabled, false))),
              Entry(notes, "lan_hmac_shared_secret", JsonQuote(TrimSpace(f.lanHMACSharedSecret))));
  }

  lemma GoodDirectories(f: File, notes: Notes)
    requires OneLineNotes(notes)
    ensures AllGood(Directories(f, notes))
  {
    hide AllGood, OneLineNotes, Entry, JsonQuote, BoolText, IntText, TrimSpace, OrDefault;
    GoodText(notes, "models_dir", TrimSpace(f.modelsDir));
    GoodText(notes, "lmstudio_models_dir", TrimSpace(f.lmStudioModels));
    GoodText(notes, "ollama_models_dir", TrimSpace(f.ollamaModelsDir));
    GoodThree(Entry(notes, "models_dir", JsonQuote(TrimSpace(f.modelsDir))),
              Entry(notes, "lmstudio_models_dir", JsonQuote(TrimSpace(f.lmStudioModels))),
              Entry(notes, "ollama_models_dir", JsonQuote(TrimSpace(f.ollamaModelsDir))));
  }

  lemma GoodLimits(f: File, notes: Notes)
    requires OneLineNotes(notes)
    ensures AllGood(Limits(f, notes))
  {
    hide AllGood, OneLineNotes, Entry, JsonQuote, BoolText, IntText, TrimSpace, OrDefault;
    GoodNumber(notes, "max_upload_mbps", f.maxUploadMBps);
    GoodNumber(notes, "max_download_mbps", f.maxDownloadMBps);
    GoodNumber(notes, "pull_concurrency", f.pullConcurrency);
    GoodThree(Entry(notes, "max_upload_mbps", IntText(f.maxUploadMBps)),
              Entry(notes, "max_download_mbps", IntText(f.maxDownloadMBps)),
              Entry(notes, "pull_concurrency", IntText(f.pullConcurrency)));
  }

  lemma GoodTimeouts(f: File, notes: Notes)
    requires OneLineNotes(notes)
    ensures AllGood(Timeouts(f, notes))
  {
    hide AllGood, OneLineNotes, Entry, JsonQuote, BoolText, IntText, TrimSpace, OrDefault;
    GoodNumberIf(notes, "torrent_meta_timeout_ms", f.torrentMetaTimeoutMs);
    GoodNumberIf(notes, "ipc_deadline_ms", f.ipcDeadlineMs);
    GoodNumberIf(notes, "launch_timeout_ms", f.launchTimeoutMs);
    GoodThree(if f.torrentMetaTimeoutMs > 0
              then Entry(notes, "torrent_meta_timeout_ms", IntText(f.torrentMetaTimeoutMs)) else [],
              if f.ipcDeadlineMs > 0 then Entry(notes, "ipc_deadline_ms", IntText(f.ipcDeadlineMs)) else [],
              if f.launchTimeoutMs > 0 then Entry(notes, "launch_timeout_ms", IntText(f.launchTimeoutMs)) else []);
  }

  ghost predicate GoodMember(m: (string, string)) {
    PlainKey(m.0) && Reads(m.1, m.1)
  }

  ghost predicate GoodMembers(members: seq<(string, string)>) {
    forall m :: m in members ==> GoodMember(m)
  }

  lemma {:induction false} ReadsMembers(members: seq<(string, string)>)
    requires GoodMembers(members)
    ensures Reads(MembersText(members), MembersText(members))
  {
    if members == [] {
      ReadsPlain("");
    } else {
      assert GoodMember(members[0]);
      var first, rest := Member(members[0].0, members[0].1), MembersText(members[1..]);
      var sep := if |members| > 1 then ",\n    " else "";
      ReadsMembers(members[1..]);
      KeyIsLiteral(members[0].0);
      ReadsMember(members[0].0, members[0].1);
      ReadsPlain(sep);
      hide Reads, Member;
      ReadsBoth(first, first, sep, sep);
      ReadsBoth(first + sep, first + sep, rest, rest);
    }
  }

  lemma ReadsObject(members: seq<(string, string)>)
    requires GoodMembers(members)
    ensures Reads(ObjectText(members), ObjectText(members))
  {
    ReadsMembers(members);
    ReadsPlain("{\n    ");
    ReadsPlain("\n  }");
    hide Reads, MembersText;
    var t := MembersText(members);
    ReadsBoth("{\n    ", "{\n    ", t, t);
    ReadsBoth("{\n    " + t, "{\n    " + t, "\n  }", "\n  }");
  }

  lemma GoodOne(key: string, value: string)
    requires PlainKey(key) && Reads(value, value)
    ensures GoodMembers([(key, value)])
  {
    hide Reads, PlainKey;
  }

  lemma GoodMore(a: seq<(string, string)>, b: seq<(string, string)>)
    requires GoodMembers(a) && GoodMembers(b)
    ensures GoodMembers(a + b)
  {
    hide GoodMember;
  }

  lemma GoodServer(enabled: bool, url: string)
    ensures GoodMembers(ServerMembers(enabled, url))
  {
    ReadsBool(enabled);
    ReadsQuoted(TrimSpace(url));
    GoodOne("enabled", BoolText(enabled));
    GoodOne("url", JsonQuote(TrimSpace(url)));
    hide GoodMembers;
    GoodMore([("enabled", BoolText(enabled))], [("url", JsonQuote(TrimSpace(url)))]);
  }

  lemma GoodOptional(shown: bool, key: string, value: string)
    requires PlainKey(key) && Reads(value, value)
    ensures GoodMembers(Optional(shown, key, value))
  {
    GoodOne(key, value);
    hide GoodMember;
  }

  lemma GoodQBittorrent(q: QBittorrent)
    ensures GoodMembers(QBittorrentMembers(q))
  {
    ReadsQuoted(q.username);
    ReadsQuoted(q.category);
    ReadsBool(true);
    GoodServer(q.enabled, q.url);
    hide GoodMembers, Optional, ServerMembers, JsonQuote, BoolText, Reads;
    GoodOptional(true, "username", JsonQuote(q.username));
    GoodOptional(q.category != "", "category", JsonQuote(q.category));
    GoodOptional(q.skipTLSVerify, "skip_tls_verify", BoolText(true));
    var a := ServerMembers(q.enabled, q.url);
    var b := Optional(true, "username", JsonQuote(q.username));
    var c := Optional(q.category != "", "category", JsonQuote(q.category));
    GoodMore(a, b);
    GoodMore(a + b, c);
    GoodMore(a + b + c, Optional(q.skipTLSVerify, "skip_tls_verify", BoolText(true)));
  }

  lemma GoodTransmission(t: Transmission)
    ensures GoodMembers(TransmissionMembers(t))
  {
    ReadsQuoted(t.username);
    ReadsBool(true);
    GoodServer(t.enabled, t.url);
    hide GoodMembers, Optional, ServerMembers, JsonQuote, BoolText, Reads;
    GoodOptional(t.username != "", "username", JsonQuote(t.username));
    GoodOptional(t.skipTLSVerify, "skip_tls_verify", BoolText(true));
    var a, b := ServerMembers(t.enabled, t.url), Optional(t.username != "", "username", JsonQuote(t.username));
    GoodMore(a, b);
    GoodMore(a + b, Optional(t.skipTLSVerify, "skip_tls_verify", BoolText(true)));
  }

  lemma GoodClients(f: File, notes: Notes)
    requires OneLineNotes(notes)
    ensures AllGood(Clients(f, notes))
  {
    hide Reads, GoodField, ObjectText, QBittorrentMembers, TransmissionMembers, TrimSpace,
      OneLineNotes, Entry, GoodMembers;
    if f.qBittorrent.Some? {
      GoodQBittorrent(f.qBittorrent.value);
      ReadsObject(QBittorrentMembers(f.qBittorrent.value));
      GoodEntry(notes, "qbittorrent", ObjectText(QBittorrentMembers(f.qBittorrent.value)));
    }
    if f.transmission.Some? {
      GoodTransmission(f.transmission.value);
      ReadsObject(TransmissionMembers(f.transmission.value));
      GoodEntry(notes, "transmission", ObjectText(TransmissionMembers(f.transmission.value)));
    }
  }

  lemma GoodFields(cfg: File, modelsDir: string, notes: Notes)
    requires OneLineNotes(notes)
    ensures AllGood(Fields(cfg, modelsDir, notes))
  {
    hide AllGood, Basics, Network, Directories, Limits, Timeouts, Clients, WithDefaults;
    var f := WithDefaults(cfg, modelsDir);
    GoodBasics(f, notes);
    GoodNetwork(f, notes);
    GoodDirectories(f, notes);
    GoodLimits(f, notes);
    GoodTimeouts(f, notes);
    GoodClients(f, notes);
    var all := Basics(f, notes) + Network(f, notes);
    GoodSum(Basics(f, notes), Network(f, notes));
    GoodSum(all, Directories(f, notes));
    GoodSum(all + Directories(f, notes), Limits(f, notes));
    GoodSum(all + Directories(f, notes) + Limits(f, notes), Timeouts(f, notes));
    GoodSum(all + Directories(f, notes) + Limits(f, notes) + Timeouts(f, notes), Clients(f, notes));
  }

  /** For every config: stripping what is printed removes the comment text and nothing else, so every
      value stands in the result byte for byte, URLs with // included. */
  lemma StrippingRendered(cfg: File, modelsDir: string, notes: Notes)
    requires OneLineNotes(notes)
    ensures Strip(Normal, RenderConfigJSONC(cfg, modelsDir, notes) + "\n")
         == Document(Fields(cfg, modelsDir, notes), false) + "\n"
  {
    hide Fields, Document, Reads, AllGood, GoodField;
    GoodFields(cfg, modelsDir, notes);
    GoodDocument(Fields(cfg, modelsDir, notes));
    ReadsPlain("\n");
    ReadsBoth(RenderConfigJSONC(cfg, modelsDir, notes), Document(Fields(cfg, modelsDir, notes), false), "\n", "\n");
    ReadsMeans(RenderConfigJSONC(cfg, modelsDir, notes) + "\n", Document(Fields(cfg, modelsDir, notes), false) + "\n");
  }

  lemma GoodDocument(fields: seq<Field>)
    requires AllGood(fields)
    ensures Reads(Document(fields, true), Document(fields, false))
  {
    ReadsDocument(fields);
  }

  lemma ReadsMeans(a: string, r: string)
    requires Reads(a, r)
    ensures Strip(Normal, a) == r
  {}

  /** Each value stands there as printed: what follows the key is the value itself. */
  lemma {:induction false} ValueStands(fields: seq<Field>, i: nat) returns (before: string, after: string)
    requires i < |fields|
    ensures FieldsText(fields, false) == before + Member(fields[i].key, fields[i].value) + after
  {
    var head := FieldText(fields[0], false);
    var sep := if |fields| > 1 then ",\n\n" else "";
    if i == 0 {
      before := NoteLines(fields[0].notes, false) + "  ";
      after := sep + FieldsText(fields[1..], false);
    } else {
      var b, a := ValueStands(fields[1..], i - 1);
      before, after := head + sep + b, a;
    }
  }

  /** So for every config and every key, what is read back holds the key and its value as printed. */
  lemma ValueSurvives(cfg: File, modelsDir: string, notes: Notes, i: nat) returns (before: string, after: string)
    requires OneLineNotes(notes)
    ensures i < |Fields(cfg, modelsDir, notes)| ==>
      var f := Fields(cfg, modelsDir, notes)[i];
      Strip(Normal, RenderConfigJSONC(cfg, modelsDir, notes) + "\n") == before + Member(f.key, f.value) + after
  {
    hide Fields, FieldsText, Member, RenderConfigJSONC;
    StrippingRendered(cfg, modelsDir, notes);
    var fields := Fields(cfg, modelsDir, notes);
    before, after := "", "";
    if i < |fields| {
      var b, a := ValueStands(fields, i);
      before, after := "{\n" + b, a + "\n}\n" + "\n";
      Nested("{\n", b, Member(fields[i].key, fields[i].value), a, "\n}\n", "\n");
    }
  }

  lemma Nested(x: string, b: string, m: string, a: string, y: string, z: string)
    ensures x + (b + m + a) + y + z == x + b + m + (a + y + z)
  {}

  /** A URL with // in it, above all, reads back as the URL. */
  lemma IngestURLSurvives(cfg: File, modelsDir: string, notes: Notes) returns (before: string, after: string)
    requires OneLineNotes(notes)
    ensures var url := TrimSpace(WithDefaults(cfg, modelsDir).registryIngestURL);
      && Strip(Normal, RenderConfigJSONC(cfg, modelsDir, notes) + "\n")
         == before + ("\"registry_ingest_url\": " + JsonQuote(url)) + after
      && Unquote(JsonQuote(url)) == Some(url)
  {
    var url := TrimSpace(WithDefaults(cfg, modelsDir).registryIngestURL);
    FourthField(cfg, modelsDir, notes);
    hide Fields, JsonQuote, TrimSpace, WithDefaults, RenderConfigJSONC;
    QuoteRoundTrip(url);
    before, after := ValueSurvives(cfg, modelsDir, notes, 3);
    assert "\"" + "registry_ingest_url" + "\": " == "\"registry_ingest_url\": ";
  }

  lemma FourthField(cfg: File, modelsDir: string, notes: Notes)
    ensures var fields := Fields(cfg, modelsDir, notes);
      && |fields| > 3 && fields[3].key == "registry_ingest_url"
      && fields[3].value == JsonQuote(TrimSpace(WithDefaults(cfg, modelsDir).registryIngestURL))
  {
    hide WithDefaults, TrimSpace, JsonQuote, Timeouts, Clients, Limits, Directories;
  }
}
