/** stripJSONComments of internal/config/config.go, over byte strings. */
module JsonComments {
  import opened Text

  datatype Mode = Normal | InString | Escaped | InLine | InBlock

  /** What is left of `s` when it is read from the given mode. */
  function Strip(m: Mode, s: string): string
    decreases |s|
  {
    if s == [] then []
    else
      match m
      case InLine => if s[0] == '\n' then ['\n'] + Strip(Normal, s[1..]) else Strip(InLine, s[1..])
      case InBlock =>
        if s[0] == '*' && |s| > 1 && s[1] == '/' then Strip(Normal, s[2..]) else Strip(InBlock, s[1..])
      case Escaped => [s[0]] + Strip(InString, s[1..])
      case InString =>
        [s[0]] + Strip(if s[0] == '\\' then Escaped else if s[0] == '"' then Normal else InString, s[1..])
      case Normal =>
        if s[0] == '"' then ['"'] + Strip(InString, s[1..])
        else if s[0] == '/' && |s| > 1 && s[1] == '/' then Strip(InLine, s[2..])
        else if s[0] == '/' && |s| > 1 && s[1] == '*' then Strip(InBlock, s[2..])
        else [s[0]] + Strip(Normal, s[1..])
  }

  /** The mode `s` ends in. */
  function End(m: Mode, s: string): Mode
    decreases |s|
  {
    if s == [] then m
    else
      match m
      case InLine => End(if s[0] == '\n' then Normal else InLine, s[1..])
      case InBlock => if s[0] == '*' && |s| > 1 && s[1] == '/' then End(Normal, s[2..]) else End(InBlock, s[1..])
      case Escaped => End(InString, s[1..])
      case InString => End(if s[0] == '\\' then Escaped else if s[0] == '"' then Normal else InString, s[1..])
      case Normal =>
        if s[0] == '"' then End(InString, s[1..])
        else if s[0] == '/' && |s| > 1 && s[1] == '/' then End(InLine, s[2..])
        else if s[0] == '/' && |s| > 1 && s[1] == '*' then End(InBlock, s[2..])
        else End(Normal, s[1..])
  }

  function ModeOf(inString: bool, escaped: bool, inLine: bool, inBlock: bool): Mode {
    if inLine then InLine else if inBlock then InBlock
    else if inString then (if escaped then Escaped else InString) else Normal
  }

  /** The mode after one byte that does not start or end a comment with the next one. */
  function AfterOne(m: Mode, c: char): Mode {
    match m
    case Normal => if c == '"' then InString else Normal
    case InString => if c == '\\' then Escaped else if c == '"' then Normal else InString
    case Escaped => InString
    case InLine => if c == '\n' then Normal else InLine
    case InBlock => InBlock
  }

  predicate IsPair(m: Mode, c: char, next: char) {
    || (m == Normal && c == '/' && (next == '/' || next == '*'))
    || (m == InBlock && c == '*' && next == '/')
  }

  function AfterPair(m: Mode, next: char): Mode {
    if m == InBlock then Normal else if next == '/' then InLine else InBlock
  }

  predicate Kept(m: Mode, c: char) {
    m != InBlock && (m == InLine ==> c == '\n')
  }

  /** One turn of the loop. */
  lemma OneTurn(m: Mode, src: string, i: nat)
    requires i < |src|
    ensures var next := if i + 1 < |src| then src[i + 1] else '\0';
      Strip(m, src[i..]) ==
        if i + 1 < |src| && IsPair(m, src[i], next) then Strip(AfterPair(m, next), src[i + 2..])
        else (if Kept(m, src[i]) then [src[i]] else []) + Strip(AfterOne(m, src[i]), src[i + 1..])
  {
    Heads(src, i);
  }

  method StripJSONComments(src: string) returns (out: string)
    ensures out == Strip(Normal, src)
  {
    if |src| == 0 {
      return src;
    }
    out := [];
    var inString, escaped, inLine, inBlock := false, false, false, false;
    var i := 0;
    assert src[0..] == src;
    hide Strip;
    while i < |src|
      invariant 0 <= i <= |src|
      invariant out + Strip(ModeOf(inString, escaped, inLine, inBlock), src[i..]) == Strip(Normal, src)
      invariant (inLine || inBlock ==> !inString) && !(inLine && inBlock) && (escaped ==> inString)
    {
      var c := src[i];
      var next := if i + 1 < |src| then src[i + 1] else '\0';
      ghost var m := ModeOf(inString, escaped, inLine, inBlock);
      OneTurn(m, src, i);
      Regroup(out, c, Strip(AfterOne(m, c), src[i + 1..]));
      if inLine {
        if c == '\n' {
          inLine := false;
          out := out + [c];
        }
        i := i + 1;
        continue;
      }
      if inBlock {
        if c == '*' && next == '/' {
          inBlock := false;
          i := i + 1;
        }
        i := i + 1;
        continue;
      }
      if inString {
        out := out + [c];
        i := i + 1;
        if escaped {
          escaped := false;
          continue;
        }
        if c == '\\' {
          escaped := true;
          continue;
        }
        if c == '"' {
          inString := false;
        }
        continue;
      }
      if c == '"' {
        inString := true;
        out := out + [c];
        i := i + 1;
        continue;
      }
      if c == '/' && next == '/' {
        inLine := true;
        i := i + 2;
        continue;
      }
      if c == '/' && next == '*' {
        inBlock := true;
        i := i + 2;
        continue;
      }
      out := out + [c];
      i := i + 1;
    }
    NothingLeft(ModeOf(inString, escaped, inLine, inBlock), src[i..]);
  }

  lemma Regroup(out: string, c: char, rest: string)
    ensures out + ([c] + rest) == out + [c] + rest
    ensures out + ([] + rest) == out + rest
  {}

  lemma NothingLeft(m: Mode, s: string)
    requires s == []
    ensures Strip(m, s) == []
  {}

  lemma Heads(src: string, i: nat)
    requires i < |src|
    ensures src[i..][0] == src[i] && src[i..][1..] == src[i + 1..]
    ensures i + 1 < |src| ==> src[i..][1] == src[i + 1] && src[i..][2..] == src[i + 2..]
  {}

  // ---------- idempotence ----------

  /** Outside comments the output starts with the first byte, unless a comment starts there. */
  lemma FirstByte(s: string)
    requires s != [] && s[0] != '/'
    ensures Strip(Normal, s) != [] && Strip(Normal, s)[0] == s[0]
  {}

  /** Stripping what was stripped changes nothing, on any byte string. */
  lemma {:induction false} StripTwice(m: Mode, s: string)
    ensures var n := if m == InLine || m == InBlock then Normal else m;
      Strip(n, Strip(m, s)) == Strip(m, s)
    decreases |s|
  {
    if s != [] {
      match m
      case InLine => StripTwice(if s[0] == '\n' then Normal else InLine, s[1..]);
      case InBlock =>
        if s[0] == '*' && |s| > 1 && s[1] == '/' { StripTwice(Normal, s[2..]); } else { StripTwice(InBlock, s[1..]); }
      case Escaped => StripTwice(InString, s[1..]);
      case InString => StripTwice(if s[0] == '\\' then Escaped else if s[0] == '"' then Normal else InString, s[1..]);
      case Normal =>
        if s[0] == '"' {
          StripTwice(InString, s[1..]);
        } else if s[0] == '/' && |s| > 1 && s[1] == '/' {
          StripTwice(InLine, s[2..]);
        } else if s[0] == '/' && |s| > 1 && s[1] == '*' {
          StripTwice(InBlock, s[2..]);
        } else {
          StripTwice(Normal, s[1..]);
          if s[0] == '/' && |s| > 1 {
            FirstByte(s[1..]);
          }
        }
    }
  }

  lemma Idempotent(s: string)
    ensures Strip(Normal, Strip(Normal, s)) == Strip(Normal, s)
  {
    StripTwice(Normal, s);
  }

  // ---------- one part after another ----------

  /** The mode after the first token of `s`, and its length. */
  function Next(m: Mode, s: string): (r: (Mode, nat))
    requires s != []
    ensures 1 <= r.1 <= |s|
  {
    if |s| > 1 && IsPair(m, s[0], s[1]) then (AfterPair(m, s[1]), 2) else (AfterOne(m, s[0]), 1)
  }

  /** The last byte is a slash that belongs to no string and no comment. */
  predicate EndsInSlash(m: Mode, s: string)
    decreases |s|
  {
    s != [] &&
    var (m', n) := Next(m, s);
    if |s| == n then m == Normal && n == 1 && s[0] == '/' else EndsInSlash(m', s[n..])
  }

  lemma {:induction false} SlashIsLast(m: Mode, s: string)
    requires EndsInSlash(m, s)
    ensures Last(s) == '/' && End(m, s) == Normal
    decreases |s|
  {
    var (m', n) := Next(m, s);
    Unfold(m, s);
    Unfold(m', s[n..]);
    hide End, Strip;
    if |s| > n {
      SlashIsLast(m', s[n..]);
    }
  }

  /** The seam of `a` and `b` is neither the start nor the end of a comment. */
  predicate SafeSeam(m: Mode, a: string, b: string) {
    a == [] || b == [] ||
    (!(EndsInSlash(m, a) && b[0] in {'/', '*'})
     && !(End(m, a) == InBlock && Last(a) == '*' && b[0] == '/'))
  }

  lemma {:induction false} StripAppend(m: Mode, a: string, b: string)
    requires SafeSeam(m, a, b)
    ensures Strip(m, a + b) == Strip(m, a) + Strip(End(m, a), b)
    ensures End(m, a + b) == End(End(m, a), b)
    decreases |a|
  {
    hide Strip, End;
    if a == [] {
      assert a + b == b;
      Unfold(m, a);
    } else {
      TokenAppend(m, a, b);
      Unfold(m, a);
      var (m', n) := Next(m, a);
      if |a| == n { Unfold(m', a[n..]); }
      StripAppend(m', a[n..], b);
      Regroup3(Emitted(m, a), Strip(m', a[n..]), Strip(End(m', a[n..]), b));
    }
  }

  lemma Regroup3(x: string, y: string, z: string)
    ensures x + (y + z) == x + y + z
  {}

  function Emitted(m: Mode, s: string): string
    requires s != []
  {
    if (|s| > 1 && IsPair(m, s[0], s[1])) || !Kept(m, s[0]) then [] else [s[0]]
  }

  /** At a safe seam the first token of `a` is the first token of `a + b`. */
  lemma TokenAppend(m: Mode, a: string, b: string)
    requires a != [] && SafeSeam(m, a, b)
    ensures Next(m, a + b) == Next(m, a) && Emitted(m, a + b) == Emitted(m, a)
    ensures var (m', n) := Next(m, a);
      && (a + b)[n..] == a[n..] + b && SafeSeam(m', a[n..], b)
      && Strip(m, a + b) == Emitted(m, a) + Strip(m', a[n..] + b) && End(m, a + b) == End(m', a[n..] + b)
      && Strip(m, a) == Emitted(m, a) + Strip(m', a[n..]) && End(m, a) == End(m', a[n..])
  {
    hide Strip, End;
    assert (a + b)[0] == a[0];
    assert |a| > 1 ==> (a + b)[1] == a[1];
    assert |a| == 1 && b != [] ==> (a + b)[1] == b[0];
    Unfold(m, a);
    Unfold(m, a + b);
    if |a| == 1 { Unfold(AfterOne(m, a[0]), a[1..]); }
  }

  /** One token of the input. */
  lemma Unfold(m: Mode, s: string)
    ensures s == [] ==> Strip(m, s) == [] && End(m, s) == m
    ensures s != [] ==>
      if |s| > 1 && IsPair(m, s[0], s[1]) then
        Strip(m, s) == Strip(AfterPair(m, s[1]), s[2..]) && End(m, s) == End(AfterPair(m, s[1]), s[2..])
      else
        && Strip(m, s) == (if Kept(m, s[0]) then [s[0]] else []) + Strip(AfterOne(m, s[0]), s[1..])
        && End(m, s) == End(AfterOne(m, s[0]), s[1..])
  {}

  // ---------- string literals ----------

  /** The rest of a JSON string literal after its opening quote: RFC 8259, section 7. */
  predicate LiteralTail(s: string)
    decreases |s|
  {
    s != [] &&
    (if s[0] == '"' then |s| == 1
     else if s[0] == '\\' then |s| > 1 && LiteralTail(s[2..])
     else LiteralTail(s[1..]))
  }

  predicate IsLiteral(s: string) {
    s != [] && s[0] == '"' && LiteralTail(s[1..])
  }

  lemma {:induction false} TailCopied(t: string)
    requires LiteralTail(t)
    ensures Strip(InString, t) == t && End(InString, t) == Normal && Last(t) == '"'
    decreases |t|
  {
    if t[0] == '\\' {
      TailCopied(t[2..]);
      EscapedPair(t);
      hide Strip, End, LiteralTail;
      assert t == [t[0], t[1]] + t[2..];
    } else if t[0] != '"' {
      TailCopied(t[1..]);
    }
  }

  lemma StringStep(m: Mode, s: string)
    requires s != [] && (m == InString || m == Escaped)
    ensures Strip(m, s) == [s[0]] + Strip(AfterOne(m, s[0]), s[1..])
    ensures End(m, s) == End(AfterOne(m, s[0]), s[1..])
  {}

  lemma EscapedPair(t: string)
    requires |t| > 1 && t[0] == '\\'
    ensures Strip(InString, t) == [t[0], t[1]] + Strip(InString, t[2..])
    ensures End(InString, t) == End(InString, t[2..])
  {
    hide Strip, End, LiteralTail;
    var u := t[1..];
    StringStep(InString, t);
    StringStep(Escaped, u);
    assert u[1..] == t[2..] && u[0] == t[1];
    Regroup3([t[0]], [t[1]], Strip(InString, t[2..]));
  }

  lemma LiteralCopied(lit: string)
    requires IsLiteral(lit)
    ensures Strip(Normal, lit) == lit && End(Normal, lit) == Normal && Last(lit) == '"'
  {
    TailCopied(lit[1..]);
  }

  /** A string literal outside comments is copied unchanged, whatever it contains. */
  lemma LiteralsAreKept(a: string, lit: string, b: string)
    requires End(Normal, a) == Normal && IsLiteral(lit)
    ensures Strip(Normal, a + lit + b) == Strip(Normal, a) + lit + Strip(Normal, b)
  {
    LiteralCopied(lit);
    StripAppend(Normal, a, lit);
    assert Last(a + lit) == Last(lit);
    if EndsInSlash(Normal, a + lit) {
      SlashIsLast(Normal, a + lit);
    }
    StripAppend(Normal, a + lit, b);
  }

  // ---------- no comment, and line comments ----------

  /** No comment can begin here. */
  predicate NoCommentStart(s: string) {
    forall i :: 0 <= i < |s| - 1 ==> !(s[i] == '/' && s[i + 1] in {'/', '*'})
  }

  /** Such a text is kept as it is, its strings and its lone slashes included. */
  lemma {:induction false} NothingToStrip(m: Mode, s: string)
    requires NoCommentStart(s) && m in {Normal, InString, Escaped}
    ensures Strip(m, s) == s
    decreases |s|
  {
    Unfold(m, s);
    if s != [] {
      hide Strip, End;
      assert forall i :: 0 <= i < |s[1..]| ==> s[1..][i] == s[i + 1];
      NothingToStrip(AfterOne(m, s[0]), s[1..]);
      assert s == [s[0]] + s[1..];
    }
  }

  lemma {:induction false} LineSkipped(note: string, b: string)
    requires '\n' !in note && (b == [] || b[0] == '\n')
    ensures Strip(InLine, note + b) == Strip(Normal, b)
  {
    if note == [] {
      assert note + b == b;
      if b != [] {
        Unfold(InLine, b);
        Unfold(Normal, b);
      }
    } else {
      assert note[0] in note && '\n' !in note[1..];
      assert (note + b)[1..] == note[1..] + b;
      LineSkipped(note[1..], b);
    }
  }

  /** A line comment outside strings and comments, not right after such a slash, is as if it were not
      there; the line end after it, or the end of the text, stays. */
  lemma LineCommentIgnored(a: string, note: string, b: string)
    requires End(Normal, a) == Normal && !EndsInSlash(Normal, a)
    requires '\n' !in note && (b == [] || b[0] == '\n')
    ensures Strip(Normal, a + ("//" + note + b)) == Strip(Normal, a + b)
  {
    var comment := "//" + note + b;
    assert comment[2..] == note + b;
    LineSkipped(note, b);
    StripAppend(Normal, a, comment);
    StripAppend(Normal, a, b);
  }

  // ---------- block comments ----------

  predicate NoBlockEnd(body: string) {
    forall i :: 0 <= i < |body| - 1 ==> !(body[i] == '*' && body[i + 1] == '/')
  }

  lemma {:induction false} BlockSkipped(body: string, b: string)
    requires NoBlockEnd(body)
    ensures Strip(InBlock, body + "*/" + b) == Strip(Normal, b)
    decreases |body|
  {
    var s := body + "*/" + b;
    if body == [] {
      assert s[2..] == b;
    } else {
      assert s[1..] == body[1..] + "*/" + b;
      assert s[1] == (if |body| > 1 then body[1] else '*');
      BlockSkipped(body[1..], b);
    }
  }

  /** A block comment inserted outside strings and comments, not right after a slash that is itself
      outside them, is as if it were not there. */
  lemma BlockCommentIgnored(a: string, body: string, b: string)
    requires End(Normal, a) == Normal && !EndsInSlash(Normal, a) && NoBlockEnd(body)
    ensures Strip(Normal, a + ("/*" + body + "*/" + b)) == Strip(Normal, a + b)
  {
    var comment := "/*" + body + "*/" + b;
    assert comment[2..] == body + "*/" + b;
    BlockSkipped(body, b);
    StripAppend(Normal, a, comment);
    StripAppend(Normal, a, b);
  }

  /** Without its last slash the text is still outside strings and comments, and not after another
      such slash. */
  lemma {:induction false} SlashOff(m: Mode, s: string)
    requires EndsInSlash(m, s)
    ensures var init := s[..|s| - 1];
      s == init + "/" && End(m, init) == Normal && !EndsInSlash(m, init)
    decreases |s|
  {
    var init := s[..|s| - 1];
    var (m', n) := Next(m, s);
    hide Strip;
    SlashIsLast(m, s);
    assert s == init + "/";
    if |s| > n {
      var rest := s[n..];
      SlashOff(m', rest);
      assert rest[..|rest| - 1] == init[n..];
      if |s| == 2 {
        assert n == 1 && init == [s[0]];
        assert m' == Normal;
      } else {
        assert init[0] == s[0] && init[1] == s[1];
        assert Next(m, init) == (m', n);
      }
      Unfold(m, init);
    }
  }

  /** What follows a line comment begins with a line end. */
  lemma {:induction false} LineOutput(s: string)
    ensures Strip(InLine, s) == "" || Strip(InLine, s)[0] == '\n'
    decreases |s|
  {
    if s != [] && s[0] != '\n' {
      LineOutput(s[1..]);
    }
  }

  /** Right after such a slash it is not ignored: the two slashes begin a line comment. */
  lemma AfterSlashItIsNot(a: string, body: string, b: string)
    requires EndsInSlash(Normal, a) && (b == [] || b[0] !in {'/', '*'})
    ensures Strip(Normal, a + ("/*" + body + "*/" + b)) != Strip(Normal, a + b)
  {
    var init, comment := a[..|a| - 1], "/*" + body + "*/" + b;
    SlashOff(Normal, a);
    var line, kept := "/" + comment, "/" + b;
    assert a + comment == init + line && a + b == init + kept;
    StripAppend(Normal, init, line);
    StripAppend(Normal, init, kept);
    assert line[0] == '/' && line[1] == '/' && kept[1..] == b;
    LineOutput(line[2..]);
    assert Strip(Normal, line) == Strip(InLine, line[2..]);
    assert Strip(Normal, kept)[0] == '/';
    if Strip(Normal, a + comment) == Strip(Normal, a + b) {
      SameTail(Strip(Normal, init), Strip(Normal, line), Strip(Normal, kept));
      assert false;
    }
  }

  /** At a place outside strings and comments a block comment is ignored, whatever follows, if and
      only if that place is not right after a slash. */
  lemma BlockCommentIgnoredIff(a: string, body: string)
    requires End(Normal, a) == Normal && NoBlockEnd(body)
    ensures (forall b :: Strip(Normal, a + ("/*" + body + "*/" + b)) == Strip(Normal, a + b))
        <==> !EndsInSlash(Normal, a)
  {
    if EndsInSlash(Normal, a) {
      AfterSlashItIsNot(a, body, "");
    } else {
      forall b ensures Strip(Normal, a + ("/*" + body + "*/" + b)) == Strip(Normal, a + b) {
        BlockCommentIgnored(a, body, b);
      }
    }
  }
}
