/** The rewrite of the application's `.env` file that points MySQL at the pinned
    certificate authority (deploy/production_db_boundary_bootstrap.py, `_render_env`). */
module EnvRewrite {

  datatype EnvError = EnvShape | EnvTls | EnvCa

  datatype Result<+T> = Ok(value: T) | Err(error: EnvError)

  datatype Key = SslCa | TlsRequired

  // A line that the rewrite looks at, or one that it must leave alone.
  datatype Line = Unrelated | Setting(key: Key, value: string, ending: string)

  const OLD_CA := "/etc/probiga/mysql-combined-ca.pem"
  const CA_CONFIG_VALUE := "/etc/probiga/mysql84-ca.pem"

  function KeyName(key: Key): string {
    match key
    case SslCa => "MYSQL_SSL_CA"
    case TlsRequired => "MYSQL_TLS_REQUIRED"
  }

  function Pinned(key: Key): string {
    match key
    case SslCa => CA_CONFIG_VALUE
    case TlsRequired => "true"
  }

  /* ---------- Python's str.splitlines(keepends=True) ---------- */

  // Every character at which Python ends a line; '\r' followed by '\n' is one end.
  const LINE_BREAKS: set<char> :=
    {'\n', '\r', '\U{0B}', '\U{0C}', '\U{1C}', '\U{1D}', '\U{1E}', '\U{85}', '\U{2028}', '\U{2029}'}

  function FirstBreak(s: string, breaks: set<char>): (k: nat)
    ensures k <= |s|
  {
    if s == "" || s[0] in breaks then 0 else 1 + FirstBreak(s[1..], breaks)
  }

  lemma {:induction false} FirstBreakSpec(s: string, breaks: set<char>)
    ensures forall i :: 0 <= i < FirstBreak(s, breaks) ==> s[i] !in breaks
    ensures FirstBreak(s, breaks) < |s| ==> s[FirstBreak(s, breaks)] in breaks
  {
    if s != "" && s[0] !in breaks {
      FirstBreakSpec(s[1..], breaks);
    }
  }

  // Length of the first line of a non-empty text, its terminator included.
  function LineLength(s: string, breaks: set<char>): (k: nat)
    requires s != ""
    ensures 1 <= k <= |s|
  {
    var b := FirstBreak(s, breaks);
    if b == |s| then b
    else if s[b] == '\r' && b + 1 < |s| && s[b + 1] == '\n' then b + 2
    else b + 1
  }

  function Split(s: string, breaks: set<char>): seq<string> {
    if s == "" then []
    else
      var k := LineLength(s, breaks);
      [s[..k]] + Split(s[k..], breaks)
  }

  function SplitLines(s: string): seq<string> {
    Split(s, LINE_BREAKS)
  }

  function Join(lines: seq<string>): string {
    if lines == [] then "" else lines[0] + Join(lines[1..])
  }

  // One line: any break is the terminator, and "\r\n" counts as one terminator.
  predicate IsLine(l: string, breaks: set<char>) {
    && l != ""
    && forall i :: 0 <= i < |l| && l[i] in breaks ==>
         i == |l| - 1 || (i == |l| - 2 && EndsCrLf(l))
  }

  predicate EndsCrLf(l: string) {
    |l| >= 2 && l[|l| - 2] == '\r' && l[|l| - 1] == '\n'
  }

  predicate Follows(l: string, m: string, breaks: set<char>) {
    && l != "" && l[|l| - 1] in breaks
    && (m != "" ==> !(l[|l| - 1] == '\r' && m[0] == '\n'))
  }

  // The lines of some text: all terminated except perhaps the last, and no
  // terminator that joining the next line would turn into "\r\n".
  predicate AreLines(ls: seq<string>, breaks: set<char>) {
    && (forall i :: 0 <= i < |ls| ==> IsLine(ls[i], breaks))
    && (forall i :: 0 <= i < |ls| - 1 ==> Follows(ls[i], ls[i + 1], breaks))
  }

  lemma JoinCons(first: string, rest: seq<string>)
    ensures Join([first] + rest) == first + Join(rest)
  {
    assert ([first] + rest)[1..] == rest;
  }

  lemma {:induction false} JoinSplit(s: string, breaks: set<char>)
    ensures Join(Split(s, breaks)) == s
  {
    if s != "" {
      var k := LineLength(s, breaks);
      JoinSplit(s[k..], breaks);
      JoinCons(s[..k], Split(s[k..], breaks));
    }
  }

  lemma FirstLineShape(s: string, breaks: set<char>)
    requires s != "" && '\r' in breaks && '\n' in breaks
    ensures var k := LineLength(s, breaks);
      IsLine(s[..k], breaks) && (k < |s| ==> Follows(s[..k], s[k..], breaks))
  {
    FirstBreakSpec(s, breaks);
  }

  lemma {:induction false} SplitGivesLines(s: string, breaks: set<char>)
    requires '\r' in breaks && '\n' in breaks
    ensures AreLines(Split(s, breaks), breaks)
    ensures s != "" ==> Split(s, breaks) != [] && Split(s, breaks)[0] != "" && Split(s, breaks)[0][0] == s[0]
  {
    if s != "" {
      var k := LineLength(s, breaks);
      var rest := s[k..];
      SplitGivesLines(rest, breaks);
      FirstLineShape(s, breaks);
      var ls := Split(s, breaks);
      assert ls == [s[..k]] + Split(rest, breaks);
      forall i | 0 <= i < |ls| - 1 ensures Follows(ls[i], ls[i + 1], breaks) {
        if i > 0 {
          assert ls[i] == Split(rest, breaks)[i - 1] && ls[i + 1] == Split(rest, breaks)[i];
        }
      }
    }
  }

  lemma LineLengthOf(l: string, rest: string, breaks: set<char>)
    requires IsLine(l, breaks)
    requires '\r' in breaks
    requires rest != "" ==> Follows(l, rest, breaks)
    ensures LineLength(l + rest, breaks) == |l|
  {
    var s := l + rest;
    var b := FirstBreak(s, breaks);
    FirstBreakSpec(s, breaks);
    assert forall i :: 0 <= i < |l| ==> s[i] == l[i];
    if rest != "" {
      assert l[|l| - 1] in breaks && s[|l|] == rest[0];
    }
    assert b < |l| ==> l[b] in breaks;
  }

  // What is joined splits back into the same lines.
  lemma {:induction false} SplitJoin(ls: seq<string>, breaks: set<char>)
    requires AreLines(ls, breaks)
    requires '\r' in breaks
    ensures Split(Join(ls), breaks) == ls
  {
    if ls != [] {
      var tail := ls[1..];
      assert forall i :: 0 <= i < |tail| ==> tail[i] == ls[i + 1];
      assert AreLines(tail, breaks);
      SplitJoin(tail, breaks);
      var rest := Join(tail);
      if tail != [] {
        assert Follows(ls[0], ls[1], breaks);
        assert rest[0] == ls[1][0];
      }
      LineLengthOf(ls[0], rest, breaks);
      var all := ls[0] + rest;
      assert Join(ls) == all;
      assert all[..|ls[0]|] == ls[0] && all[|ls[0]|..] == rest;
    }
  }

  // What `splitlines(keepends=True)` may return: no line is empty or goes on after one of Python's
  // ten line breaks, "\r\n" is one break, and every line but the last ends with one.
  ghost predicate ArePythonLines(ls: seq<string>) {
    var breaks := {'\n', '\r', '\U{0B}', '\U{0C}', '\U{1C}', '\U{1D}', '\U{1E}', '\U{85}', '\U{2028}', '\U{2029}'};
    && (forall i :: 0 <= i < |ls| ==> ls[i] != "")
    && (forall i, j :: 0 <= i < |ls| && 0 <= j < |ls[i]| - 1 && ls[i][j] in breaks ==>
          ls[i][j] == '\r' && ls[i][j + 1] == '\n' && j == |ls[i]| - 2)
    && (forall i :: 0 <= i < |ls| - 1 ==>
          ls[i][|ls[i]| - 1] in breaks && !(ls[i][|ls[i]| - 1] == '\r' && ls[i + 1][0] == '\n'))
  }

  lemma PythonLinesAre(ls: seq<string>)
    ensures ArePythonLines(ls) <==> AreLines(ls, LINE_BREAKS)
  {
    if ArePythonLines(ls) {
      forall i | 0 <= i < |ls| ensures IsLine(ls[i], LINE_BREAKS) {
        forall j | 0 <= j < |ls[i]| && ls[i][j] in LINE_BREAKS
          ensures j == |ls[i]| - 1 || (j == |ls[i]| - 2 && EndsCrLf(ls[i]))
        {
        }
      }
    }
    if AreLines(ls, LINE_BREAKS) {
      forall i, j | 0 <= i < |ls| && 0 <= j < |ls[i]| - 1 && ls[i][j] in LINE_BREAKS
        ensures ls[i][j] == '\r' && ls[i][j + 1] == '\n' && j == |ls[i]| - 2
      {
        assert IsLine(ls[i], LINE_BREAKS);
      }
      forall i | 0 <= i < |ls| - 1 ensures ls[i][|ls[i]| - 1] in LINE_BREAKS && !(ls[i][|ls[i]| - 1] == '\r' && ls[i + 1][0] == '\n') {
        assert Follows(ls[i], ls[i + 1], LINE_BREAKS) && IsLine(ls[i + 1], LINE_BREAKS);
      }
    }
  }

  /** The lines of a text are the only Python lines that join to it. */
  lemma SplitLinesIs(text: string, ls: seq<string>)
    ensures ls == SplitLines(text) <==> ArePythonLines(ls) && Join(ls) == text
  {
    SplitGivesLines(text, LINE_BREAKS);
    JoinSplit(text, LINE_BREAKS);
    PythonLinesAre(ls);
    if AreLines(ls, LINE_BREAKS) {
      SplitJoin(ls, LINE_BREAKS);
    }
  }

  /* ---------- the rewrite of one line ---------- */

  function AfterKey(line: string): (r: (Line, string)) {
    if KeyName(SslCa) + "=" <= line then (Setting(SslCa, "", ""), line[13..])
    else if KeyName(TlsRequired) + "=" <= line then (Setting(TlsRequired, "", ""), line[19..])
    else (Unrelated, "")
  }

  function FirstCrLf(s: string): (k: nat)
    ensures k <= |s|
    ensures forall i :: 0 <= i < k ==> s[i] != '\r' && s[i] != '\n'
    ensures k < |s| ==> s[k] == '\r' || s[k] == '\n'
  {
    if s == "" || s[0] == '\r' || s[0] == '\n' then 0 else 1 + FirstCrLf(s[1..])
  }

  predicate IsEnding(e: string) {
    || |e| == 0
    || (|e| == 1 && e[0] == '\n')
    || (|e| == 2 && e[0] == '\r' && e[1] == '\n')
  }

  // The pattern `^(KEY)=([^\r\n]*)(\r?\n)?$` on one line.
  function Parse(line: string): Line {
    var (key, tail) := AfterKey(line);
    if key.Unrelated? then Unrelated
    else
      var k := FirstCrLf(tail);
      if IsEnding(tail[k..]) then Setting(key.key, tail[..k], tail[k..])
      else Unrelated
  }

  // A value the rewrite refuses to replace.
  function Objection(key: Key, value: string): Result<()> {
    if key == TlsRequired && value != "true" then Err(EnvTls)
    else if key == SslCa && value != OLD_CA && value != CA_CONFIG_VALUE then Err(EnvCa)
    else Ok(())
  }

  function PinnedLine(key: Key, ending: string): string {
    KeyName(key) + "=" + Pinned(key) + ending
  }

  function RewriteLine(line: string): Result<string> {
    match Parse(line)
    case Unrelated => Ok(line)
    case Setting(key, value, ending) =>
      match Objection(key, value)
      case Err(e) => Err(e)
      case Ok(_) => Ok(PinnedLine(key, ending))
  }

  function RewriteLines(lines: seq<string>): (r: Result<seq<string>>)
    ensures r.Ok? ==> |r.value| == |lines|
    ensures r.Ok? ==> forall i :: 0 <= i < |lines| ==> RewriteLine(lines[i]) == Ok(r.value[i])
  {
    if lines == [] then Ok([])
    else match RewriteLines(lines[..|lines| - 1])
      case Err(e) => Err(e)
      case Ok(done) =>
        match RewriteLine(lines[|lines| - 1])
        case Err(e) => Err(e)
        case Ok(l) => Ok(done + [l])
  }

  function Count(lines: seq<string>, key: Key): nat {
    if lines == [] then 0
    else
      var n := Count(lines[..|lines| - 1], key);
      var p := Parse(lines[|lines| - 1]);
      if p.Setting? && p.key == key then n + 1 else n
  }

  /** What `_render_env` returns for a decoded text, or the error it raises. */
  function Render(text: string): Result<string> {
    if '\0' in text then Err(EnvShape)
    else
      var lines := SplitLines(text);
      match RewriteLines(lines)
      case Err(e) => Err(e)
      case Ok(done) =>
        if Count(lines, SslCa) == 1 && Count(lines, TlsRequired) == 1 then Ok(Join(done))
        else Err(EnvShape)
  }

  /** `_render_env`: one pass over the lines, counting the two settings. */
  method RenderEnv(text: string) returns (r: Result<string>)
    ensures r == Render(text)
  {
    if '\0' in text {
      return Err(EnvShape);
    }
    var lines := SplitLines(text);
    var found := map[SslCa := 0, TlsRequired := 0];
    var rendered: seq<string> := [];
    var i := 0;
    while i < |lines|
      invariant 0 <= i <= |lines|
      invariant RewriteLines(lines[..i]) == Ok(rendered)
      invariant SslCa in found && found[SslCa] == Count(lines[..i], SslCa)
      invariant TlsRequired in found && found[TlsRequired] == Count(lines[..i], TlsRequired)
    {
      var line := lines[i];
      NextLine(lines, i, rendered);
      NextCount(lines, i, SslCa);
      NextCount(lines, i, TlsRequired);
      var p := Parse(line);
      if p.Unrelated? {
        rendered := rendered + [line];
      } else {
        found := found[p.key := found[p.key] + 1];
        var objection := Objection(p.key, p.value);
        if objection.Err? {
          return Err(objection.error);
        }
        rendered := rendered + [PinnedLine(p.key, p.ending)];
      }
      i := i + 1;
    }
    assert lines[..i] == lines;
    if found[SslCa] != 1 || found[TlsRequired] != 1 {
      return Err(EnvShape);
    }
    return Ok(Join(rendered));
  }

  // One turn of the loop.
  lemma {:induction false} NextLine(lines: seq<string>, i: nat, done: seq<string>)
    requires i < |lines| && RewriteLines(lines[..i]) == Ok(done)
    ensures RewriteLine(lines[i]).Ok? ==> RewriteLines(lines[..i + 1]) == Ok(done + [RewriteLine(lines[i]).value])
    ensures RewriteLine(lines[i]).Err? ==> RewriteLines(lines) == Err(RewriteLine(lines[i]).error)
  {
    assert lines[..i + 1][..i] == lines[..i];
    if RewriteLine(lines[i]).Err? {
      RewriteErrorStays(lines, i + 1);
    }
  }

  lemma {:induction false} NextCount(lines: seq<string>, i: nat, key: Key)
    requires i < |lines|
    ensures Count(lines[..i + 1], key) ==
            Count(lines[..i], key) + if Parse(lines[i]).Setting? && Parse(lines[i]).key == key then 1 else 0
  {
    assert lines[..i + 1][..i] == lines[..i];
  }

  lemma {:induction false} RewriteErrorStays(lines: seq<string>, k: nat)
    requires k <= |lines| && RewriteLines(lines[..k]).Err?
    ensures RewriteLines(lines) == RewriteLines(lines[..k])
    decreases |lines|
  {
    if k == |lines| {
      assert lines[..k] == lines;
    } else {
      var front := lines[..|lines| - 1];
      assert front[..k] == lines[..k];
      RewriteErrorStays(front, k);
    }
  }

  /* ---------- what the rewrite keeps ---------- */

  // The prefix, value and terminator of a setting make up the whole line.
  lemma ParseShape(line: string)
    requires Parse(line).Setting?
    ensures var p := Parse(line);
      && line == KeyName(p.key) + "=" + p.value + p.ending
      && IsEnding(p.ending)
  {
    var tail := AfterKeyShape(line);
    Reassembled(KeyName(Parse(line).key) + "=", tail, FirstCrLf(tail));
  }

  lemma Reassembled(prefix: string, tail: string, k: nat)
    requires k <= |tail|
    ensures prefix + tail == prefix + tail[..k] + tail[k..]
  {
    assert tail == tail[..k] + tail[k..];
  }

  lemma AfterKeyShape(line: string) returns (tail: string)
    requires !AfterKey(line).0.Unrelated?
    ensures tail == AfterKey(line).1
    ensures line == KeyName(AfterKey(line).0.key) + "=" + tail
  {
    tail := AfterKey(line).1;
  }

  lemma FirstCrLfIs(s: string, k: nat)
    requires k <= |s|
    requires forall i :: 0 <= i < k ==> s[i] != '\r' && s[i] != '\n'
    requires k < |s| ==> s[k] == '\r' || s[k] == '\n'
    ensures FirstCrLf(s) == k
  {
  }

  lemma NoCrLfInPinned(key: Key)
    ensures forall i :: 0 <= i < |Pinned(key)| ==> Pinned(key)[i] != '\r' && Pinned(key)[i] != '\n'
  {
  }

  lemma ParsePinned(key: Key, ending: string)
    requires IsEnding(ending)
    ensures Parse(PinnedLine(key, ending)) == Setting(key, Pinned(key), ending)
  {
    var tail := Pinned(key) + ending;
    var line := PinnedLine(key, ending);
    NoCrLfInPinned(key);
    FirstCrLfIs(tail, |Pinned(key)|);
    assert tail[..|Pinned(key)|] == Pinned(key);
    assert tail[|Pinned(key)|..] == ending;
    AfterKeyOf(key, tail);
    assert line == KeyName(key) + "=" + tail;
  }

  lemma AfterKeyOf(key: Key, tail: string)
    ensures AfterKey(KeyName(key) + "=" + tail) == (Setting(key, "", ""), tail)
  {
    var line := KeyName(key) + "=" + tail;
    assert line[|KeyName(key)| + 1..] == tail;
    assert line[6] == KeyName(key)[6];
    if key.TlsRequired? {
      assert (KeyName(SslCa) + "=")[6] != line[6];
    }
  }

  // A rewritten line is a fixed point, of the same kind, with the same terminator.
  lemma RewriteLineFixed(line: string)
    requires RewriteLine(line).Ok?
    ensures RewriteLine(RewriteLine(line).value) == RewriteLine(line)
    ensures Parse(RewriteLine(line).value).Setting? == Parse(line).Setting?
    ensures Parse(line).Setting? ==>
      && Parse(RewriteLine(line).value).key == Parse(line).key
      && Parse(RewriteLine(line).value).ending == Parse(line).ending
  {
    if Parse(line).Setting? {
      ParseShape(line);
      ParsePinned(Parse(line).key, Parse(line).ending);
    }
  }

  lemma NoBreaksInKey(key: Key)
    ensures KeyName(key)[0] == 'M' && forall i :: 0 <= i < |KeyName(key)| ==> KeyName(key)[i] !in LINE_BREAKS
  {
  }

  lemma NoBreaksInAllowed(key: Key, value: string)
    requires Objection(key, value).Ok?
    ensures forall i :: 0 <= i < |value| ==> value[i] !in LINE_BREAKS
  {
  }

  lemma NoBreaksInPinned(key: Key, value: string)
    requires Objection(key, value).Ok?
    ensures var body := KeyName(key) + "=" + value;
      body[0] == 'M' && forall i :: 0 <= i < |body| ==> body[i] !in LINE_BREAKS
  {
    NoBreaksInKey(key);
    NoBreaksInAllowed(key, value);
  }

  lemma ShapeOfBody(body: string, ending: string)
    requires body != "" && forall i :: 0 <= i < |body| ==> body[i] !in LINE_BREAKS
    requires IsEnding(ending)
    ensures IsLine(body + ending, LINE_BREAKS) && (body + ending)[0] == body[0]
    ensures ending == "" ==> (body + ending)[|body + ending| - 1] !in LINE_BREAKS
    ensures ending != "" ==> (body + ending)[|body + ending| - 1] == '\n'
  {
  }

  lemma RewriteLineShape(line: string)
    requires IsLine(line, LINE_BREAKS) && RewriteLine(line).Ok?
    ensures var out := RewriteLine(line).value;
      && IsLine(out, LINE_BREAKS) && out[0] == line[0]
      && (line[|line| - 1] in LINE_BREAKS ==> out[|out| - 1] == line[|line| - 1])
  {
    var p := Parse(line);
    if p.Setting? {
      ParseShape(line);
      NoBreaksInPinned(p.key, p.value);
      NoBreaksInPinned(p.key, Pinned(p.key));
      ShapeOfBody(KeyName(p.key) + "=" + p.value, p.ending);
      ShapeOfBody(KeyName(p.key) + "=" + Pinned(p.key), p.ending);
    }
  }

  lemma RewriteKeepsLines(lines: seq<string>)
    requires AreLines(lines, LINE_BREAKS) && RewriteLines(lines).Ok?
    ensures AreLines(RewriteLines(lines).value, LINE_BREAKS)
  {
    var out := RewriteLines(lines).value;
    forall i | 0 <= i < |out| ensures IsLine(out[i], LINE_BREAKS) {
      RewriteLineShape(lines[i]);
    }
    forall i | 0 <= i < |out| - 1 ensures Follows(out[i], out[i + 1], LINE_BREAKS) {
      assert Follows(lines[i], lines[i + 1], LINE_BREAKS);
      RewriteLineShape(lines[i]);
      RewriteLineShape(lines[i + 1]);
    }
  }

  lemma {:induction false} RewriteLinesFixed(lines: seq<string>)
    requires RewriteLines(lines).Ok?
    ensures var out := RewriteLines(lines).value;
      && RewriteLines(out) == Ok(out)
      && (forall key :: Count(out, key) == Count(lines, key))
  {
    if lines != [] {
      var front, last := lines[..|lines| - 1], lines[|lines| - 1];
      RewriteLinesFixed(front);
      RewriteLineFixed(last);
      var out := RewriteLines(lines).value;
      assert out[..|out| - 1] == RewriteLines(front).value;
    }
  }

  lemma JoinHasNoNul(lines: seq<string>)
    requires forall i :: 0 <= i < |lines| ==> '\0' !in lines[i]
    ensures '\0' !in Join(lines)
  {
    if lines != [] {
      JoinHasNoNul(lines[1..]);
    }
  }

  lemma {:induction false} LinesHaveNoNul(s: string, breaks: set<char>)
    requires '\0' !in s
    ensures forall i :: 0 <= i < |Split(s, breaks)| ==> '\0' !in Split(s, breaks)[i]
  {
    if s != "" {
      LinesHaveNoNul(s[LineLength(s, breaks)..], breaks);
    }
  }

  lemma NoNulIn(key: Key)
    ensures '\0' !in KeyName(key) && '\0' !in Pinned(key)
  {
  }

  lemma PinnedHasNoNul(key: Key, ending: string)
    requires IsEnding(ending)
    ensures '\0' !in PinnedLine(key, ending)
  {
    NoNulIn(key);
  }

  lemma RewriteHasNoNul(lines: seq<string>)
    requires RewriteLines(lines).Ok?
    requires forall i :: 0 <= i < |lines| ==> '\0' !in lines[i]
    ensures forall i :: 0 <= i < |lines| ==> '\0' !in RewriteLines(lines).value[i]
  {
    forall i | 0 <= i < |lines| ensures '\0' !in RewriteLines(lines).value[i] {
      var p := Parse(lines[i]);
      if p.Setting? {
        ParseShape(lines[i]);
        PinnedHasNoNul(p.key, p.ending);
      }
    }
  }

  /** The output splits back into exactly the rewritten lines: as many lines as
      before, every unrelated line byte for byte with its terminator, and each
      setting pinned under its own terminator. */
  lemma RenderKeepsLines(text: string)
    requires Render(text).Ok?
    ensures var before, after := SplitLines(text), SplitLines(Render(text).value);
      && |after| == |before|
      && Count(before, SslCa) == Count(before, TlsRequired) == 1
      && forall i :: 0 <= i < |before| ==>
           match Parse(before[i])
           case Unrelated => after[i] == before[i]
           case Setting(key, _, ending) => after[i] == PinnedLine(key, ending)
  {
    SplitGivesLines(text, LINE_BREAKS);
    RewriteKeepsLines(SplitLines(text));
    SplitJoin(RewriteLines(SplitLines(text)).value, LINE_BREAKS);
  }

  /* ---------- when it succeeds, in terms of the text alone ---------- */

  // The line gives `name` this value: no line end within the value, and only a line end after it.
  ghost predicate Sets(line: string, name: string, value: string, ending: string) {
    && line == name + "=" + value + ending
    && (ending == "" || ending == "\n" || ending == "\r\n")
    && '\r' !in value && '\n' !in value
  }

  ghost predicate IsSetting(line: string, name: string) {
    exists value, ending :: Sets(line, name, value, ending)
  }

  ghost predicate SetOnce(lines: seq<string>, name: string) {
    exists i :: 0 <= i < |lines| && IsSetting(lines[i], name)
                && forall j :: 0 <= j < |lines| && j != i ==> !IsSetting(lines[j], name)
  }

  // A line whose value stops the rewrite, and the error it raises.
  ghost predicate Refused(line: string, error: EnvError) {
    exists value, ending ::
      || (Sets(line, "MYSQL_TLS_REQUIRED", value, ending) && value != "true" && error == EnvTls)
      || (Sets(line, "MYSQL_SSL_CA", value, ending) && error == EnvCa
          && value != "/etc/probiga/mysql-combined-ca.pem" && value != "/etc/probiga/mysql84-ca.pem")
  }

  lemma ParseOf(line: string, key: Key, value: string, ending: string)
    ensures Parse(line) == Setting(key, value, ending) <==> Sets(line, KeyName(key), value, ending)
  {
    if Parse(line) == Setting(key, value, ending) {
      ParseShape(line);
    }
    if Sets(line, KeyName(key), value, ending) {
      SettingParses(line, key, value, ending);
    }
  }

  lemma SettingParses(line: string, key: Key, value: string, ending: string)
    requires Sets(line, KeyName(key), value, ending)
    ensures Parse(line) == Setting(key, value, ending)
  {
    var tail := value + ending;
    AfterKeyOf(key, tail);
    assert line == KeyName(key) + "=" + tail;
    FirstCrLfIs(tail, |value|);
    assert tail[..|value|] == value && tail[|value|..] == ending;
  }

  lemma IsSettingOf(line: string, key: Key)
    ensures IsSetting(line, KeyName(key)) <==> Parse(line).Setting? && Parse(line).key == key
  {
    if Parse(line).Setting? {
      ParseOf(line, Parse(line).key, Parse(line).value, Parse(line).ending);
    }
    if IsSetting(line, KeyName(key)) {
      var value, ending :| Sets(line, KeyName(key), value, ending);
      ParseOf(line, key, value, ending);
    }
  }

  lemma RefusedOf(line: string, error: EnvError)
    ensures Refused(line, error) <==> RewriteLine(line) == Err(error)
  {
    if RewriteLine(line).Err? {
      ParseOf(line, Parse(line).key, Parse(line).value, Parse(line).ending);
    }
    if Refused(line, error) {
      var value, ending :|
        || (Sets(line, KeyName(TlsRequired), value, ending) && value != "true" && error == EnvTls)
        || (Sets(line, KeyName(SslCa), value, ending) && error == EnvCa && value != OLD_CA && value != CA_CONFIG_VALUE);
      ParseOf(line, if error == EnvTls then TlsRequired else SslCa, value, ending);
    }
  }

  predicate Finds(line: string, key: Key) {
    var p := Parse(line);
    p.Setting? && p.key == key
  }

  predicate NoneFinds(lines: seq<string>, key: Key) {
    forall j :: 0 <= j < |lines| ==> !Finds(lines[j], key)
  }

  predicate OnlyAt(lines: seq<string>, i: nat, key: Key)
    requires i < |lines|
  {
    Finds(lines[i], key) && NoneFinds(lines[..i], key) && NoneFinds(lines[i + 1..], key)
  }

  lemma {:induction false} CountIsZero(lines: seq<string>, key: Key)
    ensures Count(lines, key) == 0 <==> NoneFinds(lines, key)
  {
    if lines != [] {
      var front, last := lines[..|lines| - 1], lines[|lines| - 1];
      CountIsZero(front, key);
      assert lines == front + [last];
    }
  }

  lemma {:induction false} CountIsOne(lines: seq<string>, key: Key) returns (i: nat)
    requires Count(lines, key) == 1
    ensures i < |lines| && OnlyAt(lines, i, key)
  {
    i := |lines| - 1;
    var front, last := lines[..i], lines[i];
    if Finds(last, key) {
      CountIsZero(front, key);
    } else {
      i := CountIsOne(front, key);
      assert lines[..i] == front[..i] && lines[i + 1..] == front[i + 1..] + [last];
    }
  }

  lemma {:induction false} OnlyOneCounts(lines: seq<string>, i: nat, key: Key)
    requires i < |lines| && OnlyAt(lines, i, key)
    ensures Count(lines, key) == 1
  {
    var front, last := lines[..|lines| - 1], lines[|lines| - 1];
    if i == |lines| - 1 {
      CountIsZero(front, key);
    } else {
      assert lines[..i] == front[..i] && lines[i + 1..] == front[i + 1..] + [last];
      OnlyOneCounts(front, i, key);
    }
  }

  lemma SetOnceOf(lines: seq<string>, key: Key)
    ensures SetOnce(lines, KeyName(key)) <==> Count(lines, key) == 1
  {
    forall i | 0 <= i < |lines| ensures IsSetting(lines[i], KeyName(key)) <==> Finds(lines[i], key) {
      IsSettingOf(lines[i], key);
    }
    if Count(lines, key) == 1 {
      var i := CountIsOne(lines, key);
      assert forall j :: 0 <= j < i ==> lines[j] == lines[..i][j];
      assert forall j :: i < j < |lines| ==> lines[j] == lines[i + 1..][j - i - 1];
      assert IsSetting(lines[i], KeyName(key));
    }
    if SetOnce(lines, KeyName(key)) {
      var i :| 0 <= i < |lines| && IsSetting(lines[i], KeyName(key))
               && forall j :: 0 <= j < |lines| && j != i ==> !IsSetting(lines[j], KeyName(key));
      OnlyOneCounts(lines, i, key);
    }
  }

  lemma {:induction false} RewriteLinesFails(lines: seq<string>, i: nat)
    requires i < |lines| && RewriteLine(lines[i]).Err?
    requires forall j :: 0 <= j < i ==> RewriteLine(lines[j]).Ok?
    ensures RewriteLines(lines) == Err(RewriteLine(lines[i]).error)
  {
    RewriteLinesPasses(lines[..i]);
    NextLine(lines, i, RewriteLines(lines[..i]).value);
  }

  lemma {:induction false} RewriteLinesPasses(lines: seq<string>)
    requires forall j :: 0 <= j < |lines| ==> RewriteLine(lines[j]).Ok?
    ensures RewriteLines(lines).Ok?
  {
    if lines != [] {
      RewriteLinesPasses(lines[..|lines| - 1]);
    }
  }

  ghost predicate NoneRefused(lines: seq<string>) {
    forall line <- lines, error :: !Refused(line, error)
  }

  lemma NoneRefusedOf(lines: seq<string>)
    ensures NoneRefused(lines) <==> RewriteLines(lines).Ok?
  {
    if NoneRefused(lines) {
      forall j | 0 <= j < |lines| ensures RewriteLine(lines[j]).Ok? {
        if RewriteLine(lines[j]).Err? {
          RefusedOf(lines[j], RewriteLine(lines[j]).error);
        }
      }
      RewriteLinesPasses(lines);
    }
    if RewriteLines(lines).Ok? {
      forall line <- lines, error ensures !Refused(line, error) {
        RefusedOf(line, error);
      }
    }
  }

  /** The rewrite succeeds exactly on texts without a NUL that set each name once, TLS to `true` and
      the authority to one of the two paths. */
  lemma RenderSucceeds(text: string)
    ensures Render(text).Ok? <==>
      && '\0' !in text
      && SetOnce(SplitLines(text), "MYSQL_SSL_CA") && SetOnce(SplitLines(text), "MYSQL_TLS_REQUIRED")
      && NoneRefused(SplitLines(text))
  {
    SetOnceOf(SplitLines(text), SslCa);
    SetOnceOf(SplitLines(text), TlsRequired);
    NoneRefusedOf(SplitLines(text));
  }

  /** Otherwise it raises the error of the first refused value, and `env-shape` when there is none. */
  lemma RenderRefuses(text: string, i: nat, error: EnvError)
    requires '\0' !in text && i < |SplitLines(text)| && Refused(SplitLines(text)[i], error)
    requires forall j, e :: 0 <= j < i ==> !Refused(SplitLines(text)[j], e)
    ensures Render(text) == Err(error)
  {
    var lines := SplitLines(text);
    RefusedOf(lines[i], error);
    forall j | 0 <= j < i ensures RewriteLine(lines[j]).Ok? {
      if RewriteLine(lines[j]).Err? {
        RefusedOf(lines[j], RewriteLine(lines[j]).error);
      }
    }
    RewriteLinesFails(lines, i);
  }

  lemma RenderMisshapen(text: string)
    requires Render(text).Err? && ('\0' in text || NoneRefused(SplitLines(text)))
    ensures Render(text) == Err(EnvShape)
  {
    NoneRefusedOf(SplitLines(text));
  }

  // What becomes of one line.
  ghost predicate Repointed(before: string, after: string) {
    && (!IsSetting(before, "MYSQL_SSL_CA") ==> after == before)
    && (forall value, ending :: Sets(before, "MYSQL_SSL_CA", value, ending) ==>
          Sets(after, "MYSQL_SSL_CA", "/etc/probiga/mysql84-ca.pem", ending))
  }

  lemma RewriteRepoints(line: string)
    requires RewriteLine(line).Ok?
    ensures Repointed(line, RewriteLine(line).value)
  {
    IsSettingOf(line, SslCa);
    if Finds(line, TlsRequired) {
      AcceptedTls(line, Parse(line).ending);
    }
    forall value, ending | Sets(line, KeyName(SslCa), value, ending)
      ensures Sets(RewriteLine(line).value, KeyName(SslCa), CA_CONFIG_VALUE, ending)
    {
      ParseOf(line, SslCa, value, ending);
      NoCrLfInPinned(SslCa);
    }
  }

  /** And then the line of the authority names the pinned one, under its own terminator; every other
      line of the file is what it was. */
  lemma RenderMeans(text: string)
    requires Render(text).Ok?
    ensures var before, after := SplitLines(text), SplitLines(Render(text).value);
      |after| == |before| && forall i :: 0 <= i < |before| ==> Repointed(before[i], after[i])
  {
    SplitGivesLines(text, LINE_BREAKS);
    RewriteKeepsLines(SplitLines(text));
    SplitJoin(RewriteLines(SplitLines(text)).value, LINE_BREAKS);
    forall i | 0 <= i < |SplitLines(text)| ensures Repointed(SplitLines(text)[i], SplitLines(Render(text).value)[i]) {
      RewriteRepoints(SplitLines(text)[i]);
    }
  }

  // A TLS setting that is accepted already reads as it will.
  lemma AcceptedTls(line: string, ending: string)
    requires RewriteLine(line).Ok? && Parse(line).Setting? && Parse(line).key == TlsRequired && Parse(line).ending == ending
    ensures PinnedLine(TlsRequired, ending) == line
  {
    ParseShape(line);
  }

  /** What a prepare writes is accepted unchanged by every later validation. */
  lemma RenderIdempotent(text: string)
    requires Render(text).Ok?
    ensures Render(Render(text).value) == Render(text)
  {
    var lines := SplitLines(text);
    var out := RewriteLines(lines).value;
    SplitGivesLines(text, LINE_BREAKS);
    RewriteKeepsLines(lines);
    SplitJoin(out, LINE_BREAKS);
    RewriteLinesFixed(lines);
    LinesHaveNoNul(text, LINE_BREAKS);
    RewriteHasNoNul(lines);
    JoinHasNoNul(out);
  }
}
