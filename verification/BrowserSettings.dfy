// The rewriter that stores the Chromium path in config.toml
// (src/browser_settings.rs), line by line. The file write itself is left out.
module BrowserSettings {
  import opened Prelude

  // ── Text helpers ───────────────────────────────────────────────────────────

  /** Unicode White_Space, which `str::trim` removes. */
  predicate IsSpace(c: char) {
    || '\t' <= c <= '\r' || c == ' ' || c == '\U{0085}' || c == '\U{00A0}' || c == '\U{1680}'
    || '\U{2000}' <= c <= '\U{200A}' || c == '\U{2028}' || c == '\U{2029}' || c == '\U{202F}' || c == '\U{205F}'
    || c == '\U{3000}'
  }

  function TrimStart(s: string): string {
    if s != [] && IsSpace(s[0]) then TrimStart(s[1..]) else s
  }

  function TrimEnd(s: string): string {
    if s != [] && IsSpace(s[|s| - 1]) then TrimEnd(s[..|s| - 1]) else s
  }

  function Trim(s: string): string {
    TrimEnd(TrimStart(s))
  }

  /** `s.replace(c, with)` for a single character. */
  function Replace(s: string, c: char, with: string): string {
    if s == [] then [] else (if s[0] == c then with else [s[0]]) + Replace(s[1..], c, with)
  }

  function EscapeToml(s: string): string {
    Replace(Replace(s, '\\', "\\\\"), '"', "\\\"")
  }

  const KEY := "chromium_path"

  /** The line written for a value. */
  function KeyLine(value: string): string {
    KEY + " = \"" + EscapeToml(value) + "\""
  }

  predicate IsHeader(trimmed: string) {
    trimmed != [] && trimmed[0] == '[' && trimmed[|trimmed| - 1] == ']'
  }

  const BROWSER := "[browser]"

  /** `is_chromium_path_key`: the key itself, not a longer name that starts like it. */
  predicate IsKey(trimmed: string) {
    KEY <= trimmed && var rest := TrimStart(trimmed[|KEY|..]); rest != [] && rest[0] == '='
  }

  // ── The rewrite ────────────────────────────────────────────────────────────

  datatype Rewrite = Rewrite(out: seq<string>, inBrowser: bool, wrote: bool)

  function Emit(r: Rewrite, value: Option<string>): Rewrite {
    if r.wrote || value.None? then r else r.(out := r.out + [KeyLine(value.value)], wrote := true)
  }

  function Line(r: Rewrite, line: string, value: Option<string>): Rewrite {
    var trimmed := Trim(line);
    if IsHeader(trimmed) then
      var r1 := if r.inBrowser then Emit(r, value) else r;
      r1.(out := r1.out + [line], inBrowser := trimmed == BROWSER)
    else if r.inBrowser && IsKey(trimmed) then Emit(r, value)
    else r.(out := r.out + [line])
  }

  function Scan(lines: seq<string>, value: Option<string>): Rewrite {
    if lines == [] then Rewrite([], false, false)
    else Line(Scan(lines[..|lines| - 1], value), lines[|lines| - 1], value)
  }

  function Finish(r: Rewrite, value: Option<string>): seq<string> {
    var r1 := if r.inBrowser then Emit(r, value) else r;
    if !r1.wrote && value.Some? then r1.out + ["", BROWSER, KeyLine(value.value)] else r1.out
  }

  /** The lines of the file after storing `value` (None clears the setting). */
  function Put(lines: seq<string>, value: Option<string>): seq<string> {
    Finish(Scan(lines, value), value)
  }

  method PersistChromiumPath(lines: seq<string>, value: Option<string>) returns (out: seq<string>)
    ensures out == Put(lines, value)
  {
    out := [];
    var inBrowser, wrote := false, false;
    for i := 0 to |lines|
      invariant Rewrite(out, inBrowser, wrote) == Scan(lines[..i], value)
    {
      var line := lines[i];
      ScanPush(lines[..i], line, value);
      assert lines[..i + 1] == lines[..i] + [line];
      var trimmed := Trim(line);
      if IsHeader(trimmed) {
        if inBrowser && !wrote && value.Some? {
          out, wrote := out + [KeyLine(value.value)], true;
        }
        inBrowser := trimmed == BROWSER;
        out := out + [line];
        continue;
      }
      if inBrowser && IsKey(trimmed) {
        if !wrote && value.Some? {
          out, wrote := out + [KeyLine(value.value)], true;
        }
        continue;
      }
      out := out + [line];
    }
    assert lines[..|lines|] == lines;
    if inBrowser && !wrote && value.Some? {
      out, wrote := out + [KeyLine(value.value)], true;
    }
    if !wrote && value.Some? {
      out := out + ["", BROWSER, KeyLine(value.value)];
    }
  }

  lemma ScanPush(lines: seq<string>, line: string, value: Option<string>)
    ensures Scan(lines + [line], value) == Line(Scan(lines, value), line, value)
  {
    assert (lines + [line])[..|lines + [line]| - 1] == lines;
  }

  // ── What a file says, independently of the rewrite ─────────────────────────

  /** The last section header is [browser]. */
  function InBrowser(lines: seq<string>): bool {
    lines != []
    && var last := Trim(lines[|lines| - 1]);
       if IsHeader(last) then last == BROWSER else InBrowser(lines[..|lines| - 1])
  }

  predicate HasBrowser(lines: seq<string>) {
    lines != [] && (HasBrowser(lines[..|lines| - 1]) || Trim(lines[|lines| - 1]) == BROWSER)
  }

  /** The last line sets the key. */
  predicate LastSets(lines: seq<string>)
    requires lines != []
  {
    var last := Trim(lines[|lines| - 1]);
    InBrowser(lines[..|lines| - 1]) && !IsHeader(last) && IsKey(last)
  }

  /** The lines that set the key, over all [browser] sections. */
  function KeyLines(lines: seq<string>): seq<string> {
    if lines == [] then []
    else KeyLines(lines[..|lines| - 1]) + (if LastSets(lines) then [lines[|lines| - 1]] else [])
  }

  /** All other lines. */
  function Others(lines: seq<string>): seq<string> {
    if lines == [] then []
    else Others(lines[..|lines| - 1]) + (if LastSets(lines) then [] else [lines[|lines| - 1]])
  }

  /** The content of a basic string (section "String" of TOML v1.0.0) decoded. The
      \u and \U escapes, which the writer never produces, are not part of this model. */
  function Unescape(s: string): Option<string> {
    if s == [] then Some([])
    else if s[0] == '\\' then
      if |s| < 2 then None
      else
        match Unescape(s[2..])
        case None => None
        case Some(rest) =>
          match s[1]
          case 'b' => Some(['\U{0008}'] + rest)
          case 't' => Some(['\t'] + rest)
          case 'n' => Some(['\n'] + rest)
          case 'f' => Some(['\U{000C}'] + rest)
          case 'r' => Some(['\r'] + rest)
          case '"' => Some(['"'] + rest)
          case '\\' => Some(['\\'] + rest)
          case _ => None
    else if s[0] == '"' || Forbidden(s[0]) then None
    else
      match Unescape(s[1..])
      case None => None
      case Some(rest) => Some([s[0]] + rest)
  }

  /** Control characters that a basic string must not hold as they are. */
  predicate Forbidden(c: char) {
    (c < ' ' && c != '\t') || c == '\U{007F}'
  }

  predicate Writable(value: string) {
    forall c :: c in value ==> !Forbidden(c)
  }

  /** The value a key line gives: a basic string after the equals sign. */
  function ValueOf(line: string): Option<string> {
    var trimmed := Trim(line);
    if !IsKey(trimmed) then None
    else
      var quoted := TrimStart(TrimStart(trimmed[|KEY|..])[1..]);
      if |quoted| < 2 || quoted[0] != '"' || quoted[|quoted| - 1] != '"' then None
      else Unescape(quoted[1..|quoted| - 1])
  }

  /** The setting a file holds, when it is set once. */
  function Get(lines: seq<string>): Option<string> {
    if |KeyLines(lines)| == 1 then ValueOf(KeyLines(lines)[0]) else None
  }

  // ── What kind of line it is ────────────────────────────────────────────────

  ghost predicate Blank(s: string) {
    forall c :: c in s ==> IsSpace(c)
  }

  lemma BlankMore(c: char, s: string)
    requires IsSpace(c) && Blank(s)
    ensures Blank([c] + s) && Blank(s + [c])
  {
  }

  /** The blanks that TrimStart takes off. */
  lemma {:induction false} TrimStartIs(s: string) returns (blanks: string)
    ensures s == blanks + TrimStart(s) && Blank(blanks)
    ensures TrimStart(s) == "" || !IsSpace(TrimStart(s)[0])
  {
    if s != [] && IsSpace(s[0]) {
      var rest := TrimStartIs(s[1..]);
      blanks := [s[0]] + rest;
      BlankMore(s[0], rest);
      assert s == [s[0]] + s[1..] == [s[0]] + (rest + TrimStart(s[1..])) == blanks + TrimStart(s[1..]);
    } else {
      blanks := "";
    }
  }

  lemma {:induction false} TrimStartSkips(blanks: string, s: string)
    requires Blank(blanks) && (s == "" || !IsSpace(s[0]))
    ensures TrimStart(blanks + s) == s
  {
    if blanks == [] {
      assert blanks + s == s;
    } else {
      assert blanks[0] in blanks && (blanks + s)[1..] == blanks[1..] + s;
      TrimStartSkips(blanks[1..], s);
    }
  }

  lemma {:induction false} TrimEndIs(s: string) returns (blanks: string)
    ensures s == TrimEnd(s) + blanks && Blank(blanks)
    ensures TrimEnd(s) == "" || !IsSpace(TrimEnd(s)[|TrimEnd(s)| - 1])
  {
    if s != [] && IsSpace(s[|s| - 1]) {
      var rest := TrimEndIs(s[..|s| - 1]);
      blanks := rest + [s[|s| - 1]];
      BlankMore(s[|s| - 1], rest);
      var init := s[..|s| - 1];
      assert s == init + [s[|s| - 1]] == (TrimEnd(init) + rest) + [s[|s| - 1]] == TrimEnd(init) + blanks;
    } else {
      blanks := "";
    }
  }

  /** Trimming takes off all the blanks at both ends and nothing else. */
  lemma TrimIs(s: string) returns (before: string, after: string)
    ensures s == before + Trim(s) + after && Blank(before) && Blank(after)
    ensures Trim(s) == "" || (!IsSpace(Trim(s)[0]) && !IsSpace(Trim(s)[|Trim(s)| - 1]))
  {
    before := TrimStartIs(s);
    after := TrimEndIs(TrimStart(s));
    if Trim(s) != "" {
      assert TrimStart(s)[0] == Trim(s)[0];
    }
  }

  /** The line is the key, blanks, an equals sign and a rest. */
  ghost predicate Sets(line: string, blanks: string, rest: string) {
    Blank(blanks) && line == "chromium_path" + blanks + "=" + rest
  }

  /** A line sets the key exactly if it is the key itself, any blanks, an equals sign
      and whatever follows. */
  lemma IsKeyIff(line: string)
    ensures IsKey(line) <==> exists blanks, rest :: Sets(line, blanks, rest)
  {
    if IsKey(line) {
      var tail := line[|KEY|..];
      var blanks := TrimStartIs(tail);
      assert TrimStart(tail) == "=" + TrimStart(tail)[1..];
      assert line == KEY + tail;
      assert Sets(line, blanks, TrimStart(tail)[1..]);
    }
    if blanks, rest :| Sets(line, blanks, rest) {
      assert line[|KEY|..] == blanks + ("=" + rest);
      TrimStartSkips(blanks, "=" + rest);
    }
  }

  /** A name that merely begins like the key is another setting. */
  lemma LongerName(c: char, rest: string)
    requires !IsSpace(c) && c != '='
    ensures !IsKey(KEY + [c] + rest)
  {
    var line := KEY + [c] + rest;
    assert line[|KEY|..] == [c] + rest;
    TrimStartSkips("", [c] + rest);
  }

  /** A header is whatever stands between square brackets. */
  lemma IsHeaderIff(trimmed: string)
    ensures IsHeader(trimmed) <==> exists name :: trimmed == "[" + name + "]"
  {
    if IsHeader(trimmed) {
      var name := trimmed[1..|trimmed| - 1];
      assert trimmed == "[" + name + "]";
    }
    if name :| trimmed == "[" + name + "]" {
      assert trimmed[0] == '[' && trimmed[|trimmed| - 1] == ']';
    }
  }

  /** Line `i` is the [browser] header that the end of the file is below. */
  ghost predicate Opens(lines: seq<string>, i: nat)
    requires i < |lines|
  {
    Trim(lines[i]) == BROWSER && forall j :: i < j < |lines| ==> !IsHeader(Trim(lines[j]))
  }

  lemma OpensPush(lines: seq<string>, line: string, i: nat)
    requires i < |lines|
    ensures Opens(lines + [line], i) <==> Opens(lines, i) && !IsHeader(Trim(line))
  {
    var all := lines + [line];
    assert forall j :: 0 <= j < |lines| ==> all[j] == lines[j];
    assert all[|lines|] == line;
  }

  /** One is inside [browser] exactly below such a header with no other one since. */
  lemma {:induction false} InBrowserIff(lines: seq<string>)
    ensures InBrowser(lines) <==> exists i :: 0 <= i < |lines| && Opens(lines, i)
  {
    if lines != [] {
      var init, last := lines[..|lines| - 1], lines[|lines| - 1];
      InBrowserIff(init);
      assert lines == init + [last];
      InBrowserNext(init, last);
    }
  }

  lemma InBrowserNext(lines: seq<string>, line: string)
    requires InBrowser(lines) <==> exists i :: 0 <= i < |lines| && Opens(lines, i)
    ensures InBrowser(lines + [line]) <==> exists i :: 0 <= i <= |lines| && Opens(lines + [line], i)
  {
    Pushed(lines, line);
    forall i | 0 <= i < |lines|
      ensures Opens(lines + [line], i) <==> Opens(lines, i) && !IsHeader(Trim(line))
    {
      OpensPush(lines, line, i);
    }
    assert IsHeader(BROWSER) && (Opens(lines + [line], |lines|) <==> Trim(line) == BROWSER);
  }

  // ── The line that is written ───────────────────────────────────────────────

  function EscapeOnce(s: string): string {
    if s == [] then []
    else (if s[0] == '\\' then "\\\\" else if s[0] == '"' then "\\\"" else [s[0]]) + EscapeOnce(s[1..])
  }

  lemma {:induction false} ReplaceConcat(a: string, b: string, c: char, with: string)
    ensures Replace(a + b, c, with) == Replace(a, c, with) + Replace(b, c, with)
  {
    if a == [] {
      assert a + b == b;
    } else {
      assert (a + b)[1..] == a[1..] + b;
      ReplaceConcat(a[1..], b, c, with);
    }
  }

  /** The two replacements are one pass. */
  lemma {:induction false} EscapeIsOnePass(s: string)
    ensures EscapeToml(s) == EscapeOnce(s)
  {
    if s != [] {
      EscapeIsOnePass(s[1..]);
      var head := if s[0] == '\\' then "\\\\" else [s[0]];
      ReplaceConcat(head, Replace(s[1..], '\\', "\\\\"), '"', "\\\"");
      if s[0] == '\\' {
        assert "\\\\" == ['\\', '\\'] && head[1..] == ['\\'] && head[1..][1..] == [];
        assert Replace(head, '"', "\\\"") == head;
      } else {
        assert head[1..] == [];
      }
    }
  }

  lemma UnescapePair(c: char, rest: string)
    requires c == '\\' || c == '"'
    ensures Unescape(['\\', c] + rest)
            == match Unescape(rest) case None => None case Some(text) => Some([c] + text)
  {
    assert (['\\', c] + rest)[2..] == rest;
  }

  /** Escaping is undone by TOML's decoding exactly for values without forbidden
      control characters; for the others the written string is not valid TOML. */
  lemma {:induction false} EscapeUndoneIff(s: string)
    ensures Unescape(EscapeToml(s)) == if Writable(s) then Some(s) else None
  {
    EscapeIsOnePass(s);
    if s != [] {
      var rest := s[1..];
      EscapeUndoneIff(rest);
      EscapeIsOnePass(rest);
      assert s == [s[0]] + rest;
      if s[0] == '\\' || s[0] == '"' {
        UnescapePair(s[0], EscapeOnce(rest));
      } else {
        assert ([s[0]] + EscapeOnce(rest))[1..] == EscapeOnce(rest);
      }
    }
  }

  /** What stands between the key and its value. */
  lemma SignSkipped(tail: string)
    requires tail != [] && tail[0] == '"'
    ensures TrimStart(" = " + tail) == "= " + tail
    ensures TrimStart(("= " + tail)[1..]) == tail
  {
    assert (" = " + tail)[1..] == "= " + tail;
    assert ("= " + tail)[1..] == " " + tail && (" " + tail)[1..] == tail;
  }

  /** A written line is a key line, is no header, and reads back as its value. */
  lemma KeyLineReads(value: string)
    ensures Trim(KeyLine(value)) == KeyLine(value)
    ensures !IsHeader(KeyLine(value)) && IsKey(KeyLine(value))
    ensures ValueOf(KeyLine(value)) == if Writable(value) then Some(value) else None
  {
    var line, tail := KeyLine(value), "\"" + EscapeToml(value) + "\"";
    assert line[0] == 'c' && line[|line| - 1] == '"';
    assert line[|KEY|..] == " = " + tail;
    SignSkipped(tail);
    assert tail[0] == '"' && tail[|tail| - 1] == '"' && tail[1..|tail| - 1] == EscapeToml(value);
    EscapeUndoneIff(value);
  }

  // ── Laws ───────────────────────────────────────────────────────────────────

  /** How one more line changes what a file says. */
  lemma Pushed(lines: seq<string>, line: string)
    ensures var all := lines + [line];
            var last := Trim(line);
            && InBrowser(all) == (if IsHeader(last) then last == BROWSER else InBrowser(lines))
            && HasBrowser(all) == (HasBrowser(lines) || last == BROWSER)
            && var sets := InBrowser(lines) && !IsHeader(last) && IsKey(last);
               && KeyLines(all) == (if sets then KeyLines(lines) + [line] else KeyLines(lines))
               && Others(all) == (if sets then Others(lines) else Others(lines) + [line])
  {
    var all := lines + [line];
    assert all[..|all| - 1] == lines && all[|all| - 1] == line;
  }

  /** The written line, pushed inside a [browser] section. */
  lemma PushedKeyLine(lines: seq<string>, value: string)
    requires InBrowser(lines)
    ensures var all := lines + [KeyLine(value)];
            && InBrowser(all) && HasBrowser(all) == HasBrowser(lines)
            && KeyLines(all) == KeyLines(lines) + [KeyLine(value)] && Others(all) == Others(lines)
  {
    Pushed(lines, KeyLine(value));
    KeyLineReads(value);
    assert KeyLine(value)[0] == 'c';
  }

  /** The rewrite so far has the same sections and other lines as the lines read,
      and holds the new key line once it is written; it is written by the end of
      the first [browser] section. */
  ghost predicate Faithful(lines: seq<string>, r: Rewrite, value: Option<string>) {
    && (r.wrote ==> value.Some?)
    && r.inBrowser == InBrowser(lines) == InBrowser(r.out)
    && HasBrowser(r.out) == HasBrowser(lines) && (r.inBrowser ==> HasBrowser(lines))
    && Others(r.out) == Others(lines)
    && KeyLines(r.out) == (if r.wrote then [KeyLine(value.value)] else [])
    && (r.wrote ==> HasBrowser(lines))
    && (value.Some? && !r.wrote && HasBrowser(lines) ==> r.inBrowser)
  }

  lemma {:induction false} ScanFaithful(lines: seq<string>, value: Option<string>)
    ensures Faithful(lines, Scan(lines, value), value)
  {
    if lines != [] {
      var init, line := lines[..|lines| - 1], lines[|lines| - 1];
      ScanFaithful(init, value);
      LineFaithful(init, Scan(init, value), line, value);
      assert lines == init + [line];
    }
  }

  lemma EmitFaithful(lines: seq<string>, r: Rewrite, value: Option<string>)
    requires Faithful(lines, r, value) && r.inBrowser
    ensures Faithful(lines, Emit(r, value), value)
    ensures Emit(r, value).inBrowser && (value.Some? ==> Emit(r, value).wrote)
  {
    if !r.wrote && value.Some? {
      PushedKeyLine(r.out, value.value);
    }
  }

  lemma LineFaithful(lines: seq<string>, r: Rewrite, line: string, value: Option<string>)
    requires Faithful(lines, r, value)
    ensures Faithful(lines + [line], Line(r, line, value), value)
  {
    Pushed(lines, line);
    if r.inBrowser {
      EmitFaithful(lines, r, value);
    }
    var r1 := if r.inBrowser && IsHeader(Trim(line)) then Emit(r, value) else r;
    Pushed(r1.out, line);
    assert IsHeader(BROWSER);
  }

  /** Storing a value leaves exactly one key line, the written one, over all
      [browser] sections; clearing leaves none. Every other line survives in order;
      a file without a [browser] section gets one at its end. */
  lemma PutChangesOnlyTheKey(lines: seq<string>, value: Option<string>)
    ensures KeyLines(Put(lines, value)) == if value.Some? then [KeyLine(value.value)] else []
    ensures Others(Put(lines, value))
            == Others(lines) + if value.Some? && !HasBrowser(lines) then ["", BROWSER] else []
    ensures HasBrowser(Put(lines, value)) == (HasBrowser(lines) || value.Some?)
  {
    ScanFaithful(lines, value);
    var r := Scan(lines, value);
    if r.inBrowser {
      EmitFaithful(lines, r, value);
    }
    if value.Some? && !HasBrowser(lines) {
      SectionAppended(r.out, value.value);
    } else {
      assert Others(lines) + [] == Others(lines);
    }
  }

  /** A line that does not set the key survives, for any reason that makes it not do so:
      it is outside [browser], a header, or another setting. */
  lemma OtherLineStays(before: seq<string>, line: string, after: seq<string>, value: Option<string>)
    requires !(InBrowser(before) && !IsHeader(Trim(line)) && IsKey(Trim(line)))
    ensures line in Others(before + [line] + after) && line in Put(before + [line] + after, value)
  {
    var lines := before + [line] + after;
    Pushed(before, line);
    assert line in Others(before) + [line];
    OthersGrow(before + [line], after, line);
    PutChangesOnlyTheKey(lines, value);
    LineKinds(Put(lines, value));
  }

  lemma {:induction false} OthersGrow(lines: seq<string>, more: seq<string>, line: string)
    requires line in Others(lines)
    ensures line in Others(lines + more)
  {
    if more == [] {
      assert lines + more == lines;
    } else {
      var init, last := more[..|more| - 1], more[|more| - 1];
      OthersGrow(lines, init, line);
      Pushed(lines + init, last);
      LastApart(lines, more);
    }
  }

  lemma LastApart(lines: seq<string>, more: seq<string>)
    requires more != []
    ensures lines + more == lines + more[..|more| - 1] + [more[|more| - 1]]
  {
  }

  /** So does a setting in [browser] whose name is longer than the key. */
  lemma LongerNameStays(before: seq<string>, line: string, after: seq<string>, c: char, rest: string,
                        value: Option<string>)
    requires Trim(line) == KEY + [c] + rest && !IsSpace(c) && c != '='
    ensures line in Put(before + [line] + after, value)
  {
    LongerName(c, rest);
    OtherLineStays(before, line, after, value);
  }

  // ── Where the key line goes ────────────────────────────────────────────────

  /** A line that sets the key, inside [browser], or begins the next section. */
  predicate Ends(line: string) {
    IsHeader(Trim(line)) || IsKey(Trim(line))
  }

  predicate Stop(lines: seq<string>, i: nat)
    requires i < |lines|
  {
    InBrowser(lines[..i]) && Ends(lines[i])
  }

  /** No line of `head` is where the key line goes. */
  ghost predicate Undecided(head: seq<string>) {
    forall q :: 0 <= q < |head| ==> !Stop(head, q)
  }

  lemma UndecidedPush(head: seq<string>, line: string)
    requires Undecided(head) && !(InBrowser(head) && Ends(line))
    ensures Undecided(head + [line])
  {
    var all := head + [line];
    forall q | 0 <= q < |all|
      ensures !Stop(all, q)
    {
      if q < |head| {
        assert all[..q] == head[..q] && !Stop(head, q);
      } else {
        assert all[..q] == head;
      }
    }
  }

  /** The key line has been put behind `head`, and `tail` is what stays of the rest; or
      there has been no place for it. */
  ghost predicate Placed(r: Rewrite, v: string, head: seq<string>, rest: seq<string>, tail: seq<string>) {
    && Undecided(head)
    && if r.wrote then
         && InBrowser(head) && rest != [] && Ends(rest[0])
         && r.out == head + [KeyLine(v)] + tail && Others(head + rest) == head + tail
       else rest == [] && r.out == head == Others(head)
  }

  lemma PlacedEarlier(r: Rewrite, v: string, head: seq<string>, rest: seq<string>, tail: seq<string>, line: string)
    returns (tail': seq<string>)
    requires Placed(r, v, head, rest, tail) && r.wrote && r.inBrowser == InBrowser(head + rest)
    ensures Placed(Line(r, line, Some(v)), v, head, rest + [line], tail')
  {
    Pushed(head + rest, line);
    assert head + (rest + [line]) == head + rest + [line];
    var trimmed := Trim(line);
    tail' := if InBrowser(head + rest) && !IsHeader(trimmed) && IsKey(trimmed) then tail else tail + [line];
    assert head + [KeyLine(v)] + (tail + [line]) == head + [KeyLine(v)] + tail + [line];
    assert head + (tail + [line]) == head + tail + [line];
  }

  lemma LineEnds(r: Rewrite, line: string, v: string)
    requires r.inBrowser && !r.wrote && Ends(line)
    ensures var r' := Line(r, line, Some(v));
            r'.wrote && r'.out == r.out + [KeyLine(v)] + if IsHeader(Trim(line)) then [line] else []
  {
  }

  lemma LineGoesOn(r: Rewrite, line: string, v: string)
    requires !(r.inBrowser && Ends(line))
    ensures var r' := Line(r, line, Some(v)); r'.wrote == r.wrote && r'.out == r.out + [line]
  {
  }

  lemma PlacedNow(r: Rewrite, v: string, head: seq<string>, line: string) returns (tail: seq<string>)
    requires Placed(r, v, head, [], []) && !r.wrote && r.inBrowser && InBrowser(head) && Ends(line)
    ensures Placed(Line(r, line, Some(v)), v, head, [line], tail)
  {
    Pushed(head, line);
    LineEnds(r, line, v);
    tail := if IsHeader(Trim(line)) then [line] else [];
  }

  lemma PlacedLater(r: Rewrite, v: string, head: seq<string>, line: string)
    requires Placed(r, v, head, [], []) && !r.wrote && r.inBrowser == InBrowser(head) && !(r.inBrowser && Ends(line))
    ensures Placed(Line(r, line, Some(v)), v, head + [line], [], [])
  {
    Pushed(head, line);
    LineGoesOn(r, line, v);
    UndecidedPush(head, line);
  }

  lemma PlacedNext(r: Rewrite, v: string, head: seq<string>, rest: seq<string>, tail: seq<string>, line: string)
    returns (head': seq<string>, rest': seq<string>, tail': seq<string>)
    requires Placed(r, v, head, rest, tail) && r.inBrowser == InBrowser(head + rest)
    ensures head' + rest' == head + rest + [line] && Placed(Line(r, line, Some(v)), v, head', rest', tail')
  {
    if r.wrote {
      tail' := PlacedEarlier(r, v, head, rest, tail, line);
      head', rest' := head, rest + [line];
    } else {
      assert head + rest == head;
      if r.inBrowser && Ends(line) {
        tail' := PlacedNow(r, v, head, line);
        head', rest' := head, [line];
      } else {
        PlacedLater(r, v, head, line);
        head', rest', tail' := head + [line], [], [];
      }
    }
  }

  lemma ScanSection(lines: seq<string>, v: string)
    ensures Scan(lines, Some(v)).inBrowser == InBrowser(lines)
  {
    ScanFaithful(lines, Some(v));
  }

  lemma {:induction false} ScanPlace(lines: seq<string>, v: string)
    returns (head: seq<string>, rest: seq<string>, tail: seq<string>)
    ensures lines == head + rest && Placed(Scan(lines, Some(v)), v, head, rest, tail)
  {
    if lines == [] {
      PlacedFirst(v);
      head, rest, tail := [], [], [];
    } else {
      var init, last := lines[..|lines| - 1], lines[|lines| - 1];
      var h, m, t := ScanPlace(init, v);
      assert lines == init + [last];
      head, rest, tail := ScanPlaceNext(init, v, h, m, t, last);
    }
  }

  lemma PlacedFirst(v: string)
    ensures Placed(Scan([], Some(v)), v, [], [], [])
  {
  }

  lemma ScanPlaceNext(lines: seq<string>, v: string, h: seq<string>, m: seq<string>, t: seq<string>, line: string)
    returns (head: seq<string>, rest: seq<string>, tail: seq<string>)
    requires lines == h + m && Placed(Scan(lines, Some(v)), v, h, m, t)
    ensures lines + [line] == head + rest && Placed(Scan(lines + [line], Some(v)), v, head, rest, tail)
  {
    ScanSection(lines, v);
    ScanPush(lines, line, Some(v));
    head, rest, tail := PlacedNext(Scan(lines, Some(v)), v, h, m, t, line);
  }

  /** In a file with a [browser] section, the key line takes the place of the first line
      that sets the key in the first such section, or stands at the end of that section,
      and everything else stays around it. In a file without one it ends a new section. */
  lemma PutPlace(lines: seq<string>, v: string) returns (head: seq<string>, rest: seq<string>, tail: seq<string>)
    ensures lines == head + rest && Undecided(head) && Others(lines) == head + tail
    ensures if HasBrowser(lines) then
              && InBrowser(head) && (rest == [] || Ends(rest[0]))
              && Put(lines, Some(v)) == head + [KeyLine(v)] + tail
            else rest == [] && Put(lines, Some(v)) == lines + ["", "[browser]", KeyLine(v)]
  {
    head, rest, tail := ScanPlace(lines, v);
    ScanFaithful(lines, Some(v));
    if !Scan(lines, Some(v)).wrote {
      tail := [];
      assert head + [KeyLine(v)] + [] == head + [KeyLine(v)] && head + [] == head;
    }
  }

  /** The two lines before the key line of an appended section. */
  lemma SectionLines()
    ensures Trim(BROWSER) == BROWSER && IsHeader(BROWSER)
    ensures Trim("") == "" && !IsHeader("") && "" != BROWSER
  {}

  lemma SectionOpened(lines: seq<string>)
    requires !InBrowser(lines)
    ensures var all := lines + [""] + [BROWSER];
            && InBrowser(all) && HasBrowser(all)
            && KeyLines(all) == KeyLines(lines) && Others(all) == Others(lines) + [""] + [BROWSER]
  {
    SectionLines();
    Pushed(lines, "");
    Pushed(lines + [""], BROWSER);
  }

  /** A [browser] section at the end of a file without one. */
  lemma SectionAppended(lines: seq<string>, value: string)
    requires !InBrowser(lines)
    ensures var all := lines + ["", BROWSER, KeyLine(value)];
            && KeyLines(all) == KeyLines(lines) + [KeyLine(value)]
            && Others(all) == Others(lines) + ["", BROWSER] && HasBrowser(all)
  {
    SectionOpened(lines);
    PushedKeyLine(lines + [""] + [BROWSER], value);
    ThreeLines(lines, "", BROWSER, KeyLine(value));
    assert Others(lines) + [""] + [BROWSER] == Others(lines) + ["", BROWSER];
  }

  /** Reading back gives the value written, exactly when the value can be written
      as a basic string at all. */
  lemma PutThenGetIff(lines: seq<string>, value: string)
    ensures Get(Put(lines, Some(value))) == Some(value) <==> Writable(value)
  {
    PutChangesOnlyTheKey(lines, Some(value));
    KeyLineReads(value);
  }

  /** Clearing leaves nothing to read. */
  lemma ClearThenGet(lines: seq<string>)
    ensures Get(Put(lines, None)) == None
  {
    PutChangesOnlyTheKey(lines, None);
  }

  // ── Writing twice ──────────────────────────────────────────────────────────

  lemma ScanKeyLine(lines: seq<string>, v: string, w: Option<string>)
    requires Scan(lines, w).inBrowser
    ensures Scan(lines + [KeyLine(v)], w) == Emit(Scan(lines, w), w)
  {
    ScanPush(lines, KeyLine(v), w);
    KeyLineReads(v);
  }

  /** Two rewrites in step: `s` is what rewriting `r`'s output for `w` gives. */
  ghost predicate InStep(r: Rewrite, s: Rewrite, w: string) {
    Scan(r.out, Some(w)) == s && r.wrote == s.wrote && r.inBrowser == s.inBrowser
  }

  lemma EmitInStep(r: Rewrite, s: Rewrite, v: string, w: string)
    requires InStep(r, s, w) && r.inBrowser
    ensures InStep(Emit(r, Some(v)), Emit(s, Some(w)), w)
  {
    if !r.wrote {
      ScanKeyLine(r.out, v, Some(w));
    }
  }

  lemma LineInStep(r: Rewrite, s: Rewrite, line: string, v: string, w: string)
    requires InStep(r, s, w)
    ensures InStep(Line(r, line, Some(v)), Line(s, line, Some(w)), w)
  {
    if r.inBrowser {
      EmitInStep(r, s, v, w);
      ScanPush(Emit(r, Some(v)).out, line, Some(w));
    }
    ScanPush(r.out, line, Some(w));
  }

  /** Rewriting for `w` what was written for `v` keeps step with rewriting for `w`. */
  lemma {:induction false} RescanIsScan(lines: seq<string>, v: string, w: string)
    ensures InStep(Scan(lines, Some(v)), Scan(lines, Some(w)), w)
  {
    if lines != [] {
      var init, line := lines[..|lines| - 1], lines[|lines| - 1];
      RescanIsScan(init, v, w);
      LineInStep(Scan(init, Some(v)), Scan(init, Some(w)), line, v, w);
    }
  }

  lemma ThreeLines(lines: seq<string>, a: string, b: string, c: string)
    ensures lines + [a, b, c] == lines + [a] + [b] + [c]
  {
  }

  lemma RescanOpened(lines: seq<string>, w: string)
    requires !Scan(lines, Some(w)).inBrowser && !Scan(lines, Some(w)).wrote
    ensures Scan(lines + [""] + [BROWSER], Some(w))
            == Rewrite(Scan(lines, Some(w)).out + [""] + [BROWSER], true, false)
  {
    SectionLines();
    ScanPush(lines, "", Some(w));
    ScanPush(lines + [""], BROWSER, Some(w));
  }

  /** Scanning over the section that was appended to a file without one. */
  lemma RescanAppended(lines: seq<string>, v: string, w: string)
    requires !Scan(lines, Some(w)).inBrowser && !Scan(lines, Some(w)).wrote
    ensures Scan(lines + ["", BROWSER, KeyLine(v)], Some(w))
            == Rewrite(Scan(lines, Some(w)).out + ["", BROWSER, KeyLine(w)], true, true)
  {
    RescanOpened(lines, w);
    ScanKeyLine(lines + [""] + [BROWSER], v, Some(w));
    ThreeLines(lines, "", BROWSER, KeyLine(v));
    ThreeLines(Scan(lines, Some(w)).out, "", BROWSER, KeyLine(w));
  }

  /** Storing w after v is storing w. */
  lemma PutPut(lines: seq<string>, v: string, w: string)
    ensures Put(Put(lines, Some(v)), Some(w)) == Put(lines, Some(w))
  {
    RescanIsScan(lines, v, w);
    var r := Scan(lines, Some(v));
    if r.inBrowser && !r.wrote {
      ScanKeyLine(r.out, v, Some(w));
    } else if !r.wrote {
      RescanAppended(r.out, v, w);
    }
  }

  /** Clearing undoes storing, except for a section that storing had to add. */
  lemma ClearAfterPut(lines: seq<string>, v: string)
    ensures Put(Put(lines, Some(v)), None)
            == Put(lines, None) + if HasBrowser(lines) then [] else ["", BROWSER]
  {
    ScanNoneIsOthers(Put(lines, Some(v)));
    ScanNoneIsOthers(lines);
    PutChangesOnlyTheKey(lines, Some(v));
    assert Others(lines) + [] == Others(lines);
  }

  /** Clearing keeps exactly the other lines. */
  lemma {:induction false} ScanNoneIsOthers(lines: seq<string>)
    ensures Scan(lines, None).out == Others(lines) && Scan(lines, None).inBrowser == InBrowser(lines)
    ensures !Scan(lines, None).wrote && Put(lines, None) == Others(lines)
  {
    if lines != [] {
      ScanNoneIsOthers(lines[..|lines| - 1]);
    }
  }

  // ── Lines and text ─────────────────────────────────────────────────────────

  /** Position of the first newline, or the length. */
  function LineEnd(text: string): (i: nat)
    ensures i <= |text| && '\n' !in text[..i] && (i < |text| ==> text[i] == '\n')
  {
    if text == [] || text[0] == '\n' then 0
    else
      var i := 1 + LineEnd(text[1..]);
      assert text[..i] == [text[0]] + text[1..][..i - 1];
      i
  }

  function ChopReturn(line: string): string {
    if line != [] && line[|line| - 1] == '\r' then line[..|line| - 1] else line
  }

  /** `str::lines`: CR LF and LF both end a line. */
  function Lines(text: string): seq<string>
    decreases |text|
  {
    if text == [] then []
    else
      var i := LineEnd(text);
      if i == |text| then [text] else [ChopReturn(text[..i])] + Lines(text[i + 1..])
  }

  function Unlines(lines: seq<string>): string {
    if lines == [] then [] else lines[0] + "\n" + Unlines(lines[1..])
  }

  function Chopped(lines: seq<string>): (r: seq<string>)
    ensures |r| == |lines|
  {
    seq(|lines|, i requires 0 <= i < |lines| => ChopReturn(lines[i]))
  }

  /** What was written line by line is read back line by line, less a carriage
      return at the end of a line. */
  lemma {:induction false} LinesReadBack(lines: seq<string>)
    requires forall l :: l in lines ==> '\n' !in l
    ensures Lines(Unlines(lines)) == Chopped(lines)
  {
    if lines != [] {
      var text, l := Unlines(lines), lines[0];
      LinesReadBack(lines[1..]);
      LineEndIs(l, Unlines(lines[1..]));
      assert text == l + "\n" + Unlines(lines[1..]) && text[..|l|] == l && text[|l| + 1..] == Unlines(lines[1..]);
      assert Chopped(lines) == [ChopReturn(l)] + Chopped(lines[1..]);
    }
  }

  /** A line ends with a newline, and a carriage return before it is part of the end. */
  lemma LineEndings(l: string, rest: string)
    requires '\n' !in l
    ensures Lines(l + "\r\n" + rest) == [l] + Lines(rest)
    ensures (l == "" || l[|l| - 1] != '\r') ==> Lines(l + "\n" + rest) == [l] + Lines(rest)
  {
    var crlf, lf := l + "\r\n" + rest, l + "\n" + rest;
    LineEndIs(l, rest);
    LineEndIs(l + "\r", rest);
    assert crlf == l + "\r" + "\n" + rest;
    assert crlf[..|l| + 1] == l + "\r" && crlf[|l| + 2..] == rest && lf[..|l|] == l && lf[|l| + 1..] == rest;
    assert ChopReturn(l + "\r") == l;
  }

  lemma {:induction false} LineEndIs(l: string, rest: string)
    requires '\n' !in l
    ensures LineEnd(l + "\n" + rest) == |l|
  {
    if l != [] {
      LineEndIs(l[1..], rest);
      assert (l + "\n" + rest)[1..] == l[1..] + "\n" + rest;
    }
  }

  lemma {:induction false} EscapeKeepsNewlines(s: string)
    ensures '\n' in EscapeOnce(s) <==> '\n' in s
  {
    if s != [] {
      EscapeKeepsNewlines(s[1..]);
      assert s == [s[0]] + s[1..];
      var head := if s[0] == '\\' then "\\\\" else if s[0] == '"' then "\\\"" else [s[0]];
      assert EscapeOnce(s) == head + EscapeOnce(s[1..]);
      assert '\n' in head <==> s[0] == '\n';
    }
  }

  /** The written line is one line of text exactly for newline-free values. */
  lemma KeyLineIsOneLine(value: string)
    ensures '\n' !in KeyLine(value) <==> '\n' !in value
    ensures ChopReturn(KeyLine(value)) == KeyLine(value)
  {
    EscapeIsOnePass(value);
    EscapeKeepsNewlines(value);
    assert KeyLine(value) == KEY + " = \"" + EscapeOnce(value) + "\"";
    assert forall c :: c in KeyLine(value) <==> c in KEY || c in " = \"" || c in EscapeOnce(value) || c in "\"";
  }

  // ── The file as a text ─────────────────────────────────────────────────────

  /** The text of the file after storing `value`. */
  function Rewritten(text: string, value: Option<string>): string {
    Unlines(Put(Lines(text), value))
  }

  lemma {:induction false} LinesHoldNoNewline(text: string)
    ensures forall l :: l in Lines(text) ==> '\n' !in l
    decreases |text|
  {
    var i := LineEnd(text);
    if text != [] && i < |text| {
      LinesHoldNoNewline(text[i + 1..]);
      assert '\n' !in ChopReturn(text[..i]);
    }
  }

  /** Every line is a key line or one of the others. */
  lemma {:induction false} LineKinds(lines: seq<string>)
    ensures forall l :: l in lines <==> l in KeyLines(lines) || l in Others(lines)
  {
    if lines != [] {
      var init, last := lines[..|lines| - 1], lines[|lines| - 1];
      LineKinds(init);
      assert lines == init + [last];
    }
  }

  /** The lines of a rewritten file. */
  lemma PutLines(lines: seq<string>, v: string)
    ensures forall l :: l in Put(lines, Some(v)) <==>
              || l == KeyLine(v) || l in Others(lines) || (!HasBrowser(lines) && (l == "" || l == BROWSER))
  {
    LineKinds(Put(lines, Some(v)));
    PutChangesOnlyTheKey(lines, Some(v));
  }

  lemma PutHoldsNoNewline(lines: seq<string>, v: string)
    requires '\n' !in v && forall l :: l in lines ==> '\n' !in l
    ensures forall l :: l in Put(lines, Some(v)) ==> '\n' !in l
  {
    PutLines(lines, v);
    LineKinds(lines);
    KeyLineIsOneLine(v);
    assert '\n' !in "" && '\n' !in BROWSER;
  }

  /** The rewritten text is read as the rewritten lines, less carriage returns. */
  lemma RewrittenReadsBack(text: string, v: string)
    requires '\n' !in v
    ensures Lines(Rewritten(text, Some(v))) == Chopped(Put(Lines(text), Some(v)))
  {
    LinesHoldNoNewline(text);
    PutHoldsNoNewline(Lines(text), v);
    LinesReadBack(Put(Lines(text), Some(v)));
  }

  // A carriage return at the end of a line is white space: it does not change
  // what the line is.

  lemma {:induction false} TrimStartChopped(s: string)
    ensures TrimStart(ChopReturn(s)) == ChopReturn(TrimStart(s))
  {
    if s != [] && IsSpace(s[0]) {
      TrimStartChopped(s[1..]);
      if |s| > 1 {
        assert ChopReturn(s)[1..] == ChopReturn(s[1..]);
      }
    }
  }

  lemma TrimChopped(s: string)
    ensures Trim(ChopReturn(s)) == Trim(s)
  {
    TrimStartChopped(s);
  }

  lemma ChoppedPush(lines: seq<string>, line: string)
    ensures Chopped(lines + [line]) == Chopped(lines) + [ChopReturn(line)]
  {
  }

  lemma EmitChopped(r: Rewrite, v: string)
    ensures Emit(r.(out := Chopped(r.out)), Some(v)) == Emit(r, Some(v)).(out := Chopped(Emit(r, Some(v)).out))
  {
    ChoppedPush(r.out, KeyLine(v));
    KeyLineIsOneLine(v);
  }

  lemma LineChopped(r: Rewrite, line: string, v: string)
    ensures Line(r.(out := Chopped(r.out)), ChopReturn(line), Some(v))
            == Line(r, line, Some(v)).(out := Chopped(Line(r, line, Some(v)).out))
  {
    TrimChopped(line);
    EmitChopped(r, v);
    ChoppedPush(r.out, line);
    ChoppedPush(Emit(r, Some(v)).out, line);
  }

  lemma {:induction false} ScanChopped(lines: seq<string>, v: string)
    ensures Scan(Chopped(lines), Some(v)) == Scan(lines, Some(v)).(out := Chopped(Scan(lines, Some(v)).out))
  {
    if lines != [] {
      var init, last := lines[..|lines| - 1], lines[|lines| - 1];
      ScanChopped(init, v);
      LineChopped(Scan(init, Some(v)), last, v);
      assert Chopped(lines)[..|lines| - 1] == Chopped(init);
    }
  }

  lemma PutChopped(lines: seq<string>, v: string)
    ensures Put(Chopped(lines), Some(v)) == Chopped(Put(lines, Some(v)))
  {
    ScanChopped(lines, v);
    var r := Scan(lines, Some(v));
    EmitChopped(r, v);
    KeyLineIsOneLine(v);
    assert Chopped(r.out + ["", BROWSER, KeyLine(v)]) == Chopped(r.out) + ["", BROWSER, KeyLine(v)];
  }

  /** Chopping a line shortens the text. */
  lemma {:induction false} ChoppedShorter(lines: seq<string>)
    ensures |Unlines(Chopped(lines))| <= |Unlines(lines)|
    ensures |Unlines(Chopped(lines))| == |Unlines(lines)| ==> Chopped(lines) == lines
  {
    if lines != [] {
      ChoppedShorter(lines[1..]);
      assert Chopped(lines)[1..] == Chopped(lines[1..]);
      if Chopped(lines[1..]) == lines[1..] && ChopReturn(lines[0]) == lines[0] {
        assert Chopped(lines) == [lines[0]] + lines[1..] == lines;
      }
    }
  }

  lemma ChoppedIff(lines: seq<string>)
    ensures Chopped(lines) == lines <==> forall l :: l in lines ==> ChopReturn(l) == l
  {
    forall l | Chopped(lines) == lines && l in lines
      ensures ChopReturn(l) == l
    {
      var i :| 0 <= i < |lines| && lines[i] == l;
      assert Chopped(lines)[i] == lines[i];
    }
  }

  lemma PutPlainIff(lines: seq<string>, w: string)
    ensures Chopped(Put(lines, Some(w))) == Put(lines, Some(w))
            <==> forall l :: l in Others(lines) ==> ChopReturn(l) == l
  {
    ChoppedIff(Put(lines, Some(w)));
    PutLines(lines, w);
    KeyLineIsOneLine(w);
    assert ChopReturn("") == "" && ChopReturn(BROWSER) == BROWSER;
  }

  /** On the text of the file, storing w after v is storing w, exactly if no line
      that stays still ends in a carriage return when its line end is taken off. */
  lemma TextPutPutIff(text: string, v: string, w: string)
    requires '\n' !in v && '\n' !in w
    ensures Rewritten(Rewritten(text, Some(v)), Some(w)) == Rewritten(text, Some(w))
            <==> forall l :: l in Others(Lines(text)) ==> ChopReturn(l) == l
  {
    var lines := Lines(text);
    RewrittenReadsBack(text, v);
    PutChopped(Put(lines, Some(v)), w);
    PutPut(lines, v, w);
    ChoppedShorter(Put(lines, Some(w)));
    PutPlainIff(lines, w);
  }

  /** On the text, too, reading back gives the value exactly if it can be written. */
  lemma TextPutThenGetIff(text: string, v: string)
    requires '\n' !in v
    ensures Get(Lines(Rewritten(text, Some(v)))) == Some(v) <==> Writable(v)
  {
    RewrittenReadsBack(text, v);
    PutChopped(Lines(text), v);
    PutThenGetIff(Chopped(Lines(text)), v);
  }

  /** A failing input: a control character is written as it is, and TOML forbids it. */
  lemma ControlNotReadBack(lines: seq<string>)
    ensures Get(Put(lines, Some(['\U{0007}']))) != Some(['\U{0007}'])
  {
    assert '\U{0007}' in ['\U{0007}'] && Forbidden('\U{0007}');
    PutThenGetIff(lines, ['\U{0007}']);
  }
}
