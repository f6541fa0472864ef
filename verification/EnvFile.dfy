/** The agent's env file: what the installer prints, how the agent reads it, and exactly which settings
    survive. Text is a sequence of Unicode characters, stored as UTF-8. */
module EnvFile {
  import opened Bytes

  const KEYS: seq<string> :=
    ["RELAY_URL", "ENROLLMENT_CODE", "ORG_ID", "DEVICE_GROUP", "UNATTENDED_PASSWORD", "TURN_URL", "TURN_USER",
     "TURN_PASS", "AGENT_CERT_FILE", "AGENT_KEY_FILE", "AGENT_CA_FILE"]

  /** One setting for each key. */
  type Settings = vs: seq<string> | |vs| == 11 witness ["", "", "", "", "", "", "", "", "", "", ""]

  /** Takes one line into the settings read so far. */
  type Take = (map<string, string>, string) -> map<string, string>

  const NOTHING_SET: Settings := ["", "", "", "", "", "", "", "", "", "", ""]

  // ---- Text ----

  predicate IsSpace(c: char) {
    || '\U{0009}' <= c <= '\U{000D}' || c == ' ' || c == '\U{0085}' || c == '\U{00A0}' || c == '\U{1680}'
    || '\U{2000}' <= c <= '\U{200A}' || c == '\U{2028}' || c == '\U{2029}' || c == '\U{202F}' || c == '\U{205F}'
    || c == '\U{3000}'
  }

  function TrimLeft(s: string): (r: string)
    ensures |r| <= |s| && (|r| == |s| ==> r == s) && (forall c :: c in r ==> c in s)
  {
    if s != "" && IsSpace(s[0]) then TrimLeft(s[1..]) else s
  }

  function TrimRight(s: string): (r: string)
    ensures |r| <= |s| && (|r| == |s| ==> r == s) && (forall c :: c in r ==> c in s)
  {
    if s != "" && IsSpace(s[|s| - 1]) then TrimRight(s[..|s| - 1]) else s
  }

  function TrimSpace(s: string): (r: string)
    ensures |r| <= |s| && (|r| == |s| ==> r == s) && (forall c :: c in r ==> c in s)
  {
    TrimRight(TrimLeft(s))
  }

  function TrimQuotes(v: string): (r: string)
    ensures |r| <= |v| && (|r| == |v| ==> r == v) && (forall c :: c in r ==> c in v)
  {
    if |v| >= 2 && ((v[0] == '"' && v[|v| - 1] == '"') || (v[0] == '\'' && v[|v| - 1] == '\'')) then v[1..|v| - 1]
    else v
  }

  /** The first place of a character, or the length. */
  function IndexOf(s: string, c: char): (n: nat)
    ensures n <= |s| && (n < |s| ==> s[n] == c) && forall i :: 0 <= i < n ==> s[i] != c
  {
    if s == "" || s[0] == c then 0 else 1 + IndexOf(s[1..], c)
  }

  function Utf8Length(s: string): (n: nat)
    ensures n <= 4 * |s|
  {
    if s == "" then 0
    else
      var c := s[0];
      (if c < '\U{0080}' then 1 else if c < '\U{0800}' then 2 else if c < '\U{10000}' then 3 else 4)
          + Utf8Length(s[1..])
  }

  /** One to four bytes a character, by its code. */
  lemma {:induction false} Utf8Next(s: string, c: char)
    ensures var code := c as int;
            Utf8Length([c] + s) == Utf8Length(s) + (if code < 128 then 1 else if code < 2048 then 2
                                                    else if code < 65_536 then 3 else 4)
  {
    assert ([c] + s)[1..] == s;
  }

  // ---- Printing ----

  function Line(key: string, value: string): string {
    key + "=" + value
  }

  /** The first setting is printed even when it is empty. */
  predicate Printed(vs: Settings, i: nat)
    requires i < 11
  {
    i == 0 || vs[i] != ""
  }

  /** The lines of the settings from the i-th on, under the given keys. */
  function LinesFrom(keys: seq<string>, vs: Settings, i: nat): seq<string>
    requires |keys| == 11 && i <= 11
    decreases 11 - i
  {
    if i == 11 then [Line("NO_BROWSER", "1")]
    else if Printed(vs, i) then [Line(keys[i], vs[i])] + LinesFrom(keys, vs, i + 1)
    else LinesFrom(keys, vs, i + 1)
  }

  function Join(lines: seq<string>, sep: string): string {
    if lines == [] then "" else if |lines| == 1 then lines[0] else lines[0] + sep + Join(lines[1..], sep)
  }

  function Rendered(vs: Settings): string {
    Join(LinesFrom(KEYS, vs, 0), "\n") + "\n"
  }

  // ---- Reading ----

  /** The longest line the scanner's buffer can hold beside its line feed. */
  const LINE_LIMIT: nat := 64 * 1024 - 1

  function SplitLines(t: string): seq<string> {
    if t == "" then []
    else
      var n := IndexOf(t, '\n');
      if n == |t| then [t] else [t[..n]] + SplitLines(t[n + 1..])
  }

  function DropReturn(line: string): (r: string)
    ensures forall c :: c in r ==> c in line
  {
    if line != "" && line[|line| - 1] == '\r' then line[..|line| - 1] else line
  }

  function ReadLine(m: map<string, string>, raw: string): map<string, string> {
    var line := TrimSpace(DropReturn(raw));
    var n := IndexOf(line, '=');
    if line == "" || line[0] == '#' || n == |line| then m
    else m[TrimSpace(line[..n]) := TrimSpace(line[n + 1..])]
  }

  /** Takes the lines into the map one by one. */
  function FoldLines(f: Take, m: map<string, string>, lines: seq<string>): map<string, string>
    decreases |lines|
  {
    if lines == [] then m else FoldLines(f, f(m, lines[0]), lines[1..])
  }

  function ReadLines(m: map<string, string>, lines: seq<string>): map<string, string> {
    FoldLines(ReadLine, m, lines)
  }

  /** A line over the limit makes the whole read fail. */
  predicate AllFit(lines: seq<string>) {
    forall i :: 0 <= i < |lines| ==> Utf8Length(lines[i]) <= LINE_LIMIT
  }

  function ReadAll(lines: seq<string>): Option<map<string, string>> {
    if AllFit(lines) then Some(ReadLines(map[], lines)) else None
  }

  function Read(t: string): Option<map<string, string>> {
    ReadAll(SplitLines(t))
  }

  function ValueFor(m: map<string, string>, key: string): string {
    if key in m then TrimQuotes(TrimSpace(m[key])) else ""
  }

  /** A setting read as empty leaves the old one. */
  function Applied(vs: Settings, m: map<string, string>): (r: Settings)
    ensures forall i :: 0 <= i < 11 ==> r[i] == if ValueFor(m, KEYS[i]) != "" then ValueFor(m, KEYS[i]) else vs[i]
  {
    seq(11, i requires 0 <= i < 11 => if ValueFor(m, KEYS[i]) != "" then ValueFor(m, KEYS[i]) else vs[i])
  }

  function Load(t: string): Option<Settings> {
    var m := Read(t);
    if m.None? then None else Some(Applied(NOTHING_SET, m.value))
  }

  // ---- Round trip ----

  predicate Clean(v: string) {
    '\n' !in v && TrimSpace(v) == v && TrimQuotes(v) == v
  }

  /** White space, by the codes of the characters. */
  predicate Blank(c: char) {
    var code := c as int;
    || 9 <= code <= 13 || code == 32 || code == 0x85 || code == 0xA0 || code == 0x1680 || 0x2000 <= code <= 0x200A
    || code == 0x2028 || code == 0x2029 || code == 0x202F || code == 0x205F || code == 0x3000
  }

  /** A value is clean exactly when it has no line feed in it, does not begin or end with white space, and does not
      stand in a pair of quotes. */
  lemma {:induction false} CleanIff(v: string)
    ensures Clean(v) <==>
            && '\n' !in v
            && (v != "" ==> !Blank(v[0]) && !Blank(v[|v| - 1]))
            && !(|v| >= 2 && v[0] == v[|v| - 1] && (v[0] == '"' || v[0] == '\''))
  {
    TrimIff(v);
  }

  lemma {:induction false} TrimIff(v: string)
    ensures TrimSpace(v) == v <==> v == "" || (!Blank(v[0]) && !Blank(v[|v| - 1]))
  {
    if v != "" {
      BlankIs(v[0]);
      BlankIs(v[|v| - 1]);
      if TrimSpace(v) == v {
        assert |TrimLeft(v)| == |v|;
      }
    }
  }

  lemma {:induction false} BlankIs(c: char)
    ensures IsSpace(c) <==> Blank(c)
  {
  }

  predicate AllBlank(s: string) {
    forall i :: 0 <= i < |s| ==> Blank(s[i])
  }

  lemma {:induction false} TrimLeftParts(s: string) returns (before: string)
    ensures s == before + TrimLeft(s) && AllBlank(before)
    ensures TrimLeft(s) != "" ==> !Blank(TrimLeft(s)[0])
  {
    if s != "" {
      BlankIs(s[0]);
    }
    if s != "" && IsSpace(s[0]) {
      var b := TrimLeftParts(s[1..]);
      before := [s[0]] + b;
      HeadTail(s);
      Assoc([s[0]], b, TrimLeft(s));
    } else {
      before := "";
      assert "" + s == s;
    }
  }

  lemma {:induction false} TrimRightParts(s: string) returns (after: string)
    ensures s == TrimRight(s) + after && AllBlank(after)
    ensures TrimRight(s) != "" ==> !Blank(TrimRight(s)[|TrimRight(s)| - 1]) && TrimRight(s)[0] == s[0]
  {
    if s != "" {
      BlankIs(s[|s| - 1]);
    }
    if s != "" && IsSpace(s[|s| - 1]) {
      var front := s[..|s| - 1];
      var a := TrimRightParts(front);
      after := a + [s[|s| - 1]];
      FrontLast(s);
      Assoc(TrimRight(s), a, [s[|s| - 1]]);
    } else {
      after := "";
      assert s + "" == s;
    }
  }

  /** Trimming takes off white space at both ends and nothing else, and leaves none there. */
  lemma {:induction false} TrimMeans(s: string) returns (before: string, after: string)
    ensures s == before + TrimSpace(s) + after && AllBlank(before) && AllBlank(after)
    ensures TrimSpace(s) != "" ==> !Blank(TrimSpace(s)[0]) && !Blank(TrimSpace(s)[|TrimSpace(s)| - 1])
  {
    before := TrimLeftParts(s);
    after := TrimRightParts(TrimLeft(s));
    Assoc(before, TrimSpace(s), after);
  }

  /** A value in a pair of quotes loses them, once. */
  lemma {:induction false} QuotesMean(x: string, q: char)
    ensures q == '"' || q == '\'' ==> TrimQuotes([q] + x + [q]) == x
  {
    var v := [q] + x + [q];
    assert v[|v| - 1] == q && v[1..|v| - 1] == x;
  }

  /** A line sets the key before its first '=' to the value behind it, both without surrounding white space. An empty
      line, a comment that begins with '#', and a line without '=' set nothing. */
  lemma {:induction false} LineMeans(m: map<string, string>, raw: string, key: string, value: string)
    ensures TrimSpace(DropReturn(raw)) == "" ==> ReadLine(m, raw) == m
    ensures var t := TrimSpace(DropReturn(raw)); t != "" && (t[0] == '#' || '=' !in t) ==> ReadLine(m, raw) == m
    ensures var t := TrimSpace(DropReturn(raw));
            t == key + "=" + value && '=' !in key && t[0] != '#' ==>
              ReadLine(m, raw) == m[TrimSpace(key) := TrimSpace(value)]
  {
    var t := TrimSpace(DropReturn(raw));
    if t == key + "=" + value && '=' !in key {
      FirstEquals(key, value);
    }
  }

  lemma {:induction false} FirstEquals(key: string, value: string)
    requires '=' !in key
    ensures IndexOf(key + "=" + value, '=') == |key|
    ensures (key + "=" + value)[..|key|] == key && (key + "=" + value)[|key| + 1..] == value
  {
    var s := key + "=" + value;
    assert s[|key|] == '=' && forall i :: 0 <= i < |key| ==> s[i] == key[i];
  }

  predicate NoBreaks(lines: seq<string>) {
    forall i :: 0 <= i < |lines| ==> '\n' !in lines[i]
  }

  lemma SplitFirst(line: string, rest: string)
    requires '\n' !in line
    ensures SplitLines(line + "\n" + rest) == [line] + SplitLines(rest)
  {
    var t := line + "\n" + rest;
    assert t[|line|] == '\n';
    assert forall i :: 0 <= i < |line| ==> t[i] == line[i];
    assert IndexOf(t, '\n') == |line|;
    assert t[..|line|] == line && t[|line| + 1..] == rest;
  }

  /** Lines joined and ended by line feeds are read back as they were. */
  lemma {:induction false} SplitJoin(lines: seq<string>)
    requires NoBreaks(lines) && lines != []
    ensures SplitLines(Join(lines, "\n") + "\n") == lines
  {
    if |lines| == 1 {
      SplitFirst(lines[0], "");
      assert (lines[0] + "\n") + "" == lines[0] + "\n";
    } else {
      var rest := Join(lines[1..], "\n");
      SplitJoin(lines[1..]);
      SplitFirst(lines[0], rest + "\n");
      Assoc(lines[0] + "\n", rest, "\n");
      HeadTail(lines);
    }
  }

  lemma {:induction false} SplitHasNoBreaks(t: string)
    ensures NoBreaks(SplitLines(t))
  {
    if t != "" {
      var n := IndexOf(t, '\n');
      if n < |t| {
        SplitHasNoBreaks(t[n + 1..]);
      }
    }
  }

  lemma {:induction false} TrimRightPast(a: string, v: string)
    requires a != "" && !IsSpace(a[|a| - 1])
    ensures TrimRight(a + v) == a + TrimRight(v)
  {
    if v == "" {
      assert a + v == a;
    } else {
      assert (a + v)[..|a + v| - 1] == a + v[..|v| - 1];
      if IsSpace(v[|v| - 1]) {
        TrimRightPast(a, v[..|v| - 1]);
      }
    }
  }

  /** A key of letters and underscores. */
  predicate Plain(key: string) {
    key != "" && forall i :: 0 <= i < |key| ==> 'A' <= key[i] <= 'Z' || key[i] == '_'
  }

  lemma KeyFirst(key: string, rest: string)
    requires Plain(key)
    ensures IndexOf(key + "=" + rest, '=') == |key|
    ensures (key + "=" + rest)[..|key|] == key && (key + "=" + rest)[|key| + 1..] == rest
  {
    var s := key + "=" + rest;
    assert s[|key|] == '=' && forall i :: 0 <= i < |key| ==> s[i] == key[i];
  }

  /** What reading makes of a value printed. */
  function ReadBack(v: string): (r: string)
    ensures forall c :: c in r ==> c in v
  {
    TrimSpace(TrimRight(DropReturn(v)))
  }

  /** A value comes back as it was exactly when reading has nothing to trim. */
  lemma ReadBackIff(v: string)
    ensures TrimQuotes(TrimSpace(ReadBack(v))) == v <==> TrimSpace(v) == v && TrimQuotes(v) == v
  {
    if TrimSpace(v) == v {
      assert TrimLeft(v) == v && TrimRight(v) == v;
      assert DropReturn(v) == v;
    }
  }

  lemma {:induction false} ReadPrinted(m: map<string, string>, key: string, v: string)
    requires Plain(key)
    ensures ReadLine(m, Line(key, v)) == m[key := ReadBack(v)]
  {
    var a, u := key + "=", DropReturn(v);
    assert DropReturn(Line(key, v)) == a + u;
    assert TrimLeft(a + u) == a + u;
    TrimRightPast(a, u);
    KeyFirst(key, TrimRight(u));
    PlainIsTrimmed(key);
  }

  lemma {:induction false} PlainIsTrimmed(key: string)
    requires Plain(key)
    ensures TrimSpace(key) == key
  {
    assert TrimLeft(key) == key && TrimRight(key) == key;
  }

  lemma PlainKeys(i: nat)
    requires i < 11
    ensures Plain(KEYS[i])
  {
  }

  lemma DistinctKeys(i: nat, j: nat)
    requires i < j < 11
    ensures KEYS[i] != KEYS[j]
  {
    assert KEYS[0][0] == 'R' && KEYS[6][0] == 'T' && KEYS[7][0] == 'T';
    assert KEYS[6][5] == 'U' && KEYS[7][5] == 'P';
    assert KEYS[1][0] == 'E' && KEYS[8][0] == 'A';
  }

  function Get(m: map<string, string>, key: string): Option<string> {
    if key in m then Some(m[key]) else None
  }

  /** Taking a line of a plain key sets that key to what g makes of the value. */
  ghost predicate Sets(f: Take, g: string -> string) {
    forall m: map<string, string>, key: string, v: string {:trigger f(m, Line(key, v))} ::
      Plain(key) ==> f(m, Line(key, v)) == m[key := g(v)]
  }

  lemma FoldFirst(f: Take, m: map<string, string>, line: string, rest: seq<string>)
    ensures FoldLines(f, m, [line] + rest) == FoldLines(f, f(m, line), rest)
  {
    assert ([line] + rest)[1..] == rest;
  }

  lemma ReadingSets()
    ensures Sets(ReadLine, ReadBack)
  {
    forall m: map<string, string>, key: string, v: string | Plain(key)
      ensures ReadLine(m, Line(key, v)) == m[key := ReadBack(v)]
    {
      ReadPrinted(m, key, v);
    }
  }

  /** Plain keys, no two alike, and none of them the one of the last line. */
  ghost predicate GoodKeys(keys: seq<string>) {
    && |keys| == 11 && (forall i :: 0 <= i < 11 ==> Plain(keys[i]) && keys[i] != "NO_BROWSER")
    && (forall i, j :: 0 <= i < j < 11 ==> keys[i] != keys[j])
  }

  lemma BrowserApart(j: nat)
    requires j < 11
    ensures KEYS[j] != "NO_BROWSER"
  {
  }

  lemma TheKeysAreGood()
    ensures GoodKeys(KEYS)
  {
    forall i | 0 <= i < 11
      ensures Plain(KEYS[i]) && KEYS[i] != "NO_BROWSER"
    {
      PlainKeys(i);
      BrowserApart(i);
    }
    forall i, j | 0 <= i < j < 11
      ensures KEYS[i] != KEYS[j]
    {
      DistinctKeys(i, j);
    }
  }

  lemma TakesLine(f: Take, g: string -> string, m: map<string, string>, key: string, v: string, other: string)
    requires Sets(f, g) && Plain(key)
    ensures Get(f(m, Line(key, v)), other) == if other == key then Some(g(v)) else Get(m, other)
  {
  }

  /** Taking the lines from the i-th setting on sets exactly the settings printed there. */
  lemma {:induction false} FoldRendered(f: Take, g: string -> string, keys: seq<string>, vs: Settings, i: nat,
                                        m: map<string, string>, j: nat)
    requires GoodKeys(keys) && i <= 11 && j < 11 && Sets(f, g)
    ensures Get(FoldLines(f, m, LinesFrom(keys, vs, i)), keys[j]) ==
            if j >= i && Printed(vs, j) then Some(g(vs[j])) else Get(m, keys[j])
    decreases 11 - i
  {
    if i == 11 {
      FoldFirst(f, m, Line("NO_BROWSER", "1"), []);
    } else if Printed(vs, i) {
      var m1 := f(m, Line(keys[i], vs[i]));
      FoldFirst(f, m, Line(keys[i], vs[i]), LinesFrom(keys, vs, i + 1));
      TakesLine(f, g, m, keys[i], vs[i], keys[j]);
      FoldRendered(f, g, keys, vs, i + 1, m1, j);
    } else {
      FoldRendered(f, g, keys, vs, i + 1, m, j);
    }
  }

  /** Reading the printed lines sets exactly the settings printed. */
  lemma ReadRendered(vs: Settings, m: map<string, string>, j: nat)
    requires j < 11
    ensures Get(ReadLines(m, LinesFrom(KEYS, vs, 0)), KEYS[j]) ==
            if Printed(vs, j) then Some(ReadBack(vs[j])) else Get(m, KEYS[j])
  {
    TheKeysAreGood();
    ReadingSets();
    FoldRendered(ReadLine, ReadBack, KEYS, vs, 0, m, j);
  }

  /** The line of the i-th setting, if it has one, is within the limit. */
  predicate Short(vs: Settings, i: nat)
    requires i < 11
  {
    Printed(vs, i) ==> Utf8Length(Line(KEYS[i], vs[i])) <= 65_535
  }

  lemma FitsCons(line: string, rest: seq<string>)
    ensures AllFit([line] + rest) <==> Utf8Length(line) <= LINE_LIMIT && AllFit(rest)
  {
    var all := [line] + rest;
    assert all[0] == line && forall k :: 0 <= k < |rest| ==> rest[k] == all[k + 1];
  }

  lemma {:induction false} RenderedFits(vs: Settings, i: nat)
    requires i <= 11
    ensures AllFit(LinesFrom(KEYS, vs, i)) <==> forall j :: i <= j < 11 ==> Short(vs, j)
    decreases 11 - i
  {
    if i < 11 {
      RenderedFits(vs, i + 1);
      FitsCons(Line(KEYS[i], vs[i]), LinesFrom(KEYS, vs, i + 1));
      assert AllFit(LinesFrom(KEYS, vs, i)) <==> Short(vs, i) && AllFit(LinesFrom(KEYS, vs, i + 1));
    }
  }

  lemma {:induction false} RenderedHasNoBreaks(vs: Settings, i: nat)
    requires i <= 11 && forall j :: i <= j < 11 ==> '\n' !in vs[j]
    ensures NoBreaks(LinesFrom(KEYS, vs, i)) && LinesFrom(KEYS, vs, i) != []
    decreases 11 - i
  {
    if i < 11 {
      PlainKeys(i);
      RenderedHasNoBreaks(vs, i + 1);
    }
  }

  ghost predicate BreakFree(m: map<string, string>) {
    forall k :: k in m ==> '\n' !in m[k]
  }

  lemma ReadLineBreakFree(m: map<string, string>, raw: string)
    requires BreakFree(m) && '\n' !in raw
    ensures BreakFree(ReadLine(m, raw))
  {
    var line := TrimSpace(DropReturn(raw));
    var n := IndexOf(line, '=');
    if n < |line| {
      assert forall c :: c in line[n + 1..] ==> c in line;
    }
  }

  /** No file gives a setting with a line feed in it. */
  lemma {:induction false} ReadBreakFree(m: map<string, string>, lines: seq<string>)
    requires BreakFree(m) && NoBreaks(lines)
    ensures BreakFree(ReadLines(m, lines))
    decreases |lines|
  {
    if lines != [] {
      ReadLineBreakFree(m, lines[0]);
      ReadBreakFree(ReadLine(m, lines[0]), lines[1..]);
    }
  }

  lemma LoadBreakFree(t: string, i: nat)
    requires i < 11 && Load(t).Some?
    ensures '\n' !in Load(t).value[i]
  {
    SplitHasNoBreaks(t);
    ReadBreakFree(map[], SplitLines(t));
  }

  lemma ReadRenderedText(vs: Settings)
    requires forall j :: 0 <= j < 11 ==> '\n' !in vs[j]
    ensures Read(Rendered(vs)) ==
            if forall j :: 0 <= j < 11 ==> Short(vs, j) then Some(ReadLines(map[], LinesFrom(KEYS, vs, 0))) else None
  {
    RenderedHasNoBreaks(vs, 0);
    SplitJoin(LinesFrom(KEYS, vs, 0));
    RenderedFits(vs, 0);
  }

  lemma ValueRendered(vs: Settings, j: nat)
    requires j < 11
    ensures ValueFor(ReadLines(map[], LinesFrom(KEYS, vs, 0)), KEYS[j]) == TrimQuotes(TrimSpace(ReadBack(vs[j])))
  {
    ReadRendered(vs, map[], j);
  }

  lemma AppliedToNothing(m: map<string, string>, j: nat)
    requires j < 11
    ensures Applied(NOTHING_SET, m)[j] == ValueFor(m, KEYS[j])
  {
    assert NOTHING_SET[j] == "";
  }

  /** What loading a printed file gives when no value has a line feed in it. */
  lemma LoadRendered(vs: Settings, j: nat)
    requires j < 11 && forall i :: 0 <= i < 11 ==> '\n' !in vs[i]
    ensures Load(Rendered(vs)).Some? <==> forall i :: 0 <= i < 11 ==> Short(vs, i)
    ensures Load(Rendered(vs)).Some? ==> Load(Rendered(vs)).value[j] == TrimQuotes(TrimSpace(ReadBack(vs[j])))
  {
    ReadRenderedText(vs);
    ValueRendered(vs, j);
    AppliedToNothing(ReadLines(map[], LinesFrom(KEYS, vs, 0)), j);
  }

  /** Loading a printed configuration into an empty one gives it back exactly when every value is free
      of line feeds, surrounding white space and one pair of outer quotes, and every line fits the
      reader's buffer. Values may hold '=' and '#' anywhere. */
  lemma RoundTripIff(vs: Settings)
    ensures Load(Rendered(vs)) == Some(vs) <==> forall i :: 0 <= i < 11 ==> Clean(vs[i]) && Short(vs, i)
  {
    if forall j :: 0 <= j < 11 ==> '\n' !in vs[j] {
      LoadRendered(vs, 0);
      forall j | 0 <= j < 11
        ensures Load(Rendered(vs)).Some? ==> (Load(Rendered(vs)).value[j] == vs[j] <==> Clean(vs[j]))
      {
        LoadRendered(vs, j);
        ReadBackIff(vs[j]);
      }
      SameIff(Load(Rendered(vs)), vs);
    } else if Load(Rendered(vs)).Some? {
      forall j | 0 <= j < 11
        ensures '\n' !in Load(Rendered(vs)).value[j]
      {
        LoadBreakFree(Rendered(vs), j);
      }
    }
  }

  lemma SameIff(r: Option<Settings>, vs: Settings)
    ensures r == Some(vs) <==> r.Some? && forall j :: 0 <= j < 11 ==> r.value[j] == vs[j]
  {
    if r.Some? && forall j :: 0 <= j < 11 ==> r.value[j] == vs[j] {
      assert r.value == vs;
    }
  }
}
