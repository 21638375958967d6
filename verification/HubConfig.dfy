/**
 The hub configuration file (worker_agent/adb_proxy.py): its printer, its
 line-based reader, and the round trip between them.
 */
module HubConfig {
  import opened Wrappers
  import opened Strings

  /** A missing field reads as the empty string, or None. */
  datatype Backend = Backend(name: string, addr: string, pairCode: string, enabled: Option<bool>)

  // ---- Text ----

  /** The characters at which `str.splitlines` breaks. */
  predicate IsBreak(c: char) {
    '\n' <= c <= '\r' || '\U{1c}' <= c <= '\U{1e}' || c == '\U{85}' || c == '\U{2028}' || c == '\U{2029}'
  }

  /** No control character and no line break. */
  predicate Plain(s: string) {
    forall c :: c in s ==> c >= ' ' && !IsBreak(c)
  }

  predicate NoBreak(s: string) {
    forall c :: c in s ==> !IsBreak(c)
  }

  function LineEnd(s: string): (n: nat)
    ensures n <= |s| && NoBreak(s[..n]) && (n < |s| ==> IsBreak(s[n]))
  {
    if s == "" || IsBreak(s[0]) then 0
    else
      var n := LineEnd(s[1..]);
      assert s[..n + 1] == [s[0]] + s[1..][..n];
      n + 1
  }

  /** `str.splitlines()`; CR LF is one break. */
  function Lines(s: string): seq<string> {
    if s == "" then []
    else
      var end := LineEnd(s);
      if end == |s| then [s]
      else if s[end] == '\r' && end + 1 < |s| && s[end + 1] == '\n' then [s[..end]] + Lines(s[end + 2..])
      else [s[..end]] + Lines(s[end + 1..])
  }

  /** `"\n".join(lines)`. */
  function Join(lines: seq<string>): string {
    if lines == [] then ""
    else if |lines| == 1 then lines[0]
    else lines[0] + "\n" + Join(lines[1..])
  }

  function ReplaceChar(s: string, c: char, with: string): string {
    if s == "" then "" else (if s[0] == c then with else [s[0]]) + ReplaceChar(s[1..], c, with)
  }

  /** `_toml_string`: backslashes first, then quotes. */
  function Escape(s: string): string {
    ReplaceChar(ReplaceChar(s, '\\', "\\\\"), '"', "\\\"")
  }

  /** What a backslash and this character stand for in a JSON string; `\u` is not modelled. */
  function Unescaped(c: char): Option<char> {
    if c == '"' || c == '\\' || c == '/' then Some(c)
    else if c == 'b' then Some('\U{08}')
    else if c == 'f' then Some('\U{0c}')
    else if c == 'n' then Some('\n')
    else if c == 'r' then Some('\r')
    else if c == 't' then Some('\t')
    else None
  }

  function Prepend(c: char, rest: Option<string>): Option<string> {
    if rest.None? then None else Some([c] + rest.value)
  }

  /** The rest of a JSON string literal after its opening quote; the closing quote must end the text. */
  function ParseRest(t: string): Option<string> {
    if t == "" || t[0] < ' ' then None
    else if t[0] == '"' then if |t| == 1 then Some("") else None
    else if t[0] == '\\' then
      if |t| == 1 || Unescaped(t[1]).None? then None else Prepend(Unescaped(t[1]).value, ParseRest(t[2..]))
    else Prepend(t[0], ParseRest(t[1..]))
  }

  /** `json.loads` where a string is expected; None if it raises or gives anything else. */
  function ParseString(t: string): Option<string> {
    if t == "" || t[0] != '"' then None else ParseRest(t[1..])
  }

  function Quoted(s: string): string {
    "\"" + Escape(s) + "\""
  }

  lemma ReplaceStep(first: char, s: string, c: char, with: string)
    ensures ReplaceChar([first] + s, c, with) == (if first == c then with else [first]) + ReplaceChar(s, c, with)
  {
    assert ([first] + s)[1..] == s;
  }

  lemma EscapeStep(c: char, s: string)
    ensures Escape([c] + s) == (if c == '"' || c == '\\' then ['\\', c] else [c]) + Escape(s)
  {
    hide ReplaceChar;
    var once := ReplaceChar(s, '\\', "\\\\");
    ReplaceStep(c, s, '\\', "\\\\");
    if c == '\\' {
      assert "\\\\" + once == ['\\'] + (['\\'] + once);
      ReplaceStep('\\', ['\\'] + once, '"', "\\\"");
      ReplaceStep('\\', once, '"', "\\\"");
      assert ['\\'] + (['\\'] + Escape(s)) == ['\\', '\\'] + Escape(s);
    } else {
      ReplaceStep(c, once, '"', "\\\"");
    }
  }

  /** Escaping is undone by reading the string literal. */
  lemma {:induction false} EscapeRoundTrip(s: string)
    requires Plain(s)
    ensures ParseRest(Escape(s) + "\"") == Some(s)
    decreases |s|
  {
    if s == "" {
      assert Escape(s) + "\"" == "\"";
    } else {
      assert s == [s[0]] + s[1..] && s[0] in s;
      EscapeStep(s[0], s[1..]);
      EscapeRoundTrip(s[1..]);
      hide Escape;
      var rest := Escape(s[1..]) + "\"";
      if s[0] == '"' || s[0] == '\\' {
        assert Escape(s) + "\"" == ['\\', s[0]] + rest;
        assert (['\\', s[0]] + rest)[2..] == rest;
      } else {
        assert Escape(s) + "\"" == [s[0]] + rest;
        assert ([s[0]] + rest)[1..] == rest;
      }
    }
  }

  lemma QuotedRoundTrip(s: string)
    requires Plain(s)
    ensures ParseString(Quoted(s)) == Some(s)
  {
    EscapeRoundTrip(s);
    assert Quoted(s)[1..] == Escape(s) + "\"";
  }

  lemma {:induction false} EscapeIsPlain(s: string)
    requires Plain(s)
    ensures NoBreak(Escape(s))
    decreases |s|
  {
    if s != "" {
      assert s == [s[0]] + s[1..];
      EscapeStep(s[0], s[1..]);
      EscapeIsPlain(s[1..]);
    }
  }

  // ---- Lines and fields ----

  lemma {:induction false} LineEndIs(s: string, n: nat)
    requires n < |s| && NoBreak(s[..n]) && IsBreak(s[n])
    ensures LineEnd(s) == n
    decreases n
  {
    if n > 0 {
      assert s[..n][0] == s[0] && s[..n][1..] == s[1..][..n - 1];
      LineEndIs(s[1..], n - 1);
    }
  }

  lemma FirstLine(line: string, rest: string)
    requires NoBreak(line)
    ensures Lines(line + "\n" + rest) == [line] + Lines(rest)
  {
    var s := line + "\n" + rest;
    assert s[..|line|] == line && s[|line|] == '\n' && s[|line| + 1..] == rest;
    LineEndIs(s, |line|);
  }

  predicate Unbroken(lines: seq<string>) {
    forall i :: 0 <= i < |lines| ==> NoBreak(lines[i])
  }

  lemma JoinStep(lines: seq<string>)
    requires |lines| > 1
    ensures Join(lines) == lines[0] + "\n" + Join(lines[1..])
    ensures Unbroken(lines) ==> NoBreak(lines[0]) && Unbroken(lines[1..])
    ensures lines[1..][|lines| - 2] == lines[|lines| - 1]
  {
    hide NoBreak;
  }

  lemma FrontOfCons<T>(s: seq<T>)
    requires |s| > 1
    ensures s[..|s| - 1] == [s[0]] + s[1..][..|s| - 2]
  {}

  /** A text that ends with a blank line splits into the lines it was joined from. */
  lemma {:induction false} JoinSplits(lines: seq<string>)
    requires lines != [] && lines[|lines| - 1] == "" && Unbroken(lines)
    ensures Lines(Join(lines)) == lines[..|lines| - 1]
    decreases |lines|
  {
    if |lines| > 1 {
      hide Lines, NoBreak, Join, Unbroken;
      JoinStep(lines);
      JoinSplits(lines[1..]);
      FirstLine(lines[0], Join(lines[1..]));
      FrontOfCons(lines);
    }
  }

  function IndexOf(s: string, c: char): (n: nat)
    ensures n <= |s| && (n < |s| ==> s[n] == c) && c !in s[..n]
  {
    if s == "" || s[0] == c then 0
    else
      var n := IndexOf(s[1..], c);
      assert s[..n + 1] == [s[0]] + s[1..][..n];
      n + 1
  }

  lemma {:induction false} IndexIs(s: string, c: char, n: nat)
    requires n < |s| && s[n] == c && c !in s[..n]
    ensures IndexOf(s, c) == n
    decreases n
  {
    if n > 0 {
      assert s[..n][0] == s[0] && s[..n][1..] == s[1..][..n - 1];
      IndexIs(s[1..], c, n - 1);
    }
  }

  predicate IsTrue(value: string) {
    |value| == 4 && value[0] in "tT" && value[1] in "rR" && value[2] in "uU" && value[3] in "eE"
  }

  /** Sets a field of a backend; None if the value is not a JSON string. */
  function SetField(b: Backend, key: string, value: string): Option<Backend> {
    if key == "name" || key == "addr" || key == "pair_code" then
      var parsed := ParseString(value);
      if parsed.None? then None
      else if key == "name" then Some(b.(name := parsed.value))
      else if key == "addr" then Some(b.(addr := parsed.value))
      else Some(b.(pairCode := parsed.value))
    else if key == "enabled" then Some(b.(enabled := Some(IsTrue(value))))
    else Some(b)
  }

  const HEAD := "[[backend]]"
  const FRESH := Backend("", "", "", None)

  /** The effect of one line; None where the reader gives up on the whole file. */
  function ReadLine(backends: seq<Backend>, raw: string): Option<seq<Backend>> {
    var line := Strip(raw);
    if line == HEAD then Some(backends + [FRESH])
    else if backends == [] || '=' !in line then Some(backends)
    else
      var at := IndexOf(line, '=');
      var last := |backends| - 1;
      var set' := SetField(backends[last], Strip(line[..at]), Strip(line[at + 1..]));
      if set'.None? then None else Some(backends[..last] + [set'.value])
  }

  function ReadFrom(backends: seq<Backend>, lines: seq<string>): Option<seq<Backend>>
    decreases |lines|
  {
    if lines == [] then Some(backends)
    else
      var next := ReadLine(backends, lines[0]);
      if next.None? then None else ReadFrom(next.value, lines[1..])
  }

  predicate IsComplete(b: Backend) {
    b.name != "" && b.addr != "" && b.pairCode != ""
  }

  function Complete(backends: seq<Backend>): seq<Backend> {
    if backends == [] then []
    else (if IsComplete(backends[0]) then [backends[0]] else []) + Complete(backends[1..])
  }

  /** The backends of a file; none if it is missing or unreadable. */
  function HubOf(text: Option<string>): seq<Backend> {
    if text.None? then []
    else
      var read := ReadFrom([], Lines(text.value));
      if read.None? then [] else Complete(read.value)
  }

  /** `_read_hub_config`. */
  method ReadHubConfig(text: Option<string>) returns (backends: seq<Backend>)
    ensures backends == HubOf(text)
  {
    hide ReadLine, Lines;
    if text.None? {
      return [];
    }
    var lines := Lines(text.value);
    var read: seq<Backend> := [];
    for i := 0 to |lines|
      invariant ReadFrom(read, lines[i..]) == ReadFrom([], lines)
    {
      assert lines[i..][1..] == lines[i + 1..];
      var next := ReadLine(read, lines[i]);
      if next.None? {
        return [];
      }
      read := next.value;
    }
    backends := Complete(read);
  }

  // ---- Sorting by name ----

  predicate NotAfter(a: string, b: string) {
    a == "" || (b != "" && (a[0] < b[0] || (a[0] == b[0] && NotAfter(a[1..], b[1..]))))
  }

  function Insert(b: Backend, sorted: seq<Backend>): seq<Backend> {
    if sorted == [] || NotAfter(b.name, sorted[0].name) then [b] + sorted else [sorted[0]] + Insert(b, sorted[1..])
  }

  /** `sorted(backends, key=name)`. */
  function SortByName(backends: seq<Backend>): seq<Backend> {
    if backends == [] then [] else Insert(backends[0], SortByName(backends[1..]))
  }

  predicate IsSorted(s: seq<Backend>) {
    forall i :: 0 < i < |s| ==> NotAfter(s[i - 1].name, s[i].name)
  }

  function OfName(s: seq<Backend>, name: string): seq<Backend> {
    if s == [] then [] else (if s[0].name == name then [s[0]] else []) + OfName(s[1..], name)
  }

  lemma {:induction false} NotAfterTotal(a: string, b: string)
    ensures NotAfter(a, b) || NotAfter(b, a)
    ensures NotAfter(a, a)
    decreases |a|
  {
    if a != "" {
      NotAfterTotal(a[1..], if b != "" then b[1..] else "");
    }
  }

  lemma {:induction false} InsertSorts(b: Backend, s: seq<Backend>)
    requires IsSorted(s)
    ensures IsSorted(Insert(b, s))
    ensures Insert(b, s)[0] == if s == [] || NotAfter(b.name, s[0].name) then b else s[0]
    decreases |s|
  {
    if s != [] && !NotAfter(b.name, s[0].name) {
      NotAfterTotal(b.name, s[0].name);
      InsertSorts(b, s[1..]);
      var rest := Insert(b, s[1..]);
      forall i | 0 < i < |[s[0]] + rest|
        ensures NotAfter(([s[0]] + rest)[i - 1].name, ([s[0]] + rest)[i].name)
      {
        if i == 1 && |s| > 1 {
          assert NotAfter(s[0].name, s[1].name);
        }
      }
    }
  }

  lemma {:induction false} InsertIsStable(b: Backend, s: seq<Backend>, name: string)
    ensures OfName(Insert(b, s), name) == OfName([b] + s, name)
    decreases |s|
  {
    assert ([b] + s)[1..] == s;
    if s != [] && !NotAfter(b.name, s[0].name) {
      NotAfterTotal(b.name, b.name);
      InsertIsStable(b, s[1..], name);
      assert ([s[0]] + Insert(b, s[1..]))[1..] == Insert(b, s[1..]);
      assert ([b] + s[1..])[1..] == s[1..];
    }
  }

  /** The order of the file: ascending names, and equal names in their old order. */
  lemma {:induction false} SortIsStable(backends: seq<Backend>, name: string)
    ensures IsSorted(SortByName(backends))
    ensures OfName(SortByName(backends), name) == OfName(backends, name)
    decreases |backends|
  {
    if backends != [] {
      var rest := SortByName(backends[1..]);
      SortIsStable(backends[1..], name);
      InsertSorts(backends[0], rest);
      InsertIsStable(backends[0], rest, name);
      assert ([backends[0]] + rest)[1..] == rest;
    }
  }

  lemma {:induction false} SortKeepsElements(backends: seq<Backend>)
    ensures multiset(SortByName(backends)) == multiset(backends)
    decreases |backends|
  {
    if backends != [] {
      SortKeepsElements(backends[1..]);
      InsertAdds(backends[0], SortByName(backends[1..]));
      assert backends == [backends[0]] + backends[1..];
    }
  }

  lemma {:induction false} InsertAdds(b: Backend, s: seq<Backend>)
    ensures multiset(Insert(b, s)) == multiset(s) + multiset{b}
    decreases |s|
  {
    if s != [] && !NotAfter(b.name, s[0].name) {
      InsertAdds(b, s[1..]);
      assert s == [s[0]] + s[1..];
    }
  }

  // ---- The printer ----

  const HEADER: seq<string> := [
    "listen = \"127.0.0.1:5037\"",
    "poll_interval_ms = 1000",
    "include_local = true",
    "local_adb_port = 5039",
    ""]

  function Field(key: string, value: string): string {
    key + " = " + Quoted(value)
  }

  function Block(b: Backend): seq<string> {
    [HEAD, Field("name", b.name), Field("addr", b.addr), Field("pair_code", b.pairCode), "enabled = true", ""]
  }

  function Blocks(backends: seq<Backend>): seq<string> {
    if backends == [] then [] else Blocks(backends[..|backends| - 1]) + Block(backends[|backends| - 1])
  }

  function HubText(backends: seq<Backend>): string {
    Join(HEADER + Blocks(SortByName(backends)))
  }

  /** `_write_hub_config`. */
  method WriteHubConfig(backends: seq<Backend>) returns (text: string)
    ensures text == HubText(backends)
  {
    var lines := HEADER;
    var ordered := SortByName(backends);
    for i := 0 to |ordered|
      invariant lines == HEADER + Blocks(ordered[..i])
    {
      assert ordered[..i + 1][..i] == ordered[..i];
      lines := lines + Block(ordered[i]);
    }
    assert ordered[..|ordered|] == ordered;
    text := Join(lines);
  }

  // ---- The round trip ----

  /** What the reader can give back: every field present and printable. */
  predicate Writable(b: Backend) {
    IsComplete(b) && Plain(b.name) && Plain(b.addr) && Plain(b.pairCode)
  }

  function Switched(b: Backend): Backend {
    b.(enabled := Some(true))
  }

  function AllSwitched(backends: seq<Backend>): seq<Backend> {
    seq(|backends|, i requires 0 <= i < |backends| => Switched(backends[i]))
  }

  /** A line `key = value` splits into its key and its value. */
  lemma AssignmentSplits(key: string, value: string)
    requires key != "" && value != "" && !IsSpace(value[0]) && !IsSpace(value[|value| - 1])
    requires forall c :: c in key ==> !IsSpace(c) && c != '='
    ensures var line := key + " = " + value;
            Strip(line) == line && IndexOf(line, '=') == |key| + 1
            && Strip(line[..|key| + 1]) == key && Strip(line[|key| + 2..]) == value
  {
    var line := key + " = " + value;
    StripKeeps(line);
    assert line[..|key| + 1] == key + " ";
    IndexIs(line, '=', |key| + 1);
    StripTrailing(key);
    assert line[|key| + 2..] == " " + value;
    StripLeading(value);
  }

  lemma StripTrailing(key: string)
    requires key != "" && !IsSpace(key[0]) && !IsSpace(key[|key| - 1])
    ensures Strip(key + " ") == key
  {
    var line := key + " ";
    assert line[..|line| - 1] == key;
    assert StripLeft(line) == line;
    assert StripRight(line) == StripRight(key);
    StripKeeps(key);
  }

  lemma StripLeading(value: string)
    requires value != "" && !IsSpace(value[0]) && !IsSpace(value[|value| - 1])
    ensures Strip(" " + value) == value
  {
    var line := " " + value;
    assert line[1..] == value;
    StripKeeps(value);
  }

  lemma AssignmentReads(backends: seq<Backend>, b: Backend, key: string, value: string)
    requires key != "" && value != "" && !IsSpace(value[0]) && !IsSpace(value[|value| - 1])
    requires forall c :: c in key ==> !IsSpace(c) && c != '='
    requires SetField(b, key, value).Some? && key[0] != '['
    ensures ReadLine(backends + [b], key + " = " + value) == Some(backends + [SetField(b, key, value).value])
  {
    hide Strip, IndexOf, SetField;
    AssignmentSplits(key, value);
    var line := key + " = " + value;
    assert line[|key| + 1] == '=' && line[0] == key[0];
    assert (backends + [b])[..|backends|] == backends;
  }

  lemma FieldReads(backends: seq<Backend>, b: Backend, key: string, value: string)
    requires key in {"name", "addr", "pair_code"} && Plain(value)
    ensures SetField(b, key, Quoted(value)).Some?
    ensures ReadLine(backends + [b], Field(key, value)) == Some(backends + [SetField(b, key, Quoted(value)).value])
  {
    hide Strip, ReadLine;
    QuotedRoundTrip(value);
    AssignmentReads(backends, b, key, Quoted(value));
  }

  lemma EnabledReads(backends: seq<Backend>, b: Backend)
    ensures ReadLine(backends + [b], "enabled = true") == Some(backends + [Switched(b)])
  {
    hide Strip, ReadLine;
    AssignmentReads(backends, b, "enabled", "true");
    assert "enabled" + " = " + "true" == "enabled = true";
  }

  lemma BlankReads(backends: seq<Backend>)
    ensures ReadLine(backends, "") == Some(backends)
  {}

  lemma HeadReads(backends: seq<Backend>)
    ensures ReadLine(backends, HEAD) == Some(backends + [FRESH])
  {
    StripKeeps(HEAD);
  }

  lemma ReadStep(backends: seq<Backend>, line: string, rest: seq<string>, next: seq<Backend>)
    requires ReadLine(backends, line) == Some(next)
    ensures ReadFrom(backends, [line] + rest) == ReadFrom(next, rest)
  {
    assert ([line] + rest)[1..] == rest;
  }

  lemma {:induction false} ReadConcat(backends: seq<Backend>, a: seq<string>, b: seq<string>, next: seq<Backend>)
    requires ReadFrom(backends, a) == Some(next)
    ensures ReadFrom(backends, a + b) == ReadFrom(next, b)
    decreases |a|
  {
    hide ReadLine;
    if a == [] {
      assert a + b == b;
    } else {
      ReadConcat(ReadLine(backends, a[0]).value, a[1..], b, next);
      assert (a + b)[1..] == a[1..] + b;
    }
  }

  lemma ReadBlock(backends: seq<Backend>, b: Backend)
    requires Writable(b)
    ensures ReadFrom(backends, Block(b)) == Some(backends + [Switched(b)])
  {
    hide ReadLine, ReadFrom, Field;
    var named := FRESH.(name := b.name);
    var addressed := named.(addr := b.addr);
    var paired := addressed.(pairCode := b.pairCode);
    var block := Block(b);
    HeadReads(backends);
    ReadStep(backends, HEAD, block[1..], backends + [FRESH]);
    QuotedRoundTrip(b.name);
    FieldReads(backends, FRESH, "name", b.name);
    ReadStep(backends + [FRESH], block[1], block[2..], backends + [named]);
    QuotedRoundTrip(b.addr);
    FieldReads(backends, named, "addr", b.addr);
    ReadStep(backends + [named], block[2], block[3..], backends + [addressed]);
    QuotedRoundTrip(b.pairCode);
    FieldReads(backends, addressed, "pair_code", b.pairCode);
    ReadStep(backends + [addressed], block[3], block[4..], backends + [paired]);
    EnabledReads(backends, paired);
    ReadStep(backends + [paired], block[4], block[5..], backends + [Switched(paired)]);
    BlankReads(backends + [Switched(paired)]);
    ReadStep(backends + [Switched(paired)], block[5], [], backends + [Switched(paired)]);
    assert block == [HEAD] + block[1..] && block[1..] == [block[1]] + block[2..];
    assert block[2..] == [block[2]] + block[3..];
    assert block[3..] == [block[3]] + block[4..] && block[4..] == [block[4]] + block[5..];
    assert block[5..] == [block[5]] + [];
    NothingLeft(backends + [Switched(paired)]);
  }

  lemma NothingLeft(backends: seq<Backend>)
    ensures ReadFrom(backends, []) == Some(backends)
  {}

  lemma HeaderReads()
    ensures ReadFrom([], HEADER) == Some([])
  {
    StripKeeps(HEADER[0]);
    StripKeeps(HEADER[1]);
    StripKeeps(HEADER[2]);
    StripKeeps(HEADER[3]);
    hide Strip;
    NothingLeft([]);
    BlankReads([]);
    ReadStep([], HEADER[4], [], []);
    ReadStep([], HEADER[3], HEADER[4..], []);
    ReadStep([], HEADER[2], HEADER[3..], []);
    ReadStep([], HEADER[1], HEADER[2..], []);
    ReadStep([], HEADER[0], HEADER[1..], []);
    assert HEADER[4..] == [HEADER[4]] + [] && HEADER[3..] == [HEADER[3]] + HEADER[4..];
    assert HEADER[2..] == [HEADER[2]] + HEADER[3..] && HEADER[1..] == [HEADER[1]] + HEADER[2..];
    assert HEADER == [HEADER[0]] + HEADER[1..];
  }

  lemma {:induction false} BlocksRead(backends: seq<Backend>)
    requires forall b :: b in backends ==> Writable(b)
    ensures ReadFrom([], HEADER + Blocks(backends)) == Some(AllSwitched(backends))
    decreases |backends|
  {
    hide ReadFrom, Block, Writable;
    if backends == [] {
      hide Blocks;
      HeaderReads();
      NoBlocks();
      AddNothing(HEADER);
      assert AllSwitched(backends) == [];
    } else {
      var front, last := backends[..|backends| - 1], backends[|backends| - 1];
      BlocksRead(front);
      ReadBlock(AllSwitched(front), last);
      ReadConcat([], HEADER + Blocks(front), Block(last), AllSwitched(front));
      assert HEADER + Blocks(front) + Block(last) == HEADER + Blocks(backends);
      assert AllSwitched(front) + [Switched(last)] == AllSwitched(backends);
    }
  }

  lemma {:induction false} BlocksUnbroken(backends: seq<Backend>)
    requires forall b :: b in backends ==> Writable(b)
    ensures Unbroken(Blocks(backends))
    ensures backends != [] ==> |Blocks(backends)| > 0 && Blocks(backends)[|Blocks(backends)| - 1] == ""
    decreases |backends|
  {
    if backends != [] {
      hide Block, NoBreak, Writable;
      var front, last := backends[..|backends| - 1], backends[|backends| - 1];
      BlocksUnbroken(front);
      BlockUnbroken(last);
    }
  }

  lemma HeaderUnbroken()
    ensures Unbroken(HEADER)
  {
    hide NoBreak;
    HeaderPlain();
    HeaderPlainToo();
    assert NoBreak(HEADER[0]) && NoBreak(HEADER[1]) && NoBreak(HEADER[2]) && NoBreak(HEADER[3]);
    assert NoBreak(HEADER[4]) by { NoBreakInNothing(); }
  }

  lemma HeaderPlain()
    ensures NoBreak("listen = \"127.0.0.1:5037\"") && NoBreak("poll_interval_ms = 1000")
  {}

  lemma HeaderPlainToo()
    ensures NoBreak("include_local = true") && NoBreak("local_adb_port = 5039")
  {}

  lemma NoBreakInNothing()
    ensures NoBreak("")
  {}

  lemma LinesUnbroken(backends: seq<Backend>)
    requires forall b :: b in backends ==> Writable(b)
    ensures var lines := HEADER + Blocks(backends); lines[|lines| - 1] == "" && Unbroken(lines)
  {
    hide NoBreak, Writable, Blocks;
    HeaderUnbroken();
    BlocksUnbroken(backends);
    if backends == [] {
      assert Blocks(backends) == [] by { NoBlocks(); }
    }
  }

  lemma AddNothing<T>(s: seq<T>)
    ensures s + [] == s
  {}

  lemma NoBlocks()
    ensures Blocks([]) == []
  {}

  lemma BlockUnbroken(b: Backend)
    requires Writable(b)
    ensures Unbroken(Block(b)) && |Block(b)| == 6 && Block(b)[5] == ""
  {
    hide Field;
    FieldHasNoBreak("name", b.name);
    FieldHasNoBreak("addr", b.addr);
    FieldHasNoBreak("pair_code", b.pairCode);
  }

  lemma FieldHasNoBreak(key: string, value: string)
    requires NoBreak(key) && Plain(value)
    ensures NoBreak(Field(key, value))
  {
    EscapeIsPlain(value);
  }

  /** The final blank line that splitting drops makes no difference. */
  lemma BlankEndReads(lines: seq<string>, read: seq<Backend>)
    requires lines != [] && lines[|lines| - 1] == "" && ReadFrom([], lines) == Some(read)
    ensures ReadFrom([], lines[..|lines| - 1]) == Some(read)
  {
    BlankEndReadsFrom([], lines, read);
  }

  lemma {:induction false} BlankEndReadsFrom(backends: seq<Backend>, lines: seq<string>, read: seq<Backend>)
    requires lines != [] && lines[|lines| - 1] == "" && ReadFrom(backends, lines) == Some(read)
    ensures ReadFrom(backends, lines[..|lines| - 1]) == Some(read)
    decreases |lines|
  {
    hide ReadLine;
    if |lines| == 1 {
      BlankReads(backends);
    } else {
      BlankEndReadsFrom(ReadLine(backends, lines[0]).value, lines[1..], read);
      assert lines[..|lines| - 1][1..] == lines[1..][..|lines| - 2];
    }
  }

  lemma {:induction false} AllComplete(backends: seq<Backend>)
    requires forall b :: b in backends ==> IsComplete(b)
    ensures Complete(backends) == backends
    decreases |backends|
  {
    if backends != [] {
      AllComplete(backends[1..]);
    }
  }

  lemma SwitchedComplete(backends: seq<Backend>)
    requires forall b :: b in backends ==> Writable(b)
    ensures forall b :: b in AllSwitched(backends) ==> IsComplete(b)
  {
    forall i | 0 <= i < |backends|
      ensures IsComplete(AllSwitched(backends)[i])
    {
      assert Writable(backends[i]);
    }
  }

  lemma SortedWritable(backends: seq<Backend>)
    requires forall b :: b in backends ==> Writable(b)
    ensures forall b :: b in SortByName(backends) ==> Writable(b)
  {
    SortKeepsElements(backends);
    forall b | b in SortByName(backends)
      ensures Writable(b)
    {
      assert b in multiset(SortByName(backends)) && b in multiset(backends);
    }
  }

  /** Reading what was written gives the backends back, sorted by name and enabled. */
  lemma HubRoundTrip(backends: seq<Backend>)
    requires forall b :: b in backends ==> Writable(b)
    ensures HubOf(Some(HubText(backends))) == AllSwitched(SortByName(backends))
  {
    hide ReadFrom, Lines, Join, SortByName, Blocks;
    var ordered := SortByName(backends);
    SortedWritable(backends);
    var lines := HEADER + Blocks(ordered);
    LinesUnbroken(ordered);
    JoinSplits(lines);
    BlocksRead(ordered);
    BlankEndReads(lines, AllSwitched(ordered));
    SwitchedComplete(ordered);
    AllComplete(AllSwitched(ordered));
  }
}
