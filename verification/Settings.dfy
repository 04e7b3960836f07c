/** Preset files: requests written one to a line, and read back. */
module Settings {
  type Text = seq<char>

  datatype Result<+T> = Ok(value: T) | Err(line: nat)

  /** A symbol asked to have a value. */
  datatype Request = Request(symbol: Text, text: Text)

  // ---- white space ----

  /** Unicode's `White_Space`, which `trim` removes. */
  predicate Blank(c: char) {
    '\U{9}' <= c <= '\U{D}' || c == ' ' || c == '\U{85}' || c == '\U{A0}' || c == '\U{1680}'
      || '\U{2000}' <= c <= '\U{200A}'
    || c == '\U{2028}' || c == '\U{2029}' || c == '\U{202F}' || c == '\U{205F}' || c == '\U{3000}'
  }

  function TrimStart(s: Text): (r: Text)
    ensures |r| <= |s| && (r != [] ==> !Blank(r[0]))
  {
    if s != [] && Blank(s[0]) then TrimStart(s[1..]) else s
  }

  function TrimEnd(s: Text): (r: Text)
    ensures |r| <= |s| && (r != [] ==> !Blank(r[|r| - 1]))
  {
    if s != [] && Blank(s[|s| - 1]) then TrimEnd(s[..|s| - 1]) else s
  }

  function Trim(s: Text): Text { TrimEnd(TrimStart(s)) }

  /** No blank at either end. */
  predicate Trimmed(s: Text) { s == [] || (!Blank(s[0]) && !Blank(s[|s| - 1])) }

  // ---- reading ----

  function IndexOf(s: Text, c: char): (i: nat)
    ensures i <= |s| && (i < |s| ==> s[i] == c) && forall j | 0 <= j < i :: s[j] != c
  {
    if s == [] || s[0] == c then 0 else 1 + IndexOf(s[1..], c)
  }

  function StripCr(s: Text): Text { if s != [] && s[|s| - 1] == '\r' then s[..|s| - 1] else s }

  /** `lines`: a final line end opens no line of its own. */
  function Lines(s: Text): seq<Text>
    decreases |s|
  {
    if s == [] then []
    else
      var i := IndexOf(s, '\n');
      if i == |s| then [s] else [StripCr(s[..i])] + Lines(s[i + 1..])
  }

  function Unquote(v: Text): Text {
    if |v| >= 2 && v[0] == '"' && v[|v| - 1] == '"' then v[1..|v| - 1] else v
  }

  datatype Read = Skip | Setting(name: Text, text: Text) | Bad

  function ReadLine(line: Text): Read {
    var s := Trim(line);
    if s == [] || s[0] == '#' then Skip
    else
      var i := IndexOf(s, '=');
      if i == |s| then Bad else Setting(Trim(s[..i]), Unquote(Trim(s[i + 1..])))
  }

  /** The settings of lines numbered from `n`. */
  function ReadLines(lines: seq<Text>, n: nat): Result<seq<Request>>
    decreases |lines|
  {
    if lines == [] then Ok([])
    else
      match ReadLine(lines[0])
      case Skip => ReadLines(lines[1..], n + 1)
      case Bad => Err(n)
      case Setting(name, text) =>
        var rest := ReadLines(lines[1..], n + 1);
        if rest.Ok? then Ok([Request(name, text)] + rest.value) else rest
  }

  function ReadSettings(src: Text): Result<seq<Request>> { ReadLines(Lines(src), 1) }

  /** `read_settings` as it runs. */
  method ReadAll(src: Text) returns (r: Result<seq<Request>>)
    ensures r == ReadSettings(src)
  {
    hide ReadLine, Lines;
    var lines := Lines(src);
    var out: seq<Request> := [];
    assert lines[0..] == lines;
    ReadNone(ReadSettings(src));
    for i := 0 to |lines|
      invariant ReadSettings(src) == After(out, ReadLines(lines[i..], i + 1))
    {
      ReadStep(lines, i, out);
      match ReadLine(lines[i]) {
        case Skip =>
        case Bad => return Err(i + 1);
        case Setting(name, text) => out := out + [Request(name, text)];
      }
    }
    assert lines[|lines|..] == [] && out + [] == out;
    r := Ok(out);
  }

  ghost function After(done: seq<Request>, r: Result<seq<Request>>): Result<seq<Request>> {
    if r.Ok? then Ok(done + r.value) else r
  }

  lemma ReadNone(r: Result<seq<Request>>)
    ensures After([], r) == r
  {
    if r.Ok? { assert [] + r.value == r.value; }
  }

  lemma ReadStep(lines: seq<Text>, i: nat, done: seq<Request>)
    requires i < |lines|
    ensures After(done, ReadLines(lines[i..], i + 1)) ==
      match ReadLine(lines[i])
      case Skip => After(done, ReadLines(lines[i + 1..], i + 2))
      case Bad => Err(i + 1)
      case Setting(name, text) => After(done + [Request(name, text)], ReadLines(lines[i + 1..], i + 2))
  {
    hide ReadLine;
    assert lines[i..][0] == lines[i] && lines[i..][1..] == lines[i + 1..];
    var rest := ReadLines(lines[i + 1..], i + 2);
    if ReadLine(lines[i]).Setting? && rest.Ok? {
      var r := Request(ReadLine(lines[i]).name, ReadLine(lines[i]).text);
      assert done + ([r] + rest.value) == done + [r] + rest.value;
    }
  }

  // ---- trimming a line of a preset ----

  lemma TrimmedStays(s: Text)
    requires Trimmed(s)
    ensures Trim(s) == s
  {
  }

  lemma {:induction false} TrimEndKeeps(a: Text, b: Text)
    requires a != [] && !Blank(a[|a| - 1])
    ensures TrimEnd(a + b) == a + TrimEnd(b)
    decreases |b|
  {
    if b == [] {
      assert a + b == a;
    } else if Blank(b[|b| - 1]) {
      assert (a + b)[..|a + b| - 1] == a + b[..|b| - 1];
      TrimEndKeeps(a, b[..|b| - 1]);
    }
  }

  /** Symbol names: not empty, no line end, no `=`, no blank at an end, and no comment. */
  predicate NameOk(name: Text) {
    name != [] && Trimmed(name) && name[0] != '#' && '=' !in name && '\n' !in name
  }

  predicate SingleLine(s: Text) { '\n' !in s }

  lemma NameEnds(name: Text, rest: Text)
    requires NameOk(name)
    ensures IndexOf(name + ['='] + rest, '=') == |name|
  {
    var s := name + ['='] + rest;
    var i := IndexOf(s, '=');
    forall j | 0 <= j < |name| ensures s[j] != '=' { assert s[j] == name[j] && name[j] in name; }
    assert s[|name|] == '=';
  }

  /** What a `NAME=value` line reads as. */
  lemma ReadsAs(name: Text, value: Text)
    requires NameOk(name)
    ensures ReadLine(name + ['='] + value) == Setting(name, Unquote(Trim(TrimEnd(value))))
  {
    hide Trim, Unquote, IndexOf;
    var head := name + ['='];
    var line := head + value;
    TrimLine(name, value);
    NameEnds(name, TrimEnd(value));
    var s := head + TrimEnd(value);
    assert s[..|name|] == name && s[|name| + 1..] == TrimEnd(value);
    TrimmedStays(name);
  }

  lemma TrimLine(name: Text, value: Text)
    requires NameOk(name)
    ensures Trim(name + ['='] + value) == name + ['='] + TrimEnd(value)
  {
    var head := name + ['='];
    assert head[|head| - 1] == '=';
    TrimEndKeeps(head, value);
    var line := head + value;
    assert line[0] == name[0];
  }
}
