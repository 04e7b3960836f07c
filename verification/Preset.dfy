/** The preset a session saves: every request, one line to a symbol, the last word winning. */
module Preset {
  import opened Settings

  /** What requests come to when a later one overrides an earlier one. */
  function LastMap(all: seq<Request>): map<Text, Text> {
    if all == [] then map[]
    else
      var last := all[|all| - 1];
      LastMap(all[..|all| - 1])[last.symbol := last.text]
  }

  /** The symbols asked for, each where it was last asked for. */
  function Written(all: seq<Request>): (names: seq<Text>)
    decreases |all|
  {
    if all == [] then []
    else
      var rest := Written(all[1..]);
      if all[0].symbol in rest then rest else [all[0].symbol] + rest
  }

  /** The text a symbol was last asked to have. */
  function LastText(all: seq<Request>, name: Text): Text
    requires exists r | r in all :: r.symbol == name
  {
    var last := all[|all| - 1];
    if last.symbol == name then last.text
    else
      assert forall r | r in all :: r == last || r in all[..|all| - 1];
      LastText(all[..|all| - 1], name)
  }

  /** One line; `strs` are the symbols of string kind, whose values are quoted. */
  function Line(strs: set<Text>, r: Request): Text {
    if r.symbol in strs then r.symbol + ['='] + (['"'] + r.text + ['"']) else r.symbol + ['='] + r.text
  }

  function Body(strs: set<Text>, rs: seq<Request>): Text {
    if rs == [] then [] else Line(strs, rs[0]) + ['\n'] + Body(strs, rs[1..])
  }

  const SAVED_BY := "# Saved by kbuild menuconfig."
  const BUILD_WITH := " Build with: kbuild build"
  const WITH_PRESET := " --preset ./menuconfig.preset"

  /** The first line of every preset. */
  function Banner(): Text { SAVED_BY + BUILD_WITH + WITH_PRESET }

  function StartedFrom(from: Text): Text { "# Started from " + from + "." }

  /** The last request of each symbol, in the order they are written. */
  function LastRequests(all: seq<Request>): (rs: seq<Request>)
    ensures |rs| == |Written(all)|
  {
    WrittenAre(all);
    var names := Written(all);
    seq(|names|, i requires 0 <= i < |names| => assert names[i] in names; Request(names[i], LastText(all, names[i])))
  }

  function PresetText(strs: set<Text>, all: seq<Request>, from: Text): Text {
    Banner() + ['\n'] + (StartedFrom(from) + ['\n'] + Body(strs, LastRequests(all)))
  }

  // ---- what is written ----

  predicate NoRepeats(s: seq<Text>) { forall i, j | 0 <= i < j < |s| :: s[i] != s[j] }

  lemma {:induction false} WrittenAre(all: seq<Request>)
    ensures NoRepeats(Written(all)) && forall n :: n in Written(all) <==> exists r | r in all :: r.symbol == n
    decreases |all|
  {
    if all != [] {
      WrittenAre(all[1..]);
      assert forall r | r in all :: r == all[0] || r in all[1..];
      assert forall r | r in all[1..] :: r in all;
      assert all[0] in all;
    }
  }

  lemma {:induction false} LastMapIs(all: seq<Request>, n: Text)
    ensures n in LastMap(all) <==> exists r | r in all :: r.symbol == n
    ensures n in LastMap(all) ==> LastMap(all)[n] == LastText(all, n)
    decreases |all|
  {
    if all != [] {
      var m := |all| - 1;
      LastMapIs(all[..m], n);
      assert forall r | r in all :: r == all[m] || r in all[..m];
      assert forall r | r in all[..m] :: r in all;
      assert all[m] in all;
    }
  }

  /** Requests for different symbols come to themselves. */
  lemma {:induction false} DistinctLast(rs: seq<Request>, i: nat)
    requires i < |rs| && forall a, b | 0 <= a < b < |rs| :: rs[a].symbol != rs[b].symbol
    ensures rs[i].symbol in LastMap(rs) && LastMap(rs)[rs[i].symbol] == rs[i].text
    decreases |rs|
  {
    var m := |rs| - 1;
    if i < m { DistinctLast(rs[..m], i); }
  }

  /** Writing one line to a symbol loses nothing: what is written comes to what was asked. */
  lemma WrittenComesToTheSame(all: seq<Request>)
    ensures LastMap(LastRequests(all)) == LastMap(all)
  {
    hide Written, LastText, LastMap;
    var rs, names := LastRequests(all), Written(all);
    WrittenAre(all);
    forall n ensures n in LastMap(rs) <==> n in LastMap(all) {
      LastMapIs(rs, n);
      LastMapIs(all, n);
      if n in names {
        var i :| 0 <= i < |names| && names[i] == n;
        assert rs[i] in rs && rs[i].symbol == n;
      }
      if r :| r in rs && r.symbol == n {
        var i :| 0 <= i < |rs| && rs[i] == r;
        assert names[i] == n;
      }
    }
    forall n | n in LastMap(all) ensures LastMap(rs)[n] == LastMap(all)[n] {
      LastMapIs(all, n);
      assert n in names;
      var i :| 0 <= i < |names| && names[i] == n;
      DistinctLast(rs, i);
    }
  }

  // ---- one line read back ----

  /** Values a line without quotes can hold: no blank at an end, and not quoted itself. */
  predicate Plain(text: Text) { Trimmed(text) && Unquote(text) == text }

  lemma {:induction false} TrimEndShortens(s: Text)
    ensures TrimEnd(s) == s <==> s == [] || !Blank(s[|s| - 1])
    ensures TrimEnd(StripCr(s)) == TrimEnd(s)
  {
  }

  lemma {:induction false} TrimStartShortens(s: Text)
    ensures TrimStart(s) == s <==> s == [] || !Blank(s[0])
  {
  }

  lemma StripLine(name: Text, value: Text)
    requires NameOk(name)
    ensures StripCr(name + ['='] + value) == name + ['='] + StripCr(value)
  {
    var line := name + ['='] + value;
    if value != [] {
      assert line[|line| - 1] == value[|value| - 1];
      assert line[..|line| - 1] == name + ['='] + value[..|value| - 1];
    }
  }

  /** What a line reads as once its end is gone. */
  lemma LineReads(name: Text, value: Text)
    requires NameOk(name)
    ensures ReadLine(StripCr(name + ['='] + value)) == Setting(name, Unquote(Trim(TrimEnd(value))))
  {
    hide ReadLine, Trim, Unquote, StripCr;
    StripLine(name, value);
    ReadsAs(name, StripCr(value));
    TrimEndShortens(value);
  }

  /** A value between quotes is read whole, whatever it is. */
  lemma QuotedReads(text: Text)
    ensures Unquote(Trim(TrimEnd(['"'] + text + ['"']))) == text
  {
    var v := ['"'] + text + ['"'];
    assert Trimmed(v) && v[0] == '"' && v[|v| - 1] == '"' && v[1..|v| - 1] == text;
    TrimmedStays(v);
    TrimEndShortens(v);
  }

  /** A bare value is read back exactly when it is plain. */
  lemma BareReads(text: Text)
    ensures Unquote(Trim(TrimEnd(text))) == text <==> Plain(text)
  {
    TrimEndShortens(text);
    if Trimmed(text) {
      TrimmedStays(text);
    } else {
      TrimStartShortens(TrimEnd(text));
      TrimShortens(text);
    }
  }

  lemma TrimShortens(text: Text)
    requires !Trimmed(text)
    ensures |Trim(TrimEnd(text))| < |text|
  {
    var t := TrimEnd(text);
    TrimEndShortens(text);
    TrimStartShortens(t);
    if t == text {
      assert Blank(text[0]);
    }
  }

  /** What a request comes back as: a quoted value whole, a bare one trimmed and without quotes. */
  function Comes(strs: set<Text>, r: Request): Request {
    if r.symbol in strs then r else r.(text := Unquote(Trim(TrimEnd(r.text))))
  }

  lemma LineComes(strs: set<Text>, r: Request)
    requires NameOk(r.symbol)
    ensures ReadLine(StripCr(Line(strs, r))) == Setting(r.symbol, Comes(strs, r).text)
  {
    hide ReadLine, Trim, Unquote, StripCr, TrimEnd, NameOk;
    if r.symbol in strs {
      LineReads(r.symbol, ['"'] + r.text + ['"']);
      QuotedReads(r.text);
    } else {
      LineReads(r.symbol, r.text);
    }
  }

  /** A line reads back as its request exactly when the symbol is a string or the value plain. */
  lemma LineReadsBack(strs: set<Text>, r: Request)
    requires NameOk(r.symbol)
    ensures ReadLine(StripCr(Line(strs, r))) == Setting(r.symbol, r.text) <==> r.symbol in strs || Plain(r.text)
  {
    hide ReadLine, Trim, Unquote, StripCr, TrimEnd, NameOk, Plain;
    LineComes(strs, r);
    BareReads(r.text);
  }

  // ---- the whole file ----

  /** The first line of a text that begins with one. */
  lemma LinesCons(line: Text, rest: Text)
    requires SingleLine(line)
    ensures Lines(line + ['\n'] + rest) == [StripCr(line)] + Lines(rest)
  {
    var s := line + ['\n'] + rest;
    var i := IndexOf(s, '\n');
    forall j | 0 <= j < |line| ensures s[j] != '\n' { assert s[j] == line[j] && line[j] in line; }
    assert s[|line|] == '\n';
    assert i == |line|;
    assert s[..i] == line && s[i + 1..] == rest;
  }

  lemma ReadCons(line: Text, rest: seq<Text>, n: nat)
    ensures ReadLine(line).Skip? ==> ReadLines([line] + rest, n) == ReadLines(rest, n + 1)
    ensures ReadLine(line).Setting? && ReadLines(rest, n + 1).Ok? ==>
      var first := Request(ReadLine(line).name, ReadLine(line).text);
      ReadLines([line] + rest, n) == Ok([first] + ReadLines(rest, n + 1).value)
  {
    hide ReadLine;
    assert ([line] + rest)[0] == line && ([line] + rest)[1..] == rest;
  }

  /** A request a preset can carry. */
  predicate Writable(strs: set<Text>, r: Request) {
    NameOk(r.symbol) && SingleLine(r.text) && (r.symbol in strs || Plain(r.text))
  }

  lemma LineIsSingle(strs: set<Text>, r: Request)
    requires NameOk(r.symbol) && SingleLine(r.text)
    ensures SingleLine(Line(strs, r))
  {
    hide Trimmed;
  }

  /** Names and values that make one line each. */
  predicate Linear(rs: seq<Request>) { forall r | r in rs :: NameOk(r.symbol) && SingleLine(r.text) }

  function AllCome(strs: set<Text>, rs: seq<Request>): seq<Request> {
    seq(|rs|, i requires 0 <= i < |rs| => Comes(strs, rs[i]))
  }

  lemma {:induction false} BodyReads(strs: set<Text>, rs: seq<Request>, n: nat)
    requires Linear(rs)
    ensures ReadLines(Lines(Body(strs, rs)), n) == Ok(AllCome(strs, rs))
    decreases |rs|
  {
    hide ReadLine, Lines, Line, StripCr, NameOk, Plain, Comes;
    if rs == [] {
      NoLines();
    } else {
      LineIsSingle(strs, rs[0]);
      LinesCons(Line(strs, rs[0]), Body(strs, rs[1..]));
      LineComes(strs, rs[0]);
      ComesNamed(strs, rs[0]);
      BodyReads(strs, rs[1..], n + 1);
      ReadCons(StripCr(Line(strs, rs[0])), Lines(Body(strs, rs[1..])), n);
      assert [Comes(strs, rs[0])] + AllCome(strs, rs[1..]) == AllCome(strs, rs);
    }
  }

  lemma ComesNamed(strs: set<Text>, r: Request)
    ensures Comes(strs, r).symbol == r.symbol
    ensures Comes(strs, r) == r <==> r.symbol in strs || Plain(r.text)
  {
    hide Trim, Unquote, TrimEnd, Plain;
    BareReads(r.text);
  }

  lemma NoLines()
    ensures Lines([]) == []
  {
  }

  lemma CommentSkips(line: Text)
    requires line != [] && line[0] == '#'
    ensures ReadLine(StripCr(line)).Skip?
  {
    var s := StripCr(line);
    if s != [] {
      assert s[0] == '#';
      TrimEndKeeps([s[0]], s[1..]);
      assert [s[0]] + s[1..] == s;
    }
  }

  lemma BannerIsSingle()
    ensures SingleLine(Banner()) && Banner() != [] && Banner()[0] == '#'
  {
    assert SingleLine(SAVED_BY) && SingleLine(BUILD_WITH) && SingleLine(WITH_PRESET);
  }

  lemma StartedIsSingle(from: Text)
    requires SingleLine(from)
    ensures SingleLine(StartedFrom(from)) && StartedFrom(from) != [] && StartedFrom(from)[0] == '#'
  {
  }

  /** What a preset reads back as: the last request of each symbol, each as its line comes back. */
  lemma PresetReads(strs: set<Text>, all: seq<Request>, from: Text)
    requires SingleLine(from) && Linear(LastRequests(all))
    ensures ReadSettings(PresetText(strs, all, from)) == Ok(AllCome(strs, LastRequests(all)))
  {
    hide ReadLine, Lines, ReadLines, StripCr, Linear, LastRequests, Banner, StartedFrom, Body, AllCome;
    var rs := LastRequests(all);
    var body := Body(strs, rs);
    BannerIsSingle();
    StartedIsSingle(from);
    LinesCons(Banner(), StartedFrom(from) + ['\n'] + body);
    LinesCons(StartedFrom(from), body);
    CommentSkips(Banner());
    CommentSkips(StartedFrom(from));
    ReadCons(StripCr(Banner()), [StripCr(StartedFrom(from))] + Lines(body), 1);
    ReadCons(StripCr(StartedFrom(from)), Lines(body), 2);
    BodyReads(strs, rs, 3);
  }

  // ---- nothing read has a line end ----

  lemma {:induction false} TrimIsWithin(s: Text)
    requires SingleLine(s)
    ensures SingleLine(TrimStart(s)) && SingleLine(TrimEnd(s))
    decreases |s|
  {
    if s != [] {
      TrimIsWithin(s[1..]);
      TrimIsWithin(s[..|s| - 1]);
    }
  }

  lemma ReadIsSingle(line: Text)
    requires SingleLine(line) && ReadLine(line).Setting?
    ensures SingleLine(ReadLine(line).text)
  {
    hide TrimStart, TrimEnd, IndexOf;
    TrimIsWithin(line);
    TrimIsWithin(TrimStart(line));
    var s := Trim(line);
    var v := s[IndexOf(s, '=') + 1..];
    TrimIsWithin(v);
    TrimIsWithin(TrimStart(v));
  }

  lemma {:induction false} LinesAreSingle(s: Text)
    ensures forall line | line in Lines(s) :: SingleLine(line)
    decreases |s|
  {
    hide IndexOf;
    if s != [] && IndexOf(s, '\n') < |s| { LinesAreSingle(s[IndexOf(s, '\n') + 1..]); }
  }

  lemma {:induction false} ReadAreSingle(lines: seq<Text>, n: nat)
    requires forall line | line in lines :: SingleLine(line)
    ensures ReadLines(lines, n).Ok? ==> forall r | r in ReadLines(lines, n).value :: SingleLine(r.text)
    decreases |lines|
  {
    hide ReadLine, SingleLine;
    if lines != [] {
      ReadAreSingle(lines[1..], n + 1);
      if ReadLine(lines[0]).Setting? { ReadIsSingle(lines[0]); }
    }
  }

  lemma {:induction false} LastMapWithin(rs: seq<Request>, n: Text)
    requires n in LastMap(rs)
    ensures Request(n, LastMap(rs)[n]) in rs
    decreases |rs|
  {
    var m := |rs| - 1;
    if rs[m].symbol != n { LastMapWithin(rs[..m], n); }
  }

  /** Different requests for the same different symbols come to different maps. */
  lemma DistinctMaps(rs: seq<Request>, qs: seq<Request>)
    requires |rs| == |qs| && forall i | 0 <= i < |rs| :: rs[i].symbol == qs[i].symbol
    requires forall a, b | 0 <= a < b < |rs| :: rs[a].symbol != rs[b].symbol
    ensures LastMap(rs) == LastMap(qs) <==> rs == qs
  {
    hide LastMap;
    if LastMap(rs) == LastMap(qs) {
      forall i | 0 <= i < |rs| ensures rs[i] == qs[i] {
        DistinctLast(rs, i);
        DistinctLast(qs, i);
      }
    }
  }

  /** A value with a line end never comes back. */
  lemma ManyLinesLost(src: Text, rs: seq<Request>, r: Request)
    requires NoRepeatedSymbols(rs) && r in rs && !SingleLine(r.text) && ReadSettings(src).Ok?
    ensures LastMap(ReadSettings(src).value) != LastMap(rs)
  {
    hide Lines, ReadLines, LastMap;
    LinesAreSingle(src);
    ReadAreSingle(Lines(src), 1);
    var i :| 0 <= i < |rs| && rs[i] == r;
    DistinctLast(rs, i);
    var read := ReadSettings(src).value;
    if LastMap(read) == LastMap(rs) { LastMapWithin(read, r.symbol); }
  }

  predicate NoRepeatedSymbols(rs: seq<Request>) { forall a, b | 0 <= a < b < |rs| :: rs[a].symbol != rs[b].symbol }

  lemma LastRequestsDiffer(all: seq<Request>)
    ensures NoRepeatedSymbols(LastRequests(all))
  {
    WrittenAre(all);
  }

  /** The round trip, exactly. A preset reads back as the last request of each symbol, and comes to
      what was asked, exactly when every such value has one line and, for a symbol that is not a
      string, no blanks or quotes around it. */
  lemma PresetReadsBack(strs: set<Text>, all: seq<Request>, from: Text)
    requires SingleLine(from) && forall r | r in LastRequests(all) :: NameOk(r.symbol)
    ensures var read, rs := ReadSettings(PresetText(strs, all, from)), LastRequests(all);
      && (read == Ok(rs) <==> forall r | r in rs :: Writable(strs, r))
      && (read.Ok? && LastMap(read.value) == LastMap(all) <==> forall r | r in rs :: Writable(strs, r))
  {
    hide ReadSettings, PresetText, LastRequests, LastMap, NameOk, SingleLine, Plain, Comes;
    var read, rs := ReadSettings(PresetText(strs, all, from)), LastRequests(all);
    LastRequestsDiffer(all);
    WrittenComesToTheSame(all);
    if r :| r in rs && !SingleLine(r.text) {
      if read.Ok? { ManyLinesLost(PresetText(strs, all, from), rs, r); }
    } else {
      PresetReads(strs, all, from);
      AllComeBack(strs, rs);
      DistinctMaps(rs, AllCome(strs, rs));
    }
  }

  lemma AllComeBack(strs: set<Text>, rs: seq<Request>)
    requires Linear(rs)
    ensures AllCome(strs, rs) == rs <==> forall r | r in rs :: Writable(strs, r)
    ensures forall i | 0 <= i < |rs| :: AllCome(strs, rs)[i].symbol == rs[i].symbol
  {
    hide Comes, NameOk, SingleLine, Plain;
    forall i | 0 <= i < |rs|
      ensures AllCome(strs, rs)[i].symbol == rs[i].symbol
      ensures AllCome(strs, rs)[i] == rs[i] <==> Writable(strs, rs[i])
    {
      ComesNamed(strs, rs[i]);
    }
    if forall r | r in rs :: Writable(strs, r) {
      assert forall i | 0 <= i < |rs| :: AllCome(strs, rs)[i] == rs[i];
    } else {
      var r :| r in rs && !Writable(strs, r);
      var i :| 0 <= i < |rs| && rs[i] == r;
      assert AllCome(strs, rs)[i] != rs[i];
    }
  }

  /** A single request survives the preset exactly when its value does. */
  lemma OnlyWritableReadsBack(strs: set<Text>, r: Request, from: Text)
    requires SingleLine(from) && NameOk(r.symbol)
    ensures ReadSettings(PresetText(strs, [r], from)) == Ok([r]) <==> Writable(strs, r)
  {
    hide ReadSettings, PresetText, LastRequests, LastMap, NameOk, SingleLine, Writable;
    OneRequest(r);
    PresetReadsBack(strs, [r], from);
  }

  lemma OneRequest(r: Request)
    ensures LastRequests([r]) == [r]
  {
    assert [r][1..] == [] && Written([r]) == [r.symbol];
  }

  // ---- writing as it runs ----

  /** The two loops of `preset_text` that collect the symbols, from the last request back. */
  method Collect(all: seq<Request>) returns (written: seq<Text>)
    ensures written == Written(all)
  {
    hide Written;
    written := [];
    NoneWritten(all);
    var i := |all|;
    while i > 0
      invariant 0 <= i <= |all| && written == Written(all[i..])
    {
      i := i - 1;
      WrittenStep(all, i);
      if all[i].symbol !in written { written := [all[i].symbol] + written; }
    }
    assert all[0..] == all;
  }

  lemma NoneWritten(all: seq<Request>)
    ensures Written(all[|all|..]) == []
  {
  }

  lemma WrittenStep(all: seq<Request>, i: nat)
    requires i < |all|
    ensures Written(all[i..]) ==
      var rest := Written(all[i + 1..]);
      if all[i].symbol in rest then rest else [all[i].symbol] + rest
  {
    assert all[i..][0] == all[i] && all[i..][1..] == all[i + 1..];
  }

  /** `preset_text` as it runs. */
  method WritePreset(strs: set<Text>, all: seq<Request>, from: Text) returns (out: Text)
    ensures out == PresetText(strs, all, from)
  {
    hide Body, Line, LastText, Written, Banner;
    WrittenAre(all);
    var written := Collect(all);
    out := Banner() + ['\n'] + (StartedFrom(from) + ['\n']);
    ghost var head, rs := out, LastRequests(all);
    NoBody(strs, rs);
    for i := 0 to |written|
      invariant out == head + Body(strs, rs[..i])
    {
      assert written[i] in written;
      var r := Request(written[i], LastText(all, written[i]));
      BodyAppend(strs, rs[..i], r);
      assert rs[..i + 1] == rs[..i] + [r];
      out := out + (Line(strs, r) + ['\n']);
    }
    assert rs[..|rs|] == rs;
    Regroup(Banner() + ['\n'], StartedFrom(from) + ['\n'], Body(strs, rs));
  }

  lemma Regroup(a: Text, b: Text, c: Text)
    ensures a + b + c == a + (b + c)
  {
  }

  lemma NoBody(strs: set<Text>, rs: seq<Request>)
    ensures Body(strs, rs[..0]) == []
  {
  }

  lemma {:induction false} BodyAppend(strs: set<Text>, rs: seq<Request>, r: Request)
    ensures Body(strs, rs + [r]) == Body(strs, rs) + (Line(strs, r) + ['\n'])
    decreases |rs|
  {
    hide Line;
    if rs == [] {
      assert rs + [r] == [r] && [r][1..] == [];
    } else {
      assert (rs + [r])[1..] == rs[1..] + [r];
      BodyAppend(strs, rs[1..], r);
    }
  }
}
