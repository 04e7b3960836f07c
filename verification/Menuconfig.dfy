/** The configuration editor: what every key does, and what no run of keys can break. The resolver
    is a function of the requests about which nothing else is known. */
module Menuconfig {
  import opened Optional
  import opened Settings
  import opened Preset

  // ---- what is configured ----

  datatype Kind = Bool | Tristate | Int | Hex | Str
  datatype Tri = N | M | Y

  datatype Symbol = Symbol(kind: Kind, choice: Option<Text>, menu: Option<nat>, readonly: bool, prompted: bool)
  datatype Choice = Choice(menu: Option<nat>, members: seq<Text>)

  /** `parents[i]` is the menu that menu `i` sits in. */
  datatype Table = Table(
    order: seq<Text>,
    symbols: map<Text, Symbol>,
    choices: map<Text, Choice>,
    parents: seq<Option<nat>>)
  {
    ghost predicate Valid() {
      && (forall n | n in order :: n in symbols)
      && (forall n | n in symbols :: symbols[n].choice.Some? ==> symbols[n].choice.value in choices)
      && (forall n | n in symbols :: symbols[n].menu.Some? ==> symbols[n].menu.value < |parents|)
      && (forall c | c in choices :: NoRepeats(choices[c].members))
      && (forall c | c in choices :: choices[c].menu.Some? ==> choices[c].menu.value < |parents|)
      && (forall i | 0 <= i < |parents| :: parents[i].Some? ==> parents[i].value < i)
    }
  }

  datatype Val = Three(level: Tri) | Words(text: Text) | Number(n: int, shown: Text)

  /** A value for every symbol. */
  type Resolution = map<Text, Val>

  /** What an editing session starts from. */
  datatype Env = Env(table: Table, base: seq<Request>, resolve: seq<Request> -> Option<Resolution>) {
    /** The resolver gives every symbol of the table a value. */
    ghost predicate Valid() {
      table.Valid() && forall rs | resolve(rs).Some? :: forall n | n in table.symbols :: n in resolve(rs).value
    }
  }

  /** A number other than zero and a string that is not empty are as good as `y`. */
  function Level(res: Resolution, name: Text): Tri {
    if name !in res then N
    else
      match res[name]
      case Three(level) => level
      case Words(text) => if text != [] then Y else N
      case Number(n, _) => if n != 0 then Y else N
  }

  const MODULES: Text := "MODULES"

  // ---- menus ----

  datatype Node = Root | Menu(menu: nat) | ChoiceOf(choice: Text)
  datatype Item = SymbolItem(symbol: Text) | MenuItem(menu: nat) | ChoiceItem(choice: Text)

  /** The menus from the outermost down to one. */
  function MenuChain(t: Table, at: Option<nat>): seq<Item>
    requires t.Valid() && (at.Some? ==> at.value < |t.parents|)
    decreases if at.Some? then at.value + 1 else 0
  {
    if at.None? then [] else MenuChain(t, t.parents[at.value]) + [MenuItem(at.value)]
  }

  /** The containers a symbol sits in, outermost first, and the symbol. */
  function Chain(t: Table, name: Text): (c: seq<Item>)
    requires t.Valid() && name in t.symbols
    ensures c != [] && c[|c| - 1] == SymbolItem(name)
  {
    var s := t.symbols[name];
    var menu := if s.choice.Some? then t.choices[s.choice.value].menu else s.menu;
    MenuChain(t, menu) + (if s.choice.Some? then [ChoiceItem(s.choice.value)] else []) + [SymbolItem(name)]
  }

  function Position(c: seq<Item>, i: Item): (p: nat)
    ensures p <= |c| && (p < |c| ==> c[p] == i)
  {
    if c == [] || c[0] == i then 0 else 1 + Position(c[1..], i)
  }

  /** The row a symbol puts into a container: what comes next in its chain. */
  function RowIn(t: Table, node: Node, name: Text): Option<Item>
    requires t.Valid() && name in t.symbols
  {
    var c := Chain(t, name);
    match node
    case Root => Some(c[0])
    case Menu(m) =>
      var p := Position(c, MenuItem(m));
      if p + 1 < |c| then Some(c[p + 1]) else None
    case ChoiceOf(x) =>
      var p := Position(c, ChoiceItem(x));
      if p + 1 < |c| then Some(c[p + 1]) else None
  }

  /** Rows in declaration order, each once. */
  function RowsFrom(t: Table, node: Node, names: seq<Text>, rows: seq<Item>): seq<Item>
    requires t.Valid() && forall n | n in names :: n in t.symbols
    decreases |names|
  {
    if names == [] then rows
    else
      var row := RowIn(t, node, names[0]);
      RowsFrom(t, node, names[1..], if row.Some? && row.value !in rows then rows + [row.value] else rows)
  }

  function Items(t: Table, node: Node): seq<Item>
    requires t.Valid()
  {
    RowsFrom(t, node, t.order, [])
  }

  // ---- the session ----

  datatype Key = Up | Down | Left | Right | Enter | Esc | Backspace | Char(c: char)
  datatype Action = Continue | Save | SaveAndQuit | Quit
  datatype View = List | Help(symbol: Text) | Why(symbol: Text) | Edit(symbol: Text, buffer: Text) | ConfirmQuit
  datatype Place = Place(node: Node, cursor: nat)

  datatype State = State(changes: seq<Request>, res: Resolution, stack: seq<Place>, view: View, dirty: bool)

  function Start(env: Env): Option<State> {
    var res := env.resolve(env.base);
    if res.Some? then Some(State([], res.value, [Place(Root, 0)], List, false)) else None
  }

  function Requests(env: Env, s: State): seq<Request> { env.base + s.changes }

  predicate Settable(t: Table, name: Text)
    requires name in t.symbols
  {
    !t.symbols[name].readonly && t.symbols[name].prompted
  }

  predicate Names(sets: seq<Request>, name: Text) { exists r | r in sets :: r.symbol == name }

  /** The changes without those for symbols that are set again. */
  function Others(changes: seq<Request>, sets: seq<Request>): seq<Request> {
    if changes == [] then []
    else (if Names(sets, changes[0].symbol) then [] else [changes[0]]) + Others(changes[1..], sets)
  }

  /** Ask for `sets`; accepted only if the whole still resolves. */
  function Apply(env: Env, s: State, name: Text, sets: seq<Request>): State
    requires name in env.table.symbols
  {
    if !Settable(env.table, name) then s
    else
      var changes := Others(s.changes, sets) + sets;
      var res := env.resolve(env.base + changes);
      if res.Some? then s.(res := res.value, changes := changes, dirty := true) else s
  }

  /** The symbol was last asked to be `y`. */
  predicate AskedYes(all: seq<Request>, name: Text) {
    all != [] && (var last := all[|all| - 1];
                  if last.symbol == name then last.text == "y" else AskedYes(all[..|all| - 1], name))
  }

  /** The other members of a choice that were picked before, each turned off. */
  function Unpicks(all: seq<Request>, name: Text, members: seq<Text>): seq<Request> {
    if members == [] then []
    else
      var rest := Unpicks(all, name, members[1..]);
      if members[0] != name && AskedYes(all, members[0]) then [Request(members[0], "n")] + rest else rest
  }

  function SetsFor(env: Env, s: State, name: Text, text: Text): seq<Request>
    requires env.Valid() && name in env.table.symbols
  {
    var choice := env.table.symbols[name].choice;
    [Request(name, text)]
    + if choice.Some? && text == "y"
      then Unpicks(Requests(env, s), name, env.table.choices[choice.value].members)
      else []
  }

  function Set(env: Env, s: State, name: Text, text: Text): State
    requires env.Valid() && name in env.table.symbols
  {
    Apply(env, s, name, SetsFor(env, s, name, text))
  }

  /** Toggle a bool, step a tristate, pick a choice member, or start editing a value. */
  function Activate(env: Env, s: State, name: Text): State
    requires env.Valid() && name in env.table.symbols && name in s.res
  {
    var sym := env.table.symbols[name];
    match sym.kind
    case Bool => Set(env, s, name, if sym.choice.Some? || Level(s.res, name) == N then "y" else "n")
    case Tristate =>
      Set(env, s, name, match Level(s.res, name)
                        case N => if Level(s.res, MODULES) == Y then "m" else "y"
                        case M => "y"
                        case Y => "n")
    case _ =>
      if !Settable(env.table, name) then s
      else s.(view := Edit(name, Shown(s.res[name])))
  }

  /** The text an edit starts from. */
  function Shown(v: Val): Text {
    match v
    case Three(level) => if level == N then "n" else if level == M then "m" else "y"
    case Words(text) => text
    case Number(_, shown) => shown
  }

  function Top(s: State): Place
    requires s.stack != []
  {
    s.stack[|s.stack| - 1]
  }

  /** The row under the cursor. */
  function Current(env: Env, s: State): Option<Item>
    requires env.Valid() && s.stack != []
  {
    var rows := Items(env.table, Top(s).node);
    if Top(s).cursor < |rows| then Some(rows[Top(s).cursor]) else None
  }

  function WithCursor(s: State, cursor: nat): State
    requires s.stack != []
  {
    s.(stack := s.stack[..|s.stack| - 1] + [Place(Top(s).node, cursor)])
  }

  function Open(s: State, node: Node): State { s.(stack := s.stack + [Place(node, 0)]) }

  /** The symbol under the cursor, if that is what is there. */
  function CurrentSymbol(env: Env, s: State): Option<Text>
    requires env.Valid() && s.stack != []
  {
    var row := Current(env, s);
    if row.Some? && row.value.SymbolItem? then Some(row.value.symbol) else None
  }

  function Min(a: nat, b: nat): nat { if a < b then a else b }

  /** What opening the row under the cursor does. */
  function Follow(env: Env, s: State): State
    requires Ready(env, s)
  {
    var row := Current(env, s);
    if row.None? then s
    else
      match row.value
      case MenuItem(m) => Open(s, Menu(m))
      case ChoiceItem(c) => Open(s, ChoiceOf(c))
      case SymbolItem(n) =>
        CurrentIsKnown(env, s);
        Activate(env, s, n)
  }

  /** A key on a list of rows. */
  function OnList(env: Env, s: State, key: Key): (State, Action)
    requires Ready(env, s)
  {
    CurrentIsKnown(env, s);
    var rows, cursor, symbol := Items(env.table, Top(s).node), Top(s).cursor, CurrentSymbol(env, s);
    if key == Up || key == Char('k') then (WithCursor(s, if cursor > 0 then cursor - 1 else 0), Continue)
    else if key == Down || key == Char('j') then
      (WithCursor(s, Min(cursor + 1, if |rows| > 0 then |rows| - 1 else 0)), Continue)
    else if key == Left || key == Esc || key == Backspace || key == Char('h') then
      (if |s.stack| > 1 then s.(stack := s.stack[..|s.stack| - 1]) else s, Continue)
    else if key == Right || key == Enter || key == Char('l') then (Follow(env, s), Continue)
    else if key == Char(' ') then (if symbol.Some? then Activate(env, s, symbol.value) else s, Continue)
    else if key == Char('y') || key == Char('n') || key == Char('m') then
      (if symbol.Some? then Set(env, s, symbol.value, [key.c]) else s, Continue)
    else if key == Char('?') then (if symbol.Some? then s.(view := Help(symbol.value)) else s, Continue)
    else if key == Char('w') then (if symbol.Some? then s.(view := Why(symbol.value)) else s, Continue)
    else if key == Char('s') then (s, Save)
    else if key == Char('q') then if s.dirty then (s.(view := ConfirmQuit), Continue) else (s, Quit)
    else (s, Continue)
  }

  /** A key while a value is being edited. */
  function OnEdit(env: Env, s: State, symbol: Text, buffer: Text, key: Key): State
    requires symbol in env.table.symbols
  {
    match key
    case Enter => Apply(env, s, symbol, [Request(symbol, buffer)])
    case Esc => s
    case Backspace => s.(view := Edit(symbol, if buffer == [] then [] else buffer[..|buffer| - 1]))
    case Char(c) => s.(view := Edit(symbol, buffer + [c]))
    case _ => s.(view := Edit(symbol, buffer))
  }

  /** `handle`. */
  function Step(env: Env, s: State, key: Key): (State, Action)
    requires Ready(env, s)
  {
    var listed := s.(view := List);
    match s.view
    case Help(_) => (listed, Continue)
    case Why(_) => (listed, Continue)
    case ConfirmQuit => (listed, if key == Char('s') then SaveAndQuit else if key == Char('q') then Quit else Continue)
    case Edit(symbol, buffer) => (OnEdit(env, listed, symbol, buffer, key), Continue)
    case List => OnList(env, listed, key)
  }

  // ---- what every session keeps ----

  ghost predicate InRange(t: Table, p: Place)
    requires t.Valid()
  {
    p.cursor == 0 || p.cursor < |Items(t, p.node)|
  }

  /** The symbol a view is about is one of the table's. */
  predicate ViewOk(t: Table, v: View) {
    match v
    case Help(n) => n in t.symbols
    case Why(n) => n in t.symbols
    case Edit(n, _) => n in t.symbols
    case _ => true
  }

  /** Enough to take any key: a place to stand, and a value for every symbol. */
  ghost predicate Ready(env: Env, s: State) {
    env.Valid() && s.stack != [] && ViewOk(env.table, s.view) && forall n | n in env.table.symbols :: n in s.res
  }

  predicate OncePerSymbol(rs: seq<Request>) { forall i, j | 0 <= i < j < |rs| :: rs[i].symbol != rs[j].symbol }

  /** The resolution is what the resolver gives for the base and the changes, no symbol is changed
      twice, and every cursor is on a row. */
  ghost predicate Inv(env: Env, s: State) {
    && Ready(env, s)
    && env.resolve(env.base + s.changes) == Some(s.res)
    && OncePerSymbol(s.changes)
    && s.stack[0].node == Root && forall i | 0 <= i < |s.stack| :: InRange(env.table, s.stack[i])
  }

  lemma {:induction false} ChainIsKnown(t: Table, at: Option<nat>)
    requires t.Valid() && (at.Some? ==> at.value < |t.parents|)
    ensures forall i | i in MenuChain(t, at) :: i.MenuItem?
    decreases if at.Some? then at.value + 1 else 0
  {
    if at.Some? { ChainIsKnown(t, t.parents[at.value]); }
  }

  lemma RowIsKnown(t: Table, node: Node, name: Text)
    requires t.Valid() && name in t.symbols && RowIn(t, node, name).Some? && RowIn(t, node, name).value.SymbolItem?
    ensures RowIn(t, node, name).value.symbol in t.symbols
  {
    var s := t.symbols[name];
    ChainIsKnown(t, if s.choice.Some? then t.choices[s.choice.value].menu else s.menu);
    var c := Chain(t, name);
    forall i | i in c && i.SymbolItem? ensures i.symbol == name { }
    assert RowIn(t, node, name).value in c;
  }

  ghost predicate Known(t: Table, rows: seq<Item>) { forall i | i in rows && i.SymbolItem? :: i.symbol in t.symbols }

  lemma {:induction false} RowsAreKnown(t: Table, node: Node, names: seq<Text>, rows: seq<Item>)
    requires t.Valid() && (forall n | n in names :: n in t.symbols) && Known(t, rows)
    ensures Known(t, RowsFrom(t, node, names, rows))
    decreases |names|
  {
    hide RowIn, Table.Valid;
    if names != [] {
      var row := RowIn(t, node, names[0]);
      if row.Some? && row.value.SymbolItem? { RowIsKnown(t, node, names[0]); }
      RowsAreKnown(t, node, names[1..], if row.Some? && row.value !in rows then rows + [row.value] else rows);
    }
  }

  lemma CurrentIsKnown(env: Env, s: State)
    requires Ready(env, s)
    ensures CurrentSymbol(env, s).Some? ==> CurrentSymbol(env, s).value in env.table.symbols
  {
    RowsAreKnown(env.table, Top(s).node, env.table.order, []);
  }

  // ---- changes ----

  lemma {:induction false} OthersAre(changes: seq<Request>, sets: seq<Request>)
    requires OncePerSymbol(changes)
    ensures OncePerSymbol(Others(changes, sets))
    ensures forall r | r in Others(changes, sets) :: r in changes && !Names(sets, r.symbol)
    decreases |changes|
  {
    if changes != [] {
      OthersAre(changes[1..], sets);
      var rest := Others(changes[1..], sets);
      forall r | r in rest ensures r.symbol != changes[0].symbol {
        var j :| 0 <= j < |changes[1..]| && changes[1..][j] == r;
        assert changes[j + 1] == r;
      }
    }
  }

  lemma OnceTogether(a: seq<Request>, b: seq<Request>)
    requires OncePerSymbol(a) && OncePerSymbol(b) && forall r | r in a :: !Names(b, r.symbol)
    ensures OncePerSymbol(a + b)
  {
    var all := a + b;
    forall i, j | 0 <= i < j < |all| ensures all[i].symbol != all[j].symbol {
      if i < |a| <= j { assert a[i] in a && b[j - |a|] in b; }
    }
  }

  /** A change accepted or refused keeps the session sound; a refused one changes nothing. */
  lemma ApplyKeeps(env: Env, s: State, name: Text, sets: seq<Request>)
    requires Inv(env, s) && name in env.table.symbols && OncePerSymbol(sets)
    ensures Inv(env, Apply(env, s, name, sets))
    ensures var after := Others(s.changes, sets) + sets;
      !Settable(env.table, name) || env.resolve(env.base + after).None? ==> Apply(env, s, name, sets) == s
  {
    hide Items, Table.Valid;
    OthersAre(s.changes, sets);
    OnceTogether(Others(s.changes, sets), sets);
  }

  lemma {:induction false} UnpicksAre(all: seq<Request>, name: Text, members: seq<Text>)
    requires NoRepeats(members)
    ensures OncePerSymbol(Unpicks(all, name, members))
    ensures forall r | r in Unpicks(all, name, members) :: r.symbol in members && r.symbol != name
    decreases |members|
  {
    if members != [] {
      UnpicksAre(all, name, members[1..]);
      assert members[0] !in members[1..];
    }
  }

  lemma SetsAre(env: Env, s: State, name: Text, text: Text)
    requires env.Valid() && name in env.table.symbols
    ensures OncePerSymbol(SetsFor(env, s, name, text))
  {
    hide AskedYes;
    var choice := env.table.symbols[name].choice;
    if choice.Some? && text == "y" {
      var rest := Unpicks(Requests(env, s), name, env.table.choices[choice.value].members);
      UnpicksAre(Requests(env, s), name, env.table.choices[choice.value].members);
      assert forall i | 0 <= i < |rest| :: rest[i] in rest;
    }
  }

  lemma SetKeeps(env: Env, s: State, name: Text, text: Text)
    requires Inv(env, s) && name in env.table.symbols
    ensures Inv(env, Set(env, s, name, text))
  {
    hide Inv, Apply, SetsFor;
    InvIs(env, s);
    SetsAre(env, s, name, text);
    ApplyKeeps(env, s, name, SetsFor(env, s, name, text));
  }

  lemma InvIs(env: Env, s: State)
    requires Inv(env, s)
    ensures env.Valid() && Ready(env, s) && s.stack != []
  {
  }
}
