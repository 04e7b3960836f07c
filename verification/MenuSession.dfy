/** Runs of keys: the editor as it runs, and what holds after any of them. */
module MenuSession {
  import opened Optional
  import opened Settings
  import opened Preset
  import opened Menuconfig

  // ---- one key ----

  lemma ViewKeeps(env: Env, s: State, view: View)
    requires Inv(env, s) && ViewOk(env.table, view)
    ensures Inv(env, s.(view := view))
  {
    hide Items, Table.Valid, OncePerSymbol;
  }

  lemma CursorKeeps(env: Env, s: State, cursor: nat)
    requires Inv(env, s) && InRange(env.table, Place(Top(s).node, cursor))
    ensures Inv(env, WithCursor(s, cursor))
  {
    hide Items, Table.Valid, OncePerSymbol;
    var n := |s.stack| - 1;
    var t := WithCursor(s, cursor);
    assert forall i | 0 <= i < n :: t.stack[i] == s.stack[i];
  }

  lemma OpenKeeps(env: Env, s: State, node: Node)
    requires Inv(env, s)
    ensures Inv(env, Open(s, node))
  {
    hide Items, Table.Valid, OncePerSymbol;
  }

  lemma LeaveKeeps(env: Env, s: State)
    requires Inv(env, s) && |s.stack| > 1
    ensures Inv(env, s.(stack := s.stack[..|s.stack| - 1]))
  {
    hide Items, Table.Valid, OncePerSymbol;
  }

  lemma ActivateKeeps(env: Env, s: State, name: Text)
    requires Inv(env, s) && name in env.table.symbols
    ensures name in s.res && Inv(env, Activate(env, s, name))
  {
    hide Inv, Set, Settable, Shown;
    InvIs(env, s);
    var sym := env.table.symbols[name];
    match sym.kind {
      case Bool => SetKeeps(env, s, name, if sym.choice.Some? || Level(s.res, name) == N then "y" else "n");
      case Tristate =>
        SetKeeps(env, s, name, match Level(s.res, name)
                               case N => if Level(s.res, MODULES) == Y then "m" else "y"
                               case M => "y"
                               case Y => "n");
      case _ => ViewKeeps(env, s, Edit(name, Shown(s.res[name])));
    }
  }

  lemma FollowKeeps(env: Env, s: State)
    requires Inv(env, s)
    ensures Inv(env, Follow(env, s))
  {
    hide Inv, Activate;
    InvIs(env, s);
    CurrentIsKnown(env, s);
    var row := Current(env, s);
    if row.Some? {
      match row.value {
        case MenuItem(m) => OpenKeeps(env, s, Menu(m));
        case ChoiceItem(c) => OpenKeeps(env, s, ChoiceOf(c));
        case SymbolItem(n) => ActivateKeeps(env, s, n);
      }
    }
  }

  /** Moving up or down stays on a row. */
  lemma MoveKeeps(env: Env, s: State)
    requires Inv(env, s)
    ensures var cursor, n := Top(s).cursor, |Items(env.table, Top(s).node)|;
      && Inv(env, WithCursor(s, if cursor > 0 then cursor - 1 else 0))
      && Inv(env, WithCursor(s, Min(cursor + 1, if n > 0 then n - 1 else 0)))
  {
    TopInRange(env, s);
    var cursor, n := Top(s).cursor, |Items(env.table, Top(s).node)|;
    CursorKeeps(env, s, if cursor > 0 then cursor - 1 else 0);
    CursorKeeps(env, s, Min(cursor + 1, if n > 0 then n - 1 else 0));
  }

  lemma TopInRange(env: Env, s: State)
    requires Inv(env, s)
    ensures InRange(env.table, Top(s))
  {
  }

  lemma OnListKeeps(env: Env, s: State, key: Key)
    requires Inv(env, s)
    ensures Inv(env, OnList(env, s, key).0)
  {
    hide Inv, Activate, Set, Follow, WithCursor, Items, CurrentSymbol;
    InvIs(env, s);
    CurrentIsKnown(env, s);
    var symbol := CurrentSymbol(env, s);
    MoveKeeps(env, s);
    if |s.stack| > 1 { LeaveKeeps(env, s); }
    FollowKeeps(env, s);
    ViewKeeps(env, s, ConfirmQuit);
    if symbol.Some? {
      ActivateKeeps(env, s, symbol.value);
      if key.Char? { SetKeeps(env, s, symbol.value, [key.c]); }
      ViewKeeps(env, s, Help(symbol.value));
      ViewKeeps(env, s, Why(symbol.value));
    }
  }

  lemma OnEditKeeps(env: Env, s: State, symbol: Text, buffer: Text, key: Key)
    requires Inv(env, s) && symbol in env.table.symbols
    ensures Inv(env, OnEdit(env, s, symbol, buffer, key))
  {
    hide Inv, Apply;
    match key {
      case Enter => ApplyKeeps(env, s, symbol, [Request(symbol, buffer)]);
      case Esc =>
      case Backspace => ViewKeeps(env, s, Edit(symbol, if buffer == [] then [] else buffer[..|buffer| - 1]));
      case Char(c) => ViewKeeps(env, s, Edit(symbol, buffer + [c]));
      case _ => ViewKeeps(env, s, Edit(symbol, buffer));
    }
  }

  /** Any key keeps the session sound. */
  lemma StepKeeps(env: Env, s: State, key: Key)
    requires Inv(env, s)
    ensures Inv(env, Step(env, s, key).0)
  {
    hide Inv, OnList, OnEdit;
    InvIs(env, s);
    ViewKeeps(env, s, List);
    var listed := s.(view := List);
    if s.view.Edit? { OnEditKeeps(env, listed, s.view.symbol, s.view.buffer, key); }
    if s.view.List? { OnListKeeps(env, listed, key); }
  }

  /** A change marks the session as unsaved; a key that leaves it saved changed nothing. */
  lemma StepMarks(env: Env, s: State, key: Key)
    requires Inv(env, s)
    ensures var t := Step(env, s, key).0; s.dirty ==> t.dirty
    ensures var t := Step(env, s, key).0; !t.dirty ==> t.changes == s.changes
  {
    hide Inv, Items, SetsFor, Others, Level, Shown, CurrentSymbol, Current;
    InvIs(env, s);
    CurrentIsKnown(env, s);
  }

  /** A session with unsaved changes is left only from the question whether to, and only by its
      answer. */
  lemma QuitIsConfirmed(env: Env, s: State, key: Key)
    requires Inv(env, s)
    ensures Step(env, s, key).1 == Quit ==> !s.dirty || (s.view == ConfirmQuit && key == Char('q'))
    ensures Step(env, s, key).1 == SaveAndQuit ==> s.view == ConfirmQuit && key == Char('s')
  {
    hide Inv, Items, Activate, Set, Follow;
    InvIs(env, s);
    CurrentIsKnown(env, s);
  }

  // ---- runs ----

  /** A key, or the word that the configuration was saved. */
  datatype Event = Press(key: Key) | Saved

  /** A session, and the changes as they were when it was last saved. */
  datatype Run = Run(s: State, saved: seq<Request>)

  ghost predicate Sound(env: Env, r: Run) { Inv(env, r.s) && (!r.s.dirty ==> r.s.changes == r.saved) }

  function Do(env: Env, r: Run, e: Event): Run
    requires Ready(env, r.s)
  {
    match e
    case Press(key) => r.(s := Step(env, r.s, key).0)
    case Saved => Run(r.s.(dirty := false), r.s.changes)
  }

  lemma DoKeeps(env: Env, r: Run, e: Event)
    requires Sound(env, r)
    ensures Sound(env, Do(env, r, e))
  {
    hide Inv, Step;
    InvIs(env, r.s);
    match e {
      case Press(key) =>
        StepKeeps(env, r.s, key);
        StepMarks(env, r.s, key);
      case Saved => SavedKeeps(env, r.s);
    }
  }

  lemma SavedKeeps(env: Env, s: State)
    requires Inv(env, s)
    ensures Inv(env, s.(dirty := false))
  {
    hide Items, Table.Valid, OncePerSymbol;
  }

  lemma StartIsSound(env: Env)
    requires env.Valid() && Start(env).Some?
    ensures Sound(env, Run(Start(env).value, []))
  {
    assert env.base + [] == env.base;
  }

  ghost function DoAll(env: Env, r: Run, es: seq<Event>): Run
    requires Sound(env, r)
    decreases |es|
  {
    if es == [] then r
    else
      DoKeeps(env, r, es[0]);
      DoAll(env, Do(env, r, es[0]), es[1..])
  }

  /** After any run of keys and saves: the resolution held is the resolver's for the base and the
      changes, no symbol is changed twice, every cursor is on a row, and a key that quits without
      having been asked about it quits with everything saved. */
  lemma {:induction false} RunsStaySound(env: Env, r: Run, es: seq<Event>, key: Key)
    requires Sound(env, r)
    ensures var t := DoAll(env, r, es);
      && Sound(env, t) && env.resolve(Requests(env, t.s)) == Some(t.s.res) && OncePerSymbol(t.s.changes)
      && (Step(env, t.s, key).1 == Quit ==> t.s.changes == t.saved || t.s.view == ConfirmQuit)
    decreases |es|
  {
    hide Step, Do, Items, OncePerSymbol, Table.Valid;
    if es == [] {
      QuitIsConfirmed(env, r.s, key);
    } else {
      DoKeeps(env, r, es[0]);
      RunsStaySound(env, Do(env, r, es[0]), es[1..], key);
    }
  }

  // ---- the editor as it runs ----

  class Session {
    const env: Env
    var changes: seq<Request>
    var res: Resolution
    var stack: seq<Place>
    var view: View
    var dirty: bool

    ghost function Now(): State
      reads this
    {
      State(changes, res, stack, view, dirty)
    }

    ghost predicate Sane()
      reads this
    {
      Ready(env, Now())
    }

    /** A session over a base that resolves to `res`. */
    constructor (env: Env, res: Resolution)
      requires env.Valid() && env.resolve(env.base) == Some(res)
      ensures this.env == env && Inv(env, Now()) && Start(env) == Some(Now())
    {
      this.env, this.res := env, res;
      changes, stack, view, dirty := [], [Place(Root, 0)], List, false;
      new;
      StartIsSound(env);
    }

    /** `apply`: the filter, the resolver, and the change or none. */
    method Request(name: Text, sets: seq<Request>)
      requires name in env.table.symbols
      modifies this
      ensures Now() == Apply(env, old(Now()), name, sets)
    {
      if !Settable(env.table, name) { return; }
      var kept: seq<Request>, before := [], changes;
      KeptNone(before, sets);
      for i := 0 to |before|
        invariant Now() == old(Now()) && kept + Others(before[i..], sets) == Others(before, sets)
      {
        KeptStep(before, i, sets, kept);
        var again := NamesAny(sets, before[i].symbol);
        if !again { kept := kept + [before[i]]; }
      }
      KeptAll(before, sets, kept);
      var next := kept + sets;
      var resolved := env.resolve(env.base + next);
      if resolved.Some? { res, changes, dirty := resolved.value, next, true; }
    }

    /** `set`: the members of a choice picked before are turned off with the same change. */
    method SetTo(name: Text, text: Text)
      requires env.Valid() && name in env.table.symbols
      modifies this
      ensures Now() == Set(env, old(Now()), name, text)
    {
      hide Apply, AskedYes;
      var sets := [Settings.Request(name, text)];
      assert sets + [] == sets;
      var choice := env.table.symbols[name].choice;
      if choice.Some? && text == "y" {
        var members, all := env.table.choices[choice.value].members, env.base + changes;
        ghost var first := sets;
        UnpicksNone(all, name, members);
        for i := 0 to |members|
          invariant sets + Unpicks(all, name, members[i..]) == first + Unpicks(all, name, members)
            && Now() == old(Now())
        {
          UnpicksStep(all, name, members, i, sets);
          if members[i] != name && AskedYes(all, members[i]) { sets := sets + [Settings.Request(members[i], "n")]; }
        }
        UnpicksAll(all, name, members, sets);
      }
      Request(name, sets);
    }

    method Press(key: Key) returns (action: Action)
      requires Sane()
      modifies this
      ensures (Now(), action) == Step(env, old(Now()), key)
    {
      hide OnList, OnEdit, Table.Valid;
      var was := view;
      view := List;
      match was {
        case Help(_) => action := Continue;
        case Why(_) => action := Continue;
        case ConfirmQuit =>
          action := if key == Char('s') then SaveAndQuit else if key == Char('q') then Quit else Continue;
        case Edit(symbol, buffer) =>
          PressEdit(symbol, buffer, key);
          action := Continue;
        case List => action := PressList(key);
      }
    }

    method PressEdit(symbol: Text, buffer: Text, key: Key)
      requires symbol in env.table.symbols
      modifies this
      ensures Now() == OnEdit(env, old(Now()), symbol, buffer, key)
    {
      hide Apply;
      match key {
        case Enter => Request(symbol, [Settings.Request(symbol, buffer)]);
        case Esc =>
        case Backspace => view := Edit(symbol, if buffer == [] then [] else buffer[..|buffer| - 1]);
        case Char(c) => view := Edit(symbol, buffer + [c]);
        case _ => view := Edit(symbol, buffer);
      }
    }

    method PressList(key: Key) returns (action: Action)
      requires Sane()
      modifies this
      ensures (Now(), action) == OnList(env, old(Now()), key)
    {
      hide Activate, Set, Follow, Items, CurrentSymbol, Table.Valid;
      CurrentIsKnown(env, Now());
      var n, cursor := |Items(env.table, stack[|stack| - 1].node)|, stack[|stack| - 1].cursor;
      action := Continue;
      var symbol := Pointed();
      if key == Up || key == Char('k') {
        MoveTo(if cursor > 0 then cursor - 1 else 0);
      } else if key == Down || key == Char('j') {
        MoveTo(Min(cursor + 1, if n > 0 then n - 1 else 0));
      } else if key == Left || key == Esc || key == Backspace || key == Char('h') {
        if |stack| > 1 { stack := stack[..|stack| - 1]; }
      } else if key == Right || key == Enter || key == Char('l') {
        OpenRow();
      } else if key == Char(' ') {
        if symbol.Some? { Toggle(symbol.value); }
      } else if key == Char('y') || key == Char('n') || key == Char('m') {
        if symbol.Some? { SetTo(symbol.value, [key.c]); }
      } else if key == Char('?') {
        if symbol.Some? { view := Help(symbol.value); }
      } else if key == Char('w') {
        if symbol.Some? { view := Why(symbol.value); }
      } else if key == Char('s') {
        action := Action.Save;
      } else if key == Char('q') {
        if dirty { view := ConfirmQuit; } else { action := Quit; }
      }
    }

    method MoveTo(cursor: nat)
      requires stack != []
      modifies this
      ensures Now() == WithCursor(old(Now()), cursor)
    {
      stack := stack[..|stack| - 1] + [Place(stack[|stack| - 1].node, cursor)];
    }

    /** The symbol under the cursor, if that is what is there. */
    method Pointed() returns (symbol: Option<Text>)
      requires env.Valid() && stack != []
      ensures symbol == CurrentSymbol(env, Now())
    {
      var row := Current(env, State(changes, res, stack, view, dirty));
      symbol := if row.Some? && row.value.SymbolItem? then Some(row.value.symbol) else None;
    }

    method OpenRow()
      requires Sane()
      modifies this
      ensures Now() == Follow(env, old(Now()))
    {
      hide Activate, Items, Table.Valid;
      CurrentIsKnown(env, Now());
      var row := Current(env, State(changes, res, stack, view, dirty));
      if row.Some? {
        match row.value {
          case MenuItem(m) => stack := stack + [Place(Menu(m), 0)];
          case ChoiceItem(c) => stack := stack + [Place(ChoiceOf(c), 0)];
          case SymbolItem(n) => Toggle(n);
        }
      }
    }

    /** `activate`. */
    method Toggle(name: Text)
      requires Sane() && name in env.table.symbols
      modifies this
      ensures Now() == Activate(env, old(Now()), name)
    {
      hide Set, Shown, Table.Valid, Settable;
      var sym := env.table.symbols[name];
      match sym.kind {
        case Bool => SetTo(name, if sym.choice.Some? || Level(res, name) == N then "y" else "n");
        case Tristate =>
          SetTo(name, match Level(res, name)
                      case N => if Level(res, MODULES) == Y then "m" else "y"
                      case M => "y"
                      case Y => "n");
        case _ => if Settable(env.table, name) { view := Edit(name, Shown(res[name])); }
      }
    }

    /** `saved`. */
    method MarkSaved()
      modifies this
      ensures Now() == old(Now()).(dirty := false)
    {
      dirty := false;
    }
  }

  method NamesAny(sets: seq<Request>, name: Text) returns (any: bool)
    ensures any == Names(sets, name)
  {
    for i := 0 to |sets|
      invariant forall j | 0 <= j < i :: sets[j].symbol != name
    {
      if sets[i].symbol == name { return true; }
    }
    any := false;
  }

  lemma KeptNone(changes: seq<Request>, sets: seq<Request>)
    ensures [] + Others(changes[0..], sets) == Others(changes, sets)
  {
    assert changes[0..] == changes;
  }

  lemma KeptAll(changes: seq<Request>, sets: seq<Request>, kept: seq<Request>)
    ensures kept + Others(changes[|changes|..], sets) == kept
  {
    assert changes[|changes|..] == [];
  }

  lemma KeptStep(changes: seq<Request>, i: nat, sets: seq<Request>, kept: seq<Request>)
    requires i < |changes|
    ensures kept + Others(changes[i..], sets) ==
            (if Names(sets, changes[i].symbol) then kept else kept + [changes[i]]) + Others(changes[i + 1..], sets)
  {
    hide Names;
    assert changes[i..][0] == changes[i] && changes[i..][1..] == changes[i + 1..];
  }

  lemma UnpicksNone(all: seq<Request>, name: Text, members: seq<Text>)
    ensures Unpicks(all, name, members[0..]) == Unpicks(all, name, members)
  {
    assert members[0..] == members;
  }

  lemma UnpicksAll(all: seq<Request>, name: Text, members: seq<Text>, sets: seq<Request>)
    ensures sets + Unpicks(all, name, members[|members|..]) == sets
  {
    assert members[|members|..] == [];
  }

  lemma UnpicksStep(all: seq<Request>, name: Text, members: seq<Text>, i: nat, sets: seq<Request>)
    requires i < |members|
    ensures sets + Unpicks(all, name, members[i..]) ==
            (if members[i] != name && AskedYes(all, members[i]) then sets + [Request(members[i], "n")] else sets)
            + Unpicks(all, name, members[i + 1..])
  {
    hide AskedYes;
    assert members[i..][0] == members[i] && members[i..][1..] == members[i + 1..];
  }
}
