/** Looking a path up on a written volume finds what the tree says it names. */
module FatLookup {
  import opened Bytes
  import opened Optional
  import opened FatResult
  import opened FatLayout
  import opened FatNames
  import opened FatTree
  import opened FatPaths
  import opened FatWriter
  import opened FatStored
  import opened FatContents
  import opened FatReader
  import opened FatFiles
  import opened FatView
  import opened FatReadBack
  import opened FatRoundTrip
  import Ordered

  lemma QueryMatches(n: FatNames.Text, part: FatNames.Text)
    requires ValidName(n)
    ensures SameText(Shown(n), part) <==> QueryOf(part) == Ok(n)
  {
    NameMatches(n, part);
  }

  lemma {:induction false} MatchFirst(es: seq<Named>, part: FatNames.Text, i: nat)
    requires i < |es| && SameText(es[i].name, part) && forall j | 0 <= j < i :: !SameText(es[j].name, part)
    ensures Match(es, part) == Some(es[i])
    decreases i
  {
    if i > 0 { MatchFirst(es[1..], part, i - 1); }
  }

  lemma {:induction false} MatchNone(es: seq<Named>, part: FatNames.Text)
    requires forall e | e in es :: !SameText(e.name, part)
    ensures Match(es, part) == None
    decreases |es|
  {
    if es != [] { MatchNone(es[1..], part); }
  }

  // ---- finding the parts of a directory ----

  /** The first link of a name, and the tree it stands for. */
  lemma {:induction false} SubIndex(subs: seq<Link>, dir: Dir, names: seq<FatNames.Text>, n: FatNames.Text)
        returns (i: nat)
    requires (forall k | k in names :: k in dir.dirs) && SubsMirror(subs, dir, names) && n in names
    ensures i < |subs| && subs[i].name == n && Mirrors(subs[i].dir, dir.dirs[n])
      && forall j | 0 <= j < i :: subs[j].name != n
    decreases |names|
  {
    if names[0] == n {
      i := 0;
    } else {
      i := SubIndex(subs[1..], dir, names[1..], n);
      i := i + 1;
    }
  }

  lemma {:induction false} SubsAreKeys(subs: seq<Link>, dir: Dir, names: seq<FatNames.Text>, i: nat)
    requires (forall k | k in names :: k in dir.dirs) && SubsMirror(subs, dir, names) && i < |subs|
    ensures subs[i].name in dir.dirs
    decreases |names|
  {
    if i > 0 { SubsAreKeys(subs[1..], dir, names[1..], i - 1); }
  }

  /** Where the `i`th subdirectory stands. */
  lemma {:induction false} SubAt(s: Space, d: Disk, subs: seq<Link>, parent: nat, next: nat, i: nat)
        returns (next': nat)
    requires s.Valid() && SubsInPlace(s, subs) && SubsStored(s, d, subs, parent, next) && i < |subs|
    ensures InPlace(s, subs[i].dir, false) && DirStored(s, d, subs[i].dir, false, parent, next')
    ensures next <= next' && next' + AllFiles(s, subs[i].dir) <= next + SubsFiles(s, subs)
    decreases i
  {
    if i == 0 {
      next' := next;
    } else {
      next' := SubAt(s, d, subs[1..], parent, next + AllFiles(s, subs[0].dir), i - 1);
    }
  }

  lemma {:induction false} FileAt(s: Space, d: Disk, files: seq<Stored>, next: nat, i: nat)
    requires s.Valid() && FilesStored(s, d.part, d.fat, files, next) && i < |files|
    ensures var at := FileNext(s, files, next, i);
      && next <= at && at + Span(s, |files[i].data|) <= next + FilesSpan(s, files)
      && Run(s, d.fat, at, Span(s, |files[i].data|)) && At(d.part, s.Off(at), files[i].data)
    decreases i
  {
    if i > 0 { FileAt(s, d, files[1..], next + Span(s, |files[0].data|), i - 1); }
  }

  // ---- one directory ----

  /** A stored directory with its clusters inside the volume, names a reader can match, and the
      tree it stands for. */
  ghost predicate Standing(s: Space, d: Disk, pl: Placed, isRoot: bool, parent: nat, next: nat, dir: Dir,
        ok: FatNames.Text -> bool) {
    && s.Valid() && InPlace(s, pl, isRoot) && DirStored(s, d, pl, isRoot, parent, next)
    && TreeNamed(pl, ok) && Encoded(ok) && Mirrors(pl, dir) && dir.dirs.Keys !! dir.files.Keys
    && 2 <= next && next + AllFiles(s, pl) <= d.next
    && (isRoot ==> s.volumeLabel[0] != 0 && (s.format.Fat32? ==> pl.cluster == 2))
  }

  /** The names of a listing, subdirectories first. */
  function NameAt(pl: Placed, i: nat): FatNames.Text
    requires i < |pl.subs| + |pl.files|
  {
    if i < |pl.subs| then pl.subs[i].name else pl.files[i - |pl.subs|].name
  }

  lemma VisibleName(s: Space, pl: Placed, next: nat, i: nat)
    requires s.Valid() && i < |pl.subs| + |pl.files|
    ensures Visible(s, pl, next)[i].name == NameAt(pl, i)
  {
    if i < |pl.subs| { SubSlotAt(pl.subs, i); } else { FileSlotAt(s, pl.files, next, i - |pl.subs|); }
  }

  lemma ListingName(es: seq<Slot>, i: nat)
    requires i < |es|
    ensures Show(es)[i].name == Shown(es[i].name)
  {
  }

  lemma NameAtValid(pl: Placed, i: nat, ok: FatNames.Text -> bool)
    requires TreeNamed(pl, ok) && i < |pl.subs| + |pl.files|
    ensures ok(NameAt(pl, i))
  {
    if i < |pl.subs| { SubNamedAt(pl.subs, i, ok); } else { FileNamedAt(pl.files, i - |pl.subs|, ok); }
  }

  /** An entry of a listing matches a component exactly when it has the name asked for. */
  lemma ListingMatches(s: Space, pl: Placed, next: nat, part: FatNames.Text, i: nat, ok: FatNames.Text -> bool)
    requires s.Valid() && TreeNamed(pl, ok) && Encoded(ok) && i < |pl.subs| + |pl.files|
    ensures SameText(Show(Visible(s, pl, next))[i].name, part) <==> QueryOf(part) == Ok(NameAt(pl, i))
  {
    NameAtValid(pl, i, ok);
    VisibleName(s, pl, next, i);
    ListingName(Visible(s, pl, next), i);
    QueryMatches(NameAt(pl, i), part);
  }

  /** Looking a component up gives the first entry of the name asked for. */
  lemma ListingMatch(s: Space, pl: Placed, next: nat, part: FatNames.Text, i: nat, ok: FatNames.Text -> bool)
    requires s.Valid() && TreeNamed(pl, ok) && Encoded(ok) && i < |pl.subs| + |pl.files|
    requires QueryOf(part) == Ok(NameAt(pl, i)) && forall j | 0 <= j < i :: NameAt(pl, j) != NameAt(pl, i)
    ensures Match(Show(Visible(s, pl, next)), part) == Some(Show(Visible(s, pl, next))[i])
  {
    var es := Show(Visible(s, pl, next));
    forall j | 0 <= j <= i ensures SameText(es[j].name, part) <==> j == i {
      ListingMatches(s, pl, next, part, j, ok);
    }
    MatchFirst(es, part, i);
  }

  /** Names of a listing are keys of the tree. */
  lemma ListingKeys(pl: Placed, dir: Dir, i: nat)
    requires Mirrors(pl, dir) && i < |pl.subs| + |pl.files|
    ensures if i < |pl.subs| then NameAt(pl, i) in dir.dirs else NameAt(pl, i) in dir.files
  {
    if i < |pl.subs| {
      SubsAreKeys(pl.subs, dir, Ordered.Keys(dir.dirs.Keys), i);
    }
  }

  /** A component that names no file and no directory matches no entry. */
  lemma MatchNothing(s: Space, pl: Placed, next: nat, dir: Dir, part: FatNames.Text, ok: FatNames.Text -> bool)
    requires s.Valid() && TreeNamed(pl, ok) && Encoded(ok) && Mirrors(pl, dir)
    requires QueryOf(part).Err? || (QueryOf(part).value !in dir.dirs && QueryOf(part).value !in dir.files)
    ensures Match(Show(Visible(s, pl, next)), part) == None
  {
    var es := Show(Visible(s, pl, next));
    forall e | e in es ensures !SameText(e.name, part) {
      var i :| 0 <= i < |es| && es[i] == e;
      ListingMatches(s, pl, next, part, i, ok);
      ListingKeys(pl, dir, i);
    }
    MatchNone(es, part);
  }

  /** A component that names a subdirectory matches its entry. */
  lemma MatchDir(s: Space, pl: Placed, next: nat, dir: Dir, part: FatNames.Text, ok: FatNames.Text -> bool)
        returns (i: nat)
    requires s.Valid() && TreeNamed(pl, ok) && Encoded(ok) && Mirrors(pl, dir) && QueryOf(part).Ok?
      && QueryOf(part).value in dir.dirs
    ensures i < |pl.subs| && pl.subs[i].name == QueryOf(part).value
      && Mirrors(pl.subs[i].dir, dir.dirs[QueryOf(part).value])
    ensures Match(Show(Visible(s, pl, next)), part) == Some(Show(Visible(s, pl, next))[i])
  {
    i := SubIndex(pl.subs, dir, Ordered.Keys(dir.dirs.Keys), QueryOf(part).value);
    ListingMatch(s, pl, next, part, i, ok);
  }

  /** A component that names a file matches its entry. */
  lemma MatchFile(s: Space, pl: Placed, next: nat, dir: Dir, part: FatNames.Text, ok: FatNames.Text -> bool)
        returns (k: nat)
    requires s.Valid() && TreeNamed(pl, ok) && Encoded(ok) && Mirrors(pl, dir) && dir.dirs.Keys !! dir.files.Keys
    requires QueryOf(part).Ok? && QueryOf(part).value in dir.files
    ensures k < |pl.files| && pl.files[k] == Stored(QueryOf(part).value, dir.files[QueryOf(part).value])
    ensures Match(Show(Visible(s, pl, next)), part) == Some(Show(Visible(s, pl, next))[|pl.subs| + k])
  {
    hide *;
    k := FileIndex(pl, dir, QueryOf(part).value);
    FirstOfName(pl, dir, k);
    FileName(pl, k);
    ListingMatch(s, pl, next, part, |pl.subs| + k, ok);
  }

  lemma FileName(pl: Placed, k: nat)
    requires k < |pl.files|
    ensures NameAt(pl, |pl.subs| + k) == pl.files[k].name
  {
  }

  /** No entry before a file's has its name. */
  lemma FirstOfName(pl: Placed, dir: Dir, k: nat)
    requires Mirrors(pl, dir) && dir.dirs.Keys !! dir.files.Keys && k < |pl.files|
    requires forall j | 0 <= j < k :: pl.files[j].name != pl.files[k].name
    ensures forall j | 0 <= j < |pl.subs| + k :: NameAt(pl, j) != NameAt(pl, |pl.subs| + k)
  {
    ListingKeys(pl, dir, |pl.subs| + k);
    forall j | 0 <= j < |pl.subs| + k ensures NameAt(pl, j) != NameAt(pl, |pl.subs| + k) {
      ListingKeys(pl, dir, j);
    }
  }

  lemma FileIndex(pl: Placed, dir: Dir, n: FatNames.Text) returns (k: nat)
    requires Mirrors(pl, dir) && n in dir.files
    ensures k < |pl.files| && pl.files[k] == Stored(n, dir.files[n]) && forall j | 0 <= j < k :: pl.files[j].name != n
  {
    var keys := Ordered.Keys(dir.files.Keys);
    k :| 0 <= k < |keys| && keys[k] == n;
  }

  /** Where the `i`th subdirectory of a stored directory stands. */
  lemma SubWhere(s: Space, d: Disk, pl: Placed, isRoot: bool, parent: nat, next: nat, i: nat) returns (next': nat)
    requires s.Valid() && InPlace(s, pl, isRoot) && DirStored(s, d, pl, isRoot, parent, next) && i < |pl.subs|
    ensures InPlace(s, pl.subs[i].dir, false) && DirStored(s, d, pl.subs[i].dir, false, Me(pl, isRoot), next')
    ensures next <= next' && next' + AllFiles(s, pl.subs[i].dir) <= next + AllFiles(s, pl)
  {
    DirStoredParts(s, d, pl, isRoot, parent, next);
    next' := SubAt(s, d, pl.subs, Me(pl, isRoot), next + FilesSpan(s, pl.files), i);
  }

  /** The `i`th subdirectory of a standing directory stands too. */
  lemma SubStands(s: Space, d: Disk, pl: Placed, isRoot: bool, parent: nat, next: nat, dir: Dir, i: nat, sub: Dir,
        ok: FatNames.Text -> bool) returns (next': nat)
    requires Standing(s, d, pl, isRoot, parent, next, dir, ok) && i < |pl.subs|
    requires Mirrors(pl.subs[i].dir, sub) && sub.dirs.Keys !! sub.files.Keys
    ensures Standing(s, d, pl.subs[i].dir, false, Me(pl, isRoot), next', sub, ok)
  {
    SubNamedAt(pl.subs, i, ok);
    next' := SubWhere(s, d, pl, isRoot, parent, next, i);
  }

  /** The `k`th file of a standing directory reads whole. */
  lemma FileStands(v: Volume, s: Space, d: Disk, pl: Placed, next: nat, k: nat, name: FatNames.Text)
    requires Shows(v, s, d) && Addressable(s, d) && FilesStored(s, d.part, d.fat, pl.files, next) && k < |pl.files|
    requires 2 <= next && next + FilesSpan(s, pl.files) <= d.next
    ensures var e := Visible(s, pl, next)[|pl.subs| + k];
      e.attr == ATTR_ARCHIVE && Contents(v, Named(name, false, e.cluster, e.size)) == Ok(pl.files[k].data)
  {
    FileAt(s, d, pl.files, next, k);
    FileSlotAt(s, pl.files, next, k);
    FileReads(v, s, d, name, pl.files[k].data, FileNext(s, pl.files, next, k));
  }

  // ---- a whole path ----

  /** A lookup found what the tree says the query names. */
  ghost predicate Finds(v: Volume, r: Result<Option<Named>>, found: Found)
    requires v.Valid()
  {
    match found
    case Nothing => r == Ok(None)
    case AFile(data) => r.Ok? && r.value.Some? && !r.value.value.dir && Contents(v, r.value.value) == Ok(data)
    case ADir => r.Ok? && r.value.Some? && r.value.value.dir
  }

  /** One step of what a query names. */
  function Step(dir: Dir, path: Path): Found
    requires path != []
  {
    if path[0].Err? then Nothing
    else if |path| == 1 && path[0].value in dir.files then AFile(dir.files[path[0].value])
    else if path[0].value !in dir.dirs then Nothing
    else if |path| == 1 then ADir
    else Resolve(dir.dirs[path[0].value], path[1..])
  }

  lemma GetOne(dir: Dir, names: seq<FatNames.Text>)
    requires names != [] && (|names| == 1 || names[0] !in dir.dirs)
    ensures Get(dir, names) ==
      if |names| == 1 && names[0] in dir.files then AFile(dir.files[names[0]])
      else if names[0] in dir.dirs then ADir
      else Nothing
  {
  }

  lemma ResolveSteps(dir: Dir, path: Path)
    requires path != []
    ensures Resolve(dir, path) == Step(dir, path)
  {
    if Names(path).Ok? {
      var names := Names(path).value;
      assert names[1..] == Names(path[1..]).value;
      assert path[0] == Ok(names[0]);
      assert Resolve(dir, path) == Get(dir, names);
      if |path| > 1 && names[0] in dir.dirs {
        assert Get(dir, names) == Get(dir.dirs[names[0]], names[1..]);
      } else {
        assert |path| == 1 ==> names[1..] == [];
        GetOne(dir, names);
      }
    } else if path[0].Ok? {
      assert Names(path[1..]).Err?;
    }
  }

  lemma QueryStep(parts: seq<FatNames.Text>)
    requires parts != []
    ensures QueryPath(parts)[0] == QueryOf(parts[0]) && QueryPath(parts)[1..] == QueryPath(parts[1..])
  {
  }

  /** One step of a lookup, given the entry that matched. */
  lemma FindSteps(v: Volume, dir: Option<nat>, parts: seq<FatNames.Text>, es: seq<Named>)
    requires v.Valid() && parts != [] && Entries(v, dir) == Ok(es)
    ensures var e := Match(es, parts[0]);
      FindFrom(v, dir, parts) ==
      if e.None? || |parts| == 1 then Ok(e)
      else if !e.value.dir then Ok(None)
      else FindFrom(v, Some(e.value.first), parts[1..])
  {
  }

  /** What the entry of the `i`th subdirectory shows. */
  lemma SubShown(s: Space, pl: Placed, next: nat, i: nat)
    requires s.Valid() && i < |pl.subs|
    ensures var e := Show(Visible(s, pl, next))[i]; e.dir && e.first == pl.subs[i].dir.cluster
  {
    SubSlotAt(pl.subs, i);
  }

  /** The entry of the `k`th file of a standing directory leads to its bytes. */
  lemma FileShown(v: Volume, s: Space, d: Disk, pl: Placed, next: nat, k: nat)
    requires Shows(v, s, d) && Addressable(s, d) && FilesStored(s, d.part, d.fat, pl.files, next) && k < |pl.files|
    requires 2 <= next && next + FilesSpan(s, pl.files) <= d.next
    ensures var e := Show(Visible(s, pl, next))[|pl.subs| + k]; !e.dir && Contents(v, e) == Ok(pl.files[k].data)
  {
    hide Contents, FilesStored, FilesSpan, Visible, Shown, TablesShow;
    var e := Visible(s, pl, next)[|pl.subs| + k];
    FileStands(v, s, d, pl, next, k, Shown(e.name));
  }

  /** The files of a standing directory are stored, and stand inside the volume. */
  lemma StandingFiles(s: Space, d: Disk, pl: Placed, isRoot: bool, parent: nat, next: nat, dir: Dir,
        ok: FatNames.Text -> bool)
    requires Standing(s, d, pl, isRoot, parent, next, dir, ok)
    ensures FilesStored(s, d.part, d.fat, pl.files, next) && 2 <= next && next + FilesSpan(s, pl.files) <= d.next
  {
    DirStoredParts(s, d, pl, isRoot, parent, next);
  }

  lemma StandingReads(v: Volume, s: Space, d: Disk, pl: Placed, isRoot: bool, parent: nat, next: nat, dir: Dir,
        ok: FatNames.Text -> bool)
    requires Shows(v, s, d) && Addressable(s, d) && Standing(s, d, pl, isRoot, parent, next, dir, ok)
    ensures Entries(v, RefOf(pl, isRoot)) == Ok(Show(Visible(s, pl, next)))
  {
    hide Entries, Shows, DirStored, InPlace, TreeNamed, Mirrors, Encoded, Show, Visible;
    DirReads(v, s, d, pl, isRoot, parent, next, ok);
  }

  /** What a standing directory is, as far as looking names up in it goes. */
  lemma StandingParts(s: Space, d: Disk, pl: Placed, isRoot: bool, parent: nat, next: nat, dir: Dir,
        ok: FatNames.Text -> bool)
    requires Standing(s, d, pl, isRoot, parent, next, dir, ok)
    ensures s.Valid() && TreeNamed(pl, ok) && Encoded(ok) && Mirrors(pl, dir) && dir.dirs.Keys !! dir.files.Keys
  {
  }

  lemma ShowsIsValid(v: Volume, s: Space, d: Disk)
    requires Shows(v, s, d)
    ensures v.Valid() && s.Valid()
  {
  }

  lemma ChildIsProper(dir: Dir, name: FatNames.Text, ok: FatNames.Text -> bool)
    requires Proper(dir, ok) && name in dir.dirs
    ensures var sub := dir.dirs[name]; Proper(sub, ok) && sub.dirs.Keys !! sub.files.Keys
  {
  }

  lemma LookupNothing(v: Volume, at: Option<nat>, dir: Dir, parts: seq<FatNames.Text>, es: seq<Named>)
    requires v.Valid() && parts != [] && Entries(v, at) == Ok(es) && Match(es, parts[0]) == None
    requires QueryOf(parts[0]).Err? || (QueryOf(parts[0]).value !in dir.dirs && QueryOf(parts[0]).value !in dir.files)
    ensures Finds(v, FindFrom(v, at, parts), Resolve(dir, QueryPath(parts)))
  {
    hide FindFrom, Resolve, QueryOf, QueryPath, Entries, Match, Contents, Volume.Valid;
    QueryStep(parts);
    ResolveSteps(dir, QueryPath(parts));
    FindSteps(v, at, parts, es);
  }

  lemma LookupFile(v: Volume, at: Option<nat>, dir: Dir, parts: seq<FatNames.Text>, es: seq<Named>, e: Named)
    requires v.Valid() && parts != [] && Entries(v, at) == Ok(es) && Match(es, parts[0]) == Some(e) && !e.dir
    requires QueryOf(parts[0]).Ok? && QueryOf(parts[0]).value !in dir.dirs && QueryOf(parts[0]).value in dir.files
    requires Contents(v, e) == Ok(dir.files[QueryOf(parts[0]).value])
    ensures Finds(v, FindFrom(v, at, parts), Resolve(dir, QueryPath(parts)))
  {
    hide FindFrom, Resolve, QueryOf, QueryPath, Entries, Match, Contents, Volume.Valid;
    QueryStep(parts);
    ResolveSteps(dir, QueryPath(parts));
    FindSteps(v, at, parts, es);
  }

  lemma LookupDir(v: Volume, at: Option<nat>, dir: Dir, parts: seq<FatNames.Text>, es: seq<Named>, e: Named)
    requires v.Valid() && parts != [] && Entries(v, at) == Ok(es) && Match(es, parts[0]) == Some(e) && e.dir
    requires QueryOf(parts[0]).Ok? && QueryOf(parts[0]).value in dir.dirs && QueryOf(parts[0]).value !in dir.files
    requires |parts| > 1 ==>
      Finds(v, FindFrom(v, Some(e.first), parts[1..]),
        Resolve(dir.dirs[QueryOf(parts[0]).value], QueryPath(parts[1..])))
    ensures Finds(v, FindFrom(v, at, parts), Resolve(dir, QueryPath(parts)))
  {
    hide FindFrom, Resolve, QueryOf, QueryPath, Entries, Match, Contents, Volume.Valid;
    QueryStep(parts);
    ResolveSteps(dir, QueryPath(parts));
    FindSteps(v, at, parts, es);
  }

  lemma NotBoth(dir: Dir, n: FatNames.Text)
    requires dir.dirs.Keys !! dir.files.Keys
    ensures n in dir.dirs ==> n !in dir.files
  {
  }

  /** Looking a query up from a standing directory finds what it names in the tree the
      directory stands for. */
  lemma {:induction false} LookupReads(v: Volume, s: Space, d: Disk, pl: Placed, isRoot: bool, parent: nat, next: nat,
                                       dir: Dir, parts: seq<FatNames.Text>, ok: FatNames.Text -> bool)
    requires Shows(v, s, d) && Addressable(s, d) && Standing(s, d, pl, isRoot, parent, next, dir, ok)
    requires Proper(dir, ok) && parts != []
    ensures Finds(v, FindFrom(v, RefOf(pl, isRoot), parts), Resolve(dir, QueryPath(parts)))
    decreases |parts|
  {
    hide *;
    ShowsIsValid(v, s, d);
    StandingParts(s, d, pl, isRoot, parent, next, dir, ok);
    var query, es := QueryOf(parts[0]), Show(Visible(s, pl, next));
    StandingReads(v, s, d, pl, isRoot, parent, next, dir, ok);
    if query.Err? || (query.value !in dir.dirs && query.value !in dir.files) {
      MatchNothing(s, pl, next, dir, parts[0], ok);
      LookupNothing(v, RefOf(pl, isRoot), dir, parts, es);
    } else if query.value in dir.dirs {
      NotBoth(dir, query.value);
      var i := MatchDir(s, pl, next, dir, parts[0], ok);
      SubShown(s, pl, next, i);
      if |parts| > 1 {
        ChildIsProper(dir, query.value, ok);
        var next' := SubStands(s, d, pl, isRoot, parent, next, dir, i, dir.dirs[query.value], ok);
        LookupReads(v, s, d, pl.subs[i].dir, false, Me(pl, isRoot), next', dir.dirs[query.value], parts[1..], ok);
        SubRef(pl.subs[i].dir);
      }
      LookupDir(v, RefOf(pl, isRoot), dir, parts, es, es[i]);
    } else {
      var k := MatchFile(s, pl, next, dir, parts[0], ok);
      StandingFiles(s, d, pl, isRoot, parent, next, dir, ok);
      FileShown(v, s, d, pl, next, k);
      LookupFile(v, RefOf(pl, isRoot), dir, parts, es, es[|pl.subs| + k]);
    }
  }

  lemma SubRef(pl: Placed)
    ensures RefOf(pl, false) == Some(pl.cluster)
  {
  }
}
