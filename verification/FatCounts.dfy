/** What a written volume's report counts: the files that were given, and the directories above them. */
module FatCounts {
  import opened Bytes
  import opened FatResult
  import opened FatLayout
  import opened FatTree
  import opened FatWriter
  import opened FatStored
  import opened FatClean
  import Ordered

  // ---- sums over the keys of a map ----

  function Sum(m: map<Text, nat>, names: seq<Text>): nat
    requires forall n | n in names :: n in m
  {
    if names == [] then 0 else m[names[0]] + Sum(m, names[1..])
  }

  predicate Distinct(s: seq<Text>) { forall i, j | 0 <= i < j < |s| :: s[i] != s[j] }

  function Without(s: seq<Text>, k: nat): seq<Text>
    requires k < |s|
  {
    s[..k] + s[k + 1..]
  }

  lemma {:induction false} SumWithout(m: map<Text, nat>, s: seq<Text>, k: nat)
    requires (forall n | n in s :: n in m) && k < |s|
    ensures (forall n | n in Without(s, k) :: n in m) && Sum(m, s) == m[s[k]] + Sum(m, Without(s, k))
    decreases k
  {
    if k == 0 {
      assert Without(s, 0) == s[1..];
    } else {
      SumWithout(m, s[1..], k - 1);
      assert Without(s, k) == [s[0]] + Without(s[1..], k - 1);
    }
  }

  lemma WithoutHas(s: seq<Text>, k: nat)
    requires k < |s| && Distinct(s)
    ensures Distinct(Without(s, k)) && forall n :: n in Without(s, k) <==> n in s && n != s[k]
  {
    var r := Without(s, k);
    forall n | n in s && n != s[k] ensures n in r {
      var i :| 0 <= i < |s| && s[i] == n;
      assert r[if i < k then i else i - 1] == n;
    }
    forall n | n in r ensures n in s && n != s[k] {
      var i :| 0 <= i < |r| && r[i] == n;
      assert s[if i < k then i else i + 1] == n;
    }
  }

  /** A sum does not depend on the order of the keys. */
  lemma {:induction false} SumSame(m: map<Text, nat>, a: seq<Text>, b: seq<Text>)
    requires Distinct(a) && Distinct(b) && (forall n :: n in a <==> n in b) && forall n | n in a :: n in m
    ensures Sum(m, a) == Sum(m, b)
    decreases |a|
  {
    SameEmpty(a, b);
    if a != [] {
      assert a[0] in a;
      var k :| 0 <= k < |b| && b[k] == a[0];
      SumWithout(m, b, k);
      WithoutHas(b, k);
      TailHas(a);
      SumSame(m, a[1..], Without(b, k));
    }
  }

  lemma SameEmpty(a: seq<Text>, b: seq<Text>)
    requires forall n :: n in a <==> n in b
    ensures a == [] <==> b == []
  {
    assert a != [] ==> a[0] in a;
    assert b != [] ==> b[0] in b;
  }

  lemma TailHas(a: seq<Text>)
    requires a != [] && Distinct(a)
    ensures Distinct(a[1..]) && forall n :: n in a[1..] <==> n in a && n != a[0]
  {
  }

  lemma {:induction false} SumAgrees(m: map<Text, nat>, m': map<Text, nat>, names: seq<Text>)
    requires forall n | n in names :: n in m && n in m' && m[n] == m'[n]
    ensures Sum(m, names) == Sum(m', names)
    decreases |names|
  {
    if names != [] { SumAgrees(m, m', names[1..]); }
  }

  function Total(m: map<Text, nat>): nat { Sum(m, Ordered.Keys(m.Keys)) }

  /** Setting one key changes the total by as much. */
  lemma TotalSet(m: map<Text, nat>, k: Text, v: nat)
    ensures Total(m[k := v]) + (if k in m then m[k] else 0) == Total(m) + v
  {
    hide Ordered.Keys, Ordered.Le, Sum;
    var m' := m[k := v];
    var old', new' := Ordered.Keys(m.Keys), Ordered.Keys(m'.Keys);
    assert k in m'.Keys;
    assert k in new';
    var i :| 0 <= i < |new'| && new'[i] == k;
    var rest := Without(new', i);
    SumWithout(m', new', i);
    WithoutHas(new', i);
    SumAgrees(m, m', rest);
    if k in m {
      assert k in m.Keys;
      assert k in old';
      var j :| 0 <= j < |old'| && old'[j] == k;
      SumWithout(m, old', j);
      WithoutHas(old', j);
      SumSame(m, rest, Without(old', j));
    } else {
      SumSame(m, rest, old');
    }
  }

  // ---- files in a tree ----

  /** How many files a tree holds. */
  function TreeFiles(dir: Dir): nat
    decreases dir
  {
    |dir.files| + Total(Below(dir))
  }

  /** How many files each subdirectory holds. */
  function Below(dir: Dir): (m: map<Text, nat>)
    ensures m.Keys == dir.dirs.Keys
    decreases dir, 0
  {
    map n | n in dir.dirs :: TreeFiles(dir.dirs[n])
  }

  lemma EmptyHolds()
    ensures TreeFiles(EMPTY) == 0
  {
    assert Below(EMPTY).Keys == {};
  }

  lemma BelowSet(dir: Dir, name: Text, sub: Dir)
    ensures Below(dir.(dirs := dir.dirs[name := sub])) == Below(dir)[name := TreeFiles(sub)]
  {
    hide TreeFiles;
    var after := dir.(dirs := dir.dirs[name := sub]);
    forall n | n in after.dirs ensures Below(after)[n] == Below(dir)[name := TreeFiles(sub)][n] { }
  }

  /** Inserting a file adds one. */
  lemma {:induction false} InsertAddsOne(dir: Dir, path: Path, data: seq<byte>)
    requires path != [] && Insert(dir, path, data).Ok?
    ensures TreeFiles(Insert(dir, path, data).value) == TreeFiles(dir) + 1
    decreases |path|
  {
    hide Total;
    var name, after := path[0].value, Insert(dir, path, data).value;
    if |path| == 1 {
      assert Below(after) == Below(dir);
      assert |dir.files[name := data]| == |dir.files| + 1;
    } else {
      var sub := Insert(Child(dir, name), path[1..], data).value;
      InsertAddsOne(Child(dir, name), path[1..], data);
      BelowSet(dir, name, sub);
      TotalSet(Below(dir), name, TreeFiles(sub));
      EmptyHolds();
    }
  }

  lemma {:induction false} BuildCounts(dir: Dir, items: seq<Item>)
    requires Routed(items) && InsertAll(dir, items).Ok?
    ensures TreeFiles(InsertAll(dir, items).value) == TreeFiles(dir) + |items|
    decreases |items|
  {
    hide TreeFiles, Insert;
    if items != [] {
      InsertAddsOne(dir, items[0].path, items[0].data);
      BuildCounts(Insert(dir, items[0].path, items[0].data).value, items[1..]);
    }
  }

  lemma {:induction false} MirrorCounts(pl: Placed, dir: Dir)
    requires Mirrors(pl, dir)
    ensures FileCount(pl) == TreeFiles(dir)
    decreases dir, 1, 0
  {
    var names := Ordered.Keys(dir.dirs.Keys);
    SubsMirrorCounts(pl.subs, dir, names);
  }

  lemma {:induction false} SubsMirrorCounts(subs: seq<Link>, dir: Dir, names: seq<Text>)
    requires (forall n | n in names :: n in dir.dirs) && SubsMirror(subs, dir, names)
    ensures SubsFileCount(subs) == Sum(Below(dir), names)
    decreases dir, 0, |names|
  {
    hide Mirrors, FileCount, TreeFiles;
    if names != [] {
      MirrorCounts(subs[0].dir, dir.dirs[names[0]]);
      SubsMirrorCounts(subs[1..], dir, names[1..]);
    }
  }

  // ---- directories in a tree ----

  /** The directories below this one, each by the names that lead to it. */
  ghost function DirPaths(dir: Dir): set<seq<Text>>
    decreases dir, 1, 0
  {
    DirPathsIn(dir, Ordered.Keys(dir.dirs.Keys))
  }

  ghost function DirPathsIn(dir: Dir, names: seq<Text>): set<seq<Text>>
    requires forall n | n in names :: n in dir.dirs
    decreases dir, 0, |names|
  {
    if names == [] then {}
    else Under(names[0], DirPaths(dir.dirs[names[0]])) + DirPathsIn(dir, names[1..])
  }

  /** A directory and those below it, from its parent. */
  ghost function Under(name: Text, below: set<seq<Text>>): set<seq<Text>> {
    {[name]} + set q | q in below :: [name] + q
  }

  lemma {:induction false} UnderCount(name: Text, below: set<seq<Text>>)
    requires [] !in below
    ensures |Under(name, below)| == 1 + |below|
    decreases below
  {
    if below == {} {
      assert Under(name, below) == {[name]};
    } else {
      var q :| q in below;
      UnderCount(name, below - {q});
      assert below - {q} + {q} == below;
      forall r | r in Under(name, below - {q}) ensures r != [name] + q {
        UnderIs(name, below - {q}, r);
        assert ([name] + q)[1..] == q;
      }
      assert Under(name, below) == Under(name, below - {q}) + {[name] + q};
    }
  }

  lemma {:induction false} DirPathIs(dir: Dir, q: seq<Text>, ok: Text -> bool)
    requires Proper(dir, ok)
    ensures q in DirPaths(dir) <==> q != [] && Get(dir, q) == ADir
    decreases dir, 1, 0
  {
    hide Get;
    DirPathInIs(dir, Ordered.Keys(dir.dirs.Keys), q, ok);
    if q != [] { GetStep(dir, q); }
  }

  lemma GetStep(dir: Dir, q: seq<Text>)
    requires q != [] && dir.dirs.Keys !! dir.files.Keys
    ensures Get(dir, q) == ADir <==> q[0] in dir.dirs && Get(dir.dirs[q[0]], q[1..]) == ADir
  {
    assert q[0] in dir.dirs ==> q[0] in dir.dirs.Keys;
    assert q[0] in dir.files ==> q[0] in dir.files.Keys;
  }

  lemma {:induction false} DirPathInIs(dir: Dir, names: seq<Text>, q: seq<Text>, ok: Text -> bool)
    requires (forall n | n in names :: n in dir.dirs) && Proper(dir, ok)
    ensures q in DirPathsIn(dir, names) <==> q != [] && q[0] in names && Get(dir.dirs[q[0]], q[1..]) == ADir
    decreases dir, 0, |names|
  {
    hide Get;
    if names != [] {
      DirPathInIs(dir, names[1..], q, ok);
      var below := DirPaths(dir.dirs[names[0]]);
      UnderIs(names[0], below, q);
      if q != [] {
        DirPathIs(dir.dirs[names[0]], q[1..], ok);
        GetNone(dir.dirs[names[0]]);
      }
    }
  }

  lemma GetNone(dir: Dir)
    ensures Get(dir, []) == ADir
  {
  }

  lemma UnderIs(name: Text, below: set<seq<Text>>, q: seq<Text>)
    ensures q in Under(name, below) <==> q != [] && q[0] == name && (q[1..] == [] || q[1..] in below)
  {
    if q != [] && q[0] == name {
      assert q == [name] + q[1..];
      assert q[1..] == [] ==> q == [name];
    }
    forall r | r in below ensures ([name] + r)[1..] == r { }
  }

  lemma {:induction false} MirrorDirs(pl: Placed, dir: Dir, ok: Text -> bool)
    requires Mirrors(pl, dir) && Proper(dir, ok)
    ensures DirCount(pl) == |DirPaths(dir)|
    decreases dir, 1, 0
  {
    hide Ordered.Keys;
    SubsMirrorDirs(pl.subs, dir, Ordered.Keys(dir.dirs.Keys), ok);
  }

  lemma {:induction false} SubsMirrorDirs(subs: seq<Link>, dir: Dir, names: seq<Text>, ok: Text -> bool)
    requires (forall n | n in names :: n in dir.dirs) && SubsMirror(subs, dir, names) && Proper(dir, ok)
      && Distinct(names)
    ensures SubsDirCount(subs) == |DirPathsIn(dir, names)|
    decreases dir, 0, |names|
  {
    hide Mirrors, DirCount, DirPaths, Get;
    if names != [] {
      var sub := dir.dirs[names[0]];
      MirrorDirs(subs[0].dir, sub, ok);
      SubsMirrorDirs(subs[1..], dir, names[1..], ok);
      DirPathIs(sub, [], ok);
      UnderCount(names[0], DirPaths(sub));
      var here, rest := Under(names[0], DirPaths(sub)), DirPathsIn(dir, names[1..]);
      forall q | q in here && q in rest ensures false {
        UnderIs(names[0], DirPaths(sub), q);
        DirPathInIs(dir, names[1..], q, ok);
      }
      assert here !! rest;
    }
  }
}
