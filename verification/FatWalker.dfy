/** `check` and `walk` as they run: clusters marked in place, counters stepped. */
module FatWalker {
  import opened Bytes
  import opened Optional
  import opened FatResult
  import opened FatLayout
  import opened FatReader
  import opened FatFiles
  import opened FatCheck

  class Walker {
    const v: Volume
    const seen: array<bool>
    var files: nat
    var dirs: nat
    var claimed: nat

    /** What has been claimed and counted so far. */
    ghost function State(): Tally
      reads this, seen
    {
      Tally(Marked(seen[..]), files, dirs, claimed)
    }

    ghost predicate Valid()
      reads this, seen
    {
      v.Valid() && seen.Length == v.clusters + 2 && Within(v, State())
    }

    constructor (v: Volume)
      requires v.Valid()
      ensures this.v == v && Valid() && State() == Tally({}, 0, 0, 0) && fresh(seen)
    {
      this.v := v;
      seen := new bool[v.clusters + 2](_ => false);
      files, dirs, claimed := 0, 0, 0;
    }

    /** Mark the clusters of a chain, refusing one that is already marked. */
    method Mark(chain: seq<nat>) returns (ok: bool)
      requires seen.Length == v.clusters + 2 && Distinct(chain) && forall c | c in chain :: v.InVolume(c)
      modifies seen
      ensures ok <==> forall c | c in chain :: c !in old(State()).seen
      ensures ok ==> State() == old(State()).(seen := old(State()).seen + Elements(chain))
    {
      ghost var before := seen[..];
      for i := 0 to |chain|
        invariant seen.Length == |before| && forall j | 0 <= j < i :: chain[j] < |before| && !before[chain[j]]
        invariant forall c | 0 <= c < |before| :: seen[c] <==> before[c] || c in chain[..i]
      {
        var c := chain[i];
        assert c in chain && c !in chain[..i];
        if seen[c] { return false; }
        seen[c] := true;
        assert chain[..i + 1] == chain[..i] + [c];
      }
      assert chain[..|chain|] == chain;
      MarkedChain(before, seen[..], chain);
      ok := true;
    }

    /** Claim the chain of one entry. */
    method ClaimEntry(e: Named) returns (r: Result<()>)
      requires Valid()
      modifies this, seen
      ensures r.Ok? <==> Claim(v, e, old(State())).Ok?
      ensures r.Err? ==> r.error == Claim(v, e, old(State())).error
      ensures r.Ok? ==> Valid() && State() == Claim(v, e, old(State())).value
    {
      hide ChainFrom, CeilDiv, Unseen, IsChain, Distinct;
      ghost var t := State();
      if e.dir { dirs := dirs + 1; } else { files := files + 1; }
      if e.first == 0 {
        if e.dir || e.size != 0 { return Err(NoClusters); }
        return Ok(());
      }
      var chain :- FollowChain(v, e.first);
      ChainMarks(v, e.first, chain);
      var fresh' := Mark(chain);
      if !fresh' { return Err(ClaimedTwice); }
      claimed := claimed + |chain|;
      if !e.dir && |chain| < CeilDiv(e.size, v.ClusterSize()) { return Err(ShortChain); }
      ClaimGrows(v, e, t);
      r := Ok(());
    }

    /** Walk a directory at `depth`. The unseen clusters shrink with every directory entered. */
    method Walk(dir: Option<nat>, depth: nat, limit: nat) returns (r: Result<()>)
      requires Valid()
      modifies this, seen
      ensures r.Ok? <==> WalkDir(v, dir, depth, limit, old(State())).Ok?
      ensures r.Err? ==> r.error == WalkDir(v, dir, depth, limit, old(State())).error
      ensures r.Ok? ==> Valid() && State() == WalkDir(v, dir, depth, limit, old(State())).value
      decreases Unseen(v, State())
    {
      hide Claim, Entries, Unseen, Volume.Valid;
      if depth > limit { return Err(TooDeep); }
      ghost var t := State();
      var es :- ReadEntries(v, dir);
      for i := 0 to |es|
        invariant Valid() && Unseen(v, State()) <= Unseen(v, t)
        invariant WalkDir(v, dir, depth, limit, t) == WalkEntries(v, es[i..], depth, limit, State())
      {
        ghost var u := State();
        assert es[i..][0] == es[i] && es[i..][1..] == es[i + 1..];
        var _ :- ClaimEntry(es[i]);
        ClaimGrows(v, es[i], u);
        if es[i].dir {
          var _ :- Walk(Some(es[i].first), depth + 1, limit);
        }
      }
      assert es[|es|..] == [];
      r := Ok(());
    }
  }

  ghost function Marked(seen: seq<bool>): (s: set<nat>)
    ensures forall c :: c in s <==> 0 <= c < |seen| && seen[c]
  {
    set c | 0 <= c < |seen| && seen[c]
  }

  lemma MarkedChain(before: seq<bool>, after: seq<bool>, chain: seq<nat>)
    requires |before| == |after| && forall c | c in chain :: c < |before|
    requires forall c | 0 <= c < |before| :: after[c] <==> before[c] || c in chain
    ensures Marked(after) == Marked(before) + Elements(chain)
  {
  }

  lemma ChainMarks(v: Volume, first: nat, chain: seq<nat>)
    requires v.Valid() && Chain(v, first) == Ok(chain)
    ensures Distinct(chain) && forall c | c in chain :: v.InVolume(c)
  {
    ChainExact(v, first, chain);
  }

  method ReadEntries(v: Volume, dir: Option<nat>) returns (r: Result<seq<Named>>)
    requires v.Valid()
    ensures r == Entries(v, dir)
  {
    var raw :- RawDir(v, dir);
    var es := ListEntries(v.format, raw);
    r := Ok(es);
  }

  lemma RangeStep(end: nat)
    requires 2 <= end
    ensures Range(2, end + 1) == Range(2, end) + {end} && end !in Range(2, end)
  {
  }

  lemma LostStep(table: seq<nat>, bad: nat, seen: set<nat>, end: nat)
    requires 2 <= end < |table|
    ensures |Lost(table, bad, seen, end + 1)| ==
            |Lost(table, bad, seen, end)| + if table[end] != 0 && table[end] != bad && end !in seen then 1 else 0
  {
    hide Range;
    RangeStep(end);
    var a, b := Lost(table, bad, seen, end), Lost(table, bad, seen, end + 1);
    if table[end] != 0 && table[end] != bad && end !in seen { assert b == a + {end}; } else { assert b == a; }
  }

  lemma FreeStep(table: seq<nat>, end: nat)
    requires 2 <= end < |table|
    ensures |Free(table, end + 1)| == |Free(table, end)| + if table[end] == 0 then 1 else 0
  {
    hide Range;
    RangeStep(end);
    var a, b := Free(table, end), Free(table, end + 1);
    if table[end] == 0 { assert b == a + {end}; } else { assert b == a; }
  }

  lemma DifferStep(v: Volume, end: nat)
    requires v.Valid() && v.InVolume(end)
    ensures |Differ(v, end + 1)| == |Differ(v, end)| + if CopiesDiffer(v, end) then 1 else 0
  {
    hide Range, CopiesDiffer, Volume.Valid;
    RangeStep(end);
    var a, b := Differ(v, end), Differ(v, end + 1);
    if CopiesDiffer(v, end) { assert b == a + {end}; } else { assert b == a; }
  }

  /** Whether some later copy of the table disagrees about the cluster. */
  method AnyDiffers(v: Volume, c: nat) returns (differs: bool)
    requires v.Valid() && v.InVolume(c)
    ensures differs == CopiesDiffer(v, c)
  {
    var first := v.Table(0, c);
    for copy := 1 to v.fats
      invariant forall k | 1 <= k < copy :: v.Table(k, c) == first
    {
      if v.Table(copy, c) != first { return true; }
    }
    differs := false;
  }

  /** The counting loop over every cluster. */
  method Count(w: Walker) returns (lost: nat, free: nat, differ: nat)
    requires w.Valid()
    ensures lost == |Lost(FirstTable(w.v), w.v.format.BadCluster(), w.State().seen, w.v.clusters + 2)|
    ensures free == |Free(FirstTable(w.v), w.v.clusters + 2)| && differ == |Differ(w.v, w.v.clusters + 2)|
  {
    hide Volume.Table, Within, Range;
    var v := w.v;
    ghost var table, bad, seen := FirstTable(v), v.format.BadCluster(), w.State().seen;
    lost, free, differ := 0, 0, 0;
    CountsFromNone(v, table, bad, seen);
    for c := 2 to v.clusters + 2
      invariant lost == |Lost(table, bad, seen, c)| && free == |Free(table, c)| && differ == |Differ(v, c)|
    {
      LostStep(table, bad, seen, c);
      FreeStep(table, c);
      DifferStep(v, c);
      var first := v.Table(0, c);
      if first == 0 {
        free := free + 1;
      } else if first != v.format.BadCluster() && !w.seen[c] {
        lost := lost + 1;
      }
      var apart := AnyDiffers(v, c);
      if apart { differ := differ + 1; }
    }
  }

  lemma CountsFromNone(v: Volume, table: seq<nat>, bad: nat, seen: set<nat>)
    requires v.Valid() && 2 <= |table|
    ensures Lost(table, bad, seen, 2) == {} && Free(table, 2) == {} && Differ(v, 2) == {}
  {
  }

  /** The whole of `check`. */
  method CheckVolume(v: Volume) returns (r: Result<Report>)
    requires v.Valid()
    ensures r == Check(v, MAX_DEPTH)
    ensures r.Ok? <==> ConsistentVolume(v, MAX_DEPTH) && Signed(v)
  {
    hide Volume.Valid, WalkDir, FirstTable, Lost, Free, Differ, Signed, FsInfoFree, ChainFrom, Range, ConsistentVolume;
    CheckExact(v, MAX_DEPTH);
    var w := new Walker(v);
    if v.format.Fat32? {
      var chain :- FollowChain(v, v.root);
      ChainMarks(v, v.root, chain);
      var _ := w.Mark(chain);
      w.claimed := |chain|;
      NoneMarked(chain);
    } else {
      NoneMarked([]);
    }
    RootChainWithin(v);
    var walked := w.Walk(None, 0, MAX_DEPTH);
    if walked.Err? { return Err(walked.error); }
    var lost, free, differ := Count(w);
    if !Signed(v) { return Err(NoSignatures); }
    r := Ok(Report(w.files, w.dirs, w.claimed, lost, differ, free, FsInfoFree(v)));
  }

  lemma NoneMarked(chain: seq<nat>)
    ensures {} + Elements(chain) == Elements(chain) && Elements([]) == {}
  {
  }
}
