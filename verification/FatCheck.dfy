/** The consistency walk: what `check` accepts on arbitrary bytes, exactly. */
module FatCheck {
  import opened Bytes
  import opened Optional
  import opened FatResult
  import opened FatLayout
  import opened FatReader
  import opened FatFiles
  import opened FatNames

  /** Directories a walk descends through before it calls the volume corrupt. */
  const MAX_DEPTH: nat := 16

  function Elements(s: seq<nat>): (r: set<nat>)
    ensures forall c :: c in r <==> c in s
  {
    set c | c in s
  }

  lemma {:induction false} DistinctCount(s: seq<nat>)
    requires Distinct(s)
    ensures |Elements(s)| == |s|
    decreases |s|
  {
    if s != [] {
      assert Distinct(s[1..]) by {
        forall i, j | 0 <= i < j < |s[1..]| ensures s[1..][i] != s[1..][j] {
          assert s[i + 1] != s[j + 1];
        }
      }
      DistinctCount(s[1..]);
      assert forall i | 0 <= i < |s[1..]| :: s[1..][i] == s[i + 1] != s[0];
      assert Elements(s) == {s[0]} + Elements(s[1..]);
    }
  }

  /** What a walk has claimed and counted so far. */
  datatype Tally = Tally(seen: set<nat>, files: nat, dirs: nat, claimed: nat)

  ghost predicate Within(v: Volume, t: Tally) { t.seen <= Clusters(v) && t.claimed == |t.seen| }

  function Unseen(v: Volume, t: Tally): nat { |Clusters(v) - t.seen| }

  /** Claim one entry's chain, refusing what a crash must never leave. */
  function Claim(v: Volume, e: Named, t: Tally): Result<Tally>
    requires v.Valid()
  {
    var t := if e.dir then t.(dirs := t.dirs + 1) else t.(files := t.files + 1);
    if e.first == 0 then
      if e.dir || e.size != 0 then Err(NoClusters) else Ok(t)
    else
      var chain :- Chain(v, e.first);
      if exists c | c in chain :: c in t.seen then Err(ClaimedTwice)
      else if !e.dir && |chain| < CeilDiv(e.size, v.ClusterSize()) then Err(ShortChain)
      else Ok(t.(seen := t.seen + Elements(chain), claimed := t.claimed + |chain|))
  }

  lemma ClaimGrows(v: Volume, e: Named, t: Tally)
    requires v.Valid() && Within(v, t) && Claim(v, e, t).Ok?
    ensures var u := Claim(v, e, t).value;
      && Within(v, u) && t.seen <= u.seen && Unseen(v, u) <= Unseen(v, t)
      && (e.dir ==> Unseen(v, u) < Unseen(v, t))
  {
    var u := Claim(v, e, t).value;
    if e.first != 0 {
      var chain := Chain(v, e.first).value;
      ChainExact(v, e.first, chain);
      DistinctCount(chain);
      assert chain[0] in chain;
      assert Clusters(v) - u.seen <= Clusters(v) - t.seen - {chain[0]};
      SubsetSize(Clusters(v) - u.seen, Clusters(v) - t.seen - {chain[0]});
    } else {
      assert u.seen == t.seen;
    }
  }

  lemma {:induction false} SubsetSize(a: set<nat>, b: set<nat>)
    requires a <= b
    ensures |a| <= |b|
    decreases a
  {
    if a != {} {
      var x :| x in a;
      SubsetSize(a - {x}, b - {x});
    }
  }

  /** Walk the directory at `depth`. The unseen clusters shrink with every directory entered, so
      the walk ends whatever `limit` is. */
  function WalkDir(v: Volume, dir: Option<nat>, depth: nat, limit: nat, t: Tally): (r: Result<Tally>)
    requires v.Valid() && Within(v, t)
    ensures r.Ok? ==> Within(v, r.value) && t.seen <= r.value.seen && Unseen(v, r.value) <= Unseen(v, t)
    decreases Unseen(v, t), 1, 0
  {
    if depth > limit then Err(TooDeep)
    else
      var es :- Entries(v, dir);
      WalkEntries(v, es, depth, limit, t)
  }

  function WalkEntries(v: Volume, es: seq<Named>, depth: nat, limit: nat, t: Tally): (r: Result<Tally>)
    requires v.Valid() && Within(v, t)
    ensures r.Ok? ==> Within(v, r.value) && t.seen <= r.value.seen && Unseen(v, r.value) <= Unseen(v, t)
    decreases Unseen(v, t), 0, |es|
  {
    if es == [] then Ok(t)
    else
      var u :- WalkEntry(v, es[0], depth, limit, t);
      WalkEntries(v, es[1..], depth, limit, u)
  }

  function WalkEntry(v: Volume, e: Named, depth: nat, limit: nat, t: Tally): (r: Result<Tally>)
    requires v.Valid() && Within(v, t)
    ensures r.Ok? ==> Within(v, r.value) && t.seen <= r.value.seen && Unseen(v, r.value) <= Unseen(v, t)
    decreases Unseen(v, t), 0, 0
  {
    var u :- Claim(v, e, t);
    ClaimGrows(v, e, t);
    if e.dir then WalkDir(v, Some(e.first), depth + 1, limit, u) else Ok(u)
  }

  // ---- the reference: every reachable entry, and what must hold of them ----

  /** An entry and the depth its contents would be walked at. */
  datatype Reached = Reached(e: Named, depth: nat)

  /** Every entry found at or below the entries `es`, going `levels` directories down. */
  function Listing(v: Volume, es: seq<Named>, depth: nat, levels: nat): seq<Reached>
    requires v.Valid()
    decreases levels, |es|
  {
    if es == [] then []
    else [Reached(es[0], depth + 1)] + Below(v, es[0], depth, levels) + Listing(v, es[1..], depth, levels)
  }

  function Below(v: Volume, e: Named, depth: nat, levels: nat): seq<Reached>
    requires v.Valid()
    decreases levels, 0
  {
    if e.dir && levels > 0 && Entries(v, Some(e.first)).Ok? then
      Listing(v, Entries(v, Some(e.first)).value, depth + 1, levels - 1)
    else []
  }

  /** The clusters an entry's chain takes. */
  function ClaimOf(v: Volume, e: Named): set<nat>
    requires v.Valid()
  {
    if e.first != 0 && Chain(v, e.first).Ok? then Elements(Chain(v, e.first).value) else {}
  }

  function ClaimsOf(v: Volume, list: seq<Reached>): set<nat>
    requires v.Valid()
  {
    if list == [] then {} else ClaimOf(v, list[0].e) + ClaimsOf(v, list[1..])
  }

  /** The entry alone is sound: a directory has a chain, a file's chain holds its size, and an
      empty file has none. */
  predicate EntrySound(v: Volume, e: Named)
    requires v.Valid()
  {
    if e.first == 0 then !e.dir && e.size == 0
    else
      Chain(v, e.first).Ok?
      && (e.dir || |Chain(v, e.first).value| >= CeilDiv(e.size, v.ClusterSize()))
  }

  predicate Sound(v: Volume, r: Reached, limit: nat)
    requires v.Valid()
  {
    EntrySound(v, r.e) && (r.e.dir ==> r.depth <= limit)
  }

  /** Every entry is sound, no chain meets `seen`, and no two chains meet. */
  ghost predicate Consistent(v: Volume, list: seq<Reached>, limit: nat, seen: set<nat>)
    requires v.Valid()
  {
    && (forall i | 0 <= i < |list| :: Sound(v, list[i], limit) && ClaimOf(v, list[i].e) !! seen)
    && (forall i, j | 0 <= i < j < |list| :: ClaimOf(v, list[i].e) !! ClaimOf(v, list[j].e))
  }

  lemma {:induction false} ClaimsAre(v: Volume, list: seq<Reached>, c: nat)
    requires v.Valid()
    ensures c in ClaimsOf(v, list) <==> exists i :: 0 <= i < |list| && c in ClaimOf(v, list[i].e)
    decreases |list|
  {
    if list != [] {
      ClaimsAre(v, list[1..], c);
      if c in ClaimsOf(v, list[1..]) {
        var i :| 0 <= i < |list[1..]| && c in ClaimOf(v, list[1..][i].e);
        assert list[1..][i] == list[i + 1];
      }
      if i :| 0 <= i < |list| && c in ClaimOf(v, list[i].e) {
        if i > 0 { assert list[1..][i - 1] == list[i]; }
      }
    }
  }

  lemma {:induction false} ClaimsConcat(v: Volume, a: seq<Reached>, b: seq<Reached>)
    requires v.Valid()
    ensures ClaimsOf(v, a + b) == ClaimsOf(v, a) + ClaimsOf(v, b)
    decreases |a|
  {
    if a == [] {
      assert a + b == b;
    } else {
      ClaimsConcat(v, a[1..], b);
      assert (a + b)[1..] == a[1..] + b;
    }
  }

  /** Two lists are consistent together exactly when the second is consistent past what the
      first claims. */
  lemma ConsistentConcat(v: Volume, a: seq<Reached>, b: seq<Reached>, limit: nat, seen: set<nat>)
    requires v.Valid()
    ensures Consistent(v, a + b, limit, seen) <==>
            Consistent(v, a, limit, seen) && Consistent(v, b, limit, seen + ClaimsOf(v, a))
  {
    var l := a + b;
    if Consistent(v, l, limit, seen) {
      ConsistentSplits(v, a, b, limit, seen);
    }
    if Consistent(v, a, limit, seen) && Consistent(v, b, limit, seen + ClaimsOf(v, a)) {
      forall i | 0 <= i < |l| ensures Sound(v, l[i], limit) && ClaimOf(v, l[i].e) !! seen {
        assert l[i] == if i < |a| then a[i] else b[i - |a|];
      }
      forall i, j | 0 <= i < j < |l| ensures ClaimOf(v, l[i].e) !! ClaimOf(v, l[j].e) {
        if i < |a| <= j {
          assert b[j - |a|] == l[j] && a[i] == l[i];
          forall c | c in ClaimOf(v, l[i].e) ensures c !in ClaimOf(v, l[j].e) { ClaimsAre(v, a, c); }
        } else if j < |a| {
          assert a[i] == l[i] && a[j] == l[j];
        } else {
          assert b[i - |a|] == l[i] && b[j - |a|] == l[j];
        }
      }
    }
  }

  lemma ConsistentSplits(v: Volume, a: seq<Reached>, b: seq<Reached>, limit: nat, seen: set<nat>)
    requires v.Valid() && Consistent(v, a + b, limit, seen)
    ensures Consistent(v, a, limit, seen) && Consistent(v, b, limit, seen + ClaimsOf(v, a))
  {
    var l := a + b;
    assert forall i | 0 <= i < |a| :: l[i] == a[i];
    assert forall i | 0 <= i < |b| :: l[|a| + i] == b[i];
    forall i | 0 <= i < |b| ensures Sound(v, b[i], limit) && ClaimOf(v, b[i].e) !! seen + ClaimsOf(v, a) {
      assert l[|a| + i] == b[i];
      forall c | c in ClaimOf(v, b[i].e) ensures c !in seen + ClaimsOf(v, a) {
        ClaimsAre(v, a, c);
      }
    }
    forall i, j | 0 <= i < j < |b| ensures ClaimOf(v, b[i].e) !! ClaimOf(v, b[j].e) {
      assert l[|a| + i] == b[i] && l[|a| + j] == b[j];
    }
  }

  lemma ConsistentNone(v: Volume, limit: nat, seen: set<nat>)
    requires v.Valid()
    ensures Consistent(v, [], limit, seen) && ClaimsOf(v, []) == {}
  {
  }

  lemma ConsistentOne(v: Volume, r: Reached, limit: nat, t: Tally)
    requires v.Valid()
    ensures Consistent(v, [r], limit, t.seen) <==>
            Claim(v, r.e, t).Ok? && (r.e.dir ==> r.depth <= limit)
    ensures Claim(v, r.e, t).Ok? ==> Claim(v, r.e, t).value.seen == t.seen + ClaimsOf(v, [r])
  {
    assert [r][0] == r && [r][1..] == [];
    assert ClaimsOf(v, [r]) == ClaimOf(v, r.e);
    if Consistent(v, [r], limit, t.seen) {
      assert Sound(v, [r][0], limit) && ClaimOf(v, [r][0].e) !! t.seen;
      if r.e.first != 0 {
        assert forall c | c in Chain(v, r.e.first).value :: c in ClaimOf(v, r.e);
      }
    }
  }

  /** The walk succeeds exactly on consistent listings, and has then claimed what they claim. */
  lemma {:induction false} WalkExact(v: Volume, es: seq<Named>, depth: nat, limit: nat, t: Tally)
    requires v.Valid() && Within(v, t) && depth <= limit
    ensures var r, list := WalkEntries(v, es, depth, limit, t), Listing(v, es, depth, limit - depth);
      && (r.Ok? <==> Consistent(v, list, limit, t.seen))
      && (r.Ok? ==> r.value.seen == t.seen + ClaimsOf(v, list))
    decreases limit - depth, 1, |es|
  {
    hide Consistent, ClaimsOf, WalkEntry, HereAndBelow, Unseen, Within, Volume.Valid;
    if es == [] {
      ConsistentNone(v, limit, t.seen);
    } else {
      var here, rest := HereAndBelow(v, es[0], depth, limit), Listing(v, es[1..], depth, limit - depth);
      ListingSplits(v, es, depth, limit);
      EntryExact(v, es[0], depth, limit, t);
      ConsistentConcat(v, here, rest, limit, t.seen);
      ClaimsConcat(v, here, rest);
      var u := WalkEntry(v, es[0], depth, limit, t);
      if u.Ok? { WalkExact(v, es[1..], depth, limit, u.value); }
    }
  }

  lemma ListingSplits(v: Volume, es: seq<Named>, depth: nat, limit: nat)
    requires v.Valid() && depth <= limit && es != []
    ensures Listing(v, es, depth, limit - depth) ==
      HereAndBelow(v, es[0], depth, limit) + Listing(v, es[1..], depth, limit - depth)
  {
    hide Below, Entries;
  }

  function HereAndBelow(v: Volume, e: Named, depth: nat, limit: nat): seq<Reached>
    requires v.Valid() && depth <= limit
  {
    [Reached(e, depth + 1)] + Below(v, e, depth, limit - depth)
  }

  lemma {:induction false} EntryExact(v: Volume, e: Named, depth: nat, limit: nat, t: Tally)
    requires v.Valid() && Within(v, t) && depth <= limit
    ensures var r, list := WalkEntry(v, e, depth, limit, t), HereAndBelow(v, e, depth, limit);
      && (r.Ok? <==> Consistent(v, list, limit, t.seen))
      && (r.Ok? ==> r.value.seen == t.seen + ClaimsOf(v, list))
    decreases limit - depth, 0, 0
  {
    hide Consistent, ClaimsOf, Claim, Entries, Listing, WalkEntries, Unseen, Within, Volume.Valid;
    var head, below := Reached(e, depth + 1), Below(v, e, depth, limit - depth);
    ConsistentNone(v, limit, t.seen + ClaimsOf(v, [head]));
    ConsistentConcat(v, [head], below, limit, t.seen);
    ConsistentOne(v, head, limit, t);
    ClaimsConcat(v, [head], below);
    var u := Claim(v, e, t);
    if u.Ok? {
      ClaimGrows(v, e, t);
      if e.dir && depth < limit {
        DirListed(v, e, t);
        WalkExact(v, Entries(v, Some(e.first)).value, depth + 1, limit, u.value);
      }
    }
  }

  /** A directory whose chain was claimed can be listed. */
  lemma DirListed(v: Volume, e: Named, t: Tally)
    requires v.Valid() && e.dir && Claim(v, e, t).Ok?
    ensures Entries(v, Some(e.first)).Ok?
  {
  }

  // ---- the whole check ----

  datatype Report = Report(
    files: nat, dirs: nat, claimed: nat, lost: nat, differ: nat, free: nat, fsinfoFree: Option<nat>)

  /** The first table's entries, the two reserved ones included. */
  function FirstTable(v: Volume): (t: seq<nat>)
    requires v.Valid()
    ensures |t| == v.clusters + 2
    ensures forall c | 0 <= c < |t| :: t[c] == v.Table(0, c)
  {
    seq(v.clusters + 2, c requires 0 <= c < v.clusters + 2 => v.Table(0, c))
  }

  /** Clusters below `end` that a table allocates and no chain claims. */
  function Lost(table: seq<nat>, bad: nat, seen: set<nat>, end: nat): set<nat>
    requires 2 <= end <= |table|
  {
    set c | c in Range(2, end) && table[c] != 0 && table[c] != bad && c !in seen
  }

  function Free(table: seq<nat>, end: nat): set<nat>
    requires 2 <= end <= |table|
  {
    set c | c in Range(2, end) && table[c] == 0
  }

  function Bad(table: seq<nat>, bad: nat): set<nat>
    requires 2 <= |table|
  {
    set c | c in Range(2, |table|) && table[c] == bad
  }

  /** Some copy of the table disagrees with the first about the cluster. */
  predicate CopiesDiffer(v: Volume, c: nat)
    requires v.Valid() && v.InVolume(c)
  {
    exists copy | 1 <= copy < v.fats :: v.Table(copy, c) != v.Table(0, c)
  }

  function Differ(v: Volume, end: nat): set<nat>
    requires v.Valid() && 2 <= end <= v.clusters + 2
  {
    set c | c in Range(2, end) && CopiesDiffer(v, c)
  }

  const FSINFO_LEAD := 0x4161_5252
  const FSINFO_STRUCT := 0x6141_7272
  const FSINFO_TRAIL := 0xAA55_0000

  predicate Signed(v: Volume)
    requires v.Valid()
  {
    v.format.Fat16?
    || (assert v.fsinfo + SECTOR <= |v.bytes|;
        && Get32(v.bytes, v.fsinfo) == FSINFO_LEAD
        && Get32(v.bytes, v.fsinfo + 484) == FSINFO_STRUCT
        && Get32(v.bytes, v.fsinfo + 508) == FSINFO_TRAIL)
  }

  function FsInfoFree(v: Volume): Option<nat>
    requires v.Valid()
  {
    assert v.format.Fat32? ==> v.fsinfo + SECTOR <= |v.bytes|;
    if v.format.Fat16? || Get32(v.bytes, v.fsinfo + 488) == 0xFFFF_FFFF then None
    else Some(Get32(v.bytes, v.fsinfo + 488))
  }

  /** The root's own chain, which only FAT32 has. */
  function RootChain(v: Volume): Result<seq<nat>>
    requires v.Valid()
  {
    if v.format.Fat16? then Ok([]) else Chain(v, v.root)
  }

  lemma RootChainWithin(v: Volume)
    requires v.Valid() && RootChain(v).Ok?
    ensures Within(v, Tally(Elements(RootChain(v).value), 0, 0, |RootChain(v).value|))
  {
    if v.format.Fat32? { ChainExact(v, v.root, RootChain(v).value); }
    DistinctCount(RootChain(v).value);
  }

  /** The walk of the whole volume. */
  function WalkAll(v: Volume, limit: nat): (r: Result<Tally>)
    requires v.Valid()
    ensures r.Ok? ==> Within(v, r.value)
  {
    var chain :- RootChain(v);
    RootChainWithin(v);
    WalkDir(v, None, 0, limit, Tally(Elements(chain), 0, 0, |chain|))
  }

  function Summary(v: Volume, t: Tally): Report
    requires v.Valid()
  {
    var table := FirstTable(v);
    Report(t.files, t.dirs, t.claimed, |Lost(table, v.format.BadCluster(), t.seen, |table|)|,
           |Differ(v, v.clusters + 2)|, |Free(table, |table|)|, FsInfoFree(v))
  }

  function Check(v: Volume, limit: nat): Result<Report>
    requires v.Valid()
  {
    var t :- WalkAll(v, limit);
    if Signed(v) then Ok(Summary(v, t)) else Err(NoSignatures)
  }

  /** Every entry of the volume. */
  function AllEntries(v: Volume, limit: nat): seq<Reached>
    requires v.Valid() && Entries(v, None).Ok?
  {
    Listing(v, Entries(v, None).value, 0, limit)
  }

  /** What the walk must accept: the root can be listed, and the chains of everything below it
      are sound and meet neither one another nor the root's. */
  ghost predicate ConsistentVolume(v: Volume, limit: nat)
    requires v.Valid()
  {
    && RootChain(v).Ok? && Entries(v, None).Ok?
    && Consistent(v, AllEntries(v, limit), limit, Elements(RootChain(v).value))
  }

  /** The walk succeeds exactly on consistent volumes, and has then seen the clusters of the
      root and of every entry. */
  lemma WalkAllExact(v: Volume, limit: nat)
    requires v.Valid()
    ensures WalkAll(v, limit).Ok? <==> ConsistentVolume(v, limit)
    ensures WalkAll(v, limit).Ok? ==>
            WalkAll(v, limit).value.seen == Elements(RootChain(v).value) + ClaimsOf(v, AllEntries(v, limit))
  {
    hide WalkEntries, Consistent, ClaimsOf, Listing, Within, Entries, RootChain, Unseen, Volume.Valid;
    if RootChain(v).Ok? && Entries(v, None).Ok? {
      RootChainWithin(v);
      var chain := RootChain(v).value;
      var es, t := Entries(v, None).value, Tally(Elements(chain), 0, 0, |chain|);
      WalkExact(v, es, 0, limit, t);
      assert WalkAll(v, limit) == WalkEntries(v, es, 0, limit, t);
    }
  }

  /** `check` succeeds exactly on consistent volumes whose FSInfo sector is signed. */
  lemma CheckExact(v: Volume, limit: nat)
    requires v.Valid()
    ensures Check(v, limit).Ok? <==> ConsistentVolume(v, limit) && Signed(v)
  {
    WalkAllExact(v, limit);
  }

  lemma ConsistentParts(v: Volume, limit: nat)
    requires v.Valid() && ConsistentVolume(v, limit)
    ensures RootChain(v).Ok? && Entries(v, None).Ok?
  {
  }

  lemma {:induction false} SeenIsUsable(v: Volume, limit: nat, c: nat)
    requires v.Valid() && WalkAll(v, limit).Ok? && c in WalkAll(v, limit).value.seen
    ensures v.Usable(c)
  {
    hide WalkAll, ClaimsOf, AllEntries, Entries, Listing, Consistent, ChainFrom, Volume.Valid;
    WalkAllExact(v, limit);
    ConsistentParts(v, limit);
    var first: nat := v.root;
    if c !in RootChain(v).value {
      ClaimsAre(v, AllEntries(v, limit), c);
      var i :| 0 <= i < |AllEntries(v, limit)| && c in ClaimOf(v, AllEntries(v, limit)[i].e);
      first := AllEntries(v, limit)[i].e.first;
    }
    OkIsChain(v, first, 0);
  }

  /** Four disjoint sets that make up a whole. */
  ghost predicate Splits(all: set<nat>, a: set<nat>, b: set<nat>, c: set<nat>, d: set<nat>) {
    all == a + b + c + d && a !! b !! c !! d
  }

  lemma FourParts(all: set<nat>, a: set<nat>, b: set<nat>, c: set<nat>, d: set<nat>)
    requires Splits(all, a, b, c, d)
    ensures |all| == |a| + |b| + |c| + |d|
  {
    assert |all| == |a + b + c| + |d|;
    assert |a + b + c| == |a + b| + |c|;
  }

  /** Used clusters that were claimed, the other used ones, free ones and bad ones are disjoint
      and are all there are. */
  lemma Partition(table: seq<nat>, bad: nat, seen: set<nat>, lost: set<nat>, free: set<nat>, bads: set<nat>)
    requires |table| >= 2 && bad != 0
    requires forall c | c in seen :: 2 <= c < |table| && table[c] != 0 && table[c] != bad
    requires lost == Lost(table, bad, seen, |table|) && free == Free(table, |table|) && bads == Bad(table, bad)
    ensures Splits(Range(2, |table|), seen, lost, free, bads)
  {
    var all := Range(2, |table|);
    assert all == seen + lost + free + bads by {
      forall c ensures c in all <==> c in seen + lost + free + bads { }
    }
    assert forall c | c in lost :: c !in seen;
    assert forall c | c in free :: c !in seen + lost;
    assert forall c | c in bads :: c !in seen + lost + free;
  }

  /** Every cluster is exactly one of claimed, lost, free and bad, and the counts say how many
      of each there are. */
  ghost predicate Accounts(table: seq<nat>, bad: nat, seen: set<nat>, claimed: nat, lost: nat, free: nat)
    requires |table| >= 2
  {
    var l, f, b := Lost(table, bad, seen, |table|), Free(table, |table|), Bad(table, bad);
    && Splits(Range(2, |table|), seen, l, f, b)
    && claimed == |seen| && lost == |l| && free == |f|
    && claimed + lost + free + |b| == |table| - 2
  }

  lemma CountsAccount(table: seq<nat>, bad: nat, seen: set<nat>)
    requires |table| >= 2 && bad != 0
    requires Used(table, bad, seen)
    ensures Accounts(table, bad, seen, |seen|, |Lost(table, bad, seen, |table|)|, |Free(table, |table|)|)
  {
    var l, f, b := Lost(table, bad, seen, |table|), Free(table, |table|), Bad(table, bad);
    Partition(table, bad, seen, l, f, b);
    FourParts(Range(2, |table|), seen, l, f, b);
  }

  ghost predicate Used(table: seq<nat>, bad: nat, seen: set<nat>) {
    forall c | c in seen :: 2 <= c < |table| && table[c] != 0 && table[c] != bad
  }

  lemma SeenIsUsed(v: Volume, limit: nat)
    requires v.Valid() && WalkAll(v, limit).Ok?
    ensures Used(FirstTable(v), v.format.BadCluster(), WalkAll(v, limit).value.seen)
  {
    forall c | c in WalkAll(v, limit).value.seen ensures v.Usable(c) {
      SeenIsUsable(v, limit, c);
    }
  }

  lemma SummaryAccounts(v: Volume, t: Tally)
    requires v.Valid() && t.claimed == |t.seen| && Used(FirstTable(v), v.format.BadCluster(), t.seen)
    ensures var r := Summary(v, t);
      Accounts(FirstTable(v), v.format.BadCluster(), t.seen, r.claimed, r.lost, r.free)
  {
    var r, table, mark := Summary(v, t), FirstTable(v), v.format.BadCluster();
    CountsAccount(table, mark, t.seen);
    assert r.claimed == |t.seen|;
    assert r.lost == |Lost(table, mark, t.seen, |table|)|;
    assert r.free == |Free(table, |table|)|;
  }

  /** After a successful check the report accounts for every cluster. */
  lemma CheckConserves(v: Volume, limit: nat)
    requires v.Valid() && Check(v, limit).Ok?
    ensures var r, seen := Check(v, limit).value, WalkAll(v, limit).value.seen;
      Accounts(FirstTable(v), v.format.BadCluster(), seen, r.claimed, r.lost, r.free)
  {
    SeenIsUsed(v, limit);
    SummaryAccounts(v, WalkAll(v, limit).value);
  }

  // ---- reading a checked volume ----

  lemma {:induction false} ListingHas(v: Volume, es: seq<Named>, depth: nat, levels: nat, i: nat)
    requires v.Valid() && i < |es|
    ensures Reached(es[i], depth + 1) in Listing(v, es, depth, levels)
    ensures forall r | r in Below(v, es[i], depth, levels) :: r in Listing(v, es, depth, levels)
    decreases |es|
  {
    if i > 0 { ListingHas(v, es[1..], depth, levels, i - 1); }
  }

  lemma {:induction false} MatchIsEntry(es: seq<Named>, part: Text) returns (i: nat)
    requires Match(es, part).Some?
    ensures i < |es| && es[i] == Match(es, part).value
    decreases |es|
  {
    i := 0;
    if es[0] != Match(es, part).value {
      i := MatchIsEntry(es[1..], part);
      i := i + 1;
    }
  }

  lemma SoundDirLists(v: Volume, e: Named)
    requires v.Valid() && EntrySound(v, e) && e.dir
    ensures Entries(v, Some(e.first)).Ok?
  {
  }

  /** Looking a path up among sound entries never fails, and finds a sound entry. */
  lemma {:induction false} FindIsSound(v: Volume, dir: Option<nat>, parts: seq<Text>, depth: nat, limit: nat)
    requires v.Valid() && depth <= limit && Entries(v, dir).Ok?
    requires forall r | r in Listing(v, Entries(v, dir).value, depth, limit - depth) :: Sound(v, r, limit)
    ensures FindFrom(v, dir, parts).Ok?
    ensures var e := FindFrom(v, dir, parts).value; e.Some? ==> EntrySound(v, e.value)
    decreases |parts|
  {
    hide Match, Entries, Listing, Chain, Volume.Valid;
    if parts != [] {
      var es := Entries(v, dir).value;
      var e := Match(es, parts[0]);
      if e.Some? {
        var i := MatchIsEntry(es, parts[0]);
        ListingHas(v, es, depth, limit - depth, i);
        assert Sound(v, Reached(e.value, depth + 1), limit);
        if |parts| > 1 && e.value.dir {
          SoundDirLists(v, e.value);
          FindIsSound(v, Some(e.value.first), parts[1..], depth + 1, limit);
        }
      }
    }
  }

  /** A sound file reads as exactly as many bytes as its entry says. */
  lemma SoundContents(v: Volume, e: Named)
    requires v.Valid() && EntrySound(v, e) && !e.dir
    ensures Contents(v, e).Ok? && |Contents(v, e).value| == e.size
  {
    if e.first != 0 {
      var n := |Chain(v, e.first).value|;
      CeilDivBounds(e.size, v.ClusterSize());
      TimesMono(CeilDiv(e.size, v.ClusterSize()), n, v.ClusterSize());
    }
  }

  lemma AllSound(v: Volume, limit: nat)
    requires v.Valid() && ConsistentVolume(v, limit)
    ensures Entries(v, None).Ok? && forall r | r in Listing(v, Entries(v, None).value, 0, limit) :: Sound(v, r, limit)
  {
    hide Sound, Entries, Listing, Volume.Valid;
    var list := AllEntries(v, limit);
    forall r | r in list ensures Sound(v, r, limit) {
      var i :| 0 <= i < |list| && list[i] == r;
    }
  }

  /** On a volume that checks, every path resolves without error, and every file it names reads
      as exactly as many bytes as its entry says. */
  lemma CheckedReads(v: Volume, limit: nat, parts: seq<Text>)
    requires v.Valid() && Check(v, limit).Ok?
    ensures FindFrom(v, None, parts).Ok?
    ensures var e := FindFrom(v, None, parts).value;
      e.Some? && !e.value.dir ==>
        Contents(v, e.value).Ok? && |Contents(v, e.value).value| == e.value.size
        && Read(v, parts) == Ok(Some(Contents(v, e.value).value))
  {
    hide Check, FindFrom, Contents, EntrySound, Listing, ConsistentVolume, Sound, Entries, Volume.Valid;
    CheckExact(v, limit);
    AllSound(v, limit);
    FindIsSound(v, None, parts, 0, limit);
    var e := FindFrom(v, None, parts).value;
    if e.Some? && !e.value.dir { SoundContents(v, e.value); }
  }
}
