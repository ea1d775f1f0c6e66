/** Dividing checkpoint work across ranks (examples/checkpoint_engine/update.py). */
module Partition {
  import opened Arithmetic

  function Least(a: int, b: int): int { if a <= b then a else b }

  /** A Python slice with non-negative bounds: bounds past the end are cut off. */
  function Slice<T>(s: seq<T>, lo: nat, hi: nat): seq<T>
    requires lo <= hi
  {
    s[Least(lo, |s|)..Least(hi, |s|)]
  }

  /** Entries per rank, rounded up. */
  function PerRank(n: nat, world: nat): nat
    requires world > 0
  {
    (n + world - 1) / world
  }

  /** checkpoint_files[rank * per : (rank + 1) * per]. */
  function Share<T>(s: seq<T>, rank: nat, world: nat): seq<T>
    requires world > 0
  {
    var per := PerRank(|s|, world);
    OneMore(rank, per);
    Slice(s, rank * per, (rank + 1) * per)
  }

  /** The shares of the first `ranks` ranks, in rank order. */
  function Shares<T>(s: seq<T>, ranks: nat, world: nat): seq<T>
    requires world > 0
  {
    if ranks == 0 then [] else Shares(s, ranks - 1, world) + Share(s, ranks - 1, world)
  }

  lemma PrefixAndSlice<T>(s: seq<T>, lo: nat, hi: nat)
    requires lo <= hi
    ensures s[..Least(lo, |s|)] + Slice(s, lo, hi) == s[..Least(hi, |s|)]
  {
  }

  lemma {:induction false} SharesArePrefix<T>(s: seq<T>, ranks: nat, world: nat)
    requires world > 0
    ensures Shares(s, ranks, world) == s[..Least(ranks * PerRank(|s|, world), |s|)]
  {
    if ranks > 0 {
      var per := PerRank(|s|, world);
      hide PerRank;
      SharesArePrefix(s, ranks - 1, world);
      OneMore(ranks - 1, per);
      PrefixAndSlice(s, (ranks - 1) * per, ranks * per);
    }
  }

  lemma Covers(n: nat, world: nat)
    requires world > 0
    ensures n <= world * PerRank(n, world)
  {
    CeilingCovers(n, world);
  }

  /** Concatenating the shares of all ranks gives the whole list back, for every list and world size. */
  lemma SharesCoverExactly<T>(s: seq<T>, world: nat)
    requires world > 0
    ensures Shares(s, world, world) == s
  {
    hide PerRank;
    SharesArePrefix(s, world, world);
    Covers(|s|, world);
    assert s[..|s|] == s;
  }

  // ----- split_tensors ----------------------------------------------------------------------

  /** An entry of the weight map: tensor name and file. */
  datatype Weight = Weight(name: string, file: string)

  ghost predicate DistinctNames(ws: seq<Weight>) {
    forall i, j | 0 <= i < j < |ws| :: ws[i].name != ws[j].name
  }

  lemma ShareOf<T>(s: seq<T>, rank: nat, world: nat, x: T)
    requires world > 0 && x in Share(s, rank, world)
    ensures x in s
  {
  }

  /** Within a share a name determines its file. */
  lemma SameNameSameFile(weights: seq<Weight>, rank: nat, world: nat, v: Weight, w: Weight)
    requires world > 0 && DistinctNames(weights)
    requires v in Share(weights, rank, world) && w in Share(weights, rank, world) && v.name == w.name
    ensures v == w
  {
    ShareOf(weights, rank, world, v);
    ShareOf(weights, rank, world, w);
    var i :| 0 <= i < |weights| && weights[i] == v;
    var j :| 0 <= j < |weights| && weights[j] == w;
  }

  /** Read the listed tensors of one file. */
  method LoadFile(file: string, names: seq<string>, before: map<string, string>) returns (loaded: map<string, string>)
    ensures forall n :: n in loaded <==> n in before || n in names
    ensures forall n | n in loaded :: loaded[n] == if n in names then file else before[n]
  {
    loaded := before;
    for m := 0 to |names|
      invariant forall n :: n in loaded <==> n in before || n in names[..m]
      invariant forall n | n in loaded :: loaded[n] == if n in names[..m] then file else before[n]
    {
      loaded := loaded[names[m] := file];
      assert forall n :: n in names[..m + 1] <==> n in names[..m] || n == names[m];
    }
    assert names[..|names|] == names;
  }

  /** Group the names of a share by file, then read every file's tensors: each name of the share is
      loaded from its own file, and nothing else is. */
  method SplitTensors(weights: seq<Weight>, rank: nat, world: nat) returns (loaded: map<string, string>)
    requires world > 0 && DistinctNames(weights)
    ensures forall n | n in loaded :: Weight(n, loaded[n]) in Share(weights, rank, world)
    ensures forall w | w in Share(weights, rank, world) :: w.name in loaded && loaded[w.name] == w.file
  {
    hide Share, DistinctNames;
    var mine := Share(weights, rank, world);
    var files, byFile := GroupByFile(mine);
    loaded := map[];
    for k := 0 to |files|
      invariant forall n | n in loaded :: Weight(n, loaded[n]) in mine
      invariant forall w | w in mine && w.file in files[..k] :: w.name in loaded
    {
      var file := files[k];
      assert file in files;
      loaded := LoadFile(file, byFile[file], loaded);
      assert forall f :: f in files[..k + 1] <==> f in files[..k] || f == file;
    }
    assert files[..|files|] == files;
    forall w | w in mine ensures w.name in loaded && loaded[w.name] == w.file {
      SameNameSameFile(weights, rank, world, Weight(w.name, loaded[w.name]), w);
    }
  }

  /** The defaultdict of lists: files in first-appearance order, and each file's names. */
  method GroupByFile(ws: seq<Weight>) returns (files: seq<string>, byFile: map<string, seq<string>>)
    ensures forall f :: f in byFile <==> f in files
    ensures forall f, n | f in byFile && n in byFile[f] :: Weight(n, f) in ws
    ensures forall w | w in ws :: w.file in byFile && w.name in byFile[w.file]
  {
    files, byFile := [], map[];
    for i := 0 to |ws|
      invariant forall f :: f in byFile <==> f in files
      invariant forall f, n | f in byFile && n in byFile[f] :: Weight(n, f) in ws
      invariant forall w | w in ws[..i] :: w.file in byFile && w.name in byFile[w.file]
    {
      var w := ws[i];
      assert Weight(w.name, w.file) == w;
      if w.file !in byFile {
        files := files + [w.file];
        byFile := byFile[w.file := []];
      }
      byFile := byFile[w.file := byFile[w.file] + [w.name]];
    }
    assert ws[..|ws|] == ws;
  }

  /** The work is even: with `per` the least number for which `world` shares suffice, every share is full as long as
      entries last. */
  lemma ShareSize<T>(s: seq<T>, rank: nat, world: nat, per: nat)
    requires world > 0 && |s| <= world * per && (per > 0 ==> world * (per - 1) < |s|)
    ensures |Share(s, rank, world)| == if (rank + 1) * per <= |s| then per else if rank * per <= |s| then |s| - rank * per else 0
  {
    LeastPerRank(|s|, world, per);
    OneMore(rank, per);
  }

  lemma LeastPerRank(n: nat, world: nat, per: nat)
    requires world > 0 && n <= world * per && (per > 0 ==> world * (per - 1) < n)
    ensures PerRank(n, world) == per
  {
    if per == 0 {
      DivModUnique(world - 1, 0, world - 1, world);
    } else {
      OneMore(per - 1, world);
      DivModUnique(n + world - 1, per, n + world - 1 - per * world, world);
    }
  }

  // ----- Leaders -------------------------------------------------------------------------------

  /** The rank that speaks for `rank`'s inference group. */
  function Leader(rank: nat, size: nat): nat
    requires size > 0
  {
    rank / size * size
  }

  /** The sockets that a leader hands to the server. */
  function Handles<T>(sockets: seq<T>, leader: nat, size: nat): seq<T> {
    Slice(sockets, leader, leader + size)
  }

  /** The handles sent by all leaders among the first `ranks` ranks; the other ranks send nothing. */
  function Sent<T>(sockets: seq<T>, ranks: nat, size: nat): seq<T>
    requires size > 0
  {
    if ranks == 0 then []
    else
      var r := ranks - 1;
      Sent(sockets, r, size) + if Leader(r, size) == r then Handles(sockets, r, size) else []
  }

  lemma LeaderOf(r: nat, size: nat)
    requires size > 0
    ensures Leader(r, size) <= r < Leader(r, size) + size
    ensures r > 0 ==> Leader(r - 1, size) == if Leader(r, size) == r then r - size else Leader(r, size)
    ensures r > 0 && Leader(r, size) == r ==> r >= size
  {
    var q, m := r / size, r % size;
    assert r == q * size + m;
    if r > 0 {
      var p, k := (r - 1) / size, (r - 1) % size;
      assert r - 1 == p * size + k;
      OneMore(p, size);
      if p > q { Scale(q + 1, p, size); OneMore(q, size); }
      if p + 1 < q { Scale(p + 2, q, size); OneMore(p + 1, size); }
    }
  }

  lemma {:induction false} SentIsPrefix<T>(sockets: seq<T>, ranks: nat, size: nat)
    requires size > 0 && 0 < ranks <= |sockets|
    ensures Sent(sockets, ranks, size) == sockets[..Least(Leader(ranks - 1, size) + size, |sockets|)]
  {
    var r := ranks - 1;
    LeaderOf(r, size);
    if r > 0 {
      SentIsPrefix(sockets, r, size);
    } else {
      assert Leader(0, size) == 0;
    }
  }

  /** One leader per group: together they send every socket exactly once, in order, whether or not the
      parallel size divides the world size. */
  lemma LeadersTileSockets<T>(sockets: seq<T>, size: nat)
    requires size > 0
    ensures Sent(sockets, |sockets|, size) == sockets
  {
    if sockets != [] {
      SentIsPrefix(sockets, |sockets|, size);
      LeaderOf(|sockets| - 1, size);
      assert sockets[..|sockets|] == sockets;
    }
  }

  /** If it does divide, every leader hands over exactly a full group. */
  lemma FullGroups<T>(sockets: seq<T>, rank: nat, size: nat)
    requires size > 0 && rank < |sockets| && |sockets| % size == 0
    ensures |Handles(sockets, Leader(rank, size), size)| == size
  {
    hide Leader;
    LeaderOf(rank, size);
    GroupEnds(rank, |sockets|, size);
  }

  lemma GroupEnds(rank: nat, world: nat, size: nat)
    requires size > 0 && rank < world && world % size == 0
    ensures Leader(rank, size) + size <= world
  {
    var q, p := rank / size, world / size;
    assert world == p * size && rank == q * size + rank % size;
    OneMore(q, size);
    if p <= q {
      Scale(p, q, size);
    } else {
      Scale(q + 1, p, size);
    }
  }
}
