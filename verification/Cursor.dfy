/** Discovery chunks and the cursor over them (audit_agent/methodology/cursor.py). The chunk digest is a function value
    that is injective where a result needs it. */
module Cursor {
  import opened Options
  import opened Sorting

  const CHUNK_SIZE := 32

  type Digest = (int, seq<string>) -> string

  datatype Chunk = Chunk(id: string, paths: seq<string>)

  function Slashed(p: string): string {
    if p == "" then "" else [if p[0] == '\\' then '/' else p[0]] + Slashed(p[1..])
  }

  function Same(p: string): string { p }

  function AllSlashed(paths: seq<string>): (r: seq<string>)
    ensures |r| == |paths|
  {
    seq(|paths|, i requires 0 <= i < |paths| => Slashed(paths[i]))
  }

  /** The listing in the order that chunks are cut from. */
  function Ordered(paths: seq<string>): seq<string> {
    SortBy(AllSlashed(paths), Same)
  }

  // ---- partition ---------------------------------------------------------

  /** The `k`-th slice of 32. */
  function Slice(xs: seq<string>, k: nat): seq<string>
    requires 32 * k <= |xs|
  {
    if 32 * k + 32 <= |xs| then xs[32 * k..32 * k + 32] else xs[32 * k..]
  }

  function ChunkCount(n: nat): nat {
    (n + 31) / 32
  }

  /** `chunk_id_for`: the digest of the revision and the sorted paths. */
  function ChunkId(digest: Digest, revision: int, paths: seq<string>): string {
    digest(revision, Ordered(paths))
  }

  predicate IsPartition(digest: Digest, revision: int, xs: seq<string>, cs: seq<Chunk>) {
    && |cs| == ChunkCount(|xs|)
    && forall k | 0 <= k < |cs| ::
         32 * k < |xs| && cs[k] == Chunk(ChunkId(digest, revision, Slice(xs, k)), Slice(xs, k))
  }

  /** `partition_chunks`. */
  method PartitionChunks(paths: seq<string>, digest: Digest, revision: int) returns (cs: seq<Chunk>)
    ensures IsPartition(digest, revision, Ordered(paths), cs)
  {
    hide Ordered;
    var ordered := Ordered(paths);
    cs := [];
    var i := 0;
    while i < |ordered|
      invariant i == 32 * |cs| && |cs| <= ChunkCount(|ordered|)
      invariant forall k | 0 <= k < |cs| ::
          32 * k < |ordered| && cs[k] == Chunk(ChunkId(digest, revision, Slice(ordered, k)), Slice(ordered, k))
    {
      var group := if i + CHUNK_SIZE <= |ordered| then ordered[i..i + CHUNK_SIZE] else ordered[i..];
      assert group == Slice(ordered, |cs|);
      cs := cs + [Chunk(ChunkId(digest, revision, group), group)];
      i := i + CHUNK_SIZE;
    }
  }

  function Flatten(cs: seq<Chunk>): seq<string> {
    if cs == [] then [] else Flatten(cs[..|cs| - 1]) + cs[|cs| - 1].paths
  }

  lemma SliceFollows(xs: seq<string>, k: nat)
    requires 32 * k < |xs|
    ensures xs[..32 * k] + Slice(xs, k) == if 32 * k + 32 <= |xs| then xs[..32 * k + 32] else xs
  {
  }

  /** The first `k` chunks hold the first paths, in order. */
  lemma {:induction false} PrefixOfPartition(digest: Digest, revision: int, xs: seq<string>, cs: seq<Chunk>, k: nat)
    requires IsPartition(digest, revision, xs, cs) && k <= |cs|
    ensures Flatten(cs[..k]) == if 32 * k <= |xs| then xs[..32 * k] else xs
  {
    hide ChunkId;
    if k > 0 {
      PrefixOfPartition(digest, revision, xs, cs, k - 1);
      assert cs[..k][..k - 1] == cs[..k - 1];
      assert cs[k - 1].paths == Slice(xs, k - 1);
      SliceFollows(xs, k - 1);
    }
  }

  /** Cutting loses nothing and adds nothing: the chunks in order are the sorted listing. */
  lemma PartitionIsTheListing(digest: Digest, revision: int, xs: seq<string>, cs: seq<Chunk>)
    requires IsPartition(digest, revision, xs, cs)
    ensures Flatten(cs) == xs
    ensures forall k | 0 <= k < |cs| :: 1 <= |cs[k].paths| <= 32 && (k < |cs| - 1 ==> |cs[k].paths| == 32)
  {
    hide ChunkId;
    PrefixOfPartition(digest, revision, xs, cs, |cs|);
    assert cs[..|cs|] == cs;
  }

  // ---- the cursor --------------------------------------------------------

  /** `first_uncommitted_chunk`. */
  method FirstUncommitted(paths: seq<string>, committed: set<string>, digest: Digest, revision: int)
    returns (next: Option<Chunk>, ghost cs: seq<Chunk>, ghost at: nat)
    ensures IsPartition(digest, revision, Ordered(paths), cs)
    ensures at <= |cs| && forall k | 0 <= k < at :: cs[k].id in committed
    ensures next.None? ==> at == |cs|
    ensures next.Some? ==> at < |cs| && next.value == cs[at] && cs[at].id !in committed
  {
    hide Ordered, IsPartition;
    var chunks := PartitionChunks(paths, digest, revision);
    cs := chunks;
    at := 0;
    for i := 0 to |chunks|
      invariant at == i && forall k | 0 <= k < i :: chunks[k].id in committed
    {
      if chunks[i].id !in committed {
        return Some(chunks[i]), cs, at;
      }
      at := at + 1;
    }
    next := None;
  }

  ghost predicate Injective(digest: Digest) {
    forall r, s, p, q :: digest(r, p) == digest(s, q) ==> r == s && p == q
  }

  ghost predicate Distinct(xs: seq<string>) {
    forall i, j | 0 <= i < j < |xs| :: xs[i] != xs[j]
  }

  lemma SliceMembers(xs: seq<string>, k: nat)
    requires 32 * k < |xs|
    ensures xs[32 * k] in Slice(xs, k)
    ensures forall x | x in Slice(xs, k) :: exists i :: 32 * k <= i < 32 * k + 32 && i < |xs| && xs[i] == x
  {
    assert Slice(xs, k)[0] == xs[32 * k];
    forall x | x in Slice(xs, k) ensures exists i :: 32 * k <= i < 32 * k + 32 && i < |xs| && xs[i] == x {
      var j :| 0 <= j < |Slice(xs, k)| && Slice(xs, k)[j] == x;
      assert xs[32 * k + j] == x;
    }
  }

  ghost predicate Clean(xs: seq<string>) {
    forall x | x in xs :: Slashed(x) == x
  }

  /** Only the separators change. */
  lemma {:induction false} SlashedIs(p: string)
    ensures |Slashed(p)| == |p|
    ensures forall k | 0 <= k < |p| :: Slashed(p)[k] == if p[k] == '\\' then '/' else p[k]
  {
    if p != "" {
      SlashedIs(p[1..]);
    }
  }

  lemma {:induction false} SlashedTwice(p: string)
    ensures Slashed(Slashed(p)) == Slashed(p)
  {
    if p != "" {
      SlashedTwice(p[1..]);
      assert Slashed(p)[1..] == Slashed(p[1..]);
    }
  }

  lemma OrderedIsClean(paths: seq<string>)
    ensures Clean(Ordered(paths))
  {
    hide SortBy, Slashed;
    SortByMembers(AllSlashed(paths), Same);
    forall x | x in AllSlashed(paths) ensures Slashed(x) == x {
      var i :| 0 <= i < |paths| && x == Slashed(paths[i]);
      SlashedTwice(paths[i]);
    }
  }

  lemma OrderedMembers(xs: seq<string>)
    requires Clean(xs)
    ensures forall x :: x in Ordered(xs) <==> x in xs
  {
    hide SortBy, Slashed;
    assert AllSlashed(xs) == xs;
    SortByMembers(xs, Same);
  }

  /** Distinct paths and an injective digest give every chunk its own id. */
  lemma ChunkIdsDiffer(digest: Digest, revision: int, xs: seq<string>, cs: seq<Chunk>, j: nat, k: nat)
    requires Injective(digest) && Distinct(xs) && Clean(xs)
    requires IsPartition(digest, revision, xs, cs) && j < k < |cs|
    ensures cs[j].id != cs[k].id
  {
    hide Slashed, Ordered;
    if cs[j].id == cs[k].id {
      var p, q := Slice(xs, j), Slice(xs, k);
      assert digest(revision, Ordered(p)) == digest(revision, Ordered(q));
      assert Ordered(p) == Ordered(q);
      SliceMembers(xs, j);
      SliceMembers(xs, k);
      OrderedMembers(p);
      OrderedMembers(q);
    }
  }

  /** Chunks cut at another revision share no id with these. */
  lemma NewRevisionStartsOver(digest: Digest, r: int, s: int, xs: seq<string>, ys: seq<string>,
                              cs: seq<Chunk>, ds: seq<Chunk>)
    requires Injective(digest) && r != s && IsPartition(digest, r, xs, cs) && IsPartition(digest, s, ys, ds)
    ensures forall j, k | 0 <= j < |cs| && 0 <= k < |ds| :: cs[j].id != ds[k].id
  {
    hide Ordered, Slice;
    forall j, k | 0 <= j < |cs| && 0 <= k < |ds| ensures cs[j].id != ds[k].id {
      assert cs[j].id == digest(r, Ordered(Slice(xs, j))) && ds[k].id == digest(s, Ordered(Slice(ys, k)));
    }
  }

  lemma PartitionIsUnique(digest: Digest, revision: int, xs: seq<string>, cs: seq<Chunk>, ds: seq<Chunk>)
    requires IsPartition(digest, revision, xs, cs) && IsPartition(digest, revision, xs, ds)
    ensures cs == ds
  {
  }

  function Ids(cs: seq<Chunk>): set<string> {
    set c | c in cs :: c.id
  }

  lemma CommittedIds(cs: seq<Chunk>, n: nat)
    requires n <= |cs|
    ensures forall k | 0 <= k < n :: cs[k].id in Ids(cs[..n])
  {
    assert forall k | 0 <= k < n :: cs[k] in cs[..n];
  }

  lemma IdAt(cs: seq<Chunk>, n: nat, id: string) returns (j: nat)
    requires n <= |cs| && id in Ids(cs[..n])
    ensures j < n && cs[j].id == id
  {
    var c :| c in cs[..n] && c.id == id;
    j :| 0 <= j < n && cs[..n][j] == c;
  }

  /** With the first `n` chunks committed, the cursor stands at chunk `n`. */
  lemma CursorStandsAt(digest: Digest, revision: int, xs: seq<string>, cs: seq<Chunk>, n: nat, at: nat)
    requires Injective(digest) && Distinct(xs) && Clean(xs) && IsPartition(digest, revision, xs, cs)
    requires n <= |cs| && at <= |cs|
    requires forall k | 0 <= k < at :: cs[k].id in Ids(cs[..n])
    requires at < |cs| ==> cs[at].id !in Ids(cs[..n])
    ensures at == n
  {
    hide IsPartition, Slashed, Ordered, Injective, Distinct, Clean, Ids;
    CommittedIds(cs, n);
    if n < at {
      var j := IdAt(cs, n, cs[n].id);
      ChunkIdsDiffer(digest, revision, xs, cs, j, n);
    }
  }

  /** A discovery campaign: take the first uncommitted chunk, commit it, repeat until there is none. Every path of the
      sorted listing is visited once, in order, in one step for every 32 paths or part of 32. */
  method Drain(paths: seq<string>, digest: Digest, revision: int) returns (visited: seq<string>, steps: nat)
    requires Injective(digest) && Distinct(AllSlashed(paths))
    ensures visited == Ordered(paths) && steps == ChunkCount(|paths|)
  {
    hide Ordered, IsPartition, Slashed, Injective, Distinct, Clean, Ids, Flatten;
    ghost var xs := Ordered(paths);
    OrderedIsClean(paths);
    OrderedIsDistinct(paths);
    visited, steps := [], 0;
    var committed: set<string> := {};
    ghost var cs := PartitionExists(digest, revision, xs);
    NoIds();
    while true
      invariant IsPartition(digest, revision, xs, cs) && steps <= |cs|
      invariant committed == Ids(cs[..steps]) && visited == Flatten(cs[..steps])
      decreases |cs| - steps
    {
      var next, ds, at := FirstUncommitted(paths, committed, digest, revision);
      PartitionIsUnique(digest, revision, xs, cs, ds);
      CursorStandsAt(digest, revision, xs, cs, steps, at);
      if next.None? {
        break;
      }
      OneMoreChunk(cs, steps);
      visited, committed, steps := visited + next.value.paths, committed + {next.value.id}, steps + 1;
    }
    assert cs[..steps] == cs;
    PartitionIsTheListing(digest, revision, xs, cs);
    CountOf(digest, revision, paths, cs);
  }

  lemma OrderedIsDistinct(paths: seq<string>)
    requires Distinct(AllSlashed(paths))
    ensures Distinct(Ordered(paths)) && |Ordered(paths)| == |paths|
  {
    hide Slashed, SortBy;
    SortByDistinct(AllSlashed(paths), Same);
    SortByMembers(AllSlashed(paths), Same);
  }

  lemma CountOf(digest: Digest, revision: int, paths: seq<string>, cs: seq<Chunk>)
    requires IsPartition(digest, revision, Ordered(paths), cs)
    ensures |cs| == ChunkCount(|paths|)
  {
    hide SortBy, Slashed;
    SortByMembers(AllSlashed(paths), Same);
  }

  lemma NoIds()
    ensures Ids([]) == {} && Flatten([]) == []
  {
  }

  lemma OneMoreChunk(cs: seq<Chunk>, n: nat)
    requires n < |cs|
    ensures Ids(cs[..n + 1]) == Ids(cs[..n]) + {cs[n].id}
    ensures Flatten(cs[..n + 1]) == Flatten(cs[..n]) + cs[n].paths
  {
    assert cs[..n + 1] == cs[..n] + [cs[n]];
    assert cs[..n + 1][..n] == cs[..n];
  }

  lemma PartitionExists(digest: Digest, revision: int, xs: seq<string>) returns (cs: seq<Chunk>)
    ensures IsPartition(digest, revision, xs, cs)
  {
    cs := seq(ChunkCount(|xs|), k requires 0 <= k < ChunkCount(|xs|) =>
      Chunk(ChunkId(digest, revision, Slice(xs, k)), Slice(xs, k)));
  }
}
