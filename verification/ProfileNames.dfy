/**
 The alias names kept on each profile, and the task that refreshes them while iterating over the very query its
 updates shrink.
 */
module ProfileNames {
  import opened Wrappers
  import opened KeysetIteration
  import FiniteSets

  datatype Profile = Profile(
    name: string,
    aliases: set<string>,
    names: set<string>,
    aliasUpdatedAt: Option<int>,
    namesUpdatedAt: Option<int>
  )

  type Table = map<Key, Profile>

  predicate RequiresNames(p: Profile) {
    p.aliasUpdatedAt.Some? && (p.namesUpdatedAt.None? || p.aliasUpdatedAt.value > p.namesUpdatedAt.value)
  }

  /** The profiles whose names are out of date. */
  function Outdated(t: Table): set<Key> {
    set k | k in t && RequiresNames(t[k])
  }

  /** A profile's other names are the distinct names of its aliases, without its own. */
  function Refreshed(p: Profile, now: int): Profile {
    p.(names := p.aliases - {p.name}, namesUpdatedAt := Some(now))
  }

  function Denormalised(t: Table, ids: seq<Key>, now: int): Table {
    map k | k in t :: if k in ids then Refreshed(t[k], now) else t[k]
  }

  /** Chunk after chunk, each at its own time. */
  function AfterChunks(t: Table, chunks: seq<seq<Key>>, clock: nat -> int): Table {
    if chunks == [] then t
    else
      var n := |chunks| - 1;
      Denormalised(AfterChunks(t, chunks[..n], clock), chunks[n], clock(n))
  }

  /** The names of the aliases other than the profile's own, the time, and nothing else. */
  ghost predicate HasNames(before: Profile, after: Profile, now: int) {
    && after.name == before.name && after.aliases == before.aliases && after.aliasUpdatedAt == before.aliasUpdatedAt
    && after.namesUpdatedAt == Some(now)
    && forall n :: n in after.names <==> n in before.aliases && n != before.name
  }

  ghost predicate NamesUpdated(before: Table, after: Table, ids: seq<Key>, now: int) {
    && after.Keys == before.Keys
    && forall k :: k in before ==> if k in ids then HasNames(before[k], after[k], now) else after[k] == before[k]
  }

  lemma DenormalisedNames(t: Table, ids: seq<Key>, now: int)
    ensures NamesUpdated(t, Denormalised(t, ids, now), ids, now)
  {
  }

  class ProfileManager {
    var profiles: Table

    constructor (rows: Table)
      ensures profiles == rows
    {
      profiles := rows;
    }

    method DenormAliasNames(ids: seq<Key>, now: int)
      modifies this
      ensures profiles == Denormalised(old(profiles), ids, now)
      ensures NamesUpdated(old(profiles), profiles, ids, now)
    {
      ghost var before := profiles;
      DenormalisedNames(before, ids, now);
      var i := 0;
      while i < |ids|
        invariant 0 <= i <= |ids|
        invariant profiles.Keys == before.Keys
        invariant forall k :: k in before ==> profiles[k] == if k in ids[..i] then WithNames(before[k]) else before[k]
      {
        assert ids[..i + 1] == ids[..i] + [ids[i]];
        if ids[i] in profiles {
          profiles := profiles[ids[i] := WithNames(profiles[ids[i]])];
        }
        i := i + 1;
      }
      assert ids[..i] == ids;
      ghost var named := profiles;
      profiles := map k | k in profiles :: if k in ids then profiles[k].(namesUpdatedAt := Some(now)) else profiles[k];
      forall k | k in before ensures profiles[k] == Denormalised(before, ids, now)[k] {
        assert named[k] == if k in ids then WithNames(before[k]) else before[k];
      }
      FiniteSets.MapsEqual(profiles, Denormalised(before, ids, now));
    }

    /** Refresh the names of all the profiles that need it, `chunkSize` at a time. */
    method DenormProfileNames(chunkSize: nat, clock: nat -> int) returns (chunks: seq<seq<Key>>)
      requires chunkSize > 0
      modifies this
      ensures VisitedAll(Concatenated(chunks), Outdated(old(profiles)))
      ensures profiles == AfterChunks(old(profiles), chunks, clock)
    {
      ghost var selected := Outdated(profiles);
      var last := 0;
      chunks := [];
      while true
        invariant last >= 0 && VisitedUpTo(Concatenated(chunks), selected, last)
        invariant Ahead(Outdated(profiles), selected, last)
        invariant profiles == AfterChunks(old(profiles), chunks, clock)
        decreases |Beyond(Outdated(profiles), last)|
      {
        ghost var before := profiles;
        var chunk := Least(Beyond(Outdated(profiles), last), chunkSize);
        VisitNext(Concatenated(chunks), selected, Outdated(profiles), last, chunkSize);
        ConcatenatedOneMore(chunks, chunk);
        ChunkOutdated(profiles, last, chunkSize);
        assert (chunks + [chunk])[..|chunks|] == chunks;
        DenormAliasNames(chunk, clock(|chunks|));
        OnlyChunkSettles(before, chunk, clock(|chunks|));
        chunks := chunks + [chunk];
        if |chunk| < chunkSize { break; }
        ghost var settled := Outdated(before) - Outdated(profiles);
        assert Outdated(profiles) == Outdated(before) - settled;
        RemovalsBehind(Outdated(before), selected, last, Concatenated(chunks), chunk[|chunk| - 1], settled);
        LessAhead(Outdated(before), last, Outdated(profiles), chunkSize);
        last := chunk[|chunk| - 1];
      }
    }
  }

  function WithNames(p: Profile): Profile {
    p.(names := p.aliases - {p.name})
  }

  lemma ChunkOutdated(t: Table, last: Key, n: nat)
    ensures forall k :: k in Least(Beyond(Outdated(t), last), n) ==> k in Outdated(t)
  {
    LeastFacts(Beyond(Outdated(t), last), n);
  }

  /** Refreshing out-of-date profiles takes some of them out of the query and brings none into it. */
  lemma OnlyChunkSettles(t: Table, ids: seq<Key>, now: int)
    requires forall k :: k in ids ==> k in Outdated(t)
    ensures Outdated(Denormalised(t, ids, now)) <= Outdated(t)
    ensures forall k :: k in Outdated(t) - Outdated(Denormalised(t, ids, now)) ==> k in ids
  {
    var after := Denormalised(t, ids, now);
    forall k | k in Outdated(after) ensures k in Outdated(t) {
      if k !in ids { assert after[k] == t[k]; }
    }
    forall k | k in Outdated(t) && k !in ids ensures k in Outdated(after) {
      assert after[k] == t[k];
    }
  }

  /** The chunk that brought a key. */
  ghost predicate BroughtBy(chunks: seq<seq<Key>>, k: Key, i: nat) {
    i < |chunks| && k in chunks[i]
  }

  lemma AscendingParts(xs: seq<Key>, ys: seq<Key>)
    requires Ascending(xs + ys)
    ensures Ascending(xs) && forall x, y :: x in xs && y in ys ==> x < y
  {
    var all := xs + ys;
    assert forall i :: 0 <= i < |xs| ==> all[i] == xs[i];
    assert forall j :: 0 <= j < |ys| ==> all[|xs| + j] == ys[j];
  }

  lemma {:induction false} BroughtOnce(chunks: seq<seq<Key>>, k: Key, i: nat)
    requires Ascending(Concatenated(chunks)) && BroughtBy(chunks, k, i)
    ensures k in Concatenated(chunks) && forall j: nat :: BroughtBy(chunks, k, j) ==> j == i
    decreases |chunks|
  {
    var n := |chunks| - 1;
    AscendingParts(Concatenated(chunks[..n]), chunks[n]);
    forall j: nat | j < n && BroughtBy(chunks, k, j)
      ensures BroughtBy(chunks[..n], k, j) && k in Concatenated(chunks[..n])
      ensures forall l: nat :: BroughtBy(chunks[..n], k, l) ==> l == j
    {
      assert chunks[..n][j] == chunks[j];
      BroughtOnce(chunks[..n], k, j);
    }
  }

  lemma {:induction false} UntouchedUnlessBrought(t: Table, chunks: seq<seq<Key>>, clock: nat -> int, k: Key)
    requires k in t && forall i: nat :: !BroughtBy(chunks, k, i)
    ensures AfterChunks(t, chunks, clock).Keys == t.Keys && AfterChunks(t, chunks, clock)[k] == t[k]
  {
    AfterChunksKeys(t, chunks, clock);
    if chunks != [] {
      var n := |chunks| - 1;
      AfterChunksKeys(t, chunks[..n], clock);
      assert !BroughtBy(chunks, k, n);
      forall i: nat ensures !BroughtBy(chunks[..n], k, i) {
        assert !BroughtBy(chunks, k, i);
      }
      UntouchedUnlessBrought(t, chunks[..n], clock, k);
    }
  }

  lemma {:induction false} RefreshedWhenLastBrought(t: Table, chunks: seq<seq<Key>>, clock: nat -> int, k: Key, i: nat)
    requires k in t && BroughtBy(chunks, k, i) && forall j: nat :: i < j ==> !BroughtBy(chunks, k, j)
    ensures AfterChunks(t, chunks, clock).Keys == t.Keys
    ensures AfterChunks(t, chunks, clock)[k] == Refreshed(t[k], clock(i))
  {
    var n := |chunks| - 1;
    AfterChunksKeys(t, chunks, clock);
    AfterChunksKeys(t, chunks[..n], clock);
    if i < n {
      assert !BroughtBy(chunks, k, n);
      forall j: nat | i < j ensures !BroughtBy(chunks[..n], k, j) {
        assert !BroughtBy(chunks, k, j);
      }
      RefreshedWhenLastBrought(t, chunks[..n], clock, k, i);
    } else {
      var before := AfterChunks(t, chunks[..n], clock);
      SameButForNames(t, chunks[..n], clock, k);
      assert Refreshed(before[k], clock(n)) == Refreshed(t[k], clock(n));
    }
  }

  /** Refreshing never touches a profile's own name, its aliases or their stamp. */
  lemma {:induction false} SameButForNames(t: Table, chunks: seq<seq<Key>>, clock: nat -> int, k: Key)
    requires k in t
    ensures AfterChunks(t, chunks, clock).Keys == t.Keys
    ensures var p := AfterChunks(t, chunks, clock)[k];
            p.(names := t[k].names, namesUpdatedAt := t[k].namesUpdatedAt) == t[k]
  {
    AfterChunksKeys(t, chunks, clock);
    if chunks != [] {
      AfterChunksKeys(t, chunks[..|chunks| - 1], clock);
      SameButForNames(t, chunks[..|chunks| - 1], clock, k);
    }
  }

  lemma {:induction false} BroughtBySome(chunks: seq<seq<Key>>, k: Key) returns (i: nat)
    requires k in Concatenated(chunks)
    ensures BroughtBy(chunks, k, i)
  {
    var n := |chunks| - 1;
    if k in chunks[n] {
      i := n;
    } else {
      i := BroughtBySome(chunks[..n], k);
    }
  }

  /**
   What one run of the task leaves: a profile that was out of date is refreshed in exactly one chunk, and stays
   out of date if and only if its alias was stamped after that chunk's time; every other profile is untouched.
   */
  lemma RefreshedOnce(t: Table, chunks: seq<seq<Key>>, clock: nat -> int, k: Key)
    requires VisitedAll(Concatenated(chunks), Outdated(t)) && k in t
    ensures AfterChunks(t, chunks, clock).Keys == t.Keys
    ensures k > 0 && RequiresNames(t[k])
            ==> exists i: nat :: BroughtBy(chunks, k, i)
                            && AfterChunks(t, chunks, clock)[k] == Refreshed(t[k], clock(i))
                            && (RequiresNames(AfterChunks(t, chunks, clock)[k])
                                <==> t[k].aliasUpdatedAt.value > clock(i))
    ensures !(k > 0 && RequiresNames(t[k])) ==> AfterChunks(t, chunks, clock)[k] == t[k]
  {
    AfterChunksKeys(t, chunks, clock);
    if k > 0 && RequiresNames(t[k]) {
      var i := BroughtBySome(chunks, k);
      BroughtOnce(chunks, k, i);
      RefreshedWhenLastBrought(t, chunks, clock, k, i);
    } else {
      forall i: nat ensures !BroughtBy(chunks, k, i) {
        if BroughtBy(chunks, k, i) {
          BroughtOnce(chunks, k, i);
          assert false;
        }
      }
      UntouchedUnlessBrought(t, chunks, clock, k);
    }
  }

  ghost predicate Monotone(clock: nat -> int) {
    forall i: nat, j: nat :: i <= j ==> clock(i) <= clock(j)
  }

  /** When no alias is stamped later than the start of the run, no profile with a positive key is left out of date. */
  lemma NoneLeftOutdated(t: Table, chunks: seq<seq<Key>>, clock: nat -> int)
    requires VisitedAll(Concatenated(chunks), Outdated(t)) && Monotone(clock)
    requires forall k :: k in t && t[k].aliasUpdatedAt.Some? ==> t[k].aliasUpdatedAt.value <= clock(0)
    ensures forall k :: k in Outdated(AfterChunks(t, chunks, clock)) ==> k <= 0
  {
    var after := AfterChunks(t, chunks, clock);
    AfterChunksKeys(t, chunks, clock);
    forall k | k in t && k > 0 ensures !RequiresNames(after[k]) {
      RefreshedOnce(t, chunks, clock, k);
      if RequiresNames(t[k]) {
        var i: nat :| BroughtBy(chunks, k, i) && (RequiresNames(after[k]) <==> t[k].aliasUpdatedAt.value > clock(i));
        assert clock(0) <= clock(i);
      }
    }
  }

  lemma {:induction false} AfterChunksKeys(t: Table, chunks: seq<seq<Key>>, clock: nat -> int)
    ensures AfterChunks(t, chunks, clock).Keys == t.Keys
  {
    if chunks != [] {
      AfterChunksKeys(t, chunks[..|chunks| - 1], clock);
    }
  }
}
