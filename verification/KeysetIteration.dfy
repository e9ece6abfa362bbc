/**
 Iterating over a query by key in bounded chunks while the consumer changes the very rows the query selects.
 */
module KeysetIteration {
  import FiniteSets

  type Key = int

  ghost predicate Ascending(keys: seq<Key>) {
    forall i, j :: 0 <= i < j < |keys| ==> keys[i] < keys[j]
  }

  /** The n least keys in order: ORDER BY key LIMIT n. */
  function Least(s: set<Key>, n: nat): seq<Key> {
    if s == {} || n == 0 then []
    else
      var first := FiniteSets.Min(s);
      [first] + Least(s - {first}, n - 1)
  }

  function Beyond(s: set<Key>, last: Key): (r: set<Key>)
    ensures r <= s
  {
    set k | k in s && k > last
  }

  lemma {:induction false} LeastFacts(s: set<Key>, n: nat)
    ensures Ascending(Least(s, n)) && forall k :: k in Least(s, n) ==> k in s
    ensures |Least(s, n)| == if |s| < n then |s| else n
    ensures forall k, l :: k in s && k !in Least(s, n) && l in Least(s, n) ==> l < k
    ensures |Least(s, n)| < n ==> forall k :: k in s ==> k in Least(s, n)
  {
    LeastMembers(s, n);
    LeastAscends(s, n);
    LeastPrecede(s, n);
  }

  lemma {:induction false} LeastMembers(s: set<Key>, n: nat)
    ensures forall k :: k in Least(s, n) ==> k in s
    ensures |Least(s, n)| == if |s| < n then |s| else n
    ensures |Least(s, n)| < n ==> forall k :: k in s ==> k in Least(s, n)
  {
    if s != {} && n != 0 {
      LeastMembers(s - {FiniteSets.Min(s)}, n - 1);
    }
  }

  lemma {:induction false} LeastAscends(s: set<Key>, n: nat)
    ensures Ascending(Least(s, n))
  {
    if s != {} && n != 0 {
      var first := FiniteSets.Min(s);
      var rest := Least(s - {first}, n - 1);
      LeastMembers(s - {first}, n - 1);
      LeastAscends(s - {first}, n - 1);
      forall i | 0 <= i < |rest| ensures first < rest[i] {
        assert rest[i] in rest && rest[i] in s - {first};
      }
    }
  }

  lemma {:induction false} LeastPrecede(s: set<Key>, n: nat)
    ensures forall k, l :: k in s && k !in Least(s, n) && l in Least(s, n) ==> l < k
  {
    if s != {} && n != 0 {
      LeastPrecede(s - {FiniteSets.Min(s)}, n - 1);
    }
  }

  /** The last key of a chunk is the greatest, and nothing selected lies between the chunk and what follows. */
  lemma ChunkFacts(s: set<Key>, last: Key, n: nat, k: Key)
    requires n > 0
    ensures var chunk := Least(Beyond(s, last), n);
            && (chunk != [] ==> last < chunk[|chunk| - 1])
            && (k in chunk <==> k in s && last < k && (|chunk| == n ==> k <= chunk[n - 1]))
  {
    var all := Beyond(s, last);
    var chunk := Least(all, n);
    LeastFacts(all, n);
    if chunk != [] {
      assert chunk[|chunk| - 1] in chunk;
      if k in chunk {
        var i :| 0 <= i < |chunk| && chunk[i] == k;
        assert k <= chunk[|chunk| - 1];
      }
    }
  }

  /** Exactly the selected keys from 1 to `last` have been visited, in order. */
  ghost predicate VisitedUpTo(visited: seq<Key>, selected: set<Key>, last: Key) {
    Ascending(visited) && forall k :: k in visited <==> k in selected && 0 < k <= last
  }

  ghost predicate VisitedAll(visited: seq<Key>, selected: set<Key>) {
    Ascending(visited) && forall k :: k in visited <==> k in selected && 0 < k
  }

  /** Nothing beyond `last` has left the query, and nothing has joined it. */
  ghost predicate Ahead(live: set<Key>, selected: set<Key>, last: Key) {
    live <= selected && forall k :: k in selected && k > last ==> k in live
  }

  /** Reading the next chunk extends what was visited; a short chunk completes it. */
  lemma VisitNext(visited: seq<Key>, selected: set<Key>, live: set<Key>, last: Key, n: nat)
    requires n > 0 && last >= 0
    requires VisitedUpTo(visited, selected, last) && Ahead(live, selected, last)
    ensures var chunk := Least(Beyond(live, last), n);
            && |chunk| <= n
            && (|chunk| == n ==> chunk[n - 1] > last && VisitedUpTo(visited + chunk, selected, chunk[n - 1]))
            && (|chunk| < n ==> VisitedAll(visited + chunk, selected))
  {
    var chunk := Least(Beyond(live, last), n);
    LeastFacts(Beyond(live, last), n);
    forall k
      ensures k in chunk <==> k in live && last < k && (|chunk| == n ==> k <= chunk[n - 1])
      ensures chunk != [] ==> last < chunk[|chunk| - 1]
    {
      ChunkFacts(live, last, n, k);
    }
    ChunkAppended(visited, chunk, last);
  }

  /** What a chunk reaches past no longer counts towards what lies ahead. */
  lemma LessAhead(before: set<Key>, last: Key, after: set<Key>, n: nat)
    requires n > 0 && after <= before && |Least(Beyond(before, last), n)| == n
    ensures |Beyond(after, Least(Beyond(before, last), n)[n - 1])| < |Beyond(before, last)|
  {
    var chunk := Least(Beyond(before, last), n);
    var next := chunk[n - 1];
    ChunkFacts(before, last, n, next);
    assert next in chunk;
    FiniteSets.SubsetSize(Beyond(after, next) + {next}, Beyond(before, last));
  }

  /** What the consumer removes behind the chunk's end leaves the rows ahead alone. */
  lemma RemovalsBehind(live: set<Key>, selected: set<Key>, last: Key, visited: seq<Key>, next: Key, removed: set<Key>)
    requires Ahead(live, selected, last) && last <= next && VisitedUpTo(visited, selected, next)
    requires forall k :: k in removed ==> k in visited
    ensures Ahead(live - removed, selected, next)
  {
  }

  /**
   Visit the positive keys a query selects, chunk by chunk.  After each chunk the consumer removes some rows it
   has been given; every positive key is visited exactly once all the same, in increasing order.
   */
  method IterateQueryset(selected: set<Key>, chunkSize: nat, removals: nat -> set<Key>)
    returns (chunks: seq<seq<Key>>, visited: seq<Key>)
    requires chunkSize > 0
    ensures VisitedAll(visited, selected) && visited == Concatenated(chunks)
    ensures chunks != [] && |chunks[|chunks| - 1]| < chunkSize
    ensures forall i :: 0 <= i < |chunks| - 1 ==> |chunks[i]| == chunkSize
  {
    var live, last := selected, 0;
    chunks, visited := [], [];
    while true
      invariant last >= 0 && VisitedUpTo(visited, selected, last) && Ahead(live, selected, last)
      invariant visited == Concatenated(chunks)
      invariant forall i :: 0 <= i < |chunks| ==> |chunks[i]| == chunkSize
      decreases |Beyond(live, last)|
    {
      var chunk := Least(Beyond(live, last), chunkSize);
      VisitNext(visited, selected, live, last, chunkSize);
      ConcatenatedOneMore(chunks, chunk);
      chunks, visited := chunks + [chunk], visited + chunk;
      var removed := FiniteSets.SetOf(visited) * removals(|chunks|);
      if |chunk| < chunkSize { break; }
      RemovalsBehind(live, selected, last, visited, chunk[|chunk| - 1], removed);
      LessAhead(live, last, live - removed, chunkSize);
      live, last := live - removed, chunk[|chunk| - 1];
    }
  }

  function Concatenated(chunks: seq<seq<Key>>): seq<Key> {
    if chunks == [] then [] else Concatenated(chunks[..|chunks| - 1]) + chunks[|chunks| - 1]
  }

  lemma ConcatenatedOneMore(chunks: seq<seq<Key>>, chunk: seq<Key>)
    ensures Concatenated(chunks + [chunk]) == Concatenated(chunks) + chunk
  {
    assert (chunks + [chunk])[..|chunks|] == chunks;
  }

  lemma ChunkAppended(visited: seq<Key>, chunk: seq<Key>, last: Key)
    requires Ascending(visited) && Ascending(chunk)
    requires (forall k :: k in visited ==> k <= last) && (forall k :: k in chunk ==> last < k)
    ensures Ascending(visited + chunk)
  {
    var all := visited + chunk;
    forall i, j | 0 <= i < j < |all| ensures all[i] < all[j] {
      if i < |visited| { assert visited[i] in visited; }
      if j >= |visited| { assert chunk[j - |visited|] in chunk; }
    }
  }
}
