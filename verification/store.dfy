/**
 * `PointerSet` of search.cpp: a hash-bucketed set of state references whose
 * membership test compares the states referred to, not the references. The
 * references are indices into an arena of states.
 */
module Store {
  import opened Wrappers
  import opened Grid
  import opened Puzzle

  /** Buckets of arena indices, keyed by the hash of the state they refer to. */
  datatype PointerSet = PointerSet(data: map<int, seq<nat>>)

  /** The set as the constructor leaves it. */
  function EmptySet(): (r: PointerSet)
    ensures Members(r) == {}
    ensures forall arena, hash :: Valid(r, arena, hash)
  {
    PointerSet(map[])
  }

  /** Every index stored in some bucket. */
  ghost function Members(p: PointerSet): set<nat>
  {
    set h, i | h in p.data && i in p.data[h] :: i
  }

  /**
   * Each bucket holds well-formed states of the arena that hash to its key,
   * no two of them equal.
   */
  ghost predicate Valid(p: PointerSet, arena: seq<Game>, hash: Game -> int)
  {
    forall h :: h in p.data ==> BucketValid(p.data[h], h, arena, hash)
  }

  ghost predicate BucketValid(bucket: seq<nat>, h: int, arena: seq<Game>, hash: Game -> int)
  {
    && (forall k :: 0 <= k < |bucket| ==> bucket[k] < |arena| && WellFormed(arena[bucket[k]].board) && hash(arena[bucket[k]]) == h)
    && (forall k, l :: 0 <= k < l < |bucket| ==> arena[bucket[k]] != arena[bucket[l]])
  }

  /** The stored states are pairwise different values. */
  lemma ValidMeansDistinct(p: PointerSet, arena: seq<Game>, hash: Game -> int, i: nat, j: nat)
    requires Valid(p, arena, hash) && i in Members(p) && j in Members(p) && i != j
    ensures i < |arena| && j < |arena| && arena[i] != arena[j]
  {
    var hi :| hi in p.data && i in p.data[hi];
    var hj :| hj in p.data && j in p.data[hj];
    var k :| 0 <= k < |p.data[hi]| && p.data[hi][k] == i;
    var l :| 0 <= l < |p.data[hj]| && p.data[hj][l] == j;
    if hi == hj {
      if k > l {
        assert arena[p.data[hi][l]] != arena[p.data[hi][k]];
      }
    }
  }

  /** Appending states to the arena keeps a set valid. */
  lemma ValidExtends(p: PointerSet, arena: seq<Game>, more: seq<Game>, hash: Game -> int)
    requires Valid(p, arena, hash)
    ensures Valid(p, arena + more, hash)
  {
    forall h | h in p.data
      ensures BucketValid(p.data[h], h, arena + more, hash)
    {
      var b := p.data[h];
      assert forall k :: 0 <= k < |b| ==> (arena + more)[b[k]] == arena[b[k]];
    }
  }

  /** The linear equality scan over one bucket. */
  function ScanBucket(bucket: seq<nat>, arena: seq<Game>, obj: Game): (r: Option<nat>)
    requires forall i :: i in bucket ==> i < |arena| && WellFormed(arena[i].board)
    requires WellFormed(obj.board)
    ensures r.Some? ==> r.value in bucket && arena[r.value] == obj
    ensures r.None? <==> forall i :: i in bucket ==> arena[i] != obj
  {
    if |bucket| == 0 then None
    else
      assert bucket[0] in bucket;
      if GameEqual(arena[bucket[0]], obj) then Some(bucket[0])
      else
        assert forall i :: i in bucket <==> i == bucket[0] || i in bucket[1..];
        ScanBucket(bucket[1..], arena, obj)
  }

  /** `find`: a stored reference to a state equal to `obj`, or none (null). */
  function Find(p: PointerSet, arena: seq<Game>, hash: Game -> int, obj: Game): (r: Option<nat>)
    requires Valid(p, arena, hash) && WellFormed(obj.board)
    ensures r.Some? ==> r.value in Members(p) && r.value < |arena| && arena[r.value] == obj
    ensures r.None? <==> forall i :: i in Members(p) ==> i >= |arena| || arena[i] != obj
  {
    var h := hash(obj);
    NotStored(p, arena, hash, obj);
    if h !in p.data then None else ScanBucket(p.data[h], arena, obj)
  }

  /** A state absent from its own bucket is absent from the set. */
  lemma NotStored(p: PointerSet, arena: seq<Game>, hash: Game -> int, obj: Game)
    requires Valid(p, arena, hash)
    ensures (hash(obj) in p.data ==> forall i :: i in p.data[hash(obj)] && i < |arena| ==> arena[i] != obj) ==>
      forall i :: i in Members(p) ==> i >= |arena| || arena[i] != obj
  {
    forall i | (hash(obj) in p.data ==> forall i :: i in p.data[hash(obj)] && i < |arena| ==> arena[i] != obj) && i in Members(p) && i < |arena|
      ensures arena[i] != obj
    {
      var h :| h in p.data && i in p.data[h];
      var k :| 0 <= k < |p.data[h]| && p.data[h][k] == i;
    }
  }

  /** `count`: 1 when a state equal to `obj` is stored, else 0. */
  function Count(p: PointerSet, arena: seq<Game>, hash: Game -> int, obj: Game): (r: nat)
    requires Valid(p, arena, hash) && WellFormed(obj.board)
    ensures r <= 1
    ensures r == 1 <==> exists i :: i in Members(p) && i < |arena| && arena[i] == obj
  {
    if Find(p, arena, hash, obj).None? then 0 else 1
  }

  /**
   * `insert`: add the reference `i` unless a state equal to `arena[i]` is
   * already stored, in which case nothing changes.
   */
  function Insert(p: PointerSet, arena: seq<Game>, hash: Game -> int, i: nat): (r: PointerSet)
    requires Valid(p, arena, hash) && i < |arena| && WellFormed(arena[i].board)
    ensures Valid(r, arena, hash)
    ensures Count(p, arena, hash, arena[i]) == 1 ==> r == p
    ensures Count(p, arena, hash, arena[i]) == 0 ==> Members(r) == Members(p) + {i}
    ensures Find(r, arena, hash, arena[i]).Some?
  {
    var h := hash(arena[i]);
    if Count(p, arena, hash, arena[i]) == 1 then p
    else
      var bucket := if h in p.data then p.data[h] else [];
      var r := PointerSet(p.data[h := bucket + [i]]);
      InsertFacts(p, arena, hash, i, r);
      r
  }

  lemma InsertFacts(p: PointerSet, arena: seq<Game>, hash: Game -> int, i: nat, r: PointerSet)
    requires Valid(p, arena, hash) && i < |arena| && WellFormed(arena[i].board)
    requires Count(p, arena, hash, arena[i]) == 0
    requires r == PointerSet(p.data[hash(arena[i]) := (if hash(arena[i]) in p.data then p.data[hash(arena[i])] else []) + [i]])
    ensures Valid(r, arena, hash)
    ensures Members(r) == Members(p) + {i}
    ensures Find(r, arena, hash, arena[i]).Some?
  {
    var h := hash(arena[i]);
    var bucket := if h in p.data then p.data[h] else [];
    var nb := bucket + [i];
    assert forall j :: j in bucket ==> j in Members(p);
    assert BucketValid(nb, h, arena, hash) by {
      forall k, l | 0 <= k < l < |nb|
        ensures arena[nb[k]] != arena[nb[l]]
      {
        if l == |nb| - 1 {
          assert nb[k] in bucket;
        } else {
          assert nb[k] == bucket[k] && nb[l] == bucket[l];
        }
      }
    }
    assert i in r.data[h];
    forall j | j in Members(r)
      ensures j in Members(p) + {i}
    {
      var h' :| h' in r.data && j in r.data[h'];
      if h' == h && j != i {
        assert j in bucket;
      }
    }
    forall j | j in Members(p) + {i}
      ensures j in Members(r)
    {
      if j != i {
        var h' :| h' in p.data && j in p.data[h'];
        if h' == h {
          assert j in r.data[h];
        } else {
          assert j in r.data[h'];
        }
      }
    }
  }
}
