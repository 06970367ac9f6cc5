/** The id-allocating, id-recycling table shared by `querySrv` and
    `filterSrv`: `list` maps each id to its record, `ids` holds the live ids in
    the order they were added, `idQueue` the released ids in ascending order.
    The functions here are the state transitions the services' methods make;
    `Valid` is the invariant the lemmas show they keep. */
module Registry {
  import opened Values
  import opened Seqs

  datatype Table = Table(list: map<nat, Record>, ids: seq<nat>, idQueue: seq<nat>)

  /** The slice every service starts from: `{idQueue: [], list: {}, ids: []}`. */
  const Empty := Table(map[], [], [])

  /** Live ids are distinct and are exactly the keys of `list`; released ids
      are ascending and not live; together they are `0 .. |ids|+|idQueue|-1`. */
  ghost predicate Valid(t: Table)
    ensures Valid(t) ==> forall k :: k in t.idQueue ==> k !in t.list
  {
    && NoDup(t.ids)
    && StrictlyAscending(t.idQueue)
    && (forall k :: k in t.list <==> k in t.ids)
    && (forall k :: k in t.ids ==> k !in t.idQueue)
    && (forall k: nat :: k < |t.ids| + |t.idQueue| <==> k in t.ids || k in t.idQueue)
  }

  /** `nextId()`: the first queued id, else the number of live ids. */
  function NextId(t: Table): nat
  {
    if t.idQueue != [] then t.idQueue[0] else |t.ids|
  }

  /** The table after `nextId()` has shifted the queue. */
  function Minted(t: Table): (u: Table)
    ensures u.list == t.list && u.ids == t.ids
    ensures t.idQueue != [] ==> u.idQueue == t.idQueue[1..]
    ensures t.idQueue == [] ==> u.idQueue == []
  {
    if t.idQueue != [] then t.(idQueue := t.idQueue[1..]) else t
  }

  /** `list[id] = rec; ids.push(id)`. */
  function Stored(t: Table, id: nat, rec: Record): (u: Table)
    ensures u.list == t.list[id := rec] && u.ids == t.ids + [id] && u.idQueue == t.idQueue
  {
    t.(list := t.list[id := rec], ids := t.ids + [id])
  }

  /** An id-less `set`: mint an id and store `rec(id)` under it. */
  function Added(t: Table, rec: Record): (u: Table)
    ensures u.list == t.list[NextId(t) := rec] && u.ids == t.ids + [NextId(t)]
    ensures t.idQueue != [] ==> NextId(t) == t.idQueue[0] && u.idQueue == t.idQueue[1..]
    ensures t.idQueue == [] ==> NextId(t) == |t.ids| && u.idQueue == []
  {
    Stored(Minted(t), NextId(t), rec)
  }

  /** `_.extend(list[id], fields)` on a present id. */
  function Merged(t: Table, id: nat, fields: Record): (u: Table)
    requires id in t.list
    ensures u.ids == t.ids && u.idQueue == t.idQueue
    ensures u.list.Keys == t.list.Keys
    ensures u.list[id] == Extend(t.list[id], fields)
    ensures forall k :: k in t.list && k != id ==> u.list[k] == t.list[k]
  {
    t.(list := t.list[id := Extend(t.list[id], fields)])
  }

  /** `idQueue.unshift(id); idQueue.sort(...)`. */
  function Requeued(q: seq<nat>, id: nat): (r: seq<nat>)
    ensures multiset(r) == multiset(q) + multiset{id}
    ensures Sorted(r)
  {
    var r := SortAsc([id] + q);
    assert forall i :: 0 <= i < |r| ==> r[i] >= 0 by {
      forall i | 0 <= i < |r| ensures r[i] >= 0 {
        assert r[i] in multiset([id] + q);
        assert r[i] in [id] + q;
      }
    }
    assert multiset([id] + q) == multiset{id} + multiset(q);
    r
  }

  /** Putting a released id back keeps the queue ascending and duplicate-free. */
  lemma RequeuedAscending(q: seq<nat>, id: nat)
    requires StrictlyAscending(q) && id !in q
    ensures StrictlyAscending(Requeued(q, id))
    ensures |Requeued(q, id)| == |q| + 1
    ensures forall k :: k in Requeued(q, id) <==> k == id || k in q
  {
    var s := [id] + q;
    var r := Requeued(q, id);
    assert NoDup(s) by {
      forall i, j | 0 <= i < j < |s| ensures s[i] != s[j] {
        assert s[j] == q[j - 1] && s[j] in q;
        if i > 0 { assert s[i] == q[i - 1]; }
      }
    }
    assert r == SortAsc(s);
    assert |r| == |multiset(r)| == |multiset(s)| == |s|;
    forall k ensures k in r <==> k == id || k in q {
      assert k in r <==> k in multiset(r);
      assert k in q <==> k in multiset(q);
    }
  }

  /** `remove(id)`: on a present id, delete it, drop it from `ids`, and put it
      back on the queue; otherwise nothing. */
  function Released(t: Table, id: nat): (u: Table)
    ensures id !in t.list ==> u == t
    ensures forall k :: k in u.list <==> k in t.list && k != id
    ensures forall k :: k in u.list ==> u.list[k] == t.list[k]
    ensures id in t.list ==> forall k :: k in u.ids <==> k in t.ids && k != id
    ensures id in t.list ==> multiset(u.idQueue) == multiset(t.idQueue) + multiset{id}
  {
    if id in t.list then Table(t.list - {id}, Without(t.ids, id), Requeued(t.idQueue, id))
    else t
  }

  /** `remove` of each id in turn, as `removeByType` does. */
  function ReleasedAll(t: Table, ks: seq<nat>): (u: Table)
    ensures forall k :: k in u.list ==> k in t.list && u.list[k] == t.list[k]
    ensures |u.list| <= |t.list|
    decreases |ks|
  {
    if ks == [] then t else Released(ReleasedAll(t, ks[..|ks| - 1]), ks[|ks| - 1])
  }

  /** One more `remove` extends the ids released so far by one. */
  lemma ReleasedAllSnoc(t: Table, ks: seq<nat>, i: nat)
    requires i < |ks|
    ensures ReleasedAll(t, ks[..i + 1]) == Released(ReleasedAll(t, ks[..i]), ks[i])
  {
    assert ks[..i + 1][..i] == ks[..i];
  }

  /** A minted id is never live, and it is the smallest id that is not live. */
  lemma NextIdFresh(t: Table)
    requires Valid(t)
    ensures NextId(t) !in t.list && NextId(t) !in t.ids
    ensures forall k: nat :: k < NextId(t) ==> k in t.list
  {
  }

  /** An id-less `set` keeps the invariant. */
  lemma AddedValid(t: Table, rec: Record)
    requires Valid(t)
    ensures Valid(Added(t, rec))
  {
    var n := NextId(t);
    var u := Added(t, rec);
    NextIdFresh(t);
    assert NoDup(u.ids) by {
      forall i, j | 0 <= i < j < |u.ids| ensures u.ids[i] != u.ids[j] {
        if j == |t.ids| {
          assert u.ids[i] == t.ids[i] && u.ids[j] == n;
        } else {
          assert u.ids[i] == t.ids[i] && u.ids[j] == t.ids[j];
        }
      }
    }
    assert forall k :: k in u.ids <==> k in t.ids || k == n;
    if t.idQueue != [] {
      var q := t.idQueue;
      assert forall k :: k in q <==> k == q[0] || k in q[1..] by {
        assert q == [q[0]] + q[1..];
      }
      assert q[0] !in q[1..] by {
        forall j | 0 <= j < |q[1..]| ensures q[1..][j] != q[0] {
          assert q[1..][j] == q[j + 1];
        }
      }
      assert StrictlyAscending(u.idQueue) by {
        forall i, j | 0 <= i < j < |q[1..]| ensures q[1..][i] < q[1..][j] {
          assert q[1..][i] == q[i + 1] && q[1..][j] == q[j + 1];
        }
      }
      assert |u.ids| + |u.idQueue| == |t.ids| + |t.idQueue|;
    } else {
      assert |u.ids| + |u.idQueue| == |t.ids| + 1;
    }
  }

  /** `remove` keeps the invariant. */
  lemma ReleasedValid(t: Table, id: nat)
    requires Valid(t)
    ensures Valid(Released(t, id))
  {
    if id in t.list {
      var u := Released(t, id);
      RequeuedAscending(t.idQueue, id);
      WithoutLength(t.ids, id);
      assert |u.ids| + |u.idQueue| == |t.ids| + |t.idQueue|;
    }
  }

  /** After a `remove`, the next id-less `set` reuses the smallest released id:
      the one just removed unless an even smaller one was queued. */
  lemma ReleasedReused(t: Table, id: nat)
    requires Valid(t) && id in t.list
    ensures NextId(Released(t, id)) == if t.idQueue != [] && t.idQueue[0] < id then t.idQueue[0] else id
  {
    var u := Released(t, id);
    RequeuedAscending(t.idQueue, id);
    var first := u.idQueue[0];
    assert first in u.idQueue;
    forall k | k in u.idQueue ensures first <= k {
      var j :| 0 <= j < |u.idQueue| && u.idQueue[j] == k;
      assert j != 0 ==> first < k;
    }
    if t.idQueue != [] {
      assert t.idQueue[0] in u.idQueue;
      assert forall k :: k in t.idQueue ==> t.idQueue[0] <= k;
    }
  }

  /** `removeByType`'s removals keep the invariant. */
  lemma {:induction false} ReleasedAllValid(t: Table, ks: seq<nat>)
    requires Valid(t)
    ensures Valid(ReleasedAll(t, ks))
    decreases |ks|
  {
    if ks != [] {
      ReleasedAllValid(t, ks[..|ks| - 1]);
      ReleasedValid(ReleasedAll(t, ks[..|ks| - 1]), ks[|ks| - 1]);
    }
  }

  /** Removing a list of ids deletes exactly those records and leaves the
      others as they were. */
  lemma {:induction false} ReleasedAllList(t: Table, ks: seq<nat>)
    ensures forall k :: k in ReleasedAll(t, ks).list <==> k in t.list && k !in ks
    ensures forall k :: k in ReleasedAll(t, ks).list ==> ReleasedAll(t, ks).list[k] == t.list[k]
    decreases |ks|
  {
    if ks != [] {
      var n := |ks| - 1;
      var u := ReleasedAll(t, ks[..n]);
      ReleasedAllList(t, ks[..n]);
      assert ReleasedAll(t, ks) == Released(u, ks[n]);
      assert forall k :: k in ks <==> k in ks[..n] || k == ks[n] by {
        assert ks == ks[..n] + [ks[n]];
      }
    }
  }

  lemma SortedQueue1()
    ensures Requeued([], 3) == [3]
  {
  }

  lemma SortedQueue2()
    ensures Requeued([3], 1) == [1, 3]
  {
  }

  lemma InsertTwoThree()
    ensures Insert(2, [1, 3]) == [1, 2, 3]
  {
  }

  lemma SortedQueue3()
    ensures Requeued([1, 3], 2) == [1, 2, 3]
  {
    var s := [2] + [1, 3];
    assert s[0] == 2 && s[1..] == [1, 3];
    SortedQueue2();
    assert SortAsc([1, 3]) == [1, 3] by {
      assert [1] + [3] == [1, 3];
    }
    InsertTwoThree();
  }

  /** Removing ids 3, 1 and 2 (in that order) from a table in which they are
      live and nothing is queued, then adding three records, hands out 1, 2 and
      3, in that order. */
  lemma RecycleExample(t0: Table, r1: Record, r2: Record)
    requires 1 in t0.list && 2 in t0.list && 3 in t0.list && t0.idQueue == []
    ensures var t1 := Released(Released(Released(t0, 3), 1), 2);
      var a := Added(t1, r1);
      var b := Added(a, r2);
      NextId(t1) == 1 && NextId(a) == 2 && NextId(b) == 3
  {
    SortedQueue1(); SortedQueue2(); SortedQueue3();
    var s1 := Released(t0, 3);
    assert s1.idQueue == [3] && 1 in s1.list && 2 in s1.list;
    var s2 := Released(s1, 1);
    assert s2.idQueue == [1, 3] && 2 in s2.list;
    var t1 := Released(s2, 2);
    assert t1.idQueue == [1, 2, 3];
    var a := Added(t1, r1);
    assert a.idQueue == [2, 3];
    var b := Added(a, r2);
    assert b.idQueue == [3];
  }
}
