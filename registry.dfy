/**
 * The room registry: the process-wide map from room id to the set of
 * connections joined to it. A JavaScript `Set` iterates in insertion order,
 * so a member set is a sequence without duplicates; `add` appends a new
 * member and `delete` removes one in place, keeping the others' order.
 * The functions here are generic in the key and member types.
 */
module Registry {

  /** No member occurs twice: the sequence is the iteration order of a set. */
  ghost predicate NoDups<T>(m: seq<T>)
  {
    forall i, j :: 0 <= i < j < |m| ==> m[i] != m[j]
  }

  /** Every room in the registry has at least one member, and each only once. */
  ghost predicate RegistryOk<K, T>(rooms: map<K, seq<T>>)
  {
    forall k :: k in rooms ==> |rooms[k]| > 0 && NoDups(rooms[k])
  }

  /** The members of room `k`, or none if the room does not exist. */
  function Members<K, T>(rooms: map<K, seq<T>>, k: K): seq<T>
  {
    if k in rooms then rooms[k] else []
  }

  /** `Set.prototype.delete`: the member set without `x`, the rest in their order. */
  function Without<T(==)>(m: seq<T>, x: T): (r: seq<T>)
    ensures forall i :: 0 <= i < |r| ==> r[i] in m && r[i] != x
    ensures forall i :: 0 <= i < |m| && m[i] != x ==> m[i] in r
    ensures |r| <= |m|
    ensures x in m ==> |r| < |m|
    ensures NoDups(m) ==> NoDups(r)
  {
    if m == [] then []
    else if m[0] == x then Without(m[1..], x)
    else [m[0]] + Without(m[1..], x)
  }

  /** In a set with `x` at position `i`, deleting `x` splices out exactly that position. */
  lemma {:induction false} WithoutSplices<T>(m: seq<T>, x: T, i: nat)
    requires NoDups(m) && i < |m| && m[i] == x
    ensures Without(m, x) == m[..i] + m[i + 1..]
  {
    NoDupsTail(m);
    if i == 0 {
      assert x !in m[1..] by {
        forall j | 0 <= j < |m[1..]| ensures m[1..][j] != x {
          assert m[1..][j] == m[j + 1];
        }
      }
      WithoutAbsent(m[1..], x);
    } else {
      assert m[0] != x;
      WithoutSplices(m[1..], x, i - 1);
      calc {
        Without(m, x);
        [m[0]] + Without(m[1..], x);
        [m[0]] + (m[1..][..i - 1] + m[1..][i..]);
        { assert m[1..][..i - 1] == m[1..i]; assert m[1..][i..] == m[i + 1..]; }
        [m[0]] + (m[1..i] + m[i + 1..]);
        { assert m[..i] == [m[0]] + m[1..i]; }
        m[..i] + m[i + 1..];
      }
    }
  }

  lemma NoDupsTail<T>(m: seq<T>)
    requires NoDups(m) && m != []
    ensures NoDups(m[1..])
  {
    forall i, j | 0 <= i < j < |m[1..]| ensures m[1..][i] != m[1..][j] {
      assert m[1..][i] == m[i + 1] && m[1..][j] == m[j + 1];
    }
  }

  /** Deleting an element that is not in the set leaves it unchanged. */
  lemma {:induction false} WithoutAbsent<T>(m: seq<T>, x: T)
    requires x !in m
    ensures Without(m, x) == m
  {
    if m != [] {
      assert m[0] != x;
      WithoutAbsent(m[1..], x);
      assert m == [m[0]] + m[1..];
    }
  }

  /** The connection handler's join: create the room if absent, then `add` the connection. */
  function Join<K, T(==)>(rooms: map<K, seq<T>>, k: K, x: T): (r: map<K, seq<T>>)
    ensures k in r && x in r[k]
    ensures Members(rooms, k) <= r[k] && |r[k]| <= |Members(rooms, k)| + 1
    ensures forall i :: 0 <= i < |r[k]| ==> r[k][i] in Members(rooms, k) || r[k][i] == x
    ensures r.Keys == rooms.Keys + {k}
    ensures forall j :: j in rooms && j != k ==> r[j] == rooms[j]
    ensures RegistryOk(rooms) ==> RegistryOk(r)
  {
    var room := Members(rooms, k);
    rooms[k := if x in room then room else room + [x]]
  }

  /**
   * The disconnect handler's bookkeeping: `delete` the connection from its
   * room, and drop the room when that leaves it empty. A missing room is
   * left alone.
   */
  function Leave<K, T(==)>(rooms: map<K, seq<T>>, k: K, x: T): (r: map<K, seq<T>>)
    ensures k !in rooms ==> r == rooms
    ensures forall i :: 0 <= i < |Members(r, k)| ==> Members(r, k)[i] in Members(rooms, k) && Members(r, k)[i] != x
    ensures forall i :: 0 <= i < |Members(rooms, k)| && Members(rooms, k)[i] != x ==> Members(rooms, k)[i] in Members(r, k)
    ensures r.Keys - {k} == rooms.Keys - {k}
    ensures forall j :: j in rooms && j != k ==> j in r && r[j] == rooms[j]
    ensures RegistryOk(rooms) ==> RegistryOk(r)
  {
    if k !in rooms then rooms
    else
      var room := Without(rooms[k], x);
      if |room| == 0 then rooms - {k} else rooms[k := room]
  }

  /** A departure deletes the room exactly when the leaving connection was its only member. */
  lemma LeaveDropsRoomIffLast<K, T>(rooms: map<K, seq<T>>, k: K, x: T)
    requires RegistryOk(rooms) && k in rooms && x in rooms[k]
    ensures k !in Leave(rooms, k, x) <==> rooms[k] == [x]
    ensures k in Leave(rooms, k, x) ==> |Leave(rooms, k, x)[k]| == |rooms[k]| - 1
  {
    var m := rooms[k];
    var i :| 0 <= i < |m| && m[i] == x;
    WithoutSplices(m, x, i);
    if m == [x] {
      assert m[..i] + m[i + 1..] == [];
    }
  }

  /** Leaving undoes joining: a connection that joins a room and leaves it restores the registry. */
  lemma LeaveUndoesJoin<K, T>(rooms: map<K, seq<T>>, k: K, x: T)
    requires RegistryOk(rooms) && x !in Members(rooms, k)
    ensures Leave(Join(rooms, k, x), k, x) == rooms
  {
    var m := Members(rooms, k);
    var joined := Join(rooms, k, x);
    assert joined[k] == m + [x];
    assert NoDups(m + [x]);
    WithoutSplices(m + [x], x, |m|);
    assert (m + [x])[..|m|] + (m + [x])[|m| + 1..] == m;
  }
}
