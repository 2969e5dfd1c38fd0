/** The chat_threads table and the queries of ChatThreadJpaRepository.kt:
    the user's most recently active thread, the threads of a user, the
    in-place update of the last activity time, and deletion by id. */
module ChatThreadStore {
  import opened Common
  import opened ChatThreadDomain

  /** No two rows share an id (the primary key). */
  predicate DistinctIds(rows: seq<ThreadRow>) {
    forall i, j :: 0 <= i < j < |rows| ==> rows[i].id != rows[j].id
  }

  /** The table's invariant: ids are distinct, positive and below the next
      identity value. */
  predicate TableInvariant(rows: seq<ThreadRow>, nextId: Id) {
    && 0 < nextId
    && (forall i :: 0 <= i < |rows| ==> 0 < rows[i].id < nextId)
    && DistinctIds(rows)
  }

  /** `findById`: the row with that id, if any. */
  function FindThreadById(rows: seq<ThreadRow>, id: Id): (r: Option<ThreadRow>)
    ensures r.None? <==> forall i :: 0 <= i < |rows| ==> rows[i].id != id
    ensures r.Some? ==> r.value in rows && r.value.id == id
  {
    if rows == [] then None
    else if rows[0].id == id then Some(rows[0])
    else FindThreadById(rows[1..], id)
  }

  /** With distinct ids, `findById` finds exactly the row at that id. */
  lemma {:induction false} FindThreadByIdAt(rows: seq<ThreadRow>, i: nat)
    requires DistinctIds(rows) && i < |rows|
    ensures FindThreadById(rows, rows[i].id) == Some(rows[i])
  {
    if i > 0 {
      assert rows[0].id != rows[i].id;
      assert DistinctIds(rows[1..]);
      assert rows[1..][i - 1] == rows[i];
      FindThreadByIdAt(rows[1..], i - 1);
    }
  }

  /** Saving a row with a new id leaves every earlier lookup as it was and
      makes the new row findable. */
  lemma {:induction false} FindThreadByIdAppend(rows: seq<ThreadRow>, row: ThreadRow, k: Id)
    requires FindThreadById(rows, row.id).None?
    ensures FindThreadById(rows + [row], k) ==
            if k == row.id then Some(row) else FindThreadById(rows, k)
  {
    if rows != [] {
      assert (rows + [row])[1..] == rows[1..] + [row];
      FindThreadByIdAppend(rows[1..], row, k);
    }
  }

  /** `findTopByUserIdOrderByLastActivityAtDesc`: a thread of the user whose
      last activity is no earlier than that of any other thread of the user.
      Among equally recent threads this model picks the first stored one; the
      query itself leaves the choice open. `ChatService.Resolve` and the
      methods built on it inherit this choice. */
  function FindLatest(rows: seq<ThreadRow>, userId: Id): (r: Option<ThreadRow>)
    ensures r.None? <==> forall i :: 0 <= i < |rows| ==> rows[i].userId != userId
    ensures r.Some? ==> r.value in rows && r.value.userId == userId
    ensures r.Some? ==> forall i :: 0 <= i < |rows| && rows[i].userId == userId ==>
                          rows[i].lastActivityAt <= r.value.lastActivityAt
  {
    if rows == [] then None
    else
      var front := rows[..|rows| - 1];
      var last := rows[|rows| - 1];
      var rest := FindLatest(front, userId);
      assert forall i :: 0 <= i < |front| ==> front[i] == rows[i];
      if last.userId == userId && (rest.None? || rest.value.lastActivityAt < last.lastActivityAt)
      then Some(last)
      else rest
  }

  /** `findByUserId` without paging: the user's threads, in store order
      (`ThreadsOfUserConcat`). */
  function ThreadsOfUser(rows: seq<ThreadRow>, userId: Id): (r: seq<ThreadRow>)
    ensures forall t :: t in r <==> t in rows && t.userId == userId
    ensures |r| <= |rows|
  {
    if rows == [] then []
    else if rows[0].userId == userId then [rows[0]] + ThreadsOfUser(rows[1..], userId)
    else ThreadsOfUser(rows[1..], userId)
  }

  /** The listing keeps store order: listing two stretches of rows one
      after the other is listing their concatenation. */
  lemma {:induction false} ThreadsOfUserConcat(a: seq<ThreadRow>, b: seq<ThreadRow>, userId: Id)
    ensures ThreadsOfUser(a + b, userId) == ThreadsOfUser(a, userId) + ThreadsOfUser(b, userId)
  {
    if a == [] {
      assert a + b == b;
    } else {
      assert (a + b)[1..] == a[1..] + b;
      ThreadsOfUserConcat(a[1..], b, userId);
    }
  }

  /** The `UPDATE ... SET lastActivityAt = :time WHERE id = :id` statement. */
  function WithLastActivity(rows: seq<ThreadRow>, id: Id, time: Time): (r: seq<ThreadRow>)
    ensures |r| == |rows|
    ensures forall i :: 0 <= i < |r| ==>
              r[i].id == rows[i].id && r[i].userId == rows[i].userId && r[i].createdAt == rows[i].createdAt
  {
    if rows == [] then []
    else
      var head := if rows[0].id == id then rows[0].(lastActivityAt := time) else rows[0];
      var tail := WithLastActivity(rows[1..], id, time);
      assert forall i :: 1 <= i < |rows| ==> ([head] + tail)[i] == tail[i - 1];
      [head] + tail
  }

  /** The update rewrites the last activity time of the rows with that id,
      and of no others, and touches no other field. */
  lemma {:induction false} WithLastActivityAt(rows: seq<ThreadRow>, id: Id, time: Time, i: nat)
    requires i < |rows|
    ensures |WithLastActivity(rows, id, time)| == |rows|
    ensures WithLastActivity(rows, id, time)[i] ==
            if rows[i].id == id then rows[i].(lastActivityAt := time) else rows[i]
  {
    if i > 0 {
      WithLastActivityAt(rows[1..], id, time, i - 1);
    }
  }

  /** Seen through `findById`: the updated thread carries the new time and
      every other thread is as before; an unknown id changes nothing. */
  lemma {:induction false} WithLastActivityFind(rows: seq<ThreadRow>, id: Id, time: Time, k: Id)
    ensures FindThreadById(WithLastActivity(rows, id, time), k) ==
            if k == id && FindThreadById(rows, k).Some?
            then Some(FindThreadById(rows, k).value.(lastActivityAt := time))
            else FindThreadById(rows, k)
  {
    if rows != [] {
      WithLastActivityFind(rows[1..], id, time, k);
    }
  }

  /** An update naming no stored thread is a no-op. */
  lemma {:induction false} WithLastActivityUnknown(rows: seq<ThreadRow>, id: Id, time: Time)
    requires FindThreadById(rows, id).None?
    ensures WithLastActivity(rows, id, time) == rows
  {
    if rows != [] {
      WithLastActivityUnknown(rows[1..], id, time);
    }
  }

  /** `deleteById`: every row with that id is removed. */
  function WithoutThread(rows: seq<ThreadRow>, id: Id): (r: seq<ThreadRow>)
    ensures |r| <= |rows|
    ensures forall i :: 0 <= i < |r| ==> r[i].id != id
  {
    if rows == [] then []
    else if rows[0].id == id then WithoutThread(rows[1..], id)
    else [rows[0]] + WithoutThread(rows[1..], id)
  }

  /** After deletion the id is gone, every other row is still there and
      nothing else was added. */
  lemma {:induction false} WithoutThreadContents(rows: seq<ThreadRow>, id: Id)
    ensures forall t :: t in WithoutThread(rows, id) <==> t in rows && t.id != id
  {
    if rows != [] {
      WithoutThreadContents(rows[1..], id);
    }
  }

  /** Seen through `findById`: the deleted id is absent, others unchanged. */
  lemma {:induction false} WithoutThreadFind(rows: seq<ThreadRow>, id: Id, k: Id)
    ensures FindThreadById(WithoutThread(rows, id), k) ==
            if k == id then None else FindThreadById(rows, k)
  {
    if rows != [] {
      WithoutThreadFind(rows[1..], id, k);
    }
  }

  /** The thread table: rows plus the identity counter that hands out ids. */
  class ThreadStore {
    var rows: seq<ThreadRow>
    var nextId: Id

    ghost predicate Valid()
      reads this
    {
      TableInvariant(rows, nextId)
    }

    constructor ()
      ensures Valid() && rows == [] && nextId == 1
    {
      rows := [];
      nextId := 1;
    }

    /** `save` of a new thread: the row gets the next identity value, and the
        caller receives a fresh domain object for it. */
    method Save(userId: Id, lastActivityAt: Time, createdAt: Time) returns (t: ChatThread)
      requires Valid()
      modifies this
      ensures Valid()
      ensures rows == old(rows) + [ThreadRow(old(nextId), userId, lastActivityAt, createdAt)]
      ensures nextId == old(nextId) + 1
      ensures fresh(t) && t.Row() == ThreadRow(old(nextId), userId, lastActivityAt, createdAt)
    {
      var row := ThreadRow(nextId, userId, lastActivityAt, createdAt);
      rows := rows + [row];
      nextId := nextId + 1;
      t := new ChatThread(row.id, row.userId, row.lastActivityAt, row.createdAt);
    }

    /** `findLatestByUserId`: a fresh domain copy of the user's most recently
        active thread, or null. Changing the copy does not change the store. */
    method FindLatestByUserId(userId: Id) returns (t: ChatThread?)
      ensures t == null <==> FindLatest(rows, userId).None?
      ensures t != null ==> fresh(t) && t.Row() == FindLatest(rows, userId).value
    {
      var latest := FindLatest(rows, userId);
      if latest.None? {
        t := null;
      } else {
        var row := latest.value;
        t := new ChatThread(row.id, row.userId, row.lastActivityAt, row.createdAt);
      }
    }

    /** `updateLastActivityAt(id, time)`, written through to the table. */
    method UpdateLastActivityAt(id: Id, time: Time)
      requires Valid()
      modifies this
      ensures Valid()
      ensures rows == WithLastActivity(old(rows), id, time)
      ensures nextId == old(nextId)
    {
      var before := rows;
      rows := WithLastActivity(rows, id, time);
      forall i | 0 <= i < |rows|
        ensures rows[i].id == before[i].id
      {
        WithLastActivityAt(before, id, time, i);
      }
    }

    /** `deleteById(id)`. */
    method DeleteById(id: Id)
      requires Valid()
      modifies this
      ensures Valid()
      ensures rows == WithoutThread(old(rows), id)
      ensures nextId == old(nextId)
    {
      WithoutThreadValid(rows, id, nextId);
      rows := WithoutThread(rows, id);
    }
  }

  /** Deletion keeps ids distinct and below the counter. */
  lemma {:induction false} WithoutThreadValid(rows: seq<ThreadRow>, id: Id, nextId: Id)
    requires forall i :: 0 <= i < |rows| ==> 0 < rows[i].id < nextId
    requires DistinctIds(rows)
    ensures forall i :: 0 <= i < |WithoutThread(rows, id)| ==> 0 < WithoutThread(rows, id)[i].id < nextId
    ensures DistinctIds(WithoutThread(rows, id))
  {
    if rows != [] {
      var tail := rows[1..];
      assert DistinctIds(tail);
      WithoutThreadValid(tail, id, nextId);
      WithoutThreadContents(tail, id);
      if rows[0].id != id {
        var r := WithoutThread(rows, id);
        assert r == [rows[0]] + WithoutThread(tail, id);
        forall j | 0 < j < |r|
          ensures r[0].id != r[j].id
        {
          assert r[j] in tail;
        }
      }
    }
  }
}
