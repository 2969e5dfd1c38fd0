/** ChatThreadService.kt: listing a user's threads, fetching one thread,
    and deleting a thread, which only its owner may do (an admin included:
    there is no role bypass here). Deleting removes the thread row only. */
module ChatThreadService {
  import opened Common
  import opened ChatThreadDomain
  import opened ChatThreadStore

  /** `getChatThreadsByUser`, without paging: only the user's threads, and
      all of them. */
  method GetChatThreadsByUser(threads: ThreadStore, userId: Id) returns (r: seq<ThreadRow>)
    ensures r == ThreadsOfUser(threads.rows, userId)
    ensures forall t :: t in r <==> t in threads.rows && t.userId == userId
  {
    r := ThreadsOfUser(threads.rows, userId);
  }

  /** `getChatThreadById`: the stored thread with that id, or ThreadNotFound. */
  method GetChatThreadById(threads: ThreadStore, threadId: Id) returns (r: Result<ThreadRow>)
    ensures r.Failure? <==> forall i :: 0 <= i < |threads.rows| ==> threads.rows[i].id != threadId
    ensures r.Failure? ==> r.error == ThreadNotFound
    ensures r.Success? ==> r.value in threads.rows && r.value.id == threadId
  {
    var found := FindThreadById(threads.rows, threadId);
    if found.None? {
      return Failure(ThreadNotFound);
    }
    r := Success(found.value);
  }

  /** The guards of `deleteChatThread`, in order: the thread must exist and
      the requester must be its owner. */
  function DeleteError(rows: seq<ThreadRow>, threadId: Id, requesterId: Id): (e: Option<ErrorCode>)
    ensures e == Some(ThreadNotFound) <==> FindThreadById(rows, threadId).None?
    ensures e == Some(ThreadAccessDenied) <==>
              FindThreadById(rows, threadId).Some? && FindThreadById(rows, threadId).value.userId != requesterId
    ensures e.None? <==> FindThreadById(rows, threadId).Some? && FindThreadById(rows, threadId).value.userId == requesterId
  {
    var found := FindThreadById(rows, threadId);
    if found.None? then Some(ThreadNotFound)
    else if found.value.userId != requesterId then Some(ThreadAccessDenied) else None
  }

  /** `deleteChatThread`. A missing thread or a requester other than the
      owner gets the error and nothing is deleted; the owner's request
      removes exactly that thread. */
  method DeleteChatThread(threads: ThreadStore, threadId: Id, requesterId: Id) returns (r: Result<()>)
    requires threads.Valid()
    modifies threads
    ensures threads.Valid() && threads.nextId == old(threads.nextId)
    ensures var e := DeleteError(old(threads.rows), threadId, requesterId);
            && (e.Some? ==> r == Failure(e.value) && threads.rows == old(threads.rows))
            && (e.None? ==> r == Success(()) && threads.rows == WithoutThread(old(threads.rows), threadId))
  {
    var chatThread := FindThreadById(threads.rows, threadId);
    if chatThread.None? {
      return Failure(ThreadNotFound);
    }
    if chatThread.value.userId != requesterId {
      return Failure(ThreadAccessDenied);
    }
    threads.DeleteById(threadId);
    r := Success(());
  }

  /** After the owner's delete, the thread is gone and every other thread
      is found as before; threads never found before are not found after. */
  lemma DeleteRemovesOnlyThread(rows: seq<ThreadRow>, threadId: Id, requesterId: Id, k: Id)
    requires DeleteError(rows, threadId, requesterId).None?
    ensures FindThreadById(WithoutThread(rows, threadId), threadId).None?
    ensures k != threadId ==> FindThreadById(WithoutThread(rows, threadId), k) == FindThreadById(rows, k)
  {
    WithoutThreadFind(rows, threadId, threadId);
    WithoutThreadFind(rows, threadId, k);
  }

  /** With distinct ids, a delete passes the guards exactly when the
      requester owns a stored thread with that id. */
  lemma {:induction false} OnlyOwnerDeletes(rows: seq<ThreadRow>, threadId: Id, requesterId: Id)
    requires DistinctIds(rows)
    ensures DeleteError(rows, threadId, requesterId).None? <==>
              exists i :: 0 <= i < |rows| && rows[i].id == threadId && rows[i].userId == requesterId
  {
    if exists i :: 0 <= i < |rows| && rows[i].id == threadId && rows[i].userId == requesterId {
      var i :| 0 <= i < |rows| && rows[i].id == threadId && rows[i].userId == requesterId;
      FindThreadByIdAt(rows, i);
    }
  }
}
