/** The chats table (Chat.kt, ChatRepository.kt): immutable question/answer
    turns, each tagged with the thread it belongs to. Query results come in
    store order; the source's queries have no ORDER BY, so no contract here
    promises a chronological order. */
module Chats {
  import opened Common

  datatype Chat = Chat(id: Id, threadId: Id, question: string, answer: string, createdAt: Time)

  predicate DistinctChatIds(rows: seq<Chat>) {
    forall i, j :: 0 <= i < j < |rows| ==> rows[i].id != rows[j].id
  }

  /** `findById`. */
  function FindChatById(rows: seq<Chat>, id: Id): (r: Option<Chat>)
    ensures r.None? <==> forall i :: 0 <= i < |rows| ==> rows[i].id != id
    ensures r.Some? ==> r.value in rows && r.value.id == id
  {
    if rows == [] then None
    else if rows[0].id == id then Some(rows[0])
    else FindChatById(rows[1..], id)
  }

  /** `findByThreadId`: the turns of one thread, all of them, in store order
      (`ChatsOfThreadConcat`). */
  function ChatsOfThread(rows: seq<Chat>, threadId: Id): (r: seq<Chat>)
    ensures forall c :: c in r <==> c in rows && c.threadId == threadId
    ensures |r| <= |rows|
  {
    if rows == [] then []
    else if rows[0].threadId == threadId then [rows[0]] + ChatsOfThread(rows[1..], threadId)
    else ChatsOfThread(rows[1..], threadId)
  }

  /** `findByThreadIds`: the turns of any of the given threads, in store order. */
  function ChatsOfThreads(rows: seq<Chat>, threadIds: seq<Id>): (r: seq<Chat>)
    ensures forall c :: c in r <==> c in rows && c.threadId in threadIds
  {
    if rows == [] then []
    else if rows[0].threadId in threadIds then [rows[0]] + ChatsOfThreads(rows[1..], threadIds)
    else ChatsOfThreads(rows[1..], threadIds)
  }

  /** `findByCreatedAtBetween(start, end)`, bounds included. */
  function ChatsCreatedBetween(rows: seq<Chat>, start: Time, end: Time): (r: seq<Chat>)
    ensures forall c :: c in r <==> c in rows && start <= c.createdAt <= end
  {
    if rows == [] then []
    else if start <= rows[0].createdAt <= end then [rows[0]] + ChatsCreatedBetween(rows[1..], start, end)
    else ChatsCreatedBetween(rows[1..], start, end)
  }

  /** The thread's turns do not depend on which other threads were asked
      for: taking one requested thread's turns out of a multi-thread fetch
      gives exactly `findByThreadId` of that thread, order included. */
  lemma {:induction false} ChatsOfThreadOfFetch(rows: seq<Chat>, threadIds: seq<Id>, threadId: Id)
    requires threadId in threadIds
    ensures ChatsOfThread(ChatsOfThreads(rows, threadIds), threadId) == ChatsOfThread(rows, threadId)
  {
    if rows != [] {
      ChatsOfThreadOfFetch(rows[1..], threadIds, threadId);
    }
  }

  /** Appending a turn extends its own thread's history by that turn and
      leaves every other thread's history as it was. */
  lemma {:induction false} ChatsOfThreadAppend(rows: seq<Chat>, c: Chat, threadId: Id)
    ensures ChatsOfThread(rows + [c], threadId) ==
            ChatsOfThread(rows, threadId) + (if c.threadId == threadId then [c] else [])
  {
    if rows == [] {
      assert [c] + [] == [c];
    } else {
      assert (rows + [c])[1..] == rows[1..] + [c];
      ChatsOfThreadAppend(rows[1..], c, threadId);
    }
  }

  /** The query keeps store order: the turns of a thread in two stretches
      of rows, one after the other, are its turns in their concatenation. */
  lemma {:induction false} ChatsOfThreadConcat(a: seq<Chat>, b: seq<Chat>, threadId: Id)
    ensures ChatsOfThread(a + b, threadId) == ChatsOfThread(a, threadId) + ChatsOfThread(b, threadId)
  {
    if a == [] {
      assert a + b == b;
    } else {
      assert (a + b)[1..] == a[1..] + b;
      ChatsOfThreadConcat(a[1..], b, threadId);
    }
  }

  /** The chat table: rows plus the identity counter. */
  class ChatStore {
    var rows: seq<Chat>
    var nextId: Id

    ghost predicate Valid()
      reads this
    {
      && 0 < nextId
      && (forall i :: 0 <= i < |rows| ==> 0 < rows[i].id < nextId)
      && DistinctChatIds(rows)
    }

    constructor ()
      ensures Valid() && rows == [] && nextId == 1
    {
      rows := [];
      nextId := 1;
    }

    /** `save` of a new chat: it gets the next identity value. */
    method Save(threadId: Id, question: string, answer: string, createdAt: Time) returns (c: Chat)
      requires Valid()
      modifies this
      ensures Valid()
      ensures c == Chat(old(nextId), threadId, question, answer, createdAt)
      ensures rows == old(rows) + [c]
      ensures nextId == old(nextId) + 1
    {
      c := Chat(nextId, threadId, question, answer, createdAt);
      rows := rows + [c];
      nextId := nextId + 1;
    }
  }
}
