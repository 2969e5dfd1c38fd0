/** ChatService.kt: a new question either continues the user's most recently
    active thread or opens a new one; the thread's earlier turns go to the
    answer generator as context, and the turn is stored with the answer.
    Also the grouping of a page of threads with their turns. */
module ChatService {
  import opened Common
  import opened ChatThreadDomain
  import opened ChatThreadStore
  import opened Chats
  import opened AiClientPort

  /** The thread table after `resolveThread`, and the thread the turn joins. */
  datatype Resolution = Resolution(rows: seq<ThreadRow>, nextId: Id, thread: ThreadRow)

  /** Whether the user's latest thread is missing or retired at `now`, so
      that a new thread must be opened: exactly when every thread of the
      user has expired (vacuously so when there is none). */
  function OpensNewThread(rows: seq<ThreadRow>, userId: Id, now: Time): (b: bool)
    ensures b <==> forall i :: 0 <= i < |rows| && rows[i].userId == userId ==> ExpiredAt(rows[i].lastActivityAt, now)
  {
    var latest := FindLatest(rows, userId);
    assert latest.Some? ==> exists j :: 0 <= j < |rows| && rows[j] == latest.value;
    latest.None? || ExpiredAt(latest.value.lastActivityAt, now)
  }

  /** `resolveThread` on the table's contents. The resolved thread belongs to
      the user and is active at `now`; the table then holds it under its id;
      and no other thread is added, removed or changed. */
  function Resolve(rows: seq<ThreadRow>, nextId: Id, userId: Id, now: Time): (r: Resolution)
    requires TableInvariant(rows, nextId)
    ensures TableInvariant(r.rows, r.nextId)
    ensures r.thread.userId == userId && r.thread.lastActivityAt == now
    ensures FindThreadById(r.rows, r.thread.id) == Some(r.thread)
    ensures forall k :: k != r.thread.id ==> FindThreadById(r.rows, k) == FindThreadById(rows, k)
    ensures OpensNewThread(rows, userId, now) ==>
              r.thread == ThreadRow(nextId, userId, now, now) &&
              r.rows == rows + [r.thread] && r.nextId == nextId + 1
    ensures !OpensNewThread(rows, userId, now) ==>
              r.thread == FindLatest(rows, userId).value.(lastActivityAt := now) &&
              r.rows == WithLastActivity(rows, r.thread.id, now) && r.nextId == nextId
  {
    var latest := FindLatest(rows, userId);
    if latest.None? || ExpiredAt(latest.value.lastActivityAt, now) then
      var row := ThreadRow(nextId, userId, now, now);
      NewRowKeepsInvariant(rows, nextId, row);
      forall k ensures FindThreadById(rows + [row], k) == if k == row.id then Some(row) else FindThreadById(rows, k) {
        FindThreadByIdAppend(rows, row, k);
      }
      Resolution(rows + [row], nextId + 1, row)
    else
      var old_ := latest.value;
      var rows' := WithLastActivity(rows, old_.id, now);
      TouchKeepsInvariant(rows, nextId, old_.id, now);
      var j :| 0 <= j < |rows| && rows[j] == old_;
      FindThreadByIdAt(rows, j);
      forall k ensures FindThreadById(rows', k) ==
                       if k == old_.id && FindThreadById(rows, k).Some?
                       then Some(FindThreadById(rows, k).value.(lastActivityAt := now))
                       else FindThreadById(rows, k) {
        WithLastActivityFind(rows, old_.id, now, k);
      }
      Resolution(rows', nextId, old_.(lastActivityAt := now))
  }

  lemma NewRowKeepsInvariant(rows: seq<ThreadRow>, nextId: Id, row: ThreadRow)
    requires TableInvariant(rows, nextId) && row.id == nextId
    ensures TableInvariant(rows + [row], nextId + 1)
    ensures FindThreadById(rows, row.id).None?
  {
  }

  lemma TouchKeepsInvariant(rows: seq<ThreadRow>, nextId: Id, id: Id, now: Time)
    requires TableInvariant(rows, nextId)
    ensures TableInvariant(WithLastActivity(rows, id, now), nextId)
  {
    var rows' := WithLastActivity(rows, id, now);
    forall i | 0 <= i < |rows'| ensures rows'[i].id == rows[i].id {
      WithLastActivityAt(rows, id, now, i);
    }
  }

  /** `resolveThread`: looks up the latest thread, and either saves a new one
      or writes the new activity time both to the table and to the object it
      returns. */
  method ResolveThread(threads: ThreadStore, userId: Id, now: Time) returns (thread: ChatThread)
    requires threads.Valid()
    modifies threads
    ensures threads.Valid()
    ensures fresh(thread)
    ensures var r := Resolve(old(threads.rows), old(threads.nextId), userId, now);
            threads.rows == r.rows && threads.nextId == r.nextId && thread.Row() == r.thread
  {
    ghost var r := Resolve(threads.rows, threads.nextId, userId, now);
    var lastThread := threads.FindLatestByUserId(userId);
    if lastThread == null || lastThread.IsExpired(now) {
      thread := threads.Save(userId, now, now);
    } else {
      threads.UpdateLastActivityAt(lastThread.id, now);
      lastThread.UpdateLastActivityAt(now);
      thread := lastThread;
    }
  }

  /** Every stored turn names a thread id the thread table has handed out;
      hence a brand-new thread has no turns yet. */
  predicate ThreadIdsIssued(chats: seq<Chat>, nextThreadId: Id) {
    forall i :: 0 <= i < |chats| ==> chats[i].threadId < nextThreadId
  }

  /** A thread id not handed out yet has no stored turns. */
  lemma {:induction false} NoTurnsInNewThread(chats: seq<Chat>, nextThreadId: Id)
    requires ThreadIdsIssued(chats, nextThreadId)
    ensures ChatsOfThread(chats, nextThreadId) == []
  {
    if chats != [] {
      assert ThreadIdsIssued(chats[1..], nextThreadId) by {
        assert forall i :: 0 <= i < |chats[1..]| ==> chats[1..][i] == chats[i + 1];
      }
      NoTurnsInNewThread(chats[1..], nextThreadId);
    }
  }

  /** `createChat`. The turn is stored in the resolved thread with the
      question, the generated answer and the request time; the generator is
      given exactly the thread's stored turns, and the caller's model and
      streaming flag unchanged. Exactly one turn is added; the thread table
      changes as `Resolve` says. */
  method CreateChat(threads: ThreadStore, chats: ChatStore, generateAnswer: AnswerGenerator,
                    userId: Id, question: string, model: Option<string>, isStreaming: bool, now: Time)
    returns (chat: Chat, ghost history: seq<Chat>)
    requires threads.Valid() && chats.Valid()
    requires ThreadIdsIssued(chats.rows, threads.nextId)
    modifies threads, chats
    ensures threads.Valid() && chats.Valid()
    ensures ThreadIdsIssued(chats.rows, threads.nextId)
    ensures var r := Resolve(old(threads.rows), old(threads.nextId), userId, now);
            && threads.rows == r.rows && threads.nextId == r.nextId
            && history == ChatsOfThread(old(chats.rows), r.thread.id)
            && chat == Chat(old(chats.nextId), r.thread.id, question,
                            generateAnswer(question, history, model, isStreaming).answer, now)
    ensures chats.rows == old(chats.rows) + [chat] && chats.nextId == old(chats.nextId) + 1
    ensures OpensNewThread(old(threads.rows), userId, now) ==> history == []
  {
    var thread := ResolveThread(threads, userId, now);
    var conversationHistory := ChatsOfThread(chats.rows, thread.id);
    history := conversationHistory;
    if OpensNewThread(old(threads.rows), userId, now) {
      NoTurnsInNewThread(chats.rows, thread.id);
    }
    var aiResponse := generateAnswer(question, conversationHistory, model, isStreaming);
    ghost var before := chats.rows;
    chat := chats.Save(thread.id, question, aiResponse.answer, now);
    IssuedAfterTurn(before, chat, old(threads.nextId), threads.nextId);
  }

  /** A new turn of a handed-out thread keeps every turn's thread handed
      out, while the counter only grows. */
  lemma IssuedAfterTurn(chats: seq<Chat>, chat: Chat, nextThreadId: Id, nextThreadId': Id)
    requires ThreadIdsIssued(chats, nextThreadId) && nextThreadId <= nextThreadId'
    requires chat.threadId < nextThreadId'
    ensures ThreadIdsIssued(chats + [chat], nextThreadId')
  {
  }

  /** Two questions of one user, the second within the window of the first,
      land in the same thread, provided no activity of that user had been
      recorded at or after the first question's time. */
  lemma SameThreadWithinWindow(rows: seq<ThreadRow>, nextId: Id, userId: Id, t1: Time, t2: Time)
    requires TableInvariant(rows, nextId)
    requires forall i :: 0 <= i < |rows| && rows[i].userId == userId ==> rows[i].lastActivityAt < t1
    requires t1 <= t2 <= t1 + ThreadTimeoutMinutes
    ensures var r1 := Resolve(rows, nextId, userId, t1);
            var r2 := Resolve(r1.rows, r1.nextId, userId, t2);
            && !OpensNewThread(r1.rows, userId, t2)
            && r2.thread.id == r1.thread.id
            && r2.thread.lastActivityAt == t2
            && r2.nextId == r1.nextId
  {
    var r1 := Resolve(rows, nextId, userId, t1);
    LatestAfterResolve(rows, nextId, userId, t1);
    assert FindLatest(r1.rows, userId) == Some(r1.thread);
  }

  /** A second question more than the window after the first opens a new
      thread, distinct from the first, provided no activity of that user had
      been recorded after the first question's time. */
  lemma NewThreadAfterWindow(rows: seq<ThreadRow>, nextId: Id, userId: Id, t1: Time, t2: Time)
    requires TableInvariant(rows, nextId)
    requires forall i :: 0 <= i < |rows| && rows[i].userId == userId ==> rows[i].lastActivityAt <= t1
    requires t1 + ThreadTimeoutMinutes < t2
    ensures var r1 := Resolve(rows, nextId, userId, t1);
            var r2 := Resolve(r1.rows, r1.nextId, userId, t2);
            && OpensNewThread(r1.rows, userId, t2)
            && r2.thread.id == r1.nextId
            && r2.thread.id != r1.thread.id
  {
    var r1 := Resolve(rows, nextId, userId, t1);
    MaxActivityAfterResolve(rows, nextId, userId, t1);
    var latest := FindLatest(r1.rows, userId);
    assert latest.Some?;
    assert latest.value.lastActivityAt <= t1;
    var k :| 0 <= k < |r1.rows| && r1.rows[k] == r1.thread;
  }

  /** After resolving at `t`, a user whose recorded activity was all before
      `t` has the resolved thread as the unique latest one. */
  lemma LatestAfterResolve(rows: seq<ThreadRow>, nextId: Id, userId: Id, t: Time)
    requires TableInvariant(rows, nextId)
    requires forall i :: 0 <= i < |rows| && rows[i].userId == userId ==> rows[i].lastActivityAt < t
    ensures var r := Resolve(rows, nextId, userId, t);
            FindLatest(r.rows, userId) == Some(r.thread)
  {
    var r := Resolve(rows, nextId, userId, t);
    assert r.thread in r.rows by {
      assert FindThreadById(r.rows, r.thread.id) == Some(r.thread);
    }
    var j :| 0 <= j < |r.rows| && r.rows[j] == r.thread;
    var latest := FindLatest(r.rows, userId).value;
    var i :| 0 <= i < |r.rows| && r.rows[i] == latest;
    if latest != r.thread {
      OtherRowAfterResolve(rows, nextId, userId, t, i);
      assert false;
    }
  }

  /** After resolving at `t`, every thread of the user other than the
      resolved one is unchanged, so it keeps its earlier activity time. */
  lemma OtherRowAfterResolve(rows: seq<ThreadRow>, nextId: Id, userId: Id, t: Time, i: nat)
    requires TableInvariant(rows, nextId)
    requires forall i :: 0 <= i < |rows| && rows[i].userId == userId ==> rows[i].lastActivityAt < t
    requires var r := Resolve(rows, nextId, userId, t);
             i < |r.rows| && r.rows[i].userId == userId && r.rows[i] != r.thread
    ensures Resolve(rows, nextId, userId, t).rows[i].lastActivityAt < t
  {
    var r := Resolve(rows, nextId, userId, t);
    if OpensNewThread(rows, userId, t) {
      assert i < |rows| && r.rows[i] == rows[i];
    } else {
      var latest := FindLatest(rows, userId).value;
      WithLastActivityAt(rows, latest.id, t, i);
      var j :| 0 <= j < |rows| && rows[j] == latest;
      FindThreadByIdAt(rows, i);
      FindThreadByIdAt(rows, j);
      assert rows[i].id != latest.id;
    }
  }

  /** After resolving at `t`, no thread of the user is more recent than `t`
      when none was before. */
  lemma MaxActivityAfterResolve(rows: seq<ThreadRow>, nextId: Id, userId: Id, t: Time)
    requires TableInvariant(rows, nextId)
    requires forall i :: 0 <= i < |rows| && rows[i].userId == userId ==> rows[i].lastActivityAt <= t
    ensures var r := Resolve(rows, nextId, userId, t);
            forall i :: 0 <= i < |r.rows| && r.rows[i].userId == userId ==> r.rows[i].lastActivityAt <= t
  {
    var r := Resolve(rows, nextId, userId, t);
    if !OpensNewThread(rows, userId, t) {
      var latest := FindLatest(rows, userId).value;
      forall i | 0 <= i < |r.rows| && r.rows[i].userId == userId
        ensures r.rows[i].lastActivityAt <= t
      {
        WithLastActivityAt(rows, latest.id, t, i);
      }
    }
  }

  /** A page of threads (the paging itself is the store's business). */
  datatype ThreadPage = ThreadPage(content: seq<ThreadRow>, totalElements: nat)
  datatype ThreadWithChats = ThreadWithChats(thread: ThreadRow, chats: seq<Chat>)
  datatype ChatsPage = ChatsPage(content: seq<ThreadWithChats>, totalElements: nat)

  function ThreadIds(threads: seq<ThreadRow>): (ids: seq<Id>)
    ensures |ids| == |threads|
    ensures forall i :: 0 <= i < |threads| ==> ids[i] == threads[i].id
  {
    if threads == [] then [] else [threads[0].id] + ThreadIds(threads[1..])
  }

  /** Map lookup with the empty list as default (`?: emptyList()`). */
  function GroupOf(m: map<Id, seq<Chat>>, k: Id): (g: seq<Chat>)
    ensures k in m ==> g == m[k]
    ensures k !in m ==> g == []
  {
    if k in m then m[k] else []
  }

  /** Kotlin's `groupBy { it.threadId }`: each thread id that occurs maps to
      its turns, in their original order; looking up an id that does not
      occur yields the empty list. */
  function GroupByThread(chats: seq<Chat>): (m: map<Id, seq<Chat>>)
    ensures forall k :: k in m ==> m[k] != []
    ensures forall k :: GroupOf(m, k) == ChatsOfThread(chats, k)
  {
    if chats == [] then map[]
    else
      var front := chats[..|chats| - 1];
      var c := chats[|chats| - 1];
      var m := GroupByThread(front);
      assert chats == front + [c];
      GroupStep(m, front, c);
      m[c.threadId := GroupOf(m, c.threadId) + [c]]
  }

  /** Adding one turn to the groups of `front` gives the groups of
      `front + [c]`. */
  lemma GroupStep(m: map<Id, seq<Chat>>, front: seq<Chat>, c: Chat)
    requires forall k :: GroupOf(m, k) == ChatsOfThread(front, k)
    ensures forall k :: GroupOf(m[c.threadId := GroupOf(m, c.threadId) + [c]], k) == ChatsOfThread(front + [c], k)
  {
    forall k ensures GroupOf(m[c.threadId := GroupOf(m, c.threadId) + [c]], k) == ChatsOfThread(front + [c], k) {
      ChatsOfThreadAppend(front, c, k);
    }
  }

  /** `mapThreadsToChatsPage`: one entry per thread of the page, in page
      order, each with exactly that thread's stored turns (in store order,
      empty when it has none); the total is carried over. `fetched` records
      the ids passed to `findByThreadIds`: that fetch is skipped exactly for
      an empty page, and otherwise asks for the page's thread ids. */
  method MapThreadsToChatsPage(page: ThreadPage, chatRows: seq<Chat>)
    returns (r: ChatsPage, ghost fetched: Option<seq<Id>>)
    ensures fetched.None? <==> |page.content| == 0
    ensures fetched.Some? ==> fetched.value == ThreadIds(page.content)
    ensures |r.content| == |page.content|
    ensures forall i :: 0 <= i < |page.content| ==>
              r.content[i].thread == page.content[i] &&
              r.content[i].chats == ChatsOfThread(chatRows, page.content[i].id)
    ensures r.totalElements == page.totalElements
  {
    var threadIds := ThreadIds(page.content);
    var allChats: seq<Chat>;
    if |threadIds| > 0 {
      allChats := ChatsOfThreads(chatRows, threadIds);
      fetched := Some(threadIds);
    } else {
      allChats := [];
      fetched := None;
    }
    var chatsByThreadId := GroupByThread(allChats);
    var content := seq(|page.content|, i requires 0 <= i < |page.content| =>
      ThreadWithChats(page.content[i], GroupOf(chatsByThreadId, page.content[i].id)));
    assert forall i :: 0 <= i < |page.content| ==> content[i].chats == ChatsOfThread(allChats, page.content[i].id);
    forall i | 0 <= i < |page.content|
      ensures content[i].chats == ChatsOfThread(chatRows, page.content[i].id)
    {
      ChatsOfThreadOfFetch(chatRows, threadIds, page.content[i].id);
    }
    r := ChatsPage(content, page.totalElements);
  }

  /** A three-question conversation: a first question opens a thread, one
      ten minutes later continues it and sees the first turn as history, and
      one 45 minutes after the start (35 after the last activity) opens a
      second thread with an empty history. `h2` and `h3` are the histories
      handed to the answer generator for the second and third question. */
  method ConversationScenario(generateAnswer: AnswerGenerator, userId: Id)
    returns (c1: Chat, c2: Chat, c3: Chat, ghost h2: seq<Chat>, ghost h3: seq<Chat>)
    ensures c2.threadId == c1.threadId
    ensures c3.threadId != c1.threadId
    ensures c1.question == "Q1" && c2.question == "Q2" && c3.question == "Q3"
    ensures h2 == [c1] && c2.answer == generateAnswer("Q2", h2, None, false).answer
    ensures h3 == [] && c3.answer == generateAnswer("Q3", h3, None, false).answer
  {
    var threads := new ThreadStore();
    var chats := new ChatStore();
    ghost var h1;
    c1, h1 := CreateChat(threads, chats, generateAnswer, userId, "Q1", None, false, 0);
    c2, h2 := CreateChat(threads, chats, generateAnswer, userId, "Q2", None, false, 10);
    assert h2 == [c1] by {
      assert chats.rows[..1] == [c1];
    }
    c3, h3 := CreateChat(threads, chats, generateAnswer, userId, "Q3", None, false, 45);
  }
}
