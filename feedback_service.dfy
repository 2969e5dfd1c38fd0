/** FeedbackService.kt: creating a feedback on a chat turn behind four
    guards, and changing a feedback's status. Every failing guard leaves the
    feedback table as it was. */
module FeedbackService {
  import opened Common
  import opened ChatThreadDomain
  import opened ChatThreadStore
  import opened Chats
  import opened FeedbackDomain
  import opened FeedbackStorage

  /** The guards of `createFeedback`, in their order: the chat must exist,
      its thread must exist, the requester must own the thread unless an
      admin, and the requester must not have judged this chat already. The
      result is the first failing guard's error, or None. */
  function CreateFeedbackError(chatRows: seq<Chat>, threadRows: seq<ThreadRow>, feedbackRows: seq<Feedback>,
                               userId: Id, chatId: Id, isAdmin: bool): (e: Option<ErrorCode>)
    ensures e == Some(ChatNotFound) <==> FindChatById(chatRows, chatId).None?
    ensures e == Some(ThreadNotFound) <==>
              FindChatById(chatRows, chatId).Some? &&
              FindThreadById(threadRows, FindChatById(chatRows, chatId).value.threadId).None?
    ensures e == Some(FeedbackAccessDenied) <==>
              FindChatById(chatRows, chatId).Some? &&
              FindThreadById(threadRows, FindChatById(chatRows, chatId).value.threadId).Some? &&
              !isAdmin &&
              FindThreadById(threadRows, FindChatById(chatRows, chatId).value.threadId).value.userId != userId
    ensures e == Some(FeedbackAlreadyExists) <==>
              FindChatById(chatRows, chatId).Some? &&
              FindThreadById(threadRows, FindChatById(chatRows, chatId).value.threadId).Some? &&
              (isAdmin || FindThreadById(threadRows, FindChatById(chatRows, chatId).value.threadId).value.userId == userId) &&
              FindFeedbackByUserAndChat(feedbackRows, userId, chatId).Some?
    ensures e.None? || e.value in {ChatNotFound, ThreadNotFound, FeedbackAccessDenied, FeedbackAlreadyExists}
  {
    match FindChatById(chatRows, chatId)
    case None => Some(ChatNotFound)
    case Some(chat) =>
      match FindThreadById(threadRows, chat.threadId)
      case None => Some(ThreadNotFound)
      case Some(thread) =>
        if !isAdmin && thread.userId != userId then Some(FeedbackAccessDenied)
        else if FindFeedbackByUserAndChat(feedbackRows, userId, chatId).Some? then Some(FeedbackAlreadyExists)
        else None
  }

  /** No guard fails exactly when the chat and its thread exist, the
      requester owns the thread or is an admin, and there is no earlier
      feedback by the requester on that chat. */
  lemma CreateFeedbackAllowed(chatRows: seq<Chat>, threadRows: seq<ThreadRow>, feedbackRows: seq<Feedback>,
                              userId: Id, chatId: Id, isAdmin: bool)
    ensures CreateFeedbackError(chatRows, threadRows, feedbackRows, userId, chatId, isAdmin).None? <==>
              exists chat, thread ::
                && FindChatById(chatRows, chatId) == Some(chat)
                && FindThreadById(threadRows, chat.threadId) == Some(thread)
                && (isAdmin || thread.userId == userId)
                && FindFeedbackByUserAndChat(feedbackRows, userId, chatId).None?
  {
    var e := CreateFeedbackError(chatRows, threadRows, feedbackRows, userId, chatId, isAdmin);
    if e.None? {
      var chat := FindChatById(chatRows, chatId).value;
      var thread := FindThreadById(threadRows, chat.threadId).value;
      assert FindChatById(chatRows, chatId) == Some(chat);
    }
  }

  /** An admin passes the ownership guard on any chat: only a missing chat,
      a missing thread or an existing feedback can stop them. */
  lemma AdminSkipsOwnership(chatRows: seq<Chat>, threadRows: seq<ThreadRow>, feedbackRows: seq<Feedback>,
                            userId: Id, chatId: Id)
    ensures CreateFeedbackError(chatRows, threadRows, feedbackRows, userId, chatId, true) != Some(FeedbackAccessDenied)
  {
  }

  /** `createFeedback`. On a failing guard the error is returned and the
      table is unchanged; otherwise exactly one PENDING feedback with the
      request's fields is added, and at most one feedback per user and
      chat remains the rule. */
  method CreateFeedback(feedbacks: FeedbackStore, chats: ChatStore, threads: ThreadStore,
                        userId: Id, chatId: Id, isPositive: bool, isAdmin: bool, now: Time)
    returns (r: Result<Feedback>)
    requires feedbacks.Valid()
    modifies feedbacks
    ensures feedbacks.Valid()
    ensures var e := CreateFeedbackError(chats.rows, threads.rows, old(feedbacks.rows), userId, chatId, isAdmin);
            && (e.Some? ==> r == Failure(e.value) && feedbacks.rows == old(feedbacks.rows)
                            && feedbacks.nextId == old(feedbacks.nextId))
            && (e.None? ==> r == Success(Feedback(Some(old(feedbacks.nextId)), userId, chatId, isPositive, Pending, now))
                            && feedbacks.rows == old(feedbacks.rows) + [r.value]
                            && feedbacks.nextId == old(feedbacks.nextId) + 1)
  {
    var chat := FindChatById(chats.rows, chatId);
    if chat.None? {
      return Failure(ChatNotFound);
    }
    var thread := FindThreadById(threads.rows, chat.value.threadId);
    if thread.None? {
      return Failure(ThreadNotFound);
    }
    if !isAdmin && thread.value.userId != userId {
      return Failure(FeedbackAccessDenied);
    }
    if FindFeedbackByUserAndChat(feedbacks.rows, userId, chatId).Some? {
      return Failure(FeedbackAlreadyExists);
    }
    var feedback := NewFeedback(userId, chatId, isPositive, now);
    var saved := feedbacks.Insert(feedback);
    r := Success(saved);
  }

  /** `updateStatus`. An unknown id gives FeedbackNotFound and changes
      nothing; otherwise the stored feedback gets the new status, and
      nothing else in the table changes. */
  method UpdateStatus(feedbacks: FeedbackStore, feedbackId: Id, status: FeedbackStatus)
    returns (r: Result<Feedback>)
    requires feedbacks.Valid()
    modifies feedbacks
    ensures feedbacks.Valid() && feedbacks.nextId == old(feedbacks.nextId)
    ensures FindFeedbackById(old(feedbacks.rows), feedbackId).None? ==>
              r == Failure(FeedbackNotFound) && feedbacks.rows == old(feedbacks.rows)
    ensures FindFeedbackById(old(feedbacks.rows), feedbackId).Some? ==>
              && r == Success(FindFeedbackById(old(feedbacks.rows), feedbackId).value.UpdateStatus(status))
              && feedbacks.rows == WithFeedback(old(feedbacks.rows), r.value)
  {
    var feedback := FindFeedbackById(feedbacks.rows, feedbackId);
    if feedback.None? {
      return Failure(FeedbackNotFound);
    }
    var updatedFeedback := feedback.value.UpdateStatus(status);
    var saved := feedbacks.Update(updatedFeedback);
    r := Success(saved);
  }

  /** After a status update, `findById` of that feedback shows the new
      status with every other field as before, and every other feedback
      is unchanged. */
  lemma UpdateStatusStored(rows: seq<Feedback>, feedbackId: Id, status: FeedbackStatus, k: Id)
    requires FindFeedbackById(rows, feedbackId).Some?
    ensures var f := FindFeedbackById(rows, feedbackId).value;
            FindFeedbackById(WithFeedback(rows, f.UpdateStatus(status)), k) ==
            if k == feedbackId then Some(f.UpdateStatus(status)) else FindFeedbackById(rows, k)
  {
    var f := FindFeedbackById(rows, feedbackId).value;
    WithFeedbackFind(rows, f.UpdateStatus(status), k);
  }
}
