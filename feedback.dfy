/** The feedback value (Feedback.kt): a user's verdict on one chat turn and
    its review status. Status changes produce a new value. */
module FeedbackDomain {
  import opened Common

  datatype FeedbackStatus = Pending | Resolved

  /** `id` is absent until the feedback is first saved. */
  datatype Feedback = Feedback(id: Option<Id>, userId: Id, chatId: Id, isPositive: bool,
                               status: FeedbackStatus, createdAt: Time)
  {
    /** `updateStatus`: the same feedback with the new status. */
    function UpdateStatus(newStatus: FeedbackStatus): (f: Feedback)
      ensures f.status == newStatus
      ensures f.id == id && f.userId == userId && f.chatId == chatId
      ensures f.isPositive == isPositive && f.createdAt == createdAt
    {
      this.(status := newStatus)
    }
  }

  /** The constructor with its defaults: not yet saved, status PENDING. */
  function NewFeedback(userId: Id, chatId: Id, isPositive: bool, createdAt: Time): (f: Feedback)
    ensures f.id.None? && f.status == Pending
    ensures f.userId == userId && f.chatId == chatId && f.isPositive == isPositive && f.createdAt == createdAt
  {
    Feedback(None, userId, chatId, isPositive, Pending, createdAt)
  }

  /** Setting the same status twice is the same as setting it once. */
  lemma UpdateStatusIdempotent(f: Feedback, s: FeedbackStatus)
    ensures f.UpdateStatus(s).UpdateStatus(s) == f.UpdateStatus(s)
  {
  }

  /** Only the last status set counts. */
  lemma UpdateStatusLastWins(f: Feedback, a: FeedbackStatus, b: FeedbackStatus)
    ensures f.UpdateStatus(a).UpdateStatus(b) == f.UpdateStatus(b)
  {
  }

  /** Setting the status a feedback already has changes nothing. */
  lemma UpdateStatusSame(f: Feedback)
    ensures f.UpdateStatus(f.status) == f
  {
  }
}
