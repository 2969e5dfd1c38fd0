/** The conversation thread of one user (ChatThread.kt): a run of turns that
    stays open while they keep arriving within the inactivity window. */
module ChatThreadDomain {
  import opened Common

  /** Minutes of inactivity after which a thread is retired. */
  const ThreadTimeoutMinutes: int := 30

  /** The expiry rule: a thread last active at `lastActivityAt` is expired at
      `time` when the end of its window lies strictly before `time`. A gap of
      exactly the timeout is therefore not expired. */
  function ExpiredAt(lastActivityAt: Time, time: Time): (b: bool)
    ensures b <==> time - lastActivityAt > ThreadTimeoutMinutes
    ensures b ==> lastActivityAt < time
  {
    lastActivityAt + ThreadTimeoutMinutes < time
  }

  /** A thread as it is stored: the row of the chat_threads table. */
  datatype ThreadRow = ThreadRow(id: Id, userId: Id, lastActivityAt: Time, createdAt: Time)

  /** The domain object handed out by the thread store. Only its last
      activity time is mutable. */
  class ChatThread {
    const id: Id
    const userId: Id
    var lastActivityAt: Time
    const createdAt: Time

    constructor (id: Id, userId: Id, lastActivityAt: Time, createdAt: Time)
      ensures this.id == id && this.userId == userId
      ensures this.lastActivityAt == lastActivityAt && this.createdAt == createdAt
    {
      this.id := id;
      this.userId := userId;
      this.lastActivityAt := lastActivityAt;
      this.createdAt := createdAt;
    }

    /** The object's current field values as a row. */
    function Row(): ThreadRow
      reads this
    {
      ThreadRow(id, userId, lastActivityAt, createdAt)
    }

    /** `isExpired`: more than the timeout has passed since the last
        activity. */
    function IsExpired(time: Time): (b: bool)
      reads this
      ensures b <==> time - lastActivityAt > ThreadTimeoutMinutes
      ensures b ==> lastActivityAt < time
    {
      ExpiredAt(lastActivityAt, time)
    }

    /** Sets the last activity time; identity, owner and creation time are
        constants and cannot change. */
    method UpdateLastActivityAt(time: Time)
      modifies this
      ensures lastActivityAt == time
      ensures Row() == old(Row()).(lastActivityAt := time)
      ensures !IsExpired(time)
    {
      lastActivityAt := time;
    }
  }

  /** A gap of exactly the timeout keeps the thread open; one minute more
      retires it. */
  lemma ExpiryBoundary(lastActivityAt: Time)
    ensures !ExpiredAt(lastActivityAt, lastActivityAt + ThreadTimeoutMinutes)
    ensures ExpiredAt(lastActivityAt, lastActivityAt + ThreadTimeoutMinutes + 1)
  {
  }

  /** The two cases the service tests exercise: 10 minutes after the last
      activity the thread is open, 40 minutes after it is retired. */
  lemma ExpiryExamples(lastActivityAt: Time)
    ensures !ExpiredAt(lastActivityAt, lastActivityAt + 10)
    ensures ExpiredAt(lastActivityAt, lastActivityAt + 40)
  {
  }

  /** Once retired, a thread stays retired at every later instant. */
  lemma ExpiryMonotone(lastActivityAt: Time, t: Time, t': Time)
    requires ExpiredAt(lastActivityAt, t) && t <= t'
    ensures ExpiredAt(lastActivityAt, t')
  {
  }

  /** A thread is open at every instant from its last activity up to the
      end of its window. */
  lemma OpenWithinWindow(lastActivityAt: Time, t: Time)
    requires t <= lastActivityAt + ThreadTimeoutMinutes
    ensures !ExpiredAt(lastActivityAt, t)
  {
  }
}
