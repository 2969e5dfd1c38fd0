/** The feedbacks table (FeedbackRepository.kt, FeedbackJpaEntity.kt): saved
    feedback rows, with the unique constraint on (user_id, chat_id). `save`
    of a new feedback inserts it under the next identity value; `save` of a
    stored one overwrites the row with its id. */
module FeedbackStorage {
  import opened Common
  import opened FeedbackDomain

  /** `findById`. */
  function FindFeedbackById(rows: seq<Feedback>, id: Id): (r: Option<Feedback>)
    ensures r.None? <==> forall i :: 0 <= i < |rows| ==> rows[i].id != Some(id)
    ensures r.Some? ==> r.value in rows && r.value.id == Some(id)
  {
    if rows == [] then None
    else if rows[0].id == Some(id) then Some(rows[0])
    else FindFeedbackById(rows[1..], id)
  }

  /** `findByUserIdAndChatId`. */
  function FindFeedbackByUserAndChat(rows: seq<Feedback>, userId: Id, chatId: Id): (r: Option<Feedback>)
    ensures r.None? <==> forall i :: 0 <= i < |rows| ==> !(rows[i].userId == userId && rows[i].chatId == chatId)
    ensures r.Some? ==> r.value in rows && r.value.userId == userId && r.value.chatId == chatId
  {
    if rows == [] then None
    else if rows[0].userId == userId && rows[0].chatId == chatId then Some(rows[0])
    else FindFeedbackByUserAndChat(rows[1..], userId, chatId)
  }

  /** No two rows share an id. */
  predicate DistinctFeedbackIds(rows: seq<Feedback>) {
    forall i, j :: 0 <= i < j < |rows| ==> rows[i].id != rows[j].id
  }

  /** At most one feedback per user and chat. */
  predicate OnePerUserAndChat(rows: seq<Feedback>) {
    forall i, j :: 0 <= i < j < |rows| ==> !(rows[i].userId == rows[j].userId && rows[i].chatId == rows[j].chatId)
  }

  /** With distinct ids, `findById` finds exactly the row holding that id. */
  lemma {:induction false} FindFeedbackByIdAt(rows: seq<Feedback>, i: nat, id: Id)
    requires DistinctFeedbackIds(rows) && i < |rows| && rows[i].id == Some(id)
    ensures FindFeedbackById(rows, id) == Some(rows[i])
  {
    if i > 0 {
      assert rows[0].id != rows[i].id;
      assert DistinctFeedbackIds(rows[1..]);
      assert rows[1..][i - 1] == rows[i];
      FindFeedbackByIdAt(rows[1..], i - 1, id);
    }
  }

  /** The row overwrite of `save` for a stored feedback. */
  function WithFeedback(rows: seq<Feedback>, f: Feedback): (r: seq<Feedback>)
    ensures |r| == |rows|
  {
    if rows == [] then []
    else [if rows[0].id == f.id then f else rows[0]] + WithFeedback(rows[1..], f)
  }

  /** The overwrite replaces the rows with f's id by f and keeps the others. */
  lemma {:induction false} WithFeedbackAt(rows: seq<Feedback>, f: Feedback, i: nat)
    requires i < |rows|
    ensures WithFeedback(rows, f)[i] == if rows[i].id == f.id then f else rows[i]
  {
    if i > 0 {
      WithFeedbackAt(rows[1..], f, i - 1);
    }
  }

  /** Seen through `findById`: f's id now finds f; other ids are unchanged. */
  lemma {:induction false} WithFeedbackFind(rows: seq<Feedback>, f: Feedback, id: Id)
    requires f.id.Some? && FindFeedbackById(rows, f.id.value).Some?
    ensures FindFeedbackById(WithFeedback(rows, f), id) ==
            if Some(id) == f.id then Some(f) else FindFeedbackById(rows, id)
  {
    if rows[0].id != f.id {
      WithFeedbackFind(rows[1..], f, id);
    } else if Some(id) != f.id {
      WithFeedbackOther(rows[1..], f, id);
    }
  }

  /** Lookups of ids other than f's do not see the overwrite. */
  lemma {:induction false} WithFeedbackOther(rows: seq<Feedback>, f: Feedback, id: Id)
    requires Some(id) != f.id
    ensures FindFeedbackById(WithFeedback(rows, f), id) == FindFeedbackById(rows, id)
  {
    if rows != [] {
      WithFeedbackOther(rows[1..], f, id);
    }
  }

  /** The table's invariant. */
  predicate FeedbackTable(rows: seq<Feedback>, nextId: Id) {
    && 0 < nextId
    && (forall i :: 0 <= i < |rows| ==> rows[i].id.Some? && 0 < rows[i].id.value < nextId)
    && DistinctFeedbackIds(rows)
    && OnePerUserAndChat(rows)
  }

  /** Overwriting a stored row by one with the same id, user and chat keeps
      the invariant. */
  lemma OverwriteKeepsTable(rows: seq<Feedback>, nextId: Id, f: Feedback)
    requires FeedbackTable(rows, nextId)
    requires f.id.Some? && FindFeedbackById(rows, f.id.value).Some?
    requires var g := FindFeedbackById(rows, f.id.value).value; g.userId == f.userId && g.chatId == f.chatId
    ensures FeedbackTable(WithFeedback(rows, f), nextId)
  {
    var g := FindFeedbackById(rows, f.id.value).value;
    var r := WithFeedback(rows, f);
    forall i | 0 <= i < |rows|
      ensures r[i].id == rows[i].id && r[i].userId == rows[i].userId && r[i].chatId == rows[i].chatId
    {
      WithFeedbackAt(rows, f, i);
      if rows[i].id == f.id {
        FindFeedbackByIdAt(rows, i, f.id.value);
      }
    }
  }

  /** The feedback table: rows plus the identity counter. */
  class FeedbackStore {
    var rows: seq<Feedback>
    var nextId: Id

    ghost predicate Valid()
      reads this
    {
      FeedbackTable(rows, nextId)
    }

    constructor ()
      ensures Valid() && rows == [] && nextId == 1
    {
      rows := [];
      nextId := 1;
    }

    /** `save` of a feedback without an id: it is stored under the next
        identity value. The unique constraint rejects a second feedback of
        the same user on the same chat, so the caller must have checked. */
    method Insert(f: Feedback) returns (saved: Feedback)
      requires Valid() && f.id.None?
      requires FindFeedbackByUserAndChat(rows, f.userId, f.chatId).None?
      modifies this
      ensures Valid()
      ensures saved == f.(id := Some(old(nextId)))
      ensures rows == old(rows) + [saved]
      ensures nextId == old(nextId) + 1
    {
      saved := f.(id := Some(nextId));
      rows := rows + [saved];
      nextId := nextId + 1;
    }

    /** `save` of a stored feedback: its row is overwritten. */
    method Update(f: Feedback) returns (saved: Feedback)
      requires Valid() && f.id.Some? && FindFeedbackById(rows, f.id.value).Some?
      requires var g := FindFeedbackById(rows, f.id.value).value; g.userId == f.userId && g.chatId == f.chatId
      modifies this
      ensures Valid()
      ensures saved == f
      ensures rows == WithFeedback(old(rows), f)
      ensures nextId == old(nextId)
    {
      OverwriteKeepsTable(rows, nextId, f);
      rows := WithFeedback(rows, f);
      saved := f;
    }
  }
}
