/** ReportService.kt `generateChatReport`: a CSV of the last day's chat turns,
    one row per turn, each with the owner of the turn's thread. The owners
    and their accounts are looked up once per distinct id and cached in two
    maps. The text is modelled as characters; its UTF-8 encoding and the
    timestamp formatting (the parameter `formatTime`) are left to the
    libraries. */
module ReportService {
  import opened Common
  import opened ChatThreadDomain
  import opened ChatThreadStore
  import opened Chats
  import opened Users
  import opened Csv

  /** U+FEFF, written first so that spreadsheet programs detect UTF-8. */
  const ByteOrderMark: char := '\U{FEFF}'
  /** The column names; the header line is them joined by commas, then a
      line feed. */
  const HeaderFields: seq<string> := ["chat_id", "user_id", "user_email", "user_name", "question", "answer", "created_at"]
  const Header: string := JoinComma(HeaderFields) + "\n"

  /** `now.minusDays(1)`: an offset date-time's day is 24 hours. */
  const OneDayMinutes: int := 24 * 60

  /** `findById(threadId)?.userId`. */
  function OwnerOf(threadRows: seq<ThreadRow>, threadId: Id): (r: Option<Id>)
    ensures r.None? <==> FindThreadById(threadRows, threadId).None?
    ensures r.Some? ==> exists t :: t in threadRows && t.id == threadId && t.userId == r.value
  {
    match FindThreadById(threadRows, threadId)
    case None => None
    case Some(t) => Some(t.userId)
  }

  /** The distinct thread ids of the turns. */
  function ThreadIdsOf(chats: seq<Chat>): set<Id> {
    set c | c in chats :: c.threadId
  }

  /** `threadIds.associateWith { ... }`: each thread id of a turn, with its
      owner or nothing when the thread is gone. */
  function ThreadUserMap(threadRows: seq<ThreadRow>, chats: seq<Chat>): (m: map<Id, Option<Id>>)
    ensures forall c :: c in chats ==> c.threadId in m && m[c.threadId] == OwnerOf(threadRows, c.threadId)
    ensures forall t :: t in m ==> t in ThreadIdsOf(chats)
  {
    map t | t in ThreadIdsOf(chats) :: OwnerOf(threadRows, t)
  }

  /** The owners found, each once. */
  function OwnerIds(threadUsers: map<Id, Option<Id>>): set<Id> {
    set t | t in threadUsers && threadUsers[t].Some? :: threadUsers[t].value
  }

  /** `userIds.associateWith { userRepository.findById(it) }`. */
  function UserMap(userRows: seq<User>, threadUsers: map<Id, Option<Id>>): (m: map<Id, Option<User>>)
    ensures forall t :: t in threadUsers && threadUsers[t].Some? ==>
              threadUsers[t].value in m && m[threadUsers[t].value] == FindUserById(userRows, threadUsers[t].value)
  {
    map u | u in OwnerIds(threadUsers) :: FindUserById(userRows, u)
  }

  /** The seven values of a row before escaping. */
  datatype ReportRow = ReportRow(chatId: string, userId: string, email: string, name: string,
                                 question: string, answer: string, createdAt: string)
  {
    function Values(): seq<string> {
      [chatId, userId, email, name, question, answer, createdAt]
    }

    /** `listOf(...).joinToString(",")`: the id, owner id and time are written
        as they are, the four text fields through `escapeCsv`. */
    function Line(): (l: string)
    {
      JoinComma([chatId, userId, EscapeCsv(email), EscapeCsv(name), EscapeCsv(question), EscapeCsv(answer), createdAt])
    }

    /** A row's line opens with the turn id, and when none of the four text
        fields needs quoting it is the plain comma-joined values. */
    lemma LineShape()
      ensures |chatId| <= |Line()| && Line()[..|chatId|] == chatId
      ensures !NeedsQuoting(email) && !NeedsQuoting(name) && !NeedsQuoting(question) && !NeedsQuoting(answer) ==>
                Line() == JoinComma(Values())
    {
      JoinCommaShape([chatId, userId, EscapeCsv(email), EscapeCsv(name), EscapeCsv(question), EscapeCsv(answer), createdAt]);
    }
  }

  /** The row of one turn, given its thread's owner (if found) and that
      owner's account (if found): missing owners and accounts give empty
      fields. */
  function RowOf(chat: Chat, owner: Option<Id>, user: Option<User>, formatTime: Time -> string): (r: ReportRow)
    ensures IsDigits(r.chatId) && DigitsValue(r.chatId) == chat.id
    ensures owner.None? <==> r.userId == ""
    ensures owner.Some? ==> IsDigits(r.userId) && DigitsValue(r.userId) == owner.value
    ensures user.None? ==> r.email == "" && r.name == ""
    ensures user.Some? ==> r.email == user.value.email && r.name == user.value.name
    ensures r.question == chat.question && r.answer == chat.answer && r.createdAt == formatTime(chat.createdAt)
  {
    ReportRow(NatToString(chat.id),
              if owner.Some? then NatToString(owner.value) else "",
              if user.Some? then user.value.email else "",
              if user.Some? then user.value.name else "",
              chat.question, chat.answer, formatTime(chat.createdAt))
  }

  /** The row of one turn with the owner and account looked up directly. */
  function ChatRow(chat: Chat, threadRows: seq<ThreadRow>, userRows: seq<User>, formatTime: Time -> string): (r: ReportRow)
    ensures r.chatId == NatToString(chat.id)
    ensures var t := FindThreadById(threadRows, chat.threadId);
            t.Some? ==> r.userId == NatToString(t.value.userId)
    ensures var t := FindThreadById(threadRows, chat.threadId);
            t.Some? && FindUserById(userRows, t.value.userId).Some? ==>
              r.email == FindUserById(userRows, t.value.userId).value.email &&
              r.name == FindUserById(userRows, t.value.userId).value.name
    ensures r.question == chat.question && r.answer == chat.answer && r.createdAt == formatTime(chat.createdAt)
  {
    var owner := OwnerOf(threadRows, chat.threadId);
    RowOf(chat, owner, if owner.Some? then FindUserById(userRows, owner.value) else None, formatTime)
  }

  /** The rows of the turns, in the order the query returned them. */
  function ReportLines(chats: seq<Chat>, threadRows: seq<ThreadRow>, userRows: seq<User>, formatTime: Time -> string): (r: string)
    ensures chats == [] <==> r == []
    ensures r != [] ==> r[|r| - 1] == '\n'
  {
    if chats == [] then []
    else ReportLines(chats[..|chats| - 1], threadRows, userRows, formatTime) +
         ChatRow(chats[|chats| - 1], threadRows, userRows, formatTime).Line() + "\n"
  }

  /** The turns of the day before `now`, bounds included. */
  function ReportWindow(chatRows: seq<Chat>, now: Time): (w: seq<Chat>)
    ensures forall c :: c in w <==> c in chatRows && now - OneDayMinutes <= c.createdAt <= now
  {
    ChatsCreatedBetween(chatRows, now - OneDayMinutes, now)
  }

  /** The whole report. */
  function ReportText(chatRows: seq<Chat>, threadRows: seq<ThreadRow>, userRows: seq<User>,
                      now: Time, formatTime: Time -> string): (text: string)
    ensures |text| > |Header| && text[0] == ByteOrderMark && text[1..|Header| + 1] == Header
    ensures ReportWindow(chatRows, now) == [] ==> text == [ByteOrderMark] + Header
  {
    [ByteOrderMark] + Header + ReportLines(ReportWindow(chatRows, now), threadRows, userRows, formatTime)
  }

  /** The row of a turn built from the two caches, with Kotlin's null for a
      missing key. */
  function CachedRow(chat: Chat, threadUserMap: map<Id, Option<Id>>, userMap: map<Id, Option<User>>,
                     formatTime: Time -> string): (r: ReportRow)
    ensures r.chatId == NatToString(chat.id)
    ensures chat.threadId !in threadUserMap || threadUserMap[chat.threadId].None? ==>
              r.userId == "" && r.email == "" && r.name == ""
    ensures r.question == chat.question && r.answer == chat.answer && r.createdAt == formatTime(chat.createdAt)
  {
    var userId := if chat.threadId in threadUserMap then threadUserMap[chat.threadId] else None;
    var user := if userId.Some? && userId.value in userMap then userMap[userId.value] else None;
    RowOf(chat, userId, user, formatTime)
  }

  /** The caches change nothing: for every turn the cached row is the row
      with direct lookups. */
  lemma CachedRowIsDirect(chats: seq<Chat>, chat: Chat, threadRows: seq<ThreadRow>, userRows: seq<User>,
                          formatTime: Time -> string)
    requires chat in chats
    ensures var threadUserMap := ThreadUserMap(threadRows, chats);
            CachedRow(chat, threadUserMap, UserMap(userRows, threadUserMap), formatTime) ==
            ChatRow(chat, threadRows, userRows, formatTime)
  {
  }

  /** One more turn adds its row at the end. */
  lemma ReportLinesStep(chats: seq<Chat>, i: nat, threadRows: seq<ThreadRow>, userRows: seq<User>,
                        formatTime: Time -> string)
    requires i < |chats|
    ensures ReportLines(chats[..i + 1], threadRows, userRows, formatTime) ==
            ReportLines(chats[..i], threadRows, userRows, formatTime) +
            ChatRow(chats[i], threadRows, userRows, formatTime).Line() + "\n"
  {
    assert chats[..i + 1][..i] == chats[..i];
  }

  /** One iteration of the report loop: appending the cached row and a line
      feed extends the report by the next turn's line. */
  lemma CachedReportStep(prefix: string, window: seq<Chat>, i: nat, threadRows: seq<ThreadRow>, userRows: seq<User>,
                         formatTime: Time -> string)
    requires i < |window|
    ensures var threadUserMap := ThreadUserMap(threadRows, window);
            prefix + ReportLines(window[..i], threadRows, userRows, formatTime) +
            CachedRow(window[i], threadUserMap, UserMap(userRows, threadUserMap), formatTime).Line() + "\n" ==
            prefix + ReportLines(window[..i + 1], threadRows, userRows, formatTime)
  {
    var threadUserMap := ThreadUserMap(threadRows, window);
    var row := CachedRow(window[i], threadUserMap, UserMap(userRows, threadUserMap), formatTime).Line();
    CachedRowIsDirect(window, window[i], threadRows, userRows, formatTime);
    ReportLinesStep(window, i, threadRows, userRows, formatTime);
    var lines := ReportLines(window[..i], threadRows, userRows, formatTime);
    ConcatAssoc(prefix, lines, row);
    ConcatAssoc(prefix, lines + row, "\n");
  }

  /** `generateChatReport`: reads the three tables, changes none of them,
      and writes the report row by row, with the cached owner and account
      of each turn. */
  method GenerateChatReport(chats: ChatStore, threads: ThreadStore, users: UserStore,
                            formatTime: Time -> string, now: Time)
    returns (out: string)
    ensures out == ReportText(chats.rows, threads.rows, users.rows, now, formatTime)
  {
    var oneDayAgo := now - OneDayMinutes;
    var window := ChatsCreatedBetween(chats.rows, oneDayAgo, now);
    var threadUserMap := ThreadUserMap(threads.rows, window);
    var userMap := UserMap(users.rows, threadUserMap);
    ghost var threadRows, userRows := threads.rows, users.rows;
    out := [ByteOrderMark];
    out := out + Header;
    ghost var prefix := out;
    assert window[..0] == [];
    for i := 0 to |window|
      invariant out == prefix + ReportLines(window[..i], threadRows, userRows, formatTime)
    {
      var row := CachedRow(window[i], threadUserMap, userMap, formatTime).Line();
      CachedReportStep(prefix, window, i, threadRows, userRows, formatTime);
      out := out + row;
      out := out + "\n";
    }
    assert window[..|window|] == window;
  }

  /** The fields of a turn's row, as a reader of the CSV sees them. */
  function RowRecord(chat: Chat, threadRows: seq<ThreadRow>, userRows: seq<User>, formatTime: Time -> string): seq<string> {
    ChatRow(chat, threadRows, userRows, formatTime).Values()
  }

  /** The rows' fields, one record per turn. */
  function RowRecords(chats: seq<Chat>, threadRows: seq<ThreadRow>, userRows: seq<User>, formatTime: Time -> string): (r: seq<seq<string>>)
    ensures |r| == |chats|
    ensures forall i :: 0 <= i < |chats| ==> r[i] == RowRecord(chats[i], threadRows, userRows, formatTime)
  {
    if chats == [] then []
    else RowRecords(chats[..|chats| - 1], threadRows, userRows, formatTime) +
         [RowRecord(chats[|chats| - 1], threadRows, userRows, formatTime)]
  }

  lemma DigitsNeedNoQuoting(s: string)
    requires IsDigits(s)
    ensures !NeedsQuoting(s)
  {
  }

  /** Written out through `escapeCsv` or not, a row's line is the standard
      record text of its values, provided the formatted time needs no
      quoting (an ISO-8601 time has no comma, quote or line feed). */
  lemma LineIsRecord(row: ReportRow)
    requires IsDigits(row.chatId) && IsDigits(row.userId)
    requires !NeedsQuoting(row.createdAt)
    ensures row.Line() + "\n" == RecordText(row.Values())
  {
    DigitsNeedNoQuoting(row.chatId);
    DigitsNeedNoQuoting(row.userId);
    var v := row.Values();
    var e := EscapeAll(v);
    assert e[0] == EscapeCsv(v[0]) == row.chatId;
    assert e[1] == EscapeCsv(v[1]) == row.userId;
    assert e[6] == EscapeCsv(v[6]) == row.createdAt;
    assert e == [row.chatId, row.userId, EscapeCsv(row.email), EscapeCsv(row.name),
                 EscapeCsv(row.question), EscapeCsv(row.answer), row.createdAt];
  }

  /** The rows of a report, read back with a CSV reader, are the turns'
      values in query order, one record per turn. */
  lemma {:induction false} ReportLinesRecords(chats: seq<Chat>, threadRows: seq<ThreadRow>, userRows: seq<User>,
                                              formatTime: Time -> string)
    requires forall i :: 0 <= i < |chats| ==> !NeedsQuoting(formatTime(chats[i].createdAt))
    ensures ReportLines(chats, threadRows, userRows, formatTime) ==
            RecordsText(RowRecords(chats, threadRows, userRows, formatTime))
  {
    if chats != [] {
      var front := chats[..|chats| - 1];
      var last := chats[|chats| - 1];
      assert forall i :: 0 <= i < |front| ==> front[i] == chats[i];
      ReportLinesRecords(front, threadRows, userRows, formatTime);
      var row := ChatRow(last, threadRows, userRows, formatTime);
      LineIsRecord(row);
      var lines := ReportLines(front, threadRows, userRows, formatTime);
      var records := RowRecords(front, threadRows, userRows, formatTime);
      assert RowRecords(chats, threadRows, userRows, formatTime) == records + [row.Values()];
      RecordsTextAppend(records, row.Values());
      ConcatAssoc(lines, row.Line(), "\n");
    }
  }

  /** Lower-case letters and underscores only. */
  predicate IsIdentifier(s: string) {
    forall i :: 0 <= i < |s| ==> 'a' <= s[i] <= 'z' || s[i] == '_'
  }

  lemma IdentifierNeedsNoQuoting(s: string)
    requires IsIdentifier(s)
    ensures !NeedsQuoting(s)
  {
  }

  /** Values that need no quoting are written as they are. */
  lemma {:induction false} EscapeAllPlain(fields: seq<string>)
    requires forall i :: 0 <= i < |fields| ==> !NeedsQuoting(fields[i])
    ensures EscapeAll(fields) == fields
  {
    if fields != [] {
      EscapeAllPlain(fields[1..]);
    }
  }

  /** The header line is the standard record of the column names: none of
      them needs quoting. */
  lemma HeaderIsRecord()
    ensures Header == RecordText(HeaderFields)
  {
    IdentifierNeedsNoQuoting("chat_id");
    IdentifierNeedsNoQuoting("user_id");
    IdentifierNeedsNoQuoting("user_email");
    IdentifierNeedsNoQuoting("user_name");
    IdentifierNeedsNoQuoting("question");
    IdentifierNeedsNoQuoting("answer");
    IdentifierNeedsNoQuoting("created_at");
    EscapeAllPlain(HeaderFields);
  }

  /** After the byte order mark, a CSV reader sees the column names, then one
      seven-field record per turn of the day, in query order, each holding
      the turn id, the owner id (or nothing), the owner's e-mail and name (or
      nothing), the question, the answer and the formatted time. */
  lemma ReportReadsBack(chatRows: seq<Chat>, threadRows: seq<ThreadRow>, userRows: seq<User>,
                          now: Time, formatTime: Time -> string)
    requires forall t :: !NeedsQuoting(formatTime(t))
    ensures var text := ReportText(chatRows, threadRows, userRows, now, formatTime);
            && text[0] == ByteOrderMark
            && ReadRecords(text[1..]) ==
               [HeaderFields] + RowRecords(ReportWindow(chatRows, now), threadRows, userRows, formatTime)
  {
    var window := ReportWindow(chatRows, now);
    var records := RowRecords(window, threadRows, userRows, formatTime);
    var text := ReportText(chatRows, threadRows, userRows, now, formatTime);
    ReportLinesRecords(window, threadRows, userRows, formatTime);
    HeaderIsRecord();
    ReadBackAfterMark(ByteOrderMark, HeaderFields, records);
  }

  /** A mark character, a header record and data records read back, after
      the mark, as the header and then the records. */
  lemma ReadBackAfterMark(mark: char, headerFields: seq<string>, records: seq<seq<string>>)
    requires |headerFields| > 0
    requires forall i :: 0 <= i < |records| ==> |records[i]| > 0
    ensures ([mark] + RecordText(headerFields) + RecordsText(records))[1..] == RecordsText([headerFields] + records)
    ensures ReadRecords(RecordsText([headerFields] + records)) == [headerFields] + records
  {
    var all := [headerFields] + records;
    var head := RecordText(headerFields);
    var rest := RecordsText(records);
    assert all[0] == headerFields && all[1..] == records;
    assert RecordsText(all) == head + rest;
    assert ([mark] + head + rest)[1..] == head + rest;
    ReadRecordsWritten(all);
  }

  /** A query matching nothing returns no turns. */
  lemma {:induction false} NothingBetween(rows: seq<Chat>, start: Time, end: Time)
    requires forall i :: 0 <= i < |rows| ==> !(start <= rows[i].createdAt <= end)
    ensures ChatsCreatedBetween(rows, start, end) == []
  {
    if rows != [] {
      assert forall i :: 0 <= i < |rows[1..]| ==> rows[1..][i] == rows[i + 1];
      NothingBetween(rows[1..], start, end);
    }
  }

  /** With no turn in the window, the report is the header alone. */
  lemma EmptyReport(chatRows: seq<Chat>, threadRows: seq<ThreadRow>, userRows: seq<User>,
                    now: Time, formatTime: Time -> string)
    requires forall i :: 0 <= i < |chatRows| ==> !(now - OneDayMinutes <= chatRows[i].createdAt <= now)
    ensures ReportText(chatRows, threadRows, userRows, now, formatTime) == [ByteOrderMark] + Header
  {
    NothingBetween(chatRows, now - OneDayMinutes, now);
  }

  /** A turn whose thread is gone gets empty owner fields, and the report
      is still written. */
  lemma MissingThreadRow(chat: Chat, threadRows: seq<ThreadRow>, userRows: seq<User>, formatTime: Time -> string)
    requires FindThreadById(threadRows, chat.threadId).None?
    ensures var row := ChatRow(chat, threadRows, userRows, formatTime);
            row.userId == "" && row.email == "" && row.name == "" &&
            row.question == chat.question && row.answer == chat.answer
  {
  }

  /** A thread whose owner has no account gives the owner id but empty
      e-mail and name fields. */
  lemma MissingUserRow(chat: Chat, threadRows: seq<ThreadRow>, userRows: seq<User>, formatTime: Time -> string)
    requires OwnerOf(threadRows, chat.threadId).Some?
    requires FindUserById(userRows, OwnerOf(threadRows, chat.threadId).value).None?
    ensures var row := ChatRow(chat, threadRows, userRows, formatTime);
            row.userId == NatToString(OwnerOf(threadRows, chat.threadId).value) && row.email == "" && row.name == ""
  {
  }
}
