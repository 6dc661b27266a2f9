/**
 * The chat history list: the mapping of fetched session rows with their
 * defaults, the fetch's effect on the list, and the guard of a click on a
 * session.
 */
module ChatHistory {
  import opened Wrappers
  import opened Text

  const UntitledSession := "Untitled Session"

  /**
   * A fetched row of `chat_sessions` with its joins: the title, the file id,
   * the joined file's name (`None` when the join or the name is null) and the
   * aggregate message counts.
   */
  datatype FetchedRow = FetchedRow(
    id: string,
    title: Option<string>,
    createdAt: string,
    fileId: Option<string>,
    fileName: Option<string>,
    counts: seq<nat>)

  /** A session as the list shows it. */
  datatype Session = Session(
    id: string,
    title: string,
    createdAt: string,
    messageCount: nat,
    fileId: Option<string>,
    fileName: Option<string>)

  /** One fetched row as a session. */
  function ToSession(row: FetchedRow): (s: Session)
    ensures s.id == row.id && s.createdAt == row.createdAt && s.fileId == row.fileId
    ensures s.title == (if Truthy(row.title) then row.title.value else UntitledSession)
    ensures s.messageCount == (if |row.counts| > 0 then row.counts[0] else 0)
    ensures s.fileName.Some? <==> Truthy(row.fileName)
    ensures s.fileName.Some? ==> s.fileName == row.fileName
  {
    Session(
      row.id,
      if Truthy(row.title) then row.title.value else UntitledSession,
      row.createdAt,
      if |row.counts| > 0 then row.counts[0] else 0,
      row.fileId,
      if Truthy(row.fileName) then row.fileName else None)
  }

  /** `data.map(...)`: one session per row, in order. */
  function Sessions(rows: seq<FetchedRow>): (r: seq<Session>)
    ensures |r| == |rows|
    ensures forall i :: 0 <= i < |rows| ==> r[i] == ToSession(rows[i])
  {
    if |rows| == 0 then [] else [ToSession(rows[0])] + Sessions(rows[1..])
  }

  /** Every listed session has a non-empty title. */
  lemma {:induction false} TitlesNonEmpty(rows: seq<FetchedRow>)
    ensures forall s :: s in Sessions(rows) ==> s.title != []
  {
    var r := Sessions(rows);
    forall s | s in r
      ensures s.title != []
    {
      var i :| 0 <= i < |r| && r[i] == s;
      assert s == ToSession(rows[i]);
    }
  }

  /**
   * `handleSessionClick`: the session is selected (its id, file id and file
   * name passed on) only when there is a callback and both the file id and
   * the file name are present and non-empty.
   */
  function Click(session: Session, hasCallback: bool): (r: Option<(string, string, string)>)
    ensures r.Some? <==> hasCallback && Truthy(session.fileId) && Truthy(session.fileName)
    ensures r.Some? ==> r.value == (session.id, session.fileId.value, session.fileName.value)
  {
    if hasCallback && Truthy(session.fileId) && Truthy(session.fileName) then
      Some((session.id, session.fileId.value, session.fileName.value))
    else None
  }

  /** The history list's state. */
  class History {
    var sessions: seq<Session>
    var loading: bool

    constructor ()
      ensures sessions == [] && loading
    {
      sessions := [];
      loading := true;
    }

    /**
     * `fetchSessions`: `userId` is the signed-in user and `rows` the fetched
     * rows (`None` on an error). Without a user or on an error the list is
     * kept; `loading` is false afterwards in every case.
     */
    method FetchSessions(userId: Option<string>, rows: Option<seq<FetchedRow>>)
      modifies this
      ensures sessions == (if userId.Some? && rows.Some? then Sessions(rows.value) else old(sessions))
      ensures !loading
    {
      if userId.Some? && rows.Some? {
        sessions := Sessions(rows.value);
      }
      loading := false;
    }
  }
}
