/**
 * The chat panel: the guard of `handleSend`, the messages it appends and
 * stores, the title and the condition of a new session, and the mapping of
 * stored messages when a session is loaded.
 *
 * The signed-in user, the clock, the new session's id and the analysis
 * reply are parameters.
 */
module ChatInterface {
  import opened Wrappers
  import opened Text

  const UserRole := "user"
  const AssistantRole := "assistant"

  /** A message as the panel shows it. */
  datatype Message = Message(
    id: string,
    role: string,
    content: string,
    observation: Option<string>,
    interpretation: Option<string>,
    actionableConclusion: Option<string>)

  /** A row of `chat_messages`. */
  datatype MessageRow = MessageRow(
    id: string,
    role: string,
    content: string,
    observation: Option<string>,
    interpretation: Option<string>,
    actionableConclusion: Option<string>)

  /** A row `handleSend` inserts into `chat_messages`. */
  datatype StoredMessage = StoredMessage(
    sessionId: string,
    userId: string,
    role: string,
    content: string,
    observation: Option<string>,
    interpretation: Option<string>,
    actionableConclusion: Option<string>)

  /** The body of a successful `analyze-data` reply. */
  datatype Reply = Reply(
    content: string,
    observation: Option<string>,
    interpretation: Option<string>,
    actionableConclusion: Option<string>)

  /** A row of `chat_sessions` as `createSession` inserts it, with the id the table gives it. */
  datatype SessionRow = SessionRow(id: string, userId: string, fileId: Option<string>, title: string)

  /** What the panel does when its props change. */
  datatype SessionAction = LoadSession(sessionId: string) | CreateSession | KeepSession

  // ---------------------------------------------------------------------------
  // Sessions

  /** The title of a new session: `Analysis: <file name>`, or `New Analysis` without a file name. */
  function SessionTitle(fileName: Option<string>): (title: string)
    ensures Truthy(fileName) ==> title == "Analysis: " + fileName.value
    ensures !Truthy(fileName) ==> title == "New Analysis"
  {
    if Truthy(fileName) then "Analysis: " + fileName.value else "New Analysis"
  }

  /**
   * The effect on the props: a session id given as a prop is loaded; without
   * one, a session is created when there is a file and no session is held.
   */
  function OnProps(propSessionId: Option<string>, fileId: Option<string>, sessionId: Option<string>): (a: SessionAction)
    ensures a.LoadSession? <==> Truthy(propSessionId)
    ensures a.LoadSession? ==> a.sessionId == propSessionId.value
    ensures a == CreateSession <==> !Truthy(propSessionId) && Truthy(fileId) && !Truthy(sessionId)
  {
    if Truthy(propSessionId) then LoadSession(propSessionId.value)
    else if Truthy(fileId) && !Truthy(sessionId) then CreateSession
    else KeepSession
  }

  /** `msg.field || undefined`: an empty string is dropped. */
  function Defined(v: Option<string>): (r: Option<string>)
    ensures r.Some? <==> Truthy(v)
    ensures r.Some? ==> r == v
  {
    if Truthy(v) then v else None
  }

  /** One loaded row as a message. */
  function ToMessage(row: MessageRow): Message {
    Message(row.id, row.role, row.content, Defined(row.observation), Defined(row.interpretation),
            Defined(row.actionableConclusion))
  }

  /** `data.map(...)` in `loadSessionMessages`: one message per row, in order. */
  function LoadedMessages(rows: seq<MessageRow>): (r: seq<Message>)
    ensures |r| == |rows|
    ensures forall i :: 0 <= i < |rows| ==> r[i] == ToMessage(rows[i])
  {
    if |rows| == 0 then [] else [ToMessage(rows[0])] + LoadedMessages(rows[1..])
  }

  /** A loaded message keeps its row's id, role and content, and an analysis field only when it is non-empty. */
  lemma LoadedMessageFields(rows: seq<MessageRow>, i: nat)
    requires i < |rows|
    ensures var m := LoadedMessages(rows)[i];
            m.id == rows[i].id && m.role == rows[i].role && m.content == rows[i].content
            && (m.observation.Some? <==> Truthy(rows[i].observation))
            && (m.interpretation.Some? <==> Truthy(rows[i].interpretation))
            && (m.actionableConclusion.Some? <==> Truthy(rows[i].actionableConclusion))
  {
  }

  // ---------------------------------------------------------------------------
  // Sending

  /**
   * The guard of `handleSend`: a message is sent only when the input is not
   * blank (`input.trim()` is not empty, which by the contract of `Trim` is the
   * same) and a session is held.
   */
  predicate CanSend(input: string, sessionId: Option<string>) {
    !IsBlank(input) && Truthy(sessionId)
  }

  /** The message the user's input becomes, its id the clock reading `now`. */
  function UserMessage(input: string, now: nat): Message {
    Message(NatToString(now), UserRole, input, None, None, None)
  }

  /** The message an analysis reply becomes, its id one past the clock reading `now`. */
  function AssistantMessage(reply: Reply, now: nat): Message {
    Message(NatToString(now + 1), AssistantRole, reply.content, reply.observation, reply.interpretation,
            reply.actionableConclusion)
  }

  /**
   * The message list after a send: the user's message, then the assistant's
   * when a user is signed in and the analysis replied.
   */
  function MessagesAfterSend(messages: seq<Message>, input: string, sent: nat, replied: nat,
                             userId: Option<string>, reply: Option<Reply>): seq<Message> {
    if userId.Some? && reply.Some? then messages + [UserMessage(input, sent), AssistantMessage(reply.value, replied)]
    else messages + [UserMessage(input, sent)]
  }

  /**
   * A send only appends: the old list is a prefix of the new one, the user's
   * message comes next, and an assistant message follows only when the
   * analysis replied.
   */
  lemma SendAppends(messages: seq<Message>, input: string, sent: nat, replied: nat,
                    userId: Option<string>, reply: Option<Reply>)
    ensures var after := MessagesAfterSend(messages, input, sent, replied, userId, reply);
            |messages| < |after| <= |messages| + 2
            && after[..|messages|] == messages
            && after[|messages|] == UserMessage(input, sent)
            && after[|messages|].content == input
            && (|after| == |messages| + 2 <==> userId.Some? && reply.Some?)
            && (forall i :: |messages| <= i < |after| && after[i].role == AssistantRole ==> reply.Some?)
  {
  }

  /** The rows a send stores: the user's message once a user is signed in, the reply's when it came. */
  function StoredAfterSend(stored: seq<StoredMessage>, input: string, sessionId: string,
                           userId: Option<string>, reply: Option<Reply>): seq<StoredMessage> {
    if userId.None? then stored
    else
      var asked := StoredMessage(sessionId, userId.value, UserRole, input, None, None, None);
      if reply.None? then stored + [asked]
      else
        var r := reply.value;
        stored + [asked, StoredMessage(sessionId, userId.value, AssistantRole, r.content, r.observation,
                                       r.interpretation, r.actionableConclusion)]
  }

  /**
   * A send only appends rows of its own session and user: none without a
   * user; otherwise the user's input, then the reply's row exactly when the
   * analysis replied.
   */
  lemma StoredAppends(stored: seq<StoredMessage>, input: string, sessionId: string,
                      userId: Option<string>, reply: Option<Reply>)
    ensures var after := StoredAfterSend(stored, input, sessionId, userId, reply);
            && |after| == |stored| + (if userId.None? then 0 else if reply.None? then 1 else 2)
            && after[..|stored|] == stored
            && (forall i :: |stored| <= i < |after| ==> after[i].sessionId == sessionId && after[i].userId == userId.value)
            && (|after| > |stored| ==> after[|stored|].role == UserRole && after[|stored|].content == input)
            && (|after| == |stored| + 2 ==> after[|stored| + 1].role == AssistantRole && after[|stored| + 1].content == reply.value.content)
  {
  }

  /** The chat panel's state. */
  class Chat {
    var messages: seq<Message>
    var input: string
    var loading: bool
    var sessionId: Option<string>
    var stored: seq<StoredMessage>
    var sessions: seq<SessionRow>

    /** The initial state: the session id prop, if any, is held. */
    constructor (propSessionId: Option<string>)
      ensures messages == [] && input == [] && !loading && stored == [] && sessions == []
      ensures sessionId == (if Truthy(propSessionId) then propSessionId else None)
    {
      messages := [];
      input := [];
      loading := false;
      sessionId := if Truthy(propSessionId) then propSessionId else None;
      stored := [];
      sessions := [];
    }

    /**
     * `handleSend`. `userId` is the signed-in user, `sent` and `replied` the
     * clock at the user's and the assistant's message, `reply` the analysis
     * reply (`None` on an error). A blank input or a missing session changes
     * nothing; otherwise the input is cleared, the messages and stored rows
     * grow as `MessagesAfterSend` and `StoredAfterSend` say, and `loading` is
     * false again at the end.
     */
    method HandleSend(userId: Option<string>, sent: nat, replied: nat, reply: Option<Reply>)
      modifies this
      ensures !CanSend(old(input), old(sessionId)) ==>
                messages == old(messages) && input == old(input) && loading == old(loading) && stored == old(stored)
      ensures CanSend(old(input), old(sessionId)) ==>
                messages == MessagesAfterSend(old(messages), old(input), sent, replied, userId, reply)
                && stored == StoredAfterSend(old(stored), old(input), old(sessionId).value, userId, reply)
                && input == [] && !loading
      ensures sessionId == old(sessionId) && sessions == old(sessions)
    {
      if !CanSend(input, sessionId) {
        return;
      }
      var question := input;
      var session := sessionId.value;
      var asked := UserMessage(question, sent);
      messages := messages + [asked];
      input := [];
      loading := true;
      if userId.Some? {
        stored := stored + [StoredMessage(session, userId.value, UserRole, question, None, None, None)];
        if reply.Some? {
          var r := reply.value;
          var answer := AssistantMessage(r, replied);
          messages := messages + [answer];
          assert messages == old(messages) + [asked, answer];
          stored := stored + [StoredMessage(session, userId.value, AssistantRole, r.content, r.observation,
                                            r.interpretation, r.actionableConclusion)];
        }
      }
      loading := false;
    }

    /**
     * `createSession` for the file `fileId` named `fileName`. `userId` is the
     * signed-in user and `newId` the inserted row's id (`None` when the insert
     * fails). Only a successful insert adds a session, and the panel then
     * holds it; otherwise nothing changes.
     */
    method CreateSession(userId: Option<string>, fileId: Option<string>, fileName: Option<string>, newId: Option<string>)
      modifies this
      ensures userId.Some? && newId.Some? ==>
                sessions == old(sessions) + [SessionRow(newId.value, userId.value, fileId, SessionTitle(fileName))]
                && sessionId == newId
      ensures userId.None? || newId.None? ==> sessions == old(sessions) && sessionId == old(sessionId)
      ensures messages == old(messages) && input == old(input) && loading == old(loading) && stored == old(stored)
    {
      if userId.None? || newId.None? {
        return;
      }
      sessions := sessions + [SessionRow(newId.value, userId.value, fileId, SessionTitle(fileName))];
      sessionId := newId;
    }

    /** `loadSessionMessages`: the loaded rows replace the list; a failed load keeps it. */
    method LoadSessionMessages(rows: Option<seq<MessageRow>>)
      modifies this
      ensures messages == (if rows.Some? then LoadedMessages(rows.value) else old(messages))
      ensures input == old(input) && loading == old(loading) && sessionId == old(sessionId)
      ensures stored == old(stored) && sessions == old(sessions)
    {
      if rows.Some? {
        messages := LoadedMessages(rows.value);
      }
    }
  }
}
