/** Conversation history: what is stored after any appends. */
module Conversations {
  import opened Text
  import Jobs

  const MAX_MESSAGES := 40

  datatype Message = Message(role: string, content: string)

  /** `unicode.ToLower`, exact on every character whose lower case is an ASCII letter. */
  function LowerChar(c: char): char {
    if 'A' <= c <= 'Z' then c - 'A' + 'a'
    else if c == '\U{130}' then 'i'
    else if c == '\U{212A}' then 'k'
    else c
  }

  function Lower(s: string): (r: string)
    ensures |r| == |s| && forall i :: 0 <= i < |s| ==> r[i] == LowerChar(s[i])
  {
    seq(|s|, i requires 0 <= i < |s| => LowerChar(s[i]))
  }

  function NormalizeRole(role: string): string {
    var lower := Lower(TrimSpace(role));
    if lower == "system" || lower == "assistant" then lower else "user"
  }

  function Normalize(m: Message): Message {
    Message(NormalizeRole(m.role), TrimSpace(m.content))
  }

  /** Every message normalized, the blank ones dropped. */
  function Cleaned(ms: seq<Message>): seq<Message> {
    if ms == [] then []
    else
      var rest, last := Cleaned(ms[..|ms| - 1]), Normalize(ms[|ms| - 1]);
      if last.content == "" then rest else rest + [last]
  }

  function LastOf(ms: seq<Message>, n: nat): seq<Message> {
    if |ms| <= n then ms else ms[|ms| - n..]
  }

  /** The window of a history: its last 40 visible messages. */
  function Window(ms: seq<Message>): seq<Message> {
    LastOf(Cleaned(ms), MAX_MESSAGES)
  }

  method TrimMessages(messages: seq<Message>) returns (kept: seq<Message>)
    ensures kept == Window(messages)
    ensures exists at :: AreNewest(messages, kept, at)
  {
    hide AreNewest;
    kept := [];
    for i := 0 to |messages|
      invariant kept == Cleaned(messages[..i])
    {
      var message := Normalize(messages[i]);
      assert messages[..i + 1][..i] == messages[..i];
      if message.content != "" {
        kept := kept + [message];
      }
    }
    assert messages[..|messages|] == messages;
    if |kept| > MAX_MESSAGES {
      kept := kept[|kept| - MAX_MESSAGES..];
    }
    ghost var at := WindowMeans(messages);
  }

  // ----- normalizing twice changes nothing -----

  lemma KnownRoleStays(role: string)
    requires role in {"system", "assistant", "user"}
    ensures NormalizeRole(role) == role
  {
    hide TrimSpace;
    TrimSpaceTrims(role);
    assert Trimmed(role) && Lower(role) == role;
  }

  predicate IsNormal(m: Message) {
    m.role in {"system", "assistant", "user"} && Trimmed(m.content) && m.content != ""
  }

  lemma NormalizeIsStable(m: Message)
    ensures Normalize(m).content != "" ==> IsNormal(Normalize(m))
    ensures IsNormal(m) ==> Normalize(m) == m
  {
    hide TrimSpace, Trimmed, NormalizeRole;
    assert NormalizeRole(m.role) in {"system", "assistant", "user"} by {
      RoleIsKnown(m.role);
    }
    TrimSpaceTrims(m.content);
    if IsNormal(m) {
      KnownRoleStays(m.role);
    }
  }

  lemma RoleIsKnown(role: string)
    ensures NormalizeRole(role) in {"system", "assistant", "user"}
  {
  }

  lemma {:induction false} CleanedIsNormal(ms: seq<Message>)
    ensures forall m :: m in Cleaned(ms) ==> IsNormal(m)
  {
    hide IsNormal, Normalize;
    if ms != [] {
      CleanedIsNormal(ms[..|ms| - 1]);
      NormalizeIsStable(ms[|ms| - 1]);
    }
  }

  lemma {:induction false} CleanedKeepsNormal(ms: seq<Message>)
    requires forall m :: m in ms ==> IsNormal(m)
    ensures Cleaned(ms) == ms
  {
    hide Normalize, IsNormal;
    if ms != [] {
      var front, last := ms[..|ms| - 1], ms[|ms| - 1];
      assert ms == front + [last];
      CleanedKeepsNormal(front);
      NormalIsKept(last);
    }
  }

  lemma NormalIsKept(m: Message)
    requires IsNormal(m)
    ensures Normalize(m) == m && m.content != ""
  {
    hide NormalizeRole;
    NormalizeIsStable(m);
  }

  lemma CleanedAppend(ms: seq<Message>, m: Message)
    ensures Cleaned(ms + [m]) == Cleaned(ms) + if Normalize(m).content == "" then [] else [Normalize(m)]
  {
    assert (ms + [m])[..|ms|] == ms;
  }

  /** Appending to the window and trimming again is the same as trimming the whole history. */
  lemma WindowIsIncremental(history: seq<Message>, m: Message)
    ensures Window(Window(history) + [m]) == Window(history + [m])
  {
    hide Normalize, IsNormal, Cleaned;
    CleanedIsNormal(history);
    CleanedKeepsNormal(Window(history));
    CleanedAppend(Window(history), m);
    CleanedAppend(history, m);
  }

  /** A message that is blank once normalized leaves the window as it is. */
  lemma BlankLeavesWindow(history: seq<Message>, m: Message)
    requires Normalize(m).content == ""
    ensures Window(history + [m]) == Window(history)
  {
    CleanedAppend(history, m);
  }

  /** Normalizing a visible message before it is appended changes nothing either. */
  lemma NormalizeFirst(history: seq<Message>, m: Message)
    requires Normalize(m).content != ""
    ensures Window(Window(history) + [Normalize(m)]) == Window(history + [m])
  {
    hide Normalize, IsNormal;
    NormalizeIsStable(m);
    NormalizeIsStable(Normalize(m));
    WindowIsIncremental(history, Normalize(m));
    CleanedAppend(history, Normalize(m));
    CleanedAppend(history, m);
  }

  // ----- what the window is, message by message -----

  predicate SameButCase(c: char, lower: char) {
    c == lower || ('a' <= lower <= 'z' && c as int == lower as int - 32)
      || (lower == 'i' && c == '\U{130}') || (lower == 'k' && c == '\U{212A}')
  }

  /** The trimmed role is `known`, in whatever case. */
  predicate Reads(role: string, known: string) {
    |TrimSpace(role)| == |known| && forall i :: 0 <= i < |known| ==> SameButCase(TrimSpace(role)[i], known[i])
  }

  /** Message `kept` is message `m` as it is stored: its content trimmed, and one of three roles. */
  ghost predicate IsStoredForm(m: Message, kept: Message) {
    && IsTrimOf(kept.content, m.content)
    && kept.role ==
         if Reads(m.role, "system") then "system" else if Reads(m.role, "assistant") then "assistant" else "user"
  }

  lemma LowerMeans(role: string, known: string)
    requires known in {"system", "assistant"}
    ensures Lower(TrimSpace(role)) == known <==> Reads(role, known)
  {
    hide TrimSpace;
    var trimmed := TrimSpace(role);
    if |trimmed| == |known| {
      assert forall i :: 0 <= i < |known| ==> 'a' <= known[i] <= 'z';
      assert forall i :: 0 <= i < |known| ==>
        (LowerChar(trimmed[i]) == known[i] <==> SameButCase(trimmed[i], known[i]));
    }
  }

  lemma NormalizeMeans(m: Message)
    ensures IsStoredForm(m, Normalize(m))
    ensures Normalize(m).content != "" <==> Shows(m.content)
  {
    hide TrimSpace, Lower, Reads;
    LowerMeans(m.role, "system");
    LowerMeans(m.role, "assistant");
    TrimSpaceMeans(m.content);
    BlankMeans(m.content);
  }

  /** Where the messages that show stand. */
  function VisibleAt(ms: seq<Message>): (at: seq<nat>)
    ensures forall k :: 0 <= k < |at| ==> at[k] < |ms|
  {
    if ms == [] then []
    else
      var front, last := VisibleAt(ms[..|ms| - 1]), |ms| - 1;
      if Normalize(ms[last]).content == "" then front else front + [last]
  }

  lemma {:induction false} CleanedStandsAt(ms: seq<Message>)
    ensures var at := VisibleAt(ms);
      && |at| == |Cleaned(ms)|
      && (forall k, n :: 0 <= k < n < |at| ==> at[k] < at[n])
      && (forall k :: 0 <= k < |at| ==> Shows(ms[at[k]].content) && IsStoredForm(ms[at[k]], Cleaned(ms)[k]))
      && (forall d: nat :: d < |ms| && Shows(ms[d].content) ==> d in at)
  {
    hide Normalize, Shows, IsStoredForm;
    if ms != [] {
      CleanedStandsAt(ms[..|ms| - 1]);
      NormalizeMeans(ms[|ms| - 1]);
    }
  }

  /** `kept` holds the newest messages that show, up to 40 of them, in order and as they are stored; `at` says where
      they stand. */
  ghost predicate AreNewest(ms: seq<Message>, kept: seq<Message>, at: seq<nat>) {
    && |kept| == |at| <= 40
    && (forall k :: 0 <= k < |at| ==> at[k] < |ms| && Shows(ms[at[k]].content) && IsStoredForm(ms[at[k]], kept[k]))
    && (forall k, n :: 0 <= k < n < |at| ==> at[k] < at[n])
    && (forall d: nat :: d < |ms| && Shows(ms[d].content) && d !in at ==> |at| == 40 && d < at[0])
  }

  /** Every message that shows, in order and as it is stored. */
  ghost predicate AreVisible(ms: seq<Message>, kept: seq<Message>, at: seq<nat>) {
    && |at| == |kept|
    && (forall k :: 0 <= k < |at| ==> at[k] < |ms| && Shows(ms[at[k]].content) && IsStoredForm(ms[at[k]], kept[k]))
    && (forall k, n :: 0 <= k < n < |at| ==> at[k] < at[n])
    && (forall d: nat :: d < |ms| && Shows(ms[d].content) ==> d in at)
  }

  lemma WindowMeans(ms: seq<Message>) returns (at: seq<nat>)
    ensures AreNewest(ms, Window(ms), at)
  {
    hide Shows, IsStoredForm, Cleaned, VisibleAt, AreVisible, AreNewest;
    var all, kept := VisibleAt(ms), Cleaned(ms);
    assert AreVisible(ms, kept, all) by {
      CleanedStandsAt(ms);
      AllAreVisible(ms, kept, all);
    }
    at := NewestOfVisible(ms, kept, all);
  }

  lemma AllAreVisible(ms: seq<Message>, kept: seq<Message>, at: seq<nat>)
    requires |at| == |kept| && forall k :: 0 <= k < |at| ==> at[k] < |ms|
    requires forall k, n :: 0 <= k < n < |at| ==> at[k] < at[n]
    requires forall k :: 0 <= k < |at| ==> Shows(ms[at[k]].content) && IsStoredForm(ms[at[k]], kept[k])
    requires forall d: nat :: d < |ms| && Shows(ms[d].content) ==> d in at
    ensures AreVisible(ms, kept, at)
  {
  }

  lemma NewestOfVisible(ms: seq<Message>, kept: seq<Message>, all: seq<nat>) returns (at: seq<nat>)
    requires AreVisible(ms, kept, all)
    ensures AreNewest(ms, LastOf(kept, 40), at)
  {
    hide Shows, IsStoredForm;
    if |all| <= 40 {
      at := all;
    } else {
      var from := |all| - 40;
      at := all[from..];
      SuffixStands(ms, kept, all, from);
      SuffixIsNewest(ms, kept, all, from);
    }
  }

  lemma SuffixStands(ms: seq<Message>, kept: seq<Message>, all: seq<nat>, from: nat)
    requires AreVisible(ms, kept, all) && from <= |all|
    ensures var at := all[from..];
      && (forall k :: 0 <= k < |at| ==>
            at[k] < |ms| && Shows(ms[at[k]].content) && IsStoredForm(ms[at[k]], kept[from..][k]))
      && (forall k, n :: 0 <= k < n < |at| ==> at[k] < at[n])
  {
    hide Shows, IsStoredForm;
    var at := all[from..];
    forall k | 0 <= k < |at|
      ensures at[k] < |ms| && Shows(ms[at[k]].content) && IsStoredForm(ms[at[k]], kept[from..][k])
    {
      assert at[k] == all[from + k] && kept[from..][k] == kept[from + k];
    }
  }

  lemma SuffixIsNewest(ms: seq<Message>, kept: seq<Message>, all: seq<nat>, from: nat)
    requires AreVisible(ms, kept, all) && from < |all|
    ensures forall d: nat :: d < |ms| && Shows(ms[d].content) && d !in all[from..] ==> d < all[from]
  {
    hide Shows, IsStoredForm;
    forall n | from <= n < |all| ensures all[n] in all[from..] {
      assert all[from..][n - from] == all[n];
    }
    forall d: nat | d < |ms| && Shows(ms[d].content) && d !in all[from..] ensures d < all[from] {
      var k :| 0 <= k < |all| && all[k] == d;
      assert k < from;
    }
  }

  /** After a message that shows, the newest of the window is that message. */
  lemma NewestIsLast(history: seq<Message>, m: Message)
    requires Shows(m.content)
    ensures Window(history + [m]) != []
    ensures IsStoredForm(m, Window(history + [m])[|Window(history + [m])| - 1])
  {
    hide Shows, IsStoredForm, Cleaned, Normalize;
    NormalizeMeans(m);
    CleanedAppend(history, m);
  }

  // ----- the stored conversations -----

  /** The window of a history after one more message. */
  method Extend(window: seq<Message>, ghost history: seq<Message>, message: Message) returns (extended: seq<Message>)
    requires window == Window(history)
    ensures extended == Window(history + [message])
    ensures Shows(message.content) ==> extended != [] && IsStoredForm(message, extended[|extended| - 1])
  {
    hide Window, Normalize, Shows, IsStoredForm;
    if Shows(message.content) {
      NewestIsLast(history, message);
    }
    var normal := Normalize(message);
    if normal.content != "" {
      extended := TrimMessages(window + [normal]);
      NormalizeFirst(history, message);
    } else {
      extended := window;
      BlankLeavesWindow(history, message);
    }
  }

  datatype Conversation = Conversation(
    id: string,
    modelId: string,
    nodeId: string,
    systemPrompt: string,
    messages: seq<Message>,
    createdAt: int,
    updatedAt: int)

  /** Either prompt, the first one if it says something. */
  function FirstPrompt(a: string, b: string): string {
    if a != "" then a else b
  }

  /** The manager's conversations, each with the history of everything ever appended to it. */
  class Store {
    var conversations: map<string, Conversation>
    ghost var history: map<string, seq<Message>>

    /** What is stored is always the window of the whole history. */
    ghost predicate Valid()
      reads this
    {
      && conversations.Keys == history.Keys
      && forall id :: id in conversations ==>
           conversations[id].id == id && conversations[id].messages == Window(history[id])
    }

    ghost function HistoryOf(id: string): seq<Message>
      reads this
    {
      if id in history then history[id] else []
    }

    function Known(id: string, now: int): Conversation
      reads this
    {
      if id in conversations then conversations[id] else Conversation(id, "", "", "", [], now, now)
    }

    constructor ()
      ensures Valid() && history == map[]
    {
      conversations, history := map[], map[];
    }

    /** A chat message of any role; it is normalized first, and a blank one is not stored. The conversation moves to the
        given model and worker, and keeps its prompt unless a new one is given. */
    method AppendMessage(
        id: string, modelId: string, nodeId: string, systemPrompt: string, message: Message, now: int)
      requires Valid()
      modifies this
      ensures Valid() && history == old(history)[id := old(HistoryOf(id)) + [message]]
      ensures id in conversations && conversations == old(conversations)[id := conversations[id]]
      ensures var was := old(Known(id, now));
        conversations[id] == was.(modelId := modelId, nodeId := nodeId, updatedAt := now,
          systemPrompt := FirstPrompt(systemPrompt, was.systemPrompt), messages := conversations[id].messages)
      ensures Shows(message.content) ==>
        var kept := conversations[id].messages; kept != [] && IsStoredForm(message, kept[|kept| - 1])
    {
      assert Window([]) == [];
      hide Shows, IsStoredForm, Window;
      var was := Known(id, now);
      ghost var past := HistoryOf(id);
      assert was.messages == Window(past);
      var extended := Extend(was.messages, past, message);
      var conversation := was.(modelId := modelId, nodeId := nodeId, messages := extended, updatedAt := now);
      if systemPrompt != "" {
        conversation := conversation.(systemPrompt := systemPrompt);
      }
      assert conversation.id == id && conversation.messages == Window(past + [message]);
      Put(id, conversation, past + [message]);
    }

    /** Stores a conversation in place of what was known of it. */
    method Put(id: string, conversation: Conversation, ghost past: seq<Message>)
      requires Valid() && conversation.id == id && conversation.messages == Window(past)
      modifies this
      ensures Valid() && history == old(history)[id := past]
      ensures conversations == old(conversations)[id := conversation]
    {
      hide Window;
      conversations, history := conversations[id := conversation], history[id := past];
    }

    /** The answer of a finished job, stored as it came: exactly when the job generates text in a conversation and
        answered something. The conversation moves to the job's model, and takes its prompt if it had none. */
    method AppendAnswer(
        kind: string, id: string, modelId: string, systemPrompt: string, output: string, now: int)
      returns (stored: bool)
      requires Valid()
      modifies this
      ensures Valid() && (stored <==> kind in {Jobs.JOB_GENERATE, Jobs.JOB_GENERATE_RPC} && id != "" && output != "")
      ensures !stored ==> conversations == old(conversations) && history == old(history)
      ensures stored ==> history == old(history)[id := old(HistoryOf(id)) + [Message("assistant", output)]]
      ensures stored ==> id in conversations && conversations == old(conversations)[id := conversations[id]]
      ensures stored ==> var was := old(Known(id, now));
        conversations[id] == was.(modelId := modelId, updatedAt := now,
          systemPrompt := FirstPrompt(was.systemPrompt, systemPrompt), messages := conversations[id].messages)
      ensures stored && Shows(output) ==> var kept := conversations[id].messages;
        kept != [] && IsStoredForm(Message("assistant", output), kept[|kept| - 1])
    {
      hide Shows, IsStoredForm;
      stored := (kind == Jobs.JOB_GENERATE || kind == Jobs.JOB_GENERATE_RPC) && id != "" && output != "";
      if stored {
        var was, answer := Known(id, now), Message("assistant", output);
        ghost var past := HistoryOf(id);
        assert Window([]) == [];
        WindowIsIncremental(past, answer);
        var kept := TrimMessages(was.messages + [answer]);
        var conversation := was.(modelId := modelId, messages := kept, updatedAt := now);
        if systemPrompt != "" && conversation.systemPrompt == "" {
          conversation := conversation.(systemPrompt := systemPrompt);
        }
        if Shows(output) {
          NewestIsLast(past, answer);
        }
        Put(id, conversation, past + [answer]);
      }
    }

    method Delete(id: string) returns (found: bool)
      requires Valid()
      modifies this
      ensures Valid() && history == old(history) - {id} && (found <==> id in old(conversations))
      ensures conversations == old(conversations) - {id}
    {
      found := id in conversations;
      conversations, history := conversations - {id}, history - {id};
    }
  }
}
