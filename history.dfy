/**
 * A session's message history and the splices chat.js makes on it:
 * deleteMessage and regenerateMessage remove one message, saveEdit
 * overwrites one and drops everything after it, and streamResponse appends
 * the assistant placeholder.
 */
module History {
  /** The roles of a chat message (the ChatMessage shape of the worker's types). */
  datatype Role = User | Assistant | System

  datatype Message = Message(role: Role, content: string)

  const GreetingText: string := "Hello. I am your SDET coding agent. Ready for your instructions."

  /** The assistant message every new session starts with. */
  const Greeting: Message := Message(Assistant, GreetingText)

  /** The empty assistant message streamResponse appends before it sends the request. */
  const Placeholder: Message := Message(Assistant, "")

  /**
   * `history.splice(index, 1)`: removes the message at `index`, and nothing
   * when `index` is past the end.
   */
  function RemoveAt(history: seq<Message>, index: nat): (r: seq<Message>)
    ensures index < |history| ==> |r| == |history| - 1
    ensures index >= |history| ==> r == history
    ensures forall j | 0 <= j < |r| :: r[j] == history[if j < index then j else j + 1]
  {
    if index < |history| then history[..index] + history[index + 1..] else history
  }

  /** Removing one message loses exactly that message: the rest are kept as a multiset too. */
  lemma RemoveAtMultiset(history: seq<Message>, index: nat)
    requires index < |history|
    ensures multiset(RemoveAt(history, index)) + multiset{history[index]} == multiset(history)
  {
    assert history == history[..index] + [history[index]] + history[index + 1..];
  }

  /**
   * `history[index].content = content`: the message at `index` gets the new
   * content and keeps its role; every other message stays as it was.
   */
  function WithContent(history: seq<Message>, index: nat, content: string): (r: seq<Message>)
    requires index < |history|
    ensures |r| == |history|
    ensures r[index] == Message(history[index].role, content)
    ensures forall j | 0 <= j < |r| && j != index :: r[j] == history[j]
  {
    history[index := history[index].(content := content)]
  }

  /**
   * saveEdit's splice: `history[index].content = newContent`, then the
   * `history.length - 1 - index` messages after it are removed.
   */
  function Edited(history: seq<Message>, index: nat, newContent: string): (r: seq<Message>)
    requires index < |history|
    ensures |r| == index + 1
    ensures r[..index] == history[..index]
    ensures r[index] == Message(history[index].role, newContent)
  {
    history[..index] + [history[index].(content := newContent)]
  }

  /** Saving the same edit twice gives the same history as saving it once. */
  lemma EditedIdempotent(history: seq<Message>, index: nat, newContent: string)
    requires index < |history|
    ensures Edited(Edited(history, index, newContent), index, newContent) == Edited(history, index, newContent)
  {
    var once := Edited(history, index, newContent);
    assert once[..index] == history[..index];
  }

  /**
   * The messages streamResponse sends: `history.slice(0, -1)` taken after the
   * placeholder was pushed, which is every message before it, the greeting
   * included.
   */
  function Request(history: seq<Message>): (r: seq<Message>)
    requires history != []
    ensures |r| == |history| - 1
    ensures r + [history[|history| - 1]] == history
  {
    history[..|history| - 1]
  }

  /** Writing the streamed text into a pushed placeholder gives the history plus one assistant message. */
  lemma FillPlaceholder(history: seq<Message>, content: string)
    ensures WithContent(history + [Placeholder], |history|, content) == history + [Message(Assistant, content)]
  {
    var r := WithContent(history + [Placeholder], |history|, content);
    assert forall j | 0 <= j < |history| :: r[j] == history[j];
  }

  /** The request sent for a pushed placeholder is the history it was pushed onto. */
  lemma RequestAfterPush(history: seq<Message>)
    ensures Request(history + [Placeholder]) == history
  {
  }
}
