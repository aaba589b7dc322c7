/**
 * The chat side of the assistant (llm_module.py): an append-only
 * conversation history, the post-processing that strips a Markdown code
 * fence from the model's answer, and one request/answer round trip.
 *
 * The HTTP chat-completion client is not modelled; it is a parameter
 * `client` from the request to either the answer's text or a failure.
 */
module Llm {
  import opened Common
  import opened PyText

  datatype Role = System | User | Assistant

  /** One `{"role": ..., "content": ...}` entry of the history. */
  datatype Message = Message(role: Role, content: string)

  type History = seq<Message>

  /** `add_message`: one entry appended at the end, every earlier entry kept. */
  function AddMessage(h: History, role: Role, content: string): (r: History)
    ensures |r| == |h| + 1
    ensures r[..|h|] == h
    ensures r[|h|] == Message(role, content)
  {
    h + [Message(role, content)]
  }

  // ---------------------------------------------------------------------
  // clean_code_block

  const Fence := "```"

  /** The `IndexError` raised by `text.split("\n", 1)[1]` when the answer
      opens with a fence but holds no newline. */
  datatype CleanError = NoNewlineAfterFence

  /** Lines 28-33: drop one closing fence, then trailing whitespace. The
      result is a prefix of `body`; what is cut off is whitespace, followed
      by the fence when `body` ends with one; and the result does not end in
      whitespace. */
  function CloseAndTrim(body: string): (r: string)
    ensures |r| <= |body| && r == body[..|r|]
    ensures |r| > 0 ==> !IsSpace(r[|r| - 1])
    ensures if EndsWith(body, Fence)
            then |r| <= |body| - 3 && AllSpace(body[|r|..|body| - 3])
            else AllSpace(body[|r|..])
  {
    var t := if EndsWith(body, Fence) then body[..|body| - 3] else body;
    assert t[|RStrip(t)|..] == body[|RStrip(t)|..|t|];
    RStrip(t)
  }

  /** `clean_code_block`. An answer opening with a fence loses everything up
      to and including its first newline, and fails when there is none; the
      cleaned text is never longer than the answer and never ends in
      whitespace. */
  function CleanCodeBlock(text: string): (r: Result<string, CleanError>)
    ensures r.Failure? <==> StartsWith(text, Fence) && '\n' !in text
    ensures r.Success? ==> |r.value| <= |text|
    ensures r.Success? && |r.value| > 0 ==> !IsSpace(r.value[|r.value| - 1])
    ensures r.Success? && !StartsWith(text, Fence) ==> r.value == text[..|r.value|]
  {
    if StartsWith(text, Fence) then
      match IndexOf(text, '\n')
      case None => Failure(NoNewlineAfterFence)
      case Some(i) => Success(CloseAndTrim(text[i + 1..]))
    else
      Success(CloseAndTrim(text))
  }

  /** An opening fence line is removed through its first newline: what is
      kept is a prefix of the text after that newline. */
  lemma CleanDropsHeaderLine(text: string, i: nat)
    requires StartsWith(text, Fence)
    requires i < |text| && text[i] == '\n' && '\n' !in text[..i]
    ensures CleanCodeBlock(text).Success?
    ensures var v := CleanCodeBlock(text).value;
      |v| <= |text| - (i + 1) && v == text[i + 1..][..|v|]
  {
    IndexOfFirst(text, '\n', i);
  }

  /** An opening fence with no newline anywhere is the `IndexError` case. */
  lemma CleanFailsWithoutNewline(text: string)
    requires StartsWith(text, Fence) && '\n' !in text
    ensures CleanCodeBlock(text) == Failure(NoNewlineAfterFence)
  {
  }

  /** Text that neither opens nor closes with a fence is only right-trimmed. */
  lemma CleanPlainText(text: string)
    requires !StartsWith(text, Fence) && !EndsWith(text, Fence)
    ensures CleanCodeBlock(text) == Success(RStrip(text))
  {
  }

  /** The closing-fence test looks at the text left after the header strip,
      and takes off exactly three characters before trimming. */
  lemma {:induction false} CleanDropsClosingFence(text: string, body: string)
    requires if StartsWith(text, Fence)
             then (exists i :: 0 <= i < |text| && text[i] == '\n' && '\n' !in text[..i] && body == text[i + 1..])
             else body == text
    requires EndsWith(body, Fence)
    ensures CleanCodeBlock(text) == Success(RStrip(body[..|body| - 3]))
  {
    if StartsWith(text, Fence) {
      var i :| 0 <= i < |text| && text[i] == '\n' && '\n' !in text[..i] && body == text[i + 1..];
      IndexOfFirst(text, '\n', i);
    }
  }

  /** A well-formed fenced block, "```lang\ncode\n```", cleans to exactly its
      code when the code does not end in whitespace. */
  lemma CleanFencedBlock(lang: string, code: string)
    requires '\n' !in lang
    requires |code| > 0 && !IsSpace(code[|code| - 1])
    ensures CleanCodeBlock(Fence + lang + "\n" + code + "\n" + Fence) == Success(code)
  {
    var header := Fence + lang;
    var body := code + "\n" + Fence;
    var text := header + "\n" + body;
    assert text == Fence + lang + "\n" + code + "\n" + Fence;
    assert StartsWith(text, Fence) && IndexOf(text, '\n') == Some(|header|) by {
      assert text[..3] == Fence;
      assert text[..|header|] == header;
      assert '\n' !in Fence;
      assert '\n' !in header;
      IndexOfFirst(text, '\n', |header|);
    }
    assert text[|header| + 1..] == body;
    assert CloseAndTrim(body) == code by {
      assert EndsWith(body, Fence);
      assert body[..|body| - 3] == code + "\n";
      RStripUnique(code, "\n");
    }
  }

  /** Only one closing fence is removed. */
  lemma CleanRemovesOneFenceOnly()
    ensures CleanCodeBlock("x``````") == Success("x```")
  {
    var text := "x``````";
    assert text[0] == 'x' && Fence[0] == '`';
    assert !StartsWith(text, Fence);
    assert EndsWith(text, Fence);
    assert text[..|text| - 3] == "x```";
    RStripUnique("x```", "");
    assert "x```" + "" == "x```";
  }

  // ---------------------------------------------------------------------
  // get_response

  const Model := "gpt-3.5-turbo"
  const Temperature: real := 0.5
  const MaxTokens: nat := 1024
  const TopP: real := 0.8

  /** `I'm sorry, I couldn't process your request at this time.` */
  const Apology := "I'm sorry, I couldn't process your request at this time."

  /** The chat-completion request: the whole history and the fixed sampling
      configuration. */
  datatype Request = Request(model: string, messages: History, temperature: real, maxTokens: nat, topP: real)

  /** What the client call produces: the first choice's content, or an
      exception. */
  datatype Reply = Completed(content: string) | Failed

  function ChatRequest(messages: History): (q: Request)
    ensures q.messages == messages
  {
    Request(Model, messages, Temperature, MaxTokens, TopP)
  }

  /** The answer handed back, and the history after the exchange. */
  datatype Exchange = Exchange(answer: string, history: History)

  /** `get_response`. The user turn is always recorded first, and the request
      carries it. Only a completed call whose answer cleans without error
      adds an assistant turn, holding the cleaned answer that is returned;
      every failure, including the `IndexError` of `clean_code_block`, is
      caught and yields the apology with no assistant turn. */
  function GetResponse(h: History, query: string, client: Request -> Reply): (r: Exchange)
    ensures |h| < |r.history| <= |h| + 2
    ensures r.history[..|h| + 1] == AddMessage(h, User, query)
    ensures var reply := client(ChatRequest(AddMessage(h, User, query)));
      if reply.Completed? && CleanCodeBlock(reply.content).Success?
      then |r.history| == |h| + 2
           && r.answer == CleanCodeBlock(reply.content).value
           && r.history[|h| + 1] == Message(Assistant, r.answer)
      else |r.history| == |h| + 1 && r.answer == Apology
  {
    var h1 := AddMessage(h, User, query);
    match client(ChatRequest(h1))
    case Failed => Exchange(Apology, h1)
    case Completed(output) =>
      match CleanCodeBlock(output)
      case Failure(_) => Exchange(Apology, h1)
      case Success(answer) => Exchange(answer, AddMessage(h1, Assistant, answer))
  }

  /** The history is append-only across an exchange: every earlier entry
      stays where it was. */
  lemma GetResponseAppendOnly(h: History, query: string, client: Request -> Reply)
    ensures var r := GetResponse(h, query, client);
      |h| < |r.history| && r.history[..|h|] == h && r.history[|h|] == Message(User, query)
  {
    var r := GetResponse(h, query, client);
    assert r.history[..|h|] == r.history[..|h| + 1][..|h|];
  }

  /** A successful call whose answer opens with a fence but has no newline
      still ends in the apology: the `IndexError` is caught like a network
      failure. */
  lemma MalformedFenceDegradesToApology(h: History, query: string, client: Request -> Reply)
    requires var reply := client(ChatRequest(AddMessage(h, User, query)));
      reply.Completed? && StartsWith(reply.content, Fence) && '\n' !in reply.content
    ensures GetResponse(h, query, client) == Exchange(Apology, AddMessage(h, User, query))
  {
  }
}
