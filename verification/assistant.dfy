/**
 * The query shaping and dispatch decision of the assistant (main.py): the
 * "buffer" prefix that splices the clipboard into the query, the cancel and
 * length guard of `llm_answer`, and the conversation reset when memory is
 * off.
 *
 * The clipboard is a parameter (its current text); writing the answer to it
 * and synthesising the paste keystroke are recorded in the application
 * state rather than performed.
 */
module Assistant {
  import opened PyText
  import opened Llm

  /** Spoken prefix that asks for the clipboard to be included. */
  const Keyword := "buffer"

  /** Spoken word that drops the query. */
  const CancelWord := "cancel"

  /** Queries shorter than this are not sent. */
  const MinQueryLength := 10

  const BlankLine := "\n\n"

  /** `set_initial_conversation_history`: a fresh history holding only the
      system prompt. */
  function SetInitialConversationHistory(systemPrompt: string): (h: History)
    ensures |h| == 1 && h[0].role == System && h[0].content == systemPrompt
  {
    [Message(System, systemPrompt)]
  }

  /** `s.lower().startswith('buffer')`: there is no word boundary, so
      "Buffering" qualifies too. */
  predicate OpensWithKeyword(s: string) {
    |Keyword| <= |s| && Lower(s[..|Keyword|]) == Keyword
  }

  /** `input` reads as a run of whitespace `w` characters long, the keyword
      in some case, another run of whitespace, and then `q`, which does not
      start with whitespace. */
  predicate KeywordSplit(input: string, w: nat, q: string) {
    && w + |Keyword| + |q| <= |input|
    && AllSpace(input[..w])
    && Lower(input[w..w + |Keyword|]) == Keyword
    && AllSpace(input[w + |Keyword|..|input| - |q|])
    && q == input[|input| - |q|..]
    && (|q| > 0 ==> !IsSpace(q[0]))
  }

  /** `add_buffer`: the clipboard, a blank line and the rest of the query
      when the left-trimmed transcript opens with the keyword, and the
      left-trimmed transcript otherwise. `AddBufferShape` states what the
      result is in terms of the transcript. */
  function AddBuffer(input: string, clipboard: string): string {
    var s := LStrip(input);
    if OpensWithKeyword(s) then clipboard + BlankLine + AfterKeyword(s) else s
  }

  /** What `add_buffer` returns. Leading whitespace of the transcript is
      always dropped. When what remains opens with "buffer" in any case, the
      result is the clipboard, a blank line, and what follows the keyword
      and the whitespace after it; otherwise it is the transcript without
      its leading whitespace, not the transcript unchanged. */
  lemma AddBufferShape(input: string, clipboard: string)
    ensures var r, w := AddBuffer(input, clipboard), |input| - |LStrip(input)|;
      if OpensWithKeyword(LStrip(input)) then
        && |clipboard + BlankLine| <= |r|
        && r[..|clipboard + BlankLine|] == clipboard + BlankLine
        && KeywordSplit(input, w, r[|clipboard + BlankLine|..])
      else
        && |r| <= |input| && r == input[|input| - |r|..]
        && AllSpace(input[..|input| - |r|])
        && (|r| > 0 ==> !IsSpace(r[0]))
  {
    var s := LStrip(input);
    if OpensWithKeyword(s) {
      KeywordCaseShape(input, clipboard);
      assert AddBuffer(input, clipboard) == clipboard + BlankLine + AfterKeyword(s);
    } else {
      assert AddBuffer(input, clipboard) == s;
    }
  }

  /** The keyword case of `add_buffer`, stated on the transcript itself. */
  lemma KeywordCaseShape(input: string, clipboard: string)
    requires OpensWithKeyword(LStrip(input))
    ensures var head, r := clipboard + BlankLine, clipboard + BlankLine + AfterKeyword(LStrip(input));
      && |head| <= |r| && r[..|head|] == head
      && KeywordSplit(input, |input| - |LStrip(input)|, r[|head|..])
  {
    var s := LStrip(input);
    var q := AfterKeyword(s);
    var head := clipboard + BlankLine;
    assert (head + q)[..|head|] == head;
    assert (head + q)[|head|..] == q;
    // The premises of SplitOfSuffix, one by one, from the contracts of
    // LStrip and AfterKeyword.
    assert |s| <= |input| && s == input[|input| - |s|..];
    assert AllSpace(input[..|input| - |s|]);
    assert |Keyword| + |q| <= |s|;
    assert Lower(s[..|Keyword|]) == Keyword;
    assert AllSpace(s[|Keyword|..|s| - |q|]);
    assert q == s[|s| - |q|..];
    assert |q| > 0 ==> !IsSpace(q[0]);
    SplitOfSuffix(input, s, q);
  }

  /** Reading `KeywordSplit` off a suffix `s` of `input` that comes after
      whitespace and opens with the keyword. */
  lemma SplitOfSuffix(input: string, s: string, q: string)
    requires |s| <= |input| && s == input[|input| - |s|..]
    requires AllSpace(input[..|input| - |s|])
    requires |Keyword| + |q| <= |s| && Lower(s[..|Keyword|]) == Keyword
    requires AllSpace(s[|Keyword|..|s| - |q|]) && q == s[|s| - |q|..]
    requires |q| > 0 ==> !IsSpace(q[0])
    ensures KeywordSplit(input, |input| - |s|, q)
  {
    var w, k := |input| - |s|, |Keyword|;
    assert s[..k] == input[w..w + k];
    assert s[k..|s| - |q|] == input[w + k..|input| - |q|];
  }

  /** `input_string[6:].lstrip()`: the text after the six keyword characters,
      with the whitespace that follows them dropped. */
  function AfterKeyword(s: string): (rest: string)
    requires |s| >= |Keyword|
    ensures |rest| <= |s| - |Keyword| && rest == s[|s| - |rest|..]
    ensures AllSpace(s[|Keyword|..|s| - |rest|])
    ensures |rest| > 0 ==> !IsSpace(rest[0])
  {
    var tail := s[6..];
    assert tail[..|tail| - |LStrip(tail)|] == s[6..|s| - |LStrip(tail)|];
    LStrip(tail)
  }

  /** Whitespace, the keyword in any case, whitespace and then the query:
      the keyword and all surrounding whitespace give way to the clipboard
      and a blank line. */
  lemma AddBufferKeywordCase(w: string, kw: string, ws: string, rest: string, clipboard: string)
    requires AllSpace(w) && AllSpace(ws)
    requires |kw| == 6 && Lower(kw) == Keyword
    requires |rest| > 0 ==> !IsSpace(rest[0])
    ensures AddBuffer(w + kw + ws + rest, clipboard) == clipboard + BlankLine + rest
  {
    var s := kw + (ws + rest);
    assert w + kw + ws + rest == w + s;
    assert LowerChar(kw[0]) == Lower(kw)[0] == 'b';
    assert s[0] == kw[0];
    assert !IsSpace(s[0]);
    LStripUnique(w, s);
    assert s[..6] == kw;
    assert OpensWithKeyword(s);
    assert s[6..] == ws + rest;
    LStripUnique(ws, rest);
  }

  /** A worked example: the clipboard, a blank line, and the words after
      "buffer". */
  lemma AddBufferExample(input: string, clipboard: string)
    requires input == "buffer, explain this error"
    requires clipboard == "NullPointerException at line 5"
    ensures AddBuffer(input, clipboard) == clipboard + "\n\n" + ", explain this error"
  {
    var kw, rest := "buffer", ", explain this error";
    assert input == kw + rest;
    assert Lower(kw) == Keyword;
    assert rest[0] == ',';
    AddBufferBareKeyword(kw, rest, clipboard);
  }

  /** No word boundary: "Buffering" triggers the clipboard and leaves "ing". */
  lemma AddBufferNoWordBoundary(input: string, clipboard: string)
    requires input == "Buffering the logs"
    ensures AddBuffer(input, clipboard) == clipboard + "\n\n" + "ing the logs"
  {
    var kw, rest := "Buffer", "ing the logs";
    assert input == kw + rest;
    assert Lower(kw) == Keyword;
    assert rest[0] == 'i';
    AddBufferBareKeyword(kw, rest, clipboard);
  }

  /** The keyword with no whitespace around it, directly followed by the query. */
  lemma AddBufferBareKeyword(kw: string, rest: string, clipboard: string)
    requires |kw| == 6 && Lower(kw) == Keyword
    requires |rest| > 0 ==> !IsSpace(rest[0])
    ensures AddBuffer(kw + rest, clipboard) == clipboard + BlankLine + rest
  {
    assert kw + rest == "" + kw + "" + rest;
    AddBufferKeywordCase("", kw, "", rest, clipboard);
  }

  /** Without the keyword the transcript comes back left-trimmed, not
      unchanged: a transcript opening with whitespace loses it. */
  lemma AddBufferWithoutKeyword(input: string, clipboard: string)
    requires !OpensWithKeyword(LStrip(input))
    ensures AddBuffer(input, clipboard) == LStrip(input)
    ensures |AddBuffer(input, clipboard)| < |input| <==> |input| > 0 && IsSpace(input[0])
  {
    assert AddBuffer(input, clipboard) == LStrip(input);
    LStripShortens(input);
  }

  // ---------------------------------------------------------------------
  // llm_answer

  /** What `llm_answer` does with the transcript. */
  datatype Decision = Cancelled | TooShort | Dispatched(text: string)

  /** The guard of `llm_answer`: "cancel" anywhere, in any case, drops the
      query whatever its length; otherwise the untrimmed transcript must
      have at least ten characters, and what is sent is the transcript
      after `add_buffer`. */
  function Decide(query: string, clipboard: string): (d: Decision)
    ensures d.Cancelled? <==> Contains(Lower(query), CancelWord)
    ensures d.TooShort? <==> !Contains(Lower(query), CancelWord) && |query| < MinQueryLength
    ensures d.Dispatched? ==> d.text == AddBuffer(query, clipboard)
  {
    if Contains(Lower(query), CancelWord) then Cancelled
    else if |query| >= MinQueryLength then Dispatched(AddBuffer(query, clipboard))
    else TooShort
  }

  /** "cancel" spoken anywhere, in any mixture of case, cancels. */
  lemma CancelAnywhere(before: string, word: string, after: string, clipboard: string)
    requires Lower(word) == CancelWord
    ensures Decide(before + word + after, clipboard) == Cancelled
  {
    assert Lower(before + word + after) == Lower(before) + Lower(word) + Lower(after);
    ContainsInfix(Lower(before), CancelWord, Lower(after));
  }

  /** And only then: a cancelled query has the word at some position. */
  lemma CancelledHasWord(query: string, clipboard: string) returns (k: nat)
    requires Decide(query, clipboard) == Cancelled
    ensures k + |CancelWord| <= |query| && Lower(query[k..k + |CancelWord|]) == CancelWord
  {
    k := ContainsHasPosition(Lower(query), CancelWord);
    assert Lower(query)[k..k + |CancelWord|] == Lower(query[k..k + |CancelWord|]);
  }

  /** The length guard counts the untrimmed transcript: nine characters are
      too few, ten are enough, even when nine of them are spaces. */
  lemma LengthBoundary(short: string, long: string, clipboard: string)
    requires short == "what time" && long == "         x"
    ensures Decide(short, clipboard) == TooShort
    ensures Decide(long, clipboard).Dispatched?
  {
    assert |short| == 9 && |long| == 10;
    assert forall i :: 0 <= i < |short| ==> LowerChar(short[i]) != 'c';
    assert forall i :: 0 <= i < |long| ==> LowerChar(long[i]) != 'c';
    WithoutFirstLetter(Lower(short), CancelWord);
    WithoutFirstLetter(Lower(long), CancelWord);
  }

  /** A text in which the first letter of `sub` never occurs cannot contain
      `sub`. */
  lemma WithoutFirstLetter(s: string, sub: string)
    requires |sub| > 0
    requires forall i :: 0 <= i < |s| ==> s[i] != sub[0]
    ensures !Contains(s, sub)
  {
    if Contains(s, sub) {
      var k := ContainsHasPosition(s, sub);
    }
  }

  /** The parts of the application state `llm_answer` reads and writes. */
  datatype App = App(
    query: string,        // the global `query`
    memory: bool,         // `llm_memory`, the tray toggle
    basePrompt: string,   // `base_system_prompt`
    history: History,     // `llm_module.conversation_history`
    clipboard: string,    // the system clipboard's text
    pastes: nat)          // paste keystrokes synthesised so far

  /** The history the exchange starts from: reset to the system prompt when
      memory is off. */
  function StartingHistory(app: App): (h: History)
    ensures app.memory ==> h == app.history
    ensures !app.memory ==> h == SetInitialConversationHistory(app.basePrompt)
  {
    if app.memory then app.history else SetInitialConversationHistory(app.basePrompt)
  }

  /** `llm_answer`. The history is reset first when memory is off. A
      dispatched query replaces the global query with its `add_buffer` form,
      goes through `get_response`, and its answer lands on the clipboard
      followed by one paste; a cancelled or short query changes nothing
      else. */
  function LlmAnswer(app: App, client: Request -> Reply): (r: App)
    ensures r.memory == app.memory && r.basePrompt == app.basePrompt
    ensures r.pastes == app.pastes + 1 <==> Decide(app.query, app.clipboard).Dispatched?
    ensures !Decide(app.query, app.clipboard).Dispatched? ==> r == app.(history := StartingHistory(app))
    ensures Decide(app.query, app.clipboard).Dispatched? ==>
      var t := Decide(app.query, app.clipboard).text;
      var ex := GetResponse(StartingHistory(app), t, client);
      r.query == t && r.history == ex.history && r.clipboard == ex.answer
  {
    var h := StartingHistory(app);
    match Decide(app.query, app.clipboard)
    case Cancelled => app.(history := h)
    case TooShort => app.(history := h)
    case Dispatched(t) =>
      var ex := GetResponse(h, t, client);
      app.(query := t, history := ex.history, clipboard := ex.answer, pastes := app.pastes + 1)
  }

  /** With memory off, the request the client sees is exactly the system
      prompt followed by the shaped query. */
  lemma MemoryOffSendsFreshConversation(app: App, client: Request -> Reply)
    requires !app.memory && Decide(app.query, app.clipboard).Dispatched?
    ensures var t := Decide(app.query, app.clipboard).text;
      LlmAnswer(app, client).history[..2] == [Message(System, app.basePrompt), Message(User, t)]
  {
  }

  /** With memory on, earlier turns are kept and only appended to. */
  lemma MemoryOnAppendsOnly(app: App, client: Request -> Reply)
    requires app.memory
    ensures var r := LlmAnswer(app, client);
      |app.history| <= |r.history| && r.history[..|app.history|] == app.history
  {
    var r := LlmAnswer(app, client);
    if Decide(app.query, app.clipboard).Dispatched? {
      GetResponseAppendOnly(app.history, Decide(app.query, app.clipboard).text, client);
    }
  }

  /** A cancelled query never reaches the client, the clipboard or the
      keyboard, however long it is. */
  lemma CancelledNeverSent(app: App, client: Request -> Reply)
    requires Contains(Lower(app.query), CancelWord)
    ensures var r := LlmAnswer(app, client);
      r.pastes == app.pastes && r.clipboard == app.clipboard && r.query == app.query
      && r.history == StartingHistory(app)
  {
  }
}
