/** The meeting assistant chat: its history, the send transition, the
    context sent with each prompt and the quick prompts. */
module AIChat {
  import opened Wrappers
  import opened Text

  datatype Role = User | Assistant

  /** A chat message. `content` is absent when a reply body had no `text`
      field. */
  datatype Message = Message(id: string, role: Role, content: Option<string>)

  /** What became of the request: a parsed body, whose `text` field may be
      missing (whatever the HTTP status), or an exception from the request
      or from parsing. */
  datatype FetchOutcome = Responded(text: Option<string>) | Threw

  const WelcomeText: string := "Привет! Я ваш ИИ-ассистент для анализа встречи. Что вы хотите узнать об этой встрече?"
  const ErrorText: string := "Произошла ошибка. Попробуйте позже."

  /** The history a chat starts with. */
  const Welcome: Message := Message("welcome", Assistant, Some(WelcomeText))

  /** The prompts of the quick-prompt buttons. */
  const QuickPrompts: seq<string> := [
    "Сделай краткое резюме встречи",
    "Сделай подробное резюме встречи",
    "Сделай резюме встречи с указанием источников",
    "Сделай резюме и выдели действия, которые нужно выполнить",
    "Сделай резюме встречи, ориентируясь на повестку",
    "Сгенерируй список действий по результатам встречи"
  ]

  /** No quick prompt is blank, so every quick-prompt click sends its
      prompt: each ends with a letter, which `trim` keeps. */
  lemma QuickPromptsSend()
    ensures forall p :: p in QuickPrompts ==> !IsBlank(p)
  {
    LastLetterNotBlank(QuickPrompts[0], 'и');
    LastLetterNotBlank(QuickPrompts[1], 'и');
    LastLetterNotBlank(QuickPrompts[2], 'в');
    LastLetterNotBlank(QuickPrompts[3], 'ь');
    LastLetterNotBlank(QuickPrompts[4], 'у');
    LastLetterNotBlank(QuickPrompts[5], 'и');
  }

  /** A text ending in a non-whitespace character is not blank. */
  lemma LastLetterNotBlank(p: string, c: char)
    requires |p| > 0 && p[|p| - 1] == c && !IsWhitespace(c)
    ensures !IsBlank(p)
  {
  }

  /** The context sent along with a prompt. */
  function Context(meetingTitle: string, transcript: string): string {
    "Встреча: " + meetingTitle + "\nТранскрипт:\n" + transcript
  }

  /** A title without a line break can be read back from the context, and
      so can the transcript: different meetings give different contexts. */
  lemma ContextDeterminesMeeting(t1: string, x1: string, t2: string, x2: string)
    requires '\n' !in t1 && '\n' !in t2
    requires Context(t1, x1) == Context(t2, x2)
    ensures t1 == t2 && x1 == x2
  {
    var head := "Встреча: ";
    var tail := "Транскрипт:\n";
    assert Context(t1, x1) == head + (t1 + ['\n'] + (tail + x1));
    assert Context(t2, x2) == head + (t2 + ['\n'] + (tail + x2));
    assert t1 + ['\n'] + (tail + x1) == Context(t1, x1)[|head|..] == t2 + ['\n'] + (tail + x2);
    SplitAfterPiece(t1, '\n', tail + x1);
    SplitAfterPiece(t2, '\n', tail + x2);
    var pieces := Split(t1 + ['\n'] + (tail + x1), '\n');
    assert pieces == Split(t2 + ['\n'] + (tail + x2), '\n');
    assert t1 == pieces[0] == t2;
    var n := |t1| + 1 + |tail|;
    assert x1 == (t1 + ['\n'] + (tail + x1))[n..] == (t2 + ['\n'] + (tail + x2))[n..] == x2;
  }

  /** The assistant message that ends a send: the body's `text`, or the
      fixed error text when the request threw. */
  function Reply(outcome: FetchOutcome, id: string): (m: Message)
    ensures m.role == Assistant && m.id == id
    ensures outcome.Responded? ==> m.content == outcome.text
    ensures outcome.Threw? ==> m.content == Some(ErrorText)
  {
    match outcome
    case Responded(text) => Message(id, Assistant, text)
    case Threw => Message(id, Assistant, Some(ErrorText))
  }

  /** A reply shows the error text exactly when the request threw or the
      server itself answered with that text, and shows no content exactly
      when the body had no `text`. */
  lemma ReplyContent(outcome: FetchOutcome, id: string)
    ensures Reply(outcome, id).content == Some(ErrorText) <==> outcome.Threw? || outcome == Responded(Some(ErrorText))
    ensures Reply(outcome, id).content.None? <==> outcome == Responded(None)
  {
  }

  /** The state of the chat panel. */
  class ChatState {
    var messages: seq<Message>
    var input: string
    var isLoading: bool

    constructor()
      ensures messages == [Welcome] && input == "" && !isLoading
    {
      messages := [Welcome];
      input := "";
      isLoading := false;
    }

    /** Typing in the input box. */
    method SetInput(text: string)
      modifies this
      ensures input == text && messages == old(messages) && isLoading == old(isLoading)
    {
      input := text;
    }

    /** The synchronous start of `sendMessage`: a blank text is ignored;
        otherwise the user message, holding the text as typed, is appended,
        the input is cleared and loading starts. `userId` stands for the
        clock reading that names the message. */
    method BeginSend(text: string, userId: string) returns (sent: bool)
      modifies this
      ensures sent <==> !IsBlank(text)
      ensures !sent ==> messages == old(messages) && input == old(input) && isLoading == old(isLoading)
      ensures sent ==> messages == old(messages) + [Message(userId, User, Some(text))] && input == "" && isLoading
    {
      TrimEmptyIffBlank(text);
      if Trim(text) == "" {
        return false;
      }
      var userMessage := Message(userId, User, Some(text));
      messages := messages + [userMessage];
      input := "";
      isLoading := true;
      return true;
    }

    /** The end of `sendMessage`, once the request has settled: the reply
        is appended and loading stops. */
    method CompleteSend(outcome: FetchOutcome, replyId: string)
      modifies this
      ensures messages == old(messages) + [Reply(outcome, replyId)]
      ensures input == old(input) && !isLoading
    {
      match outcome {
        case Responded(text) =>
          messages := messages + [Message(replyId, Assistant, text)];
        case Threw =>
          messages := messages + [Message(replyId, Assistant, Some(ErrorText))];
      }
      isLoading := false;
    }

    /** A whole `sendMessage` with nothing else happening meanwhile: a blank
        text changes nothing; any other adds exactly the user message and
        the reply, keeps the earlier history, clears the input and ends
        with loading off. */
    method SendMessage(text: string, userId: string, outcome: FetchOutcome, replyId: string) returns (sent: bool)
      modifies this
      ensures sent <==> !IsBlank(text)
      ensures !sent ==> messages == old(messages) && input == old(input) && isLoading == old(isLoading)
      ensures sent ==> messages == old(messages) + [Message(userId, User, Some(text)), Reply(outcome, replyId)]
      ensures sent ==> input == "" && !isLoading
    {
      sent := BeginSend(text, userId);
      if sent {
        CompleteSend(outcome, replyId);
      }
    }
  }
}
