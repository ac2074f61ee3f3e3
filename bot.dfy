/**
 * The chat front end of the bot without its network and file I/O: validation of a
 * `/generate name n` command into a configuration, and the three-state dialogue that
 * decides, message by message, what the bot answers and which state comes next.
 */
module Bot {
  import opened Wrappers
  import opened Numeric
  import opened Words

  // ---------------------------------------------------------------------------
  // Config::new

  /** A validated generation request: the source file and the word count. */
  datatype Config = Config(filename: string, length: u32)

  /**
   * `Config::new`: `params` are the command's tokens, the command name first and
   * ignored. An empty list is not handled by the source (it reaches `params[1]`),
   * hence the precondition.
   */
  function NewConfig(params: seq<string>): (r: Result<Config, string>)
    requires |params| >= 1
    ensures r.Ok? <==> |params| >= 3 && ParseU32(params[2]).Some? && ParseU32(params[2]).value >= 2
    ensures r.Ok? ==> r.value.filename == params[1] && ParseU32(params[2]) == Some(r.value.length)
    ensures |params| == 1 ==> r == Err("missing arguments")
    ensures |params| == 2 ==> r == Err("missing length")
    ensures |params| >= 3 && ParseU32(params[2]).None?
            ==> r == Err("'" + params[2] + "' is not a natural number")
    ensures |params| >= 3 && ParseU32(params[2]).Some? && ParseU32(params[2]).value < 2
            ==> r == Err("the integer must be greater than 1")
  {
    if |params| == 1 then Err("missing arguments")
    else if |params| == 2 then Err("missing length")
    else
      match ParseU32(params[2])
      case None => Err("'" + params[2] + "' is not a natural number")
      case Some(length) =>
        if length < 2 then Err("the integer must be greater than 1")
        else Ok(Config(params[1], length))
  }

  /** Tokens after the length are ignored. */
  lemma NewConfigIgnoresExtra(params: seq<string>)
    requires |params| >= 3
    ensures NewConfig(params) == NewConfig(params[..3])
  {
    assert params[..3][1] == params[1] && params[..3][2] == params[2];
  }

  /** An accepted length always satisfies the generator's requirement of at least two words. */
  lemma {:induction false} AcceptedLength(name: string, file: string, n: nat)
    requires 2 <= n < U32_LIMIT
    ensures NewConfig([name, file, Decimal(n)]) == Ok(Config(file, n as u32))
  {
    ParseDecimal(n);
  }

  // ---------------------------------------------------------------------------
  // The dialogue

  /** The state of a chat, stored between messages. */
  datatype Dialogue = Start | ReceiveCommand | ExecCommand(command: seq<string>)

  /** The states a chat can be in: a stored command is always a `/generate` command. */
  predicate Consistent(d: Dialogue) {
    d.ExecCommand? ==> |d.command| >= 1 && d.command[0] == "/generate"
  }

  /** `Default for Dialogue`: a new chat starts in `Start`, a consistent state. */
  function DefaultDialogue(): (d: Dialogue)
    ensures d == Start && Consistent(d)
  {
    Start
  }

  /**
   * What the bot sends back. `Generated(corpus, length)` is the text that
   * `markov::gen_text(corpus, length)` returns for the named file's contents; it is
   * only sent where that call does not panic.
   */
  datatype Reply =
    | Welcome                                  // the command and source overview
    | AskForText                               // the update carried no text
    | CouldNotParse                            // an unknown command
    | Generated(corpus: string, length: u32)
    | WaitingForCommand
    | CouldNotRead                             // the named file could not be read
    | ConfigError(message: string)             // a `Config::new` error

  /** The answers to one message and the state the dialogue moves to. */
  datatype Step = Step(next: Dialogue, replies: seq<Reply>)

  /**
   * An incoming update: `None` when it carries no text, otherwise the whitespace
   * separated tokens of its text.
   */
  type Message = Option<seq<string>>

  /** `dialogue_start`: greet, whatever the message, and wait for a command. */
  function StartStep(): (s: Step)
    ensures s.next == ReceiveCommand && s.replies == [Welcome]
  {
    Step(ReceiveCommand, [Welcome])
  }

  /**
   * `dialogue_rec_cmd`: dispatch on the first token. A text with no tokens is not
   * handled by the source (it reaches `command[0]`), hence the precondition.
   */
  function ReceiveStep(message: Message): (s: Step)
    requires message.Some? ==> |message.value| >= 1
    ensures message.None? ==> s == Step(ReceiveCommand, [AskForText])
    ensures message.Some? ==> (s.next == Start <==> message.value[0] in {"/help", "/start"})
    ensures message.Some? ==> (s.next.ExecCommand? <==> message.value[0] == "/generate")
    ensures s.next.ExecCommand? ==> s.next.command == message.value
    ensures message.Some? && message.value[0] !in {"/help", "/start", "/generate"}
            ==> s == Step(ReceiveCommand, [CouldNotParse])
    ensures s.next != ReceiveCommand ==> s.replies == []
  {
    match message
    case None => Step(ReceiveCommand, [AskForText])
    case Some(command) =>
      if command[0] == "/help" || command[0] == "/start" then Step(Start, [])
      else if command[0] == "/generate" then Step(ExecCommand(command), [])
      else Step(ReceiveCommand, [CouldNotParse])
  }

  /**
   * `markov::gen_text` can run on what the command names: when the command is valid
   * and its file is readable, the file's text has at least three words. On one word
   * `parse` panics at its second `unwrap` (src/markov.rs:11); on two the table is
   * empty and `text_from_table` panics choosing a seed (src/markov.rs:31).
   */
  predicate CanGenerate(command: seq<string>, files: map<string, string>)
    requires |command| >= 1
  {
    NewConfig(command).Ok? && command[1] in files ==> |Split(files[command[1]])| >= 3
  }

  /** A valid command naming a one-word file is one `gen_text` cannot run on. */
  lemma {:induction false} OneWordFileCannotGenerate()
    ensures !CanGenerate(["/generate", "f", "5"], map["f" := "hello"])
  {
    ParseDecimal(5);
    assert Decimal(5) == "5";
    SplitNoSpace("hello");
  }

  /**
   * `dialogue_ex_cmd`: validate the stored command, read the named file from `files`
   * (the file system as seen at that moment) and generate, or report what failed.
   * A readable file of fewer than three words makes `gen_text` panic, hence the
   * second precondition.
   */
  function ExecStep(command: seq<string>, files: map<string, string>): (s: Step)
    requires |command| >= 1
    requires CanGenerate(command, files)
    ensures s.next == ReceiveCommand
    ensures |s.replies| >= 1
    ensures s.replies[0].Generated? <==> NewConfig(command).Ok? && command[1] in files
    ensures s.replies[0].Generated?
            ==> s.replies == [Generated(files[command[1]], s.replies[0].length), WaitingForCommand]
                && ParseU32(command[2]) == Some(s.replies[0].length)
    ensures s.replies[0].Generated?
            ==> |Split(s.replies[0].corpus)| >= 3 && s.replies[0].length >= 2
    ensures NewConfig(command).Err? ==> s.replies == [ConfigError(NewConfig(command).error)]
    ensures NewConfig(command).Ok? && command[1] !in files ==> s.replies == [CouldNotRead]
  {
    match NewConfig(command)
    case Ok(config) =>
      if config.filename in files
      then Step(ReceiveCommand, [Generated(files[config.filename], config.length), WaitingForCommand])
      else Step(ReceiveCommand, [CouldNotRead])
    case Err(message) => Step(ReceiveCommand, [ConfigError(message)])
  }

  /**
   * The precondition of `HandleMessage`: a text to dispatch has a first token, and a
   * stored command has a first token and can be generated from.
   */
  predicate CanHandle(d: Dialogue, message: Message, files: map<string, string>) {
    && (d.ReceiveCommand? && message.Some? ==> |message.value| >= 1)
    && (d.ExecCommand? ==> |d.command| >= 1 && CanGenerate(d.command, files))
  }

  /**
   * `handle_message`: one message, handled according to the current state. Only
   * `ReceiveCommand` leads elsewhere: `Start` and `ExecCommand` always return to it,
   * whatever the message and whether the command succeeded or failed. Every
   * generation it asks for meets the requirements of `Markov.GenText`.
   */
  function HandleMessage(d: Dialogue, message: Message, files: map<string, string>): (s: Step)
    requires CanHandle(d, message, files)
    ensures d.Start? ==> s == StartStep()
    ensures d.ReceiveCommand? ==> s == ReceiveStep(message)
    ensures d.ExecCommand? ==> s == ExecStep(d.command, files)
    ensures !d.ReceiveCommand? ==> s.next == ReceiveCommand
    ensures Consistent(d) ==> Consistent(s.next)
    ensures forall i :: 0 <= i < |s.replies| && s.replies[i].Generated?
              ==> |Split(s.replies[i].corpus)| >= 3 && s.replies[i].length >= 2
  {
    match d
    case Start => StartStep()
    case ReceiveCommand => ReceiveStep(message)
    case ExecCommand(command) => ExecStep(command, files)
  }

  /** Every readable file has at least three words. */
  predicate UsableCorpora(files: map<string, string>) {
    forall name :: name in files ==> |Split(files[name])| >= 3
  }

  /**
   * From a consistent state `Config::new` is never given an empty list: the bot
   * panics only on a blank text or on a readable file of fewer than three words.
   */
  lemma DialogueStaysConsistent(d: Dialogue, message: Message, files: map<string, string>)
    requires Consistent(d) && UsableCorpora(files)
    requires d.ReceiveCommand? && message.Some? ==> |message.value| >= 1
    ensures CanHandle(d, message, files)
    ensures Consistent(HandleMessage(d, message, files).next)
  {
  }

  /**
   * A `/generate` command is only stored; it runs on the next message, whose content
   * is ignored.
   */
  lemma GenerateRunsOnNextMessage(command: seq<string>, m1: Message, m2: Message, files: map<string, string>)
    requires |command| >= 1 && command[0] == "/generate" && CanGenerate(command, files)
    ensures ReceiveStep(Some(command)) == Step(ExecCommand(command), [])
    ensures HandleMessage(ExecCommand(command), m1, files) == HandleMessage(ExecCommand(command), m2, files)
  {
  }

  /** The first message of a new chat is answered with the overview, and commands are awaited. */
  lemma NewChatGreets(message: Message, files: map<string, string>)
    ensures HandleMessage(DefaultDialogue(), message, files) == Step(ReceiveCommand, [Welcome])
  {
  }

  /** No incoming text is blank. */
  predicate NoBlankTexts(messages: seq<Message>) {
    forall i :: 0 <= i < |messages| ==> (messages[i].Some? ==> |messages[i].value| >= 1)
  }

  /**
   * A chat in state `d` can handle `messages` in order without a panic: each message
   * meets `HandleMessage`'s precondition in the state the previous ones led to.
   */
  predicate Handles(d: Dialogue, messages: seq<Message>, files: map<string, string>)
    decreases |messages|
  {
    messages == []
    || (CanHandle(d, messages[0], files)
        && Handles(HandleMessage(d, messages[0], files).next, messages[1..], files))
  }

  /**
   * A sufficient condition for `Handles`: from a consistent state, no blank text and
   * no readable file of fewer than three words lets any sequence of messages through.
   */
  lemma {:induction false} HandlesWhenUsable(d: Dialogue, messages: seq<Message>, files: map<string, string>)
    requires Consistent(d) && NoBlankTexts(messages) && UsableCorpora(files)
    ensures Handles(d, messages, files)
    decreases |messages|
  {
    if messages != [] {
      assert messages[0].Some? ==> |messages[0].value| >= 1;
      DialogueStaysConsistent(d, messages[0], files);
      assert NoBlankTexts(messages[1..]) by {
        forall i | 0 <= i < |messages[1..]|
          ensures messages[1..][i].Some? ==> |messages[1..][i].value| >= 1
        {
          assert messages[1..][i] == messages[i + 1];
        }
      }
      HandlesWhenUsable(HandleMessage(d, messages[0], files).next, messages[1..], files);
    }
  }

  /**
   * The dialogue loop of `dialogues_repl`: the state of a chat after it has handled
   * `messages` in order, starting from `d`. A chat that starts consistent stays so.
   */
  function Run(d: Dialogue, messages: seq<Message>, files: map<string, string>): (r: Dialogue)
    requires Handles(d, messages, files)
    ensures Consistent(d) ==> Consistent(r)
    decreases |messages|
  {
    if messages == [] then d
    else Run(HandleMessage(d, messages[0], files).next, messages[1..], files)
  }

  /**
   * Handling one more message is one more step from where the chat was: a chat that
   * can handle `messages + [m]` can handle `messages`, and then `m` in the state
   * they lead to.
   */
  lemma {:induction false} RunSnoc(d: Dialogue, messages: seq<Message>, m: Message, files: map<string, string>)
    requires Handles(d, messages + [m], files)
    ensures Handles(d, messages, files)
    ensures CanHandle(Run(d, messages, files), m, files)
    ensures Run(d, messages + [m], files) == HandleMessage(Run(d, messages, files), m, files).next
    decreases |messages|
  {
    if messages == [] {
      assert (messages + [m])[0] == m && (messages + [m])[1..] == [];
    } else {
      assert (messages + [m])[0] == messages[0];
      assert (messages + [m])[1..] == messages[1..] + [m];
      RunSnoc(HandleMessage(d, messages[0], files).next, messages[1..], m, files);
    }
  }

  /**
   * A chat is never outside `ReceiveCommand` for two messages in a row: a state
   * other than `ReceiveCommand` can only follow `ReceiveCommand`.
   */
  lemma NeverAwayTwice(messages: seq<Message>, m: Message, files: map<string, string>)
    requires Handles(DefaultDialogue(), messages + [m], files)
    ensures Handles(DefaultDialogue(), messages, files)
    ensures Run(DefaultDialogue(), messages + [m], files) != ReceiveCommand
            ==> Run(DefaultDialogue(), messages, files) == ReceiveCommand
  {
    RunSnoc(DefaultDialogue(), messages, m, files);
  }

  /**
   * A file the chat never names does not matter: with a one-word file readable, a
   * chat whose command names a missing file still runs through, back to
   * `ReceiveCommand`.
   */
  lemma {:induction false} UnnamedFileIrrelevant()
    ensures !UsableCorpora(map["hostname" := "box"])
    ensures Handles(Start, [None, Some(["/generate", "notes", "5"]), None], map["hostname" := "box"])
    ensures Run(Start, [None, Some(["/generate", "notes", "5"]), None], map["hostname" := "box"]) == ReceiveCommand
  {
    var files := map["hostname" := "box"];
    SplitNoSpace("box");
    assert |Split(files["hostname"])| == 1;
    var ms: seq<Message> := [None, Some(["/generate", "notes", "5"]), None];
    assert ms[1..] == [Some(["/generate", "notes", "5"]), None];
    assert ms[1..][1..] == [None];
    assert ms[1..][1..][1..] == [];
    assert Handles(ExecCommand(["/generate", "notes", "5"]), ms[1..][1..], files);
  }
}
