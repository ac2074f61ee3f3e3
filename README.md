# funkytextgenbot in Dafny

A model of the Telegram bot funkytextgenbot, which imitates a source text with a
second-order Markov chain.

The core is the generator in `src/markov.rs`:

- `parse` splits a corpus on single spaces. It records, for every pair of
  consecutive words, the list of words that followed that pair, in corpus order and
  with duplicates.
- `text_from_table` picks a random pair of the table as the seed. It then keeps
  appending a random recorded continuation of the trailing pair. It stops when the
  requested word count is reached or when the trailing pair has no entry.
- `gen_text` composes the two.

Around it, `src/lib.rs` validates the `/generate name n` command (`Config::new`) and
runs a three-state dialogue (`Start`, `ReceiveCommand`, `ExecCommand`) that decides
what the bot answers to each message.

Files:

- `wrappers.dfy`: `Option` and `Result`.
- `numeric.dfy`: `u32` and a decimal parser with the behaviour of `str::parse::<u32>`.
- `words.dfy`: splitting on `" "` and joining with `" "`, with their round trips.
- `markov.dfy`: `Parse`, `TextFromTable` and `GenText` as methods with loops, proved
  against the specification functions `TableOf`, `Followers`, `Entries` and
  `IsGeneration`, with the lemmas about those functions.
- `markov_scenarios.dfy`: small corpora worked out from the general definitions.
- `bot.dfy`: `NewConfig` and the dialogue as pure transition functions.

Modelling choices:

- The random generator is a nondeterministic choice (`:|`). The seed is any key of
  the table and each continuation is any element of the trailing pair's list.
  `IsGeneration` describes exactly the word sequences that can come out.
- The output string is built with `Join`. `GenText` also proves that splitting it
  gives back the generated words, so its word count is the length of that sequence.
- The source panics in seven places. Each one becomes a precondition:
  - the second `unwrap` in `parse` (src/markov.rs:11) needs at least two pieces;
  - `gen_range` on the empty key range (src/markov.rs:31) needs a non-empty table;
  - `gen_range` on an empty continuation list (src/markov.rs:38) needs every list
    to be non-empty, which `TableListsNonEmpty` shows `parse` guarantees;
  - `command[0]` on a blank message (src/lib.rs:75) needs at least one token;
  - `params[1]` on an empty list (src/lib.rs:19) needs at least one token, so
    `NewConfig` requires one; `DialogueStaysConsistent` shows that the dialogue
    only ever passes it a list starting with `/generate`;
  - `gen_text` reached from src/lib.rs:93 on a readable file of fewer than three
    words panics in one of the first two ways, so `ExecStep` requires
    `CanGenerate` of the command and the files;
  - `length-2` (src/markov.rs:35) underflows for a length below 2, so
    `TextFromTable` requires `length >= 2`. Only builds with overflow checks panic
    there; other builds wrap and loop up to some four billion times. `Config::new` never
    lets such a length through (`ExecStep` ensures its length is at least 2).
- `gen_text` on a text of fewer than three words panics: a one-piece text at the
  second `unwrap` (src/markov.rs:11), a two-piece text at the seed choice on the
  empty table (src/markov.rs:31). The code has no error type for this case, so
  `GenText` requires three words. `TableEmptyIff` shows that this is exactly the
  condition for a non-empty table.
- The bot replies are values. `Generated(corpus, length)` stands for the text
  `gen_text(corpus, length)` returns. The dialogue only produces it where
  `GenText`'s requirements hold (three words, length at least 2). The file system is
  a map from names to contents.
- `Run` and the lemmas about whole conversations require `Handles`: each message
  meets `HandleMessage`'s precondition in the state the earlier ones led to, which is
  exactly the condition under which the bot does not panic. A chat may have
  unusable files around as long as it never generates from them
  (`UnnamedFileIrrelevant`). `HandlesWhenUsable` gives a simple sufficient
  condition: no blank texts and every readable file of at least three words.
- A handler of the dialogue runs when a message arrives in the state it belongs to.
  So `/generate name n` only stores the command. The generation happens when the
  next message arrives, and that message's content is ignored
  (`GenerateRunsOnNextMessage`). `/help` likewise answers with the overview on the
  following message.

## Model

| member | source | states |
|---|---|---|
| Words.Split | src/markov.rs:5 | splitting always gives a first piece, and no piece contains a space |
| Words.SplitLength | src/markov.rs:5 | a text with n spaces splits into n + 1 pieces, empty pieces included |
| Words.SplitHasSecondPiece | src/markov.rs:9-11 | the second `unwrap` succeeds exactly when the text contains a space |
| Words.JoinSplit | src/markov.rs:5 | joining the pieces with single spaces gives back the text, so splitting loses nothing |
| Words.SplitJoin | src/markov.rs:33-40 | splitting a space-joined list of words without spaces gives back the list |
| Markov.Parse | src/markov.rs:4-25 | the loop over the three-word windows builds exactly `TableOf` of the split text |
| Markov.FollowersMember | src/markov.rs:13-22 | a word is among a pair's followers exactly when the corpus holds that pair followed by that word |
| Markov.TableIsFollowers | src/markov.rs:13-22 | a pair is a key exactly when it has followers, and its list is those followers in corpus order with duplicates |
| Markov.TableKeys | src/markov.rs:13-19 | the keys are exactly the pairs `(words[i], words[i+1])` with `i + 2 < |words|` |
| Markov.TableContinuations | src/markov.rs:14-18 | a key's list holds a word exactly when some corpus window is that key then that word |
| Markov.TableListsNonEmpty | src/markov.rs:14-18 | no list in the table is empty |
| Markov.TableEmptyIff | src/markov.rs:13-19 | the table is empty exactly when the corpus has fewer than three words |
| Markov.RecordEntries | src/markov.rs:14-18 | one push or insert adds exactly one word to the table |
| Markov.TableEntries | src/markov.rs:13-22 | the lists hold `|words| - 2` words in all: each window is recorded once |
| Markov.TextFromTable | src/markov.rs:27-50 | the output has between 2 and `length` words, starts with a key, every word after the first two is a recorded continuation of the two before it, it stops short only at a pair with no entry, and the string is the words joined by spaces |
| Markov.GenText | src/markov.rs:52-54 | `gen_text` yields a generation of the text's own table, and splitting the output string gives back the generated words |
| Markov.GeneratedFromCorpus | src/markov.rs:29-43 | the seed pair is two consecutive corpus words, every output triple occurs in the corpus, and every output word is a corpus word |
| MarkovScenarios.RepeatedPairTable | src/markov.rs:13-22 | "a b c a b d" gives (a,b) to [c, d], (b,c) to [a] and (c,a) to [b] |
| MarkovScenarios.WholeCorpusGenerable | src/markov.rs:29-47 | "a b c a b d" with length 6 can be generated whole, starting from (a, b) |
| MarkovScenarios.ShortestRequest | src/markov.rs:29-35 | "one two three" with length 2 can only give "one two" |
| MarkovScenarios.DeadEnd | src/markov.rs:35-47 | "a b c" with length 10 can only give "a b c": the pair (b, c) has no entry |
| MarkovScenarios.TwoWordsNoTable | src/markov.rs:52-54 | a two-word text gives an empty table, which `text_from_table` cannot sample from |
| Numeric.ParseDecimal | src/lib.rs:21 | parsing a number's decimal form gives the number exactly when it fits in 32 bits |
| Numeric.ParseU32Exactly | src/lib.rs:21 | the parser gives a value exactly for its decimal writings: an optional '+', any leading zeros and the value's canonical decimal, for every value below 2^32 |
| Bot.NewConfig | src/lib.rs:12-31 | one token gives "missing arguments" and two give "missing length"; an unparsable third token gives the message quoting it; a value below 2 gives "the integer must be greater than 1"; otherwise the result is Ok with the second token as file name and the parsed length |
| Bot.NewConfigIgnoresExtra | src/lib.rs:16-30 | tokens after the third are ignored |
| Bot.AcceptedLength | src/lib.rs:21-30 | any number from 2 to 2^32 - 1 written in decimal is accepted as the length |
| Bot.ReceiveStep | src/lib.rs:65-87 | a message without text asks for text; a first token of /help or /start leads to `Start`; /generate leads to `ExecCommand` with all the tokens; any other token stays in `ReceiveCommand` and reports a parse error |
| Bot.DefaultDialogue | src/lib.rs:41-45 | a new chat starts in `Start`, which is a consistent state |
| Bot.StartStep | src/lib.rs:58-63 | `Start` answers with the overview and moves to `ReceiveCommand` |
| Bot.ExecStep | src/lib.rs:89-112 | the next state is always `ReceiveCommand`; the bot generates exactly when the command is valid and the file exists, from the named file's contents, with a length of at least 2 and a text of at least three words; otherwise it reports the config error or the unreadable file; a readable file of fewer than three words is excluded, because `gen_text` panics on it |
| Bot.OneWordFileCannotGenerate | src/lib.rs:90-93 | a valid command naming a one-word file falls outside `ExecStep`'s precondition |
| Bot.HandleMessage | src/lib.rs:47-56 | each state goes to its handler; `Start` and `ExecCommand` always return to `ReceiveCommand`; consistency is kept; every requested generation meets `GenText`'s requirements |
| Bot.NewChatGreets | src/lib.rs:41-63 | a new chat starts in `Start`, whose first message gets the overview and leads to `ReceiveCommand` |
| Bot.DialogueStaysConsistent | src/lib.rs:74-90 | from a consistent state, with every readable file of at least three words, any non-blank message can be handled and leads to a consistent state, so `Config::new` never gets an empty list |
| Bot.GenerateRunsOnNextMessage | src/lib.rs:77 | /generate only stores the command, and what happens next does not depend on the next message |
| Bot.HandlesWhenUsable | src/lib.rs:47-56 | from a consistent state, with no blank text and every readable file of at least three words, any sequence of messages is handled without a panic |
| Bot.Run | src/lib.rs:47-56 | the dialogue loop of `dialogues_repl` (src/main (2).rs, lines 11-13) applying `handle_message` per message: a chat that starts consistent stays consistent through every message it can handle |
| Bot.RunSnoc | src/lib.rs:47-56 | in that loop (src/main (2).rs, lines 11-13), a chat that can handle one more message could handle the earlier ones, and the extra message is one more step of `handle_message` from the state they reached |
| Bot.NeverAwayTwice | src/lib.rs:47-56 | in that loop (src/main (2).rs, lines 11-13), a chat is never outside `ReceiveCommand` for two messages in a row |
| Bot.UnnamedFileIrrelevant | src/lib.rs:89-93 | only the file a command names is read: a one-word file that no command names does not stop a chat whose command names a missing file |

## Left out

- The Telegram I/O: sending answers, the update type, `TransitionOut` and its errors (src/lib.rs:47-112). Only the next state and the list of replies are modelled.
- The wording of the welcome text and of the error answers (src/lib.rs:59, 68, 79, 100, 106). Replies are constructors, and a `Config::new` error carries its message string.
- `fs::read_to_string` (src/lib.rs:92) is a lookup in a map from file names to contents. Read failures other than a missing file are not modelled.
- `Run` and the lemmas about conversations take one file map for the whole conversation. The source reads the file system afresh at each generation (src/lib.rs:92), so files that change between messages are not modelled.
- `split_whitespace` on the chat text (src/lib.rs:74) is not modelled: a message arrives as its token list.
- `str::parse::<u32>` is a library call that is not part of this model. `Numeric.ParseU32` follows its documented behaviour: an optional '+', then one or more ASCII digits, and a value below 2^32.
- The random generator (src/markov.rs:28, 31, 38): the model covers which choices are possible, not their probabilities.
- The iteration order of `HashMap::keys` (src/markov.rs:29) is not modelled. The seed is any key.
- Text sharing: the Rust table borrows string slices from the corpus, while the model copies the words.
- The bot's start-up and logging (src/main (2).rs:4-10). The dialogue loop at lines 11-13 is modelled by `Run`.
