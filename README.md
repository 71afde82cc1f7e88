# Hangman chat-command engine, modelled in Dafny

This project models the game engine of a chat-command hangman server. A
channel starts a round with `newgame <word>`. Players then guess letters or
whole words, or ask for the `state` of the round. The engine has three parts.

- **Round state** (`hangman_state.js`). The model has three classes.
  `HangmanState.HangmanGame` holds the word, the letters still to find, the
  guessed letters and words, and the tri-state `lastGuessValid`. It owns a
  mask object (`HangmanRep`, an `array<char>` written in place by
  `SetLetter`) and a stage counter (`HangmanAscii`, stages 0..7).
  - Every game has an abstract value, `Snapshot()`, of type `RoundSpec.Round`.
  - Each method is proved to move that value as a pure `RoundSpec` function
    says: `Start`, `AfterLetter`, `AfterWord` or `Display`.
  - The rules the source promises are proved as lemmas about those functions
    (round.dfy). So is the invariant `Inv` every game keeps.
  - `getWord` and `getCreator` are the constant fields `word` and `creator`.
    The `lastGuessValid()` getter is the field of the same name.
- **Command dispatcher** (`hangman_controller.js`). `HangmanController.Controller`
  keeps the channel registry `gameStates` and the listeners registered with `On`.
  `HandleRequest` returns the one `Event` a request raises, with the
  arguments its listeners receive.
  - The command grammar is in command_grammar.dfy. The three anchored
    patterns are written twice: as ghost predicates shaped like the regular
    expressions (`NewgameShape`, `StateShape`, `GuessShape`), and as the
    trim-based tests that `Classify` computes. Lemmas prove the two agree.
  - `Respond` is the dispatcher on values, with each game given by its
    `Round`. `HandleRequest` is proved to follow it. The registry invariant
    and the locality of every request are proved on `Respond`.
- **Utilities** (`utility.js`).
  - `SetToString` collects a set in a loop, sorts it with an insertion sort
    and joins it with commas. It is proved equal to the joined ascending
    listing `Ordered(s)`, which depends on the set alone.
  - `MultiSearch` drives a global one-letter `RegexPattern` through its
    `lastIndex` cursor. It is proved to return `SearchResult`.

The source has no integer arithmetic that can overflow. Strings are
`seq<char>`.

## Model

| member | source | states |
|---|---|---|
| Utility.SetToString | utility.js:1-5 | the result is the set's members in ascending order, joined by commas; it depends on the set alone, not on the order its members were added |
| Utility.Join | utility.js:4 | joining no parts gives the empty string; joining n parts gives a string as long as the parts together plus n-1 separators |
| Utility.JoinAppend | utility.js:4 | read from the left, a join is the join of all parts but the last, then one separator, then the last part |
| Utility.Ordered | utility.js:4 | the ascending listing of a set is strictly ascending, has exactly the set's members and has one entry per member |
| Utility.AscendingUnique | utility.js:4 | two strictly ascending lists with the same members are equal, so sorting a set has one possible result |
| Utility.Sort | utility.js:4 | sorting distinct strings yields a strictly ascending list with the same members |
| Utility.Insert | utility.js:4 | inserting a new string into an ascending list keeps it ascending and adds exactly that string |
| Utility.BelowIrreflexive | utility.js:4 | no string sorts before itself |
| Utility.BelowTransitive | utility.js:4 | the default sort order is transitive |
| Utility.BelowTotal | utility.js:4 | of two different strings, one sorts before the other |
| Utility.BelowAsymmetric | utility.js:4 | two strings never sort before each other |
| Utility.MinimumExists | utility.js:4 | every non-empty set of strings has a least member |
| Utility.SetToStringOfEmpty | utility.js:2-4 | an empty set is written as the empty string |
| Utility.SetToStringOfTwoLetters | utility.js:1-5 | the set {"b", "a"} is written "a,b" |
| Utility.OccurrencesFrom | utility.js:24-27 | every index the search collects from `k` on lies in the string, at or after `k`, and holds the letter; the indices strictly increase; there are no more of them than characters left |
| Utility.OccurrencesFromComplete | utility.js:24-27 | the search from `k` misses no index at or after `k` that holds the letter |
| Utility.OccurrencesFromHead | utility.js:24-26 | a non-empty search result is its first match followed by the search that starts one past that match, which is how successive `exec` calls advance |
| Utility.OccurrencesMembers | utility.js:24-32 | the found indices are exactly the positions of the letter; none are found exactly when the letter does not occur |
| Utility.SearchResult | utility.js:9-37 | a null source gives null; a null pattern gives [0]; otherwise the result is null exactly when the letter does not occur, and else a non-empty, strictly increasing list of exactly the letter's positions |
| Utility.RegexPattern.constructor | hangman_state.js:21 | a global pattern built from one letter starts with `lastIndex` 0 |
| Utility.RegexPattern.Exec | utility.js:24 | `exec` finds the first occurrence at or after `lastIndex` and moves `lastIndex` one past it; with no match (or `lastIndex` past the end) it returns null and resets `lastIndex` to 0 |
| Utility.ExecAll | utility.js:19-27 | running `exec` from `lastIndex` 0 until it fails collects exactly the letter's positions, in order |
| Utility.MultiSearch | utility.js:9-37 | the result is `SearchResult` of the source and the pattern's letter, and the pattern's `lastIndex` is the same afterwards as before |
| RoundSpec.StartKeepsInv | hangman_state.js:6-13 | a new round satisfies the round invariant, and it is over exactly when the word is empty |
| RoundSpec.LetterKeepsInv | hangman_state.js:16-39 | a letter guess keeps the round invariant. The invariant says: the mask is as long as the word; the stage is at most 7; the remaining letters are letters of the word; each slot is `*` or the word's letter; remaining letters are hidden; and while letters remain, every found letter is shown and was guessed |
| RoundSpec.WordKeepsInv | hangman_state.js:40-52 | a word guess keeps the invariant |
| RoundSpec.StageMonotone | hangman_state.js:204-208 | a letter or word guess never lowers the stage, raises it by at most one, and never past 7 |
| RoundSpec.WrongLetterPenalty | hangman_state.js:31-36 | a letter not among the remaining ones costs one stage (capped at 7) the first time and nothing when it was guessed before |
| RoundSpec.WrongWordPenalty | hangman_state.js:45-50 | a wrong word costs one stage (capped at 7) the first time and nothing when it was guessed before |
| RoundSpec.LetterAfterOver | hangman_state.js:17-19 | once the round is over a letter guess returns false and changes nothing |
| RoundSpec.CorrectLetterReveals | hangman_state.js:26-30 | a remaining letter is accepted: every slot whose word letter it is shows it, every other slot is unchanged, it leaves the remaining set, the stage is kept and `lastGuessValid` is true |
| RoundSpec.LastGuessValidIsOccurrence | hangman_state.js:24-36 | after a letter guess `lastGuessValid` is whether the letter occurs in the word; re-guessing a found letter records true, returns false and costs nothing |
| RoundSpec.LetterIdempotent | hangman_state.js:37 | a letter guess adds the letter to the guessed set, and guessing it twice in a row is the same as guessing it once |
| RoundSpec.CorrectWordWins | hangman_state.js:41-44 | the right word empties the remaining letters, so the round is over, sets `lastGuessValid` true and leaves the mask unchanged |
| RoundSpec.WordIdempotent | hangman_state.js:46-51 | every word guess is added to the guessed words, and guessing the same word twice in a row is the same as once |
| RoundSpec.WordAfterOver | hangman_state.js:40-52 | a word guess has no game-over guard: after a win, a new wrong word still costs a stage |
| RoundSpec.LettersAfterOver | hangman_state.js:17-19 | any sequence of letter guesses leaves a finished round unchanged |
| RoundSpec.LettersShrinkRemaining | hangman_state.js:26-28 | after a sequence of letter guesses, the round is over or the remaining letters are the old ones minus those guessed |
| RoundSpec.CoveringGuessesEndRound | hangman_state.js:62-64 | letter guesses that cover every remaining letter end the round, in any order |
| RoundSpec.WrongLettersHang | hangman_state.js:31-36 | distinct wrong letters, none guessed before, each raise the stage by one until it reaches 7 |
| RoundSpec.SevenWrongLettersLose | hangman_state.js:201-214 | seven distinct wrong letters take a new round to the last stage, which ends it |
| RoundSpec.WrongGuessStep | hangman_state.js:31-50 | one new wrong guess, whether a letter not in the word or another word, costs one stage (stopping at 7), keeps the invariant, leaves the remaining letters alone and records only itself |
| RoundSpec.WrongGuessesHang | hangman_state.js:31-50 | distinct new wrong guesses, letters and words in any mix, each raise the stage by one until it reaches 7 |
| RoundSpec.SevenWrongGuessesLose | hangman_state.js:201-214 | seven distinct wrong guesses, letters and words in any mix, take a new round to the last stage, which ends it |
| RoundSpec.SpacedMask | hangman_state.js:91-93 | the mask joined with spaces holds the mask's characters at the even positions and a space at each odd one, and is one shorter than twice the mask |
| HangmanState.HangmanAscii.constructor | hangman_state.js:201-202 | the counter starts at stage 0 of the eight stages |
| HangmanState.HangmanAscii.NextState | hangman_state.js:204-208 | the stage moves on by one unless it is already the last |
| HangmanState.HangmanAscii.FinalState | hangman_state.js:212-214 | true exactly when the stage is the last one, 7 |
| HangmanState.HangmanAscii.CurrentState | hangman_state.js:209-211 | the drawing is the current stage's, and it is the last drawing exactly when the final stage is reached |
| HangmanState.WrittenPositions | hangman_state.js:21-27 | writing the list of a letter's positions writes exactly the slots holding that letter, all in range |
| HangmanState.HangmanRep.constructor | hangman_state.js:76 | a new mask has the given length with every slot the separator |
| HangmanState.HangmanRep.SetLetter | hangman_state.js:83-89 | each slot listed among the first `rep.length` positions gets the letter; every other slot keeps its value |
| HangmanState.HangmanRep.RepresentationWithSpaces | hangman_state.js:91-93 | the mask's slots, in order, with one space between neighbours: slot k at position 2k and a space at every odd position |
| HangmanState.CreateHangmanRep | hangman_state.js:71-76 | no mask for an empty word; otherwise a fresh mask of `*`, one per letter |
| HangmanState.HangmanGame.constructor | hangman_state.js:3-13 | the new game's round is `Start(word)`: remaining letters the word's distinct letters, mask of `*`, no guesses, stage 0, `lastGuessValid` null; creator is the issuer |
| HangmanState.HangmanGame.GameOver | hangman_state.js:62-64 | true exactly when no letter remains or the stage is 7 |
| HangmanState.HangmanGame.GuessLetter | hangman_state.js:16-39 | the game's round becomes `AfterLetter` of the old round, and the result is whether the letter was still remaining in a running round; the invariant is kept |
| HangmanState.HangmanGame.ShowLetter | hangman_state.js:26-29 | the accepted branch shows the letter in exactly its positions in the word, keeps every other slot, and removes it from the remaining letters; the guess sets and `lastGuessValid` are unchanged |
| HangmanState.HangmanGame.GuessWord | hangman_state.js:40-52 | the game's round becomes `AfterWord` of the old round, with no game-over guard; the invariant is kept |
| HangmanState.HangmanGame.GetState | hangman_state.js:53-55 | the text is the stage drawing, the space-joined mask, and the sorted guessed letters and words, each on its own line |
| CommandGrammar.LowerIsLowerCase | hangman_controller.js:56 | the lower-cased command has no capital letter, keeps its length, and lower-casing it again changes nothing |
| CommandGrammar.Lower | hangman_controller.js:56 | lower-casing keeps the length; a letter `a`-`z` comes out exactly where the command had a letter of either case or the Kelvin sign (U+212A); no capital is left, and every other character is kept |
| CommandGrammar.Classify | hangman_controller.js:59-91 | a text the state pattern matches is a state query, never a guess; a guess needs the guess pattern and not the state pattern; a new game and a guess carry a non-empty run of letters a-z |
| CommandGrammar.TrimIsPadded | hangman_controller.js:27-29 | any text is its trimmed core with only spaces before and after it |
| CommandGrammar.PaddedAtIsTrim | hangman_controller.js:27-29 | a core that neither starts nor ends with a space, surrounded by spaces only, is what trimming leaves |
| CommandGrammar.PaddedIffTrim | hangman_controller.js:27-29 | such a core matches `^[ ]*core[ ]*$` exactly when trimming the text gives the core |
| CommandGrammar.StateMatchIsPattern | hangman_controller.js:29 | the computed state test holds exactly when the text matches `/^[ ]*state[ ]*$/` |
| CommandGrammar.GuessMatchIsPattern | hangman_controller.js:28 | the computed guess test holds exactly when the text matches `/^[ ]*[a-z]+[ ]*$/`, and the extracted guess is that run of letters |
| CommandGrammar.NewgameShapeAt | hangman_controller.js:27 | a text of the new-game shape trims to `newgame`, spaces and the word, passes the computed test, and yields that word |
| CommandGrammar.NewgameMatchShape | hangman_controller.js:27 | a text the computed new-game test accepts has the new-game shape, with the extracted word at its end |
| CommandGrammar.NewgameMatchIsPattern | hangman_controller.js:27 | the computed new-game test holds exactly when the text matches `/^[ ]*newgame[ ]+[a-z]+[ ]*$/` |
| CommandGrammar.NewgameExcludesOthers | hangman_controller.js:59-64 | a new-game command never matches the state pattern or the guess pattern |
| CommandGrammar.ClassifyFollowsPatterns | hangman_controller.js:59-91 | the command is a new game exactly when the new-game pattern matches; it is a state query exactly when the state pattern matches; it is a guess exactly when the guess pattern matches and the state pattern does not; otherwise it is unrecognised; the word and the guess are the letters the patterns end with |
| CommandGrammar.NewgameWordIsToken | hangman_controller.js:70 | the new-game word (after trailing spaces are dropped) is the letter run the new-game pattern ends with |
| CommandGrammar.NewgameWordAsWrittenAgrees | hangman_controller.js:70 | the extraction as written finds the pattern's word exactly when the command does not end in a space |
| CommandGrammar.NewgameTrailingSpaceFails | hangman_controller.js:70 | `"newgame banana "` matches the new-game pattern, but the extraction as written finds no word there; the corrected extraction gives `banana` |
| CommandGrammar.MatchedTextIsLettersAndSpaces | hangman_controller.js:27-29 | a command any pattern matches holds nothing but letters and spaces, so any other character makes it unknown |
| CommandGrammar.KeywordsAlone | hangman_controller.js:59-91 | `state`, padded or not, is a state query and never a guess; `newgame` alone is a guess of the word `newgame` |
| HangmanController.RespondKeepsLive | hangman_controller.js:67-115 | if every running round in the registry keeps the invariant and is not over, the same holds after any request: a started round is not over, and a guess that ends a round clears its entry |
| HangmanController.RespondIsLocal | hangman_controller.js:54-121 | a request changes the registry entry of its own channel only; a state query, a request with no running game and an unknown command leave the registry unchanged |
| HangmanController.NewgameReplaces | hangman_controller.js:67-78 | a new-game command replaces the channel's entry, whatever it held, with a fresh running round of the word, and reports that round |
| HangmanController.NewgameCommand | hangman_controller.js:27 | `newgame` and a word of letters, one space apart, start a game with that word |
| HangmanController.WordCommand | hangman_controller.js:59-91 | a word of letters alone is a guess of that word, except `state`, which is a state query |
| HangmanController.KelvinSignIsAGuess | hangman_controller.js:56 | a lone Kelvin sign lower-cases to `k` and is a guess of that letter |
| HangmanController.GuessingTheWordEnds | hangman_controller.js:100-106 | typing a running round's whole word ends it, whether it is one letter (a letter guess) or more (a word guess) |
| HangmanController.WordGuessEndsGame | hangman_controller.js:91-114 | on a channel with a running round, typing its word (other than `state`) reports the finished round and clears the channel's entry |
| HangmanController.StateWordIsAQuery | hangman_controller.js:67-91 | a game started with the word `state` cannot be won by typing the word: that request is a state query and changes nothing |
| HangmanController.Apply | hangman_controller.js:100-106 | a one-letter guess goes to `guessLetter`, a longer one to `guessWord`; the game's round becomes `GuessStep` of the old round |
| HangmanController.Controller.ActiveGame | hangman_controller.js:44-46 | a channel has an active game exactly when its registry entry exists and is not null |
| HangmanController.Controller.constructor | hangman_controller.js:40-41 | the dispatcher starts with no games and no listeners |
| HangmanController.Controller.On | hangman_controller.js:50-52 | the callback is appended to the listeners of that event name, after those already there; every other event name keeps its listeners, and nothing else changes |
| HangmanController.Controller.Recipients | hangman_controller.js:50-52 | an event reaches the listeners registered with `On` for its name, in registration order, and none when nothing was registered for it |
| HangmanController.Controller.Begin | hangman_controller.js:70-74 | a fresh game for the word, created by the issuer, replaces the channel's entry |
| HangmanController.Controller.Play | hangman_controller.js:100-110 | the channel's game takes the guess; its entry is cleared if the game is then over |
| HangmanController.Controller.Settle | hangman_controller.js:108-110 | after a guess the channel's entry is cleared if the game is over and kept otherwise |
| HangmanController.Controller.HandleRequest | hangman_controller.js:54-121 | the raised event and the new registry are those `Respond` gives for the lower-cased command; a new game is a fresh object stored for the channel; `staterequest` and `guess` carry the channel's existing game; only the guess and new-game cases change the registry, and then only the channel's own entry; the listeners are unchanged |

## Left out

- server.js is not part of this model. It covers HTTP routing, reading the token file, webhook calls and building the replies.
- Listener invocation is not modelled. `HandleRequest` returns the single event a request raises, and `Controller.Recipients` names the listeners it would reach, in registration order. Node's `EventEmitter` calls them, and that is left out.
- The `customState` argument, which is passed through to listeners untouched, is left out.
- Logging is left out.
- The ASCII-art drawings are replaced by eight placeholder strings. Only the stage index and its order matter here.
- `getRepresentation` (the mask joined with no separator) has no caller in the engine and is not modelled.
- CommandGrammar.LowerIsLowerCase: `toLowerCase` is modelled on the characters whose lower case is an ASCII letter: the capitals A-Z and the Kelvin sign U+212A. Every other character is kept, so the model's `Lower` differs from JavaScript on other capitals such as `É`, which JavaScript lower-cases to `é`. It also differs on U+0130, which JavaScript turns into two characters, `i` and U+0307. Each of those JavaScript results contains a character outside `[a-z ]`, and so does the model's, so every command is classified the same. Only the command text echoed in an `unknownrequest` event differs, and so does its length for U+0130.
- The regular expressions' `i` flag is not modelled. The command is lower-cased before every match, so the flag changes nothing.
- Utility.RegexPattern: only the patterns the engine builds are modelled. These are `new RegExp(letter, "g")` for one letter, and `exec` is a literal character scan. Patterns with metacharacters or longer sources are not modelled.
- Utility.Below: the default sort compares UTF-16 code units, and the model compares Unicode scalar values. The two orders agree on strings of Basic Multilingual Plane characters only. A supplementary character (U+10000 and above) sorts before U+E000-U+FFFF in JavaScript and after them in the model. The engine only sorts guesses, which are letters a-z.
- Utility.SetToString: the collection loop visits the set in an arbitrary order, not JavaScript's insertion order. The result is proved not to depend on the order.
- HangmanState.HangmanRep.SetLetter: requires every listed position (among the first `rep.length`) to be in range. JavaScript would instead grow the array. The only caller passes the letter's positions in the word, which always satisfy this.
- HangmanState.HangmanGame.constructor: requires a non-empty word. With an empty word the source builds a game whose mask is null, and `getState` then throws. The dispatcher only ever starts games with a word of one or more letters.
- HangmanState.CreateHangmanRep: the `word == null` case is not modelled, since strings in the model are never null.
- Channel identifiers that name properties of JavaScript's `Object.prototype` (for example `constructor`) would read an inherited value from `gameStates`. The registry is modelled as a plain map.
- HangmanController.Controller.HandleRequest: follows the corrected new-game word extraction (see Findings), not the one that throws.

## Findings

| source | as written | input that shows it | evidently intended | confidence | as-written member | corrected member |
|---|---|---|---|---|---|---|
| hangman_controller.js:70 | the word is taken with `command.match(/[a-z]+$/i)[0]`, but the new-game pattern on line 27 allows trailing spaces; the match is then null and indexing it throws a TypeError | `newgame banana ` (one trailing space) | start a game with `banana`, the letters before the trailing spaces | high (not executed) | CommandGrammar.NewgameWordAsWritten, CommandGrammar.NewgameTrailingSpaceFails | CommandGrammar.NewgameWord, CommandGrammar.NewgameWordIsToken |
