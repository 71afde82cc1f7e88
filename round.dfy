/**
 * The abstract state of one hangman round and the effect of each guess on
 * it. The classes in HangmanState are proved to follow these functions; the
 * lemmas here state what the round promises.
 */
module RoundSpec {
  import opened Utility

  /** The character shown for a position that is not revealed yet. */
  const Placeholder: char := '*'

  /** The gallows drawing for each failure stage, in order. */
  const StageArt: seq<string> := [
    "[gallows: empty]",
    "[gallows: head]",
    "[gallows: head, left arm]",
    "[gallows: head, left arm, upper body]",
    "[gallows: head, both arms, upper body]",
    "[gallows: head, both arms, body]",
    "[gallows: head, both arms, body, left leg]",
    "[gallows: full figure]"
  ]

  /** The last stage; reaching it loses the round. */
  const MaxStage: nat := |StageArt| - 1

  /**
   * One round: the word, the letters of it not guessed yet, the letters and
   * words guessed so far, the mask shown to players, the failure stage and
   * whether the last guess was right (None before any guess).
   */
  datatype Round = Round(
    word: string,
    remaining: set<char>,
    guessedLetters: set<char>,
    guessedWords: set<string>,
    mask: seq<char>,
    stage: nat,
    lastGuessValid: Option<bool>)

  function LettersOf(w: string): set<char>
  {
    set c | c in w
  }

  function Hidden(n: nat): seq<char>
  {
    seq(n, _ => Placeholder)
  }

  /** A fresh round for `w`. */
  function Start(w: string): Round
  {
    Round(w, LettersOf(w), {}, {}, Hidden(|w|), 0, None)
  }

  /** `gameOver()`: every letter found, or the last stage reached. */
  predicate Over(r: Round)
  {
    r.remaining == {} || r.stage == MaxStage
  }

  /** `nextState()`: one stage on, stopping at the last. */
  function Advance(stage: nat): nat
  {
    if stage < MaxStage then stage + 1 else stage
  }

  /** The mask with every position of `c` in `word` showing `c`. */
  function Reveal(mask: seq<char>, word: string, c: char): seq<char>
  {
    seq(|mask|, i requires 0 <= i < |mask| => if i < |word| && word[i] == c then c else mask[i])
  }

  /** The round after `guessLetter(c)`. */
  function AfterLetter(r: Round, c: char): Round
  {
    if Over(r) then r
    else
      var tried := r.(lastGuessValid := Some(c in r.word), guessedLetters := r.guessedLetters + {c});
      if c in r.remaining then
        tried.(mask := Reveal(r.mask, r.word, c), remaining := r.remaining - {c})
      else if c in r.guessedLetters then tried
      else tried.(stage := Advance(r.stage))
  }

  /** What `guessLetter(c)` returns. */
  predicate LetterAccepted(r: Round, c: char)
  {
    !Over(r) && c in r.remaining
  }

  /** The round after `guessWord(w)`; there is no game-over guard. */
  function AfterWord(r: Round, w: string): Round
  {
    var judged :=
      if w == r.word then r.(lastGuessValid := Some(true), remaining := {})
      else r.(lastGuessValid := Some(false), stage := if w in r.guessedWords then r.stage else Advance(r.stage));
    judged.(guessedWords := r.guessedWords + {w})
  }

  /** The dispatcher's routing of a guess: one letter, or a whole word. */
  function GuessStep(r: Round, text: string): Round
  {
    if |text| == 1 then AfterLetter(r, text[0])
    else if |text| > 1 then AfterWord(r, text)
    else r
  }

  /** The round after each of `guesses`, in order, as a letter. */
  function AfterLetters(r: Round, guesses: seq<char>): Round
    decreases |guesses|
  {
    if guesses == [] then r else AfterLetters(AfterLetter(r, guesses[0]), guesses[1..])
  }

  /** The letters of a set, each as a one-character string. */
  function LetterStrings(letters: set<char>): set<string>
  {
    set c | c in letters :: [c]
  }

  /** The mask's positions as one-character strings. */
  function MaskStrings(mask: seq<char>): seq<string>
  {
    seq(|mask|, i requires 0 <= i < |mask| => [mask[i]])
  }

  /** The mask joined with spaces: its characters at the even positions, a space at each odd one. */
  lemma {:induction false} SpacedMask(mask: seq<char>)
    ensures var r := Join(MaskStrings(mask), " ");
      && |r| == (if |mask| == 0 then 0 else 2 * |mask| - 1)
      && forall k :: 0 <= k < |r| ==> r[k] == if k % 2 == 0 then mask[k / 2] else ' '
    decreases |mask|
  {
    if |mask| > 1 {
      SpacedMask(mask[1..]);
      assert MaskStrings(mask)[1..] == MaskStrings(mask[1..]);
      var r := Join(MaskStrings(mask), " ");
      var rest := Join(MaskStrings(mask[1..]), " ");
      assert r == [mask[0]] + " " + rest;
      forall k | 2 <= k < |r|
        ensures r[k] == if k % 2 == 0 then mask[k / 2] else ' '
      {
        assert r[k] == rest[k - 2];
      }
    }
  }

  /** `getState()`: the drawing, the spaced mask and both guess lists, sorted. */
  ghost function Display(r: Round): string
    requires r.stage <= MaxStage
  {
    StageArt[r.stage] + "\n" + Join(MaskStrings(r.mask), " ")
      + "\nGuessed letters: " + Join(Ordered(LetterStrings(r.guessedLetters)), ",")
      + "\nGuessed words: " + Join(Ordered(r.guessedWords), ",")
  }

  /**
   * What holds of every round the game can reach: the mask has the word's
   * length, each slot is hidden or shows the word's letter, a letter still
   * to find is hidden everywhere, and while letters remain the found ones
   * are shown everywhere and were all guessed.
   */
  predicate Inv(r: Round)
  {
    && |r.mask| == |r.word|
    && r.stage <= MaxStage
    && r.remaining <= LettersOf(r.word)
    && (forall i :: 0 <= i < |r.mask| ==> r.mask[i] == Placeholder || r.mask[i] == r.word[i])
    && (forall i :: 0 <= i < |r.mask| && r.word[i] in r.remaining ==> r.mask[i] == Placeholder)
    && (r.remaining != {} ==>
          && (forall i :: 0 <= i < |r.mask| && r.word[i] !in r.remaining ==> r.mask[i] == r.word[i])
          && LettersOf(r.word) - r.remaining <= r.guessedLetters)
  }

  // ---------------------------------------------------------------------
  // Starting a round
  // ---------------------------------------------------------------------

  /** A new round keeps the invariant, and is over exactly when the word is empty. */
  lemma StartKeepsInv(w: string)
    ensures Inv(Start(w))
    ensures Over(Start(w)) <==> |w| == 0
  {
    if |w| > 0 {
      assert w[0] in LettersOf(w);
    }
  }

  // ---------------------------------------------------------------------
  // The invariant is kept by every guess
  // ---------------------------------------------------------------------

  lemma LetterKeepsInv(r: Round, c: char)
    requires Inv(r)
    ensures Inv(AfterLetter(r, c))
  {
    if !Over(r) && c in r.remaining {
      var r' := AfterLetter(r, c);
      assert r'.mask == Reveal(r.mask, r.word, c);
      if r'.remaining != {} {
        forall i | 0 <= i < |r'.mask| && r'.word[i] !in r'.remaining
          ensures r'.mask[i] == r'.word[i]
        {
          if r.word[i] != c {
            assert r.word[i] !in r.remaining;
          }
        }
      }
    }
  }

  lemma WordKeepsInv(r: Round, w: string)
    requires Inv(r)
    ensures Inv(AfterWord(r, w))
  {
  }

  // ---------------------------------------------------------------------
  // The failure stage
  // ---------------------------------------------------------------------

  /** A guess moves the stage on by at most one and never past the last stage. */
  lemma StageMonotone(r: Round, c: char, w: string)
    requires r.stage <= MaxStage
    ensures r.stage <= AfterLetter(r, c).stage <= r.stage + 1
    ensures r.stage <= AfterWord(r, w).stage <= r.stage + 1
    ensures AfterLetter(r, c).stage <= MaxStage && AfterWord(r, w).stage <= MaxStage
  {
  }

  /** A wrong letter costs a stage only the first time it is guessed. */
  lemma WrongLetterPenalty(r: Round, c: char)
    requires !Over(r) && c !in r.remaining
    ensures AfterLetter(r, c).stage == if c in r.guessedLetters then r.stage else Advance(r.stage)
  {
  }

  /** A wrong word costs a stage only the first time it is guessed. */
  lemma WrongWordPenalty(r: Round, w: string)
    requires w != r.word
    ensures AfterWord(r, w).stage == if w in r.guessedWords then r.stage else Advance(r.stage)
  {
  }

  // ---------------------------------------------------------------------
  // Letter guesses
  // ---------------------------------------------------------------------

  /** Once the round is over, a letter guess is refused and changes nothing. */
  lemma LetterAfterOver(r: Round, c: char)
    requires Over(r)
    ensures AfterLetter(r, c) == r && !LetterAccepted(r, c)
  {
  }

  /**
   * A letter still to be found is accepted: every position holding it is
   * revealed, every other position is left as it was, and it is no longer
   * remaining.
   */
  lemma CorrectLetterReveals(r: Round, c: char)
    requires Inv(r) && !Over(r) && c in r.remaining
    ensures LetterAccepted(r, c)
    ensures var r' := AfterLetter(r, c);
      && |r'.mask| == |r.mask|
      && (forall i :: 0 <= i < |r.mask| ==> r'.mask[i] == if r.word[i] == c then c else r.mask[i])
      && r'.remaining == r.remaining - {c}
      && r'.stage == r.stage
      && r'.lastGuessValid == Some(true)
  {
  }

  /**
   * After a letter guess, `lastGuessValid` says whether the letter is in the
   * word, which is not what the guess returned: re-guessing a letter that was
   * already found records a valid guess, returns false and costs nothing.
   */
  lemma LastGuessValidIsOccurrence(r: Round, c: char)
    requires Inv(r) && !Over(r)
    ensures AfterLetter(r, c).lastGuessValid == Some(c in r.word)
    ensures LetterAccepted(r, c) ==> c in r.word
    ensures c in r.word && c !in r.remaining ==>
      && !LetterAccepted(r, c)
      && AfterLetter(r, c).lastGuessValid == Some(true)
      && AfterLetter(r, c).stage == r.stage
  {
    if c in r.word && c !in r.remaining {
      assert c in LettersOf(r.word) - r.remaining;
    }
  }

  /** A letter guess adds the letter to the guessed set, so guessing it twice is guessing it once. */
  lemma LetterIdempotent(r: Round, c: char)
    requires Inv(r)
    ensures AfterLetter(AfterLetter(r, c), c) == AfterLetter(r, c)
    ensures !Over(r) ==> AfterLetter(r, c).guessedLetters == r.guessedLetters + {c}
  {
  }

  // ---------------------------------------------------------------------
  // Word guesses
  // ---------------------------------------------------------------------

  /** The right word wins at once, but leaves the mask as it was. */
  lemma CorrectWordWins(r: Round)
    ensures Over(AfterWord(r, r.word))
    ensures AfterWord(r, r.word).remaining == {}
    ensures AfterWord(r, r.word).lastGuessValid == Some(true)
    ensures AfterWord(r, r.word).mask == r.mask
  {
  }

  /** Every word guess is recorded, and guessing the same word twice is guessing it once. */
  lemma WordIdempotent(r: Round, w: string)
    ensures AfterWord(r, w).guessedWords == r.guessedWords + {w}
    ensures AfterWord(AfterWord(r, w), w) == AfterWord(r, w)
  {
  }

  /** A word guess is not refused after the round is over: a new wrong word still costs a stage. */
  lemma WordAfterOver(r: Round, w: string)
    requires r.remaining == {} && r.stage < MaxStage
    requires w != r.word && w !in r.guessedWords
    ensures Over(r)
    ensures AfterWord(r, w).stage == r.stage + 1
  {
  }

  // ---------------------------------------------------------------------
  // Whole games
  // ---------------------------------------------------------------------

  lemma {:induction false} LettersAfterOver(r: Round, guesses: seq<char>)
    requires Over(r)
    ensures AfterLetters(r, guesses) == r
    decreases |guesses|
  {
    if guesses != [] {
      LetterAfterOver(r, guesses[0]);
      LettersAfterOver(r, guesses[1..]);
    }
  }

  /** Guessing letters removes each of them from the remaining ones, unless the round ends first. */
  lemma {:induction false} LettersShrinkRemaining(r: Round, guesses: seq<char>)
    ensures var r' := AfterLetters(r, guesses);
      Over(r') || r'.remaining == r.remaining - (set c | c in guesses)
    decreases |guesses|
  {
    if guesses != [] {
      var next := AfterLetter(r, guesses[0]);
      if Over(next) {
        LettersAfterOver(next, guesses[1..]);
      } else {
        LettersShrinkRemaining(next, guesses[1..]);
        assert (set c | c in guesses) == {guesses[0]} + (set c | c in guesses[1..]);
      }
    }
  }

  /** Guesses that cover every letter still to find end the round, whatever their order. */
  lemma CoveringGuessesEndRound(r: Round, guesses: seq<char>)
    requires forall c :: c in r.remaining ==> c in guesses
    ensures Over(AfterLetters(r, guesses))
  {
    LettersShrinkRemaining(r, guesses);
  }

  /**
   * Distinct wrong letters, none guessed before, each cost one stage until
   * the last stage is reached.
   */
  lemma {:induction false} WrongLettersHang(r: Round, guesses: seq<char>)
    requires Inv(r) && r.remaining != {}
    requires forall i :: 0 <= i < |guesses| ==> guesses[i] !in r.word && guesses[i] !in r.guessedLetters
    requires forall i, j :: 0 <= i < j < |guesses| ==> guesses[i] != guesses[j]
    ensures AfterLetters(r, guesses).stage == if r.stage + |guesses| < MaxStage then r.stage + |guesses| else MaxStage
    decreases |guesses|
  {
    if guesses != [] {
      var c := guesses[0];
      assert c !in r.remaining;
      var next := AfterLetter(r, c);
      if Over(r) {
        LettersAfterOver(r, guesses);
      } else {
        LetterKeepsInv(r, c);
        assert next.remaining == r.remaining;
        forall i | 0 <= i < |guesses[1..]|
          ensures guesses[1..][i] !in next.word && guesses[1..][i] !in next.guessedLetters
        {
          assert guesses[1..][i] == guesses[i + 1];
        }
        WrongLettersHang(next, guesses[1..]);
      }
    }
  }

  /** Seven distinct wrong letters lose a fresh round. */
  lemma SevenWrongLettersLose(w: string, guesses: seq<char>)
    requires |w| > 0 && |guesses| >= MaxStage
    requires forall i :: 0 <= i < |guesses| ==> guesses[i] !in w
    requires forall i, j :: 0 <= i < j < |guesses| ==> guesses[i] != guesses[j]
    ensures Over(AfterLetters(Start(w), guesses))
    ensures AfterLetters(Start(w), guesses).stage == MaxStage
  {
    StartKeepsInv(w);
    WrongLettersHang(Start(w), guesses);
  }

  // ---------------------------------------------------------------------
  // Whole games of letter and word guesses
  // ---------------------------------------------------------------------

  /** The round after each of `guesses`, in order, routed as the dispatcher routes them. */
  function AfterGuesses(r: Round, guesses: seq<string>): Round
    decreases |guesses|
  {
    if guesses == [] then r else AfterGuesses(GuessStep(r, guesses[0]), guesses[1..])
  }

  /** A wrong guess not made before: a letter not in the word, or a word other than it. */
  predicate WrongGuess(r: Round, g: string)
  {
    || (|g| == 1 && g[0] !in r.word && g[0] !in r.guessedLetters)
    || (|g| > 1 && g != r.word && g !in r.guessedWords)
  }

  /** One new wrong guess costs one stage (stopping at the last) and records only itself. */
  lemma WrongGuessStep(r: Round, g: string)
    requires Inv(r) && r.remaining != {} && WrongGuess(r, g)
    ensures var next := GuessStep(r, g);
      && Inv(next) && next.word == r.word && next.remaining == r.remaining
      && next.stage == Advance(r.stage)
      && next.guessedLetters <= r.guessedLetters + (if |g| == 1 then {g[0]} else {})
      && next.guessedWords <= r.guessedWords + {g}
  {
    if |g| == 1 {
      assert g[0] !in LettersOf(r.word);
      LetterKeepsInv(r, g[0]);
    } else {
      WordKeepsInv(r, g);
    }
  }

  /**
   * Distinct wrong guesses, letters or words, none made before, each cost
   * one stage until the last stage is reached.
   */
  lemma {:induction false} WrongGuessesHang(r: Round, guesses: seq<string>)
    requires Inv(r) && r.remaining != {}
    requires forall i :: 0 <= i < |guesses| ==> WrongGuess(r, guesses[i])
    requires forall i, j :: 0 <= i < j < |guesses| ==> guesses[i] != guesses[j]
    ensures AfterGuesses(r, guesses).stage == if r.stage + |guesses| < MaxStage then r.stage + |guesses| else MaxStage
    decreases |guesses|
  {
    if guesses != [] {
      var g := guesses[0];
      var next := GuessStep(r, g);
      WrongGuessStep(r, g);
      var rest := guesses[1..];
      forall i | 0 <= i < |rest|
        ensures WrongGuess(next, rest[i])
      {
        assert rest[i] == guesses[i + 1];
        if |rest[i]| == 1 && |g| == 1 {
          assert rest[i] == [rest[i][0]] && g == [g[0]];
        }
      }
      forall i, j | 0 <= i < j < |rest|
        ensures rest[i] != rest[j]
      {
        assert rest[i] == guesses[i + 1] && rest[j] == guesses[j + 1];
      }
      WrongGuessesHang(next, rest);
    }
  }

  /** Seven distinct wrong guesses, letters or words in any mix, lose a fresh round. */
  lemma SevenWrongGuessesLose(w: string, guesses: seq<string>)
    requires |w| > 0 && |guesses| >= MaxStage
    requires forall i :: 0 <= i < |guesses| ==>
      (|guesses[i]| == 1 && guesses[i][0] !in w) || (|guesses[i]| > 1 && guesses[i] != w)
    requires forall i, j :: 0 <= i < j < |guesses| ==> guesses[i] != guesses[j]
    ensures Over(AfterGuesses(Start(w), guesses))
    ensures AfterGuesses(Start(w), guesses).stage == MaxStage
  {
    StartKeepsInv(w);
    assert w[0] in Start(w).remaining;
    WrongGuessesHang(Start(w), guesses);
  }
}
