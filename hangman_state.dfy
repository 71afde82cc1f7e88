/**
 * The objects behind one hangman game: the failure-stage counter, the mask
 * of revealed positions, and the game that owns both and the guess sets.
 * Each game's abstract value is a RoundSpec.Round; every operation is proved
 * to move that value as the RoundSpec functions say.
 */
module HangmanState {
  import opened Utility
  import opened RoundSpec

  /** `CreateHangmanAscii`: the failure stage and its drawing. */
  class HangmanAscii {
    const states: seq<string>
    var state: nat

    ghost predicate Valid()
      reads this
    {
      states == StageArt && state < |states|
    }

    constructor()
      ensures Valid() && state == 0
    {
      states := StageArt;
      state := 0;
    }

    /** `nextState`: one stage on, unless already at the last. */
    method NextState()
      requires Valid()
      modifies this
      ensures Valid() && state == Advance(old(state))
    {
      if state < |states| - 1 {
        state := state + 1;
      }
    }

    /** `currentState`: the drawing of the stage reached; the last drawing is shown exactly at the final stage. */
    function CurrentState(): (drawing: string)
      reads this
      requires Valid()
      ensures drawing == StageArt[state]
      ensures drawing == StageArt[MaxStage] <==> FinalState()
    {
      states[state]
    }

    /** `finalState`: the last stage, the one that loses the round, is reached. */
    function FinalState(): (last: bool)
      reads this
      requires Valid()
      ensures last <==> state == MaxStage
    {
      state == |states| - 1
    }
  }

  /** The positions `setLetter` writes: those listed before index `n`. */
  function Written(posArray: seq<nat>, n: nat): set<nat>
  {
    set k | 0 <= k < |posArray| && k < n :: posArray[k]
  }

  /** Listing every position of a letter, at most once each, writes exactly those positions. */
  lemma WrittenPositions(word: string, letter: char, positions: seq<nat>)
    requires |positions| <= |word|
    requires forall i :: i in positions <==> 0 <= i < |word| && word[i] == letter
    ensures forall k :: 0 <= k < |positions| ==> positions[k] < |word|
    ensures forall j :: j in Written(positions, |word|) <==> 0 <= j < |word| && word[j] == letter
  {
    forall k | 0 <= k < |positions|
      ensures positions[k] < |word|
    {
      assert positions[k] in positions;
    }
    forall j | 0 <= j < |word| && word[j] == letter
      ensures j in Written(positions, |word|)
    {
      var k :| 0 <= k < |positions| && positions[k] == j;
    }
  }

  /** `CreateHangmanRep`'s object: one slot per letter of the word. */
  class HangmanRep {
    const cells: array<char>

    constructor(length: nat, separator: char)
      ensures fresh(cells)
      ensures cells[..] == seq(length, _ => separator)
    {
      cells := new char[length](_ => separator);
    }

    /**
     * `setLetter`: writes `letter` at each listed position. The guard tests
     * the loop counter, so only the first `cells.Length` positions are
     * written, and every one of those must be in range.
     */
    method SetLetter(letter: char, posArray: seq<nat>)
      requires forall k :: 0 <= k < |posArray| && k < cells.Length ==> posArray[k] < cells.Length
      modifies cells
      ensures forall j :: 0 <= j < cells.Length ==>
        cells[j] == if j in Written(posArray, cells.Length) then letter else old(cells[j])
    {
      for i := 0 to |posArray|
        invariant forall j :: 0 <= j < cells.Length ==>
          cells[j] == if j in Written(posArray[..i], cells.Length) then letter else old(cells[j])
      {
        if i < cells.Length {
          cells[posArray[i]] := letter;
        }
        assert forall j :: j in Written(posArray[..i + 1], cells.Length) <==>
          j in Written(posArray[..i], cells.Length) || (i < cells.Length && j == posArray[i]);
      }
      assert posArray[..|posArray|] == posArray;
    }

    /** `getRepresentationWithSpaces`: the mask's slots with one space between neighbours. */
    function RepresentationWithSpaces(): (spaced: string)
      reads cells
      ensures |spaced| == if cells.Length == 0 then 0 else 2 * cells.Length - 1
      ensures forall k :: 0 <= k < |spaced| ==> spaced[k] == if k % 2 == 0 then cells[k / 2] else ' '
    {
      SpacedMask(cells[..]);
      Join(MaskStrings(cells[..]), " ")
    }
  }

  /** `CreateHangmanRep`: no mask for an empty word, otherwise all hidden. */
  method CreateHangmanRep(word: string, separator: char) returns (rep: HangmanRep?)
    ensures rep == null <==> |word| == 0
    ensures rep != null ==> fresh(rep) && fresh(rep.cells) && rep.cells[..] == seq(|word|, _ => separator)
  {
    if |word| == 0 {
      return null;
    }
    rep := new HangmanRep(|word|, separator);
  }

  /** The game object the state factory returns for one word and its creator. */
  class HangmanGame {
    const word: string
    const creator: string
    var remainingLetters: set<char>
    var guessedLetters: set<char>
    var guessedWords: set<string>
    var lastGuessValid: Option<bool>
    const rep: HangmanRep
    const ascii: HangmanAscii
    ghost const Repr: set<object>

    /** The game as a RoundSpec.Round. */
    ghost function Snapshot(): Round
      reads Repr
      requires {this, rep.cells, ascii} <= Repr
    {
      Round(word, remainingLetters, guessedLetters, guessedWords, rep.cells[..], ascii.state, lastGuessValid)
    }

    ghost predicate Valid()
      reads this, Repr
    {
      && Repr == {this, rep, rep.cells, ascii}
      && ascii.Valid()
      && Inv(Snapshot())
    }

    /** The factory: a fresh round for `hangmanWord`, started by `userId`. */
    constructor(hangmanWord: string, userId: string)
      requires |hangmanWord| > 0
      ensures Valid() && fresh(Repr)
      ensures word == hangmanWord && creator == userId
      ensures Snapshot() == Start(hangmanWord)
    {
      var created := CreateHangmanRep(hangmanWord, Placeholder);
      var mask: HangmanRep := created;
      word := hangmanWord;
      remainingLetters := LettersOf(hangmanWord);
      guessedLetters := {};
      guessedWords := {};
      rep := mask;
      var stages := new HangmanAscii();
      ascii := stages;
      creator := userId;
      lastGuessValid := None;
      Repr := {this, mask, mask.cells, stages};
      new;
      StartKeepsInv(hangmanWord);
    }

    /** `gameOver`: no letter left to find, or the last stage reached. */
    function GameOver(): (over: bool)
      reads Repr
      requires Valid()
      ensures over <==> Over(Snapshot())
    {
      remainingLetters == {} || ascii.FinalState()
    }

    /** `guessLetter`. */
    method GuessLetter(letter: char) returns (isValidGuess: bool)
      requires Valid()
      modifies Repr
      ensures Valid()
      ensures Snapshot() == AfterLetter(old(Snapshot()), letter)
      ensures isValidGuess == LetterAccepted(old(Snapshot()), letter)
    {
      if GameOver() {
        return false;
      }
      ghost var before := Snapshot();
      var pattern := new RegexPattern(letter);
      var matchIndices := MultiSearch(Some(word), pattern);
      lastGuessValid := Some(matchIndices != None);
      if letter in remainingLetters {
        assert letter in word;
        ShowLetter(letter, matchIndices.value);
        isValidGuess := true;
      } else {
        if letter !in guessedLetters {
          ascii.NextState();
        }
        isValidGuess := false;
      }
      guessedLetters := guessedLetters + {letter};
      LetterKeepsInv(before, letter);
    }

    /** The accepted branch of `guessLetter`: the letter is shown at each of its positions and no longer remains. */
    method ShowLetter(letter: char, positions: seq<nat>)
      requires Repr == {this, rep, rep.cells, ascii} && rep.cells.Length == |word|
      requires |positions| <= |word|
      requires forall i :: i in positions <==> 0 <= i < |word| && word[i] == letter
      modifies this, rep.cells
      ensures rep.cells[..] == Reveal(old(rep.cells[..]), word, letter)
      ensures remainingLetters == old(remainingLetters) - {letter}
      ensures guessedLetters == old(guessedLetters) && guessedWords == old(guessedWords)
      ensures lastGuessValid == old(lastGuessValid)
    {
      WrittenPositions(word, letter, positions);
      rep.SetLetter(letter, positions);
      remainingLetters := remainingLetters - {letter};
    }

    /** `guessWord`. */
    method GuessWord(theWord: string)
      requires Valid()
      modifies Repr
      ensures Valid()
      ensures Snapshot() == AfterWord(old(Snapshot()), theWord)
    {
      ghost var before := Snapshot();
      if word == theWord {
        lastGuessValid := Some(true);
        remainingLetters := {};
      } else {
        if theWord !in guessedWords {
          ascii.NextState();
        }
        lastGuessValid := Some(false);
      }
      guessedWords := guessedWords + {theWord};
      WordKeepsInv(before, theWord);
    }

    /** `getState`: the drawing, the spaced mask and the sorted guesses. */
    method GetState() returns (s: string)
      requires Valid()
      ensures s == Display(Snapshot())
    {
      var letters := SetToString(LetterStrings(guessedLetters));
      var words := SetToString(guessedWords);
      s := ascii.CurrentState() + "\n" + rep.RepresentationWithSpaces()
        + "\nGuessed letters: " + letters + "\nGuessed words: " + words;
    }
  }
}
