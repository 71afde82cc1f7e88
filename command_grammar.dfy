/**
 * The dispatcher's command grammar. The three anchored patterns are given
 * twice: as ghost predicates that read like the regular expressions
 * (optional spaces, a keyword or a run of letters, optional spaces), and as
 * the computable tests the classifier uses; lemmas prove the two agree.
 */
module CommandGrammar {
  import opened Utility

  /** KELVIN SIGN, whose lower case is the ASCII letter `k`. */
  const KelvinSign: char := '\U{212A}'

  /**
   * `toLowerCase` on one character, for the characters whose lower case is
   * an ASCII letter: the ASCII capitals and the Kelvin sign.
   */
  function LowerChar(ch: char): char
  {
    if 'A' <= ch <= 'Z' then (ch as int - 'A' as int + 'a' as int) as char
    else if ch == KelvinSign then 'k'
    else ch
  }

  /**
   * `command.toLowerCase()`: a letter `a`-`z` comes out exactly where the
   * command had a letter of either case or the Kelvin sign; no capital is
   * left, and every other character is kept.
   */
  function Lower(s: string): (r: string)
    ensures |r| == |s|
    ensures forall i :: 0 <= i < |s| ==> (IsLetter(r[i]) <==> IsLetter(s[i]) || 'A' <= s[i] <= 'Z' || s[i] == KelvinSign)
    ensures forall i :: 0 <= i < |s| ==> !('A' <= r[i] <= 'Z')
    ensures forall i :: 0 <= i < |s| && !('A' <= s[i] <= 'Z') && s[i] != KelvinSign ==> r[i] == s[i]
  {
    seq(|s|, i requires 0 <= i < |s| => LowerChar(s[i]))
  }

  /** Lower-casing leaves no capital letter and changes nothing a second time. */
  lemma LowerIsLowerCase(s: string)
    ensures |Lower(s)| == |s|
    ensures forall i :: 0 <= i < |s| ==> !('A' <= Lower(s)[i] <= 'Z')
    ensures Lower(Lower(s)) == Lower(s)
  {
  }

  predicate IsLetter(ch: char)
  {
    'a' <= ch <= 'z'
  }

  /** `[a-z]+` */
  predicate Letters(s: string)
  {
    |s| > 0 && forall i :: 0 <= i < |s| ==> IsLetter(s[i])
  }

  /** `[ ]*` */
  predicate Spaces(s: string)
  {
    forall i :: 0 <= i < |s| ==> s[i] == ' '
  }

  function Blanks(n: nat): string
  {
    seq(n, _ => ' ')
  }

  // ---------------------------------------------------------------------
  // The patterns as shapes of the text
  // ---------------------------------------------------------------------

  /** `core` sits at index `i` of `t` with only spaces before and after it. */
  predicate PaddedAt(t: string, core: string, i: nat)
  {
    i + |core| <= |t| && Spaces(t[..i]) && t[i..i + |core|] == core && Spaces(t[i + |core|..])
  }

  /** `^[ ]*` core `[ ]*$` */
  ghost predicate Padded(t: string, core: string)
  {
    exists i: nat :: PaddedAt(t, core, i)
  }

  /** The keyword, `n` spaces and the word. */
  function NewgameCore(n: nat, w: string): string
  {
    "newgame" + Blanks(n) + w
  }

  /** `/^[ ]*newgame[ ]+[a-z]+[ ]*$/`, with `w` the letters at its end. */
  ghost predicate NewgameShape(t: string, w: string)
  {
    Letters(w) && exists n: nat, i: nat :: 0 < n && PaddedAt(t, NewgameCore(n, w), i)
  }

  /** `/^[ ]*state[ ]*$/` */
  ghost predicate StateShape(t: string)
  {
    Padded(t, "state")
  }

  /** `/^[ ]*[a-z]+[ ]*$/`, with `w` the letters. */
  ghost predicate GuessShape(t: string, w: string)
  {
    Letters(w) && Padded(t, w)
  }

  // ---------------------------------------------------------------------
  // The computable tests
  // ---------------------------------------------------------------------

  function LeadingSpaces(t: string): (n: nat)
    ensures n <= |t|
  {
    if |t| > 0 && t[0] == ' ' then 1 + LeadingSpaces(t[1..]) else 0
  }

  function TrailingSpaces(t: string): (n: nat)
    ensures n <= |t|
  {
    if |t| > 0 && t[|t| - 1] == ' ' then 1 + TrailingSpaces(t[..|t| - 1]) else 0
  }

  /** The text without its leading and trailing spaces. */
  function Trim(t: string): string
  {
    var u := t[LeadingSpaces(t)..];
    u[..|u| - TrailingSpaces(u)]
  }

  predicate NewgameMatch(t: string)
  {
    var u := Trim(t);
    |u| > 7 && u[..7] == "newgame" && var n := LeadingSpaces(u[7..]); n > 0 && Letters(u[7 + n..])
  }

  predicate StateMatch(t: string)
  {
    Trim(t) == "state"
  }

  predicate GuessMatch(t: string)
  {
    Letters(Trim(t))
  }

  /** The letters that end the text (`/[a-z]+$/`), empty when it ends otherwise. */
  function TrailingLetters(t: string): string
  {
    if |t| > 0 && IsLetter(t[|t| - 1]) then TrailingLetters(t[..|t| - 1]) + [t[|t| - 1]] else ""
  }

  /** The letters that start the text, possibly none. */
  function LeadingLetters(t: string): string
  {
    if |t| > 0 && IsLetter(t[0]) then [t[0]] + LeadingLetters(t[1..]) else ""
  }

  /** The first run of letters in the text (`/[a-z]+/`), empty when there is none. */
  function FirstLetters(t: string): string
  {
    if |t| == 0 then ""
    else if IsLetter(t[0]) then LeadingLetters(t)
    else FirstLetters(t[1..])
  }

  /**
   * The new-game word as the dispatcher extracts it: the letters ending the
   * whole command. None stands for the failed match, which the dispatcher
   * then indexes.
   */
  function NewgameWordAsWritten(t: string): Option<string>
  {
    var w := TrailingLetters(t);
    if w == "" then None else Some(w)
  }

  /** The new-game word: the letters ending the command once trailing spaces are dropped. */
  function NewgameWord(t: string): string
  {
    TrailingLetters(Trim(t))
  }

  /** The guess: the first run of letters. */
  function GuessText(t: string): string
  {
    FirstLetters(t)
  }

  /** What a request asks for. */
  datatype Command = StartGame(word: string) | QueryState | MakeGuess(text: string) | Unrecognized

  /**
   * The patterns tried in order: new game, state, guess. A text the state
   * pattern matches is always a state query, and a new game or a guess
   * always carries a non-empty run of letters.
   */
  function Classify(t: string): (c: Command)
    ensures c.QueryState? <==> StateMatch(t)
    ensures c.MakeGuess? <==> GuessMatch(t) && !StateMatch(t)
    ensures c.StartGame? ==> Letters(c.word)
    ensures c.MakeGuess? ==> Letters(c.text)
  {
    if NewgameMatch(t) then
      NewgameMatchShape(t);
      NewgameExcludesOthers(t);
      StartGame(NewgameWord(t))
    else if StateMatch(t) then QueryState
    else if GuessMatch(t) then
      GuessMatchIsPattern(t);
      MakeGuess(GuessText(t))
    else Unrecognized
  }

  // ---------------------------------------------------------------------
  // Spaces at either end
  // ---------------------------------------------------------------------

  lemma {:induction false} LeadingSpacesAt(t: string, i: nat)
    requires i <= |t| && Spaces(t[..i]) && (i == |t| || t[i] != ' ')
    ensures LeadingSpaces(t) == i
  {
    if i > 0 {
      assert t[0] == t[..i][0];
      assert t[1..][..i - 1] == t[..i][1..];
      LeadingSpacesAt(t[1..], i - 1);
    }
  }

  lemma {:induction false} LeadingSpacesAreSpaces(t: string)
    ensures Spaces(t[..LeadingSpaces(t)])
    ensures LeadingSpaces(t) == |t| || t[LeadingSpaces(t)] != ' '
  {
    if |t| > 0 && t[0] == ' ' {
      LeadingSpacesAreSpaces(t[1..]);
      assert t[..LeadingSpaces(t)] == [t[0]] + t[1..][..LeadingSpaces(t[1..])];
    }
  }

  lemma {:induction false} TrailingSpacesAt(t: string, j: nat)
    requires j <= |t| && Spaces(t[j..]) && (j == 0 || t[j - 1] != ' ')
    ensures TrailingSpaces(t) == |t| - j
  {
    if j < |t| {
      assert t[|t| - 1] == t[j..][|t| - 1 - j];
      assert t[..|t| - 1][j..] == t[j..][..|t| - 1 - j];
      TrailingSpacesAt(t[..|t| - 1], j);
    }
  }

  lemma {:induction false} TrailingSpacesAreSpaces(t: string)
    ensures Spaces(t[|t| - TrailingSpaces(t)..])
    ensures TrailingSpaces(t) == |t| || t[|t| - TrailingSpaces(t) - 1] != ' '
  {
    if |t| > 0 && t[|t| - 1] == ' ' {
      var p := t[..|t| - 1];
      TrailingSpacesAreSpaces(p);
      var n := TrailingSpaces(p);
      assert TrailingSpaces(t) == n + 1;
      var tail := t[|t| - (n + 1)..];
      forall k | 0 <= k < |tail|
        ensures tail[k] == ' '
      {
        if k < n {
          assert tail[k] == p[|p| - n..][k];
        }
      }
      if n < |p| {
        assert t[|t| - (n + 1) - 1] == p[|p| - n - 1];
      }
    }
  }

  /** Trimming keeps exactly the text between the leading and the trailing spaces. */
  lemma TrimIsPadded(t: string)
    ensures PaddedAt(t, Trim(t), LeadingSpaces(t))
  {
    var a := LeadingSpaces(t);
    var u := t[a..];
    var m := |u| - TrailingSpaces(u);
    assert Trim(t) == u[..m];
    assert Spaces(t[..a]) by {
      LeadingSpacesAreSpaces(t);
    }
    assert t[a..a + m] == u[..m];
    assert Spaces(t[a + m..]) by {
      TrailingSpacesAreSpaces(u);
      var rest := t[a + m..];
      forall k | 0 <= k < |rest|
        ensures rest[k] == ' '
      {
        assert rest[k] == u[m..][k];
      }
    }
  }

  /** A core that neither starts nor ends with a space, padded by spaces, is what trimming leaves. */
  lemma PaddedAtIsTrim(t: string, core: string, i: nat)
    requires |core| > 0 && core[0] != ' ' && core[|core| - 1] != ' '
    requires PaddedAt(t, core, i)
    ensures Trim(t) == core && LeadingSpaces(t) == i
  {
    assert t[i] == t[i..i + |core|][0];
    LeadingSpacesAt(t, i);
    var u := t[i..];
    assert u[..|core|] == core;
    assert u[|core|..] == t[i + |core|..];
    assert u[|core| - 1] == core[|core| - 1];
    TrailingSpacesAt(u, |core|);
  }

  lemma PaddedIffTrim(t: string, core: string)
    requires |core| > 0 && core[0] != ' ' && core[|core| - 1] != ' '
    ensures Padded(t, core) <==> Trim(t) == core
  {
    if Padded(t, core) {
      var i: nat :| PaddedAt(t, core, i);
      PaddedAtIsTrim(t, core, i);
    }
    TrimIsPadded(t);
  }

  /** The only characters of a padded text are spaces and the core's own. */
  lemma PaddedChars(t: string, core: string, i: nat)
    requires PaddedAt(t, core, i)
    ensures forall k :: 0 <= k < |t| ==> t[k] == ' ' || t[k] in core
  {
    forall k | 0 <= k < |t|
      ensures t[k] == ' ' || t[k] in core
    {
      if k < i {
        assert t[k] == t[..i][k];
      } else if k < i + |core| {
        assert t[k] == core[k - i];
      } else {
        assert t[k] == t[i + |core|..][k - i - |core|];
      }
    }
  }

  // ---------------------------------------------------------------------
  // Letters at either end
  // ---------------------------------------------------------------------

  lemma {:induction false} TrailingLettersOfWord(a: string, w: string)
    requires Letters(w) && (|a| == 0 || !IsLetter(a[|a| - 1]))
    ensures TrailingLetters(a + w) == w
    decreases |w|
  {
    var t := a + w;
    assert t[..|t| - 1] == a + w[..|w| - 1];
    if |w| > 1 {
      TrailingLettersOfWord(a, w[..|w| - 1]);
    } else {
      assert t[..|t| - 1] == a;
    }
    assert w == w[..|w| - 1] + [w[|w| - 1]];
  }

  lemma {:induction false} LeadingLettersOfWord(w: string, b: string)
    requires Letters(w) && Spaces(b)
    ensures LeadingLetters(w + b) == w
    decreases |w|
  {
    var t := w + b;
    assert t[1..] == w[1..] + b;
    if |w| > 1 {
      LeadingLettersOfWord(w[1..], b);
    } else if |b| > 0 {
      assert t[1..][0] == b[0];
    }
    assert w == [w[0]] + w[1..];
  }

  lemma {:induction false} FirstLettersOfPadded(t: string, w: string, i: nat)
    requires Letters(w) && PaddedAt(t, w, i)
    ensures FirstLetters(t) == w
    decreases i
  {
    if i > 0 {
      assert t[0] == t[..i][0];
      assert t[1..][..i - 1] == t[..i][1..];
      assert t[1..][i - 1..i - 1 + |w|] == w;
      assert t[1..][i - 1 + |w|..] == t[i + |w|..];
      FirstLettersOfPadded(t[1..], w, i - 1);
    } else {
      assert t == w + t[|w|..];
      assert t[0] == w[0];
      LeadingLettersOfWord(w, t[|w|..]);
    }
  }

  // ---------------------------------------------------------------------
  // Each computable test is its pattern
  // ---------------------------------------------------------------------

  lemma StateMatchIsPattern(t: string)
    ensures StateMatch(t) <==> StateShape(t)
  {
    PaddedIffTrim(t, "state");
  }

  lemma GuessMatchIsPattern(t: string)
    ensures GuessMatch(t) <==> exists w :: GuessShape(t, w)
    ensures GuessMatch(t) ==> GuessShape(t, GuessText(t))
  {
    forall w | GuessShape(t, w)
      ensures GuessMatch(t)
    {
      PaddedIffTrim(t, w);
    }
    if GuessMatch(t) {
      var w := Trim(t);
      TrimIsPadded(t);
      FirstLettersOfPadded(t, w, LeadingSpaces(t));
      assert GuessShape(t, w);
    }
  }

  lemma NewgameCoreParts(n: nat, w: string)
    requires 0 < n && Letters(w)
    ensures var core := NewgameCore(n, w);
      && |core| == 7 + n + |w|
      && core[0] == 'n' && core[|core| - 1] == w[|w| - 1] && core[|core| - 1] != ' '
      && core[..7] == "newgame" && core[7..] == Blanks(n) + w
      && core[7 + n..] == w && core[7 + n - 1] == ' '
      && core == ("newgame" + Blanks(n)) + w
  {
  }

  /** A text of the new-game shape trims to that shape, and its word is the one the shape ends with. */
  lemma NewgameShapeAt(t: string, w: string, n: nat, i: nat)
    requires Letters(w) && 0 < n && PaddedAt(t, NewgameCore(n, w), i)
    ensures Trim(t) == NewgameCore(n, w) && LeadingSpaces(t) == i
    ensures NewgameMatch(t) && NewgameWord(t) == w
  {
    var core := NewgameCore(n, w);
    NewgameCoreParts(n, w);
    PaddedAtIsTrim(t, core, i);
    assert Spaces(core[7..][..n]) by { assert core[7..][..n] == Blanks(n); }
    assert core[7..][n] == w[0];
    LeadingSpacesAt(core[7..], n);
    TrailingLettersOfWord("newgame" + Blanks(n), w);
  }

  /** A text the computable new-game test accepts has the new-game shape. */
  lemma NewgameMatchShape(t: string)
    requires NewgameMatch(t)
    ensures NewgameShape(t, NewgameWord(t))
  {
    var u := Trim(t);
    var n := LeadingSpaces(u[7..]);
    var w := u[7 + n..];
    LeadingSpacesAreSpaces(u[7..]);
    assert u[7..][..n] == Blanks(n);
    assert u == NewgameCore(n, w) by {
      assert u == u[..7] + u[7..][..n] + u[7 + n..];
    }
    TrimIsPadded(t);
    NewgameShapeAt(t, w, n, LeadingSpaces(t));
  }

  lemma NewgameMatchIsPattern(t: string)
    ensures NewgameMatch(t) <==> exists w :: NewgameShape(t, w)
    ensures NewgameMatch(t) ==> NewgameShape(t, NewgameWord(t))
  {
    forall w | NewgameShape(t, w)
      ensures NewgameMatch(t)
    {
      var n: nat, i: nat :| 0 < n && PaddedAt(t, NewgameCore(n, w), i);
      NewgameShapeAt(t, w, n, i);
    }
    if NewgameMatch(t) {
      NewgameMatchShape(t);
    }
  }

  /** A new-game command's text is neither the state pattern nor the guess pattern. */
  lemma NewgameExcludesOthers(t: string)
    requires NewgameMatch(t)
    ensures !StateMatch(t) && !GuessMatch(t)
  {
    var u := Trim(t);
    LeadingSpacesAreSpaces(u[7..]);
    assert u[7] == u[7..][0];
  }

  /**
   * The classifier follows the patterns in order: new game first, then
   * state, then guess; what matches none is unrecognised. The new-game word
   * and the guess are the letters the patterns end with.
   */
  lemma ClassifyFollowsPatterns(t: string)
    ensures Classify(t).StartGame? <==> exists w :: NewgameShape(t, w)
    ensures Classify(t).StartGame? ==> NewgameShape(t, Classify(t).word)
    ensures Classify(t).QueryState? <==> StateShape(t)
    ensures Classify(t).MakeGuess? <==> !StateShape(t) && exists w :: GuessShape(t, w)
    ensures Classify(t).MakeGuess? ==> GuessShape(t, Classify(t).text)
    ensures Classify(t).Unrecognized? <==>
      !(exists w :: NewgameShape(t, w)) && !StateShape(t) && !(exists w :: GuessShape(t, w))
  {
    NewgameMatchIsPattern(t);
    StateMatchIsPattern(t);
    GuessMatchIsPattern(t);
    if NewgameMatch(t) {
      NewgameExcludesOthers(t);
    }
  }

  /** The new-game word is the letters the new-game pattern ends with. */
  lemma NewgameWordIsToken(t: string, w: string)
    requires NewgameShape(t, w)
    ensures NewgameWord(t) == w
  {
    var n: nat, i: nat :| 0 < n && PaddedAt(t, NewgameCore(n, w), i);
    NewgameShapeAt(t, w, n, i);
  }

  /** The extraction as written finds the pattern's word exactly when the command ends with it. */
  lemma NewgameWordAsWrittenAgrees(t: string, w: string, n: nat, i: nat)
    requires Letters(w) && 0 < n && PaddedAt(t, NewgameCore(n, w), i)
    ensures NewgameWordAsWritten(t) == Some(w) <==> t[|t| - 1] != ' '
  {
    var core := NewgameCore(n, w);
    NewgameCoreParts(n, w);
    assert i + |core| == |t| || t[|t| - 1] == ' ' by {
      if i + |core| < |t| {
        assert t[|t| - 1] == t[i + |core|..][|t| - 1 - i - |core|];
      }
    }
    if t[|t| - 1] != ' ' {
      var a := t[..i] + "newgame" + Blanks(n);
      assert t == t[..i] + t[i..i + |core|];
      assert t == a + w;
      TrailingLettersOfWord(a, w);
    }
  }

  /** A trailing space after the new-game word defeats the extraction as written. */
  lemma NewgameTrailingSpaceFails()
    ensures NewgameShape("newgame banana ", "banana")
    ensures NewgameWordAsWritten("newgame banana ") == None
    ensures NewgameWord("newgame banana ") == "banana"
  {
    var t := "newgame banana ";
    assert NewgameCore(1, "banana") == "newgame banana";
    assert Letters("banana");
    assert PaddedAt(t, NewgameCore(1, "banana"), 0) by {
      assert t[..0] == "" && t[0..14] == "newgame banana" && t[14..] == " ";
    }
    NewgameShapeAt(t, "banana", 1, 0);
  }

  /** A request any pattern matches holds nothing but letters and spaces. */
  lemma MatchedTextIsLettersAndSpaces(t: string)
    ensures Classify(t) != Unrecognized ==> forall k :: 0 <= k < |t| ==> t[k] == ' ' || IsLetter(t[k])
  {
    if Classify(t) != Unrecognized {
      var u := Trim(t);
      TrimIsPadded(t);
      PaddedChars(t, u, LeadingSpaces(t));
      forall j | 0 <= j < |u|
        ensures u[j] == ' ' || IsLetter(u[j])
      {
        if NewgameMatch(t) {
          var n := LeadingSpaces(u[7..]);
          LeadingSpacesAreSpaces(u[7..]);
          if j < 7 {
            assert u[j] == u[..7][j];
          } else if j < 7 + n {
            assert u[j] == u[7..][..n][j - 7];
          } else {
            assert u[j] == u[7 + n..][j - 7 - n];
          }
        }
      }
    }
  }

  /** `state` alone is a state query, never a guess; `newgame` alone is a word guess. */
  lemma KeywordsAlone()
    ensures Classify("state") == QueryState
    ensures Classify(" state  ") == QueryState
    ensures Classify("newgame") == MakeGuess("newgame")
  {
    assert PaddedAt("state", "state", 0) by {
      assert "state"[..0] == "" && "state"[0..5] == "state" && "state"[5..] == "";
    }
    PaddedAtIsTrim("state", "state", 0);
    assert PaddedAt(" state  ", "state", 1) by {
      assert " state  "[..1] == " " && " state  "[1..6] == "state" && " state  "[6..] == "  ";
    }
    PaddedAtIsTrim(" state  ", "state", 1);
    var t := "newgame";
    assert Letters(t);
    assert PaddedAt(t, t, 0) by {
      assert t[..0] == "" && t[0..7] == t && t[7..] == "";
    }
    PaddedAtIsTrim(t, t, 0);
    FirstLettersOfPadded(t, t, 0);
  }
}
