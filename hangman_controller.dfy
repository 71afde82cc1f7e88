/**
 * The request dispatcher: one registry entry per channel, listeners per
 * event name, and `HandleRequest`, which classifies a command, updates the
 * registry and the channel's game, and returns the one event it raises.
 * `Respond` is the same dispatcher on values, with every game given by its
 * RoundSpec.Round; `HandleRequest` is proved to follow it.
 */
module HangmanController {
  import opened Utility
  import opened RoundSpec
  import opened CommandGrammar
  import opened HangmanState

  const NewGameEvent := "newgame"
  const GuessEvent := "guess"
  const StateRequestEvent := "staterequest"
  const InvalidRequestEvent := "invalidrequest"
  const UnknownRequestEvent := "unknownrequest"

  /** A registered callback, known only by identity. */
  type ListenerId = nat

  /** The event a request raises, with the arguments its listeners receive. */
  datatype Event =
    | NewGame(game: HangmanGame)
    | Guess(game: HangmanGame, guessText: string)
    | StateRequest(game: HangmanGame)
    | InvalidRequest(context: string, command: string)
    | UnknownRequest(command: string)
  {
    /** The event name the dispatcher emits. */
    function Kind(): string
    {
      match this
      case NewGame(_) => NewGameEvent
      case Guess(_, _) => GuessEvent
      case StateRequest(_) => StateRequestEvent
      case InvalidRequest(_, _) => InvalidRequestEvent
      case UnknownRequest(_) => UnknownRequestEvent
    }
  }

  // ---------------------------------------------------------------------
  // The dispatcher on values
  // ---------------------------------------------------------------------

  /** A channel's entry: absent, cleared (None) or a running round. */
  type Registry = map<string, Option<Round>>

  /** An event with its game given by the game's round after the request. */
  datatype Outcome =
    | Started(round: Round)
    | Guessed(round: Round, guessText: string)
    | Reported(round: Round)
    | Invalid(context: string, command: string)
    | Unknown(command: string)

  function ActiveRound(registry: Registry, gameId: string): Option<Round>
  {
    if gameId in registry then registry[gameId] else None
  }

  /** The reply to the lower-cased command `t` on channel `gameId`, and the registry after it. */
  function Respond(registry: Registry, t: string, gameId: string): (Outcome, Registry)
  {
    Dispatch(registry, Classify(t), t, gameId)
  }

  /** The reply to `t`, classified as `command`, and the registry after it. */
  function Dispatch(registry: Registry, command: Command, t: string, gameId: string): (Outcome, Registry)
  {
    var active := ActiveRound(registry, gameId);
    match command
    case StartGame(w) => (Started(Start(w)), registry[gameId := Some(Start(w))])
    case QueryState =>
      if active.None? then (Invalid(StateRequestEvent, t), registry) else (Reported(active.value), registry)
    case MakeGuess(text) =>
      if active.None? then (Invalid(GuessEvent, t), registry)
      else
        var r := GuessStep(active.value, text);
        (Guessed(r, text), registry[gameId := if Over(r) then None else Some(r)])
    case Unrecognized => (Unknown(t), registry)
  }

  /** No round in the registry is over. */
  predicate Running(registry: Registry)
  {
    forall ch :: ch in registry && registry[ch].Some? ==> !Over(registry[ch].value)
  }

  /** Every round in the registry is running and keeps the round invariant. */
  predicate Live(registry: Registry)
  {
    Running(registry) && forall ch :: ch in registry && registry[ch].Some? ==> Inv(registry[ch].value)
  }

  /**
   * A request keeps the registry live: a started round is not over, and a
   * guess that ends a round clears its entry.
   */
  lemma RespondKeepsLive(registry: Registry, t: string, gameId: string)
    requires Live(registry)
    ensures Live(Respond(registry, t, gameId).1)
  {
    match Classify(t)
    case StartGame(w) =>
      ClassifyFollowsPatterns(t);
      StartKeepsInv(w);
    case MakeGuess(text) =>
      var active := ActiveRound(registry, gameId);
      if active.Some? {
        LetterKeepsInv(active.value, if |text| > 0 then text[0] else ' ');
        WordKeepsInv(active.value, text);
      }
    case QueryState =>
    case Unrecognized =>
  }

  /**
   * A request changes the registry entry of its own channel only; a state
   * query, a request with no running game and an unknown command change
   * nothing.
   */
  lemma RespondIsLocal(registry: Registry, t: string, gameId: string)
    ensures var next := Respond(registry, t, gameId).1;
      && next.Keys <= registry.Keys + {gameId}
      && (forall ch :: ch in registry && ch != gameId ==> next[ch] == registry[ch])
    ensures var o := Respond(registry, t, gameId).0;
      (o.Reported? || o.Invalid? || o.Unknown?) ==> Respond(registry, t, gameId).1 == registry
  {
  }

  /** A new-game command replaces the channel's entry whatever it held. */
  lemma NewgameReplaces(registry: Registry, t: string, gameId: string)
    requires Classify(t).StartGame?
    ensures var (o, next) := Respond(registry, t, gameId);
      && o == Started(Start(Classify(t).word))
      && next == registry[gameId := Some(Start(Classify(t).word))]
      && !Over(Start(Classify(t).word))
  {
    ClassifyFollowsPatterns(t);
    StartKeepsInv(Classify(t).word);
  }

  /** `newgame` and a word of letters, one space apart, start a game with that word. */
  lemma NewgameCommand(w: string)
    requires Letters(w)
    ensures Classify("newgame " + w) == StartGame(w)
  {
    var t := "newgame " + w;
    assert t == NewgameCore(1, w);
    assert PaddedAt(t, NewgameCore(1, w), 0) by {
      assert t[..0] == "" && t[0..|t|] == t && t[|t|..] == "";
    }
    NewgameShapeAt(t, w, 1, 0);
  }

  /** A word of letters alone is a guess of that word, except `state`. */
  lemma WordCommand(w: string)
    requires Letters(w)
    ensures w != "state" ==> Classify(w) == MakeGuess(w)
    ensures w == "state" ==> Classify(w) == QueryState
  {
    assert PaddedAt(w, w, 0) by {
      assert w[..0] == "" && w[0..|w|] == w && w[|w|..] == "";
    }
    PaddedAtIsTrim(w, w, 0);
    assert !NewgameMatch(w) by {
      if |w| > 7 {
        assert IsLetter(w[7]);
      }
    }
    FirstLettersOfPadded(w, w, 0);
  }

  /** A lone Kelvin sign lower-cases to `k`, so it is a guess of the letter `k`. */
  lemma KelvinSignIsAGuess()
    ensures Classify(Lower([KelvinSign])) == MakeGuess("k")
  {
    assert Lower([KelvinSign]) == "k";
    WordCommand("k");
  }

  /** Guessing the whole word of a running round, as a letter or as a word, ends it. */
  lemma GuessingTheWordEnds(r: Round)
    requires Inv(r) && !Over(r) && |r.word| > 0
    ensures Over(GuessStep(r, r.word))
  {
    if |r.word| == 1 {
      assert r.word == [r.word[0]];
      assert LettersOf(r.word) == {r.word[0]};
    }
  }

  /**
   * On a channel with a running round, typing the round's word wins it and
   * clears the channel's entry, unless the word is `state`.
   */
  lemma WordGuessEndsGame(registry: Registry, gameId: string)
    requires Live(registry) && ActiveRound(registry, gameId).Some?
    requires Letters(ActiveRound(registry, gameId).value.word) && ActiveRound(registry, gameId).value.word != "state"
    ensures var r := ActiveRound(registry, gameId).value;
      Respond(registry, r.word, gameId) == (Guessed(GuessStep(r, r.word), r.word), registry[gameId := None])
  {
    var r := ActiveRound(registry, gameId).value;
    WordCommand(r.word);
    GuessingTheWordEnds(r);
  }

  /** A game whose word is `state` cannot be won by guessing the word: the guess is read as a state query. */
  lemma StateWordIsAQuery(registry: Registry, gameId: string)
    ensures var started := registry[gameId := Some(Start("state"))];
      && Respond(registry, "newgame state", gameId) == (Started(Start("state")), started)
      && Respond(started, "state", gameId) == (Reported(Start("state")), started)
  {
    assert Letters("state");
    NewgameCommand("state");
    assert "newgame " + "state" == "newgame state";
    WordCommand("state");
  }

  // ---------------------------------------------------------------------
  // The dispatcher object
  // ---------------------------------------------------------------------

  /** The listeners registered for `eventType`, in registration order. */
  function Registered(listeners: map<string, seq<ListenerId>>, eventType: string): seq<ListenerId>
  {
    if eventType in listeners then listeners[eventType] else []
  }

  /** The objects of one game. */
  function GameObjects(g: HangmanGame): set<object>
  {
    {g, g.rep.cells, g.ascii}
  }

  /** Whether the event carries a game. */
  predicate HasGame(e: Event)
  {
    e.NewGame? || e.Guess? || e.StateRequest?
  }

  /** An event with its game replaced by the game's round. */
  ghost function Summary(e: Event): Outcome
    reads if HasGame(e) then e.game.Repr else {}
    requires HasGame(e) ==> GameObjects(e.game) <= e.game.Repr
  {
    match e
    case NewGame(g) => Started(g.Snapshot())
    case Guess(g, text) => Guessed(g.Snapshot(), text)
    case StateRequest(g) => Reported(g.Snapshot())
    case InvalidRequest(context, command) => Invalid(context, command)
    case UnknownRequest(command) => Unknown(command)
  }

  /** A guess routed by its length: one letter to `GuessLetter`, more to `GuessWord`, none to neither. */
  method Apply(game: HangmanGame, guessText: string)
    requires game.Valid()
    modifies game.Repr
    ensures game.Valid()
    ensures game.Snapshot() == GuessStep(old(game.Snapshot()), guessText)
  {
    if |guessText| == 1 {
      var accepted := game.GuessLetter(guessText[0]);
    } else if |guessText| > 1 {
      game.GuessWord(guessText);
    }
  }

  class Controller {
    var gameStates: map<string, HangmanGame?>
    var listeners: map<string, seq<ListenerId>>
    /** The registry with every game given by its round. */
    ghost var rounds: Registry
    ghost var Repr: set<object>

    /** The dispatcher owns every game in the registry, and no two channels share an object. */
    ghost predicate Owns()
      reads this
    {
      && this in Repr
      && rounds.Keys == gameStates.Keys
      && (forall ch | ch in gameStates && gameStates[ch] != null ::
            gameStates[ch] in Repr && gameStates[ch].Repr <= Repr && this !in gameStates[ch].Repr)
      && (forall c1, c2 | c1 in gameStates && c2 in gameStates && c1 != c2 && gameStates[c1] != null && gameStates[c2] != null ::
            gameStates[c1].Repr !! gameStates[c2].Repr)
    }

    /** Channel `ch`'s round is its game's, and is not over; a cleared entry has none. */
    ghost predicate Agrees(ch: string)
      reads this, Repr
      requires Owns() && ch in gameStates
    {
      if gameStates[ch] == null then rounds[ch] == None
      else gameStates[ch].Valid() && rounds[ch] == Some(gameStates[ch].Snapshot()) && !Over(rounds[ch].value)
    }

    ghost predicate Valid()
      reads this, Repr
    {
      Owns() && forall ch | ch in gameStates :: Agrees(ch)
    }

    /** The objects a request on channel `ch` may change besides the dispatcher. */
    ghost function Footprint(ch: string): set<object>
      reads this
    {
      if ch in gameStates && gameStates[ch] != null then gameStates[ch].Repr else {}
    }

    /** `checkActiveGame(gameStates[gameId])`: the channel's game, or null. */
    function ActiveGame(gameId: string): (g: HangmanGame?)
      reads this
      ensures g != null <==> gameId in gameStates && gameStates[gameId] != null
    {
      if gameId in gameStates then gameStates[gameId] else null
    }

    constructor()
      ensures Valid() && fresh(Repr)
      ensures gameStates == map[] && listeners == map[]
    {
      gameStates := map[];
      listeners := map[];
      rounds := map[];
      Repr := {this};
    }

    /** `on`: `callback` is called, after those before it, whenever `eventType` is emitted. */
    method On(eventType: string, callback: ListenerId)
      requires Valid()
      modifies this
      ensures Valid() && Repr == old(Repr) && gameStates == old(gameStates) && rounds == old(rounds)
      ensures listeners == old(listeners)[eventType := Registered(old(listeners), eventType) + [callback]]
      ensures forall kind ::
                Registered(listeners, kind) == Registered(old(listeners), kind) + (if kind == eventType then [callback] else [])
    {
      listeners := listeners[eventType := Registered(listeners, eventType) + [callback]];
    }

    /** The listeners an event reaches, in the order they are called. */
    function Recipients(e: Event): (ids: seq<ListenerId>)
      reads this
      ensures e.Kind() in listeners ==> ids == listeners[e.Kind()]
      ensures e.Kind() !in listeners ==> ids == []
    {
      Registered(listeners, e.Kind())
    }

    /** The new-game branch: a fresh game for `w` replaces the channel's entry. */
    method Begin(w: string, commandIssuer: string, gameId: string) returns (game: HangmanGame)
      requires Valid() && |w| > 0
      modifies this
      ensures Valid() && listeners == old(listeners)
      ensures fresh(game.Repr) && game.Valid() && game.creator == commandIssuer
      ensures game.Snapshot() == Start(w)
      ensures gameStates == old(gameStates)[gameId := game]
      ensures rounds == old(rounds)[gameId := Some(Start(w))]
    {
      game := new HangmanGame(w, commandIssuer);
      StartKeepsInv(w);
      gameStates := gameStates[gameId := game];
      rounds := rounds[gameId := Some(Start(w))];
      Repr := Repr + game.Repr;
      assert Owns();
      forall ch | ch in gameStates
        ensures Agrees(ch)
      {
        if ch != gameId {
          assert old(Agrees(ch));
          assert gameStates[ch] == old(gameStates[ch]) && rounds[ch] == old(rounds[ch]);
        }
      }
    }

    /** The guess branch: the channel's game takes the guess, and is cleared from the registry if it ends. */
    method Play(game: HangmanGame, gameId: string, guessText: string)
      requires Valid() && game == ActiveGame(gameId)
      modifies this, game.Repr
      ensures Valid() && listeners == old(listeners) && game.Valid()
      ensures game.Snapshot() == GuessStep(old(game.Snapshot()), guessText)
      ensures gameStates == old(gameStates)[gameId := if Over(game.Snapshot()) then null else game]
      ensures rounds == old(rounds)[gameId := if Over(game.Snapshot()) then None else Some(game.Snapshot())]
    {
      Apply(game, guessText);
      Settle(game, gameId);
    }

    /** The registry after the channel's game has changed: cleared if the game is over, its new round otherwise. */
    method Settle(game: HangmanGame, gameId: string)
      requires Owns() && game == ActiveGame(gameId) && game.Valid()
      requires forall ch | ch in gameStates && ch != gameId :: Agrees(ch)
      modifies this
      ensures Valid() && listeners == old(listeners)
      ensures gameStates == old(gameStates)[gameId := if Over(game.Snapshot()) then null else game]
      ensures rounds == old(rounds)[gameId := if Over(game.Snapshot()) then None else Some(game.Snapshot())]
    {
      var over := game.GameOver();
      ghost var entry := if over then None else Some(game.Snapshot());
      gameStates, rounds := gameStates[gameId := if over then null else game], rounds[gameId := entry];
      assert Owns();
      forall ch | ch in gameStates
        ensures Agrees(ch)
      {
        if ch != gameId {
          assert old(Agrees(ch));
          assert gameStates[ch] == old(gameStates[ch]) && rounds[ch] == old(rounds[ch]);
        }
      }
    }

    /**
     * `handleRequest`: the event raised and the new registry are those
     * `Respond` gives for the lower-cased command; a new game is a fresh
     * object, and the other events carry the channel's existing game.
     */
    method HandleRequest(command: string, commandIssuer: string, gameId: string) returns (e: Event)
      requires Valid()
      modifies this, Footprint(gameId)
      ensures Valid() && listeners == old(listeners)
      ensures HasGame(e) ==> GameObjects(e.game) <= e.game.Repr
      ensures (Summary(e), rounds) == Respond(old(rounds), Lower(command), gameId)
      ensures e.NewGame? ==>
        fresh(e.game.Repr) && e.game.creator == commandIssuer && gameStates == old(gameStates)[gameId := e.game]
      ensures e.Guess? || e.StateRequest? ==> e.game == old(ActiveGame(gameId))
      ensures e.Guess? ==> gameStates == old(gameStates)[gameId := if Over(e.game.Snapshot()) then null else e.game]
      ensures !e.NewGame? && !e.Guess? ==> gameStates == old(gameStates)
    {
      var game := ActiveGame(gameId);
      var t := Lower(command);
      match Classify(t)
      case StartGame(w) =>
        ClassifyFollowsPatterns(t);
        var created := Begin(w, commandIssuer, gameId);
        e := NewGame(created);
      case QueryState =>
        if game == null {
          e := InvalidRequest(StateRequestEvent, t);
        } else {
          e := StateRequest(game);
        }
      case MakeGuess(guessText) =>
        if game == null {
          e := InvalidRequest(GuessEvent, t);
        } else {
          Play(game, gameId, guessText);
          e := Guess(game, guessText);
        }
      case Unrecognized =>
        e := UnknownRequest(t);
    }
  }
}
