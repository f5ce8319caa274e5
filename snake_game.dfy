/**
 * The Snake script's global state as an object whose methods change it in
 * place, each tied to the rule of `SnakeRules` it carries out. The clock
 * enters as `elapsed` (milliseconds since the game started) and the bot's
 * two random draws as `keepStraight` (the 80% draw) and `pick` (the random
 * index).
 */
module Snake {
  import opened Wrappers
  import opened SnakeRules

  /** The segment scans of the script: whether cell p is one of `segments`. */
  method Occupies(p: Pos, segments: seq<Pos>) returns (hit: bool)
    ensures hit <==> p in segments
  {
    for i := 0 to |segments|
      invariant p !in segments[..i]
    {
      if p == segments[i] {
        return true;
      }
      assert segments[..i + 1] == segments[..i] + [segments[i]];
    }
    assert segments[..|segments|] == segments;
    return false;
  }

  class SnakeGame {
    const isHost: bool
    const isPlayingBot: bool
    const playerName: string
    const opponentName: string

    var mySnake: seq<Pos>
    var opponentSnake: seq<Pos>
    var myDirection: Dir
    var nextDirection: Dir
    var botDirection: Dir
    var botNextDirection: Dir
    var gameRunning: bool
    var highscores: seq<Score>

    function Config(): Setup
    {
      Setup(isHost, isPlayingBot, playerName, opponentName)
    }

    /** The state as a value. */
    function Snapshot(): World
      reads this
    {
      World(mySnake, opponentSnake, myDirection, nextDirection, botDirection, botNextDirection, gameRunning, highscores)
    }

    /**
     * The state on load: no snakes yet, the player facing up and the bot
     * facing down, no game running, and the highscores read from storage
     * (`stored`). The connection choices made before the game are fixed here.
     */
    constructor (host: bool, againstBot: bool, name: string, opponent: string, stored: seq<Score>)
      ensures Config() == Setup(host, againstBot, name, opponent)
      ensures Snapshot() == World([], [], Up, Up, Down, Down, false, stored)
    {
      isHost := host;
      isPlayingBot := againstBot;
      playerName := name;
      opponentName := opponent;
      mySnake := [];
      opponentSnake := [];
      myDirection := Up;
      nextDirection := Up;
      botDirection := Down;
      botNextDirection := Down;
      gameRunning := false;
      highscores := stored;
    }

    /** `startGame`: the highscores are cleared for the new connection, then `resetGame`. */
    method StartGame()
      modifies this
      ensures Snapshot() == Reset(old(Snapshot()).(highscores := []), Config())
    {
      highscores := [];
      ResetGame();
    }

    /** `resetGame`: both snakes and their directions back to the start. */
    method ResetGame()
      modifies this
      ensures Snapshot() == Reset(old(Snapshot()), Config())
    {
      if isHost {
        mySnake := HostStart;
        myDirection := Up;
      } else {
        mySnake := GuestStart;
        myDirection := Down;
      }
      nextDirection := myDirection;
      if isPlayingBot {
        opponentSnake := GuestStart;
        botDirection := Down;
        botNextDirection := Down;
      } else {
        opponentSnake := [];
      }
      gameRunning := true;
    }

    /**
     * `update` under the corrected collision rule: the player's snake
     * takes the queued direction, crashes on the other snake or on a
     * segment of its own that is still there after the step, or moves and
     * is trimmed to the target length; against the bot, the bot moves
     * next. The script exempts its own last segment even on a growing
     * step, where that segment stays (`SnakeRules.GrowingIntoTail`).
     */
    method Update(elapsed: nat, keepStraight: bool, pick: nat)
      requires |mySnake| > 0 && (isPlayingBot ==> |opponentSnake| > 0)
      modifies this
      ensures Snapshot() == Updated(old(Snapshot()), Config(), elapsed, keepStraight, pick)
    {
      myDirection := nextDirection;
      ghost var step := Step(mySnake, opponentSnake, myDirection, TargetLength(elapsed));
      var head := mySnake[0];
      var newHead := NextHead(head, myDirection);
      var hitOpponent := Occupies(newHead, opponentSnake);
      if hitOpponent {
        assert step.None?;
        HandleLoss(elapsed);
        return;
      }
      var hitSelf := Occupies(newHead, mySnake[..Guarded(|mySnake|, TargetLength(elapsed))]);
      if hitSelf {
        assert step.None?;
        HandleLoss(elapsed);
        return;
      }
      mySnake := Trimmed([newHead] + mySnake, TargetLength(elapsed));
      assert step == Some(mySnake);
      if isPlayingBot {
        UpdateBot(elapsed, keepStraight, pick);
      }
    }

    /**
     * `updateBot`: the same move for the bot's snake, with the roles of the
     * snakes swapped and the same corrected collision rule; a crash is the
     * player's win, otherwise the bot picks its next direction.
     */
    method UpdateBot(elapsed: nat, keepStraight: bool, pick: nat)
      requires |opponentSnake| > 0
      modifies this
      ensures Snapshot() == BotStepped(old(Snapshot()), Config(), elapsed, keepStraight, pick)
    {
      botDirection := botNextDirection;
      ghost var step := Step(opponentSnake, mySnake, botDirection, TargetLength(elapsed));
      var head := opponentSnake[0];
      var newHead := NextHead(head, botDirection);
      var hitPlayer := Occupies(newHead, mySnake);
      if hitPlayer {
        assert step.None?;
        HandleWin(elapsed);
        return;
      }
      var hitSelf := Occupies(newHead, opponentSnake[..Guarded(|opponentSnake|, TargetLength(elapsed))]);
      if hitSelf {
        assert step.None?;
        HandleWin(elapsed);
        return;
      }
      opponentSnake := Trimmed([newHead] + opponentSnake, TargetLength(elapsed));
      assert step == Some(opponentSnake);
      BotDecideDirection(keepStraight, pick);
    }

    /** The `pop` loop of both updates: drop tail segments while longer than `target`. */
    static method Trimmed(grown: seq<Pos>, target: nat) returns (snake: seq<Pos>)
      requires |grown| > 0
      ensures snake == Grown(grown[1..], grown[0], target)
    {
      snake := grown;
      while |snake| > target
        invariant |snake| <= |grown| && snake == grown[..|snake|]
        invariant |snake| < |grown| ==> |snake| >= target
        decreases |snake|
      {
        snake := snake[..|snake| - 1];
      }
      assert grown == [grown[0]] + grown[1..];
    }

    /**
     * `botDecideDirection`: collect the directions that do not reverse the
     * bot and lead onto a free cell, then keep going straight or pick one
     * of them at random; with none, the bot's next direction stays.
     */
    method BotDecideDirection(keepStraight: bool, pick: nat)
      requires |opponentSnake| > 0
      modifies this
      ensures Snapshot() == BotDecided(old(Snapshot()), keepStraight, pick)
    {
      var possibleDirs := SafeDirections(opponentSnake[0], botDirection, mySnake, opponentSnake);
      if |possibleDirs| > 0 {
        var currentDirSafe := botDirection in possibleDirs;
        if currentDirSafe && keepStraight {
          botNextDirection := botDirection;
        } else {
          botNextDirection := possibleDirs[pick % |possibleDirs|];
        }
      }
    }

    /**
     * The scan of `botDecideDirection`: the directions, in the order up,
     * down, left, right, that do not reverse `current` and whose next cell
     * is on neither snake.
     */
    static method SafeDirections(head: Pos, current: Dir, mine: seq<Pos>, bots: seq<Pos>) returns (possibleDirs: seq<Dir>)
      ensures possibleDirs == SafeAmong(Directions, head, current, mine, bots)
    {
      possibleDirs := [];
      for k := 0 to |Directions|
        invariant possibleDirs == SafeAmong(Directions[..k], head, current, mine, bots)
      {
        var dir := Directions[k];
        assert Directions[..k + 1][..k] == Directions[..k];
        if dir.x == -current.x && dir.y == -current.y {
          continue;
        }
        var newPos := NextHead(head, dir);
        var safe := true;
        var hitPlayer := Occupies(newPos, mine);
        if hitPlayer {
          safe := false;
        }
        if safe {
          var hitSelf := Occupies(newPos, bots);
          if hitSelf {
            safe := false;
          }
        }
        if safe {
          possibleDirs := possibleDirs + [dir];
        }
      }
      assert Directions[..|Directions|] == Directions;
    }

    /** `handleLoss`: the game stops; against the bot, the bot's time is recorded. */
    method HandleLoss(elapsed: nat)
      modifies this
      ensures Snapshot() == Lost(old(Snapshot()), Config(), elapsed)
    {
      gameRunning := false;
      if isPlayingBot {
        AddHighscore(opponentName, elapsed);
      }
    }

    /** `handleWin`: the game stops and the player's time is recorded. */
    method HandleWin(elapsed: nat)
      modifies this
      ensures Snapshot() == Won(old(Snapshot()), Config(), elapsed)
    {
      gameRunning := false;
      AddHighscore(playerName, elapsed);
    }

    /** `addHighscore`: push, sort best first, keep the first ten. */
    method AddHighscore(player: string, time: nat)
      modifies this
      ensures Snapshot() == old(Snapshot()).(highscores := AddedScore(old(highscores), Score(player, time)))
    {
      highscores := highscores + [Score(player, time)];
      highscores := SortByTime(highscores);
      if |highscores| > MaxHighscores {
        highscores := highscores[..MaxHighscores];
      }
    }

    /** `handleDirection(h)`: while the game runs, queue the turn unless it reverses the current direction. */
    method HandleDirection(h: Heading)
      modifies this
      ensures Snapshot() == Turned(old(Snapshot()), h)
    {
      if !gameRunning {
        return;
      }
      match h
      case HeadUp =>
        if myDirection.y != 1 { nextDirection := Up; }
      case HeadDown =>
        if myDirection.y != -1 { nextDirection := Down; }
      case HeadLeft =>
        if myDirection.x != 1 { nextDirection := Left; }
      case HeadRight =>
        if myDirection.x != -1 { nextDirection := Right; }
    }
  }
}
