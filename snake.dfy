/**
 * The grid logic of the two-player Snake game: toroidal head movement,
 * the collision rule, growth over time, the no-reverse input rule, the
 * bot's choice of a safe direction and the top-10 highscore list.
 *
 * `SnakeRules` states each rule as a function over values; the class
 * `SnakeGame` keeps the script's global state in fields and changes it
 * step by step, each method tied to the rule it carries out.
 */
module SnakeRules {
  import opened Wrappers

  /** `GRID_SIZE`: the board is 25 by 25 cells. */
  const GridSize: int := 25
  /** `GROW_INTERVAL`: a snake may grow by one segment every 2000 ms. */
  const GrowInterval: nat := 2000
  /** Every snake starts with three segments. */
  const StartLength: nat := 3
  /** The highscore list keeps the ten best survival times. */
  const MaxHighscores: nat := 10

  datatype Pos = Pos(x: int, y: int)
  datatype Dir = Dir(x: int, y: int)

  const Up: Dir := Dir(0, -1)
  const Down: Dir := Dir(0, 1)
  const Left: Dir := Dir(-1, 0)
  const Right: Dir := Dir(1, 0)

  /** The four directions, in the order the bot examines them. */
  const Directions: seq<Dir> := [Up, Down, Left, Right]

  /** The direction names `handleDirection` accepts. */
  datatype Heading = HeadUp | HeadDown | HeadLeft | HeadRight

  function Vector(h: Heading): Dir
  {
    match h
    case HeadUp => Up
    case HeadDown => Down
    case HeadLeft => Left
    case HeadRight => Right
  }

  function Reverse(d: Dir): Dir
  {
    Dir(-d.x, -d.y)
  }

  predicate InGrid(p: Pos)
  {
    0 <= p.x < GridSize && 0 <= p.y < GridSize
  }

  predicate AllInGrid(s: seq<Pos>)
  {
    forall i :: 0 <= i < |s| ==> InGrid(s[i])
  }

  /** The script's `%`, which truncates toward zero (the remainder takes the dividend's sign). */
  function Rem(a: int, n: int): int
    requires n > 0
  {
    if a >= 0 then a % n else -((-a) % n)
  }

  /**
   * The new head: `(head + dir + GRID_SIZE) % GRID_SIZE` in each
   * coordinate. From a cell on the grid, one step in any direction lands
   * on the grid again, on the cell reached by wrapping around the torus.
   */
  function NextHead(head: Pos, d: Dir): (r: Pos)
    ensures InGrid(head) && -1 <= d.x <= 1 && -1 <= d.y <= 1 ==>
              InGrid(r) && r.x == (head.x + d.x) % GridSize && r.y == (head.y + d.y) % GridSize
  {
    Pos(Rem(head.x + d.x + GridSize, GridSize), Rem(head.y + d.y + GridSize, GridSize))
  }

  /** `targetLength = 3 + floor(elapsed / GROW_INTERVAL)`. */
  function TargetLength(elapsed: nat): nat
  {
    StartLength + elapsed / GrowInterval
  }

  /**
   * `unshift` the new head, then `pop` while longer than `target`: the
   * head leads, the old body follows in order, and the snake is one longer
   * or cut to the target length, whichever is shorter.
   */
  function Grown(snake: seq<Pos>, head: Pos, target: nat): (r: seq<Pos>)
    ensures |r| == if |snake| + 1 <= target then |snake| + 1 else target
    ensures 0 < |r| ==> r[0] == head && r[1..] == snake[..|r| - 1]
  {
    var longer := [head] + snake;
    if |longer| <= target then longer else longer[..target]
  }

  /**
   * How many of its own segments, counted from the head, the new head
   * must avoid: all but the last, which moves away, except on a step where
   * the snake grows and the last one stays.
   */
  function Guarded(n: nat, target: nat): (k: nat)
    requires n > 0
    ensures k <= n && (k == n <==> n + 1 <= target)
  {
    if n + 1 <= target then n else n - 1
  }

  /**
   * The collision rule of `update` and `updateBot`: the new head lands on
   * a segment of the other snake, or on a segment of its own snake that
   * is still there after the step. The script exempts its own last
   * segment, the one that moves away; on a step where the snake grows it
   * does not move, and this rule does not exempt it then.
   */
  predicate Blocked(head: Pos, own: seq<Pos>, other: seq<Pos>, target: nat)
  {
    head in other || (|own| > 0 && head in own[..Guarded(|own|, target)])
  }

  /**
   * One move of a snake in direction d, shared by the player's and the
   * bot's step with the roles of the snakes swapped: None on a collision,
   * otherwise the grown snake.
   */
  function Step(own: seq<Pos>, other: seq<Pos>, d: Dir, target: nat): Option<seq<Pos>>
    requires |own| > 0
  {
    var head := NextHead(own[0], d);
    if Blocked(head, own, other, target) then None else Some(Grown(own, head, target))
  }

  /**
   * Under the corrected collision rule, a step that succeeds keeps the snake on the grid, puts the new head
   * (a cell of neither the other snake nor its own remaining body) in
   * front of the old body, and never makes the snake longer than the
   * target length or than one more than it was.
   */
  lemma StepShape(own: seq<Pos>, other: seq<Pos>, d: Dir, target: nat)
    requires |own| > 0 && AllInGrid(own) && d in Directions && target >= 1
    ensures Step(own, other, d, target).Some? ==>
              var r := Step(own, other, d, target).value;
              && AllInGrid(r) && 1 <= |r| <= target && |r| <= |own| + 1
              && r[0] == NextHead(own[0], d) && r[0] !in other && r[0] !in r[1..]
              && r[1..] == own[..|r| - 1]
    ensures Step(own, other, d, target).None? <==> Blocked(NextHead(own[0], d), own, other, target)
  {
    var head := NextHead(own[0], d);
    if !Blocked(head, own, other, target) {
      var r := Grown(own, head, target);
      forall i | 0 <= i < |r|
        ensures InGrid(r[i])
      {
        if i > 0 {
          assert r[i] == r[1..][i - 1] == own[i - 1];
        }
      }
    }
  }

  /** A direction the bot may take: not a reversal, and onto a cell neither snake occupies. */
  predicate SafeMove(head: Pos, current: Dir, mine: seq<Pos>, bots: seq<Pos>, d: Dir)
  {
    d != Reverse(current) && NextHead(head, d) !in mine && NextHead(head, d) !in bots
  }

  /** The safe directions among `dirs`, in their order: the list `possibleDirs` of `botDecideDirection`. */
  function SafeAmong(dirs: seq<Dir>, head: Pos, current: Dir, mine: seq<Pos>, bots: seq<Pos>): seq<Dir>
    decreases |dirs|
  {
    if |dirs| == 0 then []
    else
      var last := dirs[|dirs| - 1];
      SafeAmong(dirs[..|dirs| - 1], head, current, mine, bots) + (if SafeMove(head, current, mine, bots, last) then [last] else [])
  }

  /** The safe list holds exactly the safe directions of `dirs`, and no more entries than `dirs`. */
  lemma {:induction false} SafeAmongSpec(dirs: seq<Dir>, head: Pos, current: Dir, mine: seq<Pos>, bots: seq<Pos>)
    ensures |SafeAmong(dirs, head, current, mine, bots)| <= |dirs|
    ensures forall d :: d in SafeAmong(dirs, head, current, mine, bots) <==> d in dirs && SafeMove(head, current, mine, bots, d)
    decreases |dirs|
  {
    if |dirs| > 0 {
      var last := dirs[|dirs| - 1];
      assert dirs == dirs[..|dirs| - 1] + [last];
      SafeAmongSpec(dirs[..|dirs| - 1], head, current, mine, bots);
    }
  }

  /**
   * The bot's next direction: its current direction when that is safe and
   * the 80% draw (`keepStraight`) says so, otherwise the safe direction
   * the random index `pick` selects; with no safe direction, `previous`.
   */
  function Decided(safe: seq<Dir>, current: Dir, previous: Dir, keepStraight: bool, pick: nat): (r: Dir)
    ensures |safe| == 0 ==> r == previous
    ensures |safe| > 0 ==> r in safe
    ensures current in safe && keepStraight ==> r == current
  {
    if |safe| == 0 then previous
    else if current in safe && keepStraight then current
    else safe[pick % |safe|]
  }

  /**
   * What `botDecideDirection` settles on: a direction that neither
   * reverses the bot nor runs into either snake, whenever one exists.
   */
  lemma DecidedIsSafe(head: Pos, current: Dir, previous: Dir, mine: seq<Pos>, bots: seq<Pos>, keepStraight: bool, pick: nat)
    requires exists d :: d in Directions && SafeMove(head, current, mine, bots, d)
    ensures var r := Decided(SafeAmong(Directions, head, current, mine, bots), current, previous, keepStraight, pick);
            r in Directions && r != Reverse(current) && NextHead(head, r) !in mine && NextHead(head, r) !in bots
  {
    var d :| d in Directions && SafeMove(head, current, mine, bots, d);
    SafeAmongSpec(Directions, head, current, mine, bots);
    assert d in SafeAmong(Directions, head, current, mine, bots);
  }

  /** The refusals of `handleDirection`: up while moving down, down while moving up, left while moving right, right while moving left. */
  predicate Permitted(moving: Dir, h: Heading)
  {
    match h
    case HeadUp => moving.y != 1
    case HeadDown => moving.y != -1
    case HeadLeft => moving.x != 1
    case HeadRight => moving.x != -1
  }

  /** For a snake moving in one of the four directions, the one refused turn is the reversal. */
  lemma PermittedUnlessReverse(moving: Dir, h: Heading)
    requires moving in Directions
    ensures Permitted(moving, h) <==> Vector(h) != Reverse(moving)
  {
  }

  /** A highscore entry; the date string is not modelled. */
  datatype Score = Score(player: string, time: nat)

  predicate SortedByTime(s: seq<Score>)
  {
    forall i, j :: 0 <= i < j < |s| ==> s[i].time >= s[j].time
  }

  /** An entry no faster than the head of an ordered list can go in front of it. */
  lemma SortedCons(a: Score, s: seq<Score>)
    requires SortedByTime(s)
    requires |s| > 0 ==> a.time >= s[0].time
    ensures SortedByTime([a] + s)
  {
    var r := [a] + s;
    forall i, j | 0 <= i < j < |r|
      ensures r[i].time >= r[j].time
    {
      if i == 0 {
        assert r[j] == s[j - 1];
      } else {
        assert r[i] == s[i - 1] && r[j] == s[j - 1];
      }
    }
  }

  /** Inserts x after every entry with at least its time, so that equal times keep their order. */
  function InsertByTime(sorted: seq<Score>, x: Score): (r: seq<Score>)
    requires SortedByTime(sorted)
    ensures SortedByTime(r)
    ensures multiset(r) == multiset(sorted) + multiset{x}
    ensures r[0] == x || (|sorted| > 0 && r[0] == sorted[0])
    decreases |sorted|
  {
    if |sorted| == 0 then [x]
    else if sorted[0].time >= x.time then
      var rest := InsertByTime(sorted[1..], x);
      assert sorted == [sorted[0]] + sorted[1..];
      SortedCons(sorted[0], rest);
      [sorted[0]] + rest
    else
      SortedCons(x, sorted);
      [x] + sorted
  }

  /** The entries of s with time t, in their order in s. */
  function WithTime(s: seq<Score>, t: nat): seq<Score>
    decreases |s|
  {
    if |s| == 0 then [] else (if s[0].time == t then [s[0]] else []) + WithTime(s[1..], t)
  }

  lemma {:induction false} WithTimeAppend(a: seq<Score>, b: seq<Score>, t: nat)
    ensures WithTime(a + b, t) == WithTime(a, t) + WithTime(b, t)
    decreases |a|
  {
    if |a| == 0 {
      assert a + b == b;
    } else {
      assert a + b == [a[0]] + (a[1..] + b);
      assert a == [a[0]] + a[1..];
      WithTimeCons(a[0], a[1..] + b, t);
      WithTimeCons(a[0], a[1..], t);
      WithTimeAppend(a[1..], b, t);
    }
  }

  /** A list whose entries are all faster than t has none with time t. */
  lemma {:induction false} WithTimeNone(s: seq<Score>, t: nat)
    requires forall k :: 0 <= k < |s| ==> s[k].time < t
    ensures WithTime(s, t) == []
    decreases |s|
  {
    if |s| > 0 {
      WithTimeNone(s[1..], t);
    }
  }

  lemma WithTimeCons(a: Score, s: seq<Score>, t: nat)
    ensures WithTime([a] + s, t) == (if a.time == t then [a] else []) + WithTime(s, t)
  {
    assert ([a] + s)[0] == a && ([a] + s)[1..] == s;
  }

  /** An entry faster than every entry of a list goes in front of it, and the list has none of its time. */
  lemma WithTimeAhead(x: Score, s: seq<Score>, t: nat)
    requires forall k :: 0 <= k < |s| ==> s[k].time < x.time
    ensures WithTime([x] + s, t) == WithTime(s, t) + (if x.time == t then [x] else [])
  {
    WithTimeCons(x, s, t);
    if x.time == t {
      WithTimeNone(s, t);
    }
  }

  /** Insertion puts x behind every entry of the same time already there. */
  lemma {:induction false} InsertByTimeStable(sorted: seq<Score>, x: Score, t: nat)
    requires SortedByTime(sorted)
    ensures WithTime(InsertByTime(sorted, x), t) == WithTime(sorted, t) + (if x.time == t then [x] else [])
    decreases |sorted|
  {
    if |sorted| == 0 {
      WithTimeCons(x, [], t);
    } else if sorted[0].time >= x.time {
      InsertByTimeStable(sorted[1..], x, t);
      InsertPastHead(sorted, x);
      ConsStep(sorted, InsertByTime(sorted[1..], x), if x.time == t then [x] else [], t);
    } else {
      InsertAhead(sorted, x, t);
    }
  }

  /** Putting the head of s in front of r keeps the entries of time t lined up with s. */
  lemma ConsStep(s: seq<Score>, r: seq<Score>, extra: seq<Score>, t: nat)
    requires |s| > 0 && WithTime(r, t) == WithTime(s[1..], t) + extra
    ensures WithTime([s[0]] + r, t) == WithTime(s, t) + extra
  {
    WithTimeCons(s[0], r, t);
  }

  /** An entry no faster than the head is inserted into the rest of the list. */
  lemma InsertPastHead(sorted: seq<Score>, x: Score)
    requires SortedByTime(sorted) && |sorted| > 0 && sorted[0].time >= x.time
    ensures InsertByTime(sorted, x) == [sorted[0]] + InsertByTime(sorted[1..], x)
  {
  }

  /** The base of the induction: x is faster than the whole list and goes in front. */
  lemma InsertAhead(sorted: seq<Score>, x: Score, t: nat)
    requires SortedByTime(sorted) && |sorted| > 0 && sorted[0].time < x.time
    ensures WithTime(InsertByTime(sorted, x), t) == WithTime(sorted, t) + (if x.time == t then [x] else [])
  {
    forall k | 0 <= k < |sorted|
      ensures sorted[k].time < x.time
    {
      assert sorted[0].time >= sorted[k].time;
    }
    assert InsertByTime(sorted, x) == [x] + sorted;
    WithTimeAhead(x, sorted, t);
  }

  /** The sort is stable: entries with the same time keep the order they had. */
  lemma {:induction false} SortByTimeStable(s: seq<Score>, t: nat)
    ensures WithTime(SortByTime(s), t) == WithTime(s, t)
    decreases |s|
  {
    if |s| > 0 {
      var init, last := s[..|s| - 1], s[|s| - 1];
      assert s == init + [last];
      WithTimeAppend(init, [last], t);
      assert SortByTime(s) == InsertByTime(SortByTime(init), last);
      SortByTimeStable(init, t);
      InsertByTimeStable(SortByTime(init), last, t);
      WithTimeCons(last, [], t);
      assert [last] + [] == [last];
    }
  }

  /** Among entries of equal time the highscore list keeps the ones added first. */
  lemma AddedScoreStable(list: seq<Score>, x: Score, t: nat)
    ensures WithTime(AddedScore(list, x), t) <= WithTime(list + [x], t)
  {
    var sorted := SortByTime(list + [x]);
    var r := AddedScore(list, x);
    assert sorted == r + sorted[|r|..];
    WithTimeAppend(r, sorted[|r|..], t);
    SortByTimeStable(list + [x], t);
  }

  /**
   * `sort((a, b) => b.time - a.time)`: a stable sort by time, best first,
   * written as an insertion sort. The result is ordered and a permutation
   * of the input.
   */
  function SortByTime(s: seq<Score>): (r: seq<Score>)
    ensures SortedByTime(r)
    ensures multiset(r) == multiset(s)
    decreases |s|
  {
    if |s| == 0 then []
    else
      assert s == s[..|s| - 1] + [s[|s| - 1]];
      InsertByTime(SortByTime(s[..|s| - 1]), s[|s| - 1])
  }

  /**
   * `addHighscore`: push the new entry, sort best first and keep the first
   * ten. The list is ordered, holds at most ten entries, all of them from
   * the old list or the new one, and keeps everything while there is room.
   */
  function AddedScore(list: seq<Score>, x: Score): (r: seq<Score>)
    ensures |r| == if |list| + 1 <= MaxHighscores then |list| + 1 else MaxHighscores
    ensures SortedByTime(r) && r <= SortByTime(list + [x])
    ensures multiset(r) <= multiset(list + [x])
    ensures |list| < MaxHighscores ==> multiset(r) == multiset(list + [x])
  {
    var sorted := SortByTime(list + [x]);
    var r := if |sorted| <= MaxHighscores then sorted else sorted[..MaxHighscores];
    assert sorted == r + sorted[|r|..];
    assert multiset(sorted) == multiset(r) + multiset(sorted[|r|..]);
    r
  }

  /** In a list ordered best first, nothing after position n beats anything before it. */
  lemma SortedSplit(s: seq<Score>, n: nat)
    requires SortedByTime(s) && n <= |s|
    ensures forall y, k :: y in s[n..] && 0 <= k < n ==> y.time <= s[k].time
  {
    forall y, k | y in s[n..] && 0 <= k < n
      ensures y.time <= s[k].time
    {
      var j :| 0 <= j < |s[n..]| && s[n..][j] == y;
      assert s[n + j] == y;
    }
  }

  /** What a prefix leaves out of a list lies in the rest of the list. */
  lemma DroppedInTail(s: seq<Score>, n: nat)
    requires n <= |s|
    ensures forall y :: y in multiset(s) - multiset(s[..n]) ==> y in s[n..]
  {
    assert s == s[..n] + s[n..];
    assert multiset(s) == multiset(s[..n]) + multiset(s[n..]);
    forall y | y in multiset(s) - multiset(s[..n])
      ensures y in s[n..]
    {
      assert multiset(s[n..])[y] > 0;
    }
  }

  /** The list keeps the best times: no entry it drops beats an entry it keeps. */
  lemma AddedScoreKeepsBest(list: seq<Score>, x: Score)
    ensures var r := AddedScore(list, x);
            forall y, k :: y in multiset(list + [x]) - multiset(r) && 0 <= k < |r| ==> y.time <= r[k].time
  {
    var sorted := SortByTime(list + [x]);
    var r := AddedScore(list, x);
    var n := |r|;
    assert r == sorted[..n];
    DroppedInTail(sorted, n);
    SortedSplit(sorted, n);
    forall y, k | y in multiset(list + [x]) - multiset(r) && 0 <= k < n
      ensures y.time <= r[k].time
    {
      assert y in multiset(sorted) - multiset(sorted[..n]);
      assert r[k] == sorted[k];
    }
  }

  /** The whole game state the script keeps in globals. */
  datatype World = World(
    mySnake: seq<Pos>,
    opponentSnake: seq<Pos>,
    myDirection: Dir,
    nextDirection: Dir,
    botDirection: Dir,
    botNextDirection: Dir,
    gameRunning: bool,
    highscores: seq<Score>)

  /** The choices made before a game: host or guest, against the bot or not, and the two names. */
  datatype Setup = Setup(isHost: bool, isPlayingBot: bool, playerName: string, opponentName: string)

  /**
   * The invariant of a game under way: both snakes lie on the grid and
   * neither overlaps itself, the player's snake (and the bot's, when it
   * plays) has a head, every
   * direction in use is one of the four, and neither snake is set to
   * reverse.
   */
  predicate Sound(w: World, setup: Setup)
  {
    && |w.mySnake| > 0 && AllInGrid(w.mySnake) && AllInGrid(w.opponentSnake)
    && NoRepeats(w.mySnake) && NoRepeats(w.opponentSnake)
    && (setup.isPlayingBot ==> |w.opponentSnake| > 0)
    && w.myDirection in Directions && w.nextDirection in Directions && w.nextDirection != Reverse(w.myDirection)
    && (setup.isPlayingBot ==>
          w.botDirection in Directions && w.botNextDirection in Directions && w.botNextDirection != Reverse(w.botDirection))
  }

  /** Where the host's snake starts: head at (10, 20), body below it. */
  const HostStart: seq<Pos> := [Pos(10, 20), Pos(10, 21), Pos(10, 22)]
  /** Where the guest's snake, and the bot's, start: head at (20, 10), body above it. */
  const GuestStart: seq<Pos> := [Pos(20, 10), Pos(20, 9), Pos(20, 8)]

  /** Both starting snakes are three cells on the grid, neither overlaps itself, and they share no cell. */
  lemma StartShapes()
    ensures |HostStart| == StartLength && AllInGrid(HostStart) && NoRepeats(HostStart)
    ensures |GuestStart| == StartLength && AllInGrid(GuestStart) && NoRepeats(GuestStart)
    ensures multiset(HostStart) !! multiset(GuestStart)
  {
    forall p | p in multiset(HostStart)
      ensures p !in multiset(GuestStart)
    {
      assert p.x == 10;
    }
  }

  /**
   * `resetGame`: the host starts at (10, 20) facing up, the guest and the
   * bot at (20, 10) facing down; without the bot there is no opponent
   * snake until the peer sends one. The highscores stay.
   */
  function Reset(w: World, setup: Setup): (r: World)
    ensures Sound(r, setup) && r.gameRunning && r.highscores == w.highscores
    ensures |r.mySnake| == StartLength
    ensures setup.isPlayingBot && setup.isHost ==> multiset(r.mySnake) !! multiset(r.opponentSnake)
  {
    var mine := if setup.isHost then HostStart else GuestStart;
    var dir := if setup.isHost then Up else Down;
    var bots := if setup.isPlayingBot then GuestStart else [];
    var botDir := if setup.isPlayingBot then Down else w.botDirection;
    var botNext := if setup.isPlayingBot then Down else w.botNextDirection;
    var r := World(mine, bots, dir, dir, botDir, botNext, true, w.highscores);
    assert Down != Reverse(Down) && Up != Reverse(Up);
    StartShapes();
    r
  }

  /**
   * `handleLoss` (the player's snake crashed): the game stops, and against
   * the bot the bot's survival time enters the highscores.
   */
  function Lost(w: World, setup: Setup, elapsed: nat): (r: World)
    ensures !r.gameRunning && r.(gameRunning := w.gameRunning, highscores := w.highscores) == w
    ensures !setup.isPlayingBot ==> r.highscores == w.highscores
    ensures setup.isPlayingBot && |w.highscores| < MaxHighscores ==> Score(setup.opponentName, elapsed) in multiset(r.highscores)
  {
    var scores := if setup.isPlayingBot then AddedScore(w.highscores, Score(setup.opponentName, elapsed)) else w.highscores;
    w.(gameRunning := false, highscores := scores)
  }

  /** `handleWin` (the other snake crashed): the game stops and the player's survival time enters the highscores. */
  function Won(w: World, setup: Setup, elapsed: nat): (r: World)
    ensures !r.gameRunning && r.(gameRunning := w.gameRunning, highscores := w.highscores) == w
    ensures |w.highscores| < MaxHighscores ==> Score(setup.playerName, elapsed) in multiset(r.highscores)
  {
    w.(gameRunning := false, highscores := AddedScore(w.highscores, Score(setup.playerName, elapsed)))
  }

  /** The directions `botDecideDirection` finds safe for the bot's snake. */
  function BotOptions(w: World): seq<Dir>
    requires |w.opponentSnake| > 0
  {
    SafeAmong(Directions, w.opponentSnake[0], w.botDirection, w.mySnake, w.opponentSnake)
  }

  /** `botDecideDirection`: the bot's next direction, from its safe options. */
  function BotDecided(w: World, keepStraight: bool, pick: nat): World
    requires |w.opponentSnake| > 0
  {
    w.(botNextDirection := Decided(BotOptions(w), w.botDirection, w.botNextDirection, keepStraight, pick))
  }

  /**
   * `updateBot` under the corrected collision rule: the bot takes its
   * chosen direction and makes the same `Step` as the player, with the
   * snakes' roles swapped. A crash is the
   * player's win; otherwise the bot picks its next direction.
   */
  function BotStepped(w: World, setup: Setup, elapsed: nat, keepStraight: bool, pick: nat): World
    requires |w.opponentSnake| > 0
  {
    var w0 := w.(botDirection := w.botNextDirection);
    match Step(w.opponentSnake, w.mySnake, w0.botDirection, TargetLength(elapsed))
    case None => Won(w0, setup, elapsed)
    case Some(bots) => BotDecided(w0.(opponentSnake := bots), keepStraight, pick)
  }

  /**
   * `update` under the corrected collision rule: the player takes the
   * queued direction and makes a `Step`. A
   * crash is a loss; otherwise, against the bot, the bot moves next.
   */
  function Updated(w: World, setup: Setup, elapsed: nat, keepStraight: bool, pick: nat): World
    requires |w.mySnake| > 0 && (setup.isPlayingBot ==> |w.opponentSnake| > 0)
  {
    var w0 := w.(myDirection := w.nextDirection);
    match Step(w.mySnake, w.opponentSnake, w0.myDirection, TargetLength(elapsed))
    case None => Lost(w0, setup, elapsed)
    case Some(mine) =>
      var w1 := w0.(mySnake := mine);
      if setup.isPlayingBot then BotStepped(w1, setup, elapsed, keepStraight, pick) else w1
  }

  /** `handleDirection(h)`: while the game runs, queue the turn unless it would reverse the current direction. */
  function Turned(w: World, h: Heading): (r: World)
    ensures r.(nextDirection := w.nextDirection) == w
    ensures r != w ==> w.gameRunning && r.nextDirection == Vector(h) && Permitted(w.myDirection, h)
  {
    if w.gameRunning && Permitted(w.myDirection, h) then w.(nextDirection := Vector(h)) else w
  }

  /**
   * Under the corrected collision rule, a crash leaves the crashing snake
   * where it was and stops the game; otherwise the player's snake moved by
   * one `Step`, and the bot's snake,
   * when it plays, is unchanged or moved by one `Step` of its own.
   */
  lemma {:induction false} UpdateOutcome(w: World, setup: Setup, elapsed: nat, keepStraight: bool, pick: nat)
    requires Sound(w, setup)
    ensures var r := Updated(w, setup, elapsed, keepStraight, pick);
            var s := Step(w.mySnake, w.opponentSnake, w.nextDirection, TargetLength(elapsed));
            && r.myDirection == w.nextDirection
            && (s.None? ==> r.mySnake == w.mySnake && r.opponentSnake == w.opponentSnake && !r.gameRunning)
            && (s.Some? ==> r.mySnake == s.value)
            && (s.Some? && !setup.isPlayingBot ==> r.opponentSnake == w.opponentSnake && r.gameRunning == w.gameRunning)
            && (s.Some? && setup.isPlayingBot ==>
                  var t := Step(w.opponentSnake, s.value, w.botNextDirection, TargetLength(elapsed));
                  && r.botDirection == w.botNextDirection
                  && (t.None? ==> r.opponentSnake == w.opponentSnake && !r.gameRunning)
                  && (t.Some? ==> r.opponentSnake == t.value && r.gameRunning == w.gameRunning))
  {
  }

  /**
   * Under the corrected collision rule, `updateBot` keeps the invariant
   * for the bot's snake and direction, its freedom from overlaps included;
   * the script's own rule does not keep that part (`GrowingIntoTail`).
   */
  lemma {:induction false} BotSteppedSound(w: World, setup: Setup, elapsed: nat, keepStraight: bool, pick: nat)
    requires Sound(w, setup) && setup.isPlayingBot
    ensures Sound(BotStepped(w, setup, elapsed, keepStraight, pick), setup)
  {
    var target := TargetLength(elapsed);
    StepShape(w.opponentSnake, w.mySnake, w.botNextDirection, target);
    StepNoRepeats(w.opponentSnake, w.mySnake, w.botNextDirection, target);
    var t := Step(w.opponentSnake, w.mySnake, w.botNextDirection, target);
    if t.Some? {
      var w1 := w.(botDirection := w.botNextDirection, opponentSnake := t.value);
      var safe := BotOptions(w1);
      SafeAmongSpec(Directions, w1.opponentSnake[0], w1.botDirection, w1.mySnake, w1.opponentSnake);
      if |safe| > 0 {
        assert safe[0] in safe;
      }
    }
  }

  /**
   * Under the corrected collision rule, `update` keeps the invariant: both
   * snakes stay on the grid, neither overlaps itself and neither is ever
   * set to reverse. Under the script's rule a growing snake can overlap its
   * last segment (`GrowingIntoTail`).
   */
  lemma {:induction false} UpdatedSound(w: World, setup: Setup, elapsed: nat, keepStraight: bool, pick: nat)
    requires Sound(w, setup)
    ensures Sound(Updated(w, setup, elapsed, keepStraight, pick), setup)
  {
    var target := TargetLength(elapsed);
    StepShape(w.mySnake, w.opponentSnake, w.nextDirection, target);
    StepNoRepeats(w.mySnake, w.opponentSnake, w.nextDirection, target);
    var s := Step(w.mySnake, w.opponentSnake, w.nextDirection, target);
    if s.Some? {
      var w1 := w.(myDirection := w.nextDirection, mySnake := s.value);
      assert Sound(w1, setup);
      if setup.isPlayingBot {
        BotSteppedSound(w1, setup, elapsed, keepStraight, pick);
      }
    }
  }

  /** `handleDirection` keeps the invariant: a queued turn never reverses the current direction. */
  lemma TurnedSound(w: World, setup: Setup, h: Heading)
    requires Sound(w, setup)
    ensures Sound(Turned(w, h), setup)
  {
    PermittedUnlessReverse(w.myDirection, h);
  }

  /** No cell appears twice: the snake does not overlap itself. */
  predicate NoRepeats(s: seq<Pos>)
  {
    forall i, j :: 0 <= i < j < |s| ==> s[i] != s[j]
  }

  /** The collision rule as the script writes it: its own last segment is always exempt. */
  predicate BlockedAsWritten(head: Pos, own: seq<Pos>, other: seq<Pos>)
  {
    head in other || (|own| > 0 && head in own[..|own| - 1])
  }

  /** The step of `update` and `updateBot` as the script writes it. */
  function StepAsWritten(own: seq<Pos>, other: seq<Pos>, d: Dir, target: nat): Option<seq<Pos>>
    requires |own| > 0
  {
    var head := NextHead(own[0], d);
    if BlockedAsWritten(head, own, other) then None else Some(Grown(own, head, target))
  }

  /**
   * The script's rule exempts the last segment on the grounds that it
   * moves away, but on a step where the snake grows it stays. A four-long
   * snake curled into a square, whose head sits next to its tail, can turn
   * into its tail exactly when it grows (at 4000 ms the target length is
   * 5), and the step then succeeds with the tail cell twice in the snake.
   */
  lemma GrowingIntoTail()
    ensures var own := [Pos(0, 0), Pos(1, 0), Pos(1, 1), Pos(0, 1)];
            && NoRepeats(own)
            && StepAsWritten(own, [], Down, TargetLength(4000)).Some?
            && !NoRepeats(StepAsWritten(own, [], Down, TargetLength(4000)).value)
  {
    var own := [Pos(0, 0), Pos(1, 0), Pos(1, 1), Pos(0, 1)];
    var head := NextHead(own[0], Down);
    assert head == Pos(0, 1);
    assert own[..|own| - 1] == [Pos(0, 0), Pos(1, 0), Pos(1, 1)];
    assert !BlockedAsWritten(head, own, []);
    var r := StepAsWritten(own, [], Down, TargetLength(4000)).value;
    assert r == [Pos(0, 1)] + own;
    assert r[0] == r[4];
  }

  /**
   * The two rules part only there: every step the model allows the script
   * allows too, with the same result, and a step only the script allows
   * is one where the snake grows and its head lands on its own last segment.
   */
  lemma StepDiffersOnlyOnGrowth(own: seq<Pos>, other: seq<Pos>, d: Dir, target: nat)
    requires |own| > 0
    ensures Step(own, other, d, target).Some? ==> StepAsWritten(own, other, d, target) == Step(own, other, d, target)
    ensures StepAsWritten(own, other, d, target).Some? && Step(own, other, d, target).None? ==>
              |own| + 1 <= target && NextHead(own[0], d) == own[|own| - 1]
  {
    if |own| + 1 <= target {
      assert own == own[..|own| - 1] + [own[|own| - 1]];
    }
  }

  /** A snake that does not overlap itself never comes to overlap itself, and its new head is never on the other snake. */
  lemma StepNoRepeats(own: seq<Pos>, other: seq<Pos>, d: Dir, target: nat)
    requires |own| > 0 && target >= 1 && NoRepeats(own)
    ensures Step(own, other, d, target).Some? ==>
              NoRepeats(Step(own, other, d, target).value) && Step(own, other, d, target).value[0] !in other
  {
    var head := NextHead(own[0], d);
    if !Blocked(head, own, other, target) {
      var r := Grown(own, head, target);
      var kept := |r| - 1;
      assert kept <= Guarded(|own|, target);
      assert r[1..] == own[..kept];
      forall i, j | 0 <= i < j < |r|
        ensures r[i] != r[j]
      {
        assert r[j] == own[..kept][j - 1];
        if i > 0 {
          assert r[i] == own[..kept][i - 1];
        } else {
          assert r[j] in own[..Guarded(|own|, target)];
        }
      }
    }
  }
}
