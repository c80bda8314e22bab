// The game's phases and its event table: the triggers and actions of the
// event list, changeState, the state-entry switch of extUpdate and the
// start-up of main.

module Game {
  import opened Grid
  import opened Sprites
  import opened Actors
  import opened Frames
  import opened Motion
  import Abilities
  import Dice
  import Mazes
  import Levels

  /** The phases of a game. */
  datatype VengeanceState = VsLevelStart | VsLevelPlay | VsVictory | VsDefeat | VsLeveling

  /** The states of the drop-down console. */
  datatype ConsoleState = CsUp | CsDown | CsMovingUp | CsMovingDown

  /** The keys the event list looks at. */
  datatype Key = Escape | Backquote | ArrowUp | ArrowDown | ArrowLeft | ArrowRight
               | Space | KeyN | KeyD | KeyP | KeyE | KeyB | KeyI | KeyC

  /** The keyboard in one frame: the keys held down (checkKey) and the
      keys that went down in this frame (checkPressDown). */
  datatype Keys = Keys(held: set<Key>, pressed: set<Key>)

  /** The texts of the help and status lines. */
  datatype Message = Blank | Tip(level: int) | DefeatHelp | LevelingHelp | VictoryStatus | DefeatStatus

  /** The size of the screen main sets up. */
  const ScreenW: int := 870
  const ScreenH: int := 675

  /** How far the help line starts across the screen, and how fast it
      scrolls (fractions of the screen per second). */
  const HelpStart: real := 0.8
  const ScrollSpeed: real := 0.3

  /** The seconds a phase lasts before it may end. */
  const PhaseSeconds: int := 3

  /** getMessage(level): the tip for levels 1 to 8, a blank line after. */
  function TipFor(level: int): (m: Message)
    ensures 1 <= level <= 8 <==> m == Tip(level)
    ensures !(1 <= level <= 8) <==> m == Blank
  {
    if 1 <= level <= 8 then Tip(level) else Blank
  }

  /** toggleConsoleTarg: a console that is down or coming down goes up,
      any other comes down. */
  function Toggled(c: ConsoleState): (d: ConsoleState)
    ensures d == CsMovingUp || d == CsMovingDown
    ensures d == CsMovingUp <==> (c == CsDown || c == CsMovingDown)
  {
    if c == CsDown || c == CsMovingDown then CsMovingUp else CsMovingDown
  }

  /** Toggling twice from rest or from motion leaves the console moving
      the way it was going, or set off the other way from where it lay. */
  lemma ToggledTwice(c: ConsoleState)
    ensures Toggled(Toggled(c)) == (if c == CsDown || c == CsMovingDown then CsMovingDown else CsMovingUp)
  {
  }

  // -------------------------------------------------------------------
  // Triggers

  /** endLevelStartupTrigger: the level start has lasted three seconds. */
  predicate StartupEnds(s: VengeanceState, elapsed: int) {
    s == VsLevelStart && elapsed >= PhaseSeconds
  }

  /** endLevelPlayWinTrigger: in play, Pacman is dead. */
  predicate PlayWon(s: VengeanceState, pacmanAlive: bool) {
    s == VsLevelPlay && !pacmanAlive
  }

  /** endLevelPlayLoseTrigger: in play, all four ghosts are dead. */
  predicate PlayLost(s: VengeanceState, ghostsAlive: seq<bool>)
    requires |ghostsAlive| == 4
  {
    s == VsLevelPlay && !ghostsAlive[0] && !ghostsAlive[1] && !ghostsAlive[2] && !ghostsAlive[3]
  }

  /** endVictoryTrigger: the victory has lasted three seconds. */
  predicate VictoryEnds(s: VengeanceState, elapsed: int) {
    s == VsVictory && elapsed >= PhaseSeconds
  }

  /** endDefeatTrigger: the defeat has lasted three seconds and the space
      bar went down. */
  predicate DefeatEnds(s: VengeanceState, elapsed: int, k: Keys) {
    s == VsDefeat && elapsed >= PhaseSeconds && Space in k.pressed
  }

  /** The key that levels up the ghost of type t: b, p, i and c. */
  function LevelKey(t: int): (key: Key)
    requires VRedG <= t <= VOrangeG
    ensures key in {KeyB, KeyP, KeyI, KeyC}
  {
    if t == VRedG then KeyB else if t == VPinkG then KeyP else if t == VBlueG then KeyI else KeyC
  }

  /** levelBlinkyTrigger and its kin: in the levelling phase, the ghost's
      key went down and the ghost is alive. */
  predicate LevelsUp(s: VengeanceState, t: int, k: Keys, alive: bool)
    requires VRedG <= t <= VOrangeG
  {
    s == VsLeveling && LevelKey(t) in k.pressed && alive
  }

  /** pressE: the ability key counts only in play. */
  predicate AbilityKey(s: VengeanceState, k: Keys) {
    s == VsLevelPlay && KeyE in k.pressed
  }

  /** The arrow key for each direction. */
  function ArrowOf(d: MazeDirection): (key: Key)
    requires d != None
    ensures key in {ArrowUp, ArrowDown, ArrowLeft, ArrowRight}
  {
    match d
    case Up => ArrowUp
    case Down => ArrowDown
    case Left => ArrowLeft
    case Right => ArrowRight
  }

  /** The phase each phase may change to: the start gives way to play,
      play ends in victory or defeat, a victory leads to the levelling
      and the levelling and a defeat to a new level's start. */
  predicate Follows(s: VengeanceState, t: VengeanceState) {
    match s
    case VsLevelStart => t == VsLevelPlay
    case VsLevelPlay => t == VsVictory || t == VsDefeat
    case VsVictory => t == VsLeveling
    case VsDefeat => t == VsLevelStart
    case VsLeveling => t == VsLevelStart
  }

  /** Each trigger of a phase change holds only in its own phase; the
      ability key only in play. */
  lemma TriggersInPhase(s: VengeanceState, elapsed: int, k: Keys, pacmanAlive: bool, ghostsAlive: seq<bool>, t: int, alive: bool)
    requires |ghostsAlive| == 4 && VRedG <= t <= VOrangeG
    ensures StartupEnds(s, elapsed) ==> s == VsLevelStart && Follows(s, VsLevelPlay)
    ensures PlayWon(s, pacmanAlive) ==> s == VsLevelPlay && Follows(s, VsVictory)
    ensures PlayLost(s, ghostsAlive) ==> s == VsLevelPlay && Follows(s, VsDefeat)
    ensures VictoryEnds(s, elapsed) ==> s == VsVictory && Follows(s, VsLeveling)
    ensures DefeatEnds(s, elapsed, k) ==> s == VsDefeat && Follows(s, VsLevelStart)
    ensures LevelsUp(s, t, k, alive) ==> s == VsLeveling && Follows(s, VsLevelStart)
    ensures AbilityKey(s, k) ==> s == VsLevelPlay
  {
  }

  /** No phase follows itself, and from every phase the start of a level
      is at most three changes away. */
  lemma FollowsCycle(s: VengeanceState)
    ensures !Follows(s, s)
    ensures || s == VsLevelStart
            || Follows(s, VsLevelStart)
            || (Follows(s, VsLeveling) && Follows(VsLeveling, VsLevelStart))
            || (Follows(s, VsDefeat) && Follows(VsDefeat, VsLevelStart))
            || (Follows(s, VsVictory) && Follows(VsVictory, VsLeveling) && Follows(VsLeveling, VsLevelStart))
  {
  }

  /** When Pacman and the last ghost die in the same frame, both ways out
      of play are triggered at once; which one wins depends on the order in
      which the event list checks them, which is not part of this model. */
  lemma BothEndsAtOnce()
    ensures PlayWon(VsLevelPlay, false) && PlayLost(VsLevelPlay, [false, false, false, false])
  {
  }

  // -------------------------------------------------------------------
  // The game

  class Session {
    var currState: VengeanceState
    var prevState: VengeanceState
    var lastStateChange: int
    var isLooping: bool
    var console: ConsoleState
    var showHelpMsg: bool
    var showStatusMsg: bool
    var helpMsg: Message
    var statusMsg: Message
    var helpMsgX: real
    const maze: Mazes.Maze
    const ghostTip: Sprites.Sprite

    ghost predicate Valid()
      reads this, maze, maze.die, maze.pacman.sprite, maze.blinky.sprite, maze.pinky.sprite
      reads maze.inky.sprite, maze.clyde.sprite
    {
      maze.Valid()
    }

    /** The game's own globals, as one value. */
    ghost function Globals(): (VengeanceState, VengeanceState, int, bool, ConsoleState, bool, bool, Message, Message, real)
      reads this
    {
      (currState, prevState, lastStateChange, isLooping, console, showHelpMsg, showStatusMsg, helpMsg, statusMsg, helpMsgX)
    }

    /** main's globals once the maze and the tip sprite are built: the
        previous state is set to a defeat and the state changed to a
        level's start, at time now; the game loop is on, both message
        lines are hidden and blank, and the console starts up (its initial
        state belongs to the engine). */
    constructor (m: Mazes.Maze, tip: Sprites.Sprite, now: int)
      ensures maze == m && ghostTip == tip
      ensures currState == VsLevelStart && prevState == VsDefeat && lastStateChange == now
      ensures isLooping && console == CsUp && !showHelpMsg && !showStatusMsg
      ensures helpMsg == Blank && statusMsg == Blank && helpMsgX == 0.0
    {
      maze, ghostTip := m, tip;
      currState, prevState, lastStateChange := VsLevelStart, VsDefeat, now;
      isLooping, console := true, CsUp;
      showHelpMsg, showStatusMsg := false, false;
      helpMsg, statusMsg, helpMsgX := Blank, Blank, 0.0;
    }

    /** main's maze and tip sprite: vMaze(), its first newLevel at level 1
        (no reset, unpaused), then the tip sprite facing right, whose two
        draws leave that level as it was.  The maze's clock stamp and the
        stream of rand() outputs are parameters. */
    static method FirstMaze(now: int, stamp: int, ds: seq<int>)
      returns (m: Mazes.Maze, tip: Sprites.Sprite, ghost b: Levels.Board, ghost r0: seq<Status>)
      requires forall i :: 0 <= i < |ds| ==> Dice.IsDraw(ds[i])
      ensures m.Valid() && fresh(m) && fresh(m.die)
      ensures fresh(m.pacman) && fresh(m.blinky) && fresh(m.pinky) && fresh(m.inky) && fresh(m.clyde)
      ensures fresh(m.pacman.sprite) && fresh(m.blinky.sprite) && fresh(m.pinky.sprite)
      ensures fresh(m.inky.sprite) && fresh(m.clyde.sprite)
      ensures m.level == 1 && !m.isPaused
      ensures m.Made(b, r0, Dice.Drop(ds, 13), false, ScreenW, ScreenH)
      ensures fresh(tip) && tip.state == SsRight2 && tip.kind == VPacman
    {
      m := EmptyMaze(now, stamp, ds);
      tip, b, r0 := FirstLevel(m, Dice.Drop(ds, 13));
    }

    /** The first newLevel of main on a maze whose die has the stream ds
        to come, then the tip sprite. */
    static method FirstLevel(m: Mazes.Maze, ghost ds: seq<int>) returns (tip: Sprites.Sprite, ghost b: Levels.Board, ghost r0: seq<Status>)
      requires m.Valid() && m.die.draws == ds
      modifies m, m.die, m.pacman, m.blinky, m.pinky, m.inky, m.clyde
      modifies m.pacman.sprite, m.blinky.sprite, m.pinky.sprite, m.inky.sprite, m.clyde.sprite
      ensures m.Valid() && m.level == old(m.level) + 1 && m.isPaused == old(m.isPaused)
      ensures m.Made(b, r0, ds, false, ScreenW, ScreenH)
      ensures fresh(tip) && tip.state == SsRight2 && tip.kind == VPacman
    {
      r0 := m.Roster();
      b := m.NextLevel(false, ScreenW, ScreenH);
      tip := TipOn(m, b, r0, ds);
    }

    /** vMaze(), as far as main relies on it. */
    static method EmptyMaze(now: int, stamp: int, ds: seq<int>) returns (m: Mazes.Maze)
      requires forall i :: 0 <= i < |ds| ==> Dice.IsDraw(ds[i])
      ensures m.Valid() && fresh(m) && fresh(m.die)
      ensures fresh(m.pacman) && fresh(m.blinky) && fresh(m.pinky) && fresh(m.inky) && fresh(m.clyde)
      ensures fresh(m.pacman.sprite) && fresh(m.blinky.sprite) && fresh(m.pinky.sprite)
      ensures fresh(m.inky.sprite) && fresh(m.clyde.sprite)
      ensures m.level == 0 && !m.isPaused && m.die.draws == Dice.Drop(ds, 13)
    {
      m := new Mazes.Maze(now, stamp, ds);
    }

    /** The tip sprite built on the maze's die right after its first
        level: the two draws it takes leave that level as it was. */
    static method TipOn(m: Mazes.Maze, ghost b: Levels.Board, ghost r0: seq<Status>, ghost ds: seq<int>)
      returns (tip: Sprites.Sprite)
      requires m.Valid() && m.Made(b, r0, ds, false, ScreenW, ScreenH)
      modifies m.die
      ensures m.Valid() && m.Made(b, r0, ds, false, ScreenW, ScreenH)
      ensures Dice.Drew(m.die, old(m.die.draws), old(m.die.exhausted), 2)
      ensures fresh(tip) && tip.state == SsRight2 && tip.kind == VPacman
    {
      tip := NewTip(m.die);
      assert m.squares[..] == old(m.squares[..]);
    }

    /** The tip sprite of main: a vSprite, whose own Dice takes a draw and
        whose time seed takes another, turned to face right. */
    static method NewTip(d: Dice.Die) returns (tip: Sprites.Sprite)
      requires d.Valid()
      modifies d
      ensures d.Valid() && Dice.Drew(d, old(d.draws), old(d.exhausted), 2)
      ensures fresh(tip) && tip.state == SsRight2 && tip.kind == VPacman
    {
      ghost var ds, e := d.draws, d.exhausted;
      d.Restart();
      var r := d.Next();
      Dice.DrewMore(ds, e, 1, 1);
      tip := new Sprites.Sprite(r);
      tip.SetState(SsRight2);
    }

    /** main's start-up and the first extUpdate of the game loop: the
        first level played is a reset level, level 1 with every ghost back
        at ability level 0, paused at its start.  The maze's update, which
        the loop runs before extUpdate, is left out here.  The new level
        that extUpdate makes rewrites the grid, the items, the level, the
        points and the actors' places, speeds and modes; what it does not
        rewrite, such as Pacman's waypoint and sprite state, keeps here
        the value vMaze() gave it. */
    static method Launch(now: int, stamp: int, ds: seq<int>, dt: real) returns (g: Session)
      requires forall i :: 0 <= i < |ds| ==> Dice.IsDraw(ds[i])
      ensures g.Valid() && g.currState == g.prevState == VsLevelStart && g.lastStateChange == now
      ensures g.maze.level == 1 && g.maze.isPaused
      ensures forall j :: 1 <= j < 5 ==> g.maze.Roster()[j].level == 0
      ensures g.showHelpMsg && g.helpMsg == TipFor(1) && !g.showStatusMsg
      ensures exists b, r0, ds0 :: g.maze.Made(b, r0, ds0, true, ScreenW, ScreenH)
    {
      var m, tip, _, _ := FirstMaze(now, stamp, ds);
      g := new Session(m, tip, now);
      ghost var r0, ds0 := g.maze.Roster(), g.maze.die.draws;
      ghost var b := g.ExtUpdate(dt);
      assert g.maze.Made(b, r0, ds0, true, ScreenW, ScreenH);
    }

    /** changeState(newState), with `now` the time it reads. */
    method ChangeState(newState: VengeanceState, now: int)
      modifies this
      ensures currState == newState && lastStateChange == now
      ensures prevState == old(prevState) && isLooping == old(isLooping) && console == old(console)
      ensures showHelpMsg == old(showHelpMsg) && showStatusMsg == old(showStatusMsg)
      ensures helpMsg == old(helpMsg) && statusMsg == old(statusMsg) && helpMsgX == old(helpMsgX)
    {
      currState := newState;
      lastStateChange := now;
    }

    // -----------------------------------------------------------------
    // extUpdate

    /** extUpdate(dt): on the frame the state changed, run the new
        state's entry; then remember the state, and scroll the help line
        while it shows. */
    method ExtUpdate(dt: real) returns (ghost b: Levels.Board)
      requires Valid()
      modifies this, maze, maze.die, maze.pacman, maze.blinky, maze.pinky, maze.inky, maze.clyde
      modifies maze.pacman.sprite, maze.blinky.sprite, maze.pinky.sprite, maze.inky.sprite, maze.clyde.sprite
      ensures Valid()
      ensures prevState == currState == old(currState) && lastStateChange == old(lastStateChange)
      ensures isLooping == old(isLooping) && console == old(console)
      ensures old(prevState) == old(currState) ==>
        && unchanged(maze) && unchanged(maze.die, maze.pacman, maze.blinky, maze.pinky, maze.inky, maze.clyde)
        && unchanged(maze.pacman.sprite, maze.blinky.sprite, maze.pinky.sprite, maze.inky.sprite, maze.clyde.sprite)
        && maze.Roster() == old(maze.Roster())
        && showHelpMsg == old(showHelpMsg) && showStatusMsg == old(showStatusMsg)
        && helpMsg == old(helpMsg) && statusMsg == old(statusMsg)
      ensures old(prevState) != old(currState) ==> Entered(old(currState), old(prevState), old(maze.level))
      ensures old(prevState) != old(currState) == VsLevelStart ==> forall j :: 1 <= j < 5 ==>
        maze.Roster()[j].level == (if old(prevState) == VsDefeat then 0 else old(maze.Roster())[j].level)
      ensures old(prevState) != old(currState) == VsLevelStart ==>
        maze.Made(b, old(maze.Roster()), old(maze.die.draws), old(prevState) == VsDefeat, ScreenW, ScreenH)
      ensures old(prevState) != old(currState) && old(currState) != VsLevelStart ==>
        && maze.Setting() == old(maze.Setting()) && maze.Roster() == old(maze.Roster())
        && unchanged(maze.die, maze.pacman, maze.blinky, maze.pinky, maze.inky, maze.clyde)
        && unchanged(maze.pacman.sprite, maze.blinky.sprite, maze.pinky.sprite, maze.inky.sprite, maze.clyde.sprite)
      ensures helpMsgX == (if showHelpMsg then Entry(old(prevState), old(currState), old(helpMsgX)) - dt * ScrollSpeed
                           else Entry(old(prevState), old(currState), old(helpMsgX)))
    {
      b := Levels.Board(0, 0, [], 0, (0, 0));
      if prevState != currState {
        b := EnterState(currState, prevState);
      }
      label EntryDone:
      CatchUp(dt);
      assert maze.squares[..] == old@EntryDone(maze.squares[..]);
      assert maze.Roster() == old@EntryDone(maze.Roster());
    }

    /** The end of extUpdate: the previous state catches up, and the help
        line scrolls by dt times the scroll speed while it shows. */
    method CatchUp(dt: real)
      modifies this
      ensures prevState == currState
      ensures helpMsgX == if showHelpMsg then old(helpMsgX) - dt * ScrollSpeed else old(helpMsgX)
      ensures Globals() == old(Globals()).(1 := prevState, 9 := helpMsgX)
    {
      prevState := currState;
      if showHelpMsg {
        helpMsgX := helpMsgX - dt * ScrollSpeed;
      }
    }

    /** Where the help line starts after the entry from p to s, if any:
        the entries into a level's start, a defeat and the levelling put it
        back at its start. */
    static function Entry(p: VengeanceState, s: VengeanceState, x: real): real {
      if p != s && s in {VsLevelStart, VsDefeat, VsLeveling} then HelpStart else x
    }

    /** What the entry into s (from p, with the maze at level n) leaves
        behind: a level's start makes a new level (a reset one after a
        defeat) and pauses; a victory, a defeat and the levelling pause;
        play unpauses; and each sets its help and status lines. */
    ghost predicate Entered(s: VengeanceState, p: VengeanceState, n: int)
      reads this, maze
    {
      match s
      case VsLevelStart =>
        && maze.level == (if p == VsDefeat then 1 else n + 1) && maze.isPaused
        && showHelpMsg && helpMsg == TipFor(maze.level) && !showStatusMsg
      case VsVictory =>
        maze.isPaused && !showHelpMsg && showStatusMsg && statusMsg == VictoryStatus && maze.level == n
      case VsDefeat =>
        && maze.isPaused && showHelpMsg && helpMsg == DefeatHelp
        && showStatusMsg && statusMsg == DefeatStatus && maze.level == n
      case VsLeveling =>
        maze.isPaused && showHelpMsg && helpMsg == LevelingHelp && !showStatusMsg && maze.level == n
      case VsLevelPlay =>
        !maze.isPaused && showHelpMsg && helpMsg == TipFor(maze.level) && !showStatusMsg && maze.level == n
    }

    /** The switch of extUpdate for the state s entered from p. */
    method EnterState(s: VengeanceState, p: VengeanceState) returns (ghost b: Levels.Board)
      requires Valid()
      modifies this, maze, maze.die, maze.pacman, maze.blinky, maze.pinky, maze.inky, maze.clyde
      modifies maze.pacman.sprite, maze.blinky.sprite, maze.pinky.sprite, maze.inky.sprite, maze.clyde.sprite
      ensures Valid() && Entered(s, p, old(maze.level))
      ensures currState == old(currState) && prevState == old(prevState) && lastStateChange == old(lastStateChange)
      ensures isLooping == old(isLooping) && console == old(console)
      ensures helpMsgX == (if s in {VsLevelStart, VsDefeat, VsLeveling} then HelpStart else old(helpMsgX))
      ensures s == VsLevelStart ==> forall j :: 1 <= j < 5 ==>
        maze.Roster()[j].level == (if p == VsDefeat then 0 else old(maze.Roster())[j].level)
      ensures s == VsLevelStart ==> maze.Made(b, old(maze.Roster()), old(maze.die.draws), p == VsDefeat, ScreenW, ScreenH)
      ensures s != VsLevelStart ==> (unchanged(maze.die, maze.pacman, maze.blinky, maze.pinky, maze.inky, maze.clyde) &&
        unchanged(maze.pacman.sprite, maze.blinky.sprite, maze.pinky.sprite, maze.inky.sprite, maze.clyde.sprite))
      ensures s != VsLevelStart ==> maze.Setting() == old(maze.Setting())
    {
      if s == VsLevelStart {
        b := EnterLevelStart(p == VsDefeat);
      } else {
        b := Levels.Board(0, 0, [], 0, (0, 0));
        EnterPause(s);
      }
    }

    /** Entering a level's start: newLevel (reset after a defeat), pause,
        and the level's tip on the help line. */
    method EnterLevelStart(reset: bool) returns (ghost b: Levels.Board)
      requires Valid()
      modifies this, maze, maze.die, maze.pacman, maze.blinky, maze.pinky, maze.inky, maze.clyde
      modifies maze.pacman.sprite, maze.blinky.sprite, maze.pinky.sprite, maze.inky.sprite, maze.clyde.sprite
      ensures Valid() && maze.level == (if reset then 1 else old(maze.level) + 1) && maze.isPaused
      ensures showHelpMsg && helpMsg == TipFor(maze.level) && !showStatusMsg && helpMsgX == HelpStart
      ensures statusMsg == old(statusMsg)
      ensures currState == old(currState) && prevState == old(prevState) && lastStateChange == old(lastStateChange)
      ensures isLooping == old(isLooping) && console == old(console)
      ensures forall j :: 1 <= j < 5 ==> maze.Roster()[j].level == (if reset then 0 else old(maze.Roster())[j].level)
      ensures maze.Made(b, old(maze.Roster()), old(maze.die.draws), reset, ScreenW, ScreenH)
    {
      ShowTip(if reset then 1 else maze.level + 1);
      b := maze.StartLevel(reset, ScreenW, ScreenH);
    }

    /** The help line shows the tip of level n from its start, and the
        status line is hidden. */
    method ShowTip(n: int)
      modifies this
      ensures showHelpMsg && helpMsg == TipFor(n) && !showStatusMsg && helpMsgX == HelpStart
      ensures Globals() == old(Globals()).(5 := true, 6 := false, 7 := TipFor(n), 9 := HelpStart)
    {
      showHelpMsg, helpMsgX, helpMsg, showStatusMsg := true, HelpStart, TipFor(n), false;
    }

    /** Entering any other state: the maze pauses, or for play unpauses,
        and the help and status lines change; nothing else of the maze
        does. */
    method EnterPause(s: VengeanceState)
      requires Valid() && s != VsLevelStart
      modifies this, maze
      ensures Valid() && Entered(s, VsLevelStart, old(maze.level))
      ensures currState == old(currState) && prevState == old(prevState) && lastStateChange == old(lastStateChange)
      ensures isLooping == old(isLooping) && console == old(console)
      ensures helpMsgX == (if s in {VsDefeat, VsLeveling} then HelpStart else old(helpMsgX))
      ensures maze.Setting() == old(maze.Setting())
    {
      if s == VsLevelPlay {
        maze.Unpause();
        showHelpMsg, helpMsg, showStatusMsg := true, TipFor(maze.level), false;
      } else {
        maze.Pause();
        ShowPaused(s);
      }
    }

    /** The help and status lines of a victory, a defeat or the
        levelling. */
    method ShowPaused(s: VengeanceState)
      requires s in {VsVictory, VsDefeat, VsLeveling}
      modifies this
      ensures currState == old(currState) && prevState == old(prevState) && lastStateChange == old(lastStateChange)
      ensures isLooping == old(isLooping) && console == old(console)
      ensures s == VsVictory ==> !showHelpMsg && showStatusMsg && statusMsg == VictoryStatus && helpMsgX == old(helpMsgX)
      ensures s == VsDefeat ==> showHelpMsg && helpMsg == DefeatHelp && showStatusMsg && statusMsg == DefeatStatus && helpMsgX == HelpStart
      ensures s == VsLeveling ==> showHelpMsg && helpMsg == LevelingHelp && !showStatusMsg && helpMsgX == HelpStart
    {
      if s == VsVictory {
        showHelpMsg, showStatusMsg, statusMsg := false, true, VictoryStatus;
      } else if s == VsDefeat {
        showHelpMsg, helpMsg, helpMsgX := true, DefeatHelp, HelpStart;
        showStatusMsg, statusMsg := true, DefeatStatus;
      } else {
        showHelpMsg, helpMsg, helpMsgX, showStatusMsg := true, LevelingHelp, HelpStart, false;
      }
    }

    // -----------------------------------------------------------------
    // The event list: each trigger with its action

    /** quitTrig / quitTarg: escape held stops the game loop. */
    method Quit(k: Keys)
      modifies this
      ensures isLooping == (old(isLooping) && Escape !in k.held)
      ensures Globals() == old(Globals()).(3 := isLooping)
    {
      if Escape in k.held {
        isLooping := false;
      }
    }

    /** toggleConsoleTrig / toggleConsoleTarg. */
    method ToggleConsole(k: Keys)
      modifies this
      ensures console == (if Backquote in k.pressed then Toggled(old(console)) else old(console))
      ensures Globals() == old(Globals()).(4 := console)
    {
      if Backquote in k.pressed {
        console := Toggled(console);
      }
    }

    /** arrowUp / moveUp and the other three: while the arrow for d is
        held, turnActor turns the current selection (getSelection, which
        selects Pacman when no one is) toward d. */
    method Steer(k: Keys, d: MazeDirection)
      requires Valid() && d != None
      requires ArrowOf(d) in k.held ==> maze.OnGrid(maze.ActorByType(Abilities.Selection(maze.Roster()).0))
      modifies maze.pacman, maze.pacman.sprite, maze.blinky.sprite, maze.pinky.sprite, maze.inky.sprite, maze.clyde.sprite
      ensures Valid()
      ensures ArrowOf(d) !in k.held ==> maze.Roster() == old(maze.Roster())
      ensures ArrowOf(d) in k.held ==>
        var sel := Abilities.Selection(old(maze.Roster()));
        var a := maze.ActorByType(sel.0);
        maze.Roster() == sel.1[sel.0 := sel.1[sel.0].(pose :=
          Turned(old(PoseOf(a.sprite)), d, old(maze.SquareOf(a)), old(maze.CentreX(a)), old(maze.CentreY(a)), a.velocity))]
    {
      if ArrowOf(d) in k.held {
        maze.Separated();
        var a := maze.GetSelection();
        maze.RosterAt(a.sprite.kind);
        label Chosen:
        maze.TurnActor(a, d);
        maze.RosterStep@Chosen(a.sprite.kind);
      }
    }

    /** pressSpacebar / toggleSelection: rotateSelection. */
    method Rotate(k: Keys)
      requires Valid()
      modifies maze.pacman, maze.blinky, maze.pinky, maze.inky, maze.clyde
      ensures Valid()
      ensures maze.Roster() == if Space in k.pressed then Abilities.Rotated(old(maze.Roster())) else old(maze.Roster())
    {
      if Space in k.pressed {
        maze.RotateSelection();
      }
    }

    /** pressN / newMaze: newLevel without a reset, in any state. */
    method NewMaze(k: Keys) returns (ghost b: Levels.Board)
      requires Valid()
      modifies maze, maze.die, maze.pacman, maze.blinky, maze.pinky, maze.inky, maze.clyde
      modifies maze.pacman.sprite, maze.blinky.sprite, maze.pinky.sprite, maze.inky.sprite, maze.clyde.sprite
      ensures Valid() && maze.isPaused == old(maze.isPaused)
      ensures maze.level == if KeyN in k.pressed then old(maze.level) + 1 else old(maze.level)
      ensures KeyN in k.pressed ==> maze.Made(b, old(maze.Roster()), old(maze.die.draws), false, ScreenW, ScreenH)
      ensures KeyN !in k.pressed ==> maze.Setting() == old(maze.Setting()) && maze.Roster() == old(maze.Roster())
    {
      b := Levels.Board(0, 0, [], 0, (0, 0));
      if KeyN in k.pressed {
        b := maze.NextLevel(false, ScreenW, ScreenH);
      }
    }

    /** checkSndN / playSndN for N in 1..8: a raised flag is lowered once
        its sound is played.  Flag 8 is the maze's flag 0, which
        setSoundFlag and getSoundFlag use for any index past the last. */
    method PlaySound(n: int)
      requires Valid() && 1 <= n <= 8
      modifies maze.soundFlags
      ensures Valid()
      ensures maze.soundFlags[..] ==
        if old(maze.GetSoundFlag(n)) then old(maze.soundFlags[..])[SlotOf(n) := false] else old(maze.soundFlags[..])
      ensures !maze.GetSoundFlag(n)
    {
      if maze.GetSoundFlag(n) {
        maze.SetSoundFlag(n, false);
      }
    }

    /** The flag the maze keeps for sound n. */
    static function SlotOf(n: int): (k: int)
      ensures 0 <= k < NumEffects
      ensures 0 <= n < NumEffects ==> k == n
    {
      if 0 <= n < NumEffects then n else 0
    }

    /** pressP / togglePaused, in any state. */
    method TogglePaused(k: Keys)
      requires Valid()
      modifies maze
      ensures Valid() && maze.isPaused == (old(maze.isPaused) != (KeyP in k.pressed))
      ensures maze.level == old(maze.level) && maze.Setting() == old(maze.Setting())
    {
      if KeyP in k.pressed {
        if maze.isPaused {
          maze.Unpause();
        } else {
          maze.Pause();
        }
      }
    }

    /** pressE / executeAbility: in play, the current selection's ability
        (getSelection first), and sound 8 when it fires. */
    method UseAbility(k: Keys, now: int)
      requires Valid()
      modifies maze.pacman, maze.blinky, maze.pinky, maze.inky, maze.clyde, maze.die, maze.soundFlags
      modifies maze.pacman.sprite, maze.blinky.sprite, maze.pinky.sprite, maze.inky.sprite, maze.clyde.sprite
      ensures Valid()
      ensures !AbilityKey(currState, k) ==> maze.Roster() == old(maze.Roster()) && unchanged(maze.die, maze.soundFlags)
      ensures AbilityKey(currState, k) ==>
        var sel := Abilities.Selection(old(maze.Roster()));
        var o := Abilities.Ability(maze.Geometry(), sel.1, sel.0, now, old(maze.die.draws), old(maze.die.exhausted));
        && maze.Roster() == o.roster
        && Dice.Drew(maze.die, old(maze.die.draws), old(maze.die.exhausted), o.draws)
        && maze.soundFlags[..] == (if o.fired then old(maze.soundFlags[..])[0 := true] else old(maze.soundFlags[..]))
    {
      if AbilityKey(currState, k) {
        var fired := maze.SelectedAbility(now);
        ghost var r := maze.Roster();
        if fired {
          maze.SetSoundFlag(8, true);
        }
        assert maze.Roster() == r;
      }
    }

    /** endLevelStartupTrigger / endLevelStartupAction. */
    method EndLevelStartup(now: int)
      modifies this
      ensures var fires := StartupEnds(old(currState), now - old(lastStateChange));
        Globals() == if fires then old(Globals()).(0 := VsLevelPlay, 2 := now) else old(Globals())
    {
      if StartupEnds(currState, now - lastStateChange) {
        ChangeState(VsLevelPlay, now);
      }
    }

    /** endLevelPlayWinTrigger / endLevelPlayWinAction: the ghosts win
        the level once Pacman is dead. */
    method EndLevelPlayWin(now: int)
      modifies this
      ensures var fires := PlayWon(old(currState), maze.pacman.isAlive);
        Globals() == if fires then old(Globals()).(0 := VsVictory, 2 := now) else old(Globals())
    {
      if PlayWon(currState, maze.pacman.isAlive) {
        ChangeState(VsVictory, now);
      }
    }

    /** endLevelPlayLoseTrigger / endLevelPlayLoseAction: the ghosts lose
        once all four are dead. */
    method EndLevelPlayLose(now: int)
      modifies this
      ensures var fires := PlayLost(old(currState), GhostsAlive());
        Globals() == if fires then old(Globals()).(0 := VsDefeat, 2 := now) else old(Globals())
    {
      if PlayLost(currState, GhostsAlive()) {
        ChangeState(VsDefeat, now);
      }
    }

    /** Whether Blinky, Pinky, Inky and Clyde are alive. */
    function GhostsAlive(): (alive: seq<bool>)
      reads maze.blinky, maze.pinky, maze.inky, maze.clyde
      ensures |alive| == 4
    {
      [maze.blinky.isAlive, maze.pinky.isAlive, maze.inky.isAlive, maze.clyde.isAlive]
    }

    /** endVictoryTrigger / endVictoryAction. */
    method EndVictory(now: int)
      modifies this
      ensures var fires := VictoryEnds(old(currState), now - old(lastStateChange));
        Globals() == if fires then old(Globals()).(0 := VsLeveling, 2 := now) else old(Globals())
    {
      if VictoryEnds(currState, now - lastStateChange) {
        ChangeState(VsLeveling, now);
      }
    }

    /** endDefeatTrigger / endDefeatAction. */
    method EndDefeat(k: Keys, now: int)
      modifies this
      ensures var fires := DefeatEnds(old(currState), now - old(lastStateChange), k);
        Globals() == if fires then old(Globals()).(0 := VsLevelStart, 2 := now) else old(Globals())
    {
      if DefeatEnds(currState, now - lastStateChange, k) {
        ChangeState(VsLevelStart, now);
      }
    }

    /** levelBlinkyTrigger / levelBlinkyAction and their kin for the ghost
        of type t: levelUp, and on to the next level's start. */
    method LevelGhost(t: int, k: Keys, now: int)
      requires Valid() && VRedG <= t <= VOrangeG
      modifies this, maze.ActorByType(t)
      ensures Valid()
      ensures var fires := LevelsUp(old(currState), t, k, old(maze.Roster())[t].alive);
        && Globals() == (if fires then old(Globals()).(0 := VsLevelStart, 2 := now) else old(Globals()))
        && maze.Roster() == (if fires then old(maze.Roster())[t := old(maze.Roster())[t].(level := old(maze.Roster())[t].level + 1)]
                             else old(maze.Roster()))
    {
      maze.RosterAt(t);
      if LevelsUp(currState, t, k, maze.ActorByType(t).isAlive) {
        maze.LevelUpGhost(t);
        ChangeState(VsLevelStart, now);
      }
    }
  }
}
