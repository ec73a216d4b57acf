/**
 * The level-select screen (`LevelSelectScene`): a cursor over the unlocked
 * levels that moves one position left or right without wrapping, and a start
 * action that only ever launches an unlocked level.
 */
module LevelSelect {
  import opened Wrappers

  datatype Selector = Selector(unlockedLevels: seq<int>, selectedLevel: int)

  /** The scene changes the screen can ask for. */
  datatype SceneRequest = StartGame(level: int) | BackToMenu

  const FIRST_LEVEL: int := 1

  /** The position of `x` in `s`, if it occurs. */
  function IndexOf(s: seq<int>, x: int): (r: Option<nat>)
    ensures r.None? <==> x !in s
    ensures r.Some? ==> r.value < |s| && s[r.value] == x
    ensures r.Some? ==> forall j :: 0 <= j < r.value ==> s[j] != x
  {
    if |s| == 0 then None
    else if s[0] == x then Some(0)
    else match IndexOf(s[1..], x)
      case None => None
      case Some(i) => Some(i + 1)
  }

  /**
   * `create`: the unlocked levels come from the saved progress, and level 1
   * alone when nothing is saved; the cursor starts on the first unlocked level.
   */
  function Create(saved: Option<seq<int>>): (r: Selector)
    ensures |r.unlockedLevels| > 0
    ensures r.selectedLevel == r.unlockedLevels[0]
    ensures saved.Some? && |saved.value| > 0 ==> r.unlockedLevels == saved.value
    ensures saved.None? ==> r.unlockedLevels == [1] && r.selectedLevel == 1
  {
    var unlocked := if saved.Some? && |saved.value| > 0 then saved.value else [FIRST_LEVEL];
    Selector(unlocked, unlocked[0])
  }

  /**
   * `navigateLevel(direction)`: moves the cursor `direction` positions along
   * the unlocked list; a move that would leave the list, or a cursor not on
   * an unlocked level, leaves the selection where it is.
   */
  function NavigateLevel(s: Selector, direction: int): (r: Selector)
    ensures r.unlockedLevels == s.unlockedLevels
    ensures s.selectedLevel in s.unlockedLevels ==> r.selectedLevel in r.unlockedLevels
    ensures s.selectedLevel !in s.unlockedLevels ==> r == s
    ensures direction == 0 ==> r == s
    ensures |s.unlockedLevels| == 1 ==> r == s
  {
    match IndexOf(s.unlockedLevels, s.selectedLevel)
    case None => s
    case Some(i) =>
      var j := i + direction;
      if 0 <= j < |s.unlockedLevels| then s.(selectedLevel := s.unlockedLevels[j]) else s
  }

  /** `startLevel(level)`: a request to start the game scene, for an unlocked level only. */
  function StartLevel(s: Selector, level: int): (r: Option<SceneRequest>)
    ensures r.Some? <==> level in s.unlockedLevels
    ensures r.Some? ==> r.value == StartGame(level)
  {
    if level in s.unlockedLevels then Some(StartGame(level)) else None
  }

  /** `goBack`: always returns to the main menu. */
  function GoBack(s: Selector): (r: SceneRequest)
    ensures !r.StartGame?
  {
    BackToMenu
  }

  // ---------------------------------------------------------------------
  // Navigation over a sorted list of unlocked levels
  // ---------------------------------------------------------------------

  predicate StrictlyIncreasing(s: seq<int>) {
    forall i, j :: 0 <= i < j < |s| ==> s[i] < s[j]
  }

  /**
   * On a sorted list, one step right selects the smallest unlocked level
   * above the current one (skipping locked levels), and stays put at the top.
   */
  lemma NextIsSuccessor(s: Selector)
    requires StrictlyIncreasing(s.unlockedLevels)
    requires s.selectedLevel in s.unlockedLevels
    ensures var r := NavigateLevel(s, 1).selectedLevel;
      && ((exists x :: x in s.unlockedLevels && x > s.selectedLevel) ==>
            && r in s.unlockedLevels
            && r > s.selectedLevel
            && forall x :: x in s.unlockedLevels && s.selectedLevel < x ==> r <= x)
      && ((forall x :: x in s.unlockedLevels ==> x <= s.selectedLevel) ==> r == s.selectedLevel)
  {
    var i := IndexOf(s.unlockedLevels, s.selectedLevel).value;
    if i + 1 < |s.unlockedLevels| {
      NextAbove(s.unlockedLevels, i);
    } else {
      LastIsTop(s.unlockedLevels, i);
    }
  }

  /** In a sorted list the entry after position `i` is the least value above `u[i]`. */
  lemma NextAbove(u: seq<int>, i: nat)
    requires StrictlyIncreasing(u) && i + 1 < |u|
    ensures u[i + 1] in u && u[i + 1] > u[i]
    ensures forall y :: y in u && u[i] < y ==> u[i + 1] <= y
  {
    forall y | y in u && u[i] < y
      ensures u[i + 1] <= y
    {
      var m :| 0 <= m < |u| && u[m] == y;
      if m > i + 1 { assert u[i + 1] < u[m]; }
    }
  }

  /** In a sorted list the last entry is the largest. */
  lemma LastIsTop(u: seq<int>, i: nat)
    requires StrictlyIncreasing(u) && i + 1 == |u|
    ensures forall y :: y in u ==> y <= u[i]
  {
    forall y | y in u
      ensures y <= u[i]
    {
      var m :| 0 <= m < |u| && u[m] == y;
      if m < i { assert u[m] < u[i]; }
    }
  }

  /**
   * On a sorted list, one step left selects the largest unlocked level
   * below the current one, and stays put at the bottom.
   */
  lemma PreviousIsPredecessor(s: Selector)
    requires StrictlyIncreasing(s.unlockedLevels)
    requires s.selectedLevel in s.unlockedLevels
    ensures var r := NavigateLevel(s, -1).selectedLevel;
      && ((exists x :: x in s.unlockedLevels && x < s.selectedLevel) ==>
            && r in s.unlockedLevels
            && r < s.selectedLevel
            && forall x :: x in s.unlockedLevels && x < s.selectedLevel ==> x <= r)
      && ((forall x :: x in s.unlockedLevels ==> s.selectedLevel <= x) ==> r == s.selectedLevel)
  {
    var i := IndexOf(s.unlockedLevels, s.selectedLevel).value;
    if i > 0 {
      PreviousBelow(s.unlockedLevels, i);
    } else {
      FirstIsBottom(s.unlockedLevels);
    }
  }

  /** In a sorted list the entry before position `i` is the greatest value below `u[i]`. */
  lemma PreviousBelow(u: seq<int>, i: nat)
    requires StrictlyIncreasing(u) && 0 < i < |u|
    ensures u[i - 1] in u && u[i - 1] < u[i]
    ensures forall y :: y in u && y < u[i] ==> y <= u[i - 1]
  {
    forall y | y in u && y < u[i]
      ensures y <= u[i - 1]
    {
      var m :| 0 <= m < |u| && u[m] == y;
      if m < i - 1 { assert u[m] < u[i - 1]; }
    }
  }

  /** In a sorted list the first entry is the smallest. */
  lemma FirstIsBottom(u: seq<int>)
    requires StrictlyIncreasing(u) && 0 < |u|
    ensures forall y :: y in u ==> u[0] <= y
  {
    forall y | y in u
      ensures u[0] <= y
    {
      var m :| 0 <= m < |u| && u[m] == y;
      if m > 0 { assert u[0] < u[m]; }
    }
  }

  /**
   * Any run of left and right moves keeps the cursor on an unlocked level,
   * so `startLevel` of the selection always starts a game.
   */
  lemma {:induction false} SelectionStaysUnlocked(s: Selector, moves: seq<int>)
    requires s.selectedLevel in s.unlockedLevels
    ensures var r := Moves(s, moves);
      r.selectedLevel in r.unlockedLevels && StartLevel(r, r.selectedLevel) == Some(StartGame(r.selectedLevel))
    decreases |moves|
  {
    if |moves| > 0 {
      SelectionStaysUnlocked(NavigateLevel(s, moves[0]), moves[1..]);
    }
  }

  /** The selection after a run of `navigateLevel` calls. */
  function Moves(s: Selector, moves: seq<int>): Selector
    decreases |moves|
  {
    if |moves| == 0 then s else Moves(NavigateLevel(s, moves[0]), moves[1..])
  }

  /** With levels 1, 2, 3 and 5 unlocked: 1 → 2 and 3 → 5 going right, 3 → 2 going left, and no wrap at either end. */
  lemma SkipsLockedLevel()
    ensures NavigateLevel(Selector([1, 2, 3, 5], 1), 1).selectedLevel == 2
    ensures NavigateLevel(Selector([1, 2, 3, 5], 3), 1).selectedLevel == 5
    ensures NavigateLevel(Selector([1, 2, 3, 5], 3), -1).selectedLevel == 2
    ensures NavigateLevel(Selector([1, 2, 3, 5], 1), -1).selectedLevel == 1
    ensures NavigateLevel(Selector([1, 2, 3, 5], 5), 1).selectedLevel == 5
    ensures StartLevel(Selector([1, 2, 3], 5), 5).None?
  {
    var u := [1, 2, 3, 5];
    assert IndexOf(u, 1) == Some(0);
    AdjacentIncreasing(u);
    IndexAt(u, 3, 2);
    IndexAt(u, 5, 3);
  }

  /** A list whose neighbours increase is strictly increasing throughout. */
  lemma {:induction false} AdjacentIncreasing(u: seq<int>)
    requires forall i :: 0 <= i < |u| - 1 ==> u[i] < u[i + 1]
    ensures StrictlyIncreasing(u)
    decreases |u|
  {
    if |u| > 1 {
      AdjacentIncreasing(u[1..]);
      forall j | 0 < j < |u|
        ensures u[0] < u[j]
      {
        if j > 1 { assert u[1..][0] < u[1..][j - 1]; }
      }
      forall i, j | 0 <= i < j < |u|
        ensures u[i] < u[j]
      {
        if i > 0 { assert u[1..][i - 1] < u[1..][j - 1]; }
      }
    }
  }

  /** In a list of distinct levels, the level at position `k` is found at `k`. */
  lemma IndexAt(u: seq<int>, x: int, k: nat)
    requires StrictlyIncreasing(u)
    requires k < |u| && u[k] == x
    ensures IndexOf(u, x) == Some(k)
  {
    var j := IndexOf(u, x).value;
    if j != k {
      assert false;
    }
  }
}
