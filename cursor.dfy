/**
 * The cursor both menus keep: an integer `selected` that the "up"/"k" and
 * "down"/"j" handlers move with `max`/`min` clamping, left by "enter"
 * (with the cursor) or by "escape"/Ctrl-C (with `None`). The menu
 * application is fed a finite sequence of key presses; when they run out
 * before an exit key, the application is still waiting.
 */
module Cursor {

  /** The bound keys, two names each for the moves and escape; `Other` is any unbound key. */
  datatype Key = Up | Down | Enter | Escape | Other

  /** How the application ended: `event.app.exit(result=...)`, or not yet. */
  datatype Exit = Chosen(index: int) | Cancelled | Pending

  /** The exit, how many keys were consumed, and where the cursor stands afterwards. */
  datatype Outcome = Outcome(exit: Exit, used: nat, last: int)

  /** The "up" handler: `selected = max(0, selected - 1)`. */
  function StepUp(selected: int): int {
    if selected - 1 > 0 then selected - 1 else 0
  }

  /** The "down" handler: `selected = min(count - 1, selected + 1)`. */
  function StepDown(selected: int, count: nat): int {
    if count - 1 < selected + 1 then count - 1 else selected + 1
  }

  predicate IsExitKey(k: Key) {
    k == Enter || k == Escape
  }

  /** The cursor after one key that does not end the application. */
  function Move(selected: int, count: nat, k: Key): int {
    match k
    case Up => StepUp(selected)
    case Down => StepDown(selected, count)
    case _ => selected
  }

  /** The cursor after a run of keys, exits ignored. */
  function Moves(selected: int, count: nat, keys: seq<Key>): int
    decreases |keys|
  {
    if keys == [] then selected else Moves(Move(selected, count, keys[0]), count, keys[1..])
  }

  /** What the application does with the key presses `keys`, from cursor `selected`. */
  function Run(selected: int, count: nat, keys: seq<Key>): (r: Outcome)
    ensures r.used <= |keys|
    ensures r.exit.Pending? <==> r.used == |keys| && forall i :: 0 <= i < |keys| ==> !IsExitKey(keys[i])
    decreases |keys|
  {
    if keys == [] then Outcome(Pending, 0, selected)
    else if keys[0] == Enter then Outcome(Chosen(selected), 1, selected)
    else if keys[0] == Escape then Outcome(Cancelled, 1, selected)
    else
      var o := Run(Move(selected, count, keys[0]), count, keys[1..]);
      assert forall i :: 1 <= i < |keys| ==> keys[i] == keys[1..][i - 1];
      o.(used := o.used + 1)
  }

  /** Up never leaves the cursor below 0. */
  lemma UpNeverNegative(selected: int)
    ensures StepUp(selected) >= 0
    ensures selected > 0 ==> StepUp(selected) == selected - 1
  {
  }

  /** Down never leaves the cursor past the last row. */
  lemma DownNeverPastEnd(selected: int, count: nat)
    ensures StepDown(selected, count) <= count - 1
    ensures selected < count - 1 ==> StepDown(selected, count) == selected + 1
  {
  }

  /** From a valid row, every key leaves the cursor on a valid row. */
  lemma MoveKeepsRange(selected: int, count: nat, k: Key)
    requires 0 <= selected < count
    ensures 0 <= Move(selected, count, k) < count
  {
  }

  lemma {:induction false} MovesKeepRange(selected: int, count: nat, keys: seq<Key>)
    requires 0 <= selected < count
    ensures 0 <= Moves(selected, count, keys) < count
    decreases |keys|
  {
    if keys != [] {
      MoveKeepsRange(selected, count, keys[0]);
      MovesKeepRange(Move(selected, count, keys[0]), count, keys[1..]);
    }
  }

  /**
   * Enter returns where the cursor stands when it is pressed, Escape
   * returns `None`: the first exit key decides, after the moves before it.
   */
  lemma {:induction false} RunAtFirstExit(selected: int, count: nat, keys: seq<Key>, j: nat)
    requires j < |keys| && IsExitKey(keys[j])
    requires forall i :: 0 <= i < j ==> !IsExitKey(keys[i])
    ensures var r := Run(selected, count, keys);
      && r.used == j + 1
      && r.last == Moves(selected, count, keys[..j])
      && r.exit == if keys[j] == Enter then Chosen(Moves(selected, count, keys[..j])) else Cancelled
    decreases j
  {
    if j > 0 {
      assert !IsExitKey(keys[0]);
      assert keys[1..][..j - 1] == keys[..j][1..];
      RunAtFirstExit(Move(selected, count, keys[0]), count, keys[1..], j - 1);
    }
  }

  /** Without an exit key the application is still waiting, the cursor moved by every key. */
  lemma {:induction false} RunWithoutExit(selected: int, count: nat, keys: seq<Key>)
    requires forall i :: 0 <= i < |keys| ==> !IsExitKey(keys[i])
    ensures Run(selected, count, keys) == Outcome(Pending, |keys|, Moves(selected, count, keys))
    decreases |keys|
  {
    if keys != [] {
      RunWithoutExit(Move(selected, count, keys[0]), count, keys[1..]);
    }
  }

  /** A cursor that starts on a valid row can only ever return a valid row. */
  lemma {:induction false} RunInRange(selected: int, count: nat, keys: seq<Key>)
    requires 0 <= selected < count
    ensures 0 <= Run(selected, count, keys).last < count
    ensures Run(selected, count, keys).exit.Chosen? ==> 0 <= Run(selected, count, keys).exit.index < count
    decreases |keys|
  {
    if keys != [] && !IsExitKey(keys[0]) {
      MoveKeepsRange(selected, count, keys[0]);
      RunInRange(Move(selected, count, keys[0]), count, keys[1..]);
    }
  }

  /**
   * The state both menus close over: `selected` and the number of rows.
   * Each handler of the application is one method.
   */
  class Menu {
    var selected: int
    const count: nat

    constructor (start: int, rows: nat)
      ensures selected == start && count == rows
    {
      selected := start;
      count := rows;
    }

    method OnUp()
      modifies this
      ensures selected == StepUp(old(selected))
    {
      selected := if selected - 1 > 0 then selected - 1 else 0;
    }

    method OnDown()
      modifies this
      ensures selected == StepDown(old(selected), count)
    {
      selected := if count - 1 < selected + 1 then count - 1 else selected + 1;
    }

    /** `app.run()`: dispatches key presses to the handlers until one exits. */
    method Dispatch(keys: seq<Key>) returns (exit: Exit, used: nat)
      modifies this
      ensures Run(old(selected), count, keys) == Outcome(exit, used, selected)
    {
      var i := 0;
      while i < |keys|
        invariant 0 <= i <= |keys|
        invariant var o := Run(selected, count, keys[i..]);
          Run(old(selected), count, keys) == o.(used := o.used + i)
      {
        assert keys[i..][1..] == keys[i + 1..];
        var k := keys[i];
        if k == Enter {
          return Chosen(selected), i + 1;
        } else if k == Escape {
          return Cancelled, i + 1;
        } else if k == Up {
          OnUp();
        } else if k == Down {
          OnDown();
        }
        i := i + 1;
      }
      return Pending, i;
    }
  }
}
