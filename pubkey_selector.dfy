/**
 * The key picker of `ssh_connect/ui/pubkey_selector.py`: one row per public
 * key showing its file name, and the cursor of `select_pubkey`, which
 * starts on the first key. Rows are fragment lists as in the host menu.
 */
module PubkeySelector {
  import opened Strings
  import opened Cursor
  import opened Selector

  /** `os.path.basename(path)`: the text after the last "/". */
  function Basename(path: string): (r: string)
    ensures '/' !in r
    ensures EndsWith(path, r)
    ensures |r| == |path| || path[|path| - |r| - 1] == '/'
  {
    LastPartIsSuffix(path, '/');
    LastPartMaximal(path, '/');
    LastPart(path, '/')
  }

  /** A row of `menu()`: cursor, a space, the key's file name, a newline. */
  function KeyRow(key: string, selected: bool): (r: seq<Fragment>)
    ensures |r| >= 3 && r[|r| - 1] == Newline
  {
    [Fragment(Style("cursor", selected), if selected then Arrow else " "), Space]
    + Tagged(if selected then "sel_name" else "name", Basename(key))
    + [Newline]
  }

  function KeyRows(keys: seq<string>, selected: int): (ls: seq<seq<Fragment>>)
    ensures |ls| == |keys|
  {
    seq(|keys|, i requires 0 <= i < |keys| => KeyRow(keys[i], i == selected))
  }

  lemma KeyRowsExtend(keys: seq<string>, selected: int, i: nat)
    requires i < |keys|
    ensures Flatten(KeyRows(keys[..i + 1], selected))
         == Flatten(KeyRows(keys[..i], selected)) + KeyRow(keys[i], i == selected)
  {
    var ls := KeyRows(keys[..i + 1], selected);
    assert ls[..i] == KeyRows(keys[..i], selected);
  }

  /** `menu()`: the rows of all keys, in list order, concatenated. */
  method KeyMenu(keys: seq<string>, selected: int) returns (rows: seq<Fragment>)
    ensures rows == Flatten(KeyRows(keys, selected))
  {
    rows := [];
    var i := 0;
    while i < |keys|
      invariant 0 <= i <= |keys|
      invariant rows == Flatten(KeyRows(keys[..i], selected))
    {
      KeyRowsExtend(keys, selected, i);
      rows := rows + KeyRow(keys[i], i == selected);
      i := i + 1;
    }
    assert keys[..i] == keys;
  }

  lemma SelectedKeyRow(key: string)
    ensures Marked(KeyRow(key, true)) && !Plain(KeyRow(key, true))
  {
    assert Arrow[0] != ' ';
  }

  lemma PlainKeyRow(key: string)
    ensures Plain(KeyRow(key, false)) && !Marked(KeyRow(key, false))
  {
    assert KeyRow(key, false)[0].style == "class:cursor";
    assert "class:cursor"[6] != "class:sel_cursor"[6];
  }

  /**
   * Row `i` is marked exactly when `i == selected`, and shows the file name
   * of `keys[i]` right after the cursor and its space.
   */
  lemma KeyRowShape(keys: seq<string>, selected: int, i: nat)
    requires i < |keys|
    ensures var row := KeyRows(keys, selected)[i];
      && (Marked(row) <==> i == selected)
      && (Plain(row) <==> i != selected)
      && (Basename(keys[i]) != "" ==> row[2].text == Basename(keys[i]))
  {
    if i == selected {
      SelectedKeyRow(keys[i]);
    } else {
      PlainKeyRow(keys[i]);
    }
  }

  /** What `select_pubkey` hands back: a key, `None`, or nothing yet. */
  datatype Pick = Picked(key: string) | NoKey | Waiting

  /**
   * `select_pubkey(keys)` for the key presses `keys`: `None` at once for an
   * empty list, otherwise the key under the cursor on Enter.
   */
  function PubkeyChoice(keys: seq<string>, presses: seq<Key>): (r: Pick)
    ensures keys == [] ==> r == NoKey
    ensures r.Picked? ==> r.key in keys
  {
    if keys == [] then NoKey
    else
      RunInRange(0, |keys|, presses);
      match Cursor.Run(0, |keys|, presses).exit
      case Chosen(i) => Picked(keys[i])
      case Cancelled => NoKey
      case Pending => Waiting
  }

  /** `select_pubkey`: the guard, then the application with the cursor on the first key. */
  method SelectPubkey(keys: seq<string>, presses: seq<Key>) returns (r: Pick)
    ensures r == PubkeyChoice(keys, presses)
  {
    if |keys| == 0 {
      return NoKey;
    }
    var menu := new Menu(0, |keys|);
    RunInRange(0, |keys|, presses);
    var exit, used := menu.Dispatch(presses);
    match exit
    case Chosen(i) =>
      r := Picked(keys[i]);
    case Cancelled =>
      r := NoKey;
    case Pending =>
      r := Waiting;
  }

  /**
   * The first exit key decides: Enter picks the key under the cursor as the
   * moves before it left it, starting from the first key; Escape gives `None`.
   */
  lemma PubkeyAtFirstExit(keys: seq<string>, presses: seq<Key>, j: nat)
    requires keys != []
    requires j < |presses| && IsExitKey(presses[j])
    requires forall i :: 0 <= i < j ==> !IsExitKey(presses[i])
    ensures var at := Moves(0, |keys|, presses[..j]);
      && 0 <= at < |keys|
      && PubkeyChoice(keys, presses) == if presses[j] == Enter then Picked(keys[at]) else NoKey
  {
    RunAtFirstExit(0, |keys|, presses, j);
    MovesKeepRange(0, |keys|, presses[..j]);
  }

  /** An immediate Enter picks the first key. */
  lemma EnterPicksFirst(keys: seq<string>, rest: seq<Key>)
    requires keys != []
    ensures PubkeyChoice(keys, [Enter] + rest) == Picked(keys[0])
  {
  }
}
