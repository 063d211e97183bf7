/**
 * The host menu of `ssh_connect/ui/selector.py`: the formatted rows of
 * `make_line`/`build_menu` and the cursor of `select_host`. A row is the
 * list of `(style, text)` fragments that `to_formatted_text` makes of the
 * row's HTML: text outside every tag has style "", text inside `<t>` has
 * style "class:t", and a tag with no text yields no fragment.
 */
module Selector {
  import opened Wrappers
  import opened Decimal
  import opened Config
  import opened Cursor

  datatype Fragment = Fragment(style: string, text: string)

  const Arrow: string := "\U{276F}"
  const Newline: Fragment := Fragment("", "\n")
  const Space: Fragment := Fragment("", " ")

  /** The fragment of `<tag>text</tag>`; empty text makes none. */
  function Tagged(tag: string, text: string): (r: seq<Fragment>)
    ensures |r| <= 1
    ensures r != [] <==> text != ""
  {
    if text == "" then [] else [Fragment("class:" + tag, text)]
  }

  /** `f"{s:>w}"`: right-aligned in a field of `w` characters. */
  function PadLeft(s: string, w: nat): string {
    if |s| < w then seq(w - |s|, _ => ' ') + s else s
  }

  /** `f"{s:<w}"`: left-aligned in a field of `w` characters. */
  function PadRight(s: string, w: nat): string {
    if |s| < w then s + seq(w - |s|, _ => ' ') else s
  }

  /** Padding adds spaces on the left up to the field width and keeps the text. */
  lemma PadLeftShape(s: string, w: nat)
    ensures var r := PadLeft(s, w);
      && |r| == (if |s| < w then w else |s|)
      && r[|r| - |s|..] == s
      && forall i :: 0 <= i < |r| - |s| ==> r[i] == ' '
  {
  }

  /** Padding adds spaces on the right up to the field width and keeps the text. */
  lemma PadRightShape(s: string, w: nat)
    ensures var r := PadRight(s, w);
      && |r| == (if |s| < w then w else |s|)
      && r[..|s|] == s
      && forall i :: |s| <= i < |r| ==> r[i] == ' '
  {
  }

  /** The style of `<tag>` or, in the selected row, of `<sel_tag>`. */
  function Style(tag: string, selected: bool): string {
    if selected then "class:sel_" + tag else "class:" + tag
  }

  /** Cursor, number and name, each followed by a space. */
  function LineHead(idx: int, con: ResolvedEntry, selected: bool): (r: seq<Fragment>)
    ensures |r| == 6
  {
    [Fragment(Style("cursor", selected), if selected then Arrow else " "), Space,
     Fragment(Style("index", selected), PadLeft(IntToString(idx), 2)), Space,
     Fragment(Style("name", selected), PadRight(con.resolvedName.value, 20)), Space]
  }

  /** `make_line(idx, con, selected)`: cursor, number, name and address, then a newline. */
  function MakeLine(idx: int, con: ResolvedEntry, selected: bool): (r: seq<Fragment>)
    ensures |r| >= 7 && r[|r| - 1] == Newline
    ensures r[..6] == LineHead(idx, con, selected)
    ensures r[6..|r| - 1] == Tagged(if selected then "sel_ip" else "ip", con.resolvedIp.value)
  {
    var head := LineHead(idx, con, selected);
    var r := head + Tagged(if selected then "sel_ip" else "ip", con.resolvedIp.value) + [Newline];
    assert r[..6] == head;
    r
  }

  /** A fragment in one of the `sel_` styles. */
  predicate SelStyled(f: Fragment) {
    Strings.StartsWith(f.style, "class:sel_")
  }

  /**
   * Every styled fragment of a row, the cursor, number, name and address,
   * is in a `sel_` style exactly when the row is the selected one.
   */
  lemma RowStyles(idx: int, con: ResolvedEntry, selected: bool)
    ensures var r := MakeLine(idx, con, selected);
      forall k :: 0 <= k < |r| && r[k].style != "" ==> (SelStyled(r[k]) <==> selected)
  {
    var r := MakeLine(idx, con, selected);
    forall k | 0 <= k < |r| && r[k].style != ""
      ensures SelStyled(r[k]) <==> selected
    {
      var tag := if k == 0 then "cursor" else if k == 2 then "index" else if k == 4 then "name" else "ip";
      if k < 6 {
        assert r[k] == LineHead(idx, con, selected)[k];
        assert k == 0 || k == 2 || k == 4;
      } else {
        assert r[k] == r[6..|r| - 1][k - 6];
      }
      assert r[k].style == Style(tag, selected);
      StyleSel(tag, selected);
    }
  }

  /** `class:sel_<tag>` is a `sel_` style and `class:<tag>` is not, for a tag not starting with "s". */
  lemma StyleSel(tag: string, selected: bool)
    requires tag == [] || tag[0] != 's'
    ensures Strings.StartsWith(Style(tag, selected), "class:sel_") <==> selected
  {
    if selected {
      assert Style(tag, true)[..10] == "class:sel_";
    } else if |Style(tag, false)| >= 10 {
      assert Style(tag, false)[6] == tag[0];
    }
  }

  /** The rows of the menu, numbered from 1, the one at `selected` marked. */
  function Lines(connections: seq<ResolvedEntry>, selected: int): (ls: seq<seq<Fragment>>)
    ensures |ls| == |connections|
  {
    seq(|connections|, k requires 0 <= k < |connections| => MakeLine(k + 1, connections[k], selected == k))
  }

  function Flatten(ls: seq<seq<Fragment>>): seq<Fragment> {
    if ls == [] then [] else Flatten(ls[..|ls| - 1]) + ls[|ls| - 1]
  }

  /** A row carries the arrow and the `sel_` styles. */
  predicate Marked(line: seq<Fragment>) {
    line != [] && line[0] == Fragment("class:sel_cursor", Arrow)
  }

  /** An unmarked row starts with a blank cursor and uses the plain styles. */
  predicate Plain(line: seq<Fragment>) {
    line != [] && line[0] == Fragment("class:cursor", " ")
  }

  lemma LinesExtend(connections: seq<ResolvedEntry>, selected: int, i: nat)
    requires i < |connections|
    ensures Flatten(Lines(connections[..i + 1], selected))
         == Flatten(Lines(connections[..i], selected)) + MakeLine(i + 1, connections[i], selected == i)
  {
    var ls := Lines(connections[..i + 1], selected);
    assert ls[..i] == Lines(connections[..i], selected);
  }

  /**
   * `build_menu`: the rows of `make_line`, one per connection, in order,
   * concatenated.
   */
  method BuildMenu(connections: seq<ResolvedEntry>, selected: int) returns (output: seq<Fragment>)
    ensures output == Flatten(Lines(connections, selected))
  {
    output := [];
    var i := 0;
    while i < |connections|
      invariant 0 <= i <= |connections|
      invariant output == Flatten(Lines(connections[..i], selected))
    {
      var line := MakeLine(i + 1, connections[i], selected == i);
      LinesExtend(connections, selected, i);
      output := output + line;
      i := i + 1;
    }
    assert connections[..i] == connections;
  }

  lemma SelectedHead(idx: int, con: ResolvedEntry)
    ensures Marked(LineHead(idx, con, true)) && !Plain(LineHead(idx, con, true))
  {
    assert Arrow[0] != ' ';
  }

  lemma PlainHead(idx: int, con: ResolvedEntry)
    ensures Plain(LineHead(idx, con, false)) && !Marked(LineHead(idx, con, false))
  {
    assert LineHead(idx, con, false)[0].style == "class:cursor";
    assert "class:cursor"[6] != "class:sel_cursor"[6];
  }

  lemma HeadCursor(idx: int, con: ResolvedEntry, selected: bool)
    ensures Marked(LineHead(idx, con, selected)) <==> selected
    ensures Plain(LineHead(idx, con, selected)) <==> !selected
  {
    if selected {
      SelectedHead(idx, con);
    } else {
      PlainHead(idx, con);
    }
  }

  /** The cursor fragment of a row is the arrow exactly when the row is selected. */
  lemma MakeLineCursor(idx: int, con: ResolvedEntry, selected: bool)
    ensures var line := MakeLine(idx, con, selected);
      && (Marked(line) <==> selected)
      && (Plain(line) <==> !selected)
      && line[2].text == PadLeft(IntToString(idx), 2)
      && line[4].text == PadRight(con.resolvedName.value, 20)
  {
    var line := MakeLine(idx, con, selected);
    var head := LineHead(idx, con, selected);
    assert line[..6][0] == line[0] && line[..6][2] == line[2] && line[..6][4] == line[4];
    HeadCursor(idx, con, selected);
  }

  /**
   * Row `k` shows the number `k + 1` and ends with a newline fragment; it is
   * marked exactly when `k == selected` and plain otherwise.
   */
  lemma MenuMarksOnlySelected(connections: seq<ResolvedEntry>, selected: int, k: nat)
    requires k < |connections|
    ensures var line := Lines(connections, selected)[k];
      && (Marked(line) <==> k == selected)
      && (Plain(line) <==> k != selected)
      && line[2].text == PadLeft(IntToString(k + 1), 2)
      && line[4].text == PadRight(connections[k].resolvedName.value, 20)
      && line[|line| - 1] == Newline
  {
    MakeLineCursor(k + 1, connections[k], selected == k);
  }

  /** Exactly one row is marked when `selected` is a row, none otherwise. */
  lemma OneMarkedRow(connections: seq<ResolvedEntry>, selected: int)
    ensures var ls := Lines(connections, selected);
      && (forall k :: 0 <= k < |ls| ==> (Marked(ls[k]) <==> k == selected))
      && (0 <= selected < |ls| ==> Marked(ls[selected]))
      && (!(0 <= selected < |ls|) ==> forall k :: 0 <= k < |ls| ==> !Marked(ls[k]))
  {
    forall k | 0 <= k < |connections|
      ensures Marked(Lines(connections, selected)[k]) <==> k == selected
    {
      MenuMarksOnlySelected(connections, selected, k);
    }
  }

  /** What `select_host(connections, default)` returns for the key presses `keys`. */
  function HostChoice(count: nat, default: int, keys: seq<Key>): Exit {
    Cursor.Run(default, count, keys).exit
  }

  /** `select_host`: the cursor starts at the caller's `default`, unclamped. */
  method SelectHost(connections: seq<ResolvedEntry>, default: int, keys: seq<Key>) returns (r: Exit)
    ensures r == HostChoice(|connections|, default, keys)
  {
    var menu := new Menu(default, |connections|);
    var used;
    r, used := menu.Dispatch(keys);
  }

  /** From a default on a row, `select_host` only ever returns a row. */
  lemma HostChoiceInRange(count: nat, default: int, keys: seq<Key>)
    requires 0 <= default < count
    ensures HostChoice(count, default, keys).Chosen? ==> 0 <= HostChoice(count, default, keys).index < count
  {
    RunInRange(default, count, keys);
  }

  /**
   * An out-of-range default comes back unchanged from an immediate Enter:
   * a remembered position 7 with three hosts left returns 7, and with no
   * hosts an immediate Enter returns 0 and one press of Down moves the
   * cursor to -1. The caller indexes the host list with the result.
   */
  lemma StaleDefaultEscapes()
    ensures HostChoice(3, 7, [Enter]) == Chosen(7)
    ensures HostChoice(0, 0, [Enter]) == Chosen(0)
    ensures HostChoice(0, 0, [Down, Enter]) == Chosen(-1)
  {
    assert [Down, Enter][1..] == [Enter];
  }

  /** `max(0, min(count - 1, default))`: the default moved onto the nearest row. */
  function Clamp(default: int, count: nat): (r: int)
    requires count > 0
    ensures 0 <= r < count
    ensures 0 <= default < count ==> r == default
  {
    if default < 0 then 0 else if default >= count then count - 1 else default
  }

  /**
   * `select_host` as its caller needs it: an empty list gives `None`, and
   * the cursor starts on the row nearest the default.
   */
  function ClampedChoice(count: nat, default: int, keys: seq<Key>): (r: Exit)
    ensures r.Chosen? ==> 0 <= r.index < count
    ensures count > 0 && 0 <= default < count ==> r == HostChoice(count, default, keys)
  {
    if count == 0 then Cancelled
    else
      RunInRange(Clamp(default, count), count, keys);
      HostChoice(count, Clamp(default, count), keys)
  }
}
