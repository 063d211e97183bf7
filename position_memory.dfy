/**
 * The remembered menu position of `ssh_connect/utils.py`: `save_last_pos`
 * overwrites the cache file "~/.cache/ssh_last_connection" with the
 * decimal index and `load_last_pos` reads it back, falling back to 0 when
 * the file is missing or does not hold a number.
 */
module PositionMemory {
  import opened Wrappers
  import opened Strings
  import opened Decimal

  /**
   * What `load_last_pos` returns for the file's contents (`None` when the
   * file cannot be opened): `int()` of the stripped text, 0 on any error.
   */
  function LastPos(contents: Option<string>): (r: int)
    ensures contents.None? ==> r == 0
    ensures contents.Some? && ParseInt(contents.value).Some? ==> r == ParseInt(contents.value).value
    ensures contents.Some? && ParseInt(contents.value).None? ==> r == 0
  {
    match contents
    case None => 0
    case Some(text) =>
      ParseIntStrips(text);
      match ParseInt(Strip(text))
      case Some(n) => n
      case None => 0
  }

  /** The cache file: its text, or `None` while it does not exist. */
  class CacheFile {
    var contents: Option<string>

    constructor (initial: Option<string>)
      ensures contents == initial
    {
      contents := initial;
    }

    /** `save_last_pos(idx)`: the file afterwards holds exactly `str(idx)`. */
    method Save(idx: int)
      modifies this
      ensures contents == Some(IntToString(idx))
    {
      contents := Some(IntToString(idx));
    }

    /** `load_last_pos()`. */
    method Load() returns (n: int)
      ensures n == LastPos(contents)
    {
      if contents.None? {
        return 0;
      }
      var parsed := ParseInt(Strip(contents.value));
      ParseIntStrips(contents.value);
      n := if parsed.Some? then parsed.value else 0;
    }

    /** Saving and loading again gives back the saved index. */
    method SaveThenLoad(idx: int) returns (n: int)
      modifies this
      ensures contents == Some(IntToString(idx))
      ensures n == idx
    {
      Save(idx);
      n := Load();
      SavedIndexLoads(idx);
    }
  }

  /** `load_last_pos()` after `save_last_pos(idx)` is `idx`, for every integer. */
  lemma SavedIndexLoads(idx: int)
    ensures LastPos(Some(IntToString(idx))) == idx
  {
    ParseIntToString(idx);
  }

  /** Whitespace around the number, such as a final newline an editor adds, is ignored. */
  lemma PaddedIndexLoads(a: string, idx: int, b: string)
    requires AllSpace(a) && AllSpace(b)
    ensures LastPos(Some(a + IntToString(idx) + b)) == idx
  {
    ParseIntPadded(a, idx, b);
  }

  /** An empty or blank file gives 0. */
  lemma BlankGivesZero(text: string)
    requires AllSpace(text)
    ensures LastPos(Some(text)) == 0
  {
    StripPadded(text, [], []);
    assert text + [] + [] == text;
  }

  /** A file whose text starts with anything but a sign or a digit gives 0. */
  lemma WordGivesZero(word: string)
    requires word != [] && !IsDigit(word[0]) && word[0] != '+' && word[0] != '-' && !IsSpace(word[0])
    ensures LastPos(Some(word)) == 0
  {
    var t := Strip(word);
    assert LStrip(word) == word;
    assert t != [] && t[0] == word[0];
  }
}
