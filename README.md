# ssh_connect in Dafny

`ssh_connect` is a terminal launcher for SSH connections. It loads a YAML
list of hosts, resolves each host's display name and address, sorts the
list, and shows it as a menu with a cursor controlled by the arrow keys,
`j`/`k`, Enter and Escape. It remembers the last position in a cache file.
It then starts a session: a password login through `sshpass`, or a probe
connection that detects an unreachable host or a missing key and offers to
upload a public key with `ssh-copy-id` before the interactive shell. An
installer script creates a virtual environment, installs the missing
requirements, writes a launcher wrapper and optionally links a shortcut
name to it.

This project models that core and proves what each part promises:

- **`Config`**: the IPv4-shape test, the sort key, the four-way resolution
  of each entry, and the final stable sort by name or by address. The
  resolution is a loop that updates an array of entries in place.
- **`Cursor`**: the cursor both menus keep. `Menu` is a class whose
  handler methods move the cursor with the source's `max`/`min` clamping.
- **`Selector`**: the host menu's rows, its `build_menu` loop, and where
  `select_host` starts its cursor.
- **`PubkeySelector`**: the key picker's rows, its empty-list guard, and the
  key chosen on Enter.
- **`Confirm`**: the `ask_confirm` loop over a sequence of typed answers.
- **`Session`**: `list_local_pubkeys`, and `start_session` as a launcher
  class that appends each effect to a trace. The method is proved equal to
  the specification function `Launch`.
- **`PositionMemory`**: the cache file and the save/load round trip.
- **`Install`**: `ask`, the requirements and missing-package computation,
  the commands `ensure_venv` runs, and the interactive `ensure_wrapper` over a
  bin directory modelled as a map.
- **Shared modules**: `Strings`, `Decimal` and `Sorting` provide the Python
  operations the code uses: `strip`, `lower`, `capitalize`, `split`, `in` on
  strings, `str(int)`, `int(str)`, tuple comparison and the stable `sorted`.
  `Wrappers` provides `Option`.

External calls are inputs of the model:

- DNS lookups are the `Config.Dns` maps.
- The YAML parse result is a `Config.Parsed` value.
- Probe stderr, `LOGNAME`, whether `sshpass` exists, the typed answers,
  the key presses and the `~/.ssh` listing are fields of `Session.World`.
- File contents are `Option<string>`.
- The output of `pip freeze`, and whether the environment and the
  requirements file exist, are parameters.

A finite sequence of answers or key presses may run out before the program
gets what it waits for. That is end of input (`None`, `Pending`,
`InputEnded`, or `finished == false`).

## Model

| member | source | states |
|---|---|---|
| Strings.Lower | ssh_connect/ui/confirm.py:13 | `lower()` keeps the length and maps every character through the ASCII case map |
| Strings.Strip | ssh_connect/utils.py:12 | `strip()`: the result is trimmed and no longer than the input; StripPadded gives its value |
| Strings.Capitalize | ssh_connect/config.py:55 | `capitalize()` keeps the length; CapitalizeShape gives its letters |
| Strings.Split | ssh_connect/config.py:99 | `split(sep)` gives at least one piece and no piece holds the separator; JoinSplit and SplitJoin pin it |
| Strings.Contains | ssh_connect/session.py:50-51 | the `in` substring test; ContainsIff characterises it |
| Strings.LastPartMaximal | ssh_connect/ui/pubkey_selector.py:20 | the last piece of a split is the whole text or starts right after the last separator |
| Strings.StripPadded | ssh_connect/utils.py:12 | `strip()` of whitespace, trimmed text, whitespace is exactly the trimmed text |
| Strings.StripIdempotent | ssh_connect/utils.py:12 | stripping twice is stripping once |
| Strings.CapitalizeShape | ssh_connect/config.py:55 | `capitalize()` yields capitalized text, changes only letter case, and fixes capitalized text |
| Strings.JoinSplit | ssh_connect/config.py:99 | joining the pieces of `split(sep)` restores the string |
| Strings.SplitJoin | ssh_connect/config.py:99 | splitting a join of separator-free pieces gives the pieces back |
| Strings.ContainsAt | ssh_connect/session.py:50-51 | the `in` substring test holds when the text occurs at some position |
| Strings.ContainsOccurs | ssh_connect/session.py:50-51 | the `in` substring test holds only when the text occurs at some position |
| Strings.ContainsIff | ssh_connect/session.py:50-51 | the `in` substring test holds exactly when the text occurs at some position |
| Strings.StripAppendSpace | install.py:52 | trailing whitespace, such as a line's newline, does not change `strip()` |
| Decimal.NatToString | ssh_connect/session.py:28 | `str(n)` is non-empty digits denoting `n`, without a leading zero |
| Decimal.IntToString | ssh_connect/utils.py:7 | `str(n)` of any integer is non-empty and trimmed; ParseIntToString gives the round trip |
| Decimal.ParseInt | ssh_connect/utils.py:12 | `int()` of text: whitespace, an optional sign, a numeral with single underscores, anything else a `ValueError` |
| Decimal.ParseIntToString | ssh_connect/utils.py:7-12 | `int(str(n)) == n` for every integer |
| Decimal.ParseIntPadded | ssh_connect/utils.py:12 | `int()` ignores whitespace around the number |
| Decimal.ParseIntOfDigits | ssh_connect/config.py:99 | `int()` of a run of digits is the number they denote |
| Sorting.LexLtTransitive | ssh_connect/config.py:90 | tuple comparison is transitive |
| Sorting.LexTotal | ssh_connect/config.py:90 | any two keys are equal or ordered one way |
| Sorting.LexLeHead | ssh_connect/session.py:20 | a key ordered before another has a first component at most the other's, and equal first components order the rests |
| Sorting.SortBy | ssh_connect/config.py:88-90 | `sorted(s, key)` is ordered by key and a permutation of `s` |
| Sorting.SortStable | ssh_connect/config.py:88-90 | entries with equal keys keep their input order |
| Config.IpCore | ssh_connect/config.py:93-94 | an IP-shaped string is a dotted quad, optionally followed by one newline (`$` before a final newline) |
| Config.IsIp | ssh_connect/config.py:93-94 | `is_ip`: the regular expression match; IsIpShape characterises it |
| Config.IsIpShape | ssh_connect/config.py:93-94 | `is_ip(s)` holds exactly when `s` is four groups of 1-3 digits joined by dots, optionally with one trailing newline |
| Config.QuadIsIp | ssh_connect/config.py:93-94 | every dotted quad of digit groups is IP-shaped |
| Config.NoOctetRangeCheck | ssh_connect/config.py:93-94 | "999.999.999.999" is IP-shaped |
| Config.GroupValues | ssh_connect/config.py:99 | the four group values are each below 1000 and are the numbers the groups denote |
| Config.IpSort | ssh_connect/config.py:97-100 | the key has four components in 0..999, and is the sentinel `(999, 999, 999, 999)` for anything not IP-shaped |
| Config.IpSortIsIntOfParts | ssh_connect/config.py:98-99 | for IP-shaped strings the key is `int()` of each piece of `ip.split(".")` |
| Config.IpSortOfQuad | ssh_connect/config.py:97-99 | a dotted quad, with or without the final newline, has its group values as key |
| Config.KeyAtMostSentinel | ssh_connect/config.py:97-100 | no key is above the sentinel, so non-IP values never sort before IPs |
| Config.NumericGroupOrder | ssh_connect/config.py:97-99 | "10.0.0.2" sorts before "10.0.0.10" by key although the text order is the reverse |
| Config.ShortName | ssh_connect/config.py:55 | `name.split(".")[0].capitalize()` holds no dot and is capitalized |
| Config.ResolveEntry | ssh_connect/config.py:36-82 | one loop iteration; a finished entry has both resolved fields |
| Config.ResolveFailsOnlyWhen | ssh_connect/config.py:37-48 | an entry raises exactly when `host` is missing, or when a truthy name is combined with a non-IP host that the forward lookup fails on |
| Config.ResolveTouchesOnlyResolvedKeys | ssh_connect/config.py:36-82 | only `resolved_name` and `resolved_ip` change; the address is the host or its forward lookup |
| Config.ResolveNamed | ssh_connect/config.py:41-48 | a truthy name is kept verbatim; the address is the host if IP-shaped, else the forward lookup, and a failing lookup raises |
| Config.ResolveIpLiteral | ssh_connect/config.py:51-58 | an IP literal keeps itself as address and is named from the reverse lookup, or "Unknown" |
| Config.ResolveDotted | ssh_connect/config.py:61-68 | a dotted host is named after its own first label; its address is the lookup or itself |
| Config.ResolveBare | ssh_connect/config.py:71-82 | a bare host gets the lookup or itself as address, and is named from the reverse lookup of that address or `host.capitalize()` |
| Config.DerivedNameShape | ssh_connect/config.py:51-82 | every derived name is a single capitalized label |
| Config.CapitalizeExample | ssh_connect/config.py:82 | example: "MyHost" becomes "Myhost" |
| Config.ResolveAll | ssh_connect/config.py:36-82 | the loop resolves entries in place, in order; at the first entry that raises it stops, leaving the later entries untouched |
| Config.FirstFailure | ssh_connect/config.py:36-37 | the index of the first entry that raises, or the length |
| Config.FirstFailureAt | ssh_connect/config.py:36-37 | a failing entry with only successes before it is the first failure |
| Config.ResolvedEntries | ssh_connect/config.py:36-82 | after a loop that raised nowhere, each entry is its resolution |
| Config.Load | ssh_connect/config.py:8-34 | missing file, blank file, invalid YAML and a non-list document, before the entries are resolved; the Load lemmas below |
| Config.LoadList | ssh_connect/config.py:36-90 | the first entry that raises, or the resolved entries sorted by the mode's key; LoadSortedStable and LoadMissingHostRaises |
| Config.ByNameMode | ssh_connect/config.py:85-87 | the stripped, lower-cased mode equals "name" |
| Config.NameKey | ssh_connect/config.py:88 | the lower-cased resolved name as the key; NameModeIgnoresCase |
| Config.AddressKey | ssh_connect/config.py:90 | `ip_sort` of the resolved address as the key; AddressModeNonIpLast |
| Config.SortKey | ssh_connect/config.py:85-90 | the name key in name mode, the address key otherwise |
| Config.LoadHostsFile | ssh_connect/config.py:8-90 | equals `Load`: a missing file, invalid YAML and a non-list are errors, blank content is `[]`, otherwise the loop and the sort |
| Config.ResolveAndSort | ssh_connect/config.py:36-90 | the loop over an array copy of the list, then the sort, equals `LoadList` |
| Config.LoadBlankIsEmpty | ssh_connect/config.py:18-24 | empty or whitespace-only content is `[]` whatever the parser says |
| Config.LoadNotAList | ssh_connect/config.py:32-34 | a document that is not a list is a fatal error |
| Config.LoadMissingHostRaises | ssh_connect/config.py:37 | an entry without `host` makes the load raise before sorting, at that entry or an earlier one |
| Config.LoadSortedStable | ssh_connect/config.py:85-90 | a loaded list is a permutation of the resolved entries, sorted by the mode's key, stable |
| Config.AddressModeNonIpLast | ssh_connect/config.py:90-100 | in address mode only sentinel keys follow a non-IP address |
| Config.NameModeIgnoresCase | ssh_connect/config.py:87-88 | example: name mode compares lower-cased names, so "alpha" < "bob" < "Zed" |
| Cursor.Run | ssh_connect/ui/selector.py:58-77 | the application is still waiting exactly when every key was consumed and none was Enter or Escape |
| Cursor.StepUp | ssh_connect/ui/selector.py:58-62 | `max(0, selected - 1)`; UpNeverNegative |
| Cursor.StepDown | ssh_connect/ui/selector.py:64-68 | `min(len - 1, selected + 1)`; DownNeverPastEnd |
| Cursor.Move | ssh_connect/ui/selector.py:58-68 | the cursor after one movement key; MoveKeepsRange |
| Cursor.Moves | ssh_connect/ui/selector.py:58-68 | the cursor after a run of keys; MovesKeepRange and RunWithoutExit |
| Cursor.UpNeverNegative | ssh_connect/ui/selector.py:58-62 | Up never leaves the cursor below 0 and moves it up by one from above 0 |
| Cursor.DownNeverPastEnd | ssh_connect/ui/selector.py:64-68 | Down never leaves the cursor past the last row and moves it down by one before it |
| Cursor.MoveKeepsRange | ssh_connect/ui/selector.py:58-68 | from a valid row every key leaves the cursor on a valid row |
| Cursor.MovesKeepRange | ssh_connect/ui/selector.py:58-68 | the same for any run of keys |
| Cursor.RunAtFirstExit | ssh_connect/ui/selector.py:70-77 | the first Enter returns the cursor as the earlier moves left it; the first Escape returns `None` |
| Cursor.RunWithoutExit | ssh_connect/ui/selector.py:58-68 | without an exit key the application waits with the cursor moved by every key |
| Cursor.RunInRange | ssh_connect/ui/selector.py:58-72 | from a valid row the application only ever returns a valid row |
| Cursor.Menu.OnUp | ssh_connect/ui/selector.py:58-62 | the "up"/"k" handler: `selected = max(0, selected - 1)` |
| Cursor.Menu.OnDown | ssh_connect/ui/selector.py:64-68 | the "down"/"j" handler: `selected = min(len - 1, selected + 1)` |
| Cursor.Menu.Dispatch | ssh_connect/ui/selector.py:58-87 | dispatching keys to the handlers gives the exit, the keys used and the final cursor of `Run` |
| Selector.Tagged | ssh_connect/ui/selector.py:14-27 | a tag yields one fragment exactly when its text is non-empty |
| Selector.PadLeftShape | ssh_connect/ui/selector.py:17 | `{idx:>2}` pads with spaces on the left up to the width and keeps the text |
| Selector.PadRightShape | ssh_connect/ui/selector.py:18 | `{name:<20}` pads with spaces on the right up to the width and keeps the text |
| Selector.MakeLine | ssh_connect/ui/selector.py:9-31 | a row is the six head fragments, then the address fragment in the `sel_ip` or `ip` style (none for an empty address), then a final newline fragment |
| Selector.BuildMenu | ssh_connect/ui/selector.py:34-38 | the loop's output is every connection's row, in order, numbered from 1 |
| Selector.MakeLineCursor | ssh_connect/ui/selector.py:12-27 | a row carries the arrow and the `sel_` cursor exactly when selected, and shows the padded number and name |
| Selector.MenuMarksOnlySelected | ssh_connect/ui/selector.py:34-38 | row `k` shows number `k + 1` and is marked exactly when `k == selected`, and ends with a newline |
| Selector.RowStyles | ssh_connect/ui/selector.py:14-27 | every styled fragment of a row, cursor, number, name and address, is in a `sel_` style exactly when the row is selected |
| Selector.StyleSel | ssh_connect/ui/selector.py:14-27 | `class:sel_<tag>` is a `sel_` style and `class:<tag>` is not |
| Selector.OneMarkedRow | ssh_connect/ui/selector.py:34-38 | exactly one row is marked when `selected` is a row, none otherwise |
| Selector.SelectHost | ssh_connect/ui/selector.py:41-87 | the cursor starts at the caller's default, unclamped, and the result is `HostChoice` |
| Selector.HostChoice | ssh_connect/ui/selector.py:41-87 | the exit of the menu run from the unclamped default; HostChoiceInRange and StaleDefaultEscapes |
| Selector.HostChoiceInRange | ssh_connect/ui/selector.py:58-72 | a default on a row gives back only rows |
| Selector.StaleDefaultEscapes | ssh_connect/ui/selector.py:42 | an out-of-range default comes back from Enter unchanged (7 with three hosts; 0 and -1 with none) |
| Selector.Clamp | ssh_connect/ui/selector.py:42 | the default moved onto the nearest row, unchanged when already on one |
| Selector.ClampedChoice | ssh_connect/ui/selector.py:41-77 | the corrected start: every returned index is a row, and a valid default behaves as before |
| PubkeySelector.Basename | ssh_connect/ui/pubkey_selector.py:20 | `os.path.basename` is the longest "/"-free suffix of the path: the whole path or the text after its last "/" |
| PubkeySelector.KeyRow | ssh_connect/ui/pubkey_selector.py:19-29 | a row ends with a newline fragment |
| PubkeySelector.KeyMenu | ssh_connect/ui/pubkey_selector.py:17-29 | `menu()` is every key's row in list order |
| PubkeySelector.KeyRowShape | ssh_connect/ui/pubkey_selector.py:19-25 | row `i` is marked exactly when `i == selected` and shows the key's file name |
| PubkeySelector.PubkeyChoice | ssh_connect/ui/pubkey_selector.py:11-13 | an empty list gives `None`; a picked key is an element of the list |
| PubkeySelector.SelectPubkey | ssh_connect/ui/pubkey_selector.py:11-71 | the guard, then the application from cursor 0, equals `PubkeyChoice` |
| PubkeySelector.PubkeyAtFirstExit | ssh_connect/ui/pubkey_selector.py:42-61 | the cursor stays on a key; Enter picks the key under it, Escape gives `None` |
| PubkeySelector.EnterPicksFirst | ssh_connect/ui/pubkey_selector.py:15 | an immediate Enter picks the first key |
| Confirm.WordTests | ssh_connect/ui/confirm.py:15-20 | the recognised words are "", "y", "yes" (yes) and "n", "no" (no) |
| Confirm.Classify | ssh_connect/ui/confirm.py:13-21 | one answer after `strip().lower()`: yes, no, or ask again; BlankIsYes, PaddingIgnored, LowerWord |
| Confirm.Decide | ssh_connect/ui/confirm.py:12-21 | the first recognised answer of the sequence decides; FirstDecision and FirstRecognised |
| Confirm.FirstDecision | ssh_connect/ui/confirm.py:12-21 | the first recognised answer decides; all earlier ones were unrecognised; no decision exactly when none is recognised |
| Confirm.AskConfirm | ssh_connect/ui/confirm.py:4-21 | the loop returns the first recognised answer's value and how many answers it read, `None` when the input runs out |
| Confirm.FirstDecisionAt | ssh_connect/ui/confirm.py:12-21 | a recognised answer with only unrecognised ones before it decides |
| Confirm.FirstRecognised | ssh_connect/ui/confirm.py:12-21 | the same for the actual classifier |
| Confirm.RepromptUntilRecognised | ssh_connect/ui/confirm.py:12-21 | unrecognised answers before a recognised one are skipped |
| Confirm.BlankIsYes | ssh_connect/ui/confirm.py:13-16 | an empty or all-whitespace answer is yes |
| Confirm.PaddingIgnored | ssh_connect/ui/confirm.py:13 | whitespace around an answer does not matter |
| Confirm.UpperCaseYes | ssh_connect/ui/confirm.py:13-18 | example: "YES" and "Y" are yes |
| Confirm.UpperCaseNo | ssh_connect/ui/confirm.py:13-20 | example: "No" and "N" are no |
| Confirm.NearMissRepeats | ssh_connect/ui/confirm.py:17-21 | example: "yep" and "nope" are not recognised and repeat the question |
| Confirm.LowerWord | ssh_connect/ui/confirm.py:13 | a word without surrounding whitespace is classified by its lower-case letters |
| Session.PathJoin | ssh_connect/session.py:14 | the joined path ends with the entry name |
| Session.PubNames | ssh_connect/session.py:15-16 | exactly the entries ending in ".pub" are kept |
| Session.ListLocalPubkeys | ssh_connect/session.py:8-22 | no directory gives `[]`; otherwise a permutation of the joined ".pub" paths |
| Session.KeyOrder | ssh_connect/session.py:20 | the key `(not k.endswith("ed25519.pub"), k)`; Ed25519First |
| Session.ListedKeys | ssh_connect/session.py:13-17 | a path is listed exactly when it joins the directory to an entry ending in ".pub" |
| Session.ListedKeysArePub | ssh_connect/session.py:13-17 | every listed key ends in ".pub", so none is empty |
| Session.Ed25519First | ssh_connect/session.py:20 | ed25519 keys come first, and each group is in ascending order |
| Session.AfterSaveNoSave | ssh_connect/session.py:33-69 | after the save no path saves the position again, and some step follows on every path |
| Session.SavesPositionFirst | ssh_connect/session.py:31 | `save_pos_cb(index)` comes first and only once on every path, before any command |
| Session.PasswordLogin | ssh_connect/session.py:33-38 | with a password no probe runs; the only command is the sshpass login or the plain ssh |
| Session.UnreachableStops | ssh_connect/session.py:41-55 | a down marker ends the session after the probe and the message, even when auth markers are present too |
| Session.NoSetupShell | ssh_connect/session.py:57-69 | without a key complaint, or with key setup skipped, the shell follows the probe directly |
| Session.ProbeSecond | ssh_connect/session.py:40-47 | without a password the probe follows the save |
| Session.SetupPrompted | ssh_connect/session.py:57-59 | when a key is wanted the question comes next |
| Session.DeclinedStillConnects | ssh_connect/session.py:59-69 | declining the upload still runs the shell |
| Session.NoKeyNoShell | ssh_connect/session.py:60-64 | agreeing and then picking no key ends with neither upload nor shell |
| Session.NoKeyDirectory | ssh_connect/session.py:10-11 | without a key directory nothing can be picked and key setup is abandoned |
| Session.UploadThenShell | ssh_connect/session.py:60-69 | a picked key is uploaded before the shell, both to `user@resolved_ip` on the entry's port |
| Session.TargetAndPort | ssh_connect/session.py:26-28 | the target is `user@resolved_ip`, the user defaults to `LOGNAME`, the port to "22" |
| Session.Launch | ssh_connect/session.py:25-69 | the effects of `start_session`: the save, then AfterSave; SavesPositionFirst |
| Session.AfterSave | ssh_connect/session.py:33-69 | the password login, or the probe and what follows it; PasswordLogin, ProbeSecond, AfterSaveNoSave |
| Session.ProbeStage | ssh_connect/session.py:49-69 | the unreachable message, the key prompt, or the shell; UnreachableStops, SetupPrompted, NoSetupShell |
| Session.PromptStage | ssh_connect/session.py:59-69 | the shell on a no; the picker, then upload and shell or abort, on a yes; DeclinedStillConnects, NoKeyNoShell, UploadThenShell |
| Session.Unreachable | ssh_connect/session.py:54 | the message printed for an unreachable host |
| Session.WantsKeySetup | ssh_connect/session.py:49-57 | an authentication marker in the lower-cased probe output, and key setup not skipped |
| Session.Launcher.StartSession | ssh_connect/session.py:25-69 | the trace is extended by exactly `Launch`'s trace and the session ends as `Launch` says |
| Session.Launcher.Login | ssh_connect/session.py:33-47 | the password login, or the probe and what follows it |
| Session.Launcher.Classify | ssh_connect/session.py:49-69 | the marker classification and its branches |
| Session.Launcher.SetUpKey | ssh_connect/session.py:59-69 | the confirm prompt, the key list and the picker |
| Session.Launcher.PickAndUpload | ssh_connect/session.py:60-69 | the `if not key` test, the upload and the final shell |
| PositionMemory.LastPos | ssh_connect/utils.py:9-14 | a missing file or unparseable text gives 0, otherwise `int()` of the text |
| PositionMemory.CacheFile.Save | ssh_connect/utils.py:3-7 | the file afterwards holds exactly `str(idx)` |
| PositionMemory.CacheFile.Load | ssh_connect/utils.py:9-14 | reading the file gives `LastPos` of its contents |
| PositionMemory.CacheFile.SaveThenLoad | ssh_connect/utils.py:3-14 | a load after a save returns the saved index |
| PositionMemory.SavedIndexLoads | ssh_connect/utils.py:7-12 | `load_last_pos()` after `save_last_pos(idx)` is `idx`, for every integer |
| PositionMemory.PaddedIndexLoads | ssh_connect/utils.py:12 | whitespace around the number is ignored |
| PositionMemory.BlankGivesZero | ssh_connect/utils.py:12-14 | an empty or blank file gives 0 |
| PositionMemory.WordGivesZero | ssh_connect/utils.py:12-14 | text that starts with anything but a sign, a digit or whitespace gives 0 |
| Install.Suffix | install.py:17 | "Y/n" when the default is yes, "y/N" otherwise |
| Install.Ask | install.py:13-24 | a blank answer is the default; any other answer is yes exactly when its first character after stripping is "y" or "Y" |
| Install.AskWord | install.py:18-24 | a word without surrounding whitespace is yes exactly when it starts with "y" or "Y" |
| Install.AskYes | install.py:18-24 | example: "Yes" is yes |
| Install.AskYep | install.py:18-24 | example: "yep" is yes |
| Install.AskN | install.py:18-24 | example: "n" is no |
| Install.AskX | install.py:18-24 | example: "x" is no |
| Install.LineEnd | install.py:52 | the first line stops after the first newline, or at the end |
| Install.ReadLines | install.py:52 | `readlines()` concatenates back to the file, with no empty line |
| Install.NonBlank | install.py:52 | the stripped lines are non-empty and trimmed |
| Install.NonBlankAppend | install.py:52 | the lines of two parts of a file give the requirements of the first part, then those of the second |
| Install.Needed | install.py:51-52 | every requirement is non-empty and trimmed |
| Install.NeededOfLines | install.py:51-52 | a file of one requirement per line reads back as exactly those requirements, in order |
| Install.BlankLineSkipped | install.py:52 | a blank line contributes nothing |
| Install.NeededLine | install.py:51-52 | each line ended by a newline gives its stripped text, unless that is empty, ahead of the requirements of the following lines |
| Install.NeededLastLine | install.py:51-52 | a last line without a newline gives its stripped text, unless that is empty |
| Install.PaddedRequirement | install.py:52 | a line with whitespace around a requirement gives the requirement |
| Install.Missing | install.py:55 | a subsequence of the requirements, holding exactly those whose lower-case text the freeze output does not contain, each as many times as the requirements list it |
| Install.SubstringCounts | install.py:55 | example: "yaml" counts as installed when "pyyaml" is |
| Install.MissingNonEmpty | install.py:55-57 | something is missing exactly when some requirement is not contained in the freeze output |
| Install.CreateThenPip | install.py:32-59 | only the first command can create the environment, every other runs the environment's pip, only the last installs, and it does exactly when something is missing |
| Install.CreatesOnlyWhenAbsent | install.py:32-36 | the environment is created first and only when absent |
| Install.NoRequirementsNoPip | install.py:41-42 | without a requirements file no pip command runs |
| Install.InstallIffMissing | install.py:45-59 | `pip install` runs exactly when a requirement is missing, and its packages are `Missing` of the requirements: the missing ones in file order, repeats kept |
| Install.AlreadyInstalled | install.py:45-62 | with everything installed a second run only runs `pip freeze` |
| Install.PipSteps | install.py:45-59 | freeze, then an install only when something is missing |
| Install.VenvPlan | install.py:30-62 | the commands of `ensure_venv`; CreatesOnlyWhenAbsent, NoRequirementsNoPip, InstallIffMissing |
| Install.Desired | install.py:75-77 | the wrapper text is a bash script |
| Install.ShortcutName | install.py:107-109 | the stripped name, or "sc" when blank; never empty |
| Install.WrapperSetup | install.py:82-123 | `ensure_wrapper` reads no more lines than were typed |
| Install.Shortcut | install.py:104-123 | the shortcut step reads no more lines than were typed |
| Install.UpToDateUntouched | install.py:101-102 | an identical wrapper is neither rewritten nor asked about |
| Install.DeclinedWrapperStops | install.py:83-90 | declining an absent wrapper changes nothing and asks no shortcut question |
| Install.ShortcutChanges | install.py:104-123 | the shortcut step removes nothing and changes only the named entry, into a link to the wrapper; an existing entry changes only after a yes |
| Install.DefaultShortcutName | install.py:107-120 | a blank name makes the link "sc" |
| Install.OverwriteDefaultsToNo | install.py:113-118 | a blank answer to the overwrite question keeps the existing entry |
| Install.WrapperSetupChanges | install.py:82-123 | nothing is removed; every changed entry is the wrapper, written after a yes, or a link to the wrapper |
| Install.Installer.Run | install.py:36 | a command is appended to those run, and the bin directory is unchanged |
| Install.Installer.EnsureVenv | install.py:30-62 | the commands run are exactly `VenvPlan`'s, and the bin directory is unchanged |
| Install.Installer.RunPip | install.py:45-59 | `pip freeze`, then `pip install` of the missing requirements only when there are any |
| Install.Installer.EnsureWrapper | install.py:68-123 | the bin directory, the lines read and whether it finished are `WrapperSetup`'s |
| Install.Installer.AddShortcut | install.py:104-123 | the shortcut step as `Shortcut` says |

## Left out

- DNS, YAML parsing, file existence and reading, `subprocess`, `shutil.which`, `os.listdir` and `os.getenv` are inputs of the model; nothing is resolved, parsed or run.
- Printing, the prompt_toolkit layout and the styles (`themes.py`) are not modelled. A row is the fragment list that the HTML would produce; HTML escaping of names is left out.
- `app.py` is not part of this model, except that its use of the result of `select_host` motivates the finding below.
- Case mapping and `\d` cover ASCII only, as do `lower()`, `capitalize()` and the digits of `int()`.
- Session.PathJoin: handles only entry names without "/" (true of `os.listdir` entries); absolute names and "." components are not resolved.
- Session.Launcher.StartSession: the result of `subprocess.run` is not modelled, and neither are the failures of the commands or the upload. A key pick is recorded as `PickKey` even for an empty list, which `select_pubkey` rejects without showing anything.
- Confirm.AskConfirm: does not model the prompt text or what is echoed while re-prompting.
- Install.Installer.EnsureWrapper: does not model `chmod(0o755)`, `mkdir`, or link following. A wrapper that is a symbolic link counts as differing and is replaced by a regular file, where `write_text` would write through the link. `exists()` on a dangling link, shortcut names containing "/", and `KeyboardInterrupt` are left out. A bin entry is a file or a link, never a directory: a directory named `ssh_connect` would make `read_text()` raise `IsADirectoryError` (install.py:93), and a directory with the shortcut name would make `unlink()` raise after a yes to the overwrite question (install.py:115); neither failure is modelled.
- Install.LineEnd: text-mode reading (`open(..., "r")`, universal newlines) turns "\r" and "\r\n" into "\n" before `readlines()`; the model splits only at "\n". A CRLF file gives the same requirements, because `strip()` drops the "\r"; a file with lone-CR line endings is a single line to the model.
- Install.Installer.EnsureVenv: ignores `check=True` failures and the exit status of `pip freeze`.
- Only the keys of a host entry that the code reads are modelled, as strings, integers and booleans; YAML values of other types are not.
- PositionMemory.CacheFile.Save: does not model `os.makedirs` or a failing write.

## Findings

| source | as written | input that shows it | evidently intended | confidence | as-written member | corrected member |
|---|---|---|---|---|---|---|
| ssh_connect/ui/selector.py:42 | `selected = default` starts the cursor at the remembered position without clamping, and Enter returns it; `app.py` then indexes the host list with it | a remembered position 7 with three hosts left returns 7 on Enter; with an empty list Enter returns 0 and Down, Enter returns -1; each index raises `IndexError` or picks the wrong host | start on the row nearest the default and return `None` for an empty list | not executed | Selector.StaleDefaultEscapes | Selector.ClampedChoice |
