/**
 * The installer of `install.py`: the yes/no prompt `ask`, the commands
 * `ensure_venv` runs to create the virtual environment and install the
 * missing requirements, and the interactive `ensure_wrapper`, which writes
 * the launcher script into the user's bin directory and optionally links a
 * shortcut name to it.
 *
 * The lines the user types are a finite sequence; when `input()` finds it
 * exhausted the installer stops there. The bin directory is a map from
 * entry name to a regular file with its text or a symbolic link with its
 * target. The output of `pip freeze` and the existence of the environment
 * and the requirements file are parameters.
 */
module Install {
  import opened Wrappers
  import opened Strings

  // ---------------------------------------------------------------------
  // ask
  // ---------------------------------------------------------------------

  /** The choices shown after the question: the capital letter is the default. */
  function Suffix(default: bool): (r: string)
    ensures |r| == 3 && r[1] == '/'
    ensures r[0] == 'Y' <==> default
    ensures r[2] == 'N' <==> !default
  {
    if default then "Y/n" else "y/N"
  }

  /**
   * `ask(prompt, default)` on the line typed: a blank answer is the
   * default, any other answer is yes exactly when it starts with "y" or "Y"
   * after the whitespace around it.
   */
  function Ask(default: bool, line: string): (r: bool)
    ensures Strip(line) == [] ==> r == default
    ensures Strip(line) != [] ==> (r <==> LowerChar(Strip(line)[0]) == 'y')
  {
    var ans := Lower(Strip(line));
    assert |ans| > 0 ==> ans[..1] == [ans[0]];
    if ans == "" && default then true
    else if ans == "" && !default then false
    else StartsWith(ans, "y")
  }

  /** A word without whitespace at its ends is yes exactly when its first letter is "y" or "Y". */
  lemma AskWord(default: bool, w: string)
    requires w != [] && Trimmed(w)
    ensures Ask(default, w) <==> (w[0] == 'y' || w[0] == 'Y')
  {
    StripPadded([], w, []);
    assert [] + w + [] == w;
  }

  /** Example of AskWord: "Yes" agrees, against a default of no. */
  lemma AskYes(line: string)
    requires line == "Yes"
    ensures Ask(false, line)
  {
    assert !IsSpace(line[0]) && !IsSpace(line[2]);
    AskWord(false, line);
  }

  /** Example: so does "yep", which the yes/no menu question would not recognise. */
  lemma AskYep(line: string)
    requires line == "yep"
    ensures Ask(false, line)
  {
    assert !IsSpace(line[0]) && !IsSpace(line[2]);
    AskWord(false, line);
  }

  /** Example of AskWord: "n" declines, against a default of yes. */
  lemma AskN(line: string)
    requires line == "n"
    ensures !Ask(true, line)
  {
    assert !IsSpace(line[0]);
    AskWord(true, line);
  }

  /** Example: so does "x", as anything that does not start with "y". */
  lemma AskX(line: string)
    requires line == "x"
    ensures !Ask(true, line)
  {
    assert !IsSpace(line[0]);
    AskWord(true, line);
  }

  // ---------------------------------------------------------------------
  // ensure_venv
  // ---------------------------------------------------------------------

  /** The length of the first line of non-empty `text`, its newline included. */
  function LineEnd(text: string): (n: nat)
    requires text != []
    ensures 0 < n <= |text|
    ensures forall i :: 0 <= i < n - 1 ==> text[i] != '\n'
    ensures n < |text| ==> text[n - 1] == '\n'
    decreases |text|
  {
    if text[0] == '\n' || |text| == 1 then 1
    else
      var m := LineEnd(text[1..]);
      assert forall i :: 1 <= i < m ==> text[i] == text[1..][i - 1];
      1 + m
  }

  /** `readlines()`: the lines of the file, each with its newline, the last one perhaps without. */
  function ReadLines(text: string): (r: seq<string>)
    ensures Concat(r) == text
    ensures forall i :: 0 <= i < |r| ==> r[i] != []
    decreases |text|
  {
    if text == [] then []
    else
      var n := LineEnd(text);
      var rest := ReadLines(text[n..]);
      ConcatCons(text[..n], rest);
      assert text[..n] + text[n..] == text;
      [text[..n]] + rest
  }

  function Concat(parts: seq<string>): string {
    if parts == [] then [] else parts[0] + Concat(parts[1..])
  }

  lemma ConcatCons(a: string, rest: seq<string>)
    ensures Concat([a] + rest) == a + Concat(rest)
  {
    assert ([a] + rest)[1..] == rest;
  }

  /** The stripped lines, blank ones dropped. */
  function NonBlank(lines: seq<string>): (r: seq<string>)
    ensures |r| <= |lines|
    ensures forall i :: 0 <= i < |r| ==> r[i] != [] && Trimmed(r[i])
  {
    if lines == [] then []
    else
      var s := Strip(lines[0]);
      (if s == [] then [] else [s]) + NonBlank(lines[1..])
  }

  /**
   * The requirements `ensure_venv` reads: every line of the file without
   * the whitespace around it, blank lines skipped, in file order.
   */
  function Needed(text: string): (r: seq<string>)
    ensures forall i :: 0 <= i < |r| ==> r[i] != [] && Trimmed(r[i])
  {
    NonBlank(ReadLines(text))
  }

  /** A file of one requirement per line, each line ended by a newline. */
  function Lines(pkgs: seq<string>): (text: string) {
    if pkgs == [] then [] else pkgs[0] + "\n" + Lines(pkgs[1..])
  }

  predicate IsRequirement(p: string) {
    p != [] && Trimmed(p) && '\n' !in p
  }

  lemma LineEndAt(p: string, rest: string)
    requires '\n' !in p
    ensures LineEnd(p + "\n" + rest) == |p| + 1
  {
    var t := p + "\n" + rest;
    assert t[|p|] == '\n';
  }

  lemma ReadLinesCons(p: string, rest: string)
    requires '\n' !in p
    ensures ReadLines(p + "\n" + rest) == [p + "\n"] + ReadLines(rest)
  {
    var t := p + "\n" + rest;
    LineEndAt(p, rest);
    assert t[..|p| + 1] == p + "\n";
    assert t[|p| + 1..] == rest;
  }

  /** Reading back a file written one requirement per line gives the requirements. */
  lemma {:induction false} NeededOfLines(pkgs: seq<string>)
    requires forall i :: 0 <= i < |pkgs| ==> IsRequirement(pkgs[i])
    ensures Needed(Lines(pkgs)) == pkgs
    decreases |pkgs|
  {
    if pkgs != [] {
      var p := pkgs[0];
      ReadLinesCons(p, Lines(pkgs[1..]));
      StripTrailing(p, "\n");
      NeededOfLines(pkgs[1..]);
      assert [p] + pkgs[1..] == pkgs;
    }
  }

  /** Stripping the lines of two parts of a file is stripping each part in turn. */
  lemma {:induction false} NonBlankAppend(a: seq<string>, b: seq<string>)
    ensures NonBlank(a + b) == NonBlank(a) + NonBlank(b)
    decreases |a|
  {
    if a != [] {
      var x, t := a[0], a[1..];
      var h := if Strip(x) == [] then [] else [Strip(x)];
      assert a == [x] + t;
      AppendAssoc([x], t, b);
      NonBlankCons(x, t + b);
      NonBlankCons(x, t);
      NonBlankAppend(t, b);
      AppendAssoc(h, NonBlank(t), NonBlank(b));
    } else {
      assert a + b == b;
    }
  }

  lemma NonBlankCons(x: string, rest: seq<string>)
    ensures NonBlank([x] + rest) == (if Strip(x) == [] then [] else [Strip(x)]) + NonBlank(rest)
  {
    assert ([x] + rest)[1..] == rest;
  }

  /**
   * One line of the file, its newline included: it gives its text without
   * the whitespace around it unless that is empty, ahead of the requirements
   * of the lines after it.
   */
  lemma NeededLine(p: string, rest: string)
    requires '\n' !in p
    ensures Needed(p + "\n" + rest) == (if Strip(p) == [] then [] else [Strip(p)]) + Needed(rest)
  {
    ReadLinesCons(p, rest);
    assert ([p + "\n"] + ReadLines(rest))[1..] == ReadLines(rest);
    StripAppendSpace(p, "\n");
  }

  /** A last line without a newline counts like any other. */
  lemma NeededLastLine(p: string)
    requires p != [] && '\n' !in p
    ensures Needed(p) == if Strip(p) == [] then [] else [Strip(p)]
  {
    assert LineEnd(p) == |p|;
    assert p[..|p|] == p;
  }

  /** A padded requirement such as "  requests  " is read as "requests". */
  lemma PaddedRequirement(a: string, t: string, b: string, rest: string)
    requires AllSpace(a) && AllSpace(b) && IsRequirement(t)
    requires '\n' !in a && '\n' !in b
    ensures Needed(a + t + b + "\n" + rest) == [t] + Needed(rest)
  {
    StripPadded(a, t, b);
    NeededLine(a + t + b, rest);
  }

  /** A blank line contributes nothing. */
  lemma BlankLineSkipped(blank: string, rest: string)
    requires AllSpace(blank) && '\n' !in blank
    ensures Needed(blank + "\n" + rest) == Needed(rest)
  {
    ReadLinesCons(blank, rest);
    StripPadded(blank + "\n", [], []);
    assert blank + "\n" + [] + [] == blank + "\n";
  }

  /**
   * The requirements not in the lower-cased `pip freeze` output, in file
   * order: a requirement counts as installed when its lower-case text
   * occurs anywhere in that output.
   */
  function Missing(needed: seq<string>, installed: string): (r: seq<string>)
    ensures IsSubsequence(r, needed)
    ensures forall p :: p in r <==> p in needed && !Contains(installed, Lower(p))
    ensures forall p :: multiset(r)[p] == if Contains(installed, Lower(p)) then 0 else multiset(needed)[p]
  {
    if needed == [] then []
    else
      var rest := Missing(needed[1..], installed);
      assert forall p :: p in needed <==> p == needed[0] || p in needed[1..];
      assert needed == [needed[0]] + needed[1..];
      if Contains(installed, Lower(needed[0])) then rest else [needed[0]] + rest
  }

  /** `a` is `b` with some elements left out, the others in their order. */
  predicate IsSubsequence(a: seq<string>, b: seq<string>)
    decreases |b|
  {
    || a == []
    || (b != [] && a[0] == b[0] && IsSubsequence(a[1..], b[1..]))
    || (b != [] && IsSubsequence(a, b[1..]))
  }

  /** Example: the test is by substring, so "yaml" counts as present when "pyyaml" is installed. */
  lemma SubstringCounts()
    ensures Missing(["yaml"], "pyyaml==6.0\n") == []
  {
    var s := "pyyaml==6.0\n";
    assert Lower("yaml") == "yaml";
    assert s[2..6] == "yaml";
    ContainsAt(s, "yaml", 2);
  }

  /** The pip of the environment. */
  function Pip(venv: string): string {
    venv + "/bin/pip"
  }

  /** A command `ensure_venv` runs; `Argv` is its argument vector. */
  datatype Command =
    | CreateVenv(python: string, venv: string)
    | Freeze(pip: string)
    | InstallPkgs(pip: string, pkgs: seq<string>)

  function Argv(c: Command): seq<string> {
    match c
    case CreateVenv(python, venv) => [python, "-m", "venv", venv]
    case Freeze(pip) => [pip, "freeze"]
    case InstallPkgs(pip, pkgs) => [pip, "install"] + pkgs
  }

  /** The environment when it is absent, nothing otherwise. */
  function Create(python: string, venv: string, venvExists: bool): (r: seq<Command>)
    ensures forall c :: c in r ==> c == CreateVenv(python, venv)
  {
    if venvExists then [] else [CreateVenv(python, venv)]
  }

  /** `pip freeze`, then `pip install` of the missing requirements when there are any. */
  function PipSteps(pip: string, missing: seq<string>): (r: seq<Command>) {
    [Freeze(pip)] + (if missing == [] then [] else [InstallPkgs(pip, missing)])
  }

  /**
   * The commands `ensure_venv` runs: the environment when it is absent;
   * then, when there is a requirements file, the pip steps for the
   * requirements the freeze output lacks.
   */
  function VenvPlan(python: string, venv: string, venvExists: bool, requirements: Option<string>, freeze: string)
    : (r: seq<Command>)
  {
    match requirements
    case None => Create(python, venv, venvExists)
    case Some(text) => Create(python, venv, venvExists) + PipSteps(Pip(venv), Missing(Needed(text), Lower(freeze)))
  }

  /** The shape of a plan with the pip steps for any list of missing requirements. */
  lemma CreateThenPip(python: string, venv: string, venvExists: bool, missing: seq<string>)
    ensures var create := Create(python, venv, venvExists);
      var plan := create + PipSteps(Pip(venv), missing);
      && |plan| == |create| + (if missing == [] then 1 else 2)
      && (forall i :: 0 <= i < |plan| && plan[i].CreateVenv? ==> i == 0 && !venvExists)
      && (forall i :: 0 <= i < |plan| && !plan[i].CreateVenv? ==> plan[i].pip == Pip(venv))
      && (forall i :: 0 <= i < |plan| - 1 ==> !plan[i].InstallPkgs?)
      && (plan[|plan| - 1].InstallPkgs? <==> missing != [])
      && (missing != [] ==> plan[|plan| - 1] == InstallPkgs(Pip(venv), missing))
  {
    var create := Create(python, venv, venvExists);
    var steps := PipSteps(Pip(venv), missing);
    assert forall i :: |create| <= i < |create + steps| ==> (create + steps)[i] == steps[i - |create|];
  }

  /** The environment is created first, and only when it is absent; every pip command uses its pip. */
  lemma CreatesOnlyWhenAbsent(python: string, venv: string, venvExists: bool, requirements: Option<string>, freeze: string)
    ensures var plan := VenvPlan(python, venv, venvExists, requirements, freeze);
      && (forall i :: 0 <= i < |plan| && plan[i].CreateVenv? ==> i == 0 && !venvExists)
      && (!venvExists ==> plan != [] && plan[0] == CreateVenv(python, venv))
      && (forall i :: 0 <= i < |plan| && !plan[i].CreateVenv? ==> plan[i].pip == Pip(venv))
  {
    if requirements.Some? {
      CreateThenPip(python, venv, venvExists, Missing(Needed(requirements.value), Lower(freeze)));
    }
  }

  /** Without a requirements file no pip command runs. */
  lemma NoRequirementsNoPip(python: string, venv: string, venvExists: bool, freeze: string)
    ensures forall c :: c in VenvPlan(python, venv, venvExists, None, freeze) ==> c.CreateVenv?
  {
  }

  /** Some requirement is missing exactly when `Missing` is not empty. */
  lemma MissingNonEmpty(needed: seq<string>, installed: string)
    ensures Missing(needed, installed) != [] <==> exists p :: p in needed && !Contains(installed, Lower(p))
  {
    var missing := Missing(needed, installed);
    if missing != [] {
      assert missing[0] in missing;
    }
  }

  /**
   * Only the last command can be `pip install`; it is one exactly when
   * some requirement of the file does not occur in the freeze output, and
   * it then names exactly those requirements, each as often as the file
   * lists it, in file order.
   */
  lemma InstallIffMissing(python: string, venv: string, venvExists: bool, text: string, freeze: string)
    ensures var plan := VenvPlan(python, venv, venvExists, Some(text), freeze);
      && (forall i :: 0 <= i < |plan| - 1 ==> !plan[i].InstallPkgs?)
      && (plan[|plan| - 1].InstallPkgs?
          <==> exists p :: p in Needed(text) && !Contains(Lower(freeze), Lower(p)))
      && (plan[|plan| - 1].InstallPkgs? ==>
           forall p :: p in plan[|plan| - 1].pkgs <==> p in Needed(text) && !Contains(Lower(freeze), Lower(p)))
      && (plan[|plan| - 1].InstallPkgs? ==>
           && plan[|plan| - 1].pkgs == Missing(Needed(text), Lower(freeze))
           && IsSubsequence(plan[|plan| - 1].pkgs, Needed(text))
           && forall p :: multiset(plan[|plan| - 1].pkgs)[p]
                == if Contains(Lower(freeze), Lower(p)) then 0 else multiset(Needed(text))[p])
  {
    CreateThenPip(python, venv, venvExists, Missing(Needed(text), Lower(freeze)));
    MissingNonEmpty(Needed(text), Lower(freeze));
  }

  /** A second run with everything installed creates nothing and installs nothing. */
  lemma AlreadyInstalled(python: string, venv: string, pkgs: seq<string>, freeze: string)
    requires forall i :: 0 <= i < |pkgs| ==> IsRequirement(pkgs[i])
    requires forall i :: 0 <= i < |pkgs| ==> Contains(Lower(freeze), Lower(pkgs[i]))
    ensures VenvPlan(python, venv, true, Some(Lines(pkgs)), freeze) == [Freeze(Pip(venv))]
  {
    NeededOfLines(pkgs);
    MissingNonEmpty(pkgs, Lower(freeze));
  }

  // ---------------------------------------------------------------------
  // ensure_wrapper
  // ---------------------------------------------------------------------

  /** An entry of the bin directory. */
  datatype Node = File(text: string) | Link(target: string)

  /** The bin directory afterwards, how many lines were read, and whether the installer got to its end. */
  datatype Setup = Setup(bin: map<string, Node>, used: nat, finished: bool)

  const WrapperName: string := "ssh_connect"

  /** The launcher script: run the package with the environment's interpreter. */
  function Desired(venv: string): (r: string)
    ensures StartsWith(r, "#!/bin/bash\n")
  {
    "#!/bin/bash\nexec \"" + venv + "/bin/python\" -m ssh_connect \"$@\"\n"
  }

  function WrapperPath(binDir: string): string {
    binDir + "/" + WrapperName
  }

  /** The name typed for the shortcut, "sc" when blank. */
  function ShortcutName(line: string): (r: string)
    ensures r != [] && Trimmed(r)
    ensures Strip(line) != [] ==> r == Strip(line)
  {
    var t := Strip(line);
    if t == [] then "sc" else t
  }

  /**
   * The wrapper step: an absent wrapper is written on yes (default yes),
   * and the installer stops on no; a wrapper with other contents is
   * replaced on yes (default yes) and kept otherwise; an up-to-date one is
   * left alone without a question. Then the shortcut step.
   */
  function WrapperSetup(bin: map<string, Node>, binDir: string, desired: string, lines: seq<string>): (r: Setup)
    ensures r.used <= |lines|
  {
    var target := WrapperPath(binDir);
    if WrapperName !in bin then
      if lines == [] then Setup(bin, 0, false)
      else if Ask(true, lines[0]) then Shortcut(bin[WrapperName := File(desired)], target, lines, 1)
      else Setup(bin, 1, true)
    else if bin[WrapperName] != File(desired) then
      if lines == [] then Setup(bin, 0, false)
      else Shortcut(if Ask(true, lines[0]) then bin[WrapperName := File(desired)] else bin, target, lines, 1)
    else Shortcut(bin, target, lines, 0)
  }

  /**
   * The shortcut step from line `at`: on yes (default yes) the name is
   * read; a free name gets the link, a taken one only after a yes to the
   * overwrite question (default no).
   */
  function Shortcut(bin: map<string, Node>, target: string, lines: seq<string>, at: nat): (r: Setup)
    requires at <= |lines|
    ensures at <= r.used <= |lines|
  {
    if at == |lines| then Setup(bin, at, false)
    else if !Ask(true, lines[at]) then Setup(bin, at + 1, true)
    else if at + 1 == |lines| then Setup(bin, at + 1, false)
    else
      var name := ShortcutName(lines[at + 1]);
      if name !in bin then Setup(bin[name := Link(target)], at + 2, true)
      else if at + 2 == |lines| then Setup(bin, at + 2, false)
      else if Ask(false, lines[at + 2]) then Setup(bin[name := Link(target)], at + 3, true)
      else Setup(bin, at + 3, true)
  }

  /** An up-to-date wrapper is neither rewritten nor asked about. */
  lemma UpToDateUntouched(bin: map<string, Node>, binDir: string, desired: string, lines: seq<string>)
    requires WrapperName in bin && bin[WrapperName] == File(desired)
    ensures WrapperSetup(bin, binDir, desired, lines) == Shortcut(bin, WrapperPath(binDir), lines, 0)
  {
  }

  /** Declining the wrapper ends the installer: nothing changes, no shortcut question. */
  lemma DeclinedWrapperStops(bin: map<string, Node>, binDir: string, desired: string, lines: seq<string>)
    requires WrapperName !in bin && lines != [] && !Ask(true, lines[0])
    ensures WrapperSetup(bin, binDir, desired, lines) == Setup(bin, 1, true)
  {
  }

  /**
   * The shortcut step removes nothing and changes at most the entry named
   * on line `at + 1`, which becomes a link to the wrapper; an existing
   * entry changes only after a yes to the overwrite question.
   */
  lemma ShortcutChanges(bin: map<string, Node>, target: string, lines: seq<string>, at: nat)
    requires at <= |lines|
    ensures var r := Shortcut(bin, target, lines, at);
      && (forall k :: k in bin ==> k in r.bin)
      && (forall k :: k in r.bin && (k !in bin || r.bin[k] != bin[k]) ==>
            at + 1 < |lines| && k == ShortcutName(lines[at + 1]) && r.bin[k] == Link(target))
      && (forall k :: k in bin && r.bin[k] != bin[k] ==> at + 2 < |lines| && Ask(false, lines[at + 2]))
  {
    var r := Shortcut(bin, target, lines, at);
    if at == |lines| || !Ask(true, lines[at]) || at + 1 == |lines| {
      assert r.bin == bin;
    } else {
      var name := ShortcutName(lines[at + 1]);
      if name !in bin {
        assert r.bin == bin[name := Link(target)];
      } else if at + 2 < |lines| && Ask(false, lines[at + 2]) {
        assert r.bin == bin[name := Link(target)];
      } else {
        assert r.bin == bin;
      }
    }
  }

  /** A blank name makes the shortcut "sc". */
  lemma DefaultShortcutName(bin: map<string, Node>, target: string, lines: seq<string>, at: nat)
    requires at + 1 < |lines| && Ask(true, lines[at]) && AllSpace(lines[at + 1])
    requires "sc" !in bin
    ensures Shortcut(bin, target, lines, at) == Setup(bin["sc" := Link(target)], at + 2, true)
  {
    StripPadded(lines[at + 1], [], []);
    assert lines[at + 1] + [] + [] == lines[at + 1];
  }

  /** A blank answer to the overwrite question keeps the existing entry. */
  lemma OverwriteDefaultsToNo(bin: map<string, Node>, target: string, lines: seq<string>, at: nat)
    requires at + 2 < |lines| && Ask(true, lines[at]) && ShortcutName(lines[at + 1]) in bin
    requires AllSpace(lines[at + 2])
    ensures Shortcut(bin, target, lines, at) == Setup(bin, at + 3, true)
  {
    StripPadded(lines[at + 2], [], []);
    assert lines[at + 2] + [] + [] == lines[at + 2];
  }

  /**
   * Over the whole of `ensure_wrapper`: nothing is removed, and every entry
   * that changes is the wrapper, written with the launcher script after a
   * yes to the first question, or the shortcut, linked to the wrapper.
   */
  lemma WrapperSetupChanges(bin: map<string, Node>, binDir: string, desired: string, lines: seq<string>)
    ensures var r := WrapperSetup(bin, binDir, desired, lines);
      && (forall k :: k in bin ==> k in r.bin)
      && (forall k :: k in r.bin && (k !in bin || r.bin[k] != bin[k]) ==>
            r.bin[k] == Link(WrapperPath(binDir))
            || (k == WrapperName && r.bin[k] == File(desired) && Ask(true, lines[0])))
  {
    var target := WrapperPath(binDir);
    if WrapperName !in bin {
      if lines != [] && Ask(true, lines[0]) {
        ShortcutChanges(bin[WrapperName := File(desired)], target, lines, 1);
      }
    } else if bin[WrapperName] != File(desired) {
      if lines != [] {
        ShortcutChanges(if Ask(true, lines[0]) then bin[WrapperName := File(desired)] else bin, target, lines, 1);
      }
    } else {
      ShortcutChanges(bin, target, lines, 0);
    }
  }

  // ---------------------------------------------------------------------
  // The installer's effects
  // ---------------------------------------------------------------------

  /** The commands run so far and the bin directory. */
  class Installer {
    var ran: seq<Command>
    var bin: map<string, Node>

    constructor (entries: map<string, Node>)
      ensures ran == [] && bin == entries
    {
      ran := [];
      bin := entries;
    }

    /** `subprocess.run(Argv(c))`. */
    method Run(c: Command)
      modifies this
      ensures ran == old(ran) + [c] && bin == old(bin)
    {
      ran := ran + [c];
    }

    /** `ensure_venv`: the commands of `VenvPlan`, one after another. */
    method EnsureVenv(python: string, venv: string, venvExists: bool, requirements: Option<string>, freeze: string)
      modifies this
      ensures ran == old(ran) + VenvPlan(python, venv, venvExists, requirements, freeze)
      ensures bin == old(bin)
    {
      ghost var before := ran;
      if !venvExists {
        Run(CreateVenv(python, venv));
      }
      assert ran == before + Create(python, venv, venvExists);
      if requirements.Some? {
        var pip := Pip(venv);
        var needed := Needed(requirements.value);
        var missing := Missing(needed, Lower(freeze));
        RunPip(pip, missing);
        AppendAssoc(before, Create(python, venv, venvExists), PipSteps(pip, missing));
      }
    }

    /** `pip freeze`, then `pip install` of `missing` unless it is empty. */
    method RunPip(pip: string, missing: seq<string>)
      modifies this
      ensures ran == old(ran) + PipSteps(pip, missing)
      ensures bin == old(bin)
    {
      Run(Freeze(pip));
      if missing != [] {
        Run(InstallPkgs(pip, missing));
      }
    }

    /** `ensure_wrapper`: the wrapper step, then the shortcut step. */
    method EnsureWrapper(binDir: string, desired: string, lines: seq<string>) returns (used: nat, finished: bool)
      modifies this
      ensures Setup(bin, used, finished) == WrapperSetup(old(bin), binDir, desired, lines)
      ensures ran == old(ran)
    {
      var target := WrapperPath(binDir);
      if WrapperName !in bin {
        if lines == [] {
          used, finished := 0, false;
        } else if Ask(true, lines[0]) {
          bin := bin[WrapperName := File(desired)];
          used, finished := AddShortcut(target, lines, 1);
        } else {
          used, finished := 1, true;
        }
      } else if bin[WrapperName] != File(desired) {
        if lines == [] {
          used, finished := 0, false;
        } else {
          if Ask(true, lines[0]) {
            bin := bin[WrapperName := File(desired)];
          }
          used, finished := AddShortcut(target, lines, 1);
        }
      } else {
        used, finished := AddShortcut(target, lines, 0);
      }
    }

    /** The shortcut step, reading from line `at`. */
    method AddShortcut(target: string, lines: seq<string>, at: nat) returns (used: nat, finished: bool)
      requires at <= |lines|
      modifies this
      ensures Setup(bin, used, finished) == Shortcut(old(bin), target, lines, at)
      ensures ran == old(ran)
    {
      if at == |lines| {
        return at, false;
      }
      if !Ask(true, lines[at]) {
        return at + 1, true;
      }
      if at + 1 == |lines| {
        return at + 1, false;
      }
      var name := ShortcutName(lines[at + 1]);
      if name in bin {
        if at + 2 == |lines| {
          return at + 2, false;
        }
        if !Ask(false, lines[at + 2]) {
          return at + 3, true;
        }
        bin := bin[name := Link(target)];
        return at + 3, true;
      }
      bin := bin[name := Link(target)];
      return at + 2, true;
    }
  }
}
