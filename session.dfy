/**
 * The session launcher of `ssh_connect/session.py`: the local public keys
 * offered for upload, and `start_session`, which saves the menu position,
 * then either logs in with the stored password or probes the host and,
 * when the probe asks for a key, offers to upload one first.
 *
 * Every external effect is an oracle field of `World` or an entry of the
 * launcher's trace: the commands `subprocess.run` would start (with their
 * argument vectors), the message printed, the question asked and the key
 * list shown.
 */
module Session {
  import opened Wrappers
  import opened Strings
  import opened Decimal
  import opened Sorting
  import opened Config
  import Cursor
  import Confirm
  import PubkeySelector

  // ---------------------------------------------------------------------
  // list_local_pubkeys
  // ---------------------------------------------------------------------

  /** `os.path.join(dir, name)` for a directory entry `name` (which holds no "/"). */
  function PathJoin(dir: string, name: string): (r: string)
    ensures EndsWith(r, name)
  {
    if dir == [] then name
    else if dir[|dir| - 1] == '/' then dir + name
    else dir + "/" + name
  }

  /** The entries whose name ends in ".pub", in listing order. */
  function PubNames(names: seq<string>): (r: seq<string>)
    ensures forall f :: f in r <==> f in names && EndsWith(f, ".pub")
    ensures multiset(r) <= multiset(names)
  {
    if names == [] then []
    else
      var rest := PubNames(names[1..]);
      assert names == [names[0]] + names[1..];
      if EndsWith(names[0], ".pub") then [names[0]] + rest else rest
  }

  function JoinAll(dir: string, names: seq<string>): (r: seq<string>)
    ensures |r| == |names|
  {
    seq(|names|, i requires 0 <= i < |names| => PathJoin(dir, names[i]))
  }

  predicate IsEd25519(k: string) {
    EndsWith(k, "ed25519.pub")
  }

  /** The key `(not k.endswith("ed25519.pub"), k)`: the flag first, then the text. */
  function KeyOrder(k: string): seq<int> {
    [if IsEd25519(k) then 0 else 1] + Codes(k)
  }

  /**
   * `list_local_pubkeys()` with `ssh_dir` the expanded "~/.ssh" and
   * `listing` what `os.listdir` gives there, `None` when it is not a
   * directory.
   */
  function ListLocalPubkeys(sshDir: string, listing: Option<seq<string>>): (r: seq<string>)
    ensures listing.None? ==> r == []
    ensures listing.Some? ==> multiset(r) == multiset(JoinAll(sshDir, PubNames(listing.value)))
  {
    match listing
    case None => []
    case Some(names) => SortBy(JoinAll(sshDir, PubNames(names)), KeyOrder)
  }

  /** A path is listed exactly when it joins the directory to a ".pub" entry. */
  lemma ListedKeys(sshDir: string, names: seq<string>, k: string)
    ensures k in ListLocalPubkeys(sshDir, Some(names))
        <==> exists f :: f in names && EndsWith(f, ".pub") && k == PathJoin(sshDir, f)
  {
    var r := ListLocalPubkeys(sshDir, Some(names));
    var fs := PubNames(names);
    var joined := JoinAll(sshDir, fs);
    assert k in r <==> k in joined by {
      assert k in r <==> k in multiset(r);
      assert k in joined <==> k in multiset(joined);
    }
    if k in joined {
      var i :| 0 <= i < |joined| && joined[i] == k;
      assert fs[i] in fs;
    }
    if f :| f in names && EndsWith(f, ".pub") && k == PathJoin(sshDir, f) {
      assert f in fs;
      var i :| 0 <= i < |fs| && fs[i] == f;
      assert joined[i] == k;
    }
  }

  /** Every listed key is a ".pub" file. */
  lemma ListedKeysArePub(sshDir: string, listing: Option<seq<string>>, k: string)
    requires k in ListLocalPubkeys(sshDir, listing)
    ensures EndsWith(k, ".pub") && |k| >= 4
  {
    var f :| f in listing.value && EndsWith(f, ".pub") && k == PathJoin(sshDir, f) by {
      ListedKeys(sshDir, listing.value, k);
    }
    EndsWithTransitive(k, f, ".pub");
  }

  lemma EndsWithTransitive(s: string, t: string, u: string)
    requires EndsWith(s, t) && EndsWith(t, u)
    ensures EndsWith(s, u)
  {
    assert s[|s| - |u|..] == t[|t| - |u|..];
  }

  /**
   * The ed25519 keys come first, and within either group the paths are in
   * ascending order.
   */
  lemma Ed25519First(sshDir: string, listing: Option<seq<string>>, i: nat, j: nat)
    requires i < j < |ListLocalPubkeys(sshDir, listing)|
    ensures var r := ListLocalPubkeys(sshDir, listing);
      && (IsEd25519(r[j]) ==> IsEd25519(r[i]))
      && (IsEd25519(r[i]) == IsEd25519(r[j]) ==> LexLe(Codes(r[i]), Codes(r[j])))
  {
    var r := ListLocalPubkeys(sshDir, listing);
    assert LexLe(KeyOrder(r[i]), KeyOrder(r[j]));
    LexLeHead(if IsEd25519(r[i]) then 0 else 1, Codes(r[i]), if IsEd25519(r[j]) then 0 else 1, Codes(r[j]));
  }

  // ---------------------------------------------------------------------
  // start_session
  // ---------------------------------------------------------------------

  /** What the launcher cannot compute: the environment and the user's input. */
  datatype World = World(
    logname: Option<string>,        // os.getenv("LOGNAME")
    hasSshpass: bool,               // shutil.which("sshpass") finds it
    probeStderr: string,            // what the probe writes to stderr
    answers: seq<string>,           // the lines typed at the confirm prompt
    sshDir: string,                 // os.path.expanduser("~/.ssh")
    listing: Option<seq<string>>,   // os.listdir(ssh_dir), None when not a directory
    presses: seq<Cursor.Key>)       // the keys pressed in the key picker

  /** One observable step of `start_session`. */
  datatype Action =
    | SavePos(index: int)            // save_pos_cb(index)
    | Probe(argv: seq<string>)       // the BatchMode probe
    | Sshpass(argv: seq<string>)     // login through sshpass
    | Ssh(argv: seq<string>)         // the interactive shell
    | CopyId(argv: seq<string>)      // ssh-copy-id
    | Say(text: string)              // print
    | Prompt(question: string)       // ask_confirm
    | PickKey(keys: seq<string>)     // select_pubkey

  /**
   * How `start_session` ends: a shell was started, the host was unreachable,
   * key setup was abandoned without a key, or the input ran out (end of
   * file at the prompt, or the key picker still open).
   */
  datatype Ended = ShellStarted | HostUnreachable | KeySetupAborted | InputEnded

  datatype Session = Session(trace: seq<Action>, ended: Ended)

  const AuthMarkers: seq<string> := ["permission denied", "publickey", "password:"]
  const DownMarkers: seq<string> := ["timed out", "connection refused", "no route"]

  /** `any(x in text for x in markers)`. */
  predicate AnyIn(text: string, markers: seq<string>) {
    exists i :: 0 <= i < |markers| && Contains(text, markers[i])
  }

  /** `con.get("user", os.getenv("LOGNAME"))` as an f-string shows it. */
  function UserText(con: ResolvedEntry, logname: Option<string>): string {
    match con.user
    case Some(u) => u
    case None => if logname.Some? then logname.value else "None"
  }

  /** `f"{user}@{host}"` with the host the resolved address. */
  function Target(con: ResolvedEntry, logname: Option<string>): string {
    UserText(con, logname) + "@" + con.resolvedIp.value
  }

  /** `str(con.get("port", 22))`. */
  function PortText(con: ResolvedEntry): string {
    IntToString(con.port.GetOr(22))
  }

  function ShellArgv(target: string, port: string): seq<string> {
    ["ssh", target, "-p", port]
  }

  function SshpassArgv(password: string, target: string, port: string): seq<string> {
    ["sshpass", "-p", password, "ssh", target, "-p", port]
  }

  function ProbeArgv(target: string, port: string): seq<string> {
    ["ssh", "-o", "BatchMode=yes", "-o", "ConnectTimeout=3", target, "-p", port, "true"]
  }

  function CopyIdArgv(key: string, port: string, target: string): seq<string> {
    ["ssh-copy-id", "-i", key, "-p", port, target]
  }

  function Question(host: string): string {
    "No key on " + host + ". Upload one?"
  }

  function Unreachable(host: string): string {
    "Host " + host + " unreachable."
  }

  /** The probe left a key-related complaint and the entry does not skip key setup. */
  predicate WantsKeySetup(con: ResolvedEntry, stderr: string) {
    AnyIn(Lower(stderr), AuthMarkers) && !con.skipKeySetup
  }

  /** After the confirm prompt: upload a key on a yes, then the shell; the shell alone on a no. */
  function AfterPrompt(con: ResolvedEntry, w: World): Session {
    var keys := ListLocalPubkeys(w.sshDir, w.listing);
    var d := Confirm.Decide(w.answers);
    PromptStage(Target(con, w.logname), PortText(con), if d.None? then None else Some(d.value.answer),
                keys, PubkeySelector.PubkeyChoice(keys, w.presses))
  }

  /** The effects after the prompt, given the answer and the key picked from `keys`. */
  function PromptStage(target: string, port: string, yes: Option<bool>, keys: seq<string>, pick: PubkeySelector.Pick): Session {
    match yes
    case None => Session([], InputEnded)
    case Some(b) =>
      if !b then Session([Ssh(ShellArgv(target, port))], ShellStarted)
      else
        match pick
        case Waiting => Session([PickKey(keys)], InputEnded)
        case NoKey => Session([PickKey(keys)], KeySetupAborted)
        case Picked(key) =>
          if key == "" then Session([PickKey(keys)], KeySetupAborted)
          else Session([PickKey(keys), CopyId(CopyIdArgv(key, port, target)), Ssh(ShellArgv(target, port))], ShellStarted)
  }

  /** The probe branch, after the probe has run. */
  function AfterProbe(con: ResolvedEntry, w: World): Session {
    var err := Lower(w.probeStderr);
    ProbeStage(con.resolvedIp.value, Target(con, w.logname), PortText(con),
               AnyIn(err, DownMarkers), WantsKeySetup(con, w.probeStderr), AfterPrompt(con, w))
  }

  /**
   * The effects after the probe, given whether it found the host down,
   * whether key setup is wanted, and what the prompt leads to.
   */
  function ProbeStage(host: string, target: string, port: string, down: bool, setup: bool, prompted: Session): Session {
    if down then Session([Say(Unreachable(host))], HostUnreachable)
    else if setup then Session([Prompt(Question(host))] + prompted.trace, prompted.ended)
    else Session([Ssh(ShellArgv(target, port))], ShellStarted)
  }

  /** What `start_session(con, index, style, save_pos_cb)` does. */
  function Launch(con: ResolvedEntry, index: int, w: World): Session {
    var s := AfterSave(con, w);
    Session([SavePos(index)] + s.trace, s.ended)
  }

  /** After the position is saved: the password login, or the probe and what follows it. */
  function AfterSave(con: ResolvedEntry, w: World): Session {
    var target := Target(con, w.logname);
    var port := PortText(con);
    if Truthy(con.password) then
      if w.hasSshpass then Session([Sshpass(SshpassArgv(con.password.value, target, port))], ShellStarted)
      else Session([Ssh(ShellArgv(target, port))], ShellStarted)
    else
      var s := AfterProbe(con, w);
      Session([Probe(ProbeArgv(target, port))] + s.trace, s.ended)
  }

  // ---------------------------------------------------------------------
  // What start_session promises
  // ---------------------------------------------------------------------

  predicate NoSave(t: seq<Action>) {
    forall i :: 0 <= i < |t| ==> !t[i].SavePos?
  }

  lemma ConsNoSave(a: Action, t: seq<Action>)
    requires !a.SavePos? && NoSave(t)
    ensures NoSave([a] + t)
  {
    var u := [a] + t;
    forall i | 0 <= i < |u| ensures !u[i].SavePos? {
      if i > 0 { assert u[i] == t[i - 1]; }
    }
  }

  lemma PromptStageNoSave(target: string, port: string, yes: Option<bool>, keys: seq<string>, pick: PubkeySelector.Pick)
    ensures NoSave(PromptStage(target, port, yes, keys, pick).trace)
  {
  }

  lemma AfterPromptNoSave(con: ResolvedEntry, w: World)
    ensures NoSave(AfterPrompt(con, w).trace)
  {
    var keys := ListLocalPubkeys(w.sshDir, w.listing);
    var d := Confirm.Decide(w.answers);
    PromptStageNoSave(Target(con, w.logname), PortText(con), if d.None? then None else Some(d.value.answer),
                      keys, PubkeySelector.PubkeyChoice(keys, w.presses));
  }

  lemma ProbeStageNoSave(host: string, target: string, port: string, down: bool, setup: bool, prompted: Session)
    requires NoSave(prompted.trace)
    ensures NoSave(ProbeStage(host, target, port, down, setup, prompted).trace)
  {
    ConsNoSave(Prompt(Question(host)), prompted.trace);
  }

  lemma AfterSaveNoSave(con: ResolvedEntry, w: World)
    ensures NoSave(AfterSave(con, w).trace)
    ensures |AfterSave(con, w).trace| >= 1
  {
    AfterPromptNoSave(con, w);
    var err := Lower(w.probeStderr);
    ProbeStageNoSave(con.resolvedIp.value, Target(con, w.logname), PortText(con),
                     AnyIn(err, DownMarkers), WantsKeySetup(con, w.probeStderr), AfterPrompt(con, w));
    ConsNoSave(Probe(ProbeArgv(Target(con, w.logname), PortText(con))), AfterProbe(con, w).trace);
  }

  /** `save_pos_cb(index)` comes first, and only once, on every path. */
  lemma SavesPositionFirst(con: ResolvedEntry, index: int, w: World)
    ensures var t := Launch(con, index, w).trace;
      && |t| >= 2 && t[0] == SavePos(index)
      && forall i :: 1 <= i < |t| ==> !t[i].SavePos?
  {
    AfterSaveNoSave(con, w);
    SavedFirst(index, AfterSave(con, w).trace);
  }

  lemma SavedFirst(index: int, r: seq<Action>)
    requires NoSave(r) && |r| >= 1
    ensures var t := [SavePos(index)] + r;
      && |t| >= 2 && t[0] == SavePos(index)
      && forall i :: 1 <= i < |t| ==> !t[i].SavePos?
  {
    var t := [SavePos(index)] + r;
    assert forall i :: 1 <= i < |t| ==> t[i] == r[i - 1];
  }

  /**
   * With a password no probe runs: the only command is the sshpass login
   * when sshpass is installed, the plain ssh login otherwise.
   */
  lemma PasswordLogin(con: ResolvedEntry, index: int, w: World)
    requires Truthy(con.password)
    ensures var target := Target(con, w.logname);
      var port := PortText(con);
      Launch(con, index, w)
        == Session([SavePos(index),
                    if w.hasSshpass then Sshpass(["sshpass", "-p", con.password.value, "ssh", target, "-p", port])
                    else Ssh(["ssh", target, "-p", port])],
                   ShellStarted)
  {
  }

  /**
   * A probe that reports the host down ends the session after the message,
   * whatever else the probe said: no prompt, no upload, no shell.
   */
  lemma UnreachableStops(con: ResolvedEntry, index: int, w: World)
    requires !Truthy(con.password) && AnyIn(Lower(w.probeStderr), DownMarkers)
    ensures var target := Target(con, w.logname);
      var port := PortText(con);
      Launch(con, index, w)
        == Session([SavePos(index),
                    Probe(["ssh", "-o", "BatchMode=yes", "-o", "ConnectTimeout=3", target, "-p", port, "true"]),
                    Say("Host " + con.resolvedIp.value + " unreachable.")],
                   HostUnreachable)
  {
    var p := AfterProbe(con, w);
    assert p == Session([Say(Unreachable(con.resolvedIp.value))], HostUnreachable);
  }

  /** Without a key complaint, or with key setup skipped, the shell starts right after the probe. */
  lemma NoSetupShell(con: ResolvedEntry, index: int, w: World)
    requires !Truthy(con.password) && !AnyIn(Lower(w.probeStderr), DownMarkers)
    requires !WantsKeySetup(con, w.probeStderr)
    ensures var target := Target(con, w.logname);
      var port := PortText(con);
      Launch(con, index, w)
        == Session([SavePos(index), Probe(ProbeArgv(target, port)), Ssh(["ssh", target, "-p", port])], ShellStarted)
  {
    var p := AfterProbe(con, w);
    assert p == Session([Ssh(ShellArgv(Target(con, w.logname), PortText(con)))], ShellStarted);
  }

  /** Without a password the probe runs right after the position is saved. */
  lemma ProbeSecond(con: ResolvedEntry, index: int, w: World)
    requires !Truthy(con.password)
    ensures var p := AfterProbe(con, w);
      Launch(con, index, w)
        == Session([SavePos(index), Probe(ProbeArgv(Target(con, w.logname), PortText(con)))] + p.trace, p.ended)
  {
    var p := AfterProbe(con, w);
    AppendAssoc([SavePos(index)], [Probe(ProbeArgv(Target(con, w.logname), PortText(con)))], p.trace);
  }

  /** When the probe wants a key the question comes next, then whatever the answers lead to. */
  lemma SetupPrompted(con: ResolvedEntry, w: World)
    requires !AnyIn(Lower(w.probeStderr), DownMarkers) && WantsKeySetup(con, w.probeStderr)
    ensures var p := AfterPrompt(con, w);
      AfterProbe(con, w) == Session([Prompt("No key on " + con.resolvedIp.value + ". Upload one?")] + p.trace, p.ended)
  {
  }

  /** Declining the upload still runs the shell. */
  lemma DeclinedStillConnects(con: ResolvedEntry, w: World, n: nat)
    requires Confirm.Decide(w.answers) == Some(Confirm.Decision(false, n))
    ensures AfterPrompt(con, w) == Session([Ssh(["ssh", Target(con, w.logname), "-p", PortText(con)])], ShellStarted)
  {
  }

  /** Agreeing, then leaving the key picker without a key: neither upload nor shell. */
  lemma NoKeyNoShell(con: ResolvedEntry, w: World, n: nat)
    requires Confirm.Decide(w.answers) == Some(Confirm.Decision(true, n))
    requires PubkeySelector.PubkeyChoice(ListLocalPubkeys(w.sshDir, w.listing), w.presses) == PubkeySelector.NoKey
    ensures AfterPrompt(con, w) == Session([PickKey(ListLocalPubkeys(w.sshDir, w.listing))], KeySetupAborted)
  {
  }

  /** Without a key directory there is nothing to pick, and key setup is abandoned. */
  lemma NoKeyDirectory(con: ResolvedEntry, w: World, n: nat)
    requires Confirm.Decide(w.answers) == Some(Confirm.Decision(true, n))
    requires w.listing.None?
    ensures AfterPrompt(con, w) == Session([PickKey([])], KeySetupAborted)
  {
    assert ListLocalPubkeys(w.sshDir, w.listing) == [];
  }

  /**
   * Agreeing and picking a key uploads that key and then runs the shell,
   * both against the resolved address and the entry's port.
   */
  lemma UploadThenShell(con: ResolvedEntry, w: World, n: nat, key: string)
    requires Confirm.Decide(w.answers) == Some(Confirm.Decision(true, n))
    requires PubkeySelector.PubkeyChoice(ListLocalPubkeys(w.sshDir, w.listing), w.presses) == PubkeySelector.Picked(key)
    ensures var target := Target(con, w.logname);
      var port := PortText(con);
      AfterPrompt(con, w)
        == Session([PickKey(ListLocalPubkeys(w.sshDir, w.listing)),
                    CopyId(["ssh-copy-id", "-i", key, "-p", port, target]),
                    Ssh(["ssh", target, "-p", port])],
                   ShellStarted)
  {
    ListedKeysArePub(w.sshDir, w.listing, key);
  }

  /** Every command goes to the resolved address, as the entry's user, on port 22 unless the entry says otherwise. */
  lemma TargetAndPort(con: ResolvedEntry, logname: Option<string>)
    ensures Target(con, logname) == UserText(con, logname) + "@" + con.resolvedIp.value
    ensures con.port.None? ==> PortText(con) == "22"
    ensures con.port.Some? ==> PortText(con) == IntToString(con.port.value)
    ensures con.user.None? && logname.Some? ==> UserText(con, logname) == logname.value
  {
    if con.port.None? {
      assert NatToString(22) == NatToString(2) + [DigitChar(2)];
    }
  }

  /** The launcher records every effect of `start_session` in order. */
  class Launcher {
    var trace: seq<Action>

    constructor ()
      ensures trace == []
    {
      trace := [];
    }

    method Record(a: Action)
      modifies this
      ensures trace == old(trace) + [a]
    {
      trace := trace + [a];
    }

    /** `start_session`: one effect after another, as the source performs them. */
    method StartSession(con: ResolvedEntry, index: int, w: World) returns (ended: Ended)
      modifies this
      ensures trace == old(trace) + Launch(con, index, w).trace
      ensures ended == Launch(con, index, w).ended
    {
      Record(SavePos(index));
      ghost var rest := AfterSave(con, w);
      ended := Login(con, w);
      AppendAssoc(old(trace), [SavePos(index)], rest.trace);
    }

    /** The password login when the entry has a password, the probe otherwise. */
    method Login(con: ResolvedEntry, w: World) returns (ended: Ended)
      modifies this
      ensures trace == old(trace) + AfterSave(con, w).trace
      ensures ended == AfterSave(con, w).ended
    {
      var port := PortText(con);
      var target := Target(con, w.logname);
      if con.password.Some? && con.password.value != "" {
        if w.hasSshpass {
          Record(Sshpass(SshpassArgv(con.password.value, target, port)));
        } else {
          Record(Ssh(ShellArgv(target, port)));
        }
        ended := ShellStarted;
      } else {
        Record(Probe(ProbeArgv(target, port)));
        ghost var probed := AfterProbe(con, w);
        ended := Classify(con, w);
        AppendAssoc(old(trace), [Probe(ProbeArgv(target, port))], probed.trace);
      }
    }

    /** What follows the probe: its stderr decides between giving up, key setup and the shell. */
    method Classify(con: ResolvedEntry, w: World) returns (ended: Ended)
      modifies this
      ensures trace == old(trace) + AfterProbe(con, w).trace
      ensures ended == AfterProbe(con, w).ended
    {
      var host := con.resolvedIp.value;
      var stderr := Lower(w.probeStderr);
      var needKey := AnyIn(stderr, AuthMarkers);
      var unreachable := AnyIn(stderr, DownMarkers);
      ghost var prompted := AfterPrompt(con, w);
      assert AfterProbe(con, w)
          == ProbeStage(host, Target(con, w.logname), PortText(con), unreachable, needKey && !con.skipKeySetup, prompted);
      if unreachable {
        Record(Say(Unreachable(host)));
        ended := HostUnreachable;
      } else if needKey && !con.skipKeySetup {
        Record(Prompt(Question(host)));
        ended := SetUpKey(con, w);
        AppendAssoc(old(trace), [Prompt(Question(host))], prompted.trace);
      } else {
        Record(Ssh(ShellArgv(Target(con, w.logname), PortText(con))));
        ended := ShellStarted;
      }
    }

    /** The confirm prompt, the key picker, the upload and the shell. */
    method SetUpKey(con: ResolvedEntry, w: World) returns (ended: Ended)
      modifies this
      ensures trace == old(trace) + AfterPrompt(con, w).trace
      ensures ended == AfterPrompt(con, w).ended
    {
      var target := Target(con, w.logname);
      var port := PortText(con);
      var keys := ListLocalPubkeys(w.sshDir, w.listing);
      var yes, _ := Confirm.AskConfirm(w.answers);
      var pick := PubkeySelector.PubkeyChoice(keys, w.presses);
      assert AfterPrompt(con, w) == PromptStage(target, port, yes, keys, pick);
      ended := PickAndUpload(target, port, yes, keys, w.presses);
    }

    method PickAndUpload(target: string, port: string, yes: Option<bool>, keys: seq<string>, presses: seq<Cursor.Key>)
      returns (ended: Ended)
      modifies this
      ensures var s := PromptStage(target, port, yes, keys, PubkeySelector.PubkeyChoice(keys, presses));
        trace == old(trace) + s.trace && ended == s.ended
    {
      if yes.None? {
        return InputEnded;
      }
      if yes.value {
        Record(PickKey(keys));
        var key := PubkeySelector.SelectPubkey(keys, presses);
        if key.Waiting? {
          return InputEnded;
        }
        if key.NoKey? || key.key == "" {
          return KeySetupAborted;
        }
        Record(CopyId(["ssh-copy-id", "-i", key.key, "-p", port, target]));
      }
      Record(Ssh(["ssh", target, "-p", port]));
      return ShellStarted;
    }
  }
}
