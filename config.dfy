/**
 * The hosts-file loader of `ssh_connect/config.py`: the "IPv4-shaped" test,
 * the `ip_sort` key, the four-way name/address resolution of every entry
 * (done in place over the entry list) and the final stable sort.
 *
 * Name lookups are an oracle `Dns`: `gethostbyname(h)` succeeds with
 * `forward[h]` when `h` is a key of `forward` and raises otherwise;
 * `gethostbyaddr(ip)[0]` is `reverse[ip]` likewise. The YAML parser is an
 * oracle too: its result for the file's text is the `Parsed` argument.
 */
module Config {
  import opened Wrappers
  import opened Strings
  import opened Decimal
  import opened Sorting

  /** One mapping of the hosts file; `resolvedName`/`resolvedIp` are the keys the loader adds. */
  datatype HostEntry = HostEntry(
    host: Option<string>,
    name: Option<string>,
    user: Option<string>,
    port: Option<int>,
    password: Option<string>,
    skipKeySetup: bool,
    resolvedName: Option<string>,
    resolvedIp: Option<string>)

  /** An entry after loading: both resolved fields are present. */
  type ResolvedEntry = e: HostEntry | e.resolvedName.Some? && e.resolvedIp.Some?
    witness HostEntry(None, None, None, None, None, false, Some(""), Some(""))

  datatype Dns = Dns(forward: map<string, string>, reverse: map<string, string>) {

    /** `socket.gethostbyname(host)`, `None` when it raises. */
    function ByName(host: string): Option<string> {
      if host in forward then Some(forward[host]) else None
    }

    /** `socket.gethostbyaddr(ip)[0]`, `None` when it raises. */
    function ByAddr(ip: string): Option<string> {
      if ip in reverse then Some(reverse[ip]) else None
    }
  }

  // ---------------------------------------------------------------------
  // is_ip and ip_sort
  // ---------------------------------------------------------------------

  /** `\d{1,3}`: one to three ASCII digits. */
  predicate IsGroup(g: string) {
    1 <= |g| <= 3 && AllDigits(g)
  }

  /** Four digit groups. */
  predicate IsQuad(g: seq<string>) {
    |g| == 4 && forall k :: 0 <= k < 4 ==> IsGroup(g[k])
  }

  predicate IsIpCore(s: string) {
    IsQuad(Split(s, '.'))
  }

  /**
   * `is_ip(s)`: `re.match(r"^\d{1,3}(\.\d{1,3}){3}$", s)` succeeds. Python's
   * `$` also matches just before one final newline, hence the second case.
   */
  predicate IsIp(s: string) {
    IsIpCore(s) || (|s| > 0 && s[|s| - 1] == '\n' && IsIpCore(s[..|s| - 1]))
  }

  /** The dotted part of an IP-shaped string, without the optional newline. */
  function IpCore(s: string): (c: string)
    requires IsIp(s)
    ensures IsIpCore(c)
    ensures s == c || s == c + "\n"
  {
    if IsIpCore(s) then s else s[..|s| - 1]
  }

  lemma DigitsHaveNoDot(g: seq<string>)
    requires IsQuad(g)
    ensures forall k :: 0 <= k < |g| ==> '.' !in g[k]
  {
    forall k | 0 <= k < |g| ensures '.' !in g[k] {
      assert forall i :: 0 <= i < |g[k]| ==> g[k][i] != '.' by {
        forall i | 0 <= i < |g[k]| ensures g[k][i] != '.' {
          assert IsDigit(g[k][i]);
        }
      }
    }
  }

  /**
   * The regular expression's language: `is_ip(s)` holds exactly when `s`
   * is four groups of one to three digits joined by dots, optionally
   * followed by one newline. No octet is range-checked.
   */
  lemma IsIpShape(s: string)
    ensures IsIp(s) <==>
      exists g :: IsQuad(g) && (s == Join(g, '.') || s == Join(g, '.') + "\n")
  {
    if IsIp(s) {
      var c := IpCore(s);
      JoinSplit(c, '.');
      var g := Split(c, '.');
      assert IsQuad(g) && (s == Join(g, '.') || s == Join(g, '.') + "\n");
    }
    forall g | IsQuad(g) && (s == Join(g, '.') || s == Join(g, '.') + "\n")
      ensures IsIp(s)
    {
      DigitsHaveNoDot(g);
      SplitJoin(g, '.');
      if s != Join(g, '.') {
        assert s[..|s| - 1] == Join(g, '.');
      }
    }
  }

  /** Four digit groups joined by dots are IP-shaped. */
  lemma QuadIsIp(g: seq<string>)
    requires IsQuad(g)
    ensures IsIp(Join(g, '.'))
  {
    DigitsHaveNoDot(g);
    SplitJoin(g, '.');
  }

  /** "999.999.999.999" is IP-shaped: there is no range check. */
  lemma NoOctetRangeCheck()
    ensures IsIp("999.999.999.999")
  {
    var g := ["999", "999", "999", "999"];
    assert IsGroup("999");
    QuadIsIp(g);
    assert Join(g, '.') == "999.999.999.999";
  }

  const Sentinel: seq<int> := [999, 999, 999, 999]

  function GroupValues(g: seq<string>): (v: seq<int>)
    requires IsQuad(g)
    ensures |v| == 4 && forall k :: 0 <= k < 4 ==> 0 <= v[k] <= 999
    ensures forall k :: 0 <= k < 4 ==> v[k] == DigitsValue(g[k])
  {
    assert forall k :: 0 <= k < 4 ==> DigitsValue(g[k]) <= 999 by {
      forall k | 0 <= k < 4 ensures DigitsValue(g[k]) <= 999 {
        GroupBound(g[k]);
      }
    }
    [DigitsValue(g[0]), DigitsValue(g[1]), DigitsValue(g[2]), DigitsValue(g[3])]
  }

  lemma {:induction false} GroupBound(g: string)
    requires AllDigits(g) && |g| <= 3
    ensures DigitsValue(g) < if |g| == 0 then 1 else if |g| == 1 then 10 else if |g| == 2 then 100 else 1000
  {
    if g != [] {
      GroupBound(g[..|g| - 1]);
    }
  }

  /** `int(x)` for text that strips down to a digit group is the group's value. */
  lemma ParseIntOfGroup(x: string, g: string)
    requires Strip(x) == g && IsGroup(g)
    ensures ParseInt(x) == Some(DigitsValue(g))
  {
    ParseSignedDigits(g);
  }

  /** A digit group with the newline `$` lets through strips back to the group. */
  lemma StripGroupNewline(g: string)
    requires IsGroup(g)
    ensures Strip(g + "\n") == g
  {
    assert Trimmed(g) by {
      assert IsDigit(g[0]) && IsDigit(g[|g| - 1]);
    }
    assert AllSpace("\n") by {
      assert IsSpace('\n');
    }
    StripTrailing(g, "\n");
  }

  lemma SplitIpNewline(c: string)
    requires IsIpCore(c)
    ensures var g := Split(c, '.');
            Split(c + "\n", '.') == [g[0], g[1], g[2], g[3] + "\n"]
  {
    SplitAppend(c, '\n', '.');
  }

  /** `tuple(f(n) for n in parts)`, or `None` as soon as some `f(n)` fails. */
  function MapAll(parts: seq<string>, f: string -> Option<int>): (r: Option<seq<int>>)
    ensures r.Some? ==> |r.value| == |parts|
  {
    if parts == [] then Some([])
    else
      match (f(parts[0]), MapAll(parts[1..], f))
      case (Some(v), Some(vs)) => Some([v] + vs)
      case _ => None
  }

  /** `tuple(int(n) for n in parts)`, or `None` when some `int(n)` raises. */
  function IntsOf(parts: seq<string>): Option<seq<int>> {
    MapAll(parts, ParseInt)
  }

  lemma {:induction false} MapAllSome(parts: seq<string>, f: string -> Option<int>, v: seq<int>)
    requires |parts| == |v|
    requires forall k :: 0 <= k < |v| ==> f(parts[k]) == Some(v[k])
    ensures MapAll(parts, f) == Some(v)
  {
    if parts != [] {
      MapAllSome(parts[1..], f, v[1..]);
      assert v == [v[0]] + v[1..];
    }
  }

  lemma IntsOfFour(p: seq<string>, v: seq<int>)
    requires |p| == 4 && |v| == 4
    requires ParseInt(p[0]) == Some(v[0]) && ParseInt(p[1]) == Some(v[1])
    requires ParseInt(p[2]) == Some(v[2]) && ParseInt(p[3]) == Some(v[3])
    ensures IntsOf(p) == Some(v)
  {
    var f: string -> Option<int> := ParseInt;
    assert forall k :: 0 <= k < 4 ==> f(p[k]) == Some(v[k]) by {
      forall k | 0 <= k < 4 ensures f(p[k]) == Some(v[k]) {
        if k == 0 {} else if k == 1 {} else if k == 2 {} else {}
      }
    }
    MapAllSome(p, f, v);
  }

  /** The pieces of `ip.split(".")`: the groups, the last one with the newline if any. */
  lemma IpPieces(ip: string)
    requires IsIp(ip)
    ensures var g := Split(IpCore(ip), '.');
            Split(ip, '.') == g || Split(ip, '.') == [g[0], g[1], g[2], g[3] + "\n"]
  {
    if ip != IpCore(ip) {
      SplitIpNewline(IpCore(ip));
    }
  }

  /** The unfolding of GroupValues that the lemmas below use; a proof helper, not a separate concept. */
  lemma GroupValuesAre(g: seq<string>)
    requires IsQuad(g)
    ensures GroupValues(g) == [DigitsValue(g[0]), DigitsValue(g[1]), DigitsValue(g[2]), DigitsValue(g[3])]
  {
  }

  /** `int(n)` of the four groups. */
  lemma QuadInts(g: seq<string>)
    requires IsQuad(g)
    ensures IntsOf(g) == Some(GroupValues(g))
  {
    var v := GroupValues(g);
    var f: string -> Option<int> := ParseInt;
    forall k | 0 <= k < 4 ensures f(g[k]) == Some(v[k]) {
      QuadPart(g, k);
    }
    MapAllSome(g, f, v);
  }

  lemma QuadPart(g: seq<string>, k: nat)
    requires IsQuad(g) && k < 4
    ensures ParseInt(g[k]) == Some(GroupValues(g)[k])
  {
    ParseIntOfDigits(g[k]);
  }

  /** `int(n)` of the four groups when the last one carries the final newline. */
  lemma QuadNewlineInts(g: seq<string>)
    requires IsQuad(g)
    ensures IntsOf([g[0], g[1], g[2], g[3] + "\n"]) == Some(GroupValues(g))
  {
    GroupValuesAre(g);
    ParseIntOfDigits(g[0]);
    ParseIntOfDigits(g[1]);
    ParseIntOfDigits(g[2]);
    StripGroupNewline(g[3]);
    ParseIntOfGroup(g[3] + "\n", g[3]);
    IntsOfFour([g[0], g[1], g[2], g[3] + "\n"], GroupValues(g));
  }

  /** `int(n)` for the pieces of `ip.split(".")` gives the groups' values. */
  lemma IpPartsParse(ip: string)
    requires IsIp(ip)
    ensures IntsOf(Split(ip, '.')) == Some(GroupValues(Split(IpCore(ip), '.')))
  {
    var g := Split(IpCore(ip), '.');
    IpPieces(ip);
    if Split(ip, '.') == g {
      QuadInts(g);
    } else {
      QuadNewlineInts(g);
    }
  }

  /**
   * `ip_sort(ip)`: the four integers of an IP-shaped string, and the
   * sentinel `(999, 999, 999, 999)` for anything else. The integers are
   * the values of the digit groups, which is what `int(n)` yields for each
   * piece of `ip.split(".")` (`IpSortIsIntOfParts`).
   */
  function IpSort(ip: string): (r: seq<int>)
    ensures |r| == 4 && forall k :: 0 <= k < 4 ==> 0 <= r[k] <= 999
    ensures !IsIp(ip) ==> r == Sentinel
  {
    if IsIp(ip) then GroupValues(Split(IpCore(ip), '.')) else Sentinel
  }

  /** The key of an IP-shaped string is `tuple(int(n) for n in ip.split("."))`. */
  lemma IpSortIsIntOfParts(ip: string)
    requires IsIp(ip)
    ensures IntsOf(Split(ip, '.')) == Some(IpSort(ip))
  {
    IpPartsParse(ip);
  }

  /** A dotted quad with the final newline is not itself a dotted quad. */
  lemma NewlineNotCore(g: seq<string>)
    requires IsQuad(g)
    ensures !IsIpCore(Join(g, '.') + "\n")
  {
    DigitsHaveNoDot(g);
    SplitJoin(g, '.');
    SplitAppend(Join(g, '.'), '\n', '.');
    var last := Split(Join(g, '.') + "\n", '.')[3];
    assert last[|last| - 1] == '\n';
  }

  /** The key of a dotted quad is its four group values. */
  lemma IpSortOfQuad(g: seq<string>)
    requires IsQuad(g)
    ensures IpSort(Join(g, '.')) == GroupValues(g)
    ensures IpSort(Join(g, '.') + "\n") == GroupValues(g)
  {
    DigitsHaveNoDot(g);
    SplitJoin(g, '.');
    var s := Join(g, '.') + "\n";
    assert s[..|s| - 1] == Join(g, '.');
    NewlineNotCore(g);
    assert IpCore(s) == Join(g, '.');
  }

  lemma {:induction false} PointwiseLe(a: seq<int>, b: seq<int>)
    requires |a| == |b|
    requires forall k :: 0 <= k < |a| ==> a[k] <= b[k]
    ensures LexLe(a, b)
  {
    if a != [] {
      PointwiseLe(a[1..], b[1..]);
      if a[1..] == b[1..] && a[0] == b[0] {
        assert a == [a[0]] + a[1..] && b == [b[0]] + b[1..];
      }
    }
  }

  /** No key is above the sentinel, so nothing sorts after a non-IP value. */
  lemma KeyAtMostSentinel(ip: string)
    ensures LexLe(IpSort(ip), Sentinel)
  {
    PointwiseLe(IpSort(ip), Sentinel);
  }

  /** Helper for the examples below. */
  lemma TenValue()
    ensures DigitsValue("10") == 10
  {
    assert "10"[..1] == "1";
  }

  lemma QuadKey(g: seq<string>, ip: string, v: seq<int>)
    requires IsQuad(g) && Join(g, '.') == ip && GroupValues(g) == v
    ensures IpSort(ip) == v
  {
    IpSortOfQuad(g);
  }

  lemma KeyOfTenDotTwo(a: string)
    requires a == "10.0.0.2"
    ensures IpSort(a) == [10, 0, 0, 2]
  {
    TenValue();
    var g := ["10", "0", "0", "2"];
    assert IsQuad(g);
    assert Join(g, '.') == a;
    QuadKey(g, a, [10, 0, 0, 2]);
  }

  lemma KeyOfTenDotTen(b: string)
    requires b == "10.0.0.10"
    ensures IpSort(b) == [10, 0, 0, 10]
  {
    TenValue();
    var g := ["10", "0", "0", "10"];
    assert IsQuad(g);
    assert Join(g, '.') == b;
    QuadKey(g, b, [10, 0, 0, 10]);
  }

  /** "10.0.0.2" precedes "10.0.0.10": groups compare as numbers, not as text. */
  lemma NumericGroupOrder(a: string, b: string)
    requires a == "10.0.0.2" && b == "10.0.0.10"
    ensures LexLt(IpSort(a), IpSort(b))
    ensures LexLt(Codes(b), Codes(a))
  {
    KeyOfTenDotTwo(a);
    KeyOfTenDotTen(b);
    TextOrder([10, 0, 0, 2], [10, 0, 0, 10], 3);
    TextOrder(Codes(b), Codes(a), 7);
  }

  /** Two code sequences that agree before position `n` and differ there compare there. */
  lemma {:induction false} TextOrder(x: seq<int>, y: seq<int>, n: nat)
    requires n < |x| && n < |y| && x[..n] == y[..n] && x[n] < y[n]
    ensures LexLt(x, y)
  {
    if n > 0 {
      assert x[1..][..n - 1] == x[..n][1..];
      assert y[1..][..n - 1] == y[..n][1..];
      assert x[0] == x[..n][0];
      TextOrder(x[1..], y[1..], n - 1);
    }
  }

  // ---------------------------------------------------------------------
  // Resolution of one entry
  // ---------------------------------------------------------------------

  /** Python truthiness of an optional string: present and non-empty. */
  predicate Truthy(v: Option<string>) {
    v.Some? && v.value != ""
  }

  /** `name.split(".")[0].capitalize()`. */
  function ShortName(name: string): (r: string)
    ensures '.' !in r && IsCapitalized(r)
  {
    CapitalizeKeepsDots(FirstPart(name, '.'));
    CapitalizeShape(FirstPart(name, '.'));
    Capitalize(FirstPart(name, '.'))
  }

  lemma CapitalizeKeepsDots(s: string)
    ensures ('.' in Capitalize(s)) == ('.' in s)
  {
    CapitalizeShape(s);
    var r := Capitalize(s);
    if '.' in r {
      var i :| 0 <= i < |r| && r[i] == '.';
      assert LowerChar(r[i]) == '.';
      assert s[i] == '.';
    }
    if '.' in s {
      var i :| 0 <= i < |s| && s[i] == '.';
      assert r[i] == (if i == 0 then UpperChar(s[0]) else Lower(s[1..])[i - 1]);
    }
  }

  datatype EntryError = MissingHost | LookupFailed(host: string)

  /** What the loop body does to one entry: it finishes it or raises. */
  datatype Step = Done(entry: HostEntry) | Failed(entry: HostEntry, error: EntryError)

  /**
   * One iteration of the loop in `load_hosts_file`. An explicit truthy
   * `name` wins; otherwise an IP literal is reverse-resolved, a dotted name
   * is forward-resolved, and a bare name is resolved both ways, each lookup
   * with its fallback. A missing `host` raises `KeyError`; a failing forward
   * lookup raises only under an explicit name, after `resolved_name` is set.
   */
  function ResolveEntry(e: HostEntry, dns: Dns): (r: Step)
    ensures r.Done? ==> r.entry.resolvedName.Some? && r.entry.resolvedIp.Some?
  {
    match e.host
    case None => Failed(e, MissingHost)
    case Some(host) =>
      if Truthy(e.name) then
        var named := e.(resolvedName := e.name);
        if IsIp(host) then Done(named.(resolvedIp := Some(host)))
        else
          match dns.ByName(host)
          case Some(ip) => Done(named.(resolvedIp := Some(ip)))
          case None => Failed(named, LookupFailed(host))
      else if IsIp(host) then
        var name := match dns.ByAddr(host)
          case Some(rev) => ShortName(rev)
          case None => "Unknown";
        Done(e.(resolvedIp := Some(host), resolvedName := Some(name)))
      else if '.' in host then
        Done(e.(resolvedIp := Some(dns.ByName(host).GetOr(host)), resolvedName := Some(ShortName(host))))
      else
        var ip := dns.ByName(host).GetOr(host);
        var name := match dns.ByAddr(ip)
          case Some(rev) => ShortName(rev)
          case None => Capitalize(host);
        Done(e.(resolvedIp := Some(ip), resolvedName := Some(name)))
  }

  /**
   * Resolution fails only for a missing `host`, or for an explicit name on
   * a host that is not IP-shaped and that the forward lookup cannot
   * resolve. Every other lookup failure falls back.
   */
  lemma ResolveFailsOnlyWhen(e: HostEntry, dns: Dns)
    ensures ResolveEntry(e, dns).Failed? <==>
      e.host.None? || (Truthy(e.name) && !IsIp(e.host.value) && dns.ByName(e.host.value).None?)
    ensures ResolveEntry(e, dns).Failed? && e.host.None? ==> ResolveEntry(e, dns).error == MissingHost
  {
  }

  /**
   * Resolution only adds the two resolved keys; the address is the host
   * itself or its forward lookup, never something else.
   */
  lemma ResolveTouchesOnlyResolvedKeys(e: HostEntry, dns: Dns)
    requires ResolveEntry(e, dns).Done?
    ensures var d := ResolveEntry(e, dns).entry;
      && d == e.(resolvedName := d.resolvedName, resolvedIp := d.resolvedIp)
      && (d.resolvedIp == e.host || d.resolvedIp == dns.ByName(e.host.value))
  {
  }

  /** With a truthy name: the name verbatim; the host if IP-shaped, else its lookup. */
  lemma ResolveNamed(e: HostEntry, dns: Dns)
    requires e.host.Some? && Truthy(e.name)
    ensures var host := e.host.value; var r := ResolveEntry(e, dns);
      && r.entry.resolvedName == e.name
      && (IsIp(host) ==> r == Done(r.entry) && r.entry.resolvedIp == Some(host))
      && (!IsIp(host) && dns.ByName(host).Some? ==> r == Done(r.entry) && r.entry.resolvedIp == dns.ByName(host))
      && (!IsIp(host) && dns.ByName(host).None? ==> r == Failed(r.entry, LookupFailed(host)))
  {
  }

  /** An IP literal keeps itself as address and is named from the reverse lookup, or "Unknown". */
  lemma ResolveIpLiteral(e: HostEntry, dns: Dns)
    requires e.host.Some? && !Truthy(e.name) && IsIp(e.host.value)
    ensures var host := e.host.value; var r := ResolveEntry(e, dns);
      && r.Done?
      && r.entry.resolvedIp == Some(host)
      && r.entry.resolvedName == Some(if host in dns.reverse then ShortName(dns.reverse[host]) else "Unknown")
  {
  }

  /** A dotted name is named after its own first label, whatever the lookup does. */
  lemma ResolveDotted(e: HostEntry, dns: Dns)
    requires e.host.Some? && !Truthy(e.name) && !IsIp(e.host.value) && '.' in e.host.value
    ensures var host := e.host.value; var r := ResolveEntry(e, dns);
      && r.Done?
      && r.entry.resolvedName == Some(ShortName(host))
      && r.entry.resolvedIp == Some(if host in dns.forward then dns.forward[host] else host)
  {
  }

  /** A bare name: forward lookup or itself; then named from the reverse lookup of that address. */
  lemma ResolveBare(e: HostEntry, dns: Dns)
    requires e.host.Some? && !Truthy(e.name) && !IsIp(e.host.value) && '.' !in e.host.value
    ensures var host := e.host.value; var r := ResolveEntry(e, dns);
      var ip := if host in dns.forward then dns.forward[host] else host;
      && r.Done?
      && r.entry.resolvedIp == Some(ip)
      && r.entry.resolvedName == Some(if ip in dns.reverse then ShortName(dns.reverse[ip]) else Capitalize(host))
  {
  }

  /** Derived names are single capitalized labels ("MyHost" becomes "Myhost"). */
  lemma DerivedNameShape(e: HostEntry, dns: Dns)
    requires e.host.Some? && !Truthy(e.name)
    ensures var n := ResolveEntry(e, dns).entry.resolvedName.value;
      IsCapitalized(n) && '.' !in n
  {
    var host := e.host.value;
    if IsIp(host) {
      ResolveIpLiteral(e, dns);
      if host !in dns.reverse {
        assert IsCapitalized("Unknown");
      }
    } else if '.' in host {
      ResolveDotted(e, dns);
    } else {
      ResolveBare(e, dns);
      CapitalizeShape(host);
      CapitalizeKeepsDots(host);
    }
  }

  /** Example of CapitalizeShape: the letters after the first are lower-cased. */
  lemma CapitalizeExample()
    ensures Capitalize("MyHost") == "Myhost"
  {
    assert Lower("yHost") == "yhost";
  }

  // ---------------------------------------------------------------------
  // The loop over the entry list
  // ---------------------------------------------------------------------

  /**
   * The `for entry in entries` loop: resolves each entry in place and
   * stops at the first one that raises, leaving that entry as the
   * interrupted iteration left it and the later ones untouched.
   */
  method ResolveAll(entries: array<HostEntry>, dns: Dns) returns (failure: Option<(nat, EntryError)>)
    modifies entries
    ensures failure.None? ==>
      forall k :: 0 <= k < entries.Length ==> ResolveEntry(old(entries[k]), dns) == Done(entries[k])
    ensures failure.Some? ==>
      var (i, err) := failure.value;
      && i < entries.Length
      && (forall k :: 0 <= k < i ==> ResolveEntry(old(entries[k]), dns) == Done(entries[k]))
      && ResolveEntry(old(entries[i]), dns) == Failed(entries[i], err)
      && (forall k :: i < k < entries.Length ==> entries[k] == old(entries[k]))
  {
    var i := 0;
    while i < entries.Length
      invariant 0 <= i <= entries.Length
      invariant forall k :: 0 <= k < i ==> ResolveEntry(old(entries[k]), dns) == Done(entries[k])
      invariant forall k :: i <= k < entries.Length ==> entries[k] == old(entries[k])
    {
      var step := ResolveEntry(entries[i], dns);
      entries[i] := step.entry;
      if step.Failed? {
        return Some((i, step.error));
      }
      i := i + 1;
    }
    return None;
  }

  /** The index of the first entry that raises, or the length when none does. */
  function FirstFailure(s: seq<HostEntry>, dns: Dns): (i: nat)
    ensures i <= |s|
    ensures forall k :: 0 <= k < i ==> ResolveEntry(s[k], dns).Done?
    ensures i < |s| ==> ResolveEntry(s[i], dns).Failed?
  {
    if s == [] then 0
    else if ResolveEntry(s[0], dns).Failed? then 0
    else 1 + FirstFailure(s[1..], dns)
  }

  lemma {:induction false} FirstFailureAt(s: seq<HostEntry>, dns: Dns, i: nat)
    requires i < |s| && ResolveEntry(s[i], dns).Failed?
    requires forall k :: 0 <= k < i ==> ResolveEntry(s[k], dns).Done?
    ensures FirstFailure(s, dns) == i
  {
    if i > 0 {
      assert ResolveEntry(s[0], dns).Done?;
      FirstFailureAt(s[1..], dns, i - 1);
    }
  }

  lemma {:induction false} FirstFailureAtMost(s: seq<HostEntry>, dns: Dns, k: nat)
    requires k < |s| && ResolveEntry(s[k], dns).Failed?
    ensures FirstFailure(s, dns) <= k
  {
    if k > 0 && ResolveEntry(s[0], dns).Done? {
      FirstFailureAtMost(s[1..], dns, k - 1);
    }
  }

  /** The entries after a loop that raised nowhere. */
  function ResolvedEntries(s: seq<HostEntry>, dns: Dns): (r: seq<ResolvedEntry>)
    requires FirstFailure(s, dns) == |s|
    ensures |r| == |s|
    ensures forall k :: 0 <= k < |s| ==> ResolveEntry(s[k], dns) == Done(r[k])
  {
    seq(|s|, k requires 0 <= k < |s| => ResolveEntry(s[k], dns).entry)
  }

  // ---------------------------------------------------------------------
  // Sorting and the whole load
  // ---------------------------------------------------------------------

  /** `os.getenv("SSH_CONNECT_SORT", "ip").strip().lower() == "name"`. */
  predicate ByNameMode(mode: string) {
    Lower(Strip(mode)) == "name"
  }

  /** `x["resolved_name"].lower()`. */
  function NameKey(e: ResolvedEntry): seq<int> {
    Codes(Lower(e.resolvedName.value))
  }

  /** `ip_sort(x["resolved_ip"])`. */
  function AddressKey(e: ResolvedEntry): seq<int> {
    IpSort(e.resolvedIp.value)
  }

  function SortKey(mode: string): ResolvedEntry -> seq<int> {
    if ByNameMode(mode) then NameKey else AddressKey
  }

  /** The YAML parser's verdict on the file text. */
  datatype Parsed = YamlList(items: seq<HostEntry>) | YamlOther | YamlInvalid

  datatype LoadError =
    | FileMissing          // not found or unreadable: message and exit(1)
    | InvalidYaml          // yaml.safe_load raised: message and exit(1)
    | NotAList             // message and exit(1)
    | EntryRaised(index: nat, error: EntryError)  // the exception escapes

  datatype LoadResult = Loaded(hosts: seq<ResolvedEntry>) | LoadFailed(error: LoadError)

  /** What `load_hosts_file` returns or how it fails, as a function of its inputs. */
  function Load(file: Option<string>, parsed: Parsed, mode: string, dns: Dns): LoadResult {
    match file
    case None => LoadFailed(FileMissing)
    case Some(raw) =>
      if Strip(raw) == "" then Loaded([])
      else
        match parsed
        case YamlInvalid => LoadFailed(InvalidYaml)
        case YamlOther => LoadFailed(NotAList)
        case YamlList(items) => LoadList(items, mode, dns)
  }

  /** The resolution loop and the sort: the first entry that raises, or the sorted entries. */
  function LoadList(items: seq<HostEntry>, mode: string, dns: Dns): LoadResult {
    var i := FirstFailure(items, dns);
    if i < |items| then LoadFailed(EntryRaised(i, ResolveEntry(items[i], dns).error))
    else Loaded(SortBy(ResolvedEntries(items, dns), SortKey(mode)))
  }

  /**
   * `load_hosts_file`: reads the file (given as its contents, `None` when
   * missing or unreadable), resolves the parsed entries in place and
   * returns them sorted by the mode's key.
   */
  method LoadHostsFile(file: Option<string>, parsed: Parsed, mode: string, dns: Dns) returns (r: LoadResult)
    ensures r == Load(file, parsed, mode, dns)
  {
    if file.None? {
      return LoadFailed(FileMissing);
    }
    var raw := Strip(file.value);
    if raw == "" {
      return Loaded([]);
    }
    match parsed
    case YamlInvalid =>
      return LoadFailed(InvalidYaml);
    case YamlOther =>
      return LoadFailed(NotAList);
    case YamlList(items) =>
      r := ResolveAndSort(items, mode, dns);
  }

  /** The part of `load_hosts_file` after parsing: the loop over the list, then the sort. */
  method ResolveAndSort(items: seq<HostEntry>, mode: string, dns: Dns) returns (r: LoadResult)
    ensures r == LoadList(items, mode, dns)
  {
    var entries := new HostEntry[|items|](k requires 0 <= k < |items| => items[k]);
    assert entries[..] == items;
    var failure := ResolveAll(entries, dns);
    match failure
    case Some((i, err)) =>
      FirstFailureAt(items, dns, i);
      return LoadFailed(EntryRaised(i, err));
    case None =>
      assert FirstFailure(items, dns) == |items|;
      assert entries[..] == ResolvedEntries(items, dns);
      var resolved: seq<ResolvedEntry> := ResolvedEntries(items, dns);
      return Loaded(SortBy(resolved, SortKey(mode)));
  }

  // ---------------------------------------------------------------------
  // Properties of the load
  // ---------------------------------------------------------------------

  /** Empty or whitespace-only content is an empty host list, whatever the parser says. */
  lemma LoadBlankIsEmpty(raw: string, parsed: Parsed, mode: string, dns: Dns)
    requires Strip(raw) == ""
    ensures Load(Some(raw), parsed, mode, dns) == Loaded([])
  {
  }

  /** A document that is not a list is a fatal error. */
  lemma LoadNotAList(raw: string, mode: string, dns: Dns)
    requires Strip(raw) != ""
    ensures Load(Some(raw), YamlOther, mode, dns) == LoadFailed(NotAList)
  {
  }

  /** An entry without `host` makes the load raise, at that entry or an earlier failing one. */
  lemma LoadMissingHostRaises(raw: string, items: seq<HostEntry>, mode: string, dns: Dns, k: nat)
    requires Strip(raw) != ""
    requires k < |items| && items[k].host.None?
    ensures var r := Load(Some(raw), YamlList(items), mode, dns);
      r.LoadFailed? && r.error.EntryRaised? && r.error.index <= k
      && (r.error.index == k ==> r.error.error == MissingHost)
  {
    FirstFailureAtMost(items, dns, k);
    if FirstFailure(items, dns) == k {
      assert ResolveEntry(items[k], dns).error == MissingHost;
    }
  }

  /**
   * A successful load returns a permutation of the resolved entries,
   * ordered by the mode's key, with entries of equal key in file order.
   */
  lemma {:induction false} LoadSortedStable(raw: string, items: seq<HostEntry>, mode: string, dns: Dns)
    requires Load(Some(raw), YamlList(items), mode, dns).Loaded?
    ensures var hosts := Load(Some(raw), YamlList(items), mode, dns).hosts;
      Strip(raw) != "" ==>
      && multiset(hosts) == multiset(ResolvedEntries(items, dns))
      && SortedBy(hosts, SortKey(mode))
      && forall k :: WithKey(hosts, SortKey(mode), k) == WithKey(ResolvedEntries(items, dns), SortKey(mode), k)
  {
    if Strip(raw) != "" {
      forall k ensures WithKey(SortBy(ResolvedEntries(items, dns), SortKey(mode)), SortKey(mode), k)
                    == WithKey(ResolvedEntries(items, dns), SortKey(mode), k) {
        SortStable(ResolvedEntries(items, dns), SortKey(mode), k);
      }
    }
  }

  /**
   * In address mode an entry whose address is not IP-shaped is followed
   * only by entries whose key is the sentinel: IPs never come after it.
   */
  lemma AddressModeNonIpLast(hosts: seq<ResolvedEntry>, i: nat, j: nat)
    requires SortedBy(hosts, AddressKey)
    requires i < j < |hosts| && !IsIp(hosts[i].resolvedIp.value)
    ensures AddressKey(hosts[j]) == Sentinel
  {
    KeyAtMostSentinel(hosts[j].resolvedIp.value);
    LexLeAntisymmetric(AddressKey(hosts[j]), Sentinel);
  }

  /** Example: name mode ignores case, so "alpha" < "bob" < "Zed". */
  lemma NameModeIgnoresCase()
    ensures LexLt(Codes(Lower("alpha")), Codes(Lower("bob")))
    ensures LexLt(Codes(Lower("bob")), Codes(Lower("Zed")))
  {
    assert Lower("Zed")[0] == 'z';
  }
}
