/**
 * The tunnel-session decisions of the GUI: which other tunnels are brought
 * down before a full tunnel comes up (`tear_down_full_tunnels`), what a
 * connect request does (`on_connect` with `is_interface_up`), and what
 * "disconnect all" runs (`on_disconnect_all`). The file system is a value:
 * the map file's rows, the text of each readable profile file, and the
 * paths `glob` lists.
 */
module Session {
  import opened Common
  import opened Text
  import opened Registry

  /** `PRIV_ESC` of `wg_gui.py`. */
  const PrivEsc := "sudo"

  /** The route whose presence marks a profile as a full tunnel. */
  const FullRoute := "0.0.0.0/0"

  /** `"0.0.0.0/0" in text`: a plain substring test on the whole file. */
  predicate IsFullTunnel(text: string) {
    Contains(text, FullRoute)
  }

  /**
   * What the GUI sees of the file system: the map file's rows (`None` when
   * it does not exist), the text of `<WG_DIR>/<name>.conf` for each profile
   * name whose file can be opened, and the `.conf` paths `glob` lists in `WG_DIR`.
   */
  datatype Files = Files(utunMap: Option<seq<string>>, confs: map<string, string>, globbed: seq<string>)

  /** `[PRIV_ESC, WG_MULTI_SCRIPT, verb, f"{prof}.conf"]`. */
  function WgMulti(script: string, verb: string, prof: string): seq<string> {
    [PrivEsc, script, verb, prof + ".conf"]
  }

  // ---------------------------------------------------------------------
  // tear_down_full_tunnels

  /** Whether the teardown loop brings `other` down before connecting `prof`. */
  predicate TornDown(prof: string, other: string, confs: map<string, string>) {
    other != prof && other in confs && IsFullTunnel(confs[other])
  }

  /** The profiles of `order` the teardown loop brings down, in that order. */
  function FullTunnelsAmong(prof: string, order: seq<string>, confs: map<string, string>): seq<string>
    decreases |order|
  {
    if |order| == 0 then []
    else
      var n := |order| - 1;
      FullTunnelsAmong(prof, order[..n], confs) + (if TornDown(prof, order[n], confs) then [order[n]] else [])
  }

  /** The profiles brought down, in the iteration order of the `active_profiles` dictionary. */
  function TearDownTargets(prof: string, files: Files): seq<string> {
    FullTunnelsAmong(prof, ActiveBindings(files.utunMap).order, files.confs)
  }

  /** The `down` command for each target. */
  function DownCommands(script: string, profs: seq<string>): (r: seq<seq<string>>)
    ensures |r| == |profs| && forall i :: 0 <= i < |profs| ==> r[i] == WgMulti(script, "down", profs[i])
  {
    seq(|profs|, i requires 0 <= i < |profs| => WgMulti(script, "down", profs[i]))
  }

  /** The commands `tear_down_full_tunnels(prof)` runs, one after another. */
  function TearDownCommands(prof: string, files: Files, script: string): seq<seq<string>> {
    DownCommands(script, TearDownTargets(prof, files))
  }

  /**
   * Exactly the other bound profiles with a readable, full-tunnel profile
   * file are brought down; the profile being connected never is.
   */
  lemma {:induction false} TargetsExact(prof: string, order: seq<string>, confs: map<string, string>, q: string)
    ensures q in FullTunnelsAmong(prof, order, confs) <==> q in order && TornDown(prof, q, confs)
    decreases |order|
  {
    if |order| > 0 {
      var n := |order| - 1;
      TargetsExact(prof, order[..n], confs, q);
      assert order == order[..n] + [order[n]];
    }
  }

  /** One more profile considered by the teardown loop is appended to the targets, if it is one. */
  lemma TargetsSnoc(prof: string, order: seq<string>, i: nat, confs: map<string, string>)
    requires i < |order|
    ensures TornDown(prof, order[i], confs) ==>
      FullTunnelsAmong(prof, order[..i + 1], confs) == FullTunnelsAmong(prof, order[..i], confs) + [order[i]]
    ensures !TornDown(prof, order[i], confs) ==>
      FullTunnelsAmong(prof, order[..i + 1], confs) == FullTunnelsAmong(prof, order[..i], confs)
  {
    assert order[..i + 1][..i] == order[..i];
    assert FullTunnelsAmong(prof, order[..i], confs) + [] == FullTunnelsAmong(prof, order[..i], confs);
  }

  /** Each profile is brought down at most once when the order lists it once. */
  lemma {:induction false} TargetsDistinct(prof: string, order: seq<string>, confs: map<string, string>)
    requires forall i, j :: 0 <= i < j < |order| ==> order[i] != order[j]
    ensures var t := FullTunnelsAmong(prof, order, confs);
      forall i, j :: 0 <= i < j < |t| ==> t[i] != t[j]
    decreases |order|
  {
    if |order| > 0 {
      var n := |order| - 1;
      var last := order[n];
      TargetsDistinct(prof, order[..n], confs);
      var prev := FullTunnelsAmong(prof, order[..n], confs);
      TargetsSnoc(prof, order, n, confs);
      assert order[..n + 1] == order;
      if TornDown(prof, last, confs) {
        forall k | 0 <= k < n
          ensures order[..n][k] != last
        {
          assert order[..n][k] == order[k];
        }
        TargetsExact(prof, order[..n], confs, last);
        var t := prev + [last];
        forall i, j | 0 <= i < j < |t|
          ensures t[i] != t[j]
        {
          assert t[i] == prev[i];
          if j < |prev| {
            assert t[j] == prev[j];
          }
        }
      }
    }
  }

  /** The `down` command names its profile: distinct profiles get distinct commands. */
  lemma DownNamesProfile(script: string, p: string, q: string)
    requires WgMulti(script, "down", p) == WgMulti(script, "down", q)
    ensures p == q
  {
    assert p + ".conf" == q + ".conf";
    assert p == (p + ".conf")[..|p|];
    assert q == (q + ".conf")[..|q|];
  }

  /** A profile gets a `down` command exactly when it is in the list. */
  lemma DownCommandsFor(script: string, profs: seq<string>, q: string)
    ensures WgMulti(script, "down", q) in DownCommands(script, profs) <==> q in profs
  {
    var cmds := DownCommands(script, profs);
    if WgMulti(script, "down", q) in cmds {
      var i :| 0 <= i < |cmds| && cmds[i] == WgMulti(script, "down", q);
      DownNamesProfile(script, profs[i], q);
    }
    if q in profs {
      var i :| 0 <= i < |profs| && profs[i] == q;
      assert cmds[i] == WgMulti(script, "down", q);
    }
  }

  /**
   * In terms of the map file: `down <q>.conf` is issued for a profile `q`
   * exactly when some recorded row names `q`, `q` is not the profile being
   * connected, and `q`'s file is readable and routes `0.0.0.0/0`.
   */
  lemma TearDownSelection(prof: string, files: Files, script: string, q: string)
    requires files.utunMap.Some?
    ensures WgMulti(script, "down", q) in TearDownCommands(prof, files, script) <==>
      (exists k :: 0 <= k < |Entries(files.utunMap.value)| && Entries(files.utunMap.value)[k].name == q)
      && TornDown(prof, q, files.confs)
  {
    var es := Entries(files.utunMap.value);
    var order := BindAll(es).order;
    BindingsWellFormed(es);
    BindingsMembers(es, q);
    TargetsExact(prof, order, files.confs, q);
    DownCommandsFor(script, TearDownTargets(prof, files), q);
  }

  /** No profile is brought down twice. */
  lemma TearDownOnce(prof: string, files: Files)
    ensures var t := TearDownTargets(prof, files);
      forall i, j :: 0 <= i < j < |t| ==> t[i] != t[j]
  {
    if files.utunMap.Some? {
      var es := Entries(files.utunMap.value);
      BindingsWellFormed(es);
      TargetsDistinct(prof, BindAll(es).order, files.confs);
      assert TearDownTargets(prof, files) == FullTunnelsAmong(prof, BindAll(es).order, files.confs);
    }
  }

  /** Without a map file nothing is torn down. */
  lemma NoMapNoTearDown(prof: string, files: Files, script: string)
    requires files.utunMap.None?
    ensures TearDownCommands(prof, files, script) == []
  {
  }

  // ---------------------------------------------------------------------
  // is_interface_up and on_connect

  /** `prof or self.active_profile`, with `""` standing for a missing profile. */
  function Requested(prof: string, active: Option<string>): string {
    if prof != "" then prof else match active case Some(a) => a case None => ""
  }

  /**
   * `is_interface_up(prof)`: `prof or self.active_profile` names the profile
   * (an empty name falls back to the active one); its interface is returned
   * when the map binds it to a non-empty name.
   */
  function InterfaceUp(prof: string, active: Option<string>, mapFile: Option<seq<string>>): (r: Option<string>)
    ensures r.Some? <==>
      && Requested(prof, active) != ""
      && UtunForProfile(mapFile, Requested(prof, active)).Some?
      && UtunForProfile(mapFile, Requested(prof, active)).value != ""
    ensures r.Some? ==> r == UtunForProfile(mapFile, Requested(prof, active))
  {
    var p := if prof != "" then Some(prof) else active;
    match p
    case None => None
    case Some(q) =>
      if q == "" then None
      else match UtunForProfile(mapFile, q)
        case None => None
        case Some(iface) => if iface == "" then None else Some(iface)
  }

  /**
   * In terms of the map file's rows: an interface is reported up exactly when
   * the first row binding the requested profile names a non-empty interface,
   * and that interface is the one reported.
   */
  lemma InterfaceUpRows(prof: string, active: Option<string>, rows: seq<string>)
    ensures var p := Requested(prof, active);
      var r := InterfaceUp(prof, active, Some(rows));
      && (r.Some? ==> exists k ::
            && 0 <= k < |rows| && Binds(rows[k], p) && RowFields(rows[k]).value.0 == r.value
            && forall j :: 0 <= j < k ==> !Binds(rows[j], p))
      && ((forall k :: 0 <= k < |rows| ==> !Binds(rows[k], p)) ==> r.None?)
  {
    var p := Requested(prof, active);
    FirstMatchAbsent(rows, p);
    if FirstMatch(rows, p).Some? {
      var k := FirstMatchFound(rows, p);
    }
  }

  /** What a connect request comes to. */
  datatype ConnectOutcome =
    | NoSelection                                            // no profile selected: only a log line
    | Reserved(iface: string)                                // up on a reserved utun: refused
    | AlreadyActive(iface: string)                           // up already: only a log line
    | ConfUnreadable                                         // opening the profile file raises
    | Launched(teardown: seq<seq<string>>, up: seq<string>)  // commands run, then the one started

  /**
   * `on_connect`: the guard on the selection and on an interface already up,
   * then the teardown of other full tunnels (only when the requested profile
   * is itself a full tunnel), then `up`.
   */
  function ConnectPlan(selected: Option<string>, active: Option<string>, files: Files, script: string): ConnectOutcome {
    match selected
    case None => NoSelection
    case Some(prof) =>
      match InterfaceUp(prof, active, files.utunMap)
      case Some(iface) => if IsLowUtun(iface) then Reserved(iface) else AlreadyActive(iface)
      case None =>
        if prof !in files.confs then ConfUnreadable
        else
          var teardown := if IsFullTunnel(files.confs[prof]) then TearDownCommands(prof, files, script) else [];
          Launched(teardown, WgMulti(script, "up", prof))
  }

  /**
   * A launch brings the selected profile up, and only after bringing down
   * other profiles: each teardown command is `down` for a different profile
   * with a full-tunnel file, and there are teardown commands only when the
   * selected profile is a full tunnel itself and no interface was up for it.
   */
  lemma ConnectOrdering(selected: Option<string>, active: Option<string>, files: Files, script: string)
    ensures var o := ConnectPlan(selected, active, files, script);
      o.Launched? ==>
        && selected.Some?
        && InterfaceUp(selected.value, active, files.utunMap).None?
        && selected.value in files.confs
        && o.up == WgMulti(script, "up", selected.value)
        && (forall c :: c in o.teardown ==>
              exists q :: c == WgMulti(script, "down", q) && TornDown(selected.value, q, files.confs))
        && (o.teardown != [] ==> IsFullTunnel(files.confs[selected.value]))
  {
    var o := ConnectPlan(selected, active, files, script);
    if o.Launched? {
      var prof := selected.value;
      var t := TearDownTargets(prof, files);
      forall c | c in o.teardown
        ensures exists q :: c == WgMulti(script, "down", q) && TornDown(prof, q, files.confs)
      {
        var i :| 0 <= i < |o.teardown| && o.teardown[i] == c;
        TargetsExact(prof, ActiveBindings(files.utunMap).order, files.confs, t[i]);
        assert t[i] in t;
      }
    }
  }

  /**
   * Once no interface is up for the selected profile and its file is
   * readable, the request launches `up` for it, after bringing down exactly
   * the other recorded full tunnels when it is a full tunnel itself, and
   * after nothing otherwise.
   */
  lemma ConnectLaunches(prof: string, active: Option<string>, files: Files, script: string, q: string)
    requires InterfaceUp(prof, active, files.utunMap).None? && prof in files.confs
    ensures var o := ConnectPlan(Some(prof), active, files, script);
      && o.Launched?
      && o.up == WgMulti(script, "up", prof)
      && (!IsFullTunnel(files.confs[prof]) ==> o.teardown == [])
      && (IsFullTunnel(files.confs[prof]) ==> o.teardown == TearDownCommands(prof, files, script))
      && (IsFullTunnel(files.confs[prof]) && files.utunMap.Some? ==>
            (WgMulti(script, "down", q) in o.teardown <==>
              (exists k :: 0 <= k < |Entries(files.utunMap.value)| && Entries(files.utunMap.value)[k].name == q)
              && TornDown(prof, q, files.confs)))
  {
    if IsFullTunnel(files.confs[prof]) && files.utunMap.Some? {
      TearDownSelection(prof, files, script, q);
    }
  }

  /**
   * A connect request is refused exactly when the profile is already up on a
   * reserved device, and only logged when it is up on any other device.
   */
  lemma ConnectRefusesReserved(prof: string, active: Option<string>, files: Files, script: string)
    ensures ConnectPlan(Some(prof), active, files, script).Reserved? <==>
      InterfaceUp(prof, active, files.utunMap).Some? && IsLowUtun(InterfaceUp(prof, active, files.utunMap).value)
    ensures ConnectPlan(Some(prof), active, files, script).AlreadyActive? <==>
      InterfaceUp(prof, active, files.utunMap).Some? && !IsLowUtun(InterfaceUp(prof, active, files.utunMap).value)
    ensures InterfaceUp(prof, active, files.utunMap).Some? ==>
      ConnectPlan(Some(prof), active, files, script).iface == InterfaceUp(prof, active, files.utunMap).value
    ensures ConnectPlan(Some(prof), active, files, script).ConfUnreadable? <==>
      InterfaceUp(prof, active, files.utunMap).None? && prof !in files.confs
  {
  }

  /** A profile name as the profile directory holds it: `<name>.conf`, not hidden, no whitespace. */
  predicate PlainName(name: string) {
    NoSpace(name) && '/' !in name && name != "" && name[0] != '.'
  }

  /** The map-file row recording that profile `name` of `dir` is up on `iface`. */
  function MapRow(iface: string, dir: string, name: string): string {
    iface + "|" + (dir + "/" + name + ".conf")
  }

  /**
   * The situation the exclusivity rule is for: A is up as a split tunnel and
   * B as a full tunnel; connecting a third, full-tunnel profile C brings
   * down B and not A, then brings C up.
   */
  lemma ConnectFullTunnelScenario(
    script: string, dir: string, a: string, b: string, c: string,
    ifaceA: string, ifaceB: string, textA: string, textB: string, textC: string)
    requires NoSpace(dir) && NoSpace(ifaceA) && NoSpace(ifaceB) && '|' !in ifaceA && '|' !in ifaceB
    requires PlainName(a) && PlainName(b) && a != b && c != a && c != b
    requires !IsFullTunnel(textA) && IsFullTunnel(textB) && IsFullTunnel(textC)
    ensures
      var files := Files(
        Some([MapRow(ifaceA, dir, a), MapRow(ifaceB, dir, b)]),
        map[a := textA, b := textB, c := textC],
        []);
      ConnectPlan(Some(c), None, files, script) == Launched([WgMulti(script, "down", b)], WgMulti(script, "up", c))
  {
    var rows := [MapRow(ifaceA, dir, a), MapRow(ifaceB, dir, b)];
    var confs := map[a := textA, b := textB, c := textC];
    ScenarioRows(dir, a, b, c, ifaceA, ifaceB);
    assert confs[a] == textA && confs[b] == textB && confs[c] == textC;
    ConnectAfterTwoRows(script, rows, confs, Entry(a, ifaceA), Entry(b, ifaceB), c);
  }

  /**
   * The scenario's plan, for any map file recording a non-full tunnel and
   * then a full one, neither of them the requested full profile.
   */
  lemma ConnectAfterTwoRows(script: string, rows: seq<string>, confs: map<string, string>, e1: Entry, e2: Entry, c: string)
    requires Entries(rows) == [e1, e2] && FirstMatch(rows, c).None?
    requires e1.name != e2.name && c != e1.name && c != e2.name
    requires e1.name in confs && e2.name in confs && c in confs
    requires !IsFullTunnel(confs[e1.name]) && IsFullTunnel(confs[e2.name]) && IsFullTunnel(confs[c])
    ensures ConnectPlan(Some(c), None, Files(Some(rows), confs, []), script) ==
      Launched([WgMulti(script, "down", e2.name)], WgMulti(script, "up", c))
  {
    var files := Files(Some(rows), confs, []);
    assert InterfaceUp(c, None, files.utunMap) == None;
    assert TearDownCommands(c, files, script) == [WgMulti(script, "down", e2.name)] by {
      TwoBindings(e1, e2);
      TwoTargets(c, e1.name, e2.name, confs);
      assert TearDownTargets(c, files) == [e2.name];
    }
  }

  /** The two rows of the scenario record A and B, and neither binds C. */
  lemma ScenarioRows(dir: string, a: string, b: string, c: string, ifaceA: string, ifaceB: string)
    requires NoSpace(dir) && NoSpace(ifaceA) && NoSpace(ifaceB) && '|' !in ifaceA && '|' !in ifaceB
    requires PlainName(a) && PlainName(b) && c != a && c != b
    ensures var rows := [MapRow(ifaceA, dir, a), MapRow(ifaceB, dir, b)];
      Entries(rows) == [Entry(a, ifaceA), Entry(b, ifaceB)] && FirstMatch(rows, c).None?
  {
    var rows := [MapRow(ifaceA, dir, a), MapRow(ifaceB, dir, b)];
    RowReadsBack(ifaceA, dir, a);
    RowReadsBack(ifaceB, dir, b);
    CollectTwo(rows, RowEntry, Entry(a, ifaceA), Entry(b, ifaceB));
    assert !Binds(rows[0], c) && !Binds(rows[1..][0], c);
    assert FirstMatch(rows[1..][1..], c).None? by { assert rows[1..][1..] == []; }
  }

  /** Two entries for different profiles are iterated in file order. */
  lemma TwoBindings(e1: Entry, e2: Entry)
    requires e1.name != e2.name
    ensures BindAll([e1, e2]).order == [e1.name, e2.name]
  {
    var es := [e1, e2];
    assert es[..1] == [e1] && es[..1][..0] == [];
    var first := BindAll([e1]);
    assert [e1][..0] == [] && [] + [e1.name] == [e1.name];
    assert BindAll([e1][..0]) == Bindings([], map[]);
    assert first.order == [e1.name] && first.iface.Keys == {e1.name};
    assert e2.name !in first.iface;
  }

  /** Of a split and a full tunnel, only the full one is brought down. */
  lemma TwoTargets(prof: string, a: string, b: string, confs: map<string, string>)
    requires !TornDown(prof, a, confs) && TornDown(prof, b, confs)
    ensures FullTunnelsAmong(prof, [a, b], confs) == [b]
  {
    assert [a, b][..1] == [a];
    assert [a][..0] == [];
    assert FullTunnelsAmong(prof, [a], confs) == [];
    assert [] + [b] == [b];
  }

  /** The route marks a full tunnel wherever it occurs; a split tunnel's text lacks it. */
  lemma FullTunnelExamples()
    ensures IsFullTunnel("AllowedIPs = 0.0.0.0/0")
    ensures !IsFullTunnel("AllowedIPs = 192.168.7.1/32")
  {
    assert OccursAt("AllowedIPs = 0.0.0.0/0", FullRoute, 13);
    MissingCharNotContained("AllowedIPs = 192.168.7.1/32", FullRoute, '0');
  }

  // ---------------------------------------------------------------------
  // on_disconnect_all

  /** The `down` commands of "disconnect all": one per listed path, named by the path's file name. */
  function DisconnectCommands(script: string, paths: seq<string>): seq<seq<string>> {
    DownCommands(script, ProfileNames(paths))
  }

  /** The profile name of each path, in order. */
  function ProfileNames(paths: seq<string>): (r: seq<string>)
    ensures |r| == |paths| && forall i :: 0 <= i < |paths| ==> r[i] == ProfileNameOf(paths[i])
  {
    MapNames(paths, ProfileNameOf)
  }

  /** `f` applied to each element, in order. */
  function MapNames(xs: seq<string>, f: string -> string): (r: seq<string>)
    ensures |r| == |xs| && forall i :: 0 <= i < |xs| ==> r[i] == f(xs[i])
    decreases |xs|
  {
    if |xs| == 0 then []
    else
      var n := |xs| - 1;
      assert forall i :: 0 <= i < n ==> xs[..n][i] == xs[i];
      MapNames(xs[..n], f) + [f(xs[n])]
  }

  /** What `glob("*.conf")` lists: names ending in `.conf` that are not hidden. */
  predicate GlobListed(path: string) {
    EndsWith(Basename(path), ".conf") && !StartsWith(Basename(path), ".")
  }

  /** For every path `glob` lists, the `down` command names exactly that file, in listing order. */
  lemma DisconnectNamesEachFile(script: string, paths: seq<string>)
    requires forall i :: 0 <= i < |paths| ==> GlobListed(paths[i])
    ensures |DisconnectCommands(script, paths)| == |paths|
    ensures forall i :: 0 <= i < |paths| ==>
      DisconnectCommands(script, paths)[i] == [PrivEsc, script, "down", Basename(paths[i])]
  {
    forall i | 0 <= i < |paths|
      ensures DisconnectCommands(script, paths)[i] == [PrivEsc, script, "down", Basename(paths[i])]
    {
      ConfNameRoundTrip(paths[i]);
    }
  }
}
