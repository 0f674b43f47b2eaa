/**
 * The state the `WGGui` window keeps for tunnel sessions, and the handlers
 * that change it in place: `is_interface_up`, `tear_down_full_tunnels`,
 * `on_connect`, `on_disconnect_all`, `run_next` and `run_next_finished`.
 * Commands handed to the blocking `subprocess.run` are recorded in `ran`;
 * the asynchronous `QProcess` is the `process` field. Each handler is
 * proved against the decision functions of `Session` and `Sequencer`.
 */
module Gui {
  import opened Common
  import opened Text
  import opened Registry
  import opened Session
  import opened Sequencer

  class WgGui {
    /** `self.active_profile`: the profile most recently brought up. */
    var activeProfile: Option<string>
    /** `self.pending_connect_profile`, read when the `up` process finishes. */
    var pendingConnectProfile: Option<string>
    /** The argument vectors run with `subprocess.run`, oldest first. */
    var ran: seq<seq<string>>
    /** `self.process`. */
    var process: Process
    /** The processes `run_next` killed to make room for the next one, oldest first. */
    var killed: seq<Process>
    /** The text appended to the log pane, one `append_log` call per element. */
    var log: seq<string>
    /** `self.commands` and `self.cmd_index`. */
    var commands: seq<seq<string>>
    var cmdIndex: nat

    /** The part of the state the command chain works on. */
    function Chain(): ChainState
      reads this
    {
      ChainState(cmdIndex, process, log, killed)
    }

    /** `__init__`: an unstarted process, an empty command list at index 0, no active profile. */
    constructor ()
      ensures activeProfile.None? && pendingConnectProfile.None?
      ensures ran == [] && log == [] && killed == []
      ensures process == NotStarted && commands == [] && cmdIndex == 0
    {
      activeProfile := None;
      pendingConnectProfile := None;
      ran := [];
      process := NotStarted;
      killed := [];
      log := [];
      commands := [];
      cmdIndex := 0;
    }

    /** `is_interface_up(prof)`: an empty name falls back to the active profile. */
    method IsInterfaceUp(prof: string, mapFile: Option<seq<string>>) returns (r: Option<string>)
      ensures r == InterfaceUp(prof, activeProfile, mapFile)
    {
      var p := if prof != "" then Some(prof) else activeProfile;
      if p.None? || p.value == "" {
        return None;
      }
      var iface := GetUtunForProfile(mapFile, p.value);
      if iface.Some? && iface.value != "" {
        r := iface;
      } else {
        r := None;
      }
    }

    /**
     * `tear_down_full_tunnels(prof)`: build the profile -> interface
     * dictionary from the map file, then run `down` for every other profile
     * in it whose file routes `0.0.0.0/0`; a profile whose file cannot be
     * opened is skipped.
     */
    method TearDownFullTunnels(prof: string, files: Files, script: string)
      modifies this`ran
      ensures ran == old(ran) + TearDownCommands(prof, files, script)
    {
      var order, ifaces := ActiveProfiles(files.utunMap);
      ghost var targets: seq<string> := [];
      var i := 0;
      while i < |order|
        invariant 0 <= i <= |order|
        invariant targets == FullTunnelsAmong(prof, order[..i], files.confs)
        invariant ran == old(ran) + DownCommands(script, targets)
      {
        var other := order[i];
        TargetsSnoc(prof, order, i, files.confs);
        if TornDown(prof, other, files.confs) {
          DownCommandsSnoc(script, targets, other);
          ran := ran + [WgMulti(script, "down", other)];
          targets := targets + [other];
        }
        i := i + 1;
      }
      assert order[..i] == order;
    }

    /**
     * `on_connect` with `selected` the highlighted profile: refused or only
     * logged when the profile is already up; otherwise, after tearing down
     * other full tunnels when the profile is one, the profile becomes the
     * active and pending one and a new process runs `up` for it. The
     * previous process is replaced without being killed.
     */
    method OnConnect(selected: Option<string>, files: Files, script: string) returns (outcome: ConnectOutcome)
      modifies this`ran, this`activeProfile, this`pendingConnectProfile, this`process
      ensures outcome == ConnectPlan(selected, old(activeProfile), files, script)
      ensures outcome.Launched? ==>
        && ran == old(ran) + outcome.teardown
        && activeProfile == selected && pendingConnectProfile == selected
        && process == Started(outcome.up[0], outcome.up[1..])
      ensures !outcome.Launched? ==>
        && ran == old(ran) && activeProfile == old(activeProfile)
        && pendingConnectProfile == old(pendingConnectProfile) && process == old(process)
    {
      if selected.None? {
        return NoSelection;
      }
      var prof := selected.value;
      var up := IsInterfaceUp(prof, files.utunMap);
      if up.Some? {
        if IsLowUtun(up.value) {
          return Reserved(up.value);
        }
        return AlreadyActive(up.value);
      }
      if prof !in files.confs {
        return ConfUnreadable;
      }
      var teardown := [];
      if IsFullTunnel(files.confs[prof]) {
        TearDownFullTunnels(prof, files, script);
        teardown := TearDownCommands(prof, files, script);
      }
      activeProfile := Some(prof);
      pendingConnectProfile := Some(prof);
      process := Started(PrivEsc, [script, "up", prof + ".conf"]);
      outcome := Launched(teardown, WgMulti(script, "up", prof));
    }

    /** `on_disconnect_all`: a blocking `down` for every profile file `glob` lists, in that order. */
    method DisconnectAll(paths: seq<string>, script: string)
      modifies this`ran
      ensures ran == old(ran) + DisconnectCommands(script, paths)
    {
      var i := 0;
      while i < |paths|
        invariant 0 <= i <= |paths|
        invariant ran == old(ran) + DisconnectCommands(script, paths[..i])
      {
        DisconnectSnoc(script, paths, i);
        ran := ran + [WgMulti(script, "down", ProfileNameOf(paths[i]))];
        i := i + 1;
      }
      assert paths[..i] == paths;
    }

    /** `run_next`: one step of the command chain; `raised` when `cmd[0]` fails on an empty command. */
    method RunNext() returns (raised: bool)
      modifies this`process, this`log, this`killed
      ensures (Chain(), raised) == RunNextSpec(commands, old(Chain()))
    {
      if cmdIndex >= |commands| {
        return false;
      }
      var cmd := commands[cmdIndex];
      log := log + [Echo(cmd)];
      killed := killed + [process];
      if |cmd| == 0 {
        process := NotStarted;
        return true;
      }
      process := Started(cmd[0], cmd[1..]);
      raised := false;
    }

    /** `run_next_finished`: advance the index, then `run_next`. */
    method RunNextFinished() returns (raised: bool)
      modifies this`cmdIndex, this`process, this`log, this`killed
      ensures (Chain(), raised) == FinishedSpec(commands, old(Chain()))
    {
      cmdIndex := cmdIndex + 1;
      raised := RunNext();
    }
  }

  /** One more target adds its `down` command at the end. */
  lemma DownCommandsSnoc(script: string, profs: seq<string>, p: string)
    ensures DownCommands(script, profs + [p]) == DownCommands(script, profs) + [WgMulti(script, "down", p)]
  {
  }

  /** One more listed path adds its `down` command. */
  lemma DisconnectSnoc(script: string, paths: seq<string>, i: nat)
    requires i < |paths|
    ensures DisconnectCommands(script, paths[..i + 1]) ==
      DisconnectCommands(script, paths[..i]) + [WgMulti(script, "down", ProfileNameOf(paths[i]))]
  {
    assert paths[..i + 1][..i] == paths[..i];
    DownCommandsSnoc(script, ProfileNames(paths[..i]), ProfileNameOf(paths[i]));
  }
}
