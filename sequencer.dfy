/**
 * The command chain of the GUI (`run_next` / `run_next_finished`): a list
 * of argument vectors and an index into it; each completion of the running
 * process advances the index by one and starts the next command, whatever
 * the exit code was. This module states what one step does to the chain's
 * state; the `WgGui` class of module `Gui` performs the steps in place.
 */
module Sequencer {
  import opened Text

  /**
   * The process object held in `self.process`: created but never started
   * (the one made in `__init__`, or one whose `start` raised), or started
   * with a program and its arguments.
   */
  datatype Process = NotStarted | Started(program: string, args: seq<string>)

  /**
   * What the chain reads and changes: `cmd_index`, `self.process`, the log
   * text appended so far, and the processes killed to make room for the
   * next one, oldest first.
   */
  datatype ChainState = ChainState(cmdIndex: nat, process: Process, log: seq<string>, killed: seq<Process>)

  /** `append_log(text)`: the text, ended by a newline unless it already has one. */
  function LogLine(text: string): (r: string)
    ensures EndsWith(r, "\n") && StartsWith(r, text)
    ensures |r| <= |text| + 1 && (EndsWith(text, "\n") ==> r == text)
  {
    if EndsWith(text, "\n") then text else text + "\n"
  }

  /** The line `run_next` echoes before starting a command. */
  function Echo(cmd: seq<string>): string {
    LogLine("> " + Join(" ", cmd))
  }

  /**
   * `run_next` on the state `s`: nothing at all once the index has run off
   * the list; otherwise the command is echoed, the current process is
   * killed and replaced, and the command's first word is started with the
   * rest as arguments. The second component is true when the step raises:
   * an empty command has no `cmd[0]`, and the new process is then left
   * unstarted.
   */
  function RunNextSpec(commands: seq<seq<string>>, s: ChainState): (ChainState, bool) {
    if s.cmdIndex >= |commands| then (s, false)
    else
      var cmd := commands[s.cmdIndex];
      var s' := s.(log := s.log + [Echo(cmd)], killed := s.killed + [s.process]);
      if |cmd| == 0 then (s'.(process := NotStarted), true)
      else (s'.(process := Started(cmd[0], cmd[1..])), false)
  }

  /** `run_next_finished`: the index moves on by one, then `run_next`. Exit codes are not consulted. */
  function FinishedSpec(commands: seq<seq<string>>, s: ChainState): (ChainState, bool) {
    RunNextSpec(commands, s.(cmdIndex := s.cmdIndex + 1))
  }

  /** Past the end of the list a step changes nothing and raises nothing. */
  lemma RunNextIdle(commands: seq<seq<string>>, s: ChainState)
    requires s.cmdIndex >= |commands|
    ensures RunNextSpec(commands, s) == (s, false)
  {
  }

  /**
   * Within the list a step echoes the command, kills the current process,
   * keeps the index, and starts exactly that command; it raises exactly
   * when the command is empty.
   */
  lemma RunNextStarts(commands: seq<seq<string>>, s: ChainState)
    requires s.cmdIndex < |commands|
    ensures var (t, raised) := RunNextSpec(commands, s); var cmd := commands[s.cmdIndex];
      && t.cmdIndex == s.cmdIndex
      && t.log == s.log + [Echo(cmd)]
      && t.killed == s.killed + [s.process]
      && (raised <==> cmd == [])
      && (!raised ==> t.process == Started(cmd[0], cmd[1..]))
  {
  }

  /** The echo lines of a run of commands, in order. */
  function Echoes(cmds: seq<seq<string>>): (r: seq<string>)
    ensures |r| == |cmds| && forall i :: 0 <= i < |cmds| ==> r[i] == Echo(cmds[i])
  {
    seq(|cmds|, i requires 0 <= i < |cmds| => Echo(cmds[i]))
  }

  /** The processes a run of (non-empty) commands starts, in order. */
  function Starts(cmds: seq<seq<string>>): (r: seq<Process>)
    requires forall i :: 0 <= i < |cmds| ==> cmds[i] != []
    ensures |r| == |cmds| && forall i :: 0 <= i < |cmds| ==> r[i] == Started(cmds[i][0], cmds[i][1..])
  {
    seq(|cmds|, i requires 0 <= i < |cmds| => Started(cmds[i][0], cmds[i][1..]))
  }

  /** The state after `run_next` and then `n` completion events, as long as no step raised. */
  function Run(commands: seq<seq<string>>, s: ChainState, n: nat): ChainState {
    if n == 0 then RunNextSpec(commands, s).0
    else FinishedSpec(commands, Run(commands, s, n - 1)).0
  }

  /**
   * The chain runs the list in order, each command once: started from index
   * 0 and after `n` completions, the index is `n`, the log holds one echo
   * per command up to the `n`-th, the running process is the `n`-th
   * command, and every earlier command was started and then killed in turn.
   */
  lemma {:induction false} ChainInOrder(commands: seq<seq<string>>, s: ChainState, n: nat)
    requires s.cmdIndex == 0 && n < |commands|
    requires forall i :: 0 <= i < |commands| ==> commands[i] != []
    ensures var t := Run(commands, s, n);
      && t.cmdIndex == n
      && t.process == Started(commands[n][0], commands[n][1..])
      && t.log == s.log + Echoes(commands[..n + 1])
      && t.killed == s.killed + [s.process] + Starts(commands[..n])
  {
    if n > 0 {
      ChainInOrder(commands, s, n - 1);
      var prev := Run(commands, s, n - 1);
      FinishedStarts(commands, prev);
      EchoesSnoc(commands, n);
      StartsSnoc(commands, n);
    } else {
      assert Starts(commands[..0]) == [];
      assert Echoes(commands[..1]) == [Echo(commands[0])];
    }
  }

  /** A completion within the list starts the next (non-empty) command and kills the current one. */
  lemma FinishedStarts(commands: seq<seq<string>>, t: ChainState)
    requires t.cmdIndex + 1 < |commands| && commands[t.cmdIndex + 1] != []
    ensures var cmd := commands[t.cmdIndex + 1];
      FinishedSpec(commands, t).0 == ChainState(t.cmdIndex + 1, Started(cmd[0], cmd[1..]),
        t.log + [Echo(cmd)], t.killed + [t.process])
  {
  }

  lemma EchoesSnoc(cmds: seq<seq<string>>, n: nat)
    requires n < |cmds|
    ensures Echoes(cmds[..n + 1]) == Echoes(cmds[..n]) + [Echo(cmds[n])]
  {
  }

  lemma StartsSnoc(cmds: seq<seq<string>>, n: nat)
    requires 0 < n < |cmds| && forall i :: 0 <= i < |cmds| ==> cmds[i] != []
    ensures Starts(cmds[..n]) == Starts(cmds[..n - 1]) + [Started(cmds[n - 1][0], cmds[n - 1][1..])]
  {
  }

  /**
   * Once the last command has been started, completions only move the
   * index on: nothing is echoed, started or killed any more.
   */
  lemma {:induction false} ChainStops(commands: seq<seq<string>>, s: ChainState, n: nat)
    requires s.cmdIndex == 0 && 0 < |commands| <= n + 1
    ensures var t := Run(commands, s, n); var r := Run(commands, s, |commands| - 1);
      t.cmdIndex == n && t.process == r.process && t.log == r.log && t.killed == r.killed
  {
    RunIndex(commands, s, n);
    if n >= |commands| {
      ChainStops(commands, s, n - 1);
      var y := Run(commands, s, n - 1);
      RunNextIdle(commands, y.(cmdIndex := n));
    }
  }

  /** The index after `n` completions is `n`, whatever the commands were. */
  lemma {:induction false} RunIndex(commands: seq<seq<string>>, s: ChainState, n: nat)
    requires s.cmdIndex == 0
    ensures Run(commands, s, n).cmdIndex == n
  {
    if n > 0 {
      RunIndex(commands, s, n - 1);
    }
  }

  /** With the empty list `__init__` sets up, `run_next` never echoes, starts or kills anything. */
  lemma {:induction false} EmptyChainInert(s: ChainState, n: nat)
    requires s.cmdIndex == 0
    ensures Run([], s, n) == s.(cmdIndex := n)
  {
    if n > 0 {
      EmptyChainInert(s, n - 1);
    }
  }
}
