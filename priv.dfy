/**
 * The privilege adapter of `priv.py`: how a command is wrapped for running
 * with elevated rights. The module-level facts it decides from (macOS or
 * not, which helper binaries exist, whether the `-n true` probes succeeded)
 * are fields of `PrivEnv`; `shlex.quote` is the parameter `quote`.
 */
module Priv {
  import opened Common
  import opened Text

  /** `PRIV_ESC`. */
  const PrivEsc := "sudo"

  /**
   * What `priv.py` learns at import time: `IS_MACOS`, the `ASKPASS` helper
   * path (empty when none), `DOAS_BIN` and `SUDO_BIN` (`None` when not on
   * the path), and whether `doas -n true` / `sudo -n true` exited with 0.
   */
  datatype PrivEnv = PrivEnv(
    isMacos: bool,
    askpass: string,
    doasBin: Option<string>,
    sudoBin: Option<string>,
    doasProbeOk: bool,
    sudoProbeOk: bool)

  /** `DOAS_NOPASS`: the probe is only run when `doas` was found. */
  predicate DoasNopass(env: PrivEnv) {
    env.doasBin.Some? && env.doasProbeOk
  }

  /** `SUDO_NOPASS`: the probe is only run when `sudo` was found. */
  predicate SudoNopass(env: PrivEnv) {
    env.sudoBin.Some? && env.sudoProbeOk
  }

  /** `SUDO_FLAG`: `-A` when an askpass helper exists on macOS, else empty. */
  function SudoFlag(env: PrivEnv): string {
    if env.askpass != "" && env.isMacos then "-A" else ""
  }

  /** A program and its argument list, as handed to `QProcess.start`. */
  datatype Launch = Launch(program: string, args: seq<string>)

  function MapQuote(quote: string -> string, xs: seq<string>): (r: seq<string>)
    ensures |r| == |xs| && forall i :: 0 <= i < |xs| ==> r[i] == quote(xs[i])
  {
    seq(|xs|, i requires 0 <= i < |xs| => quote(xs[i]))
  }

  /** The AppleScript line that runs the quoted command with administrator privileges. */
  function AppleScript(cmdArgs: seq<string>, quote: string -> string): string {
    "do shell script \"" + Join(" ", MapQuote(quote, cmdArgs)) + "\" with administrator privileges"
  }

  /** `build_qprocess_args`: the first branch that applies, in priority order. */
  function BuildQProcessArgs(env: PrivEnv, cmdArgs: seq<string>, quote: string -> string): Launch {
    if DoasNopass(env) then Launch(env.doasBin.value, cmdArgs)
    else if SudoNopass(env) then Launch(env.sudoBin.value, ["-n"] + cmdArgs)
    else if env.isMacos then Launch("osascript", ["-e", AppleScript(cmdArgs, quote)])
    else
      var prefix := [PrivEsc] + (if SudoFlag(env) != "" then [SudoFlag(env)] else []);
      Launch(prefix[0], prefix[1..] + cmdArgs)
  }

  /** The argument vector `run_priv` hands to `subprocess.run`. */
  function RunPrivArgv(env: PrivEnv, cmdArgs: seq<string>, quote: string -> string): seq<string> {
    if DoasNopass(env) then [env.doasBin.value] + cmdArgs
    else if SudoNopass(env) then [env.sudoBin.value, "-n"] + cmdArgs
    else if env.isMacos then ["osascript", "-e", AppleScript(cmdArgs, quote)]
    else
      var prefix := [PrivEsc] + (if SudoFlag(env) != "" then [SudoFlag(env)] else []);
      prefix + cmdArgs
  }

  /** The blocking and the asynchronous runner escalate the same way: `run_priv` runs `[program] + args`. */
  lemma RunPrivAgrees(env: PrivEnv, cmdArgs: seq<string>, quote: string -> string)
    ensures var l := BuildQProcessArgs(env, cmdArgs, quote);
      RunPrivArgv(env, cmdArgs, quote) == [l.program] + l.args
  {
    if !DoasNopass(env) && !SudoNopass(env) && !env.isMacos {
      var prefix := [PrivEsc] + (if SudoFlag(env) != "" then [SudoFlag(env)] else []);
      assert prefix + cmdArgs == [prefix[0]] + (prefix[1..] + cmdArgs);
    } else if !DoasNopass(env) && SudoNopass(env) {
      assert [env.sudoBin.value, "-n"] + cmdArgs == [env.sudoBin.value] + (["-n"] + cmdArgs);
    }
  }

  /**
   * The priority chain: passwordless doas wins whatever else holds, then
   * passwordless `sudo -n`, then on macOS `osascript -e` with the AppleScript
   * line that runs the quoted command with administrator privileges.
   */
  lemma PriorityChain(env: PrivEnv, cmdArgs: seq<string>, quote: string -> string)
    ensures DoasNopass(env) ==> BuildQProcessArgs(env, cmdArgs, quote) == Launch(env.doasBin.value, cmdArgs)
    ensures !DoasNopass(env) && SudoNopass(env) ==>
      BuildQProcessArgs(env, cmdArgs, quote) == Launch(env.sudoBin.value, ["-n"] + cmdArgs)
    ensures !DoasNopass(env) && !SudoNopass(env) && env.isMacos ==>
      BuildQProcessArgs(env, cmdArgs, quote) == Launch("osascript", ["-e", AppleScript(cmdArgs, quote)])
  {
  }

  /**
   * The last branch is plain `sudo`: `SUDO_FLAG` is only set on macOS, and
   * macOS has already returned, so `-A` never reaches the argument list.
   */
  lemma FallbackIsPlainSudo(env: PrivEnv, cmdArgs: seq<string>, quote: string -> string)
    requires !DoasNopass(env) && !SudoNopass(env) && !env.isMacos
    ensures BuildQProcessArgs(env, cmdArgs, quote) == Launch(PrivEsc, cmdArgs)
    ensures RunPrivArgv(env, cmdArgs, quote) == [PrivEsc] + cmdArgs
  {
    assert SudoFlag(env) == "";
    assert ([PrivEsc] + [])[1..] + cmdArgs == cmdArgs;
  }

  /** Outside the AppleScript branch the command is passed on unchanged, at the end of the argument list. */
  lemma CommandIsSuffix(env: PrivEnv, cmdArgs: seq<string>, quote: string -> string)
    requires DoasNopass(env) || SudoNopass(env) || !env.isMacos
    ensures var l := BuildQProcessArgs(env, cmdArgs, quote);
      |cmdArgs| <= |l.args| <= |cmdArgs| + 1 && l.args[|l.args| - |cmdArgs|..] == cmdArgs
  {
    if !DoasNopass(env) && !SudoNopass(env) {
      FallbackIsPlainSudo(env, cmdArgs, quote);
    }
  }

  /** The program comes from the environment alone, never from the command being wrapped. */
  lemma ProgramIndependentOfCommand(env: PrivEnv, a: seq<string>, b: seq<string>, quote: string -> string)
    ensures BuildQProcessArgs(env, a, quote).program == BuildQProcessArgs(env, b, quote).program
    ensures BuildQProcessArgs(env, a, quote).program in
      {"osascript", PrivEsc} + (if env.doasBin.Some? then {env.doasBin.value} else {})
        + (if env.sudoBin.Some? then {env.sudoBin.value} else {})
  {
  }
}
