/** The `hermit up` command itself: it checks that the instance can read its
    container image, creates, resumes or keeps the instance according to its
    status, waits for the container's ssh server, and then brings the tunnel,
    the ssh configuration and the default instance up to date. */
module UpCommand {
  import opened Wrappers
  import opened Effects
  import opened Config
  import opened Tunnel
  import opened Boot = Up
  import Gcp
  import Ssh
  import StatusLog
  import Text

  /** Why `up` stops: no access to the container image (it prints how to
      grant it and returns 1), a status listing that is not one line, a
      stopped instance, a status it has no case for, a wait that does not end
      with the instance started, the tunnel helpers, or an ssh configuration
      with a start marker and no end marker. */
  datatype UpError =
    | NoImageAccess
    | StatusFailure(statusError: Gcp.StatusError)
    | StoppedInstanceExists
    | UnknownStatus(status: string)
    | NotStarted(outcome: StartOutcome)
    | TunnelFailure(tunnelError: TunnelError)
    | SshFailure(sshError: Ssh.SshError)

  /** What `up` does about the instance status it found: a stopped instance
      and a status it does not know are errors; otherwise it creates a missing
      instance, resumes a suspended one and leaves a running one alone. */
  function Dispatch(cfg: InstanceConfig, status: Option<string>): (r: Result<seq<Step>, UpError>)
    ensures r == Err(StoppedInstanceExists) <==> status == Some("TERMINATED")
    ensures r.Ok? <==> status in {None, Some("RUNNING"), Some("SUSPENDED")}
    ensures r.Err? && status != Some("TERMINATED") ==> r == Err(UnknownStatus(status.value))
    ensures r == Ok([InstanceCreate(cfg.name)]) <==> status.None?
    ensures r == Ok([]) <==> status == Some("RUNNING")
    ensures r == Ok([InstanceResume(cfg.name, cfg.zone, cfg.project)]) <==> status == Some("SUSPENDED")
  {
    if status == Some("TERMINATED") then Err(StoppedInstanceExists)
    else match status
      case None => Ok([InstanceCreate(cfg.name)])
      case Some(s) =>
        if s == "RUNNING" then Ok([])
        else if s == "SUSPENDED" then Ok([InstanceResume(cfg.name, cfg.zone, cfg.project)])
        else Err(UnknownStatus(s))
  }

  /** Everything `up` decides before it waits: the access check, the status
      listing and the dispatch on the status, giving the provider action. */
  function Prepare(cfg: InstanceConfig, hasAccess: bool, statusOutput: string): (r: Result<seq<Step>, UpError>)
    ensures !hasAccess ==> r == Err(NoImageAccess)
    ensures r.Ok? <==> hasAccess && Gcp.InstanceStatus(statusOutput, true).Ok?
                       && Gcp.InstanceStatus(statusOutput, true).value in {None, Some("RUNNING"), Some("SUSPENDED")}
    ensures r.Ok? ==> |r.value| <= 1 && forall s :: s in r.value ==> !Destructive(s)
  {
    if !hasAccess then Err(NoImageAccess)
    else match Gcp.InstanceStatus(statusOutput, true)
      case Err(e) => Err(StatusFailure(e))
      case Ok(status) => Dispatch(cfg, status)
  }

  /** The steps taken before the wait: the status query once access is
      granted, and the provider action once the status allows one. */
  function StepsBeforeWait(cfg: InstanceConfig, hasAccess: bool, statusOutput: string): seq<Step> {
    (if hasAccess then [StatusQuery(cfg.name, cfg.zone, cfg.project)] else [])
      + (match Prepare(cfg, hasAccess, statusOutput) case Ok(actions) => actions case Err(_) => [])
  }

  /** The boot-log parser `up` waits with. */
  function BootLogParser(): LogParser {
    LogParser(StatusLog.GetStatusFromLog)
  }

  /** How long `up` waits for the instance to start, in seconds. */
  const StartTimeout: real := 3600.0

  /** The signal sent to a tunnel that runs, given what its pid file read
      and which processes were alive. */
  function TunnelStop(read: Result<Option<int>, TunnelError>, live: set<int>): seq<Step> {
    if read.Ok? && read.value.Some? && read.value.value in live then [SigTerm(read.value.value)] else []
  }

  /** Whether `up` starts its new tunnel, given the machine before the
      tunnel step: the pid file reads, and the configured port is free at
      `start_tunnel`'s check, that is, once the old tunnel, if it was
      signalled and has `exited`, no longer holds it. */
  predicate TunnelStarts(cfg: InstanceConfig, read: Result<Option<int>, TunnelError>, live: set<int>,
                         listening: map<int, int>, bound: set<int>, exited: bool) {
    read.Ok? && PortFreeIn(cfg.localPort, bound, listening, LiveAfterStop(read, live, exited))
  }

  /** The pid files, live processes and listening ports after `up`'s tunnel
      step, from those before: the old tunnel is gone when it `exited`, and
      when the new tunnel `started` its pid is recorded, live and listening
      on the configured port. */
  function TunnelAfter(cfg: InstanceConfig, pid: int, exited: bool, started: bool, read: Result<Option<int>, TunnelError>,
                       pidFiles: map<string, string>, live: set<int>, listening: map<int, int>)
    : (map<string, string>, set<int>, map<int, int>)
  {
    var after := LiveAfterStop(read, live, exited);
    if started then (pidFiles[cfg.name := Text.IntToString(pid)], after + {pid}, listening[pid := cfg.localPort])
    else (pidFiles, after, listening)
  }

  /** Re-running `up` over a tunnel that runs and alone holds its port: the
      new tunnel starts exactly when the old process has exited by the time
      the port is checked, since `stop_tunnel` does not wait for it. */
  lemma {:induction false} RerunStartsIffExited(cfg: InstanceConfig, p: int, live: set<int>, listening: map<int, int>,
                                                bound: set<int>, exited: bool)
    requires p in live && p in listening && listening[p] == cfg.localPort && cfg.localPort !in bound
    requires forall q :: q in live && q in listening && q != p ==> listening[q] != cfg.localPort
    ensures TunnelStarts(cfg, Ok(Some(p)), live, listening, bound, exited) <==> exited
  {
    ExitedTunnelFreesPort(cfg.localPort, bound, listening, live, p);
  }

  /** The tunnel part of `up`: a running tunnel is sent SIGTERM, one that is
      not running is left alone, and then a new tunnel is started unless its
      port is taken, so that afterwards the tunnel runs with the new pid.
      `exited` says whether the old process has ended by the port check;
      nothing waits for it, so an old process that has not still holds the
      port, and the start fails. */
  method RefreshTunnel(host: Host, cfg: InstanceConfig, pid: int, exited: bool) returns (r: Result<(), TunnelError>, steps: seq<Step>)
    modifies host
    ensures old(host.IsTunnelRunning(cfg.name)).Err? ==>
      r == Err(old(host.IsTunnelRunning(cfg.name)).error) && steps == [] && unchanged(host)
    ensures old(host.IsTunnelRunning(cfg.name)).Ok? ==>
      && (r.Ok? <==> TunnelStarts(cfg, old(host.ReadPid(cfg.name)), old(host.live), old(host.listening), old(host.bound), exited))
      && (r.Err? ==> r.error == PortInUse(cfg.localPort))
      && steps == TunnelStop(old(host.ReadPid(cfg.name)), old(host.live))
                  + (if r.Ok? then [TunnelSpawn(cfg.name, cfg.zone, cfg.project, cfg.localPort, pid)] else [])
    ensures host.bound == old(host.bound)
    ensures (host.pidFiles, host.live, host.listening)
            == TunnelAfter(cfg, pid, exited, r.Ok?, old(host.ReadPid(cfg.name)), old(host.pidFiles), old(host.live), old(host.listening))
    ensures r.Ok? ==> host.ReadPid(cfg.name) == Ok(Some(pid)) && host.IsTunnelRunning(cfg.name) == Ok(true)
                      && !host.IsPortFree(cfg.localPort)
    ensures forall s :: s in steps ==> !Destructive(s)
  {
    var running := host.IsTunnelRunning(cfg.name);
    if running.Err? {
      return Err(running.error), [];
    }
    steps := [];
    ghost var read := host.ReadPid(cfg.name);
    if running.value {
      var stopped := host.StopTunnel(cfg.name, exited);
      steps := [stopped.value.value];
    } else if read.value.Some? {
      assert host.live == LiveAfterStop(read, host.live, exited);
    }
    var started := host.StartTunnel(cfg.name, cfg.zone, cfg.project, cfg.localPort, pid);
    if started.Err? {
      return Err(started.error), steps;
    }
    return Ok(()), steps + [started.value];
  }

  /** The steps of a successful local update: the old tunnel's signal, if it
      ran, the new tunnel, the ssh configuration and the default instance. */
  function LocalSteps(cfg: InstanceConfig, pid: int, read: Result<Option<int>, TunnelError>, live: set<int>): seq<Step> {
    TunnelStop(read, live) + [TunnelSpawn(cfg.name, cfg.zone, cfg.project, cfg.localPort, pid)]
      + [SshConfigUpdate, DefaultConfigSet(cfg.name)]
  }

  /** What `up` does on this machine once the instance has started: the
      tunnel is restarted, then the ssh configuration is rewritten and the
      instance becomes the default; a tunnel failure leaves the files alone. */
  method UpdateLocal(host: Host, files: Ssh.Files, cfg: InstanceConfig, configs: seq<InstanceConfig>,
                     pid: int, exited: bool, sshConfigPath: string, now: int)
    returns (r: Result<(), UpError>, steps: seq<Step>)
    modifies host, files
    ensures r.Ok? <==>
      && TunnelStarts(cfg, old(host.ReadPid(cfg.name)), old(host.live), old(host.listening), old(host.bound), exited)
      && Ssh.SshConfigText(old(files.Read(sshConfigPath)), configs).Some?
    ensures !TunnelStarts(cfg, old(host.ReadPid(cfg.name)), old(host.live), old(host.listening), old(host.bound), exited) ==>
      r.Err? && r.error.TunnelFailure? && unchanged(files)
    ensures host.bound == old(host.bound)
    ensures (host.pidFiles, host.live, host.listening)
            == TunnelAfter(cfg, pid, exited,
                           TunnelStarts(cfg, old(host.ReadPid(cfg.name)), old(host.live), old(host.listening), old(host.bound), exited),
                           old(host.ReadPid(cfg.name)), old(host.pidFiles), old(host.live), old(host.listening))
    ensures r.Ok? ==>
      && steps == LocalSteps(cfg, pid, old(host.ReadPid(cfg.name)), old(host.live))
      && host.ReadPid(cfg.name) == Ok(Some(pid)) && host.IsTunnelRunning(cfg.name) == Ok(true)
      && files.contents == Ssh.Replaced(old(files.contents), sshConfigPath,
                                        Ssh.SshConfigText(old(files.Read(sshConfigPath)), configs).value, now)
    ensures forall s :: s in steps ==> !Destructive(s)
  {
    var tunnel;
    tunnel, steps := RefreshTunnel(host, cfg, pid, exited);
    if tunnel.Err? {
      return Err(TunnelFailure(tunnel.error)), steps;
    }
    var updated := Ssh.UpdateSshConfig(files, sshConfigPath, configs, now);
    if updated.Err? {
      return Err(SshFailure(updated.error)), steps;
    }
    steps := steps + [SshConfigUpdate, DefaultConfigSet(cfg.name)];
    r := Ok(());
  }

  /** `up(name, verbose)` for the stored configuration `cfg`. The answers of
      the outside world are parameters: whether the instance's service account
      can read its image, what the status listing prints, the successive
      serial-port polls, the pid the tunnel process gets, whether a tunnel
      that was running has ended after its signal, every stored
      configuration, and the time that names a backup of the ssh
      configuration. Nothing local changes unless the instance started. */
  method Up(host: Host, files: Ssh.Files, cfg: InstanceConfig, configs: seq<InstanceConfig>,
            hasAccess: bool, statusOutput: string, polls: seq<Fetch>, verbose: bool,
            pid: int, exited: bool, sshConfigPath: string, now: int)
    returns (r: Result<(), UpError>, steps: seq<Step>, shown: seq<Shown>)
    modifies host, files
    ensures Prepare(cfg, hasAccess, statusOutput).Err? ==>
      && r == Err(Prepare(cfg, hasAccess, statusOutput).error)
      && steps == StepsBeforeWait(cfg, hasAccess, statusOutput) && shown == []
      && unchanged(host, files)
    ensures Prepare(cfg, hasAccess, statusOutput).Ok? ==>
      var outcome := WaitOutcome(BootLogParser(), polls, StartTimeout);
      && Made(outcome, |polls|) <= |polls|
      && shown == ViewAfter(BootLogParser(), polls, Made(outcome, |polls|), verbose).shown
      && (!outcome.Started? ==>
            r == Err(NotStarted(outcome)) && steps == StepsBeforeWait(cfg, hasAccess, statusOutput)
            && unchanged(host, files))
    ensures r.Ok? <==>
      && Prepare(cfg, hasAccess, statusOutput).Ok? && WaitOutcome(BootLogParser(), polls, StartTimeout).Started?
      && TunnelStarts(cfg, old(host.ReadPid(cfg.name)), old(host.live), old(host.listening), old(host.bound), exited)
      && Ssh.SshConfigText(old(files.Read(sshConfigPath)), configs).Some?
    ensures Prepare(cfg, hasAccess, statusOutput).Ok? && WaitOutcome(BootLogParser(), polls, StartTimeout).Started? ==>
      && host.bound == old(host.bound)
      && (host.pidFiles, host.live, host.listening)
         == TunnelAfter(cfg, pid, exited,
                        TunnelStarts(cfg, old(host.ReadPid(cfg.name)), old(host.live), old(host.listening), old(host.bound), exited),
                        old(host.ReadPid(cfg.name)), old(host.pidFiles), old(host.live), old(host.listening))
    ensures r.Ok? ==>
      && steps == StepsBeforeWait(cfg, hasAccess, statusOutput) + LocalSteps(cfg, pid, old(host.ReadPid(cfg.name)), old(host.live))
      && host.ReadPid(cfg.name) == Ok(Some(pid)) && host.IsTunnelRunning(cfg.name) == Ok(true)
      && files.contents == Ssh.Replaced(old(files.contents), sshConfigPath,
                                        Ssh.SshConfigText(old(files.Read(sshConfigPath)), configs).value, now)
    ensures forall s :: s in steps ==> !Destructive(s)
  {
    steps, shown := StepsBeforeWait(cfg, hasAccess, statusOutput), [];
    var prepared := Prepare(cfg, hasAccess, statusOutput);
    if prepared.Err? {
      return Err(prepared.error), steps, shown;
    }
    var outcome, made;
    outcome, made, shown := WaitForInstanceStart(BootLogParser(), polls, verbose, StartTimeout);
    if !outcome.Started? {
      return Err(NotStarted(outcome)), steps, shown;
    }
    var local;
    r, local := UpdateLocal(host, files, cfg, configs, pid, exited, sshConfigPath, now);
    steps := steps + local;
  }
}
