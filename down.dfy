/** `hermit down`: stop the tunnel, then delete the instance if there is one.
    The persistent disk and the stored configuration stay. */
module Down {
  import opened Wrappers
  import opened Effects
  import opened Config
  import opened Tunnel
  import Gcp

  /** Why `down` stops: the tunnel helpers raised, or the status listing was
      not one line. */
  datatype DownError = TunnelFailure(tunnelError: TunnelError) | StatusFailure(statusError: Gcp.StatusError)

  /** The steps `down` takes once the tunnel question is settled: the status
      query, then the instance deletion only when an instance exists. */
  function AfterTunnel(cfg: InstanceConfig, status: Result<Option<string>, Gcp.StatusError>): seq<Step>
  {
    [StatusQuery(cfg.name, cfg.zone, cfg.project)]
      + (if status.Ok? && status.value.Some? then [InstanceDelete(cfg.name, cfg.zone, cfg.project)] else [])
  }

  /** `down(name)` for the stored configuration `cfg`; `statusOutput` is what
      the instance listing prints. A running tunnel is sent SIGTERM first (the
      signal never fails, since its process is live); `exited` says whether
      that process has ended by the time anything looks again, which `down`
      does not wait for. An existing instance is deleted only after that. */
  method Down(host: Host, cfg: InstanceConfig, statusOutput: string, exited: bool)
    returns (r: Result<(), DownError>, steps: seq<Step>)
    modifies host
    ensures host.pidFiles == old(host.pidFiles) && host.listening == old(host.listening) && host.bound == old(host.bound)
    ensures old(host.IsTunnelRunning(cfg.name)).Err? ==>
      r == Err(TunnelFailure(old(host.IsTunnelRunning(cfg.name)).error)) && steps == [] && host.live == old(host.live)
    ensures old(host.IsTunnelRunning(cfg.name)) == Ok(false) ==>
      host.live == old(host.live) && steps == AfterTunnel(cfg, Gcp.InstanceStatus(statusOutput, true))
    ensures old(host.IsTunnelRunning(cfg.name)) == Ok(true) ==>
      var p := old(host.ReadPid(cfg.name)).value.value;
      host.live == (if exited then old(host.live) - {p} else old(host.live))
      && steps == [SigTerm(p)] + AfterTunnel(cfg, Gcp.InstanceStatus(statusOutput, true))
    ensures r.Ok? <==> old(host.IsTunnelRunning(cfg.name)).Ok? && Gcp.InstanceStatus(statusOutput, true).Ok?
    ensures r.Err? && old(host.IsTunnelRunning(cfg.name)).Ok? ==>
      r == Err(StatusFailure(Gcp.InstanceStatus(statusOutput, true).error))
    ensures old(host.IsTunnelRunning(cfg.name)) == Ok(false) ==> host.IsTunnelRunning(cfg.name) == Ok(false)
    ensures old(host.IsTunnelRunning(cfg.name)) == Ok(true) ==> (host.IsTunnelRunning(cfg.name) == Ok(false) <==> exited)
  {
    steps := [];
    var running := host.IsTunnelRunning(cfg.name);
    if running.Err? {
      return Err(TunnelFailure(running.error)), steps;
    }
    if running.value {
      var stopped := host.StopTunnel(cfg.name, exited);
      steps := steps + [stopped.value.value];
    }
    steps := steps + [StatusQuery(cfg.name, cfg.zone, cfg.project)];
    var status := Gcp.InstanceStatus(statusOutput, true);
    if status.Err? {
      return Err(StatusFailure(status.error)), steps;
    }
    if status.value.Some? {
      steps := steps + [InstanceDelete(cfg.name, cfg.zone, cfg.project)];
    }
    return Ok(()), steps;
  }
}
