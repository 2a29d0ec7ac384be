/** `hermit delete`: remove an instance's persistent disk and its stored
    configuration, after checking that nothing still uses them and, unless
    forced, after the user has typed the disk's name. */
module Delete {
  import opened Wrappers
  import opened Effects
  import opened Config
  import opened Tunnel
  import Gcp

  /** The assertions `delete` can fail, and the errors it lets through. */
  datatype DeleteError =
    | TunnelStillRunning
    | TunnelFailure(tunnelError: TunnelError)
    | StatusFailure(statusError: Gcp.StatusError)
    | InstanceExists(status: string)
    | NameMismatch(typed: string)

  /** The steps of a `delete` that goes through. */
  function DeleteSteps(cfg: InstanceConfig, force: bool): seq<Step>
  {
    [StatusQuery(cfg.name, cfg.zone, cfg.project)]
      + (if force then [] else [ConfirmPrompt(cfg.pdName)])
      + [DiskDelete(cfg.pdName, cfg.zone, cfg.project), ConfigDelete(cfg.name)]
  }

  /** `delete(name, force)` for the stored configuration `cfg`. `statusOutput`
      is what the instance listing prints and `typed` what the user answers
      to the prompt. The disk and the configuration are deleted exactly when
      the tunnel is known to be stopped, no instance exists, and the user
      confirmed with the disk's name or `force` was given; when `delete`
      stops early it has deleted nothing. */
  method Delete(host: Host, cfg: InstanceConfig, force: bool, statusOutput: string, typed: string)
    returns (r: Result<(), DeleteError>, steps: seq<Step>)
    ensures r.Ok? <==>
      && host.IsTunnelRunning(cfg.name) == Ok(false)
      && Gcp.InstanceStatus(statusOutput, true) == Ok(None)
      && (force || typed == cfg.pdName)
    ensures r.Ok? ==> steps == DeleteSteps(cfg, force)
    ensures r.Err? ==> forall k :: 0 <= k < |steps| ==> !Destructive(steps[k])
    ensures host.IsTunnelRunning(cfg.name) == Ok(true) ==> r == Err(TunnelStillRunning) && steps == []
    ensures forall s :: Gcp.InstanceStatus(statusOutput, true) == Ok(Some(s)) ==>
                          host.IsTunnelRunning(cfg.name) == Ok(false) ==> r == Err(InstanceExists(s))
  {
    steps := [];
    var running := host.IsTunnelRunning(cfg.name);
    if running.Err? {
      return Err(TunnelFailure(running.error)), steps;
    }
    if running.value {
      return Err(TunnelStillRunning), steps;
    }
    steps := steps + [StatusQuery(cfg.name, cfg.zone, cfg.project)];
    var status := Gcp.InstanceStatus(statusOutput, true);
    if status.Err? {
      return Err(StatusFailure(status.error)), steps;
    }
    if status.value.Some? {
      return Err(InstanceExists(status.value.value)), steps;
    }
    if !force {
      steps := steps + [ConfirmPrompt(cfg.pdName)];
      if typed != cfg.pdName {
        return Err(NameMismatch(typed)), steps;
      }
    }
    steps := steps + [DiskDelete(cfg.pdName, cfg.zone, cfg.project), ConfigDelete(cfg.name)];
    return Ok(()), steps;
  }

  /** In a `delete` that goes through, the disk goes before the configuration,
      and a prompt, when there is one, comes before both. */
  lemma DeleteStepsOrder(cfg: InstanceConfig, force: bool)
    ensures var s := DeleteSteps(cfg, force);
      && s[|s| - 2] == DiskDelete(cfg.pdName, cfg.zone, cfg.project)
      && s[|s| - 1] == ConfigDelete(cfg.name)
      && (forall k :: 0 <= k < |s| - 2 ==> !Destructive(s[k]))
      && (!force <==> ConfirmPrompt(cfg.pdName) in s)
  {
  }
}
