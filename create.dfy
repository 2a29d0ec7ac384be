/** `hermit create`: resolving the command's arguments against the gcloud
    defaults and the existing configurations, the firewall rule the tunnel
    needs, and the creation and formatting of the persistent disk. */
module Create {
  import opened Wrappers
  import opened Text
  import opened Effects
  import opened Config
  import Gcp
  import Ssh

  // ---------------------------------------------------------------------------
  // find_unused_port
  // ---------------------------------------------------------------------------

  /** The port proposed when no configuration exists yet. */
  const FirstLocalPort: int := 3022

  /** `port` is what `find_unused_port` answers for these configurations:
      the first port when there are none, otherwise one past the largest
      port in use. */
  predicate IsNextPort(configs: seq<InstanceConfig>, port: int) {
    if configs == [] then port == FirstLocalPort
    else
      && (forall k :: 0 <= k < |configs| ==> configs[k].localPort < port)
      && (exists k :: 0 <= k < |configs| && configs[k].localPort == port - 1)
  }

  /** `find_unused_port`: collects the local port of every stored
      configuration, then takes one past their maximum. */
  method FindUnusedPort(configs: seq<InstanceConfig>) returns (port: int)
    ensures IsNextPort(configs, port)
  {
    var usedPorts: seq<int> := [];
    for i := 0 to |configs|
      invariant |usedPorts| == i
      invariant forall k :: 0 <= k < i ==> usedPorts[k] == configs[k].localPort
    {
      usedPorts := usedPorts + [configs[i].localPort];
    }
    if |usedPorts| == 0 {
      return FirstLocalPort;
    }
    var top := usedPorts[0];
    var at := 0;
    for i := 1 to |usedPorts|
      invariant 0 <= at < |usedPorts| && usedPorts[at] == top
      invariant forall k :: 0 <= k < i ==> usedPorts[k] <= top
    {
      if usedPorts[i] > top {
        top := usedPorts[i];
        at := i;
      }
    }
    assert configs[at].localPort == top;
    return top + 1;
  }

  /** The port chosen is used by no configuration, and it is the only answer
      the description allows. */
  lemma NextPortUnusedAndUnique(configs: seq<InstanceConfig>, p: int, q: int)
    requires IsNextPort(configs, p) && IsNextPort(configs, q)
    ensures forall k :: 0 <= k < |configs| ==> configs[k].localPort != p
    ensures p == q
  {
    if configs != [] {
      var i :| 0 <= i < |configs| && configs[i].localPort == p - 1;
      var j :| 0 <= j < |configs| && configs[j].localPort == q - 1;
      assert configs[j].localPort < p && configs[i].localPort < q;
    }
  }

  // ---------------------------------------------------------------------------
  // assert_valid_gcp_name
  // ---------------------------------------------------------------------------

  /** A character of the class `[a-z0-9-]`. */
  predicate GcpNameChar(c: char) {
    ('a' <= c <= 'z') || ('0' <= c <= '9') || c == '-'
  }

  /** `re.match("[a-z0-9-]+", name)` as written: the pattern is anchored at
      the start only, so it succeeds when some non-empty prefix is made of
      allowed characters. */
  predicate MatchesGcpNamePrefix(name: string) {
    name != [] && GcpNameChar(name[0])
  }

  /** The first `n` characters of the name are all allowed. */
  predicate AllowedPrefix(name: string, n: nat)
    requires n <= |name|
  {
    forall i :: 0 <= i < n ==> GcpNameChar(name[i])
  }

  /** The as-written match succeeds exactly when a non-empty prefix of the
      name consists of allowed characters. */
  lemma MatchesGcpNamePrefixMeaning(name: string)
    ensures MatchesGcpNamePrefix(name)
        <==> exists n :: 1 <= n <= |name| && AllowedPrefix(name, n)
  {
    if MatchesGcpNamePrefix(name) {
      assert AllowedPrefix(name, 1);
    }
    if exists n :: 1 <= n <= |name| && AllowedPrefix(name, n) {
      var n :| 1 <= n <= |name| && AllowedPrefix(name, n);
      assert GcpNameChar(name[0]);
    }
  }

  /** The name check as its message describes it: a non-empty name of
      lowercase letters, digits and dashes only. The rest of the model
      validates names with this. */
  function IsValidGcpName(name: string): (r: bool)
    ensures r <==> name != [] && forall i :: 0 <= i < |name| ==> GcpNameChar(name[i])
    decreases |name|
  {
    if name == [] then false
    else if |name| == 1 then GcpNameChar(name[0])
    else
      var rest := IsValidGcpName(name[1..]);
      assert rest ==> forall i :: 1 <= i < |name| ==> GcpNameChar(name[i]);
      GcpNameChar(name[0]) && rest
  }

  /** The as-written check accepts a name with an underscore and an uppercase
      letter, which the message says are not allowed; it still refuses the
      empty name and a name that starts with an uppercase letter. */
  lemma GcpNameCheckAsWritten()
    ensures MatchesGcpNamePrefix("a_B") && !IsValidGcpName("a_B")
    ensures !MatchesGcpNamePrefix("") && !MatchesGcpNamePrefix("Ab")
  {
    assert !GcpNameChar("a_B"[1]);
  }

  /** Every name the intended check accepts is accepted as written too. */
  lemma ValidGcpNameMatches(name: string)
    requires IsValidGcpName(name)
    ensures MatchesGcpNamePrefix(name)
  {
  }

  // ---------------------------------------------------------------------------
  // ensure_firewall_setup
  // ---------------------------------------------------------------------------

  /** Source range of the IAP TCP forwarding service. */
  const IapTunnelIpRange: string := "35.235.240.0/20"
  /** The firewall rule's name, which the listing filters on. */
  const FirewallRuleName: string := "allow-altssh-ingress-from-iap"
  /** `str(CONTAINER_SSHD_PORT)`. */
  const SshdPortText: string := IntToString(ContainerSshdPort)

  /** One entry of a rule's `allowed` list. */
  datatype Allowed = Allowed(ipProtocol: string, ports: seq<string>)

  /** The fields of a listed firewall rule that the setup checks. */
  datatype FirewallRule = FirewallRule(allowed: seq<Allowed>, direction: string, disabled: bool,
                                       sourceRanges: seq<string>)

  /** The assertions of `ensure_firewall_setup`. */
  datatype FirewallError = SeveralRules(count: nat) | UnexpectedRule(rule: FirewallRule)

  /** A listed rule set the way the tunnel needs it: ingress to the sshd port
      over TCP from the IAP range only, enabled. */
  predicate IsExpectedRule(rule: FirewallRule) {
    && rule.allowed == [Allowed("tcp", [SshdPortText])]
    && rule.direction == "INGRESS"
    && !rule.disabled
    && rule.sourceRanges == [IapTunnelIpRange]
  }

  /** The rule the cloud lists after `ensure_firewall_setup` created it. */
  function CreatedRule(): FirewallRule {
    FirewallRule([Allowed("tcp", [SshdPortText])], "INGRESS", false, [IapTunnelIpRange])
  }

  /** `ensure_firewall_setup(project)`, given the rules the listing returns:
      creates the rule when none is listed; otherwise exactly one rule must
      be listed and it must be set as expected. */
  function EnsureFirewallSetup(project: string, listed: seq<FirewallRule>): (out: (Result<(), FirewallError>, seq<Step>))
    ensures |out.1| >= 1 && out.1[0] == FirewallList(project)
    ensures listed == [] <==> |out.1| == 2
    ensures listed == [] ==> out.0.Ok? && out.1[1] == FirewallCreate(project, "tcp:" + SshdPortText, IapTunnelIpRange)
    ensures listed != [] ==> (out.0.Ok? <==> |listed| == 1 && IsExpectedRule(listed[0]))
    ensures listed != [] ==> out.1 == [FirewallList(project)]
  {
    var steps := [FirewallList(project)];
    if |listed| == 0 then (Ok(()), steps + [FirewallCreate(project, "tcp:" + SshdPortText, IapTunnelIpRange)])
    else if |listed| != 1 then (Err(SeveralRules(|listed|)), steps)
    else if !IsExpectedRule(listed[0]) then (Err(UnexpectedRule(listed[0])), steps)
    else (Ok(()), steps)
  }

  /** The rule the setup creates passes the checks the setup applies, so a
      second run lists it, accepts it and creates nothing. */
  lemma FirewallSetupIdempotent(project: string)
    ensures EnsureFirewallSetup(project, [CreatedRule()]) == (Ok(()), [FirewallList(project)])
  {
    assert IsExpectedRule(CreatedRule());
  }

  // ---------------------------------------------------------------------------
  // create_volume
  // ---------------------------------------------------------------------------

  /** The status the temporary instance is waited for, and the wait's limit
      in seconds (`max_time` left at its default of five minutes). */
  const Terminated: string := "TERMINATED"
  /** `create_volume`'s default machine type for the temporary instance,
      which `create` does not override. */
  const DefaultVolumeMachineType: string := "n2-standard-2"
  const VolumeWaitLimit: real := 300.0

  /** The assertions `create_volume` can fail. */
  datatype VolumeError =
    | DiskExists(pdName: string)
    | StatusFailure(statusError: Gcp.StatusError)
    | InstanceExists(status: string)
    | WaitEnded(outcome: Gcp.WaitOutcome)

  /** The calls that create and format the disk, once both guards passed. */
  function FormatSteps(pdName: string, driveSize: int, driveType: string, name: string,
                       serviceAccount: string, zone: string, project: string, machineType: string): seq<Step>
  {
    [ DiskCreate(pdName, driveSize, zone, driveType, project),
      TempInstanceCreate(name, pdName, zone, project, serviceAccount, machineType),
      AwaitStatus(name, zone, project, Terminated) ]
  }

  /** The calls of a `create_volume` that succeeds: both listings, the
      formatting, and the deletion of the temporary instance. */
  function VolumeSteps(pdName: string, driveSize: int, driveType: string, name: string,
                       serviceAccount: string, zone: string, project: string, machineType: string): seq<Step>
  {
    [DiskList(pdName, zone, project), StatusQuery(name, zone, project)]
      + FormatSteps(pdName, driveSize, driveType, name, serviceAccount, zone, project, machineType)
      + [InstanceDelete(name, zone, project)]
  }

  /** How the formatting stage ends: the disk is created and the temporary
      instance started, then awaited; it is deleted exactly when the wait saw
      it terminate, and otherwise the wait's outcome is the error. */
  predicate Formatted(r: Result<(), VolumeError>, steps: seq<Step>, polls: seq<Gcp.Poll>,
                      pdName: string, driveSize: int, driveType: string, name: string,
                      serviceAccount: string, zone: string, project: string, machineType: string)
  {
    var formatting := FormatSteps(pdName, driveSize, driveType, name, serviceAccount, zone, project, machineType);
    && (r.Ok? <==> exists k: nat :: k < |polls| && Gcp.Ended(polls, Terminated, VolumeWaitLimit, Gcp.Reached(k)))
    && (r.Ok? ==> steps == formatting + [InstanceDelete(name, zone, project)])
    && (r.Err? ==> steps == formatting && r.error.WaitEnded? && !r.error.outcome.Reached?
                   && Gcp.Ended(polls, Terminated, VolumeWaitLimit, r.error.outcome))
  }

  /** The second half of `create_volume`, once both guards passed. */
  method FormatVolume(pdName: string, driveSize: int, driveType: string, name: string,
                      serviceAccount: string, zone: string, project: string, machineType: string,
                      polls: seq<Gcp.Poll>)
    returns (r: Result<(), VolumeError>, steps: seq<Step>)
    ensures Formatted(r, steps, polls, pdName, driveSize, driveType, name, serviceAccount, zone, project, machineType)
  {
    steps := FormatSteps(pdName, driveSize, driveType, name, serviceAccount, zone, project, machineType);
    var outcome, _ := Gcp.WaitForInstanceStatus(polls, Terminated, VolumeWaitLimit);
    if !outcome.Reached? {
      forall k | Gcp.Ended(polls, Terminated, VolumeWaitLimit, Gcp.Reached(k))
        ensures Gcp.Reached(k) == outcome
      {
        Gcp.EndedUnique(polls, Terminated, VolumeWaitLimit, Gcp.Reached(k), outcome);
      }
      return Err(WaitEnded(outcome)), steps;
    }
    steps := steps + [InstanceDelete(name, zone, project)];
    return Ok(()), steps;
  }

  /** `create_volume`: `disksListed` is the number of disks the name filter
      lists, `statusOutput` the instance listing and `polls` what the wait
      for the temporary instance sees. Nothing is created unless no disk and
      no instance of those names exist; the temporary instance that formats
      the disk is deleted once it has shut itself down. */
  method CreateVolume(pdName: string, driveSize: int, driveType: string, name: string,
                      serviceAccount: string, zone: string, project: string, machineType: string,
                      disksListed: nat, statusOutput: string, polls: seq<Gcp.Poll>)
    returns (r: Result<(), VolumeError>, steps: seq<Step>)
    ensures disksListed != 0 ==> r == Err(DiskExists(pdName)) && steps == [DiskList(pdName, zone, project)]
    ensures disksListed == 0 ==> |steps| >= 2 && steps[..2] == [DiskList(pdName, zone, project), StatusQuery(name, zone, project)]
    ensures disksListed == 0 && Gcp.InstanceStatus(statusOutput, true).Err? ==>
      r == Err(StatusFailure(Gcp.InstanceStatus(statusOutput, true).error)) && |steps| == 2
    ensures forall s :: disksListed == 0 && Gcp.InstanceStatus(statusOutput, true) == Ok(Some(s)) ==>
      r == Err(InstanceExists(s)) && |steps| == 2
    ensures disksListed == 0 && Gcp.InstanceStatus(statusOutput, true) == Ok(None) ==>
      Formatted(r, steps[2..], polls, pdName, driveSize, driveType, name, serviceAccount, zone, project, machineType)
    ensures r.Ok? ==> steps == VolumeSteps(pdName, driveSize, driveType, name, serviceAccount, zone, project, machineType)
    ensures forall s :: s in steps ==> !s.ConfigWrite?
  {
    steps := [DiskList(pdName, zone, project)];
    if disksListed != 0 {
      return Err(DiskExists(pdName)), steps;
    }
    steps := steps + [StatusQuery(name, zone, project)];
    var existing := Gcp.InstanceStatus(statusOutput, true);
    if existing.Err? {
      return Err(StatusFailure(existing.error)), steps;
    }
    if existing.value.Some? {
      return Err(InstanceExists(existing.value.value)), steps;
    }
    var formatSteps;
    r, formatSteps := FormatVolume(pdName, driveSize, driveType, name, serviceAccount, zone, project, machineType, polls);
    steps := steps + formatSteps;
    assert steps[2..] == formatSteps;
    if r.Ok? {
      assert formatSteps == FormatSteps(pdName, driveSize, driveType, name, serviceAccount, zone, project, machineType)
                            + [InstanceDelete(name, zone, project)];
    }
  }

  // ---------------------------------------------------------------------------
  // hermit create: argument resolution and the create sequence
  // ---------------------------------------------------------------------------

  /** The command-line arguments; None for an option not given. */
  datatype CreateArgs = CreateArgs(
    name: string,
    dockerImage: string,
    pdName: Option<string>,
    project: Option<string>,
    zone: Option<string>,
    localPort: Option<int>,
    serviceAccount: Option<string>,
    diskSize: int,
    diskType: string,
    machineType: string)

  /** The project and zone `gcloud config list` reports, when it has them. */
  datatype GcloudDefaults = GcloudDefaults(project: Option<string>, zone: Option<string>)

  /** The arguments `create` is called with, every default filled in. */
  datatype CreateRequest = CreateRequest(
    name: string,
    dockerImage: string,
    pdName: string,
    project: string,
    zone: string,
    localPort: int,
    serviceAccount: string,
    diskSize: int,
    diskType: string,
    machineType: string)

  /** The assertions argument resolution can fail. */
  datatype ArgsError = InvalidName(description: string, name: string) | NoProject | NoZone

  /** The disk name: as given, or the instance name followed by `-pd`. */
  function PdNameOf(args: CreateArgs): string {
    args.pdName.GetOr(args.name + "-pd")
  }

  /** The value given on the command line, else the gcloud default. */
  function OrDefault(given: Option<string>, default: Option<string>): (r: Option<string>)
    ensures r.Some? <==> given.Some? || default.Some?
    ensures given.Some? ==> r == given
  {
    if given.Some? then given else default
  }

  /** The command's argument handling: the disk name defaults to
      `<name>-pd`; both names are checked (instance name first); project and
      zone fall back to gcloud's defaults and must then be known; a missing
      local port is the next unused one after the stored configurations'
      ports; an empty or missing service account is replaced by the default
      one (`defaultServiceAccount`, which the service-account helper looks
      up or creates). */
  method ResolveCreate(args: CreateArgs, defaults: GcloudDefaults, configs: seq<InstanceConfig>,
                       defaultServiceAccount: string)
    returns (r: Result<CreateRequest, ArgsError>)
    ensures !IsValidGcpName(args.name) ==> r == Err(InvalidName("instance name", args.name))
    ensures IsValidGcpName(args.name) && !IsValidGcpName(PdNameOf(args)) ==>
      r == Err(InvalidName("persistent disk name", PdNameOf(args)))
    ensures IsValidGcpName(args.name) && IsValidGcpName(PdNameOf(args)) ==>
      && (OrDefault(args.project, defaults.project).None? ==> r == Err(NoProject))
      && (OrDefault(args.project, defaults.project).Some? && OrDefault(args.zone, defaults.zone).None? ==> r == Err(NoZone))
    ensures r.Ok? <==>
      && IsValidGcpName(args.name) && IsValidGcpName(PdNameOf(args))
      && OrDefault(args.project, defaults.project).Some? && OrDefault(args.zone, defaults.zone).Some?
    ensures r.Ok? ==>
      && r.value.name == args.name
      && r.value.pdName == PdNameOf(args)
      && Some(r.value.project) == OrDefault(args.project, defaults.project)
      && Some(r.value.zone) == OrDefault(args.zone, defaults.zone)
      && (args.localPort.Some? ==> r.value.localPort == args.localPort.value)
      && (args.localPort.None? ==> IsNextPort(configs, r.value.localPort))
      && r.value.serviceAccount == (if args.serviceAccount.Some? && args.serviceAccount.value != ""
                                    then args.serviceAccount.value else defaultServiceAccount)
      && r.value.dockerImage == args.dockerImage
      && r.value.diskSize == args.diskSize && r.value.diskType == args.diskType
      && r.value.machineType == args.machineType
  {
    var pdName := if args.pdName.None? then args.name + "-pd" else args.pdName.value;
    if !IsValidGcpName(args.name) {
      return Err(InvalidName("instance name", args.name));
    }
    if !IsValidGcpName(pdName) {
      return Err(InvalidName("persistent disk name", pdName));
    }
    var project := if args.project.None? then defaults.project else args.project;
    if project.None? {
      return Err(NoProject);
    }
    var zone := if args.zone.None? then defaults.zone else args.zone;
    if zone.None? {
      return Err(NoZone);
    }
    var localPort;
    if args.localPort.None? {
      localPort := FindUnusedPort(configs);
    } else {
      localPort := args.localPort.value;
    }
    var serviceAccount;
    if args.serviceAccount.Some? && args.serviceAccount.value != "" {
      serviceAccount := args.serviceAccount.value;
    } else {
      serviceAccount := defaultServiceAccount;
    }
    return Ok(CreateRequest(args.name, args.dockerImage, pdName, project.value, zone.value, localPort,
                            serviceAccount, args.diskSize, args.diskType, args.machineType));
  }

  /** The assertions `create` can fail, and those of the helpers it calls. */
  datatype CreateError =
    | MissingSetting
    | ConfigExists(name: string)
    | FirewallFailure(firewallError: FirewallError)
    | VolumeFailure(volumeError: VolumeError)
    | SshFailure(sshError: Ssh.SshError)

  /** The three steps that record a created instance. */
  function RecordSteps(name: string): seq<Step> {
    [ConfigWrite(name), SshConfigUpdate, DefaultConfigSet(name)]
  }

  /** The calls of a `create` that succeeds: the firewall setup, the volume,
      and the steps that record the instance. */
  function CreateSteps(req: CreateRequest, firewallRules: seq<FirewallRule>): seq<Step> {
    EnsureFirewallSetup(req.project, firewallRules).1
      + VolumeSteps(req.pdName, req.diskSize, req.diskType, req.name, req.serviceAccount,
                    req.zone, req.project, DefaultVolumeMachineType)
      + RecordSteps(req.name)
  }

  /** The part of `create` after the firewall setup: the volume, then the
      record of the instance, whose ssh configuration update can still fail
      once the configuration is written. */
  method CreateAfterFirewall(req: CreateRequest, disksListed: nat, statusOutput: string, polls: seq<Gcp.Poll>,
                             sshConfig: string, stored: seq<InstanceConfig>)
    returns (r: Result<(), CreateError>, steps: seq<Step>)
    ensures r.Ok? <==>
      && disksListed == 0 && Gcp.InstanceStatus(statusOutput, true) == Ok(None)
      && (exists k: nat :: k < |polls| && Gcp.Ended(polls, Terminated, VolumeWaitLimit, Gcp.Reached(k)))
      && Ssh.SshConfigText(sshConfig, stored).Some?
    ensures r.Err? ==> r.error.VolumeFailure? || r.error.SshFailure?
    ensures r.Ok? ==> steps == VolumeSteps(req.pdName, req.diskSize, req.diskType, req.name, req.serviceAccount,
                                           req.zone, req.project, DefaultVolumeMachineType) + RecordSteps(req.name)
    ensures r.Err? && !r.error.SshFailure? ==> ConfigWrite(req.name) !in steps
    ensures r.Err? && r.error.SshFailure? ==>
      && Ssh.SshConfigText(sshConfig, stored).None?
      && steps + [SshConfigUpdate, DefaultConfigSet(req.name)]
         == VolumeSteps(req.pdName, req.diskSize, req.diskType, req.name, req.serviceAccount,
                        req.zone, req.project, DefaultVolumeMachineType) + RecordSteps(req.name)
  {
    var volume;
    volume, steps := CreateVolume(req.pdName, req.diskSize, req.diskType, req.name, req.serviceAccount,
                                  req.zone, req.project, DefaultVolumeMachineType,
                                  disksListed, statusOutput, polls);
    if volume.Err? {
      return Err(VolumeFailure(volume.error)), steps;
    }
    steps := steps + [ConfigWrite(req.name)];
    if Ssh.SshConfigText(sshConfig, stored).None? {
      return Err(SshFailure(Ssh.MissingEndMarker)), steps;
    }
    steps := steps + [SshConfigUpdate, DefaultConfigSet(req.name)];
    return Ok(()), steps;
  }

  /** `create(...)`: zone, project and disk name must be non-empty and no
      configuration may exist under the name; then the firewall rule is set
      up, the disk created and formatted, and only then is the configuration
      written, the ssh configuration updated and the instance made the
      default. `configExists`, `firewallRules`, `disksListed`, `statusOutput`
      and `polls` are the answers of the store and of gcloud; `sshConfig` is
      the text of the ssh configuration file (empty when there is none) and
      `stored` the configurations the store lists once this one is written.
      A start marker without an end marker in the ssh configuration fails
      the update after the configuration was written. */
  method Create(req: CreateRequest, configExists: bool, firewallRules: seq<FirewallRule>,
                disksListed: nat, statusOutput: string, polls: seq<Gcp.Poll>,
                sshConfig: string, stored: seq<InstanceConfig>)
    returns (r: Result<(), CreateError>, steps: seq<Step>)
    ensures req.zone == "" || req.project == "" || req.pdName == "" ==> r == Err(MissingSetting) && steps == []
    ensures req.zone != "" && req.project != "" && req.pdName != "" && configExists ==>
      r == Err(ConfigExists(req.name)) && steps == []
    ensures req.zone != "" && req.project != "" && req.pdName != "" && !configExists ==>
      var fw := EnsureFirewallSetup(req.project, firewallRules);
      && |fw.1| <= |steps| && steps[..|fw.1|] == fw.1
      && (fw.0.Err? ==> r == Err(FirewallFailure(fw.0.error)) && steps == fw.1)
    ensures r.Ok? <==>
      && req.zone != "" && req.project != "" && req.pdName != "" && !configExists
      && EnsureFirewallSetup(req.project, firewallRules).0.Ok?
      && disksListed == 0 && Gcp.InstanceStatus(statusOutput, true) == Ok(None)
      && (exists k: nat :: k < |polls| && Gcp.Ended(polls, Terminated, VolumeWaitLimit, Gcp.Reached(k)))
      && Ssh.SshConfigText(sshConfig, stored).Some?
    ensures r.Ok? ==> steps == CreateSteps(req, firewallRules)
    ensures r.Err? && !r.error.SshFailure? ==> ConfigWrite(req.name) !in steps
    ensures r.Err? && r.error.SshFailure? ==>
      && Ssh.SshConfigText(sshConfig, stored).None?
      && steps + [SshConfigUpdate, DefaultConfigSet(req.name)] == CreateSteps(req, firewallRules)
  {
    steps := [];
    if req.zone == "" || req.project == "" || req.pdName == "" {
      return Err(MissingSetting), steps;
    }
    if configExists {
      return Err(ConfigExists(req.name)), steps;
    }
    var fw := EnsureFirewallSetup(req.project, firewallRules);
    if fw.0.Err? {
      return Err(FirewallFailure(fw.0.error)), fw.1;
    }
    var rest;
    r, rest := CreateAfterFirewall(req, disksListed, statusOutput, polls, sshConfig, stored);
    steps := fw.1 + rest;
    assert steps[..|fw.1|] == fw.1;
    ghost var volume := VolumeSteps(req.pdName, req.diskSize, req.diskType, req.name, req.serviceAccount,
                                    req.zone, req.project, DefaultVolumeMachineType);
    if r.Err? && r.error.SshFailure? {
      assert steps + [SshConfigUpdate, DefaultConfigSet(req.name)] == fw.1 + (rest + [SshConfigUpdate, DefaultConfigSet(req.name)]);
      assert fw.1 + (volume + RecordSteps(req.name)) == CreateSteps(req, firewallRules);
    }
  }
}
