/** The IAP tunnel bookkeeping on the local machine: one pid file per
    instance in the tunnel status directory, the processes that can be
    signalled, the local port each tunnel process listens on, and the TCP
    ports other programs already listen on. */
module Tunnel {
  import opened Wrappers
  import opened Text
  import opened Effects

  /** The ways the tunnel helpers fail: the port assertion of `start_tunnel`,
      `int()` on a pid file whose text is not an integer, and `os.kill`
      raising because no process has that pid. */
  datatype TunnelError = PortInUse(port: int) | UnreadablePidFile(name: string) | SignalFailed(pid: int)

  /** A bind on localhost succeeds for `port`: no other program holds it,
      and no live tunnel process listens on it. A tunnel process that has
      exited no longer holds its port. */
  predicate PortFreeIn(port: int, bound: set<int>, listening: map<int, int>, live: set<int>) {
    port !in bound && forall p :: p in live && p in listening ==> listening[p] != port
  }

  /** A tunnel process that is live and listens on `port` keeps the port
      taken; once it has exited, the port is free exactly when nothing else
      holds it. */
  lemma {:induction false} ExitedTunnelFreesPort(port: int, bound: set<int>, listening: map<int, int>, live: set<int>, p: int)
    requires p in live && p in listening && listening[p] == port
    ensures !PortFreeIn(port, bound, listening, live)
    ensures PortFreeIn(port, bound, listening, live - {p}) <==>
      port !in bound && forall q :: q in live && q in listening && q != p ==> listening[q] != port
  {
    assert p in live && p in listening;
  }

  /** The live processes once `stop_tunnel` has signalled the pid its pid
      file read: that pid is gone when the process `exited`, and nothing
      changes otherwise. */
  function LiveAfterStop(read: Result<Option<int>, TunnelError>, live: set<int>, exited: bool): set<int> {
    if exited && read.Ok? && read.value.Some? then live - {read.value.value} else live
  }

  /** The part of the local machine the tunnel helpers look at and change. */
  class Host {
    /** Text of `<name>.pid` for every instance that has a pid file. */
    var pidFiles: map<string, string>
    /** Pids `os.kill(pid, 0)` succeeds for. */
    var live: set<int>
    /** The local port each spawned tunnel process was told to listen on
        (`--local-host-port=localhost:<port>`), by pid. */
    var listening: map<int, int>
    /** Local TCP ports other programs hold, so that a bind on localhost
        fails for them. */
    var bound: set<int>

    constructor (pidFiles0: map<string, string>, live0: set<int>, listening0: map<int, int>, bound0: set<int>)
      ensures pidFiles == pidFiles0 && live == live0 && listening == listening0 && bound == bound0
    {
      pidFiles := pidFiles0;
      live := live0;
      listening := listening0;
      bound := bound0;
    }

    /** `is_pid_valid`: signal 0 reaches a process with this pid. */
    predicate IsPidValid(pid: int)
      reads this
    {
      pid in live
    }

    /** `is_port_free`: a bind on localhost would succeed. */
    predicate IsPortFree(port: int)
      reads this
    {
      PortFreeIn(port, bound, listening, live)
    }

    /** `read_pid`: no pid file gives None; otherwise the file's text read as
        an integer, and text that is not one is an error. */
    function ReadPid(name: string): (r: Result<Option<int>, TunnelError>)
      reads this
      ensures r == Ok(None) <==> name !in pidFiles
      ensures r.Err? <==> name in pidFiles && ParseInt(pidFiles[name]).None?
      ensures r.Ok? && r.value.Some? ==> name in pidFiles && ParseInt(pidFiles[name]) == r.value
    {
      if name !in pidFiles then Ok(None)
      else match ParseInt(pidFiles[name])
        case None => Err(UnreadablePidFile(name))
        case Some(p) => Ok(Some(p))
    }

    /** `is_tunnel_running`: there is a pid file, and its pid is a live process. */
    function IsTunnelRunning(name: string): (r: Result<bool, TunnelError>)
      reads this
      ensures r.Err? <==> ReadPid(name).Err?
      ensures r == Ok(true) <==> exists p :: ReadPid(name) == Ok(Some(p)) && p in live
    {
      match ReadPid(name)
      case Err(e) => Err(e)
      case Ok(None) => Ok(false)
      case Ok(Some(p)) =>
        assert ReadPid(name) == Ok(Some(p));
        Ok(IsPidValid(p))
    }

    /** `start_tunnel`: refuses a port that is already in use, leaving
        everything as it was; otherwise spawns the tunnel process (`pid` is
        the pid the system gives it), which listens on the port, and records
        its pid in the pid file, so that the tunnel then reads as running and
        the port as taken. */
    method StartTunnel(name: string, zone: string, project: string, localPort: int, pid: int)
      returns (r: Result<Step, TunnelError>)
      modifies this
      ensures !old(IsPortFree(localPort)) ==> r == Err(PortInUse(localPort)) && unchanged(this)
      ensures old(IsPortFree(localPort)) ==>
        && r == Ok(TunnelSpawn(name, zone, project, localPort, pid))
        && pidFiles == old(pidFiles)[name := IntToString(pid)]
        && live == old(live) + {pid}
        && listening == old(listening)[pid := localPort]
        && bound == old(bound)
      ensures r.Ok? ==> ReadPid(name) == Ok(Some(pid)) && IsTunnelRunning(name) == Ok(true) && !IsPortFree(localPort)
    {
      if !IsPortFree(localPort) {
        return Err(PortInUse(localPort));
      }
      live := live + {pid};
      listening := listening[pid := localPort];
      pidFiles := pidFiles[name := IntToString(pid)];
      ParseIntToString(pid);
      assert ReadPid(name) == Ok(Some(pid));
      return Ok(TunnelSpawn(name, zone, project, localPort, pid));
    }

    /** `stop_tunnel`: nothing to do without a pid file; otherwise SIGTERM to
        the recorded pid, or an error when no process has that pid. The pid
        file stays. The signal only asks the process to end, and `stop_tunnel`
        does not wait for it: `exited` says whether the process has ended by
        the time anything looks again, and only then is the tunnel no longer
        running and its port free. */
    method StopTunnel(name: string, exited: bool) returns (r: Result<Option<Step>, TunnelError>)
      modifies this
      ensures pidFiles == old(pidFiles) && listening == old(listening) && bound == old(bound)
      ensures live == LiveAfterStop(old(ReadPid(name)), old(live), exited)
      ensures old(ReadPid(name)).Err? ==> r == Err(old(ReadPid(name)).error) && live == old(live)
      ensures old(ReadPid(name)) == Ok(None) ==> r == Ok(None) && live == old(live)
      ensures forall p :: old(ReadPid(name)) == Ok(Some(p)) ==>
        if p in old(live) then r == Ok(Some(SigTerm(p))) && live == (if exited then old(live) - {p} else old(live))
        else r == Err(SignalFailed(p)) && live == old(live)
      ensures r.Ok? && r.value.Some? ==> (IsTunnelRunning(name) == Ok(false) <==> exited)
    {
      var pid := ReadPid(name);
      if pid.Err? {
        return Err(pid.error);
      }
      if pid.value.None? {
        return Ok(None);
      }
      var p := pid.value.value;
      if !IsPidValid(p) {
        return Err(SignalFailed(p));
      }
      if exited {
        live := live - {p};
      }
      return Ok(Some(SigTerm(p)));
    }
  }
}
