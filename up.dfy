/** `hermit up`: the boot commands of a new instance, the wait for the boot
    log to say the container's ssh server listens, and the command itself,
    which creates, resumes or keeps the instance and then brings the tunnel,
    the ssh configuration and the default instance up to date. */
module Up {
  import opened Wrappers
  import opened Text
  import opened Effects
  import opened Config
  import opened Tunnel
  import StatusLog
  import Ssh
  import Gcp

  // ---------------------------------------------------------------------------
  // _create_bootcmd
  // ---------------------------------------------------------------------------

  const BindLead := "mount --bind "

  /** A command that bind-mounts some directory onto /tmp. */
  predicate IsTmpBind(c: string) {
    StartsWith(c, BindLead) && EndsWith(c, " /tmp")
  }

  const HermitLog := " >> /var/log/hermit.log"
  const VarTmpBind := BindLead + "/var/tmp /tmp"

  /** The commands before /tmp is set up. */
  function Prelude(): seq<string> {
    ["echo in-bootcmd", "echo \"Starting cloudinit bootcmd...\"" + HermitLog, "mount", "umount /tmp"]
  }

  function SsdDevice(k: string): string {
    "/dev/disk/by-id/google-local-nvme-ssd-" + k
  }

  function SsdDir(k: string): string {
    "/mnt/disks/local-ssd-" + k
  }

  /** Formatting and mounting local SSD number `i`. */
  function SsdCommands(i: nat): seq<string> {
    var k := IntToString(i);
    ["mkfs -t ext4 " + SsdDevice(k), "mkdir -p " + SsdDir(k), "mount -t ext4 " + SsdDevice(k) + " " + SsdDir(k)]
  }

  /** Making a world-writable directory on local SSD number `i` the new /tmp. */
  function TmpOnSsd(i: nat): seq<string> {
    var k := IntToString(i);
    ["mkdir " + SsdDir(k) + "/tmp", "chmod 1777 " + SsdDir(k) + "/tmp", BindLead + SsdDir(k) + "/tmp /tmp"]
  }

  /** The commands for local SSDs `0 .. n-1`; the first one also becomes /tmp. */
  function SsdBlocks(n: nat): seq<string>
    decreases n
  {
    if n == 0 then []
    else SsdBlocks(n - 1) + SsdCommands(n - 1) + (if n - 1 == 0 then TmpOnSsd(0) else [])
  }

  /** The commands after /tmp is set up: check and mount the persistent disk. */
  function DiskCommands(pd: string): seq<string> {
    var dev := "/dev/disk/by-id/google-" + pd;
    var dir := "/mnt/disks/" + pd;
    ["echo in-bootcmd-after-tmp-remount",
     "mount",
     "echo \"Checking filesystem " + dev + "\"" + HermitLog,
     "fsck -C 1 -a " + dev + HermitLog,
     "echo \"Finished checking filesystem " + dev + "\"" + HermitLog,
     "mkdir -p " + dir,
     "echo \"Mounting " + dev + "\" as " + dir + HermitLog,
     "mount -t ext4 " + dev + " " + dir,
     "mkdir -p " + dir + "/home/ubuntu/.ssh"]
  }

  /** The /tmp set-up for `count` local SSDs: /var/tmp without any, the first
      SSD otherwise; `range` of a negative count is empty, so then none. */
  function TmpSetup(count: int): seq<string> {
    if count == 0 then [VarTmpBind] else if count > 0 then SsdBlocks(count) else []
  }

  /** The boot commands of an instance with `count` local SSDs and persistent
      disk `pd`. */
  function BootCmd(count: int, pd: string): seq<string> {
    Prelude() + TmpSetup(count) + DiskCommands(pd)
  }

  /** `_create_bootcmd`: the list is built by appending, one SSD at a time. */
  method CreateBootCmd(cfg: InstanceConfig) returns (bootcmd: seq<string>)
    ensures bootcmd == BootCmd(cfg.localSsdCount, cfg.pdName)
  {
    bootcmd := Prelude();
    if cfg.localSsdCount == 0 {
      bootcmd := bootcmd + [VarTmpBind];
    } else {
      var i := 0;
      while i < cfg.localSsdCount
        invariant 0 <= i <= (if cfg.localSsdCount > 0 then cfg.localSsdCount else 0)
        invariant bootcmd == Prelude() + SsdBlocks(i)
      {
        bootcmd := bootcmd + SsdCommands(i);
        if i == 0 {
          bootcmd := bootcmd + TmpOnSsd(i);
        }
        i := i + 1;
      }
      assert i == (if cfg.localSsdCount > 0 then cfg.localSsdCount else 0);
    }
    bootcmd := bootcmd + DiskCommands(cfg.pdName);
  }

  /** The bind mounts onto /tmp among `cmds`, in order. */
  function TmpBinds(cmds: seq<string>): (r: seq<string>)
    ensures forall c :: c in r ==> c in cmds && IsTmpBind(c)
    decreases |cmds|
  {
    if cmds == [] then []
    else TmpBinds(cmds[..|cmds| - 1]) + (if IsTmpBind(cmds[|cmds| - 1]) then [cmds[|cmds| - 1]] else [])
  }

  lemma {:induction false} TmpBindsAppend(x: seq<string>, y: seq<string>)
    ensures TmpBinds(x + y) == TmpBinds(x) + TmpBinds(y)
    decreases |y|
  {
    if y == [] {
      assert x + y == x;
    } else {
      var y' := y[..|y| - 1];
      assert (x + y)[..|x + y| - 1] == x + y';
      TmpBindsAppend(x, y');
    }
  }

  /** A command that differs from the bind lead within its length. */
  lemma {:induction false} NotBind(c: string, k: nat)
    requires k < |BindLead| && k < |c| && c[k] != BindLead[k]
    ensures !IsTmpBind(c)
  {
  }

  lemma {:induction false} TmpBindsOfThree(a: string, b: string, c: string)
    ensures TmpBinds([a, b, c]) == (if IsTmpBind(a) then [a] else []) + (if IsTmpBind(b) then [b] else []) + (if IsTmpBind(c) then [c] else [])
  {
    assert [a, b, c][..2] == [a, b];
    assert [a, b][..1] == [a];
    assert [a][..0] == [];
    assert TmpBinds([a]) == (if IsTmpBind(a) then [a] else []);
    assert TmpBinds([a, b]) == TmpBinds([a]) + (if IsTmpBind(b) then [b] else []);
  }

  lemma {:induction false} PreludeBindsNothing()
    ensures TmpBinds(Prelude()) == []
  {
    var p := Prelude();
    NotBind(p[0], 0);
    NotBind(p[1], 0);
    NotBind(p[3], 0);
    assert !IsTmpBind(p[2]);
    assert p[..3] == p[..2] + [p[2]];
    TmpBindsOfThree(p[0], p[1], p[2]);
    assert p[..3] == [p[0], p[1], p[2]];
  }

  lemma {:induction false} DiskCommandsBindNothing(pd: string)
    ensures TmpBinds(DiskCommands(pd)) == []
  {
    var d := DiskCommands(pd);
    NotBind(d[0], 0);
    assert !IsTmpBind(d[1]);
    NotBind(d[2], 0);
    NotBind(d[3], 0);
    NotBind(d[4], 0);
    NotBind(d[5], 1);
    NotBind(d[6], 0);
    NotBind(d[7], 7);
    NotBind(d[8], 1);
    assert d == [d[0], d[1], d[2]] + [d[3], d[4], d[5]] + [d[6], d[7], d[8]];
    TmpBindsOfThree(d[0], d[1], d[2]);
    TmpBindsOfThree(d[3], d[4], d[5]);
    TmpBindsOfThree(d[6], d[7], d[8]);
    TmpBindsAppend([d[0], d[1], d[2]], [d[3], d[4], d[5]]);
    TmpBindsAppend([d[0], d[1], d[2]] + [d[3], d[4], d[5]], [d[6], d[7], d[8]]);
  }

  lemma {:induction false} SsdCommandsBindNothing(i: nat)
    ensures TmpBinds(SsdCommands(i)) == []
  {
    var s := SsdCommands(i);
    NotBind(s[0], 1);
    NotBind(s[1], 1);
    NotBind(s[2], 7);
    TmpBindsOfThree(s[0], s[1], s[2]);
  }

  const Ssd0TmpBind := BindLead + SsdDir("0") + "/tmp /tmp"

  lemma {:induction false} TmpOnFirstSsdBindsOnce()
    ensures TmpBinds(TmpOnSsd(0)) == [Ssd0TmpBind]
  {
    assert IntToString(0) == "0";
    var t := TmpOnSsd(0);
    NotBind(t[0], 1);
    NotBind(t[1], 0);
    assert t[2] == BindLead + (SsdDir("0") + "/tmp /tmp");
    assert IsTmpBind(t[2]);
    TmpBindsOfThree(t[0], t[1], t[2]);
  }

  lemma {:induction false} SsdBlocksBindOnce(n: nat)
    requires n > 0
    ensures TmpBinds(SsdBlocks(n)) == [Ssd0TmpBind]
    ensures |SsdBlocks(n)| == 3 * n + 3
    decreases n
  {
    if n == 1 {
      FirstSsdBlockBindsOnce();
    } else {
      SsdBlocksBindOnce(n - 1);
      NextSsdBlockBindsNothing(n);
    }
  }

  lemma {:induction false} FirstSsdBlockBindsOnce()
    ensures TmpBinds(SsdBlocks(1)) == [Ssd0TmpBind]
    ensures |SsdBlocks(1)| == 6
  {
    SsdCommandsBindNothing(0);
    TmpOnFirstSsdBindsOnce();
    assert SsdBlocks(1) == SsdCommands(0) + TmpOnSsd(0);
    TmpBindsAppend(SsdCommands(0), TmpOnSsd(0));
  }

  lemma {:induction false} NextSsdBlockBindsNothing(n: nat)
    requires n > 1
    requires TmpBinds(SsdBlocks(n - 1)) == [Ssd0TmpBind] && |SsdBlocks(n - 1)| == 3 * n
    ensures TmpBinds(SsdBlocks(n)) == [Ssd0TmpBind]
    ensures |SsdBlocks(n)| == 3 * n + 3
  {
    SsdCommandsBindNothing(n - 1);
    assert SsdBlocks(n) == SsdBlocks(n - 1) + SsdCommands(n - 1);
    TmpBindsAppend(SsdBlocks(n - 1), SsdCommands(n - 1));
  }

  /** Thirteen fixed commands, plus one bind without local SSDs, or three per
      SSD and three more for /tmp on the first. */
  lemma {:induction false} BootCmdLength(count: int, pd: string)
    ensures |BootCmd(count, pd)| == 13 + (if count == 0 then 1 else if count > 0 then 3 * count + 3 else 0)
  {
    if count > 0 {
      SsdBlocksBindOnce(count);
    }
  }

  /** /tmp is bind-mounted exactly once when the SSD count is not negative:
      from /var/tmp without local SSDs, from the first SSD otherwise. */
  lemma {:induction false} BootCmdBindsTmpOnce(count: int, pd: string)
    ensures TmpBinds(BootCmd(count, pd)) == if count == 0 then [VarTmpBind]
                                            else if count > 0 then [Ssd0TmpBind] else []
  {
    PreludeBindsNothing();
    DiskCommandsBindNothing(pd);
    TmpSetupBinds(count);
    TmpBindsAppend(Prelude(), TmpSetup(count));
    TmpBindsAppend(Prelude() + TmpSetup(count), DiskCommands(pd));
  }

  lemma {:induction false} TmpSetupBinds(count: int)
    ensures TmpBinds(TmpSetup(count)) == if count == 0 then [VarTmpBind]
                                         else if count > 0 then [Ssd0TmpBind] else []
  {
    if count == 0 {
      assert IsTmpBind(VarTmpBind);
      assert TmpBinds([VarTmpBind]) == TmpBinds([]) + [VarTmpBind];
    } else if count > 0 {
      SsdBlocksBindOnce(count);
    }
  }

  // ---------------------------------------------------------------------------
  // wait_for_instance_start
  // ---------------------------------------------------------------------------

  /** One poll of the boot log over ssh: what `cat` printed, what ssh printed
      on stderr, and the seconds elapsed since the wait began when the
      timeout is checked. */
  datatype Fetch = Fetch(stdout: string, stderr: string, elapsed: real)

  /** What the wait passes to its output callback: a note that the
      connection was refused, the part of the log not shown before, or a
      status line. */
  datatype Shown = Retrying(stderr: string) | NewOutput(text: string) | StatusLine(line: string)

  const StatusPrefix := "[from /var/log/hermit.log] "

  /** The text the callback receives. */
  function ShownText(s: Shown): string {
    match s
    case Retrying(e) => "Can't connect yet, will retry... (" + e + ")"
    case NewOutput(t) => t
    case StatusLine(line) => StatusPrefix + line
  }

  /** How the wait ends: the log said ssh is listening at poll `at`; parsing
      the log at poll `at` raised; poll `at` was neither ready nor within the
      timeout; or the polls given ran out while the source would still be
      waiting. */
  datatype StartOutcome = Started(at: nat) | ParseFailed(at: nat, error: StatusLog.LogError) | TimedOut(at: nat) | StillStarting

  /** A reader of the boot log; `up` uses `StatusLog.GetStatusFromLog`. */
  datatype LogParser = LogParser(read: string -> Result<StatusLog.LogStatus, StatusLog.LogError>)

  /** The parse of one poll: an empty stdout is not parsed at all. */
  function Parse(parse: LogParser, f: Fetch): Option<Result<StatusLog.LogStatus, StatusLog.LogError>> {
    if f.stdout == "" then None else Some(parse.read(f.stdout))
  }

  /** A poll after which the wait goes on: nothing ready and no error in its
      parse, and the timeout not yet exceeded. */
  predicate KeepsStarting(parse: LogParser, f: Fetch, timeout: real) {
    match Parse(parse, f)
    case None => f.elapsed <= timeout
    case Some(Err(_)) => false
    case Some(Ok(st)) => !st.ready && f.elapsed <= timeout
  }

  predicate AllKeepStarting(parse: LogParser, polls: seq<Fetch>, n: nat, timeout: real)
    requires n <= |polls|
  {
    forall j {:trigger KeepsStarting(parse, polls[j], timeout)} :: 0 <= j < n ==> KeepsStarting(parse, polls[j], timeout)
  }

  /** What the outcome says about the polls: every poll before the one it
      names kept the wait going, and that one ends it for the reason given. */
  predicate StartEnded(parse: LogParser, polls: seq<Fetch>, timeout: real, outcome: StartOutcome) {
    match outcome
    case Started(k) =>
      k < |polls| && AllKeepStarting(parse, polls, k, timeout)
      && Parse(parse, polls[k]).Some? && Parse(parse, polls[k]).value.Ok? && Parse(parse, polls[k]).value.value.ready
    case ParseFailed(k, e) =>
      k < |polls| && AllKeepStarting(parse, polls, k, timeout) && Parse(parse, polls[k]) == Some(Err(e))
    case TimedOut(k) =>
      k < |polls| && AllKeepStarting(parse, polls, k, timeout)
      && (Parse(parse, polls[k]).None? || (Parse(parse, polls[k]).value.Ok? && !Parse(parse, polls[k]).value.value.ready))
      && polls[k].elapsed > timeout
    case StillStarting =>
      AllKeepStarting(parse, polls, |polls|, timeout)
  }

  /** How many polls the wait made: up to and including the one that ends it. */
  function Made(outcome: StartOutcome, n: nat): nat {
    match outcome
    case Started(k) => k + 1
    case ParseFailed(k, _) => k + 1
    case TimedOut(k) => k + 1
    case StillStarting => n
  }

  /** The status entries of one poll; none when it was not parsed or raised. */
  function PollEntries(parse: LogParser, f: Fetch): seq<string> {
    match Parse(parse, f)
    case Some(Ok(st)) => st.entries
    case _ => []
  }

  /** The status entries of the first `n` polls, in order. */
  function AllEntries(parse: LogParser, polls: seq<Fetch>, n: nat): seq<string>
    requires n <= |polls|
    decreases n, 0
  {
    if n == 0 then [] else EntriesThrough(parse, polls, n - 1)
  }

  /** The entries of every parsed log up to and including poll `i`. */
  function EntriesThrough(parse: LogParser, polls: seq<Fetch>, i: nat): seq<string>
    requires i < |polls|
    decreases i, 1
  {
    AllEntries(parse, polls, i) + PollEntries(parse, polls[i])
  }

  /** The first occurrence of each line of `ss`, in order. */
  function Fresh(ss: seq<string>): seq<string>
    decreases |ss|
  {
    if ss == [] then []
    else
      var prev := ss[..|ss| - 1];
      Fresh(prev) + (if ss[|ss| - 1] in prev then [] else [ss[|ss| - 1]])
  }

  /** Fresh lines are all different. */
  lemma {:induction false} FreshDistinct(ss: seq<string>)
    ensures forall i, j :: 0 <= i < j < |Fresh(ss)| ==> Fresh(ss)[i] != Fresh(ss)[j]
    decreases |ss|
  {
    if ss != [] {
      var prev := ss[..|ss| - 1];
      FreshDistinct(prev);
      FreshSameLines(prev);
    }
  }

  /** Every line is among the fresh lines, and only those lines are. */
  lemma {:induction false} FreshSameLines(ss: seq<string>)
    ensures forall x :: x in Fresh(ss) <==> x in ss
    decreases |ss|
  {
    if ss != [] {
      var prev := ss[..|ss| - 1];
      FreshSameLines(prev);
      assert ss == prev + [ss[|ss| - 1]];
    }
  }

  /** One more line, checked against the lines already seen. */
  lemma {:induction false} FreshSnoc(ss: seq<string>, x: string)
    ensures Fresh(ss + [x]) == Fresh(ss) + (if x in ss then [] else [x])
  {
    assert (ss + [x])[..|ss|] == ss;
  }

  /** The lines of `ss`, as a set. */
  function LineSet(ss: seq<string>): set<string> {
    set x | x in ss
  }

  /** The status lines among what was shown, in order. */
  function StatusLines(shown: seq<Shown>): seq<string>
    decreases |shown|
  {
    if shown == [] then []
    else
      var last := shown[|shown| - 1];
      StatusLines(shown[..|shown| - 1]) + (if last.StatusLine? then [last.line] else [])
  }

  lemma {:induction false} StatusLinesAppend(x: seq<Shown>, y: seq<Shown>)
    ensures StatusLines(x + y) == StatusLines(x) + StatusLines(y)
    decreases |y|
  {
    if y == [] {
      assert x + y == x;
    } else {
      var y' := y[..|y| - 1];
      assert (x + y)[..|x + y| - 1] == x + y';
      StatusLinesAppend(x, y');
    }
  }

  /** The status lines the inner loop of the wait shows for `entries` when
      the lines in `seen` were shown before: each entry that is neither in
      `seen` nor earlier in `entries`. */
  function NewStatus(seen: set<string>, entries: seq<string>): seq<Shown>
    decreases |entries|
  {
    if entries == [] then []
    else
      var prev := entries[..|entries| - 1];
      var line := entries[|entries| - 1];
      NewStatus(seen, prev) + (if line in seen || line in prev then [] else [StatusLine(line)])
  }

  /** The inner loop of the wait: each entry not shown before goes to the
      callback, with the log-file prefix, and joins the lines seen. */
  method ShowNewStatus(seen: set<string>, entries: seq<string>) returns (seenAfter: set<string>, shown: seq<Shown>)
    ensures seenAfter == seen + LineSet(entries)
    ensures shown == NewStatus(seen, entries)
  {
    seenAfter := seen;
    shown := [];
    for j := 0 to |entries|
      invariant seenAfter == seen + LineSet(entries[..j])
      invariant shown == NewStatus(seen, entries[..j])
    {
      var line := entries[j];
      assert entries[..j + 1][..j] == entries[..j];
      if line !in seenAfter {
        shown := shown + [StatusLine(line)];
        seenAfter := seenAfter + {line};
      }
    }
    assert entries[..|entries|] == entries;
  }

  /** Shown after the lines of `before`, the new status lines of `entries`
      are the first occurrences that `entries` adds. */
  lemma {:induction false} NewStatusFresh(before: seq<string>, entries: seq<string>)
    ensures Fresh(before) + StatusLines(NewStatus(LineSet(before), entries)) == Fresh(before + entries)
    decreases |entries|
  {
    if entries == [] {
      assert before + entries == before;
    } else {
      var prev, line := entries[..|entries| - 1], entries[|entries| - 1];
      var seen := LineSet(before);
      var added: seq<Shown> := if line in seen || line in prev then [] else [StatusLine(line)];
      var earlier := StatusLines(NewStatus(seen, prev));
      calc {
        Fresh(before) + StatusLines(NewStatus(seen, entries));
        { assert NewStatus(seen, entries) == NewStatus(seen, prev) + added;
          StatusLinesAppend(NewStatus(seen, prev), added); }
        Fresh(before) + (earlier + StatusLines(added));
        (Fresh(before) + earlier) + StatusLines(added);
        { NewStatusFresh(before, prev); }
        Fresh(before + prev) + StatusLines(added);
        { assert StatusLines(added) == if line in before + prev then [] else [line]; }
        Fresh(before + prev) + (if line in before + prev then [] else [line]);
        { FreshSnoc(before + prev, line); }
        Fresh((before + prev) + [line]);
        { assert before + entries == (before + prev) + [line]; }
        Fresh(before + entries);
      }
    }
  }

  /** The inner loop shows nothing but status lines. */
  lemma {:induction false} NewStatusOnlyStatus(seen: set<string>, entries: seq<string>)
    ensures forall s :: s in NewStatus(seen, entries) ==> s.StatusLine?
    decreases |entries|
  {
    if entries != [] {
      NewStatusOnlyStatus(seen, entries[..|entries| - 1]);
    }
  }

  /** The last non-empty log among the first `n` polls, or "" when none. */
  function LastLog(polls: seq<Fetch>, n: nat): string
    requires n <= |polls|
    decreases n
  {
    if n == 0 then "" else if polls[n - 1].stdout != "" then polls[n - 1].stdout else LastLog(polls, n - 1)
  }

  /** Each non-empty log among the first `n` polls extends the last
      non-empty one before it. */
  predicate Grows(polls: seq<Fetch>, n: nat)
    requires n <= |polls|
    decreases n
  {
    n == 0 || (Grows(polls, n - 1) && (polls[n - 1].stdout != "" ==> StartsWith(polls[n - 1].stdout, LastLog(polls, n - 1))))
  }

  /** The new log text shown, concatenated. */
  function Raw(shown: seq<Shown>): string
    decreases |shown|
  {
    if shown == [] then ""
    else
      var last := shown[|shown| - 1];
      Raw(shown[..|shown| - 1]) + (if last.NewOutput? then last.text else "")
  }

  lemma {:induction false} RawAppend(x: seq<Shown>, y: seq<Shown>)
    ensures Raw(x + y) == Raw(x) + Raw(y)
    decreases |y|
  {
    if y == [] {
      assert x + y == x;
    } else {
      var y' := y[..|y| - 1];
      assert (x + y)[..|x + y| - 1] == x + y';
      RawAppend(x, y');
    }
  }

  /** Status lines add no log text. */
  lemma {:induction false} RawOfStatusLines(shown: seq<Shown>)
    requires forall s :: s in shown ==> s.StatusLine?
    ensures Raw(shown) == ""
    decreases |shown|
  {
    if shown != [] {
      assert shown[|shown| - 1] in shown;
      RawOfStatusLines(shown[..|shown| - 1]);
    }
  }

  /** What the wait remembers and has shown: the status lines shown, the
      log last shown (verbose only), and everything passed to the callback. */
  datatype WaitView = WaitView(printedStatus: set<string>, previousPrinted: string, shown: seq<Shown>)

  /** What one poll passes to the callback before its status lines: when the
      log was empty, a note that the connection was refused (verbose, and only
      when ssh said so); otherwise, when verbose, the log from where the last
      one shown ended. */
  function Notes(verbose: bool, previousPrinted: string, f: Fetch): seq<Shown> {
    if f.stdout == "" then
      if verbose && Contains(f.stderr, "Connection refused") then [Retrying(f.stderr)] else []
    else if verbose then [NewOutput(Drop(f.stdout, |previousPrinted|))]
    else []
  }

  /** The wait after one more poll. */
  function NextView(parse: LogParser, verbose: bool, v: WaitView, f: Fetch): WaitView {
    var entries := PollEntries(parse, f);
    WaitView(v.printedStatus + LineSet(entries),
             if verbose && f.stdout != "" then f.stdout else v.previousPrinted,
             v.shown + Notes(verbose, v.previousPrinted, f) + NewStatus(v.printedStatus, entries))
  }

  /** The wait after the first `n` polls. */
  function ViewAfter(parse: LogParser, polls: seq<Fetch>, n: nat, verbose: bool): WaitView
    requires n <= |polls|
    decreases n, 0
  {
    if n == 0 then WaitView({}, "", []) else AfterPoll(parse, polls, n - 1, verbose)
  }

  /** The wait after poll `i`. */
  function AfterPoll(parse: LogParser, polls: seq<Fetch>, i: nat, verbose: bool): WaitView
    requires i < |polls|
    decreases i, 1
  {
    NextView(parse, verbose, ViewAfter(parse, polls, i, verbose), polls[i])
  }

  /** One pass of the wait's loop body up to the ready check: a refused
      connection is noted when verbose; a non-empty log is shown from where
      the last one ended when verbose, then parsed, and its status lines not
      seen before are shown. */
  method ObservePoll(parse: LogParser, f: Fetch, verbose: bool, v: WaitView)
    returns (after: WaitView, parsed: Option<Result<StatusLog.LogStatus, StatusLog.LogError>>)
    ensures parsed == Parse(parse, f)
    ensures after == NextView(parse, verbose, v, f)
  {
    var printedStatus, previousPrinted, shown := v.printedStatus, v.previousPrinted, v.shown;
    parsed := None;
    if f.stdout == "" {
      if Contains(f.stderr, "Connection refused") && verbose {
        shown := shown + [Retrying(f.stderr)];
      }
    } else {
      if verbose {
        shown := shown + [NewOutput(Drop(f.stdout, |previousPrinted|))];
        previousPrinted := f.stdout;
      }
      var status := parse.read(f.stdout);
      parsed := Some(status);
      if status.Ok? {
        var newLines;
        printedStatus, newLines := ShowNewStatus(printedStatus, status.value.entries);
        shown := shown + newLines;
      }
    }
    assert LineSet([]) == {} && NewStatus(v.printedStatus, []) == [];
    after := WaitView(printedStatus, previousPrinted, shown);
  }

  /** Whether poll `i`, parsed as given, ends the wait, and how: an error in
      the parse, a log saying ssh is listening, or a poll past the timeout;
      `StillStarting` when the wait goes on. */
  function PollEnds(parsed: Option<Result<StatusLog.LogStatus, StatusLog.LogError>>, elapsed: real, timeout: real, i: nat): StartOutcome {
    match parsed
    case Some(Err(e)) => ParseFailed(i, e)
    case Some(Ok(st)) => if st.ready then Started(i) else if elapsed > timeout then TimedOut(i) else StillStarting
    case None => if elapsed > timeout then TimedOut(i) else StillStarting
  }

  /** How the wait ends when it reaches poll `i` still waiting. */
  function OutcomeFrom(parse: LogParser, polls: seq<Fetch>, timeout: real, i: nat): StartOutcome
    requires i <= |polls|
    decreases |polls| - i, 1
  {
    if i == |polls| then StillStarting else OutcomeAt(parse, polls, timeout, i)
  }

  /** How the wait ends when poll `i` is made: that poll ends it, or the
      polls after it do. */
  function OutcomeAt(parse: LogParser, polls: seq<Fetch>, timeout: real, i: nat): StartOutcome
    requires i < |polls|
    decreases |polls| - i, 0
  {
    var o := PollEnds(Parse(parse, polls[i]), polls[i].elapsed, timeout, i);
    if o.StillStarting? then OutcomeFrom(parse, polls, timeout, i + 1) else o
  }

  /** How the wait over `polls` ends. */
  function WaitOutcome(parse: LogParser, polls: seq<Fetch>, timeout: real): StartOutcome {
    OutcomeFrom(parse, polls, timeout, 0)
  }

  /** `wait_for_instance_start` over the successive polls: it returns on the
      first poll whose log says ssh is listening, raises when a parse raises
      or when a poll that is not ready comes after the timeout, and by then
      has shown what the polls it made show. */
  method WaitForInstanceStart(parse: LogParser, polls: seq<Fetch>, verbose: bool, timeout: real)
    returns (outcome: StartOutcome, made: nat, shown: seq<Shown>)
    ensures outcome == WaitOutcome(parse, polls, timeout)
    ensures made == Made(outcome, |polls|) <= |polls|
    ensures shown == ViewAfter(parse, polls, made, verbose).shown
  {
    var view := WaitView({}, "", []);
    outcome, made := StillStarting, 0;
    while outcome.StillStarting? && made < |polls|
      invariant made <= |polls|
      invariant outcome.StillStarting? ==> OutcomeFrom(parse, polls, timeout, made) == WaitOutcome(parse, polls, timeout)
      invariant !outcome.StillStarting? ==> outcome == WaitOutcome(parse, polls, timeout) && Made(outcome, |polls|) == made
      invariant view == ViewAfter(parse, polls, made, verbose)
      decreases |polls| - made
    {
      ghost var nextView := ViewAfter(parse, polls, made + 1, verbose);
      view, outcome := PollStep(parse, polls, made, verbose, timeout, view);
      made := made + 1;
      assert nextView == ViewAfter(parse, polls, made, verbose);
    }
    shown := view.shown;
  }

  /** One pass of the wait's loop body: the poll is shown and remembered, and
      either ends the wait with the outcome the polls decide or leaves the
      outcome to the polls after it. */
  method PollStep(parse: LogParser, polls: seq<Fetch>, i: nat, verbose: bool, timeout: real, view: WaitView)
    returns (after: WaitView, ends: StartOutcome)
    requires i < |polls| && view == ViewAfter(parse, polls, i, verbose)
    requires OutcomeFrom(parse, polls, timeout, i) == WaitOutcome(parse, polls, timeout)
    ensures after == ViewAfter(parse, polls, i + 1, verbose)
    ensures ends.StillStarting? ==> OutcomeFrom(parse, polls, timeout, i + 1) == WaitOutcome(parse, polls, timeout)
    ensures !ends.StillStarting? ==> ends == WaitOutcome(parse, polls, timeout) && Made(ends, |polls|) == i + 1
  {
    var parsed;
    after, parsed := ObservePoll(parse, polls[i], verbose, view);
    assert after == AfterPoll(parse, polls, i, verbose);
    ends := PollEnds(parsed, polls[i].elapsed, timeout, i);
    if ends.StillStarting? {
      OutcomeGoesOn(parse, polls, timeout, i);
    } else {
      OutcomeStops(parse, polls, timeout, i);
    }
  }

  /** A poll that ends the wait decides its outcome. */
  lemma {:induction false} OutcomeStops(parse: LogParser, polls: seq<Fetch>, timeout: real, i: nat)
    requires i < |polls| && !PollEnds(Parse(parse, polls[i]), polls[i].elapsed, timeout, i).StillStarting?
    ensures OutcomeFrom(parse, polls, timeout, i) == PollEnds(Parse(parse, polls[i]), polls[i].elapsed, timeout, i)
  {
    assert OutcomeFrom(parse, polls, timeout, i) == OutcomeAt(parse, polls, timeout, i);
  }

  /** A poll that does not end the wait leaves the outcome to the next ones. */
  lemma {:induction false} OutcomeGoesOn(parse: LogParser, polls: seq<Fetch>, timeout: real, i: nat)
    requires i < |polls| && PollEnds(Parse(parse, polls[i]), polls[i].elapsed, timeout, i).StillStarting?
    ensures OutcomeFrom(parse, polls, timeout, i) == OutcomeFrom(parse, polls, timeout, i + 1)
  {
    assert OutcomeFrom(parse, polls, timeout, i) == OutcomeAt(parse, polls, timeout, i);
  }

  /** Reached still waiting, the polls from `i` on end the wait as
      `StartEnded` describes. */
  lemma {:induction false} OutcomeFromEnded(parse: LogParser, polls: seq<Fetch>, timeout: real, i: nat)
    requires i <= |polls| && AllKeepStarting(parse, polls, i, timeout)
    ensures StartEnded(parse, polls, timeout, OutcomeFrom(parse, polls, timeout, i))
    decreases |polls| - i
  {
    if i < |polls| && KeepsStarting(parse, polls[i], timeout) {
      OutcomeFromEnded(parse, polls, timeout, i + 1);
    }
  }

  /** An outcome that fits the polls and names no poll before `i` is how
      the wait ends from poll `i` on. */
  lemma {:induction false} EndedFrom(parse: LogParser, polls: seq<Fetch>, timeout: real, i: nat, o: StartOutcome)
    requires i <= |polls| && StartEnded(parse, polls, timeout, o)
    requires o.StillStarting? || i <= o.at
    ensures OutcomeFrom(parse, polls, timeout, i) == o
    decreases |polls| - i
  {
    if i < |polls| {
      assert OutcomeFrom(parse, polls, timeout, i) == OutcomeAt(parse, polls, timeout, i);
      if o.StillStarting? || i < o.at {
        assert KeepsStarting(parse, polls[i], timeout);
        EndedFrom(parse, polls, timeout, i + 1, o);
      }
    }
  }

  /** The wait ends exactly as `StartEnded` describes: every poll before the
      one it names kept it going, and that one ends it for the reason given. */
  lemma {:induction false} WaitOutcomeMeaning(parse: LogParser, polls: seq<Fetch>, timeout: real, o: StartOutcome)
    ensures StartEnded(parse, polls, timeout, o) <==> o == WaitOutcome(parse, polls, timeout)
  {
    OutcomeFromEnded(parse, polls, timeout, 0);
    if StartEnded(parse, polls, timeout, o) {
      EndedFrom(parse, polls, timeout, 0, o);
    }
  }

  /** What the wait keeps about the entries `seen` so far: the status lines
      shown are their first occurrences, in order, and the lines remembered
      as shown are exactly those entries. */
  predicate ShowsFresh(v: WaitView, seen: seq<string>) {
    StatusLines(v.shown) == Fresh(seen) && v.printedStatus == LineSet(seen)
  }

  /** Across the polls, the status lines shown are the first occurrences of
      the entries of every parsed log, in order, and the lines remembered as
      shown are exactly those entries. */
  lemma {:induction false} WaitShowsFreshStatus(parse: LogParser, polls: seq<Fetch>, n: nat, verbose: bool)
    requires n <= |polls|
    ensures ShowsFresh(ViewAfter(parse, polls, n, verbose), AllEntries(parse, polls, n))
    decreases n
  {
    if n == 0 {
      assert Fresh([]) == [] && StatusLines([]) == [];
    } else {
      var v, seen := ViewAfter(parse, polls, n - 1, verbose), AllEntries(parse, polls, n - 1);
      WaitShowsFreshStatus(parse, polls, n - 1, verbose);
      NextViewShowsFreshStatus(parse, verbose, v, polls[n - 1], seen);
      assert AllEntries(parse, polls, n) == seen + PollEntries(parse, polls[n - 1]);
      assert ViewAfter(parse, polls, n, verbose) == NextView(parse, verbose, v, polls[n - 1]);
    }
  }

  /** One poll keeps the status lines shown equal to the first occurrences
      of the entries parsed so far. */
  lemma {:induction false} NextViewShowsFreshStatus(parse: LogParser, verbose: bool, v: WaitView, f: Fetch, seen: seq<string>)
    requires ShowsFresh(v, seen)
    ensures ShowsFresh(NextView(parse, verbose, v, f), seen + PollEntries(parse, f))
  {
    assert LineSet(seen + PollEntries(parse, f)) == LineSet(seen) + LineSet(PollEntries(parse, f));
    NotesShowNoStatus(verbose, v.previousPrinted, f);
    StepShowsFreshStatus(v.shown, Notes(verbose, v.previousPrinted, f), seen, PollEntries(parse, f));
  }

  /** One poll keeps the status lines shown equal to the first occurrences
      of the entries so far: its notes show no status, and its new status
      lines are the entries not seen before. */
  lemma {:induction false} StepShowsFreshStatus(shown: seq<Shown>, notes: seq<Shown>, seen: seq<string>, entries: seq<string>)
    requires StatusLines(shown) == Fresh(seen) && StatusLines(notes) == []
    ensures StatusLines(shown + notes + NewStatus(LineSet(seen), entries)) == Fresh(seen + entries)
  {
    var added := NewStatus(LineSet(seen), entries);
    StatusLinesAppend(shown + notes, added);
    StatusLinesAppend(shown, notes);
    assert StatusLines(shown + notes) == Fresh(seen);
    NewStatusFresh(seen, entries);
  }

  /** Notes about a poll are never status lines. */
  lemma {:induction false} NotesShowNoStatus(verbose: bool, previousPrinted: string, f: Fetch)
    ensures StatusLines(Notes(verbose, previousPrinted, f)) == []
  {
    var notes := Notes(verbose, previousPrinted, f);
    if notes != [] {
      assert notes[..0] == [];
    }
  }

  /** Each status line is shown at most once across the whole wait, and
      every status entry of a parsed log is shown. */
  lemma {:induction false} WaitShowsEachStatusOnce(parse: LogParser, polls: seq<Fetch>, n: nat, verbose: bool)
    requires n <= |polls|
    ensures var lines := StatusLines(ViewAfter(parse, polls, n, verbose).shown);
      && (forall i, j :: 0 <= i < j < |lines| ==> lines[i] != lines[j])
      && (forall x :: x in lines <==> x in AllEntries(parse, polls, n))
  {
    WaitShowsFreshStatus(parse, polls, n, verbose);
    FreshDistinct(AllEntries(parse, polls, n));
    FreshSameLines(AllEntries(parse, polls, n));
  }

  /** Without verbose, the callback receives status lines and nothing else. */
  lemma {:induction false} QuietWaitShowsOnlyStatus(parse: LogParser, polls: seq<Fetch>, n: nat)
    requires n <= |polls|
    ensures forall s :: s in ViewAfter(parse, polls, n, false).shown ==> s.StatusLine?
    decreases n
  {
    if n > 0 {
      var v := ViewAfter(parse, polls, n - 1, false);
      QuietWaitShowsOnlyStatus(parse, polls, n - 1);
      NewStatusOnlyStatus(v.printedStatus, PollEntries(parse, polls[n - 1]));
    }
  }

  /** With verbose, the wait remembers the last non-empty log, and as long
      as each log extends the one before, the text shown is that log, each
      part of it shown once. */
  lemma {:induction false} VerboseWaitShowsLog(parse: LogParser, polls: seq<Fetch>, n: nat)
    requires n <= |polls|
    ensures ViewAfter(parse, polls, n, true).previousPrinted == LastLog(polls, n)
    ensures Grows(polls, n) ==> Raw(ViewAfter(parse, polls, n, true).shown) == LastLog(polls, n)
    decreases n
  {
    if n > 0 {
      var v := ViewAfter(parse, polls, n - 1, true);
      VerboseWaitShowsLog(parse, polls, n - 1);
      assert ViewAfter(parse, polls, n, true) == NextView(parse, true, v, polls[n - 1]);
      VerboseStep(parse, v, polls[n - 1]);
    }
  }

  /** One verbose poll: a non-empty log becomes the log last shown, and when
      it extends the one shown before, the text shown grows to exactly it. */
  lemma {:induction false} VerboseStep(parse: LogParser, v: WaitView, f: Fetch)
    ensures NextView(parse, true, v, f).previousPrinted == if f.stdout != "" then f.stdout else v.previousPrinted
    ensures Raw(v.shown) == v.previousPrinted && (f.stdout != "" ==> StartsWith(f.stdout, v.previousPrinted)) ==>
      Raw(NextView(parse, true, v, f).shown) == NextView(parse, true, v, f).previousPrinted
  {
    var notes, newLines := Notes(true, v.previousPrinted, f), NewStatus(v.printedStatus, PollEntries(parse, f));
    if Raw(v.shown) == v.previousPrinted && (f.stdout != "" ==> StartsWith(f.stdout, v.previousPrinted)) {
      RawAppend(v.shown, notes);
      RawAppend(v.shown + notes, newLines);
      NewStatusOnlyStatus(v.printedStatus, PollEntries(parse, f));
      RawOfStatusLines(newLines);
      assert Raw([]) == "";
      if f.stdout != "" {
        assert Raw(notes) == Raw([]) + Drop(f.stdout, |v.previousPrinted|);
        assert v.previousPrinted + f.stdout[|v.previousPrinted|..] == f.stdout;
      } else if notes != [] {
        assert Raw(notes) == Raw([]) + "";
      }
    }
  }
}
