/** The `gcloud` wrapper: argument coercion, reading an instance's status out
    of `gcloud compute instances list` output, and waiting for a status. */
module Gcp {
  import opened Wrappers
  import opened Text

  // ---------------------------------------------------------------------------
  // gcloud(args): argument coercion
  // ---------------------------------------------------------------------------

  /** A Python value passed as an argument. `bool` is a subclass of `int`, so it
      passes the check and prints as `True`/`False`; a float carries the text
      `str()` gives it. Any other type is `Other`. */
  datatype Arg = Str(s: string) | Int(i: int) | Bool(b: bool) | Float(text: string) | Other

  /** `str(x)` for an accepted argument; None for a rejected one. */
  function ArgText(a: Arg): (r: Option<string>)
    ensures r.None? <==> a.Other?
  {
    match a
    case Str(s) => Some(s)
    case Int(i) => Some(IntToString(i))
    case Bool(b) => Some(if b then "True" else "False")
    case Float(t) => Some(t)
    case Other => None
  }

  /** An integer argument reaches the command line as text that reads back as
      the same integer. */
  lemma IntArgRoundTrip(i: int)
    ensures ArgText(Int(i)).Some? && ParseInt(ArgText(Int(i)).value) == Some(i)
  {
    ParseIntToString(i);
  }

  /** The command line `gcloud(args)` runs: every argument is checked first, and
      the first one of another type than str, int or float fails the assertion
      (its index is the error); otherwise `gcloud` followed by each argument's text. */
  method GcloudCommand(args: seq<Arg>) returns (r: Result<seq<string>, nat>)
    ensures r.Err? ==> r.error < |args| && args[r.error].Other?
    ensures r.Err? ==> forall j :: 0 <= j < r.error ==> !args[j].Other?
    ensures r.Ok? ==> forall j :: 0 <= j < |args| ==> !args[j].Other?
    ensures r.Ok? ==> |r.value| == |args| + 1 && r.value[0] == "gcloud"
    ensures r.Ok? ==> forall j :: 0 <= j < |args| ==> ArgText(args[j]) == Some(r.value[j + 1])
  {
    var i := 0;
    while i < |args|
      invariant 0 <= i <= |args|
      invariant forall j :: 0 <= j < i ==> !args[j].Other?
    {
      if args[i].Other? {
        return Err(i);
      }
      i := i + 1;
    }
    var line := ["gcloud"];
    i := 0;
    while i < |args|
      invariant 0 <= i <= |args|
      invariant |line| == i + 1 && line[0] == "gcloud"
      invariant forall j :: 0 <= j < i ==> ArgText(args[j]) == Some(line[j + 1])
    {
      line := line + [ArgText(args[i]).value];
      i := i + 1;
    }
    return Ok(line);
  }

  // ---------------------------------------------------------------------------
  // get_instance_status: interpreting the listed status
  // ---------------------------------------------------------------------------

  /** The assertion that the listing holds a single line of status. */
  datatype StatusError = NotOneLine(output: string)

  /** The status `get_instance_status` returns for the listing `output`:
      with `oneOrNone`, a blank listing means there is no such instance (None);
      otherwise the stripped listing must be one line, and is the status. */
  function InstanceStatus(output: string, oneOrNone: bool): (r: Result<Option<string>, StatusError>)
    ensures r.Ok? && r.value.Some? ==> r.value.value == Strip(output)
    ensures r.Ok? && r.value.None? ==> oneOrNone
  {
    var s := Strip(output);
    if oneOrNone && s == "" then Ok(None)
    else if |Split(s, '\n')| != 1 then Err(NotOneLine(output))
    else Ok(Some(s))
  }

  /** The three outcomes, each characterised by the listing alone: no instance
      exactly for an all-whitespace listing under `oneOrNone`; an error exactly
      when a line break survives the strip; otherwise the stripped listing,
      which is `""` for a blank listing without `oneOrNone`. */
  lemma InstanceStatusCases(output: string, oneOrNone: bool)
    ensures InstanceStatus(output, oneOrNone) == Ok(None)
        <==> oneOrNone && forall i :: 0 <= i < |output| ==> IsSpace(output[i])
    ensures InstanceStatus(output, oneOrNone).Err? <==> !Excludes(Strip(output), '\n')
    ensures !oneOrNone && Strip(output) == "" ==> InstanceStatus(output, oneOrNone) == Ok(Some(""))
  {
    SplitSingleIffExcludes(Strip(output), '\n');
    StripBlank(output);
  }

  /** A status word printed on its own line is read back as that word. */
  lemma InstanceStatusOfLine(w: string, oneOrNone: bool)
    requires w != [] && NoSpace(w)
    ensures InstanceStatus(w + "\n", oneOrNone) == Ok(Some(w))
  {
    var s := w + "\n";
    assert s[..|s| - 1] == w;
    assert Strip(s) == Strip(w);
    StripUnchanged(w);
    SplitNone(w, '\n');
  }

  // ---------------------------------------------------------------------------
  // wait_for_instance_status
  // ---------------------------------------------------------------------------

  /** One round of the wait: the listing returned, and the seconds elapsed since
      the wait began when the deadline is checked. */
  datatype Poll = Poll(output: string, elapsed: real)

  /** How the wait ends: the goal status seen at poll `at`; the listing at poll
      `at` failed the one-line assertion; the deadline assertion failed at poll
      `at`; or the polls given ran out while the source would still be waiting. */
  datatype WaitOutcome = Reached(at: nat) | Malformed(at: nat) | Overdue(at: nat) | StillWaiting

  /** A poll after which the wait goes on: a well-formed status other than the
      goal, seen before the deadline. */
  predicate KeepsWaiting(p: Poll, goal: string, maxTime: real) {
    var s := InstanceStatus(p.output, false);
    s.Ok? && s.value != Some(goal) && p.elapsed < maxTime
  }

  predicate AllKeepWaiting(polls: seq<Poll>, n: nat, goal: string, maxTime: real)
    requires n <= |polls|
  {
    forall j {:trigger KeepsWaiting(polls[j], goal, maxTime)} :: 0 <= j < n ==> KeepsWaiting(polls[j], goal, maxTime)
  }

  /** The status each poll reports. */
  function Statuses(polls: seq<Poll>): (ss: seq<string>)
    ensures |ss| == |polls|
    decreases |polls|
  {
    if polls == [] then [] else Statuses(polls[..|polls| - 1]) + [Strip(polls[|polls| - 1].output)]
  }

  lemma {:induction false} StatusAt(polls: seq<Poll>, j: nat)
    requires j < |polls|
    ensures Statuses(polls)[j] == Strip(polls[j].output)
    decreases |polls|
  {
    if j < |polls| - 1 {
      StatusAt(polls[..|polls| - 1], j);
    }
  }

  /** The statuses printed while watching `ss`: each one that differs from the one
      before it, and the first one always (it differs from the initial None). */
  function Announced(ss: seq<string>): seq<string>
    decreases |ss|
  {
    if ss == [] then []
    else
      var prev := ss[..|ss| - 1];
      Announced(prev) + (if prev == [] || ss[|ss| - 1] != prev[|prev| - 1] then [ss[|ss| - 1]] else [])
  }

  /** The last status announced is the last status seen. */
  lemma {:induction false} AnnouncedLast(ss: seq<string>)
    requires ss != []
    ensures Announced(ss) != [] && Announced(ss)[|Announced(ss)| - 1] == ss[|ss| - 1]
    decreases |ss|
  {
    var prev := ss[..|ss| - 1];
    if prev != [] && ss[|ss| - 1] == prev[|prev| - 1] {
      AnnouncedLast(prev);
    }
  }

  /** No status is printed twice in a row. */
  lemma {:induction false} AnnouncedNoRepeats(ss: seq<string>)
    ensures forall j :: 0 < j < |Announced(ss)| ==> Announced(ss)[j] != Announced(ss)[j - 1]
    decreases |ss|
  {
    if ss != [] {
      var prev := ss[..|ss| - 1];
      AnnouncedNoRepeats(prev);
      if prev != [] {
        AnnouncedLast(prev);
      }
    }
  }

  /** Every status seen is printed at some point, and only statuses seen are. */
  lemma {:induction false} AnnouncedSameStatuses(ss: seq<string>)
    ensures forall x :: x in Announced(ss) <==> x in ss
    decreases |ss|
  {
    if ss != [] {
      var prev := ss[..|ss| - 1];
      AnnouncedSameStatuses(prev);
      assert ss == prev + [ss[|ss| - 1]];
      if prev != [] && ss[|ss| - 1] == prev[|prev| - 1] {
        assert ss[|ss| - 1] in prev;
      }
    }
  }

  /** One more status, compared with the previous one as the loop keeps it. */
  lemma AnnouncedStep(seen: seq<string>, s: string, prev: Option<string>)
    requires seen == [] ==> prev.None?
    requires seen != [] ==> prev == Some(seen[|seen| - 1])
    ensures Announced(seen + [s]) == Announced(seen) + (if prev != Some(s) then [s] else [])
  {
    assert (seen + [s])[..|seen|] == seen;
  }

  lemma TakeOneMore<T>(s: seq<T>, i: nat)
    requires i < |s|
    ensures s[..i + 1] == s[..i] + [s[i]]
  {
  }

  lemma KeepWaitingSnoc(polls: seq<Poll>, i: nat, goal: string, maxTime: real)
    requires i < |polls| && AllKeepWaiting(polls, i, goal, maxTime)
    requires KeepsWaiting(polls[i], goal, maxTime)
    ensures AllKeepWaiting(polls, i + 1, goal, maxTime)
  {
  }

  /** What the outcome says about the polls: the goal seen, a malformed listing
      or a missed deadline at poll `at`, every earlier poll keeping the wait
      going; or, when the polls run out, all of them keeping it going. */
  predicate Ended(polls: seq<Poll>, goal: string, maxTime: real, outcome: WaitOutcome) {
    match outcome
    case Reached(k) =>
      k < |polls| && AllKeepWaiting(polls, k, goal, maxTime)
      && InstanceStatus(polls[k].output, false) == Ok(Some(goal))
    case Malformed(k) =>
      k < |polls| && AllKeepWaiting(polls, k, goal, maxTime)
      && InstanceStatus(polls[k].output, false).Err?
    case Overdue(k) =>
      k < |polls| && AllKeepWaiting(polls, k, goal, maxTime)
      && InstanceStatus(polls[k].output, false).Ok?
      && InstanceStatus(polls[k].output, false) != Ok(Some(goal))
      && polls[k].elapsed >= maxTime
    case StillWaiting =>
      AllKeepWaiting(polls, |polls|, goal, maxTime)
  }

  /** How many polls had their status compared for printing: all those before
      the one that ends the wait, and the overdue one as well. */
  function Compared(outcome: WaitOutcome, n: nat): nat {
    match outcome
    case Reached(k) => k
    case Malformed(k) => k
    case Overdue(k) => k + 1
    case StillWaiting => n
  }

  /** The wait over the successive polls: returns once a poll lists the goal;
      prints a status whenever it differs from the previous poll's; fails on a
      malformed listing, and on a poll that is neither the goal nor before the
      deadline (after printing it). */
  method WaitForInstanceStatus(polls: seq<Poll>, goal: string, maxTime: real)
    returns (outcome: WaitOutcome, printed: seq<string>)
    ensures Ended(polls, goal, maxTime, outcome)
    ensures Compared(outcome, |polls|) <= |polls|
    ensures printed == Announced(Statuses(polls)[..Compared(outcome, |polls|)])
  {
    var prev: Option<string> := None;
    ghost var statuses := Statuses(polls);
    printed := [];
    var i := 0;
    while i < |polls|
      invariant 0 <= i <= |polls|
      invariant AllKeepWaiting(polls, i, goal, maxTime)
      invariant i == 0 ==> prev.None?
      invariant i > 0 ==> prev == Some(statuses[i - 1])
      invariant printed == Announced(statuses[..i])
    {
      var status := InstanceStatus(polls[i].output, false);
      if status.Err? {
        return Malformed(i), printed;
      }
      if status.value == Some(goal) {
        return Reached(i), printed;
      }
      var s := status.value.value;
      StatusAt(polls, i);
      TakeOneMore(statuses, i);
      AnnouncedStep(statuses[..i], s, prev);
      if prev != Some(s) {
        printed := printed + [s];
      }
      if polls[i].elapsed >= maxTime {
        return Overdue(i), printed;
      }
      KeepWaitingSnoc(polls, i, goal, maxTime);
      prev := Some(s);
      i := i + 1;
    }
    assert statuses[..i] == statuses;
    return StillWaiting, printed;
  }

  /** The poll at which an outcome ends the wait; past the last poll when none does. */
  function EndIndex(outcome: WaitOutcome, n: nat): nat {
    match outcome
    case Reached(k) => k
    case Malformed(k) => k
    case Overdue(k) => k
    case StillWaiting => n
  }

  /** The poll an outcome names is the first one that stops the wait. */
  lemma EndedFirstStop(polls: seq<Poll>, goal: string, maxTime: real, o: WaitOutcome)
    requires Ended(polls, goal, maxTime, o)
    ensures EndIndex(o, |polls|) <= |polls|
    ensures forall j :: 0 <= j < EndIndex(o, |polls|) ==> KeepsWaiting(polls[j], goal, maxTime)
    ensures EndIndex(o, |polls|) < |polls| ==> !KeepsWaiting(polls[EndIndex(o, |polls|)], goal, maxTime)
  {
  }

  /** The polls decide the outcome: no two outcomes fit the same polls. */
  lemma EndedUnique(polls: seq<Poll>, goal: string, maxTime: real, a: WaitOutcome, b: WaitOutcome)
    requires Ended(polls, goal, maxTime, a) && Ended(polls, goal, maxTime, b)
    ensures a == b
  {
    EndedFirstStop(polls, goal, maxTime, a);
    EndedFirstStop(polls, goal, maxTime, b);
  }
}
