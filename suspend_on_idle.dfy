/** The idle-suspend daemon that runs on the instance: it samples the byte
    counter of the DOCKER-USER iptables chain, remembers when the counter last
    changed, and suspends the instance once it has been idle for longer than
    the activity timeout. */
module SuspendOnIdle {
  import opened Wrappers
  import opened Text

  // ---------------------------------------------------------------------------
  // Reading the byte counter from `iptables -nvxL DOCKER-USER`
  // ---------------------------------------------------------------------------

  predicate AllSpace(s: string) {
    forall i :: 0 <= i < |s| ==> IsSpace(s[i])
  }

  /** The tail `\s+.` of the counter pattern: some whitespace, then one more
      character that is not a newline. */
  predicate SpacesThenChar(s: string)
    decreases |s|
  {
    |s| >= 2 && IsSpace(s[0]) && (s[1] != '\n' || SpacesThenChar(s[1..]))
  }

  /** The longest prefix of `s` whose characters all satisfy `p`, and the rest. */
  function TakeRun(s: string, p: char -> bool): (r: (string, string))
    ensures r.0 + r.1 == s
    ensures forall i :: 0 <= i < |r.0| ==> p(r.0[i])
    ensures r.1 == [] || !p(r.1[0])
  {
    var n := SpanWhile(s, p);
    assert s == s[..n] + s[n..];
    (s[..n], s[n..])
  }

  /** `re.match(r"\s+(\d+)\s+(\d+)\s+.", line)`, giving group 2. Whitespace and
      digits never overlap, so each `\s+` and `\d+` takes its whole run and
      only the final `\s+.` has a choice left. */
  function MatchCounters(line: string): (r: Option<string>)
    ensures r.Some? ==> |r.value| > 0 && AllDigits(r.value)
  {
    var (w1, r1) := TakeRun(line, IsSpace);
    var (packets, r2) := TakeRun(r1, IsDigit);
    var (w2, r3) := TakeRun(r2, IsSpace);
    var (bytes, tail) := TakeRun(r3, IsDigit);
    if |w1| > 0 && |packets| > 0 && |w2| > 0 && |bytes| > 0 && SpacesThenChar(tail) then Some(bytes) else None
  }

  /** A line that reads, from its start, as the counter pattern describes:
      whitespace, the packet count, whitespace, the byte count `bytes`, and a
      tail of whitespace followed by one more character. */
  predicate CountersShape(line: string, w1: string, packets: string, w2: string, bytes: string, tail: string) {
    |w1| > 0 && AllSpace(w1) && |packets| > 0 && AllDigits(packets)
    && |w2| > 0 && AllSpace(w2) && |bytes| > 0 && AllDigits(bytes)
    && SpacesThenChar(tail)
    && line == w1 + packets + w2 + bytes + tail
  }

  /** A run of characters satisfying `p` that ends where one fails it is the
      whole run `TakeRun` takes. */
  lemma {:induction false} TakeRunExact(x: string, y: string, p: char -> bool)
    requires forall i :: 0 <= i < |x| ==> p(x[i])
    requires |y| > 0 && !p(y[0])
    ensures TakeRun(x + y, p) == (x, y)
  {
    SpanUnique(x + y, p, |x|);
    assert (x + y)[..|x|] == x && (x + y)[|x|..] == y;
  }

  /** The run `SpanWhile` measures is the only one that ends at a character
      failing `p`. */
  lemma {:induction false} SpanUnique(s: string, p: char -> bool, n: nat)
    requires n <= |s| && forall i :: 0 <= i < n ==> p(s[i])
    requires n == |s| || !p(s[n])
    ensures SpanWhile(s, p) == n
    decreases n
  {
    if n > 0 {
      SpanUnique(s[1..], p, n - 1);
    }
  }

  /** Every line of the counter shape matches, with its byte count as group 2. */
  lemma {:induction false} MatchCountersComplete(line: string, w1: string, packets: string, w2: string, bytes: string, tail: string)
    requires CountersShape(line, w1, packets, w2, bytes, tail)
    ensures MatchCounters(line) == Some(bytes)
  {
    var r3 := bytes + tail;
    var r2 := w2 + r3;
    var r1 := packets + r2;
    assert line == w1 + r1;
    TakeRunExact(w1, r1, IsSpace);
    TakeRunExact(packets, r2, IsDigit);
    TakeRunExact(w2, r3, IsSpace);
    TakeRunExact(bytes, tail, IsDigit);
  }

  /** Every match is a line of the counter shape. */
  lemma {:induction false} MatchCountersSound(line: string)
    requires MatchCounters(line).Some?
    ensures exists w1, packets, w2, tail :: CountersShape(line, w1, packets, w2, MatchCounters(line).value, tail)
  {
    var (w1, r1) := TakeRun(line, IsSpace);
    var (packets, r2) := TakeRun(r1, IsDigit);
    var (w2, r3) := TakeRun(r2, IsSpace);
    var (bytes, tail) := TakeRun(r3, IsDigit);
    Glue(line, w1, r1, packets, r2, w2, r3, bytes, tail);
    assert CountersShape(line, w1, packets, w2, bytes, tail);
  }

  lemma Glue(line: string, w1: string, r1: string, p: string, r2: string, w2: string, r3: string, g: string, t: string)
    requires line == w1 + r1 && r1 == p + r2 && r2 == w2 + r3 && r3 == g + t
    ensures line == w1 + p + w2 + g + t
  {
  }

  /** `get_bytes_transmitted`: the output must split on newlines into exactly
      four pieces (the chain line, the column line, the one rule line and the
      empty text after the final newline), and the third piece must match
      the counter pattern; anything else reads as None. */
  function BytesTransmitted(output: string): (r: Option<nat>)
  {
    var lines := Split(output, '\n');
    if |lines| != 4 then None
    else match MatchCounters(lines[2])
      case None => None
      case Some(bytes) => Some(ParseNat(bytes))
  }

  /** A byte count is read exactly when the output has four pieces and the
      third has the counter shape; the count is that line's second number. */
  lemma {:induction false} BytesTransmittedMeaning(output: string, n: nat)
    ensures BytesTransmitted(output) == Some(n) <==>
      var lines := Split(output, '\n');
      |lines| == 4 && exists w1, packets, w2, bytes, tail ::
        CountersShape(lines[2], w1, packets, w2, bytes, tail) && ParseNat(bytes) == n
  {
    var lines := Split(output, '\n');
    if |lines| == 4 {
      if BytesTransmitted(output) == Some(n) {
        MatchCountersSound(lines[2]);
      }
      if exists w1, packets, w2, bytes, tail :: CountersShape(lines[2], w1, packets, w2, bytes, tail) && ParseNat(bytes) == n {
        var w1, packets, w2, bytes, tail :| CountersShape(lines[2], w1, packets, w2, bytes, tail) && ParseNat(bytes) == n;
        MatchCountersComplete(lines[2], w1, packets, w2, bytes, tail);
      }
    }
  }

  /** Output whose newline count is not three never yields a count. */
  lemma BytesTransmittedNeedsFourPieces(output: string)
    requires |Split(output, '\n')| != 4
    ensures BytesTransmitted(output) == None
  {
  }

  // The documented sample output of `iptables -nvxL DOCKER-USER`.
  const SampleChain := "Chain DOCKER-USER " + "(1 references)"
  const SampleColumns := "   pkts      bytes " + "target     prot opt " + "in     out     source" + "               destination"
  const SampleTail := " RETURN     all  --  *      *" + "       0.0.0.0/0" + "            0.0.0.0/0"
  const SampleRule := "     " + "61" + "    " + "12560" + SampleTail
  const SampleOutput := SampleChain + "\n" + SampleColumns + "\n" + SampleRule + "\n"

  lemma SampleLinesOneLine()
    ensures Excludes(SampleChain, '\n') && Excludes(SampleColumns, '\n') && Excludes(SampleRule, '\n')
  {
    assert Excludes("Chain DOCKER-USER ", '\n') && Excludes("(1 references)", '\n');
    ExcludesConcat("Chain DOCKER-USER ", "(1 references)", '\n');
    var c0, c1, c2, c3 := "   pkts      bytes ", "target     prot opt ", "in     out     source", "               destination";
    assert Excludes(c0, '\n') && Excludes(c1, '\n') && Excludes(c2, '\n') && Excludes(c3, '\n');
    ExcludesConcat(c0, c1, '\n');
    ExcludesConcat(c0 + c1, c2, '\n');
    ExcludesConcat(c0 + c1 + c2, c3, '\n');
    var t0, t1, t2 := " RETURN     all  --  *      *", "       0.0.0.0/0", "            0.0.0.0/0";
    assert Excludes(t0, '\n') && Excludes(t1, '\n') && Excludes(t2, '\n');
    ExcludesConcat(t0, t1, '\n');
    ExcludesConcat(t0 + t1, t2, '\n');
    var h := "     " + "61" + "    " + "12560";
    assert Excludes(h, '\n');
    ExcludesConcat(h, SampleTail, '\n');
  }

  lemma SampleRuleShape()
    ensures CountersShape(SampleRule, "     ", "61", "    ", "12560", SampleTail)
    ensures ParseNat("12560") == 12560
  {
    assert SampleTail[0] == ' ' && SampleTail[1] == 'R';
    assert "12560"[..4] == "1256" && "1256"[..3] == "125" && "125"[..2] == "12" && "12"[..1] == "1";
  }

  lemma {:induction false} SplitFourPieces(x: string, y: string, z: string)
    requires Excludes(x, '\n') && Excludes(y, '\n') && Excludes(z, '\n')
    ensures Split(x + "\n" + y + "\n" + z + "\n", '\n') == [x, y, z, ""]
  {
    SplitNone("", '\n');
    SplitFirst(z, "", '\n');
    assert z + ['\n'] + "" == z + "\n";
    SplitFirst(y, z + "\n", '\n');
    SplitFirst(x, y + "\n" + (z + "\n"), '\n');
    assert x + "\n" + y + "\n" + z + "\n" == x + ['\n'] + (y + ['\n'] + (z + "\n"));
  }

  /** The documented sample reads as 12560 bytes. */
  lemma SampleBytesTransmitted()
    ensures BytesTransmitted(SampleOutput) == Some(12560)
  {
    SampleLinesOneLine();
    SplitFourPieces(SampleChain, SampleColumns, SampleRule);
    SampleRuleShape();
    MatchCountersComplete(SampleRule, "     ", "61", "    ", "12560", SampleTail);
  }

  // ---------------------------------------------------------------------------
  // poll: one tick at a time
  // ---------------------------------------------------------------------------

  /** The time of the last activity after the ticks seen so far: the clock
      read when the last change was noticed, at the last tick whose sample
      differs from the sample before it (the first tick compares with None),
      or the start time when there was none. `marks[i]` is the clock read at
      tick `i` right after a change is noticed. */
  function LastChange(start: int, samples: seq<Option<nat>>, marks: seq<int>): int
    requires |samples| == |marks|
    decreases |samples|
  {
    if samples == [] then start
    else
      var n := |samples| - 1;
      var previous := if n == 0 then None else samples[n - 1];
      if samples[n] != previous then marks[n]
      else LastChange(start, samples[..n], marks[..n])
  }

  /** Whether tick `i` suspends: the time since the last activity, measured
      with the clock read for the idle check (`times[i]`), strictly exceeds
      the timeout. */
  predicate SuspendsAt(start: int, timeout: int, samples: seq<Option<nat>>, marks: seq<int>, times: seq<int>, i: nat)
    requires |samples| == |marks| == |times| && i < |samples|
  {
    times[i] - LastChange(start, samples[..i + 1], marks[..i + 1]) > timeout
  }

  /** `poll` over finitely many ticks. Tick `i` reads the byte counter
      `samples[i]` (None when it could not be read); on a change it reads the
      clock once for the activity time (`marks[i]`), and every tick reads it
      for the idle check (`times[i]`); `start` is the clock before the first
      tick. The result says, per tick, whether the instance was suspended. */
  method Poll(start: int, timeout: int, samples: seq<Option<nat>>, marks: seq<int>, times: seq<int>)
    returns (suspended: seq<bool>)
    requires |samples| == |marks| == |times|
    ensures |suspended| == |samples|
    ensures forall i :: 0 <= i < |samples| ==> (suspended[i] <==> SuspendsAt(start, timeout, samples, marks, times, i))
  {
    var lastBytes: Option<nat> := None;
    var lastActivity := start;
    suspended := [];
    var i := 0;
    while i < |samples|
      invariant 0 <= i <= |samples|
      invariant |suspended| == i
      invariant lastBytes == if i == 0 then None else samples[i - 1]
      invariant lastActivity == LastChange(start, samples[..i], marks[..i])
      invariant forall k :: 0 <= k < i ==> (suspended[k] <==> SuspendsAt(start, timeout, samples, marks, times, k))
    {
      var bytes := samples[i];
      if lastBytes != bytes {
        lastBytes := bytes;
        lastActivity := marks[i];
      }
      assert samples[..i + 1][..i] == samples[..i] && marks[..i + 1][..i] == marks[..i];
      var elapsed := times[i] - lastActivity;
      suspended := suspended + [elapsed > timeout];
      i := i + 1;
    }
  }

  /** A tick whose sample differs from the one before is activity: the last
      activity becomes the clock read on noticing it, so the tick suspends
      exactly when the idle check's later clock reading is already more than
      the timeout past it. With a timeout of 0, any tick between the two
      readings is enough. This includes the first readable sample after the
      initial None and a change to or from None. */
  lemma NoSuspendOnChange(start: int, timeout: int, samples: seq<Option<nat>>, marks: seq<int>, times: seq<int>, i: nat)
    requires |samples| == |marks| == |times| && i < |samples|
    requires samples[i] != (if i == 0 then None else samples[i - 1])
    ensures LastChange(start, samples[..i + 1], marks[..i + 1]) == marks[i]
    ensures SuspendsAt(start, timeout, samples, marks, times, i) <==> times[i] - marks[i] > timeout
  {
    assert samples[..i + 1][i] == samples[i];
  }

  /** A tick whose sample equals the one before keeps the last activity time. */
  lemma {:induction false} SameSampleKeepsActivity(start: int, samples: seq<Option<nat>>, marks: seq<int>, i: nat)
    requires |samples| == |marks| && 0 < i < |samples|
    requires samples[i] == samples[i - 1]
    ensures LastChange(start, samples[..i + 1], marks[..i + 1]) == LastChange(start, samples[..i], marks[..i])
  {
    assert samples[..i + 1][..i] == samples[..i] && marks[..i + 1][..i] == marks[..i];
    assert samples[..i + 1][i] == samples[i] && samples[..i + 1][i - 1] == samples[i - 1];
  }

  /** Suspending does not reset the last activity: an instance still idle at
      the next tick, with a clock that has not gone back, is suspended again. */
  lemma {:induction false} StillIdleSuspendsAgain(start: int, timeout: int, samples: seq<Option<nat>>, marks: seq<int>,
                                                  times: seq<int>, i: nat)
    requires |samples| == |marks| == |times| && i + 1 < |samples|
    requires SuspendsAt(start, timeout, samples, marks, times, i)
    requires samples[i + 1] == samples[i] && times[i + 1] >= times[i]
    ensures SuspendsAt(start, timeout, samples, marks, times, i + 1)
  {
    SameSampleKeepsActivity(start, samples, marks, i + 1);
    assert samples[..i + 2][..i + 1] == samples[..i + 1];
    assert marks[..i + 2][..i + 1] == marks[..i + 1];
  }

  /** The last activity time is the start, or the clock read when some tick
      seen noticed a change. */
  lemma {:induction false} LastChangeIsATick(start: int, samples: seq<Option<nat>>, marks: seq<int>)
    requires |samples| == |marks|
    ensures LastChange(start, samples, marks) == start
         || exists k :: 0 <= k < |marks| && LastChange(start, samples, marks) == marks[k]
    decreases |samples|
  {
    if samples != [] {
      var n := |samples| - 1;
      LastChangeIsATick(start, samples[..n], marks[..n]);
      if LastChange(start, samples, marks) != marks[n] && LastChange(start, samples, marks) != start {
        var k :| 0 <= k < n && LastChange(start, samples[..n], marks[..n]) == marks[..n][k];
        assert marks[..n][k] == marks[k];
      }
    }
  }

  // ---------------------------------------------------------------------------
  // suspend_instance
  // ---------------------------------------------------------------------------

  /** The suspend request, run in the cloud SDK container. */
  function SuspendCommand(name: string, zone: string, project: string): seq<string> {
    ["docker", "run", "google/cloud-sdk", "gcloud", "compute", "instances", "suspend",
     name, "--zone", zone, "--project", project]
  }

  const PowerOffCommand: seq<string> := ["shutdown", "--poweroff"]

  /** `suspend_instance`: the commands run, in order, given the suspend
      command's return code. The power-off runs exactly when the suspend
      command fails. */
  method SuspendInstance(name: string, zone: string, project: string, suspendReturnCode: int)
    returns (commands: seq<seq<string>>)
    ensures 1 <= |commands| <= 2 && commands[0] == SuspendCommand(name, zone, project)
    ensures |commands| == 2 <==> suspendReturnCode != 0
    ensures |commands| == 2 ==> commands[1] == PowerOffCommand
  {
    commands := [SuspendCommand(name, zone, project)];
    if suspendReturnCode != 0 {
      commands := commands + [PowerOffCommand];
    }
  }
}
