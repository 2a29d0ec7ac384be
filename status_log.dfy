/** `get_status_from_log` from hermitcrab/command/up.py: the boot-log parser that
    turns the full text of /var/log/hermit.log into a readiness flag and an
    ordered list of status lines. Every pattern is searched with `re.MULTILINE`,
    so each one is modelled as a predicate on the lines of the log. */
module StatusLog {
  import opened Wrappers
  import opened Text

  const CheckMarker := "Checking filesystem"
  const FinishedMarker := "Finished checking filesystem"
  const PullingPrefix := "Pulling from "
  const ListeningPrefix := "Server listening on "
  const ProgressLead := "Progress (Phase "

  /** The lines `^` and `$` see under `re.MULTILINE`. */
  function Lines(log: string): (ls: seq<string>)
    ensures |ls| >= 1
    ensures forall i :: 0 <= i < |ls| ==> Excludes(ls[i], '\n')
  {
    Split(log, '\n')
  }

  // ---------------------------------------------------------------------------
  // Searching the lines
  // ---------------------------------------------------------------------------

  /** The first line satisfying `p`: where `re.search` finds its match. */
  function FirstIndex(ls: seq<string>, p: string -> bool): (r: Option<nat>)
    ensures r.Some? ==> r.value < |ls| && p(ls[r.value])
    ensures r.Some? ==> forall j :: 0 <= j < r.value ==> !p(ls[j])
    ensures r.None? ==> forall j :: 0 <= j < |ls| ==> !p(ls[j])
    decreases |ls|
  {
    if ls == [] then None
    else if p(ls[0]) then Some(0)
    else match FirstIndex(ls[1..], p)
      case None => None
      case Some(k) => Some(k + 1)
  }

  /** The last line satisfying `p`: the last element of what `re.findall` returns. */
  function LastIndex(ls: seq<string>, p: string -> bool): (r: Option<nat>)
    ensures r.Some? ==> r.value < |ls| && p(ls[r.value])
    ensures r.Some? ==> forall j :: r.value < j < |ls| ==> !p(ls[j])
    ensures r.None? ==> forall j :: 0 <= j < |ls| ==> !p(ls[j])
    decreases |ls|
  {
    if ls == [] then None
    else if p(ls[|ls| - 1]) then Some(|ls| - 1)
    else LastIndex(ls[..|ls| - 1], p)
  }

  predicate HasLine(ls: seq<string>, p: string -> bool) {
    exists i :: 0 <= i < |ls| && p(ls[i])
  }

  // ---------------------------------------------------------------------------
  // The five patterns, each as a property of one line
  // ---------------------------------------------------------------------------

  /** `^(Checking filesystem)` */
  predicate IsCheckLine(line: string) {
    StartsWith(line, CheckMarker)
  }

  /** `^(Finished checking filesystem)` */
  predicate IsFinishedLine(line: string) {
    StartsWith(line, FinishedMarker)
  }

  /** `^(Server listening on 0.0.0.0.*)$`: the dots are not escaped, so each one
      stands for any character; the whole line is the group. */
  predicate IsListeningLine(line: string) {
    |line| >= |ListeningPrefix| + 7 && StartsWith(line, ListeningPrefix)
    && line[20] == '0' && line[22] == '0' && line[24] == '0' && line[26] == '0'
  }

  /** One fsck progress record `<phase> <current> <max> <device>`. */
  datatype Progress = Progress(phase: nat, current: nat, max: nat)

  /** A run of digits followed by one space: the digits and what follows the space. */
  function DigitsThenSpace(s: string): (r: Option<(string, string)>)
    ensures r.Some? ==> |r.value.0| > 0 && AllDigits(r.value.0) && s == r.value.0 + " " + r.value.1
  {
    var n := SpanWhile(s, IsDigit);
    if 0 < n < |s| && s[n] == ' ' then
      assert s == s[..n] + " " + s[n + 1..];
      Some((s[..n], s[n + 1..]))
    else None
  }

  /** `^(\d+) (\d+) (\d+) (\S+)$` against one whole line. */
  function MatchProgress(line: string): Option<Progress> {
    match DigitsThenSpace(line)
    case None => None
    case Some((a, r1)) =>
      match DigitsThenSpace(r1)
      case None => None
      case Some((b, r2)) =>
        match DigitsThenSpace(r2)
        case None => None
        case Some((c, device)) =>
          if |device| > 0 && NoSpace(device) then Some(Progress(ParseNat(a), ParseNat(b), ParseNat(c)))
          else None
  }

  predicate IsProgressLine(line: string) {
    MatchProgress(line).Some?
  }

  /** A line that is literally four fields as the progress pattern describes them. */
  predicate ProgressShape(line: string, a: string, b: string, c: string, device: string) {
    |a| > 0 && |b| > 0 && |c| > 0 && AllDigits(a) && AllDigits(b) && AllDigits(c)
    && |device| > 0 && NoSpace(device)
    && line == a + " " + b + " " + c + " " + device
  }

  /** `(Pulling from \S+)$` matching at position `p` of a line. */
  predicate PullingAt(line: string, p: int) {
    0 <= p && p + |PullingPrefix| < |line|
    && line[p..p + |PullingPrefix|] == PullingPrefix
    && NoSpace(line[p + |PullingPrefix|..])
  }

  /** The leftmost position at or after `p` where the pulling pattern matches. */
  function PullingFrom(line: string, p: nat): (r: Option<nat>)
    ensures r.Some? ==> p <= r.value && PullingAt(line, r.value)
    ensures r.Some? ==> forall q :: p <= q < r.value ==> !PullingAt(line, q)
    ensures r.None? ==> forall q :: p <= q ==> !PullingAt(line, q)
    decreases |line| - p
  {
    if p + |PullingPrefix| >= |line| then None
    else if PullingAt(line, p) then Some(p)
    else PullingFrom(line, p + 1)
  }

  /** The group the pulling pattern captures in a line: from the match to the end. */
  function MatchPulling(line: string): (r: Option<string>)
    ensures r.Some? <==> exists p :: PullingAt(line, p)
    ensures r.Some? ==> exists p :: PullingAt(line, p) && r.value == line[p..]
                                  && forall q :: 0 <= q < p ==> !PullingAt(line, q)
  {
    match PullingFrom(line, 0)
    case None => None
    case Some(p) => Some(line[p..])
  }

  predicate IsPullingLine(line: string) {
    MatchPulling(line).Some?
  }

  // ---------------------------------------------------------------------------
  // The parser
  // ---------------------------------------------------------------------------

  /** `int(current_value*100/max_value)`, for counters that are never negative. */
  function Percent(p: Progress): nat
    requires p.max > 0
  {
    (p.current * 100) / p.max
  }

  function ProgressText(p: Progress): string
    requires p.max > 0
  {
    ProgressLead + NatToString(p.phase) + "): " + NatToString(Percent(p)) + "%"
  }

  datatype LogStatus = LogStatus(ready: bool, entries: seq<string>)

  /** The one way the parser raises: a last progress record whose maximum is 0. */
  datatype LogError = ZeroDivision(record: Progress)

  /** The last progress record, looked for only while a check is started and not finished. */
  function LastProgress(ls: seq<string>): Option<Progress> {
    if HasLine(ls, IsCheckLine) && !HasLine(ls, IsFinishedLine) then
      match LastIndex(ls, IsProgressLine)
      case None => None
      case Some(i) => MatchProgress(ls[i])
    else None
  }

  predicate Computable(ls: seq<string>) {
    LastProgress(ls).None? || LastProgress(ls).value.max > 0
  }

  function MarkerEntries(ls: seq<string>): seq<string> {
    (if HasLine(ls, IsCheckLine) then [CheckMarker] else [])
    + (if HasLine(ls, IsFinishedLine) then [FinishedMarker] else [])
  }

  function ProgressEntry(ls: seq<string>): seq<string>
    requires Computable(ls)
  {
    match LastProgress(ls)
    case None => []
    case Some(p) => [ProgressText(p)]
  }

  function PullingEntry(ls: seq<string>): seq<string> {
    match FirstIndex(ls, IsPullingLine)
    case None => []
    case Some(i) => [MatchPulling(ls[i]).value]
  }

  function ListeningEntry(ls: seq<string>): seq<string> {
    match FirstIndex(ls, IsListeningLine)
    case None => []
    case Some(i) => [ls[i]]
  }

  function GetStatusFromLog(log: string): Result<LogStatus, LogError> {
    ParseLines(Lines(log))
  }

  function ParseLines(ls: seq<string>): Result<LogStatus, LogError> {
    if !Computable(ls) then Err(ZeroDivision(LastProgress(ls).value))
    else
      Ok(LogStatus(FirstIndex(ls, IsListeningLine).Some?,
                   MarkerEntries(ls) + ProgressEntry(ls) + PullingEntry(ls) + ListeningEntry(ls)))
  }

  // ---------------------------------------------------------------------------
  // The progress pattern is exactly the four-field shape
  // ---------------------------------------------------------------------------

  lemma {:induction false} DigitsThenSpaceOf(a: string, rest: string)
    requires |a| > 0 && AllDigits(a)
    ensures DigitsThenSpace(a + " " + rest) == Some((a, rest))
  {
    var s := a + " " + rest;
    var n := SpanWhile(s, IsDigit);
    forall i | 0 <= i < |a| ensures IsDigit(s[i]) {
      assert s[i] == a[i];
    }
    assert s[|a|] == ' ';
    assert n == |a|;
    assert s[..n] == a;
    assert s[n + 1..] == rest;
  }

  lemma {:induction false} MatchProgressComplete(line: string, a: string, b: string, c: string, device: string)
    requires ProgressShape(line, a, b, c, device)
    ensures MatchProgress(line) == Some(Progress(ParseNat(a), ParseNat(b), ParseNat(c)))
  {
    assert line == a + " " + (b + " " + c + " " + device);
    DigitsThenSpaceOf(a, b + " " + c + " " + device);
    assert b + " " + c + " " + device == b + " " + (c + " " + device);
    DigitsThenSpaceOf(b, c + " " + device);
    DigitsThenSpaceOf(c, device);
  }

  lemma {:induction false} MatchProgressSound(line: string)
    requires MatchProgress(line).Some?
    ensures exists a, b, c, device :: (ProgressShape(line, a, b, c, device)
      && MatchProgress(line).value == Progress(ParseNat(a), ParseNat(b), ParseNat(c)))
  {
    var d1 := DigitsThenSpace(line).value;
    var d2 := DigitsThenSpace(d1.1).value;
    var d3 := DigitsThenSpace(d2.1).value;
    JoinFields(line, d1.0, d1.1, d2.0, d2.1, d3.0, d3.1);
    assert ProgressShape(line, d1.0, d2.0, d3.0, d3.1);
  }

  lemma {:induction false} JoinFields(line: string, a: string, r1: string, b: string, r2: string, c: string, device: string)
    requires line == a + " " + r1 && r1 == b + " " + r2 && r2 == c + " " + device
    ensures line == a + " " + b + " " + c + " " + device
  {
  }

  // ---------------------------------------------------------------------------
  // What the parser promises
  // ---------------------------------------------------------------------------

  /** Line `i` matches `p` and no later line does. */
  predicate LastAt(ls: seq<string>, p: string -> bool, i: int) {
    0 <= i < |ls| && p(ls[i]) && forall j :: i < j < |ls| ==> !p(ls[j])
  }

  /** Line `i` is the last progress record of the log. */
  predicate LastProgressAt(ls: seq<string>, i: int) {
    LastAt(ls, IsProgressLine, i)
  }

  lemma {:induction false} LastProgressAtUnique(ls: seq<string>, i: int)
    requires LastProgressAt(ls, i)
    ensures LastIndex(ls, IsProgressLine) == Some(i)
  {
    LastIndexAt(ls, IsProgressLine, i);
  }

  /** The parser fails exactly when a check is in progress and the last progress
      record has a zero maximum. */
  lemma {:induction false} FailsIffZeroMaximum(log: string)
    ensures GetStatusFromLog(log).Err? <==>
      var ls := Lines(log);
      HasLine(ls, IsCheckLine) && !HasLine(ls, IsFinishedLine)
      && exists i :: LastProgressAt(ls, i) && MatchProgress(ls[i]).value.max == 0
  {
    var ls := Lines(log);
    assert GetStatusFromLog(log).Err? <==> !Computable(ls);
    if HasLine(ls, IsCheckLine) && !HasLine(ls, IsFinishedLine) {
      match LastIndex(ls, IsProgressLine)
      case None =>
      case Some(i) =>
        assert LastProgressAt(ls, i);
        forall k | LastProgressAt(ls, k) ensures k == i {
          LastProgressAtUnique(ls, k);
        }
    }
  }

  /** Ready exactly when some line matches the listening pattern, and then the
      first such line, whole, is the last status entry. */
  lemma {:induction false} ReadyIffServerListening(log: string)
    requires GetStatusFromLog(log).Ok?
    ensures var st := GetStatusFromLog(log).value; var ls := Lines(log);
      (st.ready <==> HasLine(ls, IsListeningLine))
      && (st.ready ==> exists i :: 0 <= i < |ls| && IsListeningLine(ls[i])
                         && (forall j :: 0 <= j < i ==> !IsListeningLine(ls[j]))
                         && st.entries[|st.entries| - 1] == ls[i])
  {
    var ls := Lines(log);
    EntriesOf(log);
    var st := GetStatusFromLog(log).value;
    assert st.ready == FirstIndex(ls, IsListeningLine).Some?;
    match FirstIndex(ls, IsListeningLine)
    case None =>
    case Some(i) =>
      LastOfAppend(MarkerEntries(ls) + ProgressEntry(ls) + PullingEntry(ls), ls[i]);
  }

  lemma {:induction false} LastOfAppend(x: seq<string>, e: string)
    ensures (x + [e])[|x + [e]| - 1] == e
  {
  }

  predicate HasEntry(entries: seq<string>, lead: string) {
    exists k :: 0 <= k < |entries| && StartsWith(entries[k], lead)
  }

  lemma {:induction false} ProgressEntryPresent(ls: seq<string>)
    requires Computable(ls)
    ensures ProgressEntry(ls) != [] <==>
      HasLine(ls, IsCheckLine) && !HasLine(ls, IsFinishedLine) && HasLine(ls, IsProgressLine)
  {
    if HasLine(ls, IsCheckLine) && !HasLine(ls, IsFinishedLine) {
      match LastIndex(ls, IsProgressLine)
      case None =>
      case Some(i) =>
    }
  }

  /** Of all the entries, only the progress entry starts with its lead text. */
  lemma {:induction false} LeadOnlyInProgressEntry(ls: seq<string>)
    requires Computable(ls)
    ensures var entries := MarkerEntries(ls) + ProgressEntry(ls) + PullingEntry(ls) + ListeningEntry(ls);
      HasEntry(entries, ProgressLead) <==> ProgressEntry(ls) != []
  {
    SlotKinds(ls);
    var before := MarkerEntries(ls);
    var mid := ProgressEntry(ls);
    var after := PullingEntry(ls) + ListeningEntry(ls);
    SlotsAbove(PullingEntry(ls), ListeningEntry(ls));
    assert MarkerEntries(ls) + ProgressEntry(ls) + PullingEntry(ls) + ListeningEntry(ls) == before + mid + after;
    LeadOnlyInMiddle(before, mid, after);
  }

  /** Kinds above 2. */
  predicate Above(s: seq<string>, k: nat) {
    forall i :: 0 <= i < |s| ==> Kind(s[i]) > k
  }

  lemma {:induction false} SlotsAbove(x: seq<string>, y: seq<string>)
    requires Slot(x, 3) && Slot(y, 4)
    ensures Above(x + y, 2)
  {
    forall i | 0 <= i < |x + y| ensures Kind((x + y)[i]) > 2 {
      if i < |x| { assert (x + y)[i] == x[i]; } else { assert (x + y)[i] == y[i - |x|]; }
    }
  }

  lemma {:induction false} KindAround(before: seq<string>, mid: seq<string>, after: seq<string>, k: nat)
    requires Below(before, 2) && Above(after, 2) && k < |before + mid + after|
    ensures k < |before| ==> Kind((before + mid + after)[k]) < 2
    ensures k >= |before| + |mid| ==> Kind((before + mid + after)[k]) > 2
  {
    var entries := before + mid + after;
    if k < |before| {
      assert entries[k] == before[k];
    } else if k >= |before| + |mid| {
      assert entries[k] == after[k - |before| - |mid|];
    }
  }

  /** Entries of kinds below, equal to and above 2: only the middle one can
      start with the progress lead. */
  lemma {:induction false} LeadOnlyInMiddle(before: seq<string>, mid: seq<string>, after: seq<string>)
    requires Below(before, 2) && Slot(mid, 2) && Above(after, 2)
    ensures HasEntry(before + mid + after, ProgressLead) <==> mid != []
  {
    var entries := before + mid + after;
    if HasEntry(entries, ProgressLead) {
      var k :| 0 <= k < |entries| && StartsWith(entries[k], ProgressLead);
      LeadMeansProgress(entries[k]);
      KindAround(before, mid, after, k);
    }
    if mid != [] {
      assert entries[|before|] == mid[0];
      ProgressKindLead(mid[0]);
    }
  }

  lemma {:induction false} ProgressKindLead(e: string)
    requires Kind(e) == 2
    ensures StartsWith(e, ProgressLead)
  {
  }

  /** A progress entry is present exactly when some line starts a check, none
      finishes it and some line is a progress record. */
  lemma {:induction false} ProgressOnlyWhileChecking(log: string)
    requires GetStatusFromLog(log).Ok?
    ensures var st := GetStatusFromLog(log).value; var ls := Lines(log);
      (HasEntry(st.entries, ProgressLead) <==>
        HasLine(ls, IsCheckLine) && !HasLine(ls, IsFinishedLine) && HasLine(ls, IsProgressLine))
  {
    var ls := Lines(log);
    LeadOnlyInProgressEntry(ls);
    ProgressEntryPresent(ls);
  }

  lemma {:induction false} EntriesOf(log: string)
    requires GetStatusFromLog(log).Ok?
    ensures Computable(Lines(log))
    ensures GetStatusFromLog(log).value.entries ==
      MarkerEntries(Lines(log)) + ProgressEntry(Lines(log)) + PullingEntry(Lines(log)) + ListeningEntry(Lines(log))
  {
  }

  /** The progress entry, second after the check marker, is rendered from the
      last progress record of the log. */
  lemma {:induction false} ProgressUsesLastRecord(log: string, i: nat)
    requires GetStatusFromLog(log).Ok?
    requires HasLine(Lines(log), IsCheckLine) && !HasLine(Lines(log), IsFinishedLine)
    requires LastProgressAt(Lines(log), i)
    ensures var p := MatchProgress(Lines(log)[i]).value; var entries := GetStatusFromLog(log).value.entries;
      p.max > 0 && |entries| > 1 && entries[1] == ProgressText(p)
  {
    var ls := Lines(log);
    ProgressComputable(ls, i);
    ProgressEntryOf(ls, i);
    CheckOnlyMarkers(ls);
    EntriesOf(log);
    SecondEntry(CheckMarker, ProgressText(MatchProgress(ls[i]).value), PullingEntry(ls) + ListeningEntry(ls));
  }

  lemma {:induction false} ProgressComputable(ls: seq<string>, i: nat)
    requires Computable(ls)
    requires HasLine(ls, IsCheckLine) && !HasLine(ls, IsFinishedLine)
    requires LastProgressAt(ls, i)
    ensures MatchProgress(ls[i]).value.max > 0
  {
    LastProgressAtUnique(ls, i);
  }

  lemma {:induction false} SecondEntry(m: string, t: string, rest: seq<string>)
    ensures |[m] + [t] + rest| > 1 && ([m] + [t] + rest)[1] == t
  {
  }

  lemma {:induction false} ProgressEntryOf(ls: seq<string>, i: nat)
    requires HasLine(ls, IsCheckLine) && !HasLine(ls, IsFinishedLine)
    requires LastProgressAt(ls, i) && MatchProgress(ls[i]).value.max > 0
    ensures Computable(ls) && ProgressEntry(ls) == [ProgressText(MatchProgress(ls[i]).value)]
  {
    LastProgressAtUnique(ls, i);
  }

  /** Which of the five patterns produced a status entry. */
  function Kind(e: string): nat {
    if e == CheckMarker then 0
    else if e == FinishedMarker then 1
    else if StartsWith(e, ProgressLead) then 2
    else if StartsWith(e, PullingPrefix) then 3
    else 4
  }

  predicate StrictlyOrdered(entries: seq<string>) {
    forall i, j :: 0 <= i < j < |entries| ==> Kind(entries[i]) < Kind(entries[j])
  }

  /** At most one entry, of the given kind. */
  predicate Slot(s: seq<string>, k: nat) {
    |s| <= 1 && forall i :: 0 <= i < |s| ==> Kind(s[i]) == k
  }

  predicate Below(s: seq<string>, k: nat) {
    forall i :: 0 <= i < |s| ==> Kind(s[i]) < k
  }

  lemma {:induction false} LeadMeansProgress(e: string)
    requires StartsWith(e, ProgressLead)
    ensures Kind(e) == 2
  {
    assert e[0] == 'P';
    assert CheckMarker[0] == 'C' && FinishedMarker[0] == 'F';
  }

  lemma {:induction false} SlotKinds(ls: seq<string>)
    requires Computable(ls)
    ensures StrictlyOrdered(MarkerEntries(ls)) && Below(MarkerEntries(ls), 2)
    ensures Slot(ProgressEntry(ls), 2)
    ensures Slot(PullingEntry(ls), 3)
    ensures Slot(ListeningEntry(ls), 4)
  {
    MarkerSlots(ls);
    ProgressSlot(ls);
    PullingSlot(ls);
    ListeningSlot(ls);
  }

  lemma {:induction false} MarkerSlots(ls: seq<string>)
    ensures StrictlyOrdered(MarkerEntries(ls)) && Below(MarkerEntries(ls), 2)
  {
    assert CheckMarker[0] == 'C' && FinishedMarker[0] == 'F';
    assert Kind(FinishedMarker) == 1;
  }

  lemma {:induction false} ProgressSlot(ls: seq<string>)
    requires Computable(ls)
    ensures Slot(ProgressEntry(ls), 2)
  {
    match LastProgress(ls)
    case None =>
    case Some(p) => ProgressKind(p);
  }

  lemma {:induction false} PullingSlot(ls: seq<string>)
    ensures Slot(PullingEntry(ls), 3)
  {
    match FirstIndex(ls, IsPullingLine)
    case None =>
    case Some(i) => PullingKind(ls[i]);
  }

  lemma {:induction false} ListeningSlot(ls: seq<string>)
    ensures Slot(ListeningEntry(ls), 4)
  {
    match FirstIndex(ls, IsListeningLine)
    case None =>
    case Some(i) => ListeningKind(ls[i]);
  }

  lemma {:induction false} ProgressKind(p: Progress)
    requires p.max > 0
    ensures Kind(ProgressText(p)) == 2
  {
    var t := ProgressText(p);
    assert t[..|ProgressLead|] == ProgressLead;
    LeadMeansProgress(t);
  }

  lemma {:induction false} PullingKind(line: string)
    requires IsPullingLine(line)
    ensures Kind(MatchPulling(line).value) == 3
  {
    PullingGroupLead(line);
    PullingLeadKind(MatchPulling(line).value);
  }

  /** The pulling group starts with its lead text. */
  lemma {:induction false} PullingGroupLead(line: string)
    requires IsPullingLine(line)
    ensures StartsWith(MatchPulling(line).value, PullingPrefix)
  {
    var p := PullingFrom(line, 0).value;
    assert PullingAt(line, p);
    var g := line[p..];
    assert g[..|PullingPrefix|] == line[p..p + |PullingPrefix|];
  }

  lemma {:induction false} PullingLeadKind(g: string)
    requires StartsWith(g, PullingPrefix)
    ensures Kind(g) == 3
  {
    assert g[0] == PullingPrefix[0] == 'P';
    assert g[1] == PullingPrefix[1] == 'u';
    assert g != CheckMarker by { assert CheckMarker[0] == 'C'; }
    assert g != FinishedMarker by { assert FinishedMarker[0] == 'F'; }
    assert !StartsWith(g, ProgressLead) by { assert ProgressLead[1] == 'r'; }
  }

  lemma {:induction false} ListeningKind(line: string)
    requires IsListeningLine(line)
    ensures Kind(line) == 4
  {
    assert line[..|ListeningPrefix|] == ListeningPrefix;
    assert line[0] == 'S';
    assert CheckMarker[0] == 'C' && FinishedMarker[0] == 'F';
    assert ProgressLead[0] == 'P' && PullingPrefix[0] == 'P';
  }

  lemma {:induction false} Extend(x: seq<string>, s: seq<string>, k: nat)
    requires StrictlyOrdered(x) && Below(x, k) && Slot(s, k)
    ensures StrictlyOrdered(x + s) && Below(x + s, k + 1)
  {
  }

  /** Status entries come in the fixed order check marker, finished marker,
      progress, pulling, listening, each at most once. */
  lemma {:induction false} StatusEntriesOrdered(log: string)
    requires GetStatusFromLog(log).Ok?
    ensures StrictlyOrdered(GetStatusFromLog(log).value.entries)
    ensures forall i, j :: 0 <= i < j < |GetStatusFromLog(log).value.entries| ==>
      GetStatusFromLog(log).value.entries[i] != GetStatusFromLog(log).value.entries[j]
  {
    var ls := Lines(log);
    SlotKinds(ls);
    Extend(MarkerEntries(ls), ProgressEntry(ls), 2);
    Extend(MarkerEntries(ls) + ProgressEntry(ls), PullingEntry(ls), 3);
    Extend(MarkerEntries(ls) + ProgressEntry(ls) + PullingEntry(ls), ListeningEntry(ls), 4);
  }

  /** A log with none of the five markers gives `(False, [])`, and only such a log does. */
  lemma {:induction false} NoMarkersNoStatus(log: string)
    ensures var ls := Lines(log);
      GetStatusFromLog(log) == Ok(LogStatus(false, [])) <==>
        !HasLine(ls, IsCheckLine) && !HasLine(ls, IsFinishedLine)
        && !HasLine(ls, IsPullingLine) && !HasLine(ls, IsListeningLine)
  {
    var ls := Lines(log);
    match FirstIndex(ls, IsPullingLine)
    case None =>
    case Some(i) => assert IsPullingLine(ls[i]);
    match FirstIndex(ls, IsListeningLine)
    case None =>
    case Some(i) => assert IsListeningLine(ls[i]);
    if Computable(ls) {
      var entries := MarkerEntries(ls) + ProgressEntry(ls) + PullingEntry(ls) + ListeningEntry(ls);
      assert entries == [] <==>
        MarkerEntries(ls) == [] && ProgressEntry(ls) == [] && PullingEntry(ls) == [] && ListeningEntry(ls) == [];
    }
  }

  // ---------------------------------------------------------------------------
  // Re-parsing a duplicated log
  // ---------------------------------------------------------------------------

  lemma {:induction false} FirstIndexAt(ls: seq<string>, p: string -> bool, k: nat)
    requires k < |ls| && p(ls[k]) && forall j :: 0 <= j < k ==> !p(ls[j])
    ensures FirstIndex(ls, p) == Some(k)
  {
  }

  lemma {:induction false} LastIndexAt(ls: seq<string>, p: string -> bool, k: int)
    requires LastAt(ls, p, k)
    ensures LastIndex(ls, p) == Some(k)
  {
  }

  /** The first match in `x + y` is the first in `x`, or else the first in `y`. */
  lemma {:induction false} FirstIndexAppend(x: seq<string>, y: seq<string>, p: string -> bool)
    ensures FirstIndex(x + y, p) ==
      match FirstIndex(x, p)
      case Some(k) => Some(k)
      case None => (match FirstIndex(y, p) case None => None case Some(k) => Some(|x| + k))
  {
    match FirstIndex(x, p)
    case Some(k) =>
      assert (x + y)[k] == x[k];
      forall j | 0 <= j < k ensures !p((x + y)[j]) {
        assert (x + y)[j] == x[j];
      }
      FirstIndexAt(x + y, p, k);
    case None =>
      forall j | 0 <= j < |x| ensures !p((x + y)[j]) {
        assert (x + y)[j] == x[j];
      }
      match FirstIndex(y, p)
      case Some(k) =>
        assert (x + y)[|x| + k] == y[k];
        forall j | |x| <= j < |x| + k ensures !p((x + y)[j]) {
          assert (x + y)[j] == y[j - |x|];
        }
        FirstIndexAt(x + y, p, |x| + k);
      case None =>
        forall j | |x| <= j < |x + y| ensures !p((x + y)[j]) {
          assert (x + y)[j] == y[j - |x|];
        }
  }

  /** The last match in `x + y` is the last in `y`, or else the last in `x`. */
  lemma {:induction false} LastIndexAppend(x: seq<string>, y: seq<string>, p: string -> bool)
    ensures LastIndex(x + y, p) ==
      match LastIndex(y, p)
      case Some(k) => Some(|x| + k)
      case None => LastIndex(x, p)
  {
    match LastIndex(y, p)
    case Some(k) =>
      assert (x + y)[|x| + k] == y[k];
      forall j | |x| + k < j < |x + y| ensures !p((x + y)[j]) {
        assert (x + y)[j] == y[j - |x|];
      }
      assert LastAt(x + y, p, |x| + k);
      LastIndexAt(x + y, p, |x| + k);
    case None =>
      forall j | |x| <= j < |x + y| ensures !p((x + y)[j]) {
        assert (x + y)[j] == y[j - |x|];
      }
      match LastIndex(x, p)
      case Some(k) =>
        assert (x + y)[k] == x[k];
        forall j | k < j < |x| ensures !p((x + y)[j]) {
          assert (x + y)[j] == x[j];
        }
        assert LastAt(x + y, p, k);
        LastIndexAt(x + y, p, k);
      case None =>
        forall j | 0 <= j < |x| ensures !p((x + y)[j]) {
          assert (x + y)[j] == x[j];
        }
  }

  /** Two lists of lines on which a pattern has the same first and last matching line. */
  predicate SameSearch(ls1: seq<string>, ls2: seq<string>, p: string -> bool) {
    (HasLine(ls1, p) <==> HasLine(ls2, p))
    && FirstIndex(ls1, p).Some? == FirstIndex(ls2, p).Some?
    && (FirstIndex(ls1, p).Some? ==> ls1[FirstIndex(ls1, p).value] == ls2[FirstIndex(ls2, p).value])
    && LastIndex(ls1, p).Some? == LastIndex(ls2, p).Some?
    && (LastIndex(ls1, p).Some? ==> ls1[LastIndex(ls1, p).value] == ls2[LastIndex(ls2, p).value])
  }

  /** Lines `A` followed by a copy of `A` and an empty last line search like `A`
      and an empty last line, for a pattern the empty line does not match. */
  lemma {:induction false} DoubledSearch(a: seq<string>, p: string -> bool)
    requires !p("")
    ensures SameSearch(a + (a + [""]), a + [""], p)
  {
    DoubledFirst(a, p);
    DoubledLast(a, p);
    DoubledHas(a, p);
  }

  lemma {:induction false} DoubledFirst(a: seq<string>, p: string -> bool)
    requires !p("")
    ensures FirstIndex(a + (a + [""]), p).Some? == FirstIndex(a + [""], p).Some?
    ensures FirstIndex(a + (a + [""]), p).Some? ==>
      (a + (a + [""]))[FirstIndex(a + (a + [""]), p).value] == (a + [""])[FirstIndex(a + [""], p).value]
  {
    var b := a + [""];
    FirstIndexAppend(a, b, p);
    FirstIndexAppend(a, [""], p);
    assert FirstIndex([""], p).None?;
    match FirstIndex(a, p)
    case None =>
    case Some(k) => assert (a + b)[k] == a[k] == b[k];
  }

  lemma {:induction false} DoubledLast(a: seq<string>, p: string -> bool)
    requires !p("")
    ensures LastIndex(a + (a + [""]), p).Some? == LastIndex(a + [""], p).Some?
    ensures LastIndex(a + (a + [""]), p).Some? ==>
      (a + (a + [""]))[LastIndex(a + (a + [""]), p).value] == (a + [""])[LastIndex(a + [""], p).value]
  {
    var b := a + [""];
    LastIndexAppend(a, b, p);
    match LastIndex(b, p)
    case None =>
    case Some(k) => assert (a + b)[|a| + k] == b[k];
  }

  lemma {:induction false} DoubledHas(a: seq<string>, p: string -> bool)
    ensures HasLine(a + (a + [""]), p) <==> HasLine(a + [""], p)
  {
    var b := a + [""];
    if HasLine(a + b, p) {
      var j :| 0 <= j < |a + b| && p((a + b)[j]);
      if j < |a| { assert (a + b)[j] == b[j]; } else { assert (a + b)[j] == b[j - |a|]; }
    }
    if HasLine(b, p) {
      var j :| 0 <= j < |b| && p(b[j]);
      assert (a + b)[|a| + j] == b[j];
    }
  }

  /** The parser sees only the first and last matching line of each pattern. */
  lemma {:induction false} ParseSameSearch(ls1: seq<string>, ls2: seq<string>)
    requires SameSearch(ls1, ls2, IsCheckLine) && SameSearch(ls1, ls2, IsFinishedLine)
    requires SameSearch(ls1, ls2, IsProgressLine) && SameSearch(ls1, ls2, IsPullingLine)
    requires SameSearch(ls1, ls2, IsListeningLine)
    ensures ParseLines(ls1) == ParseLines(ls2)
  {
    assert LastProgress(ls1) == LastProgress(ls2);
    assert MarkerEntries(ls1) == MarkerEntries(ls2);
    if Computable(ls1) {
      assert ProgressEntry(ls1) == ProgressEntry(ls2);
      assert PullingEntry(ls1) == PullingEntry(ls2);
      assert ListeningEntry(ls1) == ListeningEntry(ls2);
    }
  }

  lemma {:induction false} EmptyLineMatchesNothing()
    ensures !IsCheckLine("") && !IsFinishedLine("") && !IsProgressLine("")
    ensures !IsPullingLine("") && !IsListeningLine("")
  {
  }

  /** Parsing a log that ends a line gives the same result as parsing the log
      written twice: every pattern is about presence, first or last match. */
  lemma {:induction false} ReparseDuplicated(log: string)
    requires log == [] || log[|log| - 1] == '\n'
    ensures GetStatusFromLog(log + log) == GetStatusFromLog(log)
  {
    if log != [] {
      SplitAfterSeparator(log, log, '\n');
      var ls := Lines(log);
      var a := ls[..|ls| - 1];
      assert ls == a + [""];
      assert Lines(log + log) == a + (a + [""]);
      EmptyLineMatchesNothing();
      DoubledSearch(a, IsCheckLine);
      DoubledSearch(a, IsFinishedLine);
      DoubledSearch(a, IsProgressLine);
      DoubledSearch(a, IsPullingLine);
      DoubledSearch(a, IsListeningLine);
      ParseSameSearch(a + (a + [""]), a + [""]);
    } else {
      assert log + log == log;
    }
  }

  // ---------------------------------------------------------------------------
  // The documented sample lines
  // ---------------------------------------------------------------------------

  /** The fsck record `5 3199 3200 /dev/sdb` reads as phase 5, 3199 of 3200,
      which renders as 99%. */
  lemma {:induction false} SampleProgressRecord()
    ensures MatchProgress("5 3199 3200 /dev/sdb") == Some(Progress(5, 3199, 3200))
    ensures ProgressText(Progress(5, 3199, 3200)) == "Progress (Phase 5): 99%"
  {
    SampleFields();
    MatchProgressComplete("5 3199 3200 /dev/sdb", "5", "3199", "3200", "/dev/sdb");
    SampleText();
  }

  lemma {:induction false} SampleFields()
    ensures ProgressShape("5 3199 3200 /dev/sdb", "5", "3199", "3200", "/dev/sdb")
    ensures ParseNat("5") == 5 && ParseNat("3199") == 3199 && ParseNat("3200") == 3200
  {
    assert "5 3199 3200 /dev/sdb" == "5" + " " + "3199" + " " + "3200" + " " + "/dev/sdb";
    assert "3199"[..3] == "319" && "319"[..2] == "31" && "31"[..1] == "3" && "3"[..0] == "";
    assert "3200"[..3] == "320" && "320"[..2] == "32" && "32"[..1] == "3";
  }

  lemma {:induction false} SampleText()
    ensures ProgressText(Progress(5, 3199, 3200)) == "Progress (Phase 5): 99%"
  {
    assert Percent(Progress(5, 3199, 3200)) == 99;
    assert NatToString(99) == "99";
    assert NatToString(5) == "5";
  }

  /** sshd's own announcement sets the ready flag; because the dots in the pattern
      are unescaped, so does any character in their places. */
  lemma {:induction false} SampleListeningLine()
    ensures IsListeningLine(ListeningPrefix + "0.0.0.0 port 3022.")
    ensures IsListeningLine(ListeningPrefix + "0a0b0c0")
    ensures !IsListeningLine(ListeningPrefix + "127.0.0.1 port 3022.")
  {
    var l := ListeningPrefix + "127.0.0.1 port 3022.";
    assert l[20] == '1';
  }

  // ---------------------------------------------------------------------------
  // Without a final newline the duplicated log can read differently
  // ---------------------------------------------------------------------------

  lemma {:induction false} NoCapitalPNoPulling(line: string)
    requires Excludes(line, 'P')
    ensures !IsPullingLine(line)
  {
    forall p | 0 <= p && p + |PullingPrefix| < |line| ensures !PullingAt(line, p) {
      assert line[p..p + |PullingPrefix|][0] == line[p];
    }
  }

  /** What each line of the witness log matches. */
  lemma {:induction false} WitnessLines()
    ensures NoPattern("2 x") && NoPattern("1 1 ")
    ensures !IsCheckLine("1 1 2 x") && !IsFinishedLine("1 1 2 x")
    ensures !IsPullingLine("1 1 2 x") && !IsListeningLine("1 1 2 x")
    ensures MatchProgress("1 1 2 x") == Some(Progress(1, 1, 2))
    ensures IsCheckLine(CheckMarker) && !IsFinishedLine(CheckMarker) && !IsProgressLine(CheckMarker)
    ensures !IsPullingLine(CheckMarker) && !IsListeningLine(CheckMarker)
  {
    TwoXLine();
    OneOneLine();
    ShortLine("1 1 2 x");
    ProgressWitness();
    CheckMarkerLine();
  }

  lemma {:induction false} TwoXLine()
    ensures NoPattern("2 x")
  {
    ShortLine("2 x");
    assert "2 x" == "2" + " " + "x";
    DigitsThenSpaceOf("2", "x");
  }

  lemma {:induction false} OneOneLine()
    ensures NoPattern("1 1 ")
  {
    ShortLine("1 1 ");
    assert "1 1 " == "1" + " " + "1 " && "1 " == "1" + " " + "";
    DigitsThenSpaceOf("1", "1 ");
    DigitsThenSpaceOf("1", "");
  }

  predicate NoPattern(line: string) {
    !IsCheckLine(line) && !IsFinishedLine(line) && !IsProgressLine(line)
    && !IsPullingLine(line) && !IsListeningLine(line)
  }

  lemma {:induction false} ShortLine(line: string)
    requires |line| <= |PullingPrefix|
    ensures !IsCheckLine(line) && !IsFinishedLine(line) && !IsPullingLine(line) && !IsListeningLine(line)
  {
  }

  lemma {:induction false} ProgressWitness()
    ensures MatchProgress("1 1 2 x") == Some(Progress(1, 1, 2))
  {
    WitnessFields();
    MatchProgressComplete("1 1 2 x", "1", "1", "2", "x");
  }

  lemma {:induction false} WitnessFields()
    ensures ProgressShape("1 1 2 x", "1", "1", "2", "x")
    ensures ParseNat("1") == 1 && ParseNat("2") == 2
  {
    assert "1 1 2 x" == "1" + " " + "1" + " " + "2" + " " + "x";
    assert "1"[..0] == "" && "2"[..0] == "";
  }

  lemma {:induction false} CheckMarkerLine()
    ensures IsCheckLine(CheckMarker) && !IsFinishedLine(CheckMarker) && !IsProgressLine(CheckMarker)
    ensures !IsPullingLine(CheckMarker) && !IsListeningLine(CheckMarker)
  {
    assert CheckMarker[0] == 'C';
    assert Excludes(CheckMarker, 'P');
    NoCapitalPNoPulling(CheckMarker);
  }

  lemma {:induction false} NoFirst(ls: seq<string>, p: string -> bool)
    requires !HasLine(ls, p)
    ensures FirstIndex(ls, p) == None
  {
  }

  lemma {:induction false} CheckOnlyMarkers(ls: seq<string>)
    requires HasLine(ls, IsCheckLine) && !HasLine(ls, IsFinishedLine)
    ensures MarkerEntries(ls) == [CheckMarker]
  {
  }

  /** No pulling and no listening line: neither entry, and not ready. */
  lemma {:induction false} NoTrailingEntries(ls: seq<string>)
    requires !HasLine(ls, IsPullingLine) && !HasLine(ls, IsListeningLine)
    ensures PullingEntry(ls) == [] && ListeningEntry(ls) == [] && FirstIndex(ls, IsListeningLine).None?
  {
    NoFirst(ls, IsPullingLine);
    NoFirst(ls, IsListeningLine);
  }

  lemma {:induction false} ParseLinesOf(ls: seq<string>, ready: bool, m: seq<string>, pr: seq<string>, rest: seq<string>)
    requires Computable(ls)
    requires FirstIndex(ls, IsListeningLine).Some? == ready
    requires MarkerEntries(ls) == m && ProgressEntry(ls) == pr && PullingEntry(ls) + ListeningEntry(ls) == rest
    ensures ParseLines(ls) == Ok(LogStatus(ready, m + pr + rest))
  {
    assert MarkerEntries(ls) + ProgressEntry(ls) + PullingEntry(ls) + ListeningEntry(ls) == m + pr + rest;
  }

  /** Lines where only the check marker matches, and no line is a progress record. */
  lemma {:induction false} ParseOnlyCheck(ls: seq<string>)
    requires HasLine(ls, IsCheckLine) && !HasLine(ls, IsFinishedLine) && !HasLine(ls, IsProgressLine)
    requires !HasLine(ls, IsPullingLine) && !HasLine(ls, IsListeningLine)
    ensures ParseLines(ls) == Ok(LogStatus(false, [CheckMarker]))
  {
    assert LastProgress(ls) == None;
    CheckOnlyMarkers(ls);
    NoTrailingEntries(ls);
    ParseLinesOf(ls, false, [CheckMarker], [], []);
    assert [CheckMarker] + [] + [] == [CheckMarker];
  }

  /** Lines where a check is started and not finished, and line `k` is the last
      progress record; nothing else matches. */
  lemma {:induction false} ParseCheckAndProgress(ls: seq<string>, k: nat)
    requires HasLine(ls, IsCheckLine) && !HasLine(ls, IsFinishedLine)
    requires LastProgressAt(ls, k) && MatchProgress(ls[k]).value.max > 0
    requires !HasLine(ls, IsPullingLine) && !HasLine(ls, IsListeningLine)
    ensures ParseLines(ls) == Ok(LogStatus(false, [CheckMarker, ProgressText(MatchProgress(ls[k]).value)]))
  {
    ProgressEntryOf(ls, k);
    CheckOnlyMarkers(ls);
    NoTrailingEntries(ls);
    var t := ProgressText(MatchProgress(ls[k]).value);
    ParseLinesOf(ls, false, [CheckMarker], [t], []);
    assert [CheckMarker] + [t] + [] == [CheckMarker, t];
  }

  lemma {:induction false} NoLine3(a: string, b: string, c: string, p: string -> bool)
    requires !p(a) && !p(b) && !p(c)
    ensures !HasLine([a, b, c], p)
  {
  }

  lemma {:induction false} NoLine5(a: string, b: string, c: string, d: string, e: string, p: string -> bool)
    requires !p(a) && !p(b) && !p(c) && !p(d) && !p(e)
    ensures !HasLine([a, b, c, d, e], p)
  {
  }

  const WitnessLog := "2 x" + "\n" + CheckMarker + "\n" + "1 1 "

  lemma {:induction false} WitnessLogLines()
    ensures Lines(WitnessLog) == ["2 x", CheckMarker, "1 1 "]
    ensures Lines(WitnessLog + WitnessLog) == ["2 x", CheckMarker, "1 1 2 x", CheckMarker, "1 1 "]
  {
    WitnessSingleLines();
    WitnessDoubleLines();
  }

  lemma {:induction false} WitnessPiecesOneLine()
    ensures Excludes("2 x", '\n') && Excludes("1 1 ", '\n') && Excludes("1 1 2 x", '\n')
    ensures Excludes(CheckMarker, '\n')
  {
  }

  lemma {:induction false} WitnessSingleLines()
    ensures Lines(WitnessLog) == ["2 x", CheckMarker, "1 1 "]
  {
    WitnessPiecesOneLine();
    SplitThree("2 x", CheckMarker, "1 1 ");
  }

  lemma {:induction false} WitnessDoubleLines()
    ensures Lines(WitnessLog + WitnessLog) == ["2 x", CheckMarker, "1 1 2 x", CheckMarker, "1 1 "]
  {
    WitnessPiecesOneLine();
    assert "1 1 " + "2 x" == "1 1 2 x";
    Doubled("2 x", CheckMarker, "1 1 ", "1 1 2 x");
    SplitFive("2 x", CheckMarker, "1 1 2 x", CheckMarker, "1 1 ");
  }

  /** Three lines written one after the other, the last one unterminated, and
      the same text written twice: the last line and the first one join. */
  lemma {:induction false} Doubled(x: string, y: string, z: string, w: string)
    requires w == z + x
    ensures (x + "\n" + y + "\n" + z) + (x + "\n" + y + "\n" + z)
         == x + "\n" + y + "\n" + w + "\n" + y + "\n" + z
  {
  }

  lemma {:induction false} SplitThree(x: string, y: string, z: string)
    requires Excludes(x, '\n') && Excludes(y, '\n') && Excludes(z, '\n')
    ensures Split(x + "\n" + y + "\n" + z, '\n') == [x, y, z]
  {
    SplitNone(z, '\n');
    SplitFirst(y, z, '\n');
    SplitFirst(x, y + "\n" + z, '\n');
    assert x + "\n" + y + "\n" + z == x + ['\n'] + (y + ['\n'] + z);
  }

  lemma {:induction false} SplitFive(x: string, y: string, z: string, v: string, w: string)
    requires Excludes(x, '\n') && Excludes(y, '\n') && Excludes(z, '\n')
    requires Excludes(v, '\n') && Excludes(w, '\n')
    ensures Split(x + "\n" + y + "\n" + z + "\n" + v + "\n" + w, '\n') == [x, y, z, v, w]
  {
    SplitThree(z, v, w);
    var t := z + "\n" + v + "\n" + w;
    SplitFirst(y, t, '\n');
    SplitFirst(x, y + "\n" + t, '\n');
    assert x + "\n" + y + "\n" + z + "\n" + v + "\n" + w == x + ['\n'] + (y + ['\n'] + t);
  }

  /** Written twice without a final newline, `2 x`, the check marker, `1 1 `
      becomes a log in which `1 1 ` and `2 x` join into the progress record
      `1 1 2 x`: the duplicated log reports progress that the log itself does not. */
  lemma {:induction false} DuplicatedLogWithoutFinalNewline()
    ensures GetStatusFromLog(WitnessLog) == Ok(LogStatus(false, [CheckMarker]))
    ensures GetStatusFromLog(WitnessLog + WitnessLog)
         == Ok(LogStatus(false, [CheckMarker, ProgressText(Progress(1, 1, 2))]))
  {
    WitnessSingle();
    WitnessDouble();
  }

  lemma {:induction false} WitnessSingle()
    ensures GetStatusFromLog(WitnessLog) == Ok(LogStatus(false, [CheckMarker]))
  {
    WitnessSingleLines();
    TwoXLine();
    OneOneLine();
    CheckMarkerLine();
    ParseThree("2 x", CheckMarker, "1 1 ");
  }

  /** A check line between two lines that match nothing. */
  lemma {:induction false} ParseThree(a: string, b: string, c: string)
    requires NoPattern(a) && NoPattern(c)
    requires IsCheckLine(b) && !IsFinishedLine(b) && !IsProgressLine(b) && !IsPullingLine(b) && !IsListeningLine(b)
    ensures ParseLines([a, b, c]) == Ok(LogStatus(false, [CheckMarker]))
  {
    var ls := [a, b, c];
    assert IsCheckLine(ls[1]);
    NoLine3(a, b, c, IsFinishedLine);
    NoLine3(a, b, c, IsProgressLine);
    NoLine3(a, b, c, IsPullingLine);
    NoLine3(a, b, c, IsListeningLine);
    ParseOnlyCheck(ls);
  }

  lemma {:induction false} LastProgressAtMiddle(a: string, b: string, c: string, d: string, e: string)
    requires IsProgressLine(c) && !IsProgressLine(d) && !IsProgressLine(e)
    ensures LastProgressAt([a, b, c, d, e], 2)
  {
    LastAtMiddle(a, b, c, d, e, IsProgressLine);
  }

  lemma {:induction false} LastAtMiddle(a: string, b: string, c: string, d: string, e: string, p: string -> bool)
    requires p(c) && !p(d) && !p(e)
    ensures LastAt([a, b, c, d, e], p, 2)
  {
    var ls := [a, b, c, d, e];
    assert ls[2] == c && ls[3] == d && ls[4] == e;
  }

  lemma {:induction false} WitnessDouble()
    ensures GetStatusFromLog(WitnessLog + WitnessLog)
         == Ok(LogStatus(false, [CheckMarker, ProgressText(Progress(1, 1, 2))]))
  {
    WitnessDoubleLines();
    TwoXLine();
    OneOneLine();
    CheckMarkerLine();
    ShortLine("1 1 2 x");
    ProgressWitness();
    ParseFive("2 x", CheckMarker, "1 1 2 x", "1 1 ");
  }

  /** A check line, a progress record, the check line again, framed by lines
      that match nothing. */
  lemma {:induction false} ParseFive(a: string, b: string, c: string, e: string)
    requires NoPattern(a) && NoPattern(e)
    requires IsCheckLine(b) && !IsFinishedLine(b) && !IsProgressLine(b) && !IsPullingLine(b) && !IsListeningLine(b)
    requires !IsCheckLine(c) && !IsFinishedLine(c) && !IsPullingLine(c) && !IsListeningLine(c)
    requires MatchProgress(c).Some? && MatchProgress(c).value.max > 0
    ensures ParseLines([a, b, c, b, e]) == Ok(LogStatus(false, [CheckMarker, ProgressText(MatchProgress(c).value)]))
  {
    var ls := [a, b, c, b, e];
    FiveLinesMatch(a, b, c, e);
    LastProgressAtMiddle(a, b, c, b, e);
    assert ls[2] == c;
    ParseCheckAndProgress(ls, 2);
  }

  lemma {:induction false} FiveLinesMatch(a: string, b: string, c: string, e: string)
    requires NoPattern(a) && NoPattern(e)
    requires IsCheckLine(b) && !IsFinishedLine(b) && !IsPullingLine(b) && !IsListeningLine(b)
    requires !IsFinishedLine(c) && !IsPullingLine(c) && !IsListeningLine(c)
    ensures HasLine([a, b, c, b, e], IsCheckLine) && !HasLine([a, b, c, b, e], IsFinishedLine)
    ensures !HasLine([a, b, c, b, e], IsPullingLine) && !HasLine([a, b, c, b, e], IsListeningLine)
  {
    assert [a, b, c, b, e][1] == b;
    NoLine5(a, b, c, b, e, IsFinishedLine);
    NoLine5(a, b, c, b, e, IsPullingLine);
    NoLine5(a, b, c, b, e, IsListeningLine);
  }
}
