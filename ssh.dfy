/** Keeping `~/.ssh/config` in step with the stored instance configurations:
    one marker-delimited section, rewritten in place, holding a `Host` entry
    per instance that points ssh at the instance's local tunnel port. */
module Ssh {
  import opened Wrappers
  import opened Text
  import opened Config

  // ---------------------------------------------------------------------------
  // The section's fixed text
  // ---------------------------------------------------------------------------

  const MarkerPrefix: string := "### AUTOMATICALLY ADDED BY HERMITCRAB "
  /** The line that opens the generated section. */
  const StartMarker: string := MarkerPrefix + "START ###" + "\n"
  /** The line that closes the generated section. */
  const EndMarker: string := MarkerPrefix + "END ###" + "\n"

  /** The comment at the head of the generated section (the second line keeps
      its trailing space). It is written in short pieces so that proofs can
      look at each piece on its own. */
  const Header: string :=
    "#\n# " + "This section may be rewritten " + "by 'hermit' so avoid making \n"
    + "# " + "manual edits here. They will be " + "lost next time hermit " + "updates this file.\n"
    + "#\n"

  /** No two `#` in a row: text in which the end marker cannot start. */
  predicate NoHashPair(s: string) {
    forall i :: 0 <= i < |s| - 1 ==> !(s[i] == '#' && s[i + 1] == '#')
  }

  lemma NoHashPairConcat(a: string, b: string)
    requires NoHashPair(a) && NoHashPair(b)
    requires a == [] || b == [] || a[|a| - 1] != '#' || b[0] != '#'
    ensures NoHashPair(a + b)
  {
    var s := a + b;
    forall i | 0 <= i < |s| - 1 ensures !(s[i] == '#' && s[i + 1] == '#') {
      if i + 1 < |a| {
        assert s[i] == a[i] && s[i + 1] == a[i + 1];
      } else if i >= |a| {
        assert s[i] == b[i - |a|] && s[i + 1] == b[i + 1 - |a|];
      }
    }
  }

  lemma ExcludesHashNoPair(s: string)
    requires Excludes(s, '#')
    ensures NoHashPair(s)
  {
  }

  /** Both markers are single lines. */
  lemma MarkersAreLines()
    ensures NewlineOnlyAtEnd(StartMarker) && NewlineOnlyAtEnd(EndMarker)
  {
    assert Excludes("### AUTOMATICALLY ", '\n');
    assert Excludes("ADDED BY HERMITCRAB ", '\n');
    ExcludesConcat("### AUTOMATICALLY ", "ADDED BY HERMITCRAB ", '\n');
    assert Excludes("START ###", '\n') && Excludes("END ###", '\n');
    ExcludesConcat(MarkerPrefix, "START ###", '\n');
    LineEnds(MarkerPrefix + "START ###");
    ExcludesConcat(MarkerPrefix, "END ###", '\n');
    LineEnds(MarkerPrefix + "END ###");
  }

  /** The end marker does not occur inside the start marker. */
  lemma StartMarkerLacksEnd()
    ensures !Contains(StartMarker, EndMarker)
  {
    MarkersAreLines();
    assert |StartMarker| == 48 && |EndMarker| == 46;
    assert EndMarker[45] == '\n' && EndMarker[1] == '#' && StartMarker[3] == ' ';
    forall j ensures !OccursAt(StartMarker, EndMarker, j) {
      if 0 <= j && j + |EndMarker| <= |StartMarker| {
        var w := StartMarker[j..j + |EndMarker|];
        if j < 2 {
          assert w[45] == StartMarker[..47][j + 45];
        } else {
          assert w[1] == StartMarker[3];
        }
      }
    }
  }

  /** A piece without `#` can follow text without two `#` in a row. */
  lemma AppendHashFree(a: string, b: string)
    requires NoHashPair(a) && Excludes(b, '#')
    ensures NoHashPair(a + b)
  {
    NoHashPairConcat(a, b);
  }

  /** The header cannot hold the start of an end marker. */
  lemma HeaderNoHashPair()
    ensures NoHashPair(Header)
  {
    var a0 := "#\n# ";
    assert NoHashPair(a0);
    assert Excludes("This section may be rewritten ", '#');
    AppendHashFree(a0, "This section may be rewritten ");
    var a1 := a0 + "This section may be rewritten ";
    assert Excludes("by 'hermit' so avoid making \n", '#');
    AppendHashFree(a1, "by 'hermit' so avoid making \n");
    var a2 := a1 + "by 'hermit' so avoid making \n";
    NoHashPairConcat(a2, "# ");
    var a3 := a2 + "# ";
    assert Excludes("manual edits here. They will be ", '#');
    AppendHashFree(a3, "manual edits here. They will be ");
    var a4 := a3 + "manual edits here. They will be ";
    assert Excludes("lost next time hermit ", '#');
    AppendHashFree(a4, "lost next time hermit ");
    var a5 := a4 + "lost next time hermit ";
    assert Excludes("updates this file.\n", '#');
    AppendHashFree(a5, "updates this file.\n");
    var a6 := a5 + "updates this file.\n";
    NoHashPairConcat(a6, "#\n");
  }

  /** Text without two `#` in a row holds no end marker. */
  lemma NoHashPairLacksEnd(s: string)
    requires NoHashPair(s)
    ensures !Contains(s, EndMarker)
  {
    assert EndMarker[0] == '#' && EndMarker[1] == '#';
    forall j ensures !OccursAt(s, EndMarker, j) {
      if 0 <= j && j + |EndMarker| <= |s| {
        var w := s[j..j + |EndMarker|];
        assert w[0] == s[j] && w[1] == s[j + 1];
      }
    }
  }

  // ---------------------------------------------------------------------------
  // remove_section
  // ---------------------------------------------------------------------------

  /** `remove_section`: text without the start marker comes back unchanged;
      otherwise the text from the first start marker up to the end of the
      first end marker is cut out. A missing end marker is the ValueError
      `str.index` raises (None). */
  function RemoveSection(content: string, startMarker: string, endMarker: string): (r: Option<string>)
    ensures !Contains(content, startMarker) ==> r == Some(content)
    ensures Contains(content, startMarker) ==> (r.Some? <==> Contains(content, endMarker))
  {
    match Find(content, startMarker)
    case None => Some(content)
    case Some(s) =>
      match Find(content, endMarker)
      case None => None
      case Some(e) => Some(content[..s] + content[e + |endMarker|..])
  }

  lemma RemoveSectionFound(content: string, startMarker: string, endMarker: string, s: nat, e: nat)
    requires Find(content, startMarker) == Some(s) && Find(content, endMarker) == Some(e)
    ensures RemoveSection(content, startMarker, endMarker) == Some(content[..s] + content[e + |endMarker|..])
  {
  }

  /** A marker found at the very start of a text is its first occurrence. */
  lemma FindAtStart(t: string, m: string)
    requires StartsWith(t, m)
    ensures Find(t, m) == Some(0)
  {
    assert OccursAt(t, m, 0);
  }

  /** The start marker of a section appended to `c` is found where `c` ends. */
  lemma FindAppendedStart(c: string, startMarker: string, rest: string)
    requires NewlineOnlyAtEnd(startMarker)
    requires c == [] || c[|c| - 1] == '\n'
    requires !Contains(c, startMarker)
    ensures Find(c + (startMarker + rest), startMarker) == Some(|c|)
  {
    FindAtStart(startMarker + rest, startMarker);
    FindAppend(c, startMarker + rest, startMarker);
  }

  /** The end marker that closes a section appended to `c` is the first one. */
  lemma FindAppendedEnd(c: string, startMarker: string, body: string, endMarker: string)
    requires NewlineOnlyAtEnd(startMarker) && NewlineOnlyAtEnd(endMarker) && !Contains(startMarker, endMarker)
    requires c == [] || c[|c| - 1] == '\n'
    requires !Contains(c, endMarker)
    requires !Contains(body, endMarker) && (body == [] || body[|body| - 1] == '\n')
    ensures Find(c + (startMarker + (body + endMarker)), endMarker) == Some(|c| + |startMarker| + |body|)
  {
    FindAtStart(endMarker, endMarker);
    FindAppend(body, endMarker, endMarker);
    FindAppend(startMarker, body + endMarker, endMarker);
    FindAppend(c, startMarker + (body + endMarker), endMarker);
  }

  lemma SpliceAppended(c: string, t: string, e: nat, m: string)
    requires e + |m| == |c + t|
    ensures (c + t)[..|c|] + (c + t)[e + |m|..] == c
  {
    assert (c + t)[..|c|] == c;
  }

  /** Removing a section that was appended to `c` gives `c` back, when `c`
      ends a line (or is empty) and holds neither marker, and the section's
      body holds no end marker. */
  lemma RemoveAppended(c: string, startMarker: string, body: string, endMarker: string)
    requires NewlineOnlyAtEnd(startMarker) && NewlineOnlyAtEnd(endMarker) && !Contains(startMarker, endMarker)
    requires c == [] || c[|c| - 1] == '\n'
    requires !Contains(c, startMarker) && !Contains(c, endMarker)
    requires !Contains(body, endMarker) && (body == [] || body[|body| - 1] == '\n')
    ensures RemoveSection(c + startMarker + body + endMarker, startMarker, endMarker) == Some(c)
  {
    var t := startMarker + (body + endMarker);
    assert c + startMarker + body + endMarker == c + t;
    FindAppendedStart(c, startMarker, body + endMarker);
    FindAppendedEnd(c, startMarker, body, endMarker);
    var e := |c| + |startMarker| + |body|;
    RemoveSectionFound(c + t, startMarker, endMarker, |c|, e);
    SpliceAppended(c, t, e, endMarker);
  }

  /** The same for hermit's own markers, around a body without two `#` in a row. */
  lemma RemoveAppendedSection(c: string, body: string)
    requires c == [] || c[|c| - 1] == '\n'
    requires !Contains(c, StartMarker) && !Contains(c, EndMarker)
    requires NoHashPair(body) && (body == [] || body[|body| - 1] == '\n')
    ensures RemoveSection(c + StartMarker + body + EndMarker, StartMarker, EndMarker) == Some(c)
  {
    MarkersAreLines();
    StartMarkerLacksEnd();
    NoHashPairLacksEnd(body);
    RemoveAppended(c, StartMarker, body, EndMarker);
  }

  // ---------------------------------------------------------------------------
  // The hosts: one per name, the last configuration given for it, by name
  // ---------------------------------------------------------------------------

  predicate NameIn(name: string, cs: seq<InstanceConfig>) {
    exists k :: 0 <= k < |cs| && cs[k].name == name
  }

  /** `{c.name: c for c in configs}`: for each name, the last configuration
      given with it. */
  function LastByName(cs: seq<InstanceConfig>): seq<InstanceConfig>
    decreases |cs|
  {
    if cs == [] then []
    else if NameIn(cs[0].name, cs[1..]) then LastByName(cs[1..])
    else [cs[0]] + LastByName(cs[1..])
  }

  /** The names kept are exactly the names given. */
  lemma {:induction false} LastByNameNames(cs: seq<InstanceConfig>)
    ensures forall name :: NameIn(name, LastByName(cs)) <==> NameIn(name, cs)
    decreases |cs|
  {
    if cs != [] {
      var rest := cs[1..];
      LastByNameNames(rest);
      forall name ensures NameIn(name, cs) <==> NameIn(name, rest) || name == cs[0].name {
        if NameIn(name, rest) {
          var k :| 0 <= k < |rest| && rest[k].name == name;
          assert cs[k + 1].name == name;
        }
        if NameIn(name, cs) && name != cs[0].name {
          var k :| 0 <= k < |cs| && cs[k].name == name;
          assert rest[k - 1].name == name;
        }
      }
      if !NameIn(cs[0].name, rest) {
        var r := LastByName(cs);
        assert r == [cs[0]] + LastByName(rest);
        assert r[0].name == cs[0].name;
        forall name | NameIn(name, LastByName(rest)) ensures NameIn(name, r) {
          var k :| 0 <= k < |LastByName(rest)| && LastByName(rest)[k].name == name;
          assert r[k + 1].name == name;
        }
        forall name | NameIn(name, r) && name != cs[0].name ensures NameIn(name, LastByName(rest)) {
          var k :| 0 <= k < |r| && r[k].name == name;
          assert LastByName(rest)[k - 1].name == name;
        }
      }
    }
  }

  /** The configuration kept for a name is the one given last under it. */
  predicate IsLastOfName(c: InstanceConfig, cs: seq<InstanceConfig>) {
    exists k :: 0 <= k < |cs| && cs[k] == c && !NameIn(c.name, cs[k + 1..])
  }

  lemma {:induction false} LastByNameEntries(cs: seq<InstanceConfig>)
    ensures forall c :: c in LastByName(cs) <==> IsLastOfName(c, cs)
    decreases |cs|
  {
    if cs != [] {
      var rest := cs[1..];
      LastByNameEntries(rest);
      forall c ensures IsLastOfName(c, cs) <==> (c == cs[0] && !NameIn(c.name, rest)) || IsLastOfName(c, rest) {
        if IsLastOfName(c, cs) {
          var k :| 0 <= k < |cs| && cs[k] == c && !NameIn(c.name, cs[k + 1..]);
          if k > 0 {
            assert rest[k - 1] == c && rest[k..] == cs[k + 1..];
          }
        }
        if IsLastOfName(c, rest) {
          var k :| 0 <= k < |rest| && rest[k] == c && !NameIn(c.name, rest[k + 1..]);
          assert cs[k + 1] == c && cs[k + 2..] == rest[k + 1..];
        }
        if c == cs[0] && !NameIn(c.name, rest) {
          assert cs[1..] == rest;
        }
      }
    }
  }

  /** No name is kept twice. */
  lemma {:induction false} LastByNameUnique(cs: seq<InstanceConfig>)
    ensures forall i, j :: 0 <= i < j < |LastByName(cs)| ==> LastByName(cs)[i].name != LastByName(cs)[j].name
    decreases |cs|
  {
    if cs != [] {
      var rest := cs[1..];
      LastByNameUnique(rest);
      var r := LastByName(cs);
      if !NameIn(cs[0].name, rest) {
        LastByNameNames(rest);
        assert r == [cs[0]] + LastByName(rest);
        forall i, j | 0 <= i < j < |r| ensures r[i].name != r[j].name {
          if i == 0 {
            assert r[j] == LastByName(rest)[j - 1];
            assert NameIn(r[j].name, LastByName(rest));
          } else {
            assert r[i] == LastByName(rest)[i - 1] && r[j] == LastByName(rest)[j - 1];
          }
        }
      }
    }
  }

  /** Names in strictly increasing order, as `sorted(..., key=name)` leaves
      entries whose names are distinct. */
  predicate SortedByName(hs: seq<InstanceConfig>) {
    forall i, j :: 0 <= i < j < |hs| ==> Lt(hs[i].name, hs[j].name)
  }

  /** Inserts `c` before the first entry whose name is greater. */
  function Insert(c: InstanceConfig, hs: seq<InstanceConfig>): seq<InstanceConfig>
    decreases |hs|
  {
    if hs == [] then [c]
    else if Lt(c.name, hs[0].name) then [c] + hs
    else [hs[0]] + Insert(c, hs[1..])
  }

  function SortByName(cs: seq<InstanceConfig>): seq<InstanceConfig>
    decreases |cs|
  {
    if cs == [] then [] else Insert(cs[0], SortByName(cs[1..]))
  }

  lemma {:induction false} InsertEntries(c: InstanceConfig, hs: seq<InstanceConfig>)
    ensures multiset(Insert(c, hs)) == multiset(hs) + multiset{c}
    decreases |hs|
  {
    if hs != [] && !Lt(c.name, hs[0].name) {
      InsertEntries(c, hs[1..]);
      assert hs == [hs[0]] + hs[1..];
    }
  }

  /** An entry below every entry of a sorted sequence can go in front of it. */
  lemma ConsSorted(h: InstanceConfig, r: seq<InstanceConfig>)
    requires SortedByName(r)
    requires forall x :: x in r ==> Lt(h.name, x.name)
    ensures SortedByName([h] + r)
  {
    var s := [h] + r;
    forall i, j | 0 <= i < j < |s| ensures Lt(s[i].name, s[j].name) {
      if i == 0 {
        assert s[j] == r[j - 1] && r[j - 1] in r;
      } else {
        assert s[i] == r[i - 1] && s[j] == r[j - 1];
      }
    }
  }

  lemma {:induction false} InsertSorted(c: InstanceConfig, hs: seq<InstanceConfig>)
    requires SortedByName(hs)
    requires forall k :: 0 <= k < |hs| ==> hs[k].name != c.name
    ensures SortedByName(Insert(c, hs))
    decreases |hs|
  {
    if hs != [] {
      if Lt(c.name, hs[0].name) {
        forall x | x in hs ensures Lt(c.name, x.name) {
          var k :| 0 <= k < |hs| && hs[k] == x;
          if k > 0 {
            LtTransitive(c.name, hs[0].name, hs[k].name);
          }
        }
        ConsSorted(c, hs);
      } else {
        LtTotal(c.name, hs[0].name);
        var tail := hs[1..];
        InsertSorted(c, tail);
        InsertEntries(c, tail);
        var r := Insert(c, tail);
        forall x | x in r ensures Lt(hs[0].name, x.name) {
          assert x in multiset(r);
          if x != c {
            assert x in multiset(tail);
            var k :| 0 <= k < |tail| && tail[k] == x;
            assert hs[k + 1] == x;
          }
        }
        ConsSorted(hs[0], r);
      }
    }
  }

  /** Rearranging entries brings in no new name. */
  lemma SameEntriesLackName(st: seq<InstanceConfig>, tail: seq<InstanceConfig>, n: string)
    requires multiset(st) == multiset(tail)
    requires forall m :: 0 <= m < |tail| ==> tail[m].name != n
    ensures forall k :: 0 <= k < |st| ==> st[k].name != n
  {
    forall k | 0 <= k < |st| ensures st[k].name != n {
      assert st[k] in multiset(tail);
      var m :| 0 <= m < |tail| && tail[m] == st[k];
    }
  }

  /** Sorting distinct names yields them in increasing order, and the same
      entries. */
  lemma {:induction false} SortByNameSorted(cs: seq<InstanceConfig>)
    requires forall i, j :: 0 <= i < j < |cs| ==> cs[i].name != cs[j].name
    ensures SortedByName(SortByName(cs))
    ensures multiset(SortByName(cs)) == multiset(cs)
    decreases |cs|
  {
    if cs != [] {
      var tail := cs[1..];
      SortByNameSorted(tail);
      var st := SortByName(tail);
      assert forall m :: 0 <= m < |tail| ==> tail[m].name != cs[0].name by {
        forall m | 0 <= m < |tail| ensures tail[m].name != cs[0].name {
          assert tail[m] == cs[m + 1];
        }
      }
      SameEntriesLackName(st, tail, cs[0].name);
      InsertSorted(cs[0], st);
      InsertEntries(cs[0], st);
      assert cs == [cs[0]] + tail;
    }
  }

  /** The instances the section lists: one per name, sorted by name. */
  function Hosts(configs: seq<InstanceConfig>): seq<InstanceConfig> {
    SortByName(LastByName(configs))
  }

  /** The section lists each name given exactly once, in increasing order of
      name, with the configuration given last under that name. */
  lemma HostsSpec(configs: seq<InstanceConfig>)
    ensures SortedByName(Hosts(configs))
    ensures forall c :: c in Hosts(configs) <==> IsLastOfName(c, configs)
    ensures forall name :: NameIn(name, Hosts(configs)) <==> NameIn(name, configs)
  {
    LastByNameUnique(configs);
    LastByNameEntries(configs);
    LastByNameNames(configs);
    SortByNameSorted(LastByName(configs));
    var l, h := LastByName(configs), Hosts(configs);
    forall c ensures c in h <==> c in l {
      assert c in h <==> c in multiset(h);
      assert c in l <==> c in multiset(l);
    }
    forall name ensures NameIn(name, h) <==> NameIn(name, l) {
      if NameIn(name, h) {
        var k :| 0 <= k < |h| && h[k].name == name;
        assert h[k] in l;
        var m :| 0 <= m < |l| && l[m] == h[k];
      }
      if NameIn(name, l) {
        var k :| 0 <= k < |l| && l[k].name == name;
        assert l[k] in h;
        var m :| 0 <= m < |h| && h[m] == l[k];
      }
    }
  }

  // ---------------------------------------------------------------------------
  // The section and the new file content
  // ---------------------------------------------------------------------------

  /** The entry for one instance: ssh to the instance's name reaches the
      tunnel's local port as user `ubuntu`, without host key checks. */
  function HostBlock(c: InstanceConfig): string {
    "Host " + c.name + "\n   Hostname localhost" + "\n   User ubuntu\n   Port " + IntToString(c.localPort)
    + "\n   UserKnownHostsFile /dev/null" + "\n   StrictHostKeyChecking no\n\n"
  }

  /** The entries of `hs`, in order. */
  function Blocks(hs: seq<InstanceConfig>): string
    decreases |hs|
  {
    if hs == [] then "" else Blocks(hs[..|hs| - 1]) + HostBlock(hs[|hs| - 1])
  }

  /** The marker-delimited section for the hosts `hs`; none when there are no hosts. */
  function Section(hs: seq<InstanceConfig>): string {
    if hs == [] then "" else StartMarker + Header + Blocks(hs) + EndMarker
  }

  /** Ensures the kept text ends a line before the section is appended:
      text that does not end with a newline gets one. */
  function EnsureFinalNewline(c: string): (r: string)
    ensures StartsWith(r, c)
    ensures r == [] || r[|r| - 1] == '\n'
    ensures |r| <= |c| + 1
  {
    if c != "" && !EndsWith(c, "\n") then c + "\n" else c
  }

  /** The same step as written: text that does not end with a newline is
      replaced by a lone newline. */
  function EnsureFinalNewlineAsWritten(c: string): string {
    if c != "" && !EndsWith(c, "\n") then "\n" else c
  }

  /** The text kept from the current file: the file without its section,
      ending a line; None when a start marker has no end marker. */
  function UserText(existing: string): Option<string> {
    match RemoveSection(existing, StartMarker, EndMarker)
    case None => None
    case Some(c) => Some(EnsureFinalNewline(c))
  }

  /** The new content `update_ssh_config` writes, given the current file's
      text (empty when there is no file). */
  function SshConfigText(existing: string, configs: seq<InstanceConfig>): Option<string> {
    match UserText(existing)
    case None => None
    case Some(u) => Some(u + Section(Hosts(configs)))
  }

  /** The new content with the newline step as written. */
  function SshConfigTextAsWritten(existing: string, configs: seq<InstanceConfig>): Option<string> {
    match RemoveSection(existing, StartMarker, EndMarker)
    case None => None
    case Some(c) => Some(EnsureFinalNewlineAsWritten(c) + Section(Hosts(configs)))
  }

  /** As written, a configuration file whose last line has no newline loses
      all of its own text when the section is added. */
  lemma NewlineStepAsWrittenLosesText()
    ensures SshConfigTextAsWritten("Host x", []) == Some("\n")
    ensures SshConfigText("Host x", []) == Some("Host x\n")
  {
    assert |StartMarker| == 48;
    assert Find("Host x", StartMarker) == None;
    assert RemoveSection("Host x", StartMarker, EndMarker) == Some("Host x");
    assert !EndsWith("Host x", "\n");
    assert Hosts([]) == [];
    assert Section(Hosts([])) == "";
    assert EnsureFinalNewlineAsWritten("Host x") + "" == "\n";
    assert EnsureFinalNewline("Host x") + "" == "Host x\n";
  }

  /** Everything of the current file outside the section is kept, in front
      of the new section. */
  lemma SshConfigTextKeepsUserText(existing: string, configs: seq<InstanceConfig>)
    requires RemoveSection(existing, StartMarker, EndMarker).Some?
    ensures SshConfigText(existing, configs).Some?
    ensures StartsWith(SshConfigText(existing, configs).value, RemoveSection(existing, StartMarker, EndMarker).value)
  {
    var c := RemoveSection(existing, StartMarker, EndMarker).value;
    var u := EnsureFinalNewline(c);
    assert UserText(existing) == Some(u);
    var out := u + Section(Hosts(configs));
    assert SshConfigText(existing, configs) == Some(out);
    assert out[..|u|] == u;
    assert out[..|c|] == u[..|c|] == c;
  }

  /** A section is appended exactly when there are instances: with none, the
      new content is the kept text alone. */
  lemma SectionOnlyWithInstances(existing: string, configs: seq<InstanceConfig>)
    requires UserText(existing).Some?
    ensures SshConfigText(existing, configs) == UserText(existing) <==> configs == []
  {
    var u := UserText(existing).value;
    if configs == [] {
      assert Section(Hosts(configs)) == "";
      assert u + "" == u;
    } else {
      HostsSpec(configs);
      assert NameIn(configs[0].name, configs);
      assert Hosts(configs) != [];
      assert |u + Section(Hosts(configs))| > |u|;
    }
  }

  lemma IntToStringHashFree(i: int)
    ensures Excludes(IntToString(i), '#')
  {
    if i < 0 {
      var d := NatToString(-i);
      assert IntToString(i) == "-" + d;
      assert forall k :: 0 <= k < |d| ==> IsDigit(d[k]);
    }
  }

  /** An entry holds no `#` when the instance's name holds none, and it ends a line. */
  lemma HostBlockHashFree(c: InstanceConfig)
    requires Excludes(c.name, '#')
    ensures Excludes(HostBlock(c), '#')
    ensures HostBlock(c)[|HostBlock(c)| - 1] == '\n'
  {
    var p0, p1, p2, p3, p4 := "Host ", "\n   Hostname localhost", "\n   User ubuntu\n   Port ",
                              "\n   UserKnownHostsFile /dev/null", "\n   StrictHostKeyChecking no\n\n";
    assert Excludes(p0, '#');
    assert Excludes(p1, '#');
    assert Excludes(p2, '#');
    assert Excludes(p3, '#');
    assert Excludes(p4, '#');
    IntToStringHashFree(c.localPort);
    ExcludesConcat(p0, c.name, '#');
    ExcludesConcat(p0 + c.name, p1, '#');
    ExcludesConcat(p0 + c.name + p1, p2, '#');
    ExcludesConcat(p0 + c.name + p1 + p2, IntToString(c.localPort), '#');
    ExcludesConcat(p0 + c.name + p1 + p2 + IntToString(c.localPort), p3, '#');
    ExcludesConcat(p0 + c.name + p1 + p2 + IntToString(c.localPort) + p3, p4, '#');
  }

  /** Instance names without `#`. */
  predicate NamesHashFree(hs: seq<InstanceConfig>) {
    forall k :: 0 <= k < |hs| ==> Excludes(hs[k].name, '#')
  }

  lemma {:induction false} BlocksHashFree(hs: seq<InstanceConfig>)
    requires NamesHashFree(hs)
    ensures Excludes(Blocks(hs), '#')
    ensures Blocks(hs) == [] || Blocks(hs)[|Blocks(hs)| - 1] == '\n'
    decreases |hs|
  {
    if hs != [] {
      BlocksHashFree(hs[..|hs| - 1]);
      HostBlockHashFree(hs[|hs| - 1]);
      ExcludesConcat(Blocks(hs[..|hs| - 1]), HostBlock(hs[|hs| - 1]), '#');
    }
  }

  lemma HostsNamesHashFree(configs: seq<InstanceConfig>)
    requires NamesHashFree(configs)
    ensures NamesHashFree(Hosts(configs))
  {
    HostsSpec(configs);
    forall k | 0 <= k < |Hosts(configs)| ensures Excludes(Hosts(configs)[k].name, '#') {
      var c := Hosts(configs)[k];
      assert c in Hosts(configs);
      var m :| 0 <= m < |configs| && configs[m] == c && !NameIn(c.name, configs[m + 1..]);
    }
  }

  /** The section written after the kept text is exactly what the next
      update removes. */
  lemma SectionRemoved(u: string, hs: seq<InstanceConfig>)
    requires u == [] || u[|u| - 1] == '\n'
    requires !Contains(u, StartMarker) && !Contains(u, EndMarker)
    requires NamesHashFree(hs)
    ensures RemoveSection(u + Section(hs), StartMarker, EndMarker) == Some(u)
  {
    if hs == [] {
      assert u + Section(hs) == u;
    } else {
      BlocksHashFree(hs);
      HeaderNoHashPair();
      ExcludesHashNoPair(Blocks(hs));
      NoHashPairConcat(Header, Blocks(hs));
      var body := Header + Blocks(hs);
      assert body[|body| - 1] == '\n';
      RemoveAppendedSection(u, body);
      Regroup(u, StartMarker, Header, Blocks(hs), EndMarker);
    }
  }

  lemma Regroup(u: string, a: string, b: string, c: string, d: string)
    ensures u + (a + b + c + d) == u + a + (b + c) + d
  {
  }

  /** The text kept from the update's own output is the text kept before. */
  lemma UserTextOfOutput(u: string, hs: seq<InstanceConfig>)
    requires u == [] || u[|u| - 1] == '\n'
    requires !Contains(u, StartMarker) && !Contains(u, EndMarker)
    requires NamesHashFree(hs)
    ensures UserText(u + Section(hs)) == Some(u)
  {
    SectionRemoved(u, hs);
    assert u == [] || EndsWith(u, "\n") by {
      if u != [] {
        assert u[|u| - 1..] == "\n";
      }
    }
  }

  /** Running the update on its own output changes nothing, provided the
      text kept from the file holds no marker and no instance name holds a
      `#` (which could otherwise spell an end marker inside the section). */
  lemma SshConfigTextIdempotent(existing: string, configs: seq<InstanceConfig>)
    requires UserText(existing).Some?
    requires !Contains(UserText(existing).value, StartMarker) && !Contains(UserText(existing).value, EndMarker)
    requires NamesHashFree(configs)
    ensures SshConfigText(existing, configs).Some?
    ensures SshConfigText(SshConfigText(existing, configs).value, configs) == SshConfigText(existing, configs)
  {
    var u := UserText(existing).value;
    HostsNamesHashFree(configs);
    UserTextOfOutput(u, Hosts(configs));
  }

  // ---------------------------------------------------------------------------
  // replace_if_changed and update_ssh_config
  // ---------------------------------------------------------------------------

  /** A file's text, or `""` for a file that does not exist, as both
      `replace_if_changed` and `update_ssh_config` read it. */
  function ReadText(files: map<string, string>, path: string): string {
    if path in files then files[path] else ""
  }

  /** The backup's name: the path, a dot and the whole seconds of the clock. */
  function BackupName(path: string, now: int): (b: string)
    ensures b != path
  {
    path + "." + IntToString(now)
  }

  /** The files after `replace_if_changed(path, content)` at time `now`:
      nothing happens when the text is already `content` (a missing file
      counts as empty); otherwise an existing file is first copied to its
      backup, then `path` holds `content`. */
  function Replaced(files: map<string, string>, path: string, content: string, now: int): map<string, string> {
    if ReadText(files, path) == content then files
    else if path in files then files[BackupName(path, now) := files[path]][path := content]
    else files[path := content]
  }

  /** After the replacement, the file reads as the new content; an existing
      file's previous text survives in the backup; no other file changes. */
  lemma ReplacedSpec(files: map<string, string>, path: string, content: string, now: int)
    ensures ReadText(Replaced(files, path, content, now), path) == content
    ensures path in files && files[path] != content ==>
      BackupName(path, now) in Replaced(files, path, content, now)
      && Replaced(files, path, content, now)[BackupName(path, now)] == files[path]
    ensures forall q :: q != path && q != BackupName(path, now) ==>
      (q in Replaced(files, path, content, now) <==> q in files)
      && (q in files ==> Replaced(files, path, content, now)[q] == files[q])
    ensures path !in files && content == "" ==> Replaced(files, path, content, now) == files
  {
  }

  /** Replacing twice with the same content is replacing once. */
  lemma ReplacedIdempotent(files: map<string, string>, path: string, content: string, now: int, later: int)
    ensures Replaced(Replaced(files, path, content, now), path, content, later) == Replaced(files, path, content, now)
  {
    ReplacedSpec(files, path, content, now);
  }

  /** The user's files, by path. */
  class Files {
    var contents: map<string, string>

    constructor (contents0: map<string, string>)
      ensures contents == contents0
    {
      contents := contents0;
    }

    function Read(path: string): string
      reads this
    {
      ReadText(contents, path)
    }

    /** `replace_if_changed`: returns the backup made, if any. The text is
        written to a temporary file that is then renamed over `path`, so
        no temporary file remains. */
    method ReplaceIfChanged(path: string, content: string, now: int) returns (backup: Option<string>)
      modifies this
      ensures contents == Replaced(old(contents), path, content, now)
      ensures backup.Some? <==> path in old(contents) && old(contents)[path] != content
      ensures backup.Some? ==> backup.value == BackupName(path, now)
    {
      var fileExisted := path in contents;
      var prev := if fileExisted then contents[path] else "";
      backup := None;
      if prev != content {
        if fileExisted {
          contents := contents[BackupName(path, now) := prev];
          backup := Some(BackupName(path, now));
        }
        contents := contents[path := content];
      }
    }
  }

  /** The header followed by one entry per host, built entry by entry as
      `update_ssh_config` collects them before joining. */
  method BuildSection(hosts: seq<InstanceConfig>) returns (section: string)
    ensures section == Header + Blocks(hosts)
  {
    var blocks := "";
    for i := 0 to |hosts|
      invariant blocks == Blocks(hosts[..i])
    {
      assert hosts[..i + 1][..i] == hosts[..i];
      blocks := blocks + HostBlock(hosts[i]);
    }
    assert hosts[..|hosts|] == hosts;
    section := Header + blocks;
  }

  /** Why `update_ssh_config` stops: a start marker without an end marker. */
  datatype SshError = MissingEndMarker

  /** `update_ssh_config(configs)` on the ssh configuration at `path`:
      removes the old section, makes the kept text end a line, appends a
      fresh section when there are instances, and replaces the file if that
      changed it. */
  method UpdateSshConfig(files: Files, path: string, configs: seq<InstanceConfig>, now: int)
    returns (r: Result<Option<string>, SshError>)
    modifies files
    ensures SshConfigText(old(files.Read(path)), configs).None? ==>
      r == Err(MissingEndMarker) && files.contents == old(files.contents)
    ensures SshConfigText(old(files.Read(path)), configs).Some? ==>
      r.Ok? && files.contents == Replaced(old(files.contents), path, SshConfigText(old(files.Read(path)), configs).value, now)
  {
    var hosts := Hosts(configs);
    ghost var existing := files.Read(path);
    var removed := RemoveSection(files.Read(path), StartMarker, EndMarker);
    if removed.None? {
      return Err(MissingEndMarker);
    }
    var content := removed.value;
    if content != "" && !EndsWith(content, "\n") {
      content := content + "\n";
    }
    ghost var u := content;
    assert UserText(existing) == Some(u);
    if |hosts| > 0 {
      var section := BuildSection(hosts);
      Regroup(u, StartMarker, Header, Blocks(hosts), EndMarker);
      content := content + StartMarker + section + EndMarker;
      assert content == u + Section(hosts);
    } else {
      assert content == u + Section(hosts);
    }
    assert SshConfigText(existing, configs) == Some(content);
    var backup := files.ReplaceIfChanged(path, content, now);
    return Ok(backup);
  }
}
