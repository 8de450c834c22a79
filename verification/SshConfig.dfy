/**
  cli/configssh.go: the section that `coder config-ssh` manages inside a user's SSH config.
  File contents are sequences of bytes, written here as characters.
*/
module SshConfig {
  import opened Wrappers

  const START := "# ------------START-CODER-----------"
  const END := "# ------------END-CODER------------"
  const OPTION_KEY := "ssh-option"

  /** bufio.MaxScanTokenSize: a line this long makes the scanner fail. */
  const MAX_TOKEN := 65536

  // ---- bytes.Index ----

  ghost predicate OccursAt(data: string, tok: string, i: int) {
    0 <= i && i + |tok| <= |data| && data[i..i + |tok|] == tok
  }

  ghost predicate Absent(data: string, tok: string) {
    forall i :: !OccursAt(data, tok, i)
  }

  function IndexFrom(data: string, tok: string, i: nat): (r: int)
    requires i <= |data|
    ensures r == -1 || (i <= r && OccursAt(data, tok, r))
    ensures forall j :: i <= j && OccursAt(data, tok, j) ==> 0 <= r <= j
    decreases |data| - i
  {
    if i + |tok| > |data| then -1
    else if data[i..i + |tok|] == tok then i
    else if i == |data| then -1
    else IndexFrom(data, tok, i + 1)
  }

  /** The first place tok occurs, or -1. */
  function Index(data: string, tok: string): (r: int)
    ensures r == -1 <==> Absent(data, tok)
    ensures r != -1 ==> OccursAt(data, tok, r)
    ensures forall j :: OccursAt(data, tok, j) ==> 0 <= r <= j
  {
    IndexFrom(data, tok, 0)
  }

  // ---- splitting and extracting ----

  /** sshConfigSplitOnCoderSection: the bytes before and after the section. */
  function Split(data: string): (string, string) {
    var startIndex, endIndex := Index(data, START), Index(data, END);
    if startIndex != -1 && endIndex != -1 then
      var start := if startIndex > 0 then startIndex - 1 else startIndex;
      var end := endIndex + |END|;
      var end' := if end < |data| then end + 1 else end;
      (data[..start], data[end'..])
    else (data, "")
  }

  /** `data[start:end]` panics when the bounds cross. */
  datatype Extracted = NoSection | Section(text: string) | SlicePanic

  /** sshConfigGetCoderSection */
  function GetSection(data: string): Extracted {
    var startIndex, endIndex := Index(data, START), Index(data, END);
    if startIndex == -1 || endIndex == -1 then NoSection
    else if startIndex <= endIndex + |END| then Section(data[startIndex..endIndex + |END|])
    else SlicePanic
  }

  // ---- writing ----

  function Unlines(lines: seq<string>): string {
    if lines == [] then "" else lines[0] + "\n" + Unlines(lines[1..])
  }

  function OptionLines(opts: seq<string>): (r: seq<string>)
    ensures |r| == |opts|
    ensures forall i :: 0 <= i < |opts| ==> r[i] == OptionLine(opts[i])
  {
    if opts == [] then [] else [OptionLine(opts[0])] + OptionLines(opts[1..])
  }

  function OptionLine(opt: string): string { "# :" + OPTION_KEY + "=" + opt }

  /** `strings.HasPrefix(line, "# :")` */
  predicate Tagged(line: string) {
    |line| >= 3 && line[0] == '#' && line[1] == ' ' && line[2] == ':'
  }

  const MANAGED := "# This section " + "is managed by coder. DO NOT EDIT."
  const DOCS_FIRST := "# You should not hand-edit " + "this section " + "unless you are removing it, all"
  const DOCS_SECOND := "# changes will be lost " + "when running \"coder config-ssh\"."
  const BANNER := [START, MANAGED, "#", DOCS_FIRST, DOCS_SECOND]

  const OPTIONS_HEADER := ["#", "# Last config-ssh options:"]

  function HeaderLines(opts: seq<string>): seq<string> {
    BANNER + (if opts == [] then [] else OPTIONS_HEADER + OptionLines(opts)) + ["#"]
  }

  function Tabbed(opts: seq<string>): (r: seq<string>)
    ensures |r| == |opts|
    ensures forall i :: 0 <= i < |opts| ==> r[i] == "\t" + opts[i]
  {
    if opts == [] then [] else ["\t" + opts[0]] + Tabbed(opts[1..])
  }

  /** The stanza of one host; `proxy` is None with --skip-proxy-command. */
  function HostLines(host: string, opts: seq<string>, proxy: Option<string>): seq<string> {
    ["Host coder." + host] + Tabbed(opts)
    + ["\tHostName coder." + host, "\tConnectTimeout=0", "\tStrictHostKeyChecking=no",
       "\tUserKnownHostsFile=/dev/null", "\tLogLevel ERROR"]
    + (if proxy.None? then [] else ["\tProxyCommand " + proxy.value + " ssh --stdio " + host])
  }

  function BodyLines(hosts: seq<string>, opts: seq<string>, proxy: Option<string>): seq<string> {
    if hosts == [] then [] else HostLines(hosts[0], opts, proxy) + BodyLines(hosts[1..], opts, proxy)
  }

  function SectionLines(hosts: seq<string>, opts: seq<string>, proxy: Option<string>): seq<string> {
    HeaderLines(opts) + BodyLines(hosts, opts, proxy)
  }

  /** The managed section: what stands between the user's bytes, without its leading newline. */
  function SectionText(hosts: seq<string>, opts: seq<string>, proxy: Option<string>): string {
    Unlines(SectionLines(hosts, opts, proxy)) + END + "\n"
  }

  function Assemble(before: string, section: string, after: string): string {
    before + (if before == "" then "" else "\n") + section + after
  }

  /** The file configSSH writes back. */
  function Rewrite(data: string, hosts: seq<string>, opts: seq<string>, proxy: Option<string>): string {
    var (before, after) := Split(data);
    Assemble(before, SectionText(hosts, opts, proxy), after)
  }

  // ---- where markers can occur ----

  ghost predicate MarkerFree(s: string) { Absent(s, START) && Absent(s, END) }

  ghost predicate AllMarkerFree(lines: seq<string>) {
    forall i :: 0 <= i < |lines| ==> MarkerFree(lines[i])
  }

  /** Marker text sits on one line, so joining with a newline creates none. */
  lemma NewlineSeparates(a: string, b: string, tok: string)
    requires '\n' !in tok && Absent(a, tok) && Absent(b, tok)
    ensures Absent(a + "\n" + b, tok)
  {
    var s := a + "\n" + b;
    forall i ensures !OccursAt(s, tok, i) {
      if 0 <= i && i + |tok| <= |s| {
        if i + |tok| <= |a| {
          assert s[i..i + |tok|] == a[i..i + |tok|];
          assert !OccursAt(a, tok, i);
        } else if i > |a| {
          assert s[i..i + |tok|] == b[i - |a| - 1..i - |a| - 1 + |tok|];
          assert !OccursAt(b, tok, i - |a| - 1);
        } else {
          assert s[i..i + |tok|][|a| - i] == '\n';
        }
      }
    }
  }

  /** In front of the first marker the text may be anything marker-free that ends its line. */
  lemma IndexAfterLine(a: string, tok: string, rest: string)
    requires '\n' !in tok && Absent(a, tok) && tok <= rest
    requires a == "" || a[|a| - 1] == '\n'
    ensures Index(a + rest, tok) == |a|
  {
    var s := a + rest;
    assert s[|a|..|a| + |tok|] == rest[..|tok|];
    assert OccursAt(s, tok, |a|);
    forall i | 0 <= i < |a| ensures !OccursAt(s, tok, i) {
      if i + |tok| <= |a| {
        assert s[i..i + |tok|] == a[i..i + |tok|];
        assert !OccursAt(a, tok, i);
      } else if i + |tok| <= |s| {
        assert s[i..i + |tok|][|a| - 1 - i] == '\n';
      }
    }
  }

  lemma {:induction false} UnlinesAbsent(lines: seq<string>, tok: string)
    requires '\n' !in tok && tok != "" && forall i :: 0 <= i < |lines| ==> Absent(lines[i], tok)
    ensures Absent(Unlines(lines), tok)
  {
    if lines != [] {
      UnlinesAbsent(lines[1..], tok);
      NewlineSeparates(lines[0], Unlines(lines[1..]), tok);
      assert lines[0] + "\n" + Unlines(lines[1..]) == Unlines(lines);
    }
  }

  lemma {:induction false} UnlinesAppend(a: seq<string>, b: seq<string>)
    ensures Unlines(a + b) == Unlines(a) + Unlines(b)
  {
    if a == [] {
      assert a + b == b;
    } else {
      UnlinesAppend(a[1..], b);
      assert (a + b)[1..] == a[1..] + b;
    }
  }

  lemma {:induction false} UnlinesEndsLine(lines: seq<string>)
    requires lines != []
    ensures Unlines(lines) != "" && Unlines(lines)[|Unlines(lines)| - 1] == '\n'
  {
    if |lines| > 1 {
      UnlinesEndsLine(lines[1..]);
    } else {
      assert Unlines(lines[1..]) == "";
    }
  }

  /** Both markers open with "# -", so a prefix without that cannot start one. */
  lemma PrefixAddsNoMarker(p: string, x: string, tok: string)
    requires |tok| > 2 && tok[0] == '#' && tok[2] == '-'
    requires p != "" && (forall i :: 1 <= i < |p| ==> p[i] != '#') && (p[0] == '#' ==> |p| > 2 && p[2] != '-')
    requires Absent(x, tok)
    ensures Absent(p + x, tok)
  {
    var s := p + x;
    forall i ensures !OccursAt(s, tok, i) {
      if 0 <= i && i + |tok| <= |s| {
        var w := s[i..i + |tok|];
        assert w[0] == s[i] && w[2] == s[i + 2];
        if i >= |p| {
          assert w == x[i - |p|..i - |p| + |tok|];
          assert !OccursAt(x, tok, i - |p|);
        }
      }
    }
  }

  lemma ShortIsMarkerFree(s: string)
    requires |s| < |END|
    ensures MarkerFree(s)
  {
  }

  lemma PrefixIsMarkerFree(p: string, x: string)
    requires p != "" && (forall i :: 1 <= i < |p| ==> p[i] != '#') && (p[0] == '#' ==> |p| > 2 && p[2] != '-')
    requires MarkerFree(x)
    ensures MarkerFree(p + x)
  {
    PrefixAddsNoMarker(p, x, START);
    PrefixAddsNoMarker(p, x, END);
  }

  lemma BannerMarkerFree()
    ensures AllMarkerFree(BANNER[1..])
  {
    ShortIsMarkerFree("is managed by coder. DO NOT EDIT.");
    PrefixIsMarkerFree("# This section ", "is managed by coder. DO NOT EDIT.");
    ShortIsMarkerFree("unless you are removing it, all");
    PrefixIsMarkerFree("this section ", "unless you are removing it, all");
    PrefixIsMarkerFree("# You should not hand-edit ", "this section " + "unless you are removing it, all");
    assert DOCS_FIRST == "# You should not hand-edit " + ("this section " + "unless you are removing it, all");
    ShortIsMarkerFree("when running \"coder config-ssh\".");
    PrefixIsMarkerFree("# changes will be lost ", "when running \"coder config-ssh\".");
    ShortIsMarkerFree("#");
  }

  lemma HeaderTailMarkerFree(opts: seq<string>)
    requires AllMarkerFree(opts)
    ensures AllMarkerFree(HeaderLines(opts)[1..])
  {
    BannerMarkerFree();
    ShortIsMarkerFree("#");
    ShortIsMarkerFree("# Last config-ssh options:");
    forall i | 0 <= i < |opts| ensures MarkerFree(OptionLine(opts[i])) {
      PrefixIsMarkerFree("# :" + OPTION_KEY + "=", opts[i]);
    }
    AllFreeAppend(OPTIONS_HEADER, OptionLines(opts));
    var middle := if opts == [] then [] else OPTIONS_HEADER + OptionLines(opts);
    AllFreeAppend(BANNER[1..], middle);
    AllFreeAppend(BANNER[1..] + middle, ["#"]);
    TailOfConcat(BANNER, middle, ["#"]);
  }

  lemma TailOfPair(a: seq<string>, b: seq<string>)
    requires a != []
    ensures (a + b)[1..] == a[1..] + b
  {
  }

  lemma TailOfConcat(a: seq<string>, b: seq<string>, c: seq<string>)
    requires a != []
    ensures (a + b + c)[1..] == a[1..] + b + c
  {
  }

  lemma AllFreeAppend(a: seq<string>, b: seq<string>)
    requires AllMarkerFree(a) && AllMarkerFree(b)
    ensures AllMarkerFree(a + b)
  {
  }

  /** Neither the options nor the host stanzas contain marker text. */
  ghost predicate Clean(hosts: seq<string>, opts: seq<string>, proxy: Option<string>) {
    AllMarkerFree(opts) && AllMarkerFree(BodyLines(hosts, opts, proxy))
  }

  lemma SectionTailMarkerFree(hosts: seq<string>, opts: seq<string>, proxy: Option<string>)
    requires Clean(hosts, opts, proxy)
    ensures AllMarkerFree(SectionLines(hosts, opts, proxy)[1..])
  {
    HeaderTailMarkerFree(opts);
    AllFreeAppend(HeaderLines(opts)[1..], BodyLines(hosts, opts, proxy));
    TailOfPair(HeaderLines(opts), BodyLines(hosts, opts, proxy));
  }

  lemma SectionOpensWithStart(hosts: seq<string>, opts: seq<string>, proxy: Option<string>)
    ensures SectionLines(hosts, opts, proxy) != [] && SectionLines(hosts, opts, proxy)[0] == START
  {
  }

  /** The section opens with the start marker and has no end marker before its last line. */
  lemma SectionShape(hosts: seq<string>, opts: seq<string>, proxy: Option<string>)
    requires Clean(hosts, opts, proxy)
    ensures var core := Unlines(SectionLines(hosts, opts, proxy));
            START <= core && Absent(core, END) && core[|core| - 1] == '\n'
  {
    SectionTailMarkerFree(hosts, opts, proxy);
    SectionOpensWithStart(hosts, opts, proxy);
    StartIsNotEnd();
    LinesShape(SectionLines(hosts, opts, proxy), START, END);
  }

  lemma LinesShape(lines: seq<string>, start: string, end: string)
    requires lines != [] && lines[0] == start && '\n' !in end && end != "" && Absent(start, end)
    requires forall i :: 0 <= i < |lines[1..]| ==> Absent(lines[1..][i], end)
    ensures start <= Unlines(lines) && Absent(Unlines(lines), end)
    ensures Unlines(lines) != "" && Unlines(lines)[|Unlines(lines)| - 1] == '\n'
  {
    forall i | 0 <= i < |lines| ensures Absent(lines[i], end) {
      assert i > 0 ==> lines[i] == lines[1..][i - 1];
    }
    UnlinesAbsent(lines, end);
    UnlinesEndsLine(lines);
  }

  lemma StartIsNotEnd()
    ensures Absent(START, END)
  {
    forall i ensures !OccursAt(START, END, i) {
      if 0 <= i && i + |END| <= |START| {
        assert START[i..i + |END|][14] == START[i + 14];
      }
    }
  }

  /** The bytes in front of the start marker: the user's, and the newline that ends them. */
  function Lead(before: string): string { before + (if before == "" then "" else "\n") }

  /** The rewritten file, grouped by the places where the markers stand. */
  function Filed(before: string, core: string, after: string): string {
    Lead(before) + (core + (END + ("\n" + after)))
  }

  lemma AssembledShape(before: string, core: string, end: string, after: string)
    ensures Assemble(before, core + end + "\n", after) == Lead(before) + (core + (end + ("\n" + after)))
  {
  }

  lemma RewriteIsFiled(data: string, hosts: seq<string>, opts: seq<string>, proxy: Option<string>)
    ensures Rewrite(data, hosts, opts, proxy) ==
            Filed(Split(data).0, Unlines(SectionLines(hosts, opts, proxy)), Split(data).1)
  {
    AssembledShape(Split(data).0, Unlines(SectionLines(hosts, opts, proxy)), END, Split(data).1);
  }

  lemma LeadAbsent(before: string, tok: string)
    requires '\n' !in tok && tok != "" && Absent(before, tok)
    ensures Absent(Lead(before), tok)
  {
    assert Absent("", tok);
    NewlineSeparates(before, "", tok);
    assert before + "\n" + "" == before + "\n";
  }

  lemma ThreePartIndexes(lead: string, core: string, rest: string, start: string, end: string)
    requires '\n' !in start && '\n' !in end && start != "" && end != ""
    requires start <= core && end <= rest && Absent(core, end) && core[|core| - 1] == '\n'
    requires lead == "" || lead[|lead| - 1] == '\n'
    ensures var data := lead + (core + rest);
            && (Absent(lead, start) ==> Index(data, start) == |lead|)
            && (Absent(lead, end) ==> Index(data, end) == |lead| + |core|)
            && OccursAt(data, start, |lead|)
            && OccursAt(data, end, |lead| + |core|)
  {
    var data := lead + (core + rest);
    assert data == (lead + core) + rest;
    assert data[|lead|..|lead| + |start|] == core[..|start|];
    assert data[|lead| + |core|..|lead| + |core| + |end|] == rest[..|end|];
    if Absent(lead, start) {
      assert start <= core + rest;
      IndexAfterLine(lead, start, core + rest);
    }
    if Absent(lead, end) {
      CoreStaysAbsent(lead, core, end);
      IndexAfterLine(lead + core, end, rest);
    }
  }

  lemma AssembledIndexes(before: string, core: string, after: string)
    requires START <= core && Absent(core, END) && core[|core| - 1] == '\n'
    ensures var data := Filed(before, core, after);
            && (Absent(before, START) ==> Index(data, START) == |Lead(before)|)
            && (Absent(before, END) ==> Index(data, END) == |Lead(before)| + |core|)
            && OccursAt(data, START, |Lead(before)|)
            && OccursAt(data, END, |Lead(before)| + |core|)
  {
    ThreePartIndexes(Lead(before), core, END + ("\n" + after), START, END);
    if Absent(before, START) { LeadAbsent(before, START); }
    if Absent(before, END) { LeadAbsent(before, END); }
  }

  lemma CoreStaysAbsent(lead: string, core: string, tok: string)
    requires '\n' !in tok && Absent(lead, tok) && Absent(core, tok)
    requires lead == "" || lead[|lead| - 1] == '\n'
    ensures Absent(lead + core, tok)
  {
    if lead == "" {
      assert lead + core == core;
    } else {
      var trunk := lead[..|lead| - 1];
      forall i ensures !OccursAt(trunk, tok, i) {
        if 0 <= i && i + |tok| <= |trunk| {
          assert trunk[i..i + |tok|] == lead[i..i + |tok|];
          assert !OccursAt(lead, tok, i);
        }
      }
      NewlineSeparates(trunk, core, tok);
      assert trunk + "\n" + core == lead + core;
    }
  }

  // ---- what rewriting preserves ----

  /** No marker at all, or both, the start marker beginning no later than where the end marker stops. */
  predicate Placed(data: string) {
    var s, e := Index(data, START), Index(data, END);
    (s == -1 && e == -1) || (s != -1 && e != -1 && s <= e + |END|)
  }

  lemma AbsentInPrefix(data: string, cut: nat, tok: string)
    requires cut <= |data|
    ensures Absent(data[..cut], tok) <==> Index(data, tok) == -1 || Index(data, tok) + |tok| > cut
  {
    var before, p := data[..cut], Index(data, tok);
    forall i | OccursAt(before, tok, i) ensures OccursAt(data, tok, i) {
      assert before[i..i + |tok|] == data[i..i + |tok|];
    }
    if p != -1 && p + |tok| <= cut {
      assert before[p..p + |tok|] == data[p..p + |tok|];
      assert OccursAt(before, tok, p);
    }
  }

  /** When both markers occur the first part ends one byte before the start marker. */
  lemma FirstPart(data: string)
    ensures var s, e := Index(data, START), Index(data, END);
            Split(data).0 == if s != -1 && e != -1 then data[..if s > 0 then s - 1 else 0] else data
  {
  }

  lemma BeforeIsMarkerFree(data: string)
    ensures MarkerFree(Split(data).0) <==> Placed(data)
  {
    FirstPart(data);
    var s, e := Index(data, START), Index(data, END);
    if s != -1 && e != -1 {
      var cut := if s > 0 then s - 1 else 0;
      AbsentInPrefix(data, cut, START);
      AbsentInPrefix(data, cut, END);
    }
  }

  lemma IndexInPrefix(a: string, rest: string, tok: string)
    requires !Absent(a, tok)
    ensures Index(a + rest, tok) == Index(a, tok)
  {
    var p, i := Index(a, tok), Index(a + rest, tok);
    assert (a + rest)[p..p + |tok|] == a[p..p + |tok|];
    assert OccursAt(a + rest, tok, p);
    assert (a + rest)[i..i + |tok|] == a[i..i + |tok|];
    assert OccursAt(a, tok, i);
  }

  lemma SplitWhenBoth(data: string, start: nat, end: nat, cut: nat)
    requires Index(data, START) == start && Index(data, END) == end && end + |END| < |data|
    requires cut == if start > 0 then start - 1 else 0
    ensures cut <= |data| && Split(data) == (data[..cut], data[end + |END| + 1..])
  {
  }

  lemma Slices(before: string, lead: string, core: string, end: string, after: string, data: string)
    requires before <= lead && data == lead + (core + (end + ("\n" + after)))
    ensures data[..|before|] == before
    ensures data[|lead| + |core| + |end| + 1..] == after
    ensures data[|lead|..|lead| + |core| + |end|] == core + end
  {
  }

  /** Where the markers stand in a file and what surrounds them. */
  ghost predicate Located(data: string, before: string, core: string, after: string) {
    var start := |Lead(before)|;
    var end := start + |core| + |END|;
    && Index(data, START) == start && Index(data, END) == start + |core|
    && end < |data| && data[..|before|] == before
    && data[start..end] == core + END && data[end + 1..] == after
  }

  lemma FiledIsLocated(before: string, after: string, core: string, data: string)
    requires START <= core && Absent(core, END) && core[|core| - 1] == '\n'
    requires MarkerFree(before) && data == Filed(before, core, after)
    ensures Located(data, before, core, after)
  {
    AssembledIndexes(before, core, after);
    PiecesAreLocated(before, Lead(before), after, core, data);
  }

  lemma PiecesAreLocated(before: string, lead: string, after: string, core: string, data: string)
    requires lead == Lead(before) && data == lead + (core + (END + ("\n" + after)))
    requires Index(data, START) == |lead| && Index(data, END) == |lead| + |core|
    ensures Located(data, before, core, after)
  {
    Slices(before, lead, core, END, after, data);
  }

  lemma SplitLocated(data: string, before: string, core: string, after: string)
    requires Located(data, before, core, after)
    ensures Split(data) == (before, after)
  {
    SplitWhenBoth(data, |Lead(before)|, |Lead(before)| + |core|, |before|);
  }

  lemma SplitAssembled(before: string, after: string, core: string)
    requires START <= core && Absent(core, END) && core[|core| - 1] == '\n'
    requires MarkerFree(before)
    ensures Split(Filed(before, core, after)) == (before, after)
  {
    FiledIsLocated(before, after, core, Filed(before, core, after));
    SplitLocated(Filed(before, core, after), before, core, after);
  }

  lemma SectionOfAssembled(before: string, after: string, core: string)
    requires START <= core && Absent(core, END) && core[|core| - 1] == '\n'
    requires MarkerFree(before)
    ensures GetSection(Filed(before, core, after)) == Section(core + END)
  {
    FiledIsLocated(before, after, core, Filed(before, core, after));
  }

  lemma StrayStartShrinks(before: string, after: string, core: string)
    requires START <= core && Absent(core, END) && core[|core| - 1] == '\n'
    requires !Absent(before, START) && Absent(before, END)
    ensures var (b, a) := Split(Filed(before, core, after)); |b| < |before| && a == after
  {
    var data := Filed(before, core, after);
    var lead, start := Lead(before), Index(before, START);
    AssembledIndexes(before, core, after);
    Slices(before, lead, core, END, after, data);
    assert data == before + data[|before|..];
    IndexInPrefix(before, data[|before|..], START);
    SplitWhenBoth(data, start, |lead| + |core|, if start > 0 then start - 1 else 0);
  }

  lemma StrayEndGrows(before: string, after: string, core: string)
    requires START <= core && Absent(core, END) && core[|core| - 1] == '\n'
    requires Absent(before, START) && !Absent(before, END)
    ensures var (b, a) := Split(Filed(before, core, after)); b == before && |a| > |after|
  {
    var data := Filed(before, core, after);
    var lead := Lead(before);
    AssembledIndexes(before, core, after);
    Slices(before, lead, core, END, after, data);
    FiledLength(before, core, after);
    assert data == before + data[|before|..];
    IndexInPrefix(before, data[|before|..], END);
    SplitWhenBoth(data, |lead|, Index(before, END), |before|);
  }

  /** With a stray marker in front, the next split cuts into the user's bytes or repeats them. */
  lemma SplitAssembledNotFree(before: string, after: string, core: string)
    requires START <= core && Absent(core, END) && core[|core| - 1] == '\n'
    requires Absent(before, START) != Absent(before, END)
    ensures var (b, a) := Split(Filed(before, core, after));
            (|b| < |before| && a == after) || (b == before && |a| > |after|)
  {
    if Absent(before, END) {
      StrayStartShrinks(before, after, core);
    } else {
      StrayEndGrows(before, after, core);
    }
  }

  /** Unless the markers are placed, exactly one kind is left in front of the section. */
  lemma BeforeHasOneKind(data: string)
    requires !Placed(data)
    ensures var before := Split(data).0; Absent(before, START) != Absent(before, END)
  {
    BeforeIsMarkerFree(data);
    var s, e, before := Index(data, START), Index(data, END), Split(data).0;
    if s != -1 && e != -1 {
      forall i ensures !OccursAt(before, START, i) {
        if 0 <= i && i + |START| <= |before| {
          assert before[i..i + |START|] == data[i..i + |START|];
          assert !OccursAt(data, START, i);
        }
      }
    }
  }

  /**
    Splitting the rewritten file gives back the user's bytes exactly when the markers were
    well placed to begin with.
  */
  lemma RewriteKeepsUserBytesIff(data: string, hosts: seq<string>, opts: seq<string>, proxy: Option<string>)
    requires Clean(hosts, opts, proxy)
    ensures Split(Rewrite(data, hosts, opts, proxy)) == Split(data) <==> Placed(data)
  {
    var (before, after) := Split(data);
    var core := Unlines(SectionLines(hosts, opts, proxy));
    SectionShape(hosts, opts, proxy);
    RewriteIsFiled(data, hosts, opts, proxy);
    BeforeIsMarkerFree(data);
    if Placed(data) {
      SplitAssembled(before, after, core);
    } else {
      BeforeHasOneKind(data);
      SplitAssembledNotFree(before, after, core);
    }
  }

  lemma FiledLength(before: string, core: string, after: string)
    ensures |Filed(before, core, after)| ==
            |before| + (if before == "" then 0 else 1) + |core| + |END| + 1 + |after|
  {
  }

  /** Rewriting twice is rewriting once, exactly under the same condition. */
  lemma RewriteIdempotentIff(data: string, hosts: seq<string>, opts: seq<string>, proxy: Option<string>)
    requires Clean(hosts, opts, proxy)
    ensures var once := Rewrite(data, hosts, opts, proxy);
            Rewrite(once, hosts, opts, proxy) == once <==> Placed(data)
  {
    var once := Rewrite(data, hosts, opts, proxy);
    RewriteKeepsUserBytesIff(data, hosts, opts, proxy);
    RewriteIsFiled(data, hosts, opts, proxy);
    RewriteIsFiled(once, hosts, opts, proxy);
    if !Placed(data) {
      var (before, after) := Split(data);
      var core := Unlines(SectionLines(hosts, opts, proxy));
      SectionShape(hosts, opts, proxy);
      BeforeHasOneKind(data);
      SplitAssembledNotFree(before, after, core);
      FiledLength(before, core, after);
      FiledLength(Split(once).0, core, Split(once).1);
    }
  }

  /** A file without both markers is kept whole: the section is appended after a newline. */
  lemma FirstRewriteAppends(data: string, hosts: seq<string>, opts: seq<string>, proxy: Option<string>)
    requires Absent(data, START) || Absent(data, END)
    ensures Rewrite(data, hosts, opts, proxy) ==
            data + (if data == "" then "" else "\n") + SectionText(hosts, opts, proxy)
  {
    assert Index(data, START) == -1 || Index(data, END) == -1;
    var text := data + (if data == "" then "" else "\n") + SectionText(hosts, opts, proxy);
    assert text + "" == text;
  }

  /** With both markers, in whatever place, the parts are the bytes up to one before the start and from one past the end. */
  lemma BothMarkersSplit(data: string)
    requires !Absent(data, START) && !Absent(data, END)
    ensures var (before, after) := Split(data);
            var s, rest := Index(data, START), |data| - Index(data, END) - |END|;
            && before <= data && |before| == (if s > 0 then s - 1 else 0)
            && |after| == (if rest > 0 then rest - 1 else 0) && data[|data| - |after|..] == after
  {
  }

  /**
    When both markers sit on lines of their own, in order, the file is the user's bytes around
    one section, and rewriting replaces that section only; a single leading newline may go.
  */
  lemma OnlySectionReplaced(data: string, hosts: seq<string>, opts: seq<string>, proxy: Option<string>)
    requires OwnLines(data)
    ensures GetSection(data).Section?
    ensures var (before, after) := Split(data);
            && data == Surrounded(before, Index(data, START) > 0, GetSection(data).text,
                                  Index(data, END) + |END| < |data|, after)
            && Rewrite(data, hosts, opts, proxy) ==
               Surrounded(before, before != "", SectionText(hosts, opts, proxy), false, after)
  {
    SectionSurroundings(data);
    SurroundedRewrite(data, hosts, opts, proxy);
  }

  /** The start marker comes first, and each marker has a line to itself. */
  predicate OwnLines(data: string) {
    var s, e := Index(data, START), Index(data, END);
    && 0 <= s < e
    && (s > 0 ==> data[s - 1] == '\n')
    && (e + |END| < |data| ==> data[e + |END|] == '\n')
  }

  function Surrounded(before: string, nl: bool, section: string, nl': bool, after: string): string {
    before + (if nl then "\n" else "") + section + (if nl' then "\n" else "") + after
  }

  lemma SectionSurroundings(data: string)
    requires OwnLines(data)
    ensures GetSection(data).Section?
    ensures data == Surrounded(Split(data).0, Index(data, START) > 0, GetSection(data).text,
                               Index(data, END) + |END| < |data|, Split(data).1)
  {
    var s, e := Index(data, START), Index(data, END) + |END|;
    SplitCuts(data);
    AroundSection(data, s, e, Split(data).0, GetSection(data).text, Split(data).1);
  }

  lemma SurroundedRewrite(data: string, hosts: seq<string>, opts: seq<string>, proxy: Option<string>)
    ensures Rewrite(data, hosts, opts, proxy) ==
            Surrounded(Split(data).0, Split(data).0 != "", SectionText(hosts, opts, proxy), false, Split(data).1)
  {
    assert forall x: string :: x + "" == x;
  }

  lemma SplitCuts(data: string)
    requires 0 <= Index(data, START) < Index(data, END)
    ensures var s, e := Index(data, START), Index(data, END) + |END|;
            && GetSection(data) == Section(data[s..e])
            && Split(data).0 == data[..if s > 0 then s - 1 else s]
            && Split(data).1 == data[if e < |data| then e + 1 else e..]
  {
  }

  lemma AroundSection(data: string, s: nat, e: nat, before: string, section: string, after: string)
    requires s <= e <= |data| && section == data[s..e]
    requires before == data[..if s > 0 then s - 1 else s]
    requires after == data[if e < |data| then e + 1 else e..]
    requires s > 0 ==> data[s - 1] == '\n'
    requires e < |data| ==> data[e] == '\n'
    ensures data == Surrounded(before, s > 0, section, e < |data|, after)
  {
    assert data == data[..s] + section + data[e..];
    assert data[..s] == before + (if s > 0 then "\n" else "");
    assert data[e..] == (if e < |data| then "\n" else "") + after;
  }

  /** The file is the two parts around the section, with at most a newline on either side. */
  ghost predicate NewlinesBetween(data: string, before: string, section: string, after: string) {
    exists nl, nl' :: data == Surrounded(before, nl, section, nl', after)
  }

  lemma NewlinesBetweenIff(data: string, s: nat, e: nat, before: string, section: string, after: string)
    requires s < e <= |data| && data[s] != '\n' && data[e - 1] != '\n' && section == data[s..e]
    requires before == data[..if s > 0 then s - 1 else s]
    requires after == data[if e < |data| then e + 1 else e..]
    ensures NewlinesBetween(data, before, section, after) <==>
            (s > 0 ==> data[s - 1] == '\n') && (e < |data| ==> data[e] == '\n')
  {
    if (s > 0 ==> data[s - 1] == '\n') && (e < |data| ==> data[e] == '\n') {
      AroundSection(data, s, e, before, section, after);
    }
    if nl, nl' :| data == Surrounded(before, nl, section, nl', after) {
      AroundConverse(data, s, e, before, after, nl, nl');
    }
  }

  lemma AroundConverse(data: string, s: nat, e: nat, before: string, after: string, nl: bool, nl': bool)
    requires s < e <= |data| && data[s] != '\n' && data[e - 1] != '\n'
    requires before == data[..if s > 0 then s - 1 else s]
    requires after == data[if e < |data| then e + 1 else e..]
    requires data == Surrounded(before, nl, data[s..e], nl', after)
    ensures (s > 0 ==> data[s - 1] == '\n') && (e < |data| ==> data[e] == '\n')
  {
    var lead := before + (if nl then "\n" else "");
    var tail := (if nl' then "\n" else "") + after;
    assert data == lead + data[s..e] + tail;
    assert |lead| + |tail| == s + (|data| - e);
    if nl {
      assert data[|before|] == '\n';
    }
    if nl' {
      assert data[|lead| + (e - s)] == '\n';
    }
  }

  /** With the markers in order, the split drops no user byte but such newlines iff each marker has its own line. */
  lemma OnlyNewlinesDroppedIff(data: string)
    requires 0 <= Index(data, START) < Index(data, END)
    ensures GetSection(data).Section?
    ensures NewlinesBetween(data, Split(data).0, GetSection(data).text, Split(data).1) <==> OwnLines(data)
  {
    SplitCuts(data);
    MarkerBytes(data);
    NewlinesBetweenIff(data, Index(data, START), Index(data, END) + |END|,
                       Split(data).0, GetSection(data).text, Split(data).1);
  }

  lemma MarkerBytes(data: string)
    requires 0 <= Index(data, START) < Index(data, END)
    ensures var s, e := Index(data, START), Index(data, END) + |END|;
            e <= |data| && data[s] != '\n' && data[e - 1] != '\n'
  {
    var s, e := Index(data, START), Index(data, END);
    assert data[s] == data[s..s + |START|][0] == START[0];
    assert data[e + |END| - 1] == data[e..e + |END|][|END| - 1] == END[|END| - 1];
  }

  /** A config with an end marker but no start marker makes the following run panic. */
  lemma StrayEndPanicsNextRunIff(data: string, hosts: seq<string>, opts: seq<string>, proxy: Option<string>)
    requires Clean(hosts, opts, proxy) && Index(data, START) == -1
    ensures GetSection(Rewrite(data, hosts, opts, proxy)).SlicePanic? <==> Index(data, END) != -1
  {
    var core := Unlines(SectionLines(hosts, opts, proxy));
    SectionShape(hosts, opts, proxy);
    RewriteIsFiled(data, hosts, opts, proxy);
    if Index(data, END) != -1 {
      StrayEndPanics(data, core);
    } else {
      SectionOfAssembled(data, "", core);
    }
  }

  lemma StrayEndPanics(data: string, core: string)
    requires START <= core && Absent(core, END) && core[|core| - 1] == '\n'
    requires Absent(data, START) && !Absent(data, END)
    ensures GetSection(Filed(data, core, "")).SlicePanic?
  {
    AssembledIndexes(data, core, "");
    var next := Filed(data, core, "");
    assert data <= next;
    assert next == data + next[|data|..];
    IndexInPrefix(data, next[|data|..], END);
  }

  // ---- reading the options back ----

  /** The options found; an error stands for a panic. */
  type Parsed = Result<seq<string>>

  function Position(s: string, c: char): (i: nat)
    ensures i <= |s| && c !in s[..i] && (i < |s| ==> s[i] == c)
  {
    if s == "" || s[0] == c then 0
    else
      var i := Position(s[1..], c) + 1;
      assert s[..i] == [s[0]] + s[1..][..i - 1];
      i
  }

  function DropCR(line: string): string {
    if line != "" && line[|line| - 1] == '\r' then line[..|line| - 1] else line
  }

  /** One scanned line; `ssh-option` without "=" indexes past the split parts. */
  function ParseLine(line: string): Parsed {
    if !Tagged(line) then Ok([])
    else
      var entry := line[3..];
      var eq := Position(entry, '=');
      if entry[..eq] != OPTION_KEY then Ok([])
      else if eq == |entry| then Err
      else Ok([entry[eq + 1..]])
  }

  /** What follows a line, given where it ends. */
  function AfterLine(text: string, e: nat): string
    requires e <= |text|
  {
    if e < |text| then text[e + 1..] else ""
  }

  /** sshConfigParseLastOptions, line by line as bufio.ScanLines cuts them. */
  function ParseText(text: string): Parsed
    decreases |text|
  {
    if text == "" then Ok([])
    else
      var e := Position(text, '\n');
      if e >= MAX_TOKEN then Err
      else
        var head := ParseLine(DropCR(text[..e]));
        if head.Err? then Err else Prepended(head.value, ParseText(AfterLine(text, e)))
  }

  lemma {:induction false} PositionOf(a: string, c: char, b: string)
    requires c !in a
    ensures Position(a + [c] + b, c) == |a|
  {
    if a != "" {
      PositionOf(a[1..], c, b);
      assert (a + [c] + b)[1..] == a[1..] + [c] + b;
    }
  }

  lemma ParseTextLine(line: string, rest: string)
    requires '\n' !in line && |line| < MAX_TOKEN
    ensures ParseText(line + "\n" + rest) ==
            var head := ParseLine(DropCR(line));
            if head.Err? then Err else Prepended(head.value, ParseText(rest))
  {
    var text := line + "\n" + rest;
    PositionOf(line, '\n', rest);
    assert text[..|line|] == line && text[|line| + 1..] == rest;
  }

  /** A line that fits the scanner and carries no option. */
  predicate Noise(line: string) {
    '\n' !in line && |line| < MAX_TOKEN && !Tagged(line)
  }

  lemma {:induction false} NoiseSkipped(lines: seq<string>, rest: string)
    requires forall i :: 0 <= i < |lines| ==> Noise(lines[i])
    ensures ParseText(Unlines(lines) + rest) == ParseText(rest)
  {
    if lines == [] {
      assert Unlines(lines) + rest == rest;
    } else {
      NoiseSkipped(lines[1..], rest);
      var tail := Unlines(lines[1..]) + rest;
      assert Unlines(lines) + rest == lines[0] + "\n" + tail;
      NoiseLine(lines[0], tail);
    }
  }

  lemma NoiseLine(line: string, rest: string)
    requires Noise(line)
    ensures ParseText(line + "\n" + rest) == ParseText(rest)
  {
    ParseTextLine(line, rest);
    assert !Tagged(DropCR(line));
    PrependedNothing(ParseText(rest));
  }

  lemma ParseOptionLine(opt: string)
    ensures ParseLine(OptionLine(opt)) == Ok([opt])
    ensures DropCR(OptionLine(opt)) == OptionLine(DropCR(opt))
  {
    var line := OptionLine(opt);
    var entry := OPTION_KEY + "=" + opt;
    assert line == "# :" + entry;
    assert line[3..] == entry;
    PositionOf(OPTION_KEY, '=', opt);
    assert entry[..|OPTION_KEY|] == OPTION_KEY && entry[|OPTION_KEY| + 1..] == opt;
    if opt != "" && opt[|opt| - 1] == '\r' {
      assert line[..|line| - 1] == OptionLine(opt[..|opt| - 1]);
    }
  }

  /** An option the scanner gives back unchanged. */
  predicate Storable(opt: string) {
    '\n' !in opt && DropCR(opt) == opt && |OptionLine(opt)| < MAX_TOKEN
  }

  lemma StorableOneRead(opt: string, rest: string)
    requires Storable(opt)
    ensures ParseText(OptionLine(opt) + "\n" + rest) == Prepended([opt], ParseText(rest))
  {
    assert '\n' !in OptionLine(opt);
    ParseTextLine(OptionLine(opt), rest);
    ParseOptionLine(opt);
  }

  lemma {:induction false} StorableRead(opts: seq<string>, rest: string)
    requires forall i :: 0 <= i < |opts| ==> Storable(opts[i])
    ensures ParseText(Unlines(OptionLines(opts)) + rest) == Prepended(opts, ParseText(rest))
  {
    if opts == [] {
      assert Unlines(OptionLines(opts)) + rest == rest;
      PrependedNothing(ParseText(rest));
    } else {
      StorableRead(opts[1..], rest);
      FirstStorableRead(opts[0], OptionLines(opts[1..]), rest, opts[1..], ParseText(rest));
      assert OptionLines(opts) == [OptionLine(opts[0])] + OptionLines(opts[1..]);
      assert [opts[0]] + opts[1..] == opts;
    }
  }

  lemma FirstStorableRead(opt: string, lines: seq<string>, rest: string, others: seq<string>, r: Parsed)
    requires Storable(opt) && ParseText(Unlines(lines) + rest) == Prepended(others, r)
    ensures ParseText(Unlines([OptionLine(opt)] + lines) + rest) == Prepended([opt] + others, r)
  {
    StorableOneRead(opt, Unlines(lines) + rest);
    UnlinesHead(OptionLine(opt), lines, rest);
    PrependedTwice([opt], others, r);
  }

  lemma UnlinesHead(line: string, lines: seq<string>, rest: string)
    ensures Unlines([line] + lines) + rest == line + "\n" + (Unlines(lines) + rest)
  {
    assert ([line] + lines)[1..] == lines;
  }

  /** What is read where an option that cannot be stored was written. */
  lemma UnstorableRead(opt: string, rest: string)
    requires !Storable(opt)
    ensures var r := ParseText(OptionLine(opt) + "\n" + rest);
            r.Err? || (r.value != [] && r.value[0] != opt)
  {
    var k := Position(opt, '\n');
    var first := opt[..k];
    var more := if k < |opt| then opt[k + 1..] + "\n" + rest else rest;
    assert OptionLine(opt) + "\n" + rest == OptionLine(first) + "\n" + more;
    assert '\n' !in OptionLine(first);
    ParseOptionLine(first);
    ParseOptionLine(DropCR(first));
    if |OptionLine(first)| < MAX_TOKEN {
      ParseTextLine(OptionLine(first), more);
      assert k == |opt| ==> first == opt;
    } else {
      var text := OptionLine(first) + "\n" + more;
      PositionOf(OptionLine(first), '\n', more);
    }
  }

  /** Lines of the host stanzas that do not come from an option fit the scanner. */
  predicate HostsFit(hosts: seq<string>, proxy: Option<string>) {
    forall i, j :: 0 <= i < |hosts| && 0 <= j < |HostLines(hosts[i], [], proxy)| ==>
      '\n' !in HostLines(hosts[i], [], proxy)[j] && |HostLines(hosts[i], [], proxy)[j]| < MAX_TOKEN
  }

  lemma HostIsNoise(hosts: seq<string>, i: nat, opts: seq<string>, proxy: Option<string>)
    requires i < |hosts| && HostsFit(hosts, proxy)
    requires forall k :: 0 <= k < |opts| ==> Storable(opts[k])
    ensures forall j :: 0 <= j < |HostLines(hosts[i], opts, proxy)| ==> Noise(HostLines(hosts[i], opts, proxy)[j])
  {
    var plain, lines := HostLines(hosts[i], [], proxy), HostLines(hosts[i], opts, proxy);
    forall j | 0 <= j < |lines| ensures Noise(lines[j]) {
      if j == 0 {
        assert lines[j] == plain[0];
      } else if j <= |opts| {
        assert lines[j] == "\t" + opts[j - 1];
      } else {
        assert lines[j] == plain[j - |opts|];
      }
    }
  }

  lemma {:induction false} BodyIsNoise(all: seq<string>, from: nat, opts: seq<string>, proxy: Option<string>)
    requires from <= |all| && HostsFit(all, proxy)
    requires forall k :: 0 <= k < |opts| ==> Storable(opts[k])
    ensures forall j :: 0 <= j < |BodyLines(all[from..], opts, proxy)| ==> Noise(BodyLines(all[from..], opts, proxy)[j])
    decreases |all| - from
  {
    if from < |all| {
      BodyIsNoise(all, from + 1, opts, proxy);
      HostIsNoise(all, from, opts, proxy);
      assert all[from..][0] == all[from] && all[from..][1..] == all[from + 1..];
    }
  }

  lemma NoiseJoin(p: string, x: string)
    requires |p| >= 3 && Noise(p) && '\n' !in x && |p| + |x| < MAX_TOKEN
    ensures Noise(p + x)
  {
  }

  lemma StartIsNoise() ensures Noise(START) {}

  lemma ManagedIsNoise()
    ensures Noise(MANAGED)
  {
    NoiseJoin("# This section ", "is managed by coder. DO NOT EDIT.");
  }

  lemma DocsFirstIsNoise()
    ensures Noise(DOCS_FIRST)
  {
    NoiseJoin("# You should not hand-edit ", "this section ");
    NoiseJoin("# You should not hand-edit " + "this section ", "unless you are removing it, all");
  }

  lemma DocsSecondIsNoise()
    ensures Noise(DOCS_SECOND)
  {
    NoiseJoin("# changes will be lost ", "when running \"coder config-ssh\".");
  }

  lemma BannerIsNoise()
    ensures forall i :: 0 <= i < |BANNER| ==> Noise(BANNER[i])
    ensures forall i :: 0 <= i < |OPTIONS_HEADER| ==> Noise(OPTIONS_HEADER[i])
    ensures Noise("#")
  {
    StartIsNoise();
    ManagedIsNoise();
    DocsFirstIsNoise();
    DocsSecondIsNoise();
  }

  lemma UnlinesCut(top: seq<string>, mid: seq<string>, bottom: seq<string>, end: string)
    ensures Unlines(top + (mid + bottom)) + end == Unlines(top) + (Unlines(mid) + (Unlines(bottom) + end))
  {
    UnlinesAppend(top, mid + bottom);
    UnlinesAppend(mid, bottom);
  }

  function TopLines(opts: seq<string>): seq<string> {
    BANNER + (if opts == [] then [] else OPTIONS_HEADER)
  }

  lemma Regroup(banner: seq<string>, header: seq<string>, opts: seq<string>, hash: seq<string>, body: seq<string>)
    ensures banner + [] + hash + body == (banner + []) + ([] + (hash + body))
    ensures banner + (header + opts) + hash + body == (banner + header) + (opts + (hash + body))
  {
  }

  lemma SectionLinesCut(hosts: seq<string>, opts: seq<string>, proxy: Option<string>)
    ensures SectionLines(hosts, opts, proxy) ==
            TopLines(opts) + (OptionLines(opts) + (["#"] + BodyLines(hosts, opts, proxy)))
  {
    Regroup(BANNER, OPTIONS_HEADER, OptionLines(opts), ["#"], BodyLines(hosts, opts, proxy));
  }

  /** The text of the section, cut where the options begin. */
  lemma SectionCut(hosts: seq<string>, opts: seq<string>, proxy: Option<string>)
    ensures Unlines(SectionLines(hosts, opts, proxy)) + END ==
            Unlines(TopLines(opts))
            + (Unlines(OptionLines(opts)) + (Unlines(["#"] + BodyLines(hosts, opts, proxy)) + END))
  {
    SectionLinesCut(hosts, opts, proxy);
    UnlinesCut(TopLines(opts), OptionLines(opts), ["#"] + BodyLines(hosts, opts, proxy), END);
  }

  lemma TopIsNoise(opts: seq<string>, rest: string)
    ensures ParseText(Unlines(TopLines(opts)) + rest) == ParseText(rest)
  {
    BannerIsNoise();
    NoiseSkipped(TopLines(opts), rest);
  }

  lemma {:induction false} PositionAbsent(s: string, c: char)
    requires c !in s
    ensures Position(s, c) == |s|
  {
    if s != "" {
      PositionAbsent(s[1..], c);
    }
  }

  lemma LastLineNoise(line: string)
    requires Noise(line)
    ensures ParseText(line) == Ok([])
  {
    PositionAbsent(line, '\n');
    assert line[..|line|] == line;
    assert !Tagged(DropCR(line));
    assert ParseText("") == Ok([]);
    PrependedNothing(ParseText(""));
  }

  lemma EndHasNoOptions()
    ensures ParseText(END) == Ok([])
  {
    assert Noise(END);
    LastLineNoise(END);
  }

  lemma AllStorableReadBack(hosts: seq<string>, opts: seq<string>, proxy: Option<string>)
    requires HostsFit(hosts, proxy) && forall i :: 0 <= i < |opts| ==> Storable(opts[i])
    ensures ParseText(Unlines(SectionLines(hosts, opts, proxy)) + END) == Ok(opts)
  {
    var tail := Unlines(["#"] + BodyLines(hosts, opts, proxy)) + END;
    SectionCut(hosts, opts, proxy);
    TopIsNoise(opts, Unlines(OptionLines(opts)) + tail);
    StorableRead(opts, tail);
    BottomHasNoOptions(hosts, opts, proxy);
    assert opts + [] == opts;
  }

  lemma BottomHasNoOptions(hosts: seq<string>, opts: seq<string>, proxy: Option<string>)
    requires HostsFit(hosts, proxy) && forall i :: 0 <= i < |opts| ==> Storable(opts[i])
    ensures ParseText(Unlines(["#"] + BodyLines(hosts, opts, proxy)) + END) == Ok([])
  {
    BodyIsNoise(hosts, 0, opts, proxy);
    assert hosts[0..] == hosts;
    NoiseSkipped(["#"] + BodyLines(hosts, opts, proxy), END);
    EndHasNoOptions();
  }

  lemma FirstUnstorable(opts: seq<string>) returns (i: nat)
    requires exists k :: 0 <= k < |opts| && !Storable(opts[k])
    ensures i < |opts| && !Storable(opts[i]) && forall k :: 0 <= k < i ==> Storable(opts[k])
  {
    i := 0;
    while Storable(opts[i])
      invariant i < |opts| && forall k :: 0 <= k < i ==> Storable(opts[k])
      invariant exists k :: i <= k < |opts| && !Storable(opts[k])
      decreases |opts| - i
    {
      i := i + 1;
    }
  }

  lemma UnstorableNotReadBack(hosts: seq<string>, opts: seq<string>, proxy: Option<string>)
    requires exists k :: 0 <= k < |opts| && !Storable(opts[k])
    ensures ParseText(Unlines(SectionLines(hosts, opts, proxy)) + END) != Ok(opts)
  {
    var tail := Unlines(["#"] + BodyLines(hosts, opts, proxy)) + END;
    SectionCut(hosts, opts, proxy);
    TopIsNoise(opts, Unlines(OptionLines(opts)) + tail);
    OptionsNotReadBack(opts, tail);
  }

  lemma OptionsNotReadBack(opts: seq<string>, tail: string)
    requires exists k :: 0 <= k < |opts| && !Storable(opts[k])
    ensures ParseText(Unlines(OptionLines(opts)) + tail) != Ok(opts)
  {
    var i := FirstUnstorable(opts);
    OptionsCut(opts, i, tail);
    var rest := Unlines(OptionLines(opts[i + 1..])) + tail;
    StorableRead(opts[..i], OptionLine(opts[i]) + "\n" + rest);
    UnstorableRead(opts[i], rest);
    PrependDiffers(opts, i, ParseText(OptionLine(opts[i]) + "\n" + rest));
  }

  lemma PrependDiffers(opts: seq<string>, i: nat, r: Parsed)
    requires i < |opts| && (r.Err? || (r.value != [] && r.value[0] != opts[i]))
    ensures Prepended(opts[..i], r) != Ok(opts)
  {
    if r.Ok? {
      assert (opts[..i] + r.value)[i] == r.value[0];
    }
  }

  lemma OptionsCut(opts: seq<string>, i: nat, tail: string)
    requires i < |opts|
    ensures Unlines(OptionLines(opts)) + tail ==
            Unlines(OptionLines(opts[..i])) + (OptionLine(opts[i]) + "\n" + (Unlines(OptionLines(opts[i + 1..])) + tail))
  {
    var a, b := OptionLines(opts[..i]), OptionLines(opts[i + 1..]);
    OptionLinesSplit(opts, i);
    UnlinesCut(a, [OptionLine(opts[i])], b, tail);
    SingleLine(OptionLine(opts[i]), Unlines(b) + tail);
  }

  lemma {:induction false} OptionLinesSplit(opts: seq<string>, i: nat)
    requires i < |opts|
    ensures OptionLines(opts) == OptionLines(opts[..i]) + ([OptionLine(opts[i])] + OptionLines(opts[i + 1..]))
  {
    var whole, a, b := OptionLines(opts), OptionLines(opts[..i]), OptionLines(opts[i + 1..]);
    var line := OptionLine(opts[i]);
    SplitByIndex(whole, a, line, b);
  }

  lemma SplitByIndex(whole: seq<string>, a: seq<string>, x: string, b: seq<string>)
    requires |whole| == |a| + 1 + |b| && whole[|a|] == x
    requires forall k :: 0 <= k < |a| ==> whole[k] == a[k]
    requires forall k :: 0 <= k < |b| ==> whole[|a| + 1 + k] == b[k]
    ensures whole == a + ([x] + b)
  {
    forall k | 0 <= k < |whole| ensures whole[k] == (a + ([x] + b))[k] {
      assert k > |a| ==> whole[|a| + 1 + (k - |a| - 1)] == b[k - |a| - 1];
    }
  }

  lemma SingleLine(line: string, rest: string)
    ensures Unlines([line]) + rest == line + "\n" + rest
  {
    assert [line][1..] == [];
  }

  /**
    Options written into a well-placed file are read back as the same list, in order, exactly
    when each is storable: no newline, no trailing carriage return, short enough to scan.
  */
  lemma OptionsRoundTripIff(data: string, hosts: seq<string>, opts: seq<string>, proxy: Option<string>)
    requires Clean(hosts, opts, proxy) && HostsFit(hosts, proxy) && Placed(data)
    ensures var section := GetSection(Rewrite(data, hosts, opts, proxy));
            && section.Section?
            && (ParseText(section.text) == Ok(opts) <==> forall i :: 0 <= i < |opts| ==> Storable(opts[i]))
  {
    SectionShape(hosts, opts, proxy);
    RewriteIsFiled(data, hosts, opts, proxy);
    BeforeIsMarkerFree(data);
    SectionOfAssembled(Split(data).0, Split(data).1, Unlines(SectionLines(hosts, opts, proxy)));
    if forall i :: 0 <= i < |opts| ==> Storable(opts[i]) {
      AllStorableReadBack(hosts, opts, proxy);
    } else {
      UnstorableNotReadBack(hosts, opts, proxy);
    }
  }

  /** A rerun with --use-previous-options on unchanged workspaces reproduces the file. */
  lemma RerunReproducesFile(data: string, hosts: seq<string>, opts: seq<string>, proxy: Option<string>)
    requires Clean(hosts, opts, proxy) && HostsFit(hosts, proxy) && Placed(data)
    requires forall i :: 0 <= i < |opts| ==> Storable(opts[i])
    ensures var file := Rewrite(data, hosts, opts, proxy);
            && GetSection(file).Section?
            && var previous := ParseText(GetSection(file).text);
               previous.Ok? && Rewrite(file, hosts, previous.value, proxy) == file
  {
    OptionsRoundTripIff(data, hosts, opts, proxy);
    RewriteIdempotentIff(data, hosts, opts, proxy);
  }

  // ---- the code that writes and scans ----

  class Buffer {
    var bytes: string

    constructor ()
      ensures bytes == ""
    {
      bytes := "";
    }

    method Write(s: string)
      modifies this
      ensures bytes == old(bytes) + s
    {
      bytes := bytes + s;
    }
  }

  lemma AppendLines(base: string, lines: seq<string>, more: seq<string>)
    ensures base + Unlines(lines) + Unlines(more) == base + Unlines(lines + more)
  {
    UnlinesAppend(lines, more);
  }

  lemma AppendLine(base: string, lines: seq<string>, line: string)
    ensures base + Unlines(lines) + (line + "\n") == base + Unlines(lines + [line])
  {
    UnlinesAppend(lines, [line]);
    SingleLine(line, "");
    assert Unlines([line]) + "" == Unlines([line]);
    assert line + "\n" + "" == line + "\n";
  }

  method WriteOptions(w: Buffer, opts: seq<string>)
    modifies w
    ensures w.bytes == old(w.bytes) + Unlines(OptionLines(opts))
  {
    var i := 0;
    ghost var base, lines := w.bytes, OptionLines(opts);
    assert base + Unlines(lines[..0]) == base;
    while i < |opts|
      invariant 0 <= i <= |opts| && w.bytes == base + Unlines(lines[..i])
    {
      w.Write(OptionLine(opts[i]) + "\n");
      AppendLine(base, lines[..i], lines[i]);
      assert lines[..i] + [lines[i]] == lines[..i + 1];
      i := i + 1;
    }
    assert lines[..i] == lines;
  }

  method WriteSectionHeader(w: Buffer, addNewline: bool, opts: seq<string>)
    modifies w
    ensures w.bytes == old(w.bytes) + (if addNewline then "\n" else "") + Unlines(HeaderLines(opts))
  {
    var nl := if addNewline then "\n" else "";
    w.Write(nl);
    ghost var base := w.bytes;
    ghost var lines := BANNER;
    w.Write(Unlines(BANNER));
    if |opts| > 0 {
      w.Write(Unlines(OPTIONS_HEADER));
      AppendLines(base, lines, OPTIONS_HEADER);
      lines := lines + OPTIONS_HEADER;
      WriteOptions(w, opts);
      AppendLines(base, lines, OptionLines(opts));
      lines := lines + OptionLines(opts);
    }
    w.Write("#" + "\n");
    AppendLine(base, lines, "#");
    HeaderRegroup(BANNER, OPTIONS_HEADER, OptionLines(opts), ["#"]);
    assert lines + ["#"] == HeaderLines(opts);
  }

  lemma HeaderRegroup(banner: seq<string>, header: seq<string>, opts: seq<string>, hash: seq<string>)
    ensures banner + [] + hash == banner + hash
    ensures banner + (header + opts) + hash == banner + header + opts + hash
  {
  }

  lemma {:induction false} BodyLinesSnoc(hosts: seq<string>, host: string, opts: seq<string>, proxy: Option<string>)
    ensures BodyLines(hosts + [host], opts, proxy) == BodyLines(hosts, opts, proxy) + HostLines(host, opts, proxy)
  {
    var more := hosts + [host];
    if hosts == [] {
      assert more[1..] == [];
    } else {
      var first, last := HostLines(hosts[0], opts, proxy), HostLines(host, opts, proxy);
      BodyLinesSnoc(hosts[1..], host, opts, proxy);
      assert more[1..] == hosts[1..] + [host] && more[0] == hosts[0];
      Associate(first, BodyLines(hosts[1..], opts, proxy), last);
    }
  }

  lemma Associate<T>(a: seq<T>, b: seq<T>, c: seq<T>)
    ensures a + (b + c) == (a + b) + c
  {
  }

  method WriteHosts(w: Buffer, hosts: seq<string>, opts: seq<string>, proxy: Option<string>)
    modifies w
    ensures w.bytes == old(w.bytes) + Unlines(BodyLines(hosts, opts, proxy))
  {
    var i := 0;
    ghost var base := w.bytes;
    assert base + Unlines(BodyLines(hosts[..0], opts, proxy)) == base;
    while i < |hosts|
      invariant 0 <= i <= |hosts| && w.bytes == base + Unlines(BodyLines(hosts[..i], opts, proxy))
    {
      w.Write(Unlines(HostLines(hosts[i], opts, proxy)));
      AppendLines(base, BodyLines(hosts[..i], opts, proxy), HostLines(hosts[i], opts, proxy));
      BodyLinesSnoc(hosts[..i], hosts[i], opts, proxy);
      assert hosts[..i] + [hosts[i]] == hosts[..i + 1];
      i := i + 1;
    }
    assert hosts[..i] == hosts;
  }

  method WriteAround(before: string, after: string, hosts: seq<string>, opts: seq<string>, proxy: Option<string>)
    returns (file: string)
    ensures file == Assemble(before, SectionText(hosts, opts, proxy), after)
  {
    var buf := new Buffer();
    buf.Write(before);
    assert buf.bytes == before;
    WriteSectionHeader(buf, |before| > 0, opts);
    ghost var nl, header := if |before| > 0 then "\n" else "", Unlines(HeaderLines(opts));
    assert buf.bytes == before + nl + header;
    WriteHosts(buf, hosts, opts, proxy);
    ghost var body := Unlines(BodyLines(hosts, opts, proxy));
    assert buf.bytes == before + nl + header + body;
    buf.Write(END + "\n");
    buf.Write(after);
    file := buf.bytes;
    SectionTextParts(hosts, opts, proxy);
    WrittenOut(before, nl, header, body, END, after);
  }

  lemma SectionTextParts(hosts: seq<string>, opts: seq<string>, proxy: Option<string>)
    ensures SectionText(hosts, opts, proxy) ==
            Unlines(HeaderLines(opts)) + Unlines(BodyLines(hosts, opts, proxy)) + END + "\n"
  {
    UnlinesAppend(HeaderLines(opts), BodyLines(hosts, opts, proxy));
  }

  /** The rewrite body of configSSH. */
  method RewriteConfig(data: string, hosts: seq<string>, opts: seq<string>, proxy: Option<string>) returns (file: string)
    ensures file == Rewrite(data, hosts, opts, proxy)
  {
    var (before, after) := Split(data);
    file := WriteAround(before, after, hosts, opts, proxy);
  }

  lemma WrittenOut(before: string, nl: string, header: string, body: string, end: string, after: string)
    ensures before + nl + header + body + (end + "\n") + after ==
            before + nl + (header + body + end + "\n") + after
  {
  }

  lemma ParseUnfolds(text: string, e: nat)
    requires text != "" && e == Position(text, '\n') < MAX_TOKEN
    ensures ParseText(text) ==
            var head := ParseLine(DropCR(text[..e]));
            if head.Err? then Err else Prepended(head.value, ParseText(AfterLine(text, e)))
  {
  }

  lemma AfterHead(list: seq<string>, whole: Parsed, head: Parsed, tail: Parsed)
    requires whole == if head.Err? then Err else Prepended(head.value, tail)
    ensures Prepended(list, whole) == if head.Err? then Err else Prepended(list + head.value, tail)
  {
    if head.Ok? {
      PrependedTwice(list, head.value, tail);
    }
  }

  method ParseLastOptions(section: string) returns (r: Parsed)
    ensures r == ParseText(section)
  {
    var text := section;
    var list: seq<string> := [];
    PrependedNothing(ParseText(section));
    while text != ""
      invariant ParseText(section) == Prepended(list, ParseText(text))
      decreases |text|
    {
      var e := Position(text, '\n');
      if e >= MAX_TOKEN { return Err; }
      var head := ParseLine(DropCR(text[..e]));
      ParseUnfolds(text, e);
      AfterHead(list, ParseText(text), head, ParseText(AfterLine(text, e)));
      if head.Err? { return Err; }
      list := list + head.value;
      text := AfterLine(text, e);
    }
    assert list + [] == list;
    r := Ok(list);
  }

  // ---- tagged lines of other kinds ----

  /** A tagged line gives its value if its key is the option key, and nothing otherwise; without "=" that key panics. */
  lemma TaggedLine(key: string, value: string)
    requires '=' !in key
    ensures ParseLine("# :" + key + "=" + value) == Ok(if key == OPTION_KEY then [value] else [])
    ensures ParseLine("# :" + key) == if key == OPTION_KEY then Err else Ok([])
  {
    KeyedLine("# :" + key + "=" + value, key + "=" + value, key, value);
    BareLine("# :" + key, key);
  }

  lemma KeyedLine(line: string, entry: string, key: string, value: string)
    requires '=' !in key && entry == key + "=" + value && line == "# :" + key + "=" + value
    ensures ParseLine(line) == Ok(if key == OPTION_KEY then [value] else [])
  {
    assert line[3..] == entry;
    PositionOf(key, '=', value);
    assert entry[..|key|] == key && entry[|key| + 1..] == value;
  }

  lemma BareLine(line: string, key: string)
    requires '=' !in key && line == "# :" + key
    ensures ParseLine(line) == if key == OPTION_KEY then Err else Ok([])
  {
    assert line[3..] == key;
    PositionAbsent(key, '=');
    assert key[..|key|] == key;
  }

  // ---- what ssh finds for a host ----

  predicate IsHeader(line: string) { |line| >= 5 && line[..5] == "Host " }

  /** The lines up to the next header. */
  function Block(lines: seq<string>): seq<string> {
    if lines == [] || IsHeader(lines[0]) then [] else [lines[0]] + Block(lines[1..])
  }

  /** The settings of the first stanza of that name. */
  function StanzaOf(lines: seq<string>, host: string): seq<string> {
    if lines == [] then []
    else if lines[0] == "Host coder." + host then Block(lines[1..])
    else StanzaOf(lines[1..], host)
  }

  lemma {:induction false} BlockOfSettings(settings: seq<string>, rest: seq<string>)
    requires forall i :: 0 <= i < |settings| ==> !IsHeader(settings[i])
    requires rest == [] || IsHeader(rest[0])
    ensures Block(settings + rest) == settings
  {
    if settings == [] {
      assert settings + rest == rest;
    } else {
      BlockOfSettings(settings[1..], rest);
      assert (settings + rest)[1..] == settings[1..] + rest;
    }
  }

  lemma {:induction false} StanzaAfterOthers(settings: seq<string>, rest: seq<string>, host: string)
    requires forall i :: 0 <= i < |settings| ==> !IsHeader(settings[i])
    ensures StanzaOf(settings + rest, host) == StanzaOf(rest, host)
  {
    if settings == [] {
      assert settings + rest == rest;
    } else {
      StanzaAfterOthers(settings[1..], rest, host);
      HeaderOf(host);
      assert (settings + rest)[1..] == settings[1..] + rest;
    }
  }

  lemma HeaderOf(host: string)
    ensures IsHeader("Host coder." + host)
  {
    assert ("Host coder." + host)[..5] == "Host ";
  }

  lemma SettingsAreIndented(host: string, opts: seq<string>, proxy: Option<string>)
    ensures HostLines(host, opts, proxy) != [] && HostLines(host, opts, proxy)[0] == "Host coder." + host
    ensures forall i :: 1 <= i < |HostLines(host, opts, proxy)| ==> !IsHeader(HostLines(host, opts, proxy)[i])
  {
    var lines := HostLines(host, opts, proxy);
    forall i | 1 <= i < |lines| ensures !IsHeader(lines[i]) {
      assert lines[i][0] == '\t';
    }
  }

  lemma BodyOpens(hosts: seq<string>, opts: seq<string>, proxy: Option<string>)
    ensures var body := BodyLines(hosts, opts, proxy); body == [] || IsHeader(body[0])
  {
    if hosts != [] {
      SettingsAreIndented(hosts[0], opts, proxy);
      HeaderOf(hosts[0]);
    }
  }

  lemma HeadersDiffer(a: string, b: string)
    requires a != b
    ensures "Host coder." + a != "Host coder." + b
  {
    assert ("Host coder." + a)[11..] == a && ("Host coder." + b)[11..] == b;
  }

  lemma {:induction false} StanzaIsFound(hosts: seq<string>, opts: seq<string>, proxy: Option<string>, host: string)
    requires host in hosts
    ensures StanzaOf(BodyLines(hosts, opts, proxy), host) == HostLines(host, opts, proxy)[1..]
  {
    var first, rest := HostLines(hosts[0], opts, proxy), BodyLines(hosts[1..], opts, proxy);
    SettingsAreIndented(hosts[0], opts, proxy);
    var settings := first[1..];
    assert first == [first[0]] + settings;
    assert (first + rest)[1..] == settings + rest;
    if hosts[0] == host {
      BodyOpens(hosts[1..], opts, proxy);
      BlockOfSettings(settings, rest);
    } else {
      HeadersDiffer(hosts[0], host);
      StanzaAfterOthers(settings, rest, host);
      StanzaIsFound(hosts[1..], opts, proxy, host);
    }
  }

  /**
    For every host of the section ssh finds the stored options first, in order, then the host's own
    settings, and the proxy command exactly if it is not skipped.
  */
  lemma StanzaHolds(hosts: seq<string>, opts: seq<string>, proxy: Option<string>, host: string)
    requires host in hosts
    ensures var st, n := StanzaOf(BodyLines(hosts, opts, proxy), host), |opts|;
            && |st| == n + 5 + (if proxy.Some? then 1 else 0)
            && (forall i :: 0 <= i < n ==> st[i] == "\t" + opts[i])
            && st[n] == "\tHostName coder." + host
            && st[n + 1] == "\tConnectTimeout=0" && st[n + 2] == "\tStrictHostKeyChecking=no"
            && st[n + 3] == "\tUserKnownHostsFile=/dev/null" && st[n + 4] == "\tLogLevel ERROR"
            && (proxy.Some? ==> st[n + 5] == "\tProxyCommand " + proxy.value + " ssh --stdio " + host)
  {
    StanzaIsFound(hosts, opts, proxy, host);
  }

  // ---- line endings and crossed markers ----

  /** A file with Windows line endings reads the same. */
  lemma CarriageReturnIgnored(line: string, rest: string)
    requires '\n' !in line && |line| + 1 < MAX_TOKEN && (line == "" || line[|line| - 1] != '\r')
    ensures ParseText(line + "\r" + "\n" + rest) == ParseText(line + "\n" + rest)
  {
    var crlf := line + "\r";
    ParseTextLine(crlf, rest);
    ParseTextLine(line, rest);
    assert DropCR(crlf) == line && DropCR(line) == line;
  }

  lemma AdjacentIndexes(end: string, start: string, after: string, k: nat)
    requires k < |end| && k < |start| && end[k] != start[k]
    requires forall i :: 0 < i < |end| ==> end[i] != start[0]
    ensures Index(end + start + after, end) == 0 && Index(end + start + after, start) == |end|
  {
    var data := end + start + after;
    assert data[0..|end|] == end && data[|end|..|end| + |start|] == start;
    assert OccursAt(data, end, 0) && OccursAt(data, start, |end|);
    var r := Index(data, start);
    assert data[r..r + |start|][0] == data[r] && data[r..r + |start|][k] == data[r + k];
  }

  lemma EndHasOneHash()
    ensures forall i :: 0 < i < |END| ==> END[i] != START[0]
  {
  }

  /** A start marker right behind the end marker gives an empty section; it takes a gap to panic. */
  lemma AdjacentMarkers(after: string)
    ensures GetSection(END + START + after) == Section("")
  {
    EndHasOneHash();
    AdjacentIndexes(END, START, after, 14);
  }
}
