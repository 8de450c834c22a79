/**
  cli/portforward.go: port-forward specifications such as "8080:80,9000-9010".
*/
module PortForward {
  import opened Decimal
  import opened Wrappers

  /** A range that ends at 65535 makes the 16-bit loop counter wrap and the parse never return. */
  datatype Outcome<+T> = Done(value: T) | Failed | Diverges

  const UINT16 := 0x1_0000

  type Port = p: int | 0 < p < UINT16 witness 1

  // ---- text ----

  /** strings.Split on a one-character separator: always at least one part. */
  function Split(s: string, sep: char): (r: seq<string>)
    ensures r != []
  {
    if s == "" then [""]
    else
      var rest := Split(s[1..], sep);
      if s[0] == sep then [""] + rest else [[s[0]] + rest[0]] + rest[1..]
  }

  /** unicode.IsSpace */
  predicate IsSpace(c: char) {
    || c in {' ', '\t', '\n', '\U{B}', '\U{C}', '\r', '\U{85}', '\U{A0}', '\U{1680}'}
    || '\U{2000}' <= c <= '\U{200A}'
    || c in {'\U{2028}', '\U{2029}', '\U{202F}', '\U{205F}', '\U{3000}'}
  }

  function TrimLeft(s: string): string {
    if s != "" && IsSpace(s[0]) then TrimLeft(s[1..]) else s
  }

  function TrimRight(s: string): string {
    if s != "" && IsSpace(s[|s| - 1]) then TrimRight(s[..|s| - 1]) else s
  }

  /** strconv.ParseUint(strings.TrimSpace(in), 10, 16), with zero refused. */
  function ParsePort(input: string): Option<Port> {
    var s := TrimRight(TrimLeft(input));
    if s == "" || !AllDigits(s) then None
    else if Value(s) >= UINT16 || Value(s) == 0 then None
    else Some(Value(s))
  }

  // ---- the range loop ----

  /** `for i := start; i <= end; i++` after k rounds, with a uint16 counter. */
  ghost function Rounds(start: Port, k: nat): (int, seq<int>) {
    if k == 0 then (start, [])
    else
      var (i, ports) := Rounds(start, k - 1);
      ((i + 1) % UINT16, ports + [i])
  }

  ghost predicate ExitsAfter(start: Port, end: Port, k: nat) {
    && (forall j :: 0 <= j < k ==> Rounds(start, j).0 <= end)
    && Rounds(start, k).0 > end
  }

  lemma {:induction false} RoundsCount(start: Port, k: nat)
    requires start + k < UINT16
    ensures Rounds(start, k).0 == start + k
    ensures |Rounds(start, k).1| == k && forall j :: 0 <= j < k ==> Rounds(start, k).1[j] == start + j
  {
    if k > 0 {
      RoundsCount(start, k - 1);
    }
  }

  lemma {:induction false} CounterStays16Bit(start: Port, k: nat)
    ensures 0 <= Rounds(start, k).0 < UINT16
  {
    if k > 0 {
      CounterStays16Bit(start, k - 1);
    }
  }

  /** The loop ends exactly when the range stops short of 65535, and then it lists the range. */
  lemma RangeLoopEndsIff(start: Port, end: Port)
    requires start <= end
    ensures (exists k :: ExitsAfter(start, end, k)) <==> end < UINT16 - 1
    ensures end < UINT16 - 1 ==> ExitsAfter(start, end, end - start + 1)
  {
    if end < UINT16 - 1 {
      forall j | 0 <= j <= end - start + 1 { RoundsCount(start, j); }
      assert ExitsAfter(start, end, end - start + 1);
    } else {
      forall k ensures !ExitsAfter(start, end, k) {
        if k >= 0 { CounterStays16Bit(start, k); }
      }
    }
  }

  ghost function Range(start: Port, end: Port): seq<Port>
    requires start <= end
  {
    seq(end - start + 1, j requires 0 <= j < end - start + 1 => start + j)
  }

  method ExpandRange(start: Port, end: Port) returns (ports: seq<Port>)
    requires start <= end < UINT16 - 1
    ensures ports == Range(start, end)
  {
    ports := [];
    var i: int := start;
    while i <= end
      invariant start <= i <= end + 1
      invariant ports == seq(i - start, j requires 0 <= j < i - start => start + j)
    {
      ports := ports + [i];
      i := (i + 1) % UINT16;
    }
  }

  ghost function RangeOf(input: string): Outcome<seq<Port>> {
    var parts := Split(input, '-');
    if |parts| != 2 then Failed
    else
      var (start, end) := (ParsePort(parts[0]), ParsePort(parts[1]));
      if start.None? || end.None? || end.value < start.value then Failed
      else if end.value == UINT16 - 1 then Diverges
      else Done(Range(start.value, end.value))
  }

  /** An input has no outcome exactly when it names two ports in order and the loop between them never exits. */
  lemma RangeDivergesIff(input: string)
    ensures var parts := Split(input, '-');
            RangeOf(input).Diverges? <==>
              && |parts| == 2 && ParsePort(parts[0]).Some? && ParsePort(parts[1]).Some?
              && ParsePort(parts[0]).value <= ParsePort(parts[1]).value
              && !exists k :: ExitsAfter(ParsePort(parts[0]).value, ParsePort(parts[1]).value, k)
  {
    var parts := Split(input, '-');
    if |parts| == 2 && ParsePort(parts[0]).Some? && ParsePort(parts[1]).Some?
       && ParsePort(parts[0]).value <= ParsePort(parts[1]).value {
      RangeLoopEndsIff(ParsePort(parts[0]).value, ParsePort(parts[1]).value);
    }
  }

  method ParsePortRange(input: string) returns (r: Outcome<seq<Port>>)
    ensures r == RangeOf(input)
  {
    var parts := Split(input, '-');
    if |parts| != 2 { return Failed; }
    var start, end := ParsePort(parts[0]), ParsePort(parts[1]);
    if start.None? || end.None? { return Failed; }
    if end.value < start.value { return Failed; }
    if end.value == UINT16 - 1 { return Diverges; }
    var ports := ExpandRange(start.value, end.value);
    r := Done(ports);
  }

  // ---- one specification ----

  datatype Pair = Pair(local: Port, remote: Port)

  ghost function Zip(local: seq<Port>, remote: seq<Port>): seq<Pair>
    requires |local| == |remote|
  {
    seq(|local|, i requires 0 <= i < |local| => Pair(local[i], remote[i]))
  }

  ghost function PairsOf(input: string): Outcome<seq<Pair>> {
    var split := Split(input, ':');
    if |split| > 2 then Failed
    else
      var parts := if |split| == 1 then split + [split[0]] else split;
      if '-' !in parts[0] then
        var (local, remote) := (ParsePort(parts[0]), ParsePort(parts[1]));
        if local.None? || remote.None? then Failed else Done([Pair(local.value, remote.value)])
      else
        var (local, remote) := (RangeOf(parts[0]), RangeOf(parts[1]));
        if !local.Done? then if local.Failed? then Failed else Diverges
        else if !remote.Done? then if remote.Failed? then Failed else Diverges
        else if |local.value| != |remote.value| then Failed
        else Done(Zip(local.value, remote.value))
  }

  method ParseSrcDestPorts(input: string) returns (r: Outcome<seq<Pair>>)
    ensures r == PairsOf(input)
  {
    var parts := Split(input, ':');
    if |parts| > 2 { return Failed; }
    if |parts| == 1 { parts := parts + [parts[0]]; }
    if '-' !in parts[0] {
      var local, remote := ParsePort(parts[0]), ParsePort(parts[1]);
      if local.None? || remote.None? { return Failed; }
      return Done([Pair(local.value, remote.value)]);
    }
    var local := ParsePortRange(parts[0]);
    if !local.Done? { return if local.Failed? then Failed else Diverges; }
    var remote := ParsePortRange(parts[1]);
    if !remote.Done? { return if remote.Failed? then Failed else Diverges; }
    if |local.value| != |remote.value| { return Failed; }
    var out: seq<Pair> := [];
    for i := 0 to |local.value|
      invariant out == seq(i, j requires 0 <= j < i => Pair(local.value[j], remote.value[j]))
    {
      out := out + [Pair(local.value[i], remote.value[i])];
    }
    r := Done(out);
  }

  /** Accepted ports run consecutively on both sides, at one constant offset, inside 1..65535. */
  lemma PairsKeepOffset(input: string, i: nat)
    requires PairsOf(input).Done? && i < |PairsOf(input).value|
    ensures var ps := PairsOf(input).value;
            && ps[i].local == ps[0].local + i
            && ps[i].remote - ps[i].local == ps[0].remote - ps[0].local
  {
  }

  // ---- printed specifications ----

  lemma {:induction false} SplitAbsent(s: string, sep: char)
    requires sep !in s
    ensures Split(s, sep) == [s]
  {
    if s != "" {
      assert s[0] in s;
      SplitAbsent(s[1..], sep);
      assert [s[0]] + s[1..] == s;
    }
  }

  lemma {:induction false} SplitTwo(a: string, sep: char, b: string)
    requires sep !in a && sep !in b
    ensures Split(a + [sep] + b, sep) == [a, b]
  {
    if a == "" {
      SplitAbsent(b, sep);
      assert (a + [sep] + b)[1..] == b;
    } else {
      assert a[0] in a;
      SplitTwo(a[1..], sep, b);
      assert (a + [sep] + b)[1..] == a[1..] + [sep] + b;
      assert [a[0]] + a[1..] == a;
    }
  }

  lemma PrintedPort(p: Port)
    ensures ParsePort(Itoa(p)) == Some(p)
    ensures '-' !in Itoa(p) && ':' !in Itoa(p)
  {
    ValueOfItoa(p);
    var s := Itoa(p);
    assert IsDigit(s[0]) && IsDigit(s[|s| - 1]);
  }

  lemma PrintedRange(start: Port, end: Port)
    requires start <= end < UINT16 - 1
    ensures RangeOf(Itoa(start) + ['-'] + Itoa(end)) == Done(Range(start, end))
  {
    PrintedPort(start);
    PrintedPort(end);
    SplitTwo(Itoa(start), '-', Itoa(end));
  }

  /** "a-b:c-d" with ranges of one length forwards a+i to c+i. */
  lemma PrintedRangesForward(a: Port, b: Port, c: Port, d: Port)
    requires a <= b < UINT16 - 1 && c <= d < UINT16 - 1
    ensures var spec := (Itoa(a) + ['-'] + Itoa(b)) + [':'] + (Itoa(c) + ['-'] + Itoa(d));
            PairsOf(spec) == if b - a == d - c then Done(Zip(Range(a, b), Range(c, d))) else Failed
  {
    PrintedPort(a);
    PrintedPort(b);
    PrintedPort(c);
    PrintedPort(d);
    PrintedRange(a, b);
    PrintedRange(c, d);
    var left, right := Itoa(a) + ['-'] + Itoa(b), Itoa(c) + ['-'] + Itoa(d);
    SplitTwo(left, ':', right);
    assert left[|Itoa(a)|] == '-';
  }

  // ---- all specifications ----

  datatype Forward = Forward(network: string, local: Port, remote: Port)

  function Address(p: Port): string { "127.0.0.1:" + Itoa(p) }

  function LocalKey(f: Forward): string { f.network + ":" + Address(f.local) }

  ghost function Tagged(network: string, ps: seq<Pair>): seq<Forward> {
    seq(|ps|, i requires 0 <= i < |ps| => Forward(network, ps[i].local, ps[i].remote))
  }

  function Flatten(entries: seq<string>): seq<string> {
    if entries == [] then [] else Split(entries[0], ',') + Flatten(entries[1..])
  }

  /** The specs in turn; the first that fails or never returns decides. */
  ghost function ForwardsOf(network: string, specs: seq<string>): Outcome<seq<Forward>> {
    if specs == [] then Done([])
    else
      Combined(network, PairsOf(specs[0]), ForwardsOf(network, specs[1..]))
  }

  ghost function Combined(network: string, head: Outcome<seq<Pair>>, rest: Outcome<seq<Forward>>): Outcome<seq<Forward>> {
    if head.Failed? then Failed
    else if head.Diverges? then Diverges
    else if rest.Done? then Done(Tagged(network, head.value) + rest.value)
    else rest
  }

  ghost function AllForwards(tcp: seq<string>, udp: seq<string>): Outcome<seq<Forward>> {
    var t := ForwardsOf("tcp", Flatten(tcp));
    if !t.Done? then t
    else
      var u := ForwardsOf("udp", Flatten(udp));
      if u.Done? then Done(t.value + u.value) else u
  }

  ghost predicate DistinctLocals(fs: seq<Forward>) {
    forall i, j :: 0 <= i < j < |fs| ==> fs[i].network != fs[j].network || fs[i].local != fs[j].local
  }

  ghost predicate TcpOrUdp(fs: seq<Forward>) {
    forall i :: 0 <= i < |fs| ==> fs[i].network == "tcp" || fs[i].network == "udp"
  }

  /** The strings compared for duplicates tell (network, port) pairs apart. */
  lemma LocalKeyInjective(f: Forward, g: Forward)
    requires f.network in {"tcp", "udp"} && g.network in {"tcp", "udp"}
    ensures LocalKey(f) == LocalKey(g) <==> f.network == g.network && f.local == g.local
  {
    var kf, kg := LocalKey(f), LocalKey(g);
    assert kf[..3] == f.network && kg[..3] == g.network;
    assert kf[4..] == Address(f.local) && kg[4..] == Address(g.local);
    assert Address(f.local)[10..] == Itoa(f.local) && Address(g.local)[10..] == Itoa(g.local);
    if Itoa(f.local) == Itoa(g.local) {
      ItoaInjective(f.local, g.local);
    }
  }

  method CheckDuplicates(fs: seq<Forward>) returns (ok: bool)
    requires TcpOrUdp(fs)
    ensures ok <==> DistinctLocals(fs)
  {
    var locals: set<string> := {};
    for i := 0 to |fs|
      invariant locals == set j | 0 <= j < i :: LocalKey(fs[j])
      invariant DistinctLocals(fs[..i])
    {
      forall j | 0 <= j < i ensures LocalKey(fs[j]) == LocalKey(fs[i]) <==> fs[j].network == fs[i].network && fs[j].local == fs[i].local {
        LocalKeyInjective(fs[j], fs[i]);
      }
      if LocalKey(fs[i]) in locals {
        return false;
      }
      locals := locals + {LocalKey(fs[i])};
    }
    assert fs[..|fs|] == fs;
    ok := true;
  }

  method Tag(network: string, ps: seq<Pair>) returns (fs: seq<Forward>)
    ensures fs == Tagged(network, ps)
  {
    fs := [];
    for i := 0 to |ps|
      invariant fs == Tagged(network, ps)[..i]
    {
      fs := fs + [Forward(network, ps[i].local, ps[i].remote)];
    }
  }

  method ParseNetwork(network: string, entries: seq<string>) returns (r: Outcome<seq<Forward>>)
    ensures r == ForwardsOf(network, Flatten(entries))
  {
    var specs: seq<Forward> := [];
    var todo := Flatten(entries);
    PrependNothing(ForwardsOf(network, todo));
    while todo != []
      invariant ForwardsOf(network, Flatten(entries)) == Prepend(specs, ForwardsOf(network, todo))
      decreases |todo|
    {
      var ports := ParseSrcDestPorts(todo[0]);
      if ports.Failed? { return Failed; }
      if ports.Diverges? { return Diverges; }
      PrependTwice(specs, Tagged(network, ports.value), ForwardsOf(network, todo[1..]));
      var tagged := Tag(network, ports.value);
      specs := specs + tagged;
      todo := todo[1..];
    }
    assert specs + [] == specs;
    r := Done(specs);
  }

  ghost function Prepend(fs: seq<Forward>, r: Outcome<seq<Forward>>): Outcome<seq<Forward>> {
    if r.Done? then Done(fs + r.value) else r
  }

  lemma PrependNothing(r: Outcome<seq<Forward>>)
    ensures Prepend([], r) == r
  {
    if r.Done? {
      assert [] + r.value == r.value;
    }
  }

  lemma PrependTwice(a: seq<Forward>, b: seq<Forward>, r: Outcome<seq<Forward>>)
    ensures Prepend(a, Prepend(b, r)) == Prepend(a + b, r)
  {
    if r.Done? {
      assert a + (b + r.value) == a + b + r.value;
    }
  }

  lemma {:induction false} NetworkOf(network: string, specs: seq<string>)
    ensures var r := ForwardsOf(network, specs);
            r.Done? ==> forall i :: 0 <= i < |r.value| ==> r.value[i].network == network
  {
    if specs != [] {
      NetworkOf(network, specs[1..]);
    }
  }

  /**
    The whole parse succeeds exactly when every specification does and no (network, local
    port) pair is named twice; it never returns exactly when a range it reaches ends at 65535.
  */
  method ParsePortForwards(tcp: seq<string>, udp: seq<string>) returns (r: Outcome<seq<Forward>>)
    ensures r.Done? <==> AllForwards(tcp, udp).Done? && DistinctLocals(AllForwards(tcp, udp).value)
    ensures r.Done? ==> r == AllForwards(tcp, udp)
    ensures r.Diverges? <==> AllForwards(tcp, udp).Diverges?
  {
    var t := ParseNetwork("tcp", tcp);
    if !t.Done? { return t; }
    var u := ParseNetwork("udp", udp);
    if !u.Done? { return u; }
    NetworkOf("tcp", Flatten(tcp));
    NetworkOf("udp", Flatten(udp));
    var specs := t.value + u.value;
    var ok := CheckDuplicates(specs);
    r := if ok then Done(specs) else Failed;
  }

  // ---- printed specifications of whole flags ----

  /** "a:b" forwards local port a to remote port b, and "a" to itself. */
  lemma PrintedPair(a: Port, b: Port)
    ensures PairsOf(Itoa(a) + [':'] + Itoa(b)) == Done([Pair(a, b)])
    ensures PairsOf(Itoa(a)) == Done([Pair(a, a)])
  {
    PrintedPort(a);
    PrintedPort(b);
    SplitTwo(Itoa(a), ':', Itoa(b));
    SplitAbsent(Itoa(a), ':');
  }

  predicate Blank(s: string) { forall i :: 0 <= i < |s| ==> IsSpace(s[i]) }

  lemma {:induction false} TrimLeftCuts(s: string) returns (a: string)
    ensures s == a + TrimLeft(s) && Blank(a)
  {
    if s != "" && IsSpace(s[0]) {
      var b := TrimLeftCuts(s[1..]);
      a := [s[0]] + b;
    } else {
      a := "";
    }
  }

  lemma {:induction false} TrimRightCuts(s: string) returns (b: string)
    ensures s == TrimRight(s) + b && Blank(b)
  {
    if s != "" && IsSpace(s[|s| - 1]) {
      var a := TrimRightCuts(s[..|s| - 1]);
      b := a + [s[|s| - 1]];
    } else {
      b := "";
    }
  }

  lemma {:induction false} TrimLeftOf(a: string, x: string)
    requires Blank(a) && x != "" && !IsSpace(x[0])
    ensures TrimLeft(a + x) == x
  {
    if a == "" {
      assert a + x == x;
    } else {
      assert (a + x)[1..] == a[1..] + x;
      TrimLeftOf(a[1..], x);
    }
  }

  lemma {:induction false} TrimRightOf(x: string, b: string)
    requires Blank(b) && x != "" && !IsSpace(x[|x| - 1])
    ensures TrimRight(x + b) == x
  {
    if b == "" {
      assert x + b == x;
    } else {
      assert (x + b)[..|x + b| - 1] == x + b[..|b| - 1];
      TrimRightOf(x, b[..|b| - 1]);
    }
  }

  /** A port is read exactly from its digits, with any blanks around them. */
  ghost predicate ReadsAsPort(s: string, p: Port, a: string, d: string, b: string) {
    s == a + d + b && Blank(a) && Blank(b) && d != "" && AllDigits(d) && Value(d) == p
  }

  lemma PortIff(s: string, p: Port)
    ensures ParsePort(s) == Some(p) <==> exists a, d, b :: ReadsAsPort(s, p, a, d, b)
  {
    if ParsePort(s) == Some(p) {
      var a := TrimLeftCuts(s);
      var b := TrimRightCuts(TrimLeft(s));
      var d := TrimRight(TrimLeft(s));
      assert s == a + (d + b) == a + d + b;
      assert ReadsAsPort(s, p, a, d, b);
    }
    if a, d, b :| ReadsAsPort(s, p, a, d, b) {
      DigitsAreRead(p, a, d, b);
    }
  }

  lemma DigitsAreRead(p: Port, a: string, d: string, b: string)
    requires ReadsAsPort(a + d + b, p, a, d, b)
    ensures ParsePort(a + d + b) == Some(p)
  {
    assert IsDigit(d[0]) && IsDigit(d[|d| - 1]);
    assert a + d + b == a + (d + b);
    TrimLeftOf(a, d + b);
    TrimRightOf(d, b);
  }

  /** White space on either side of a port does not matter. */
  lemma BlanksAreTrimmed(p: Port)
    ensures ParsePort(" \t\r\n" + Itoa(p) + " \t\r\n") == Some(p)
  {
    ValueOfItoa(p);
    assert ReadsAsPort(" \t\r\n" + Itoa(p) + " \t\r\n", p, " \t\r\n", Itoa(p), " \t\r\n");
    PortIff(" \t\r\n" + Itoa(p) + " \t\r\n", p);
  }

  /** Zero, numbers past 65535 and text that is not all digits are no ports. */
  lemma NotAPort(n: nat)
    ensures n == 0 || n >= UINT16 ==> ParsePort(Itoa(n)) == None
    ensures ParsePort("") == None && ParsePort("-" + Itoa(n)) == None
  {
    ValueOfItoa(n);
    var s := Itoa(n);
    assert IsDigit(s[0]) && IsDigit(s[|s| - 1]);
    var t := "-" + s;
    assert t[|t| - 1] == s[|s| - 1];
    NotAllDigits(t, 0);
  }

  lemma NotAllDigits(s: string, i: nat)
    requires i < |s| && !IsDigit(s[i]) && !IsSpace(s[0]) && !IsSpace(s[|s| - 1])
    ensures ParsePort(s) == None
  {
  }

  /** A range that runs backwards, a third part, and a port paired with a range are refused. */
  lemma MalformedSpecs(a: Port, b: Port, c: Port)
    ensures a > b ==> RangeOf(Itoa(a) + ['-'] + Itoa(b)) == Failed
    ensures PairsOf(Itoa(a) + [':'] + (Itoa(b) + ['-'] + Itoa(c))) == Failed
    ensures RangeOf(Itoa(a)) == Failed
  {
    PrintedPort(a);
    PrintedPort(b);
    PrintedPort(c);
    SplitTwo(Itoa(a), '-', Itoa(b));
    SplitAbsent(Itoa(a), '-');
    var range := Itoa(b) + ['-'] + Itoa(c);
    SplitTwo(Itoa(a), ':', range);
    RangeIsNoPort(b, c);
  }

  lemma DashIsNoPort(x: string, y: string)
    requires x != "" && y != "" && AllDigits(x) && AllDigits(y)
    ensures ParsePort(x + ['-'] + y) == None
  {
    assert IsDigit(x[0]) && IsDigit(y[|y| - 1]);
    NotAllDigits(x + ['-'] + y, |x|);
  }

  lemma RangeIsNoPort(b: Port, c: Port)
    ensures ParsePort(Itoa(b) + ['-'] + Itoa(c)) == None
  {
    ValueOfItoa(b);
    ValueOfItoa(c);
    DashIsNoPort(Itoa(b), Itoa(c));
  }

  datatype AnySpec = Single(local: Port, remote: Port) | Ranged(first: Port, last: Port, remote: Port)

  /** Ranges run forwards and end below 65535 on both sides. */
  predicate Printable(x: AnySpec) {
    x.Ranged? ==> x.first <= x.last < UINT16 - 1 && x.remote + (x.last - x.first) < UINT16 - 1
  }

  type Spec = x: AnySpec | Printable(x) witness Single(1, 1)

  function PrintSpec(x: Spec): string {
    match x
    case Single(local, remote) => Itoa(local) + [':'] + Itoa(remote)
    case Ranged(first, last, remote) =>
      (Itoa(first) + ['-'] + Itoa(last)) + [':'] + (Itoa(remote) + ['-'] + Itoa(remote + (last - first)))
  }

  /** What the specification means: each local port with its remote port. */
  function Meant(x: Spec, network: string): seq<Forward> {
    match x
    case Single(local, remote) => [Forward(network, local, remote)]
    case Ranged(first, last, remote) =>
      seq(last - first + 1, i requires 0 <= i < last - first + 1 => Forward(network, first + i, remote + i))
  }

  function AllMeant(xs: seq<Spec>, network: string): seq<Forward> {
    if xs == [] then [] else Meant(xs[0], network) + AllMeant(xs[1..], network)
  }

  lemma SingleIsMeant(local: Port, remote: Port, network: string)
    ensures var p := PairsOf(PrintSpec(Single(local, remote)));
            p.Done? && Tagged(network, p.value) == Meant(Single(local, remote), network)
  {
    PrintedPair(local, remote);
  }

  lemma RangedIsMeant(first: Port, last: Port, remote: Port, network: string)
    requires Printable(Ranged(first, last, remote))
    ensures var p := PairsOf(PrintSpec(Ranged(first, last, remote)));
            p.Done? && Tagged(network, p.value) == Meant(Ranged(first, last, remote), network)
  {
    PrintedRangesForward(first, last, remote, remote + (last - first));
    ZipIsMeant(first, last, remote, network);
  }

  lemma ZipIsMeant(first: Port, last: Port, remote: Port, network: string)
    requires Printable(Ranged(first, last, remote))
    ensures Tagged(network, Zip(Range(first, last), Range(remote, remote + (last - first)))) ==
            Meant(Ranged(first, last, remote), network)
  {
  }

  lemma DigitsHaveNoComma(n: nat)
    ensures ',' !in Itoa(n)
  {
    ValueOfItoa(n);
  }

  lemma SpecHasNoComma(x: Spec)
    requires Printable(x)
    ensures ',' !in PrintSpec(x)
  {
    match x
    case Single(local, remote) =>
      DigitsHaveNoComma(local);
      DigitsHaveNoComma(remote);
    case Ranged(first, last, remote) =>
      DigitsHaveNoComma(first);
      DigitsHaveNoComma(last);
      DigitsHaveNoComma(remote);
      DigitsHaveNoComma(remote + (last - first));
  }

  lemma SpecIsMeant(x: Spec, network: string)
    requires Printable(x)
    ensures PairsOf(PrintSpec(x)).Done? && Tagged(network, PairsOf(PrintSpec(x)).value) == Meant(x, network)
  {
    match x
    case Single(local, remote) => SingleIsMeant(local, remote, network);
    case Ranged(first, last, remote) => RangedIsMeant(first, last, remote, network);
  }

  function Mapped<A, B>(f: A -> B, xs: seq<A>): seq<B> {
    seq(|xs|, i requires 0 <= i < |xs| => f(xs[i]))
  }

  lemma MappedAppend<A, B>(f: A -> B, xs: seq<A>, ys: seq<A>)
    ensures Mapped(f, xs + ys) == Mapped(f, xs) + Mapped(f, ys)
  {
  }

  function PrintedSpecs(xs: seq<Spec>): seq<string> { Mapped(PrintSpec, xs) }

  /** One flag value: specifications joined by commas. */
  function Joined(xs: seq<Spec>): string
    requires xs != []
  {
    if |xs| == 1 then PrintSpec(xs[0]) else PrintSpec(xs[0]) + [','] + Joined(xs[1..])
  }

  lemma {:induction false} SplitFirst(a: string, sep: char, b: string)
    requires sep !in a
    ensures Split(a + [sep] + b, sep) == [a] + Split(b, sep)
  {
    if a == "" {
      assert (a + [sep] + b)[1..] == b;
    } else {
      assert a[0] in a;
      SplitFirst(a[1..], sep, b);
      assert (a + [sep] + b)[1..] == a[1..] + [sep] + b;
      assert [a[0]] + a[1..] == a;
    }
  }

  lemma {:induction false} JoinedSplits(xs: seq<Spec>)
    requires xs != []
    ensures Split(Joined(xs), ',') == PrintedSpecs(xs)
  {
    SpecHasNoComma(xs[0]);
    if |xs| == 1 {
      SplitAbsent(PrintSpec(xs[0]), ',');
      assert PrintedSpecs(xs[1..]) == [];
    } else {
      JoinedSplits(xs[1..]);
      SplitFirst(PrintSpec(xs[0]), ',', Joined(xs[1..]));
    }
  }

  lemma {:induction false} SpecsAreMeant(network: string, xs: seq<Spec>)
    ensures ForwardsOf(network, PrintedSpecs(xs)) == Done(AllMeant(xs, network))
  {
    if xs != [] {
      SpecIsMeant(xs[0], network);
      SpecsAreMeant(network, xs[1..]);
      assert PrintedSpecs(xs)[1..] == PrintedSpecs(xs[1..]);
    }
  }

  /** Every flag holds a specification. */
  predicate PrintableFlags(flags: seq<seq<Spec>>) { forall i :: 0 <= i < |flags| ==> flags[i] != [] }

  function PrintedFlags(flags: seq<seq<Spec>>): seq<string>
    requires PrintableFlags(flags)
  {
    if flags == [] then [] else [Joined(flags[0])] + PrintedFlags(flags[1..])
  }

  /** The specifications of all flags, in order. */
  function Concat(flags: seq<seq<Spec>>): seq<Spec> {
    if flags == [] then [] else flags[0] + Concat(flags[1..])
  }

  lemma {:induction false} FlagsFlatten(flags: seq<seq<Spec>>)
    requires PrintableFlags(flags)
    ensures Flatten(PrintedFlags(flags)) == PrintedSpecs(Concat(flags))
  {
    if flags != [] {
      FlagsFlatten(flags[1..]);
      JoinedSplits(flags[0]);
      MappedAppend(PrintSpec, flags[0], Concat(flags[1..]));
    }
  }

  /**
    Any tcp and udp flags of printed, comma-joined specifications are parsed to exactly the forwards
    they mean, in order, tcp before udp and each under its own network.
  */
  lemma PrintedFlagsForward(tcp: seq<seq<Spec>>, udp: seq<seq<Spec>>)
    requires PrintableFlags(tcp) && PrintableFlags(udp)
    ensures AllForwards(PrintedFlags(tcp), PrintedFlags(udp)) ==
            Done(AllMeant(Concat(tcp), "tcp") + AllMeant(Concat(udp), "udp"))
  {
    FlagsFlatten(tcp);
    FlagsFlatten(udp);
    SpecsAreMeant("tcp", Concat(tcp));
    SpecsAreMeant("udp", Concat(udp));
  }

  /** The forwards of specifications already read. */
  ghost function Folded(network: string, heads: seq<Outcome<seq<Pair>>>): Outcome<seq<Forward>> {
    if heads == [] then Done([]) else Combined(network, heads[0], Folded(network, heads[1..]))
  }

  ghost function Heads(specs: seq<string>): seq<Outcome<seq<Pair>>> {
    seq(|specs|, i requires 0 <= i < |specs| => PairsOf(specs[i]))
  }

  lemma {:induction false} ForwardsAreFolded(network: string, specs: seq<string>)
    ensures ForwardsOf(network, specs) == Folded(network, Heads(specs))
  {
    if specs != [] {
      ForwardsAreFolded(network, specs[1..]);
      assert Heads(specs)[1..] == Heads(specs[1..]);
    }
  }

  lemma {:induction false} FoldedFault(network: string, heads: seq<Outcome<seq<Pair>>>, k: nat)
    requires k < |heads| && (forall i :: 0 <= i < k ==> heads[i].Done?) && !heads[k].Done?
    ensures Folded(network, heads) == if heads[k].Failed? then Failed else Diverges
    decreases k
  {
    if k > 0 {
      FoldedFault(network, heads[1..], k - 1);
    }
  }

  /** The first specification that does not parse decides, whatever follows it. */
  lemma FirstFaultDecides(network: string, specs: seq<string>, k: nat)
    requires k < |specs| && (forall i :: 0 <= i < k ==> PairsOf(specs[i]).Done?) && !PairsOf(specs[k]).Done?
    ensures ForwardsOf(network, specs) == if PairsOf(specs[k]).Failed? then Failed else Diverges
  {
    ForwardsAreFolded(network, specs);
    FoldedFault(network, Heads(specs), k);
  }

  /** A fault in the tcp flags decides before any udp flag is read. */
  lemma TcpFaultDecides(tcp: seq<string>, udp: seq<string>, k: nat)
    requires k < |Flatten(tcp)| && (forall i :: 0 <= i < k ==> PairsOf(Flatten(tcp)[i]).Done?)
    requires !PairsOf(Flatten(tcp)[k]).Done?
    ensures AllForwards(tcp, udp) == if PairsOf(Flatten(tcp)[k]).Failed? then Failed else Diverges
  {
    FirstFaultDecides("tcp", Flatten(tcp), k);
  }

  /** A local range up to 65535 never returns, whatever the remote part says. */
  lemma LastPortDiverges(first: Port, remote: string)
    requires ':' !in remote
    ensures PairsOf((Itoa(first) + ['-'] + Itoa(65535)) + [':'] + remote).Diverges?
  {
    var range := Itoa(first) + ['-'] + Itoa(65535);
    RangeToLastPort(first, 65535);
    assert range[|Itoa(first)|] == '-';
    LocalDiverges(range, remote);
  }

  lemma RangeToLastPort(first: Port, last: Port)
    requires last == UINT16 - 1
    ensures var range := Itoa(first) + ['-'] + Itoa(last);
            RangeOf(range).Diverges? && ':' !in range
  {
    PrintedPort(first);
    PrintedPort(last);
    SplitTwo(Itoa(first), '-', Itoa(last));
  }

  lemma LocalDiverges(range: string, remote: string)
    requires ':' !in range && ':' !in remote && '-' in range && RangeOf(range).Diverges?
    ensures PairsOf(range + [':'] + remote).Diverges?
  {
    SplitTwo(range, ':', remote);
  }
}
