/**
  coderd/workspaces.go: the workspace search query, split twice with quotes protecting
  delimiters, first into elements and then into key and value.
*/
module QuerySearch {
  import opened Wrappers

  const QUOTE := '"'

  // ---- splitQueryParameterByDelimiter ----

  function Toggled(quoted: bool, c: char): bool { if c == QUOTE then !quoted else quoted }

  predicate Separates(quoted: bool, c: char, delimiter: char) {
    !Toggled(quoted, c) && c == delimiter
  }

  function Part(s: string): seq<string> { if s == "" then [] else [s] }

  /** strings.FieldsFunc from a point inside a field `cur`, with the captured quote flag. */
  function Scan(q: string, delimiter: char, quoted: bool, cur: string): seq<string>
    decreases |q|
  {
    if q == "" then Part(cur)
    else if Separates(quoted, q[0], delimiter) then
      Part(cur) + Scan(q[1..], delimiter, Toggled(quoted, q[0]), "")
    else Scan(q[1..], delimiter, Toggled(quoted, q[0]), cur + [q[0]])
  }

  /** `strings.Trim(part, "\"")` */
  function TrimLeft(s: string): string {
    if s != "" && s[0] == QUOTE then TrimLeft(s[1..]) else s
  }

  function TrimRight(s: string): string {
    if s != "" && s[|s| - 1] == QUOTE then TrimRight(s[..|s| - 1]) else s
  }

  function Trim(s: string): string { TrimRight(TrimLeft(s)) }

  function TrimAll(parts: seq<string>): (r: seq<string>)
    ensures |r| == |parts| && forall i :: 0 <= i < |parts| ==> r[i] == Trim(parts[i])
  {
    if parts == [] then [] else [Trim(parts[0])] + TrimAll(parts[1..])
  }

  function Split(q: string, delimiter: char, maintainQuotes: bool): seq<string> {
    var parts := Scan(q, delimiter, false, "");
    if maintainQuotes then parts else TrimAll(parts)
  }

  method SplitQuery(q: string, delimiter: char, maintainQuotes: bool) returns (parts: seq<string>)
    ensures parts == Split(q, delimiter, maintainQuotes)
  {
    var quoted := false;
    var cur := "";
    parts := [];
    var i := 0;
    while i < |q|
      invariant 0 <= i <= |q|
      invariant Scan(q, delimiter, false, "") == parts + Scan(q[i..], delimiter, quoted, cur)
    {
      if q[i] == QUOTE { quoted := !quoted; }
      assert q[i..][1..] == q[i + 1..];
      if !quoted && q[i] == delimiter {
        if cur != "" { parts := parts + [cur]; }
        cur := "";
      } else {
        cur := cur + [q[i]];
      }
      i := i + 1;
    }
    if cur != "" { parts := parts + [cur]; }
    assert parts == Scan(q, delimiter, false, "");
    if !maintainQuotes {
      ghost var kept := parts;
      var k := 0;
      while k < |parts|
        invariant 0 <= k <= |parts| == |kept|
        invariant forall j :: 0 <= j < k ==> parts[j] == Trim(kept[j])
        invariant forall j :: k <= j < |parts| ==> parts[j] == kept[j]
      {
        parts := parts[k := Trim(parts[k])];
        k := k + 1;
      }
      assert parts == TrimAll(kept);
    }
  }

  // ---- what splitting keeps ----

  ghost function Concat(parts: seq<string>): string {
    if parts == [] then "" else parts[0] + Concat(parts[1..])
  }

  /** The query with exactly its unquoted delimiters removed. */
  ghost function Stripped(q: string, delimiter: char, quoted: bool): string {
    if q == "" then ""
    else (if Separates(quoted, q[0], delimiter) then "" else [q[0]])
         + Stripped(q[1..], delimiter, Toggled(quoted, q[0]))
  }

  ghost function Quotes(s: string): nat {
    if s == "" then 0 else (if s[0] == QUOTE then 1 else 0) + Quotes(s[1..])
  }

  lemma {:induction false} ConcatParts(cur: string, parts: seq<string>)
    ensures Concat(Part(cur) + parts) == cur + Concat(parts)
  {
    if cur == "" {
      assert Part(cur) + parts == parts;
    } else {
      assert (Part(cur) + parts)[1..] == parts;
    }
  }

  lemma {:induction false} ScanConcat(q: string, delimiter: char, quoted: bool, cur: string)
    ensures Concat(Scan(q, delimiter, quoted, cur)) == cur + Stripped(q, delimiter, quoted)
    decreases |q|
  {
    if q == "" {
      ConcatParts(cur, []);
      assert Part(cur) + [] == Part(cur);
    } else if Separates(quoted, q[0], delimiter) {
      ScanConcat(q[1..], delimiter, Toggled(quoted, q[0]), "");
      ConcatParts(cur, Scan(q[1..], delimiter, Toggled(quoted, q[0]), ""));
    } else {
      ScanConcat(q[1..], delimiter, Toggled(quoted, q[0]), cur + [q[0]]);
    }
  }

  lemma {:induction false} QuotesSnoc(s: string, c: char)
    ensures Quotes(s + [c]) == Quotes(s) + (if c == QUOTE then 1 else 0)
  {
    if s == "" {
      assert s + [c] == [c] && [c][1..] == "";
    } else {
      QuotesSnoc(s[1..], c);
      assert (s + [c])[1..] == s[1..] + [c];
    }
  }

  ghost predicate BalancedButLast(parts: seq<string>) {
    && (forall i :: 0 <= i < |parts| ==> parts[i] != "")
    && (forall i :: 0 <= i < |parts| - 1 ==> Quotes(parts[i]) % 2 == 0)
  }

  lemma {:induction false} ScanBalanced(q: string, delimiter: char, quoted: bool, cur: string)
    requires delimiter != QUOTE && (quoted <==> Quotes(cur) % 2 == 1)
    ensures BalancedButLast(Scan(q, delimiter, quoted, cur))
    decreases |q|
  {
    if q != "" {
      QuotesSnoc(cur, q[0]);
      if Separates(quoted, q[0], delimiter) {
        ScanBalanced(q[1..], delimiter, Toggled(quoted, q[0]), "");
      } else {
        ScanBalanced(q[1..], delimiter, Toggled(quoted, q[0]), cur + [q[0]]);
      }
    }
  }

  /**
    The kept-quotes parts, put together, are the query without its unquoted delimiters; none is
    empty, and quotes are balanced in every part but possibly the last.
  */
  lemma SplitLosesOnlyDelimiters(q: string, delimiter: char)
    requires delimiter != QUOTE
    ensures Concat(Split(q, delimiter, true)) == Stripped(q, delimiter, false)
    ensures BalancedButLast(Split(q, delimiter, true))
  {
    ScanConcat(q, delimiter, false, "");
    ScanBalanced(q, delimiter, false, "");
  }

  ghost predicate NoBareDelimiter(parts: seq<string>, delimiter: char) {
    forall i :: 0 <= i < |parts| ==> parts[i] != "" && Stripped(parts[i], delimiter, false) == parts[i]
  }

  lemma AppendAssociates(a: string, b: string, c: string)
    ensures a + (b + c) == (a + b) + c
  {
  }

  lemma {:induction false} StrippedSnoc(s: string, c: char, delimiter: char, quoted: bool)
    requires delimiter != QUOTE
    ensures Stripped(s + [c], delimiter, quoted) ==
            Stripped(s, delimiter, quoted) + if Separates(InQuotes(s, quoted), c, delimiter) then "" else [c]
    decreases |s|
  {
    if s == "" {
      assert (s + [c])[1..] == "";
    } else {
      StrippedSnoc(s[1..], c, delimiter, Toggled(quoted, s[0]));
      assert (s + [c])[1..] == s[1..] + [c];
      AppendAssociates(
        if Separates(quoted, s[0], delimiter) then "" else [s[0]],
        Stripped(s[1..], delimiter, Toggled(quoted, s[0])),
        if Separates(InQuotes(s, quoted), c, delimiter) then "" else [c]);
    }
  }

  /** The quote flag after s. */
  ghost function InQuotes(s: string, quoted: bool): bool {
    if s == "" then quoted else InQuotes(s[1..], Toggled(quoted, s[0]))
  }

  lemma {:induction false} InQuotesSnoc(s: string, c: char, quoted: bool)
    ensures InQuotes(s + [c], quoted) == Toggled(InQuotes(s, quoted), c)
    decreases |s|
  {
    if s == "" {
      assert (s + [c])[1..] == "";
    } else {
      InQuotesSnoc(s[1..], c, Toggled(quoted, s[0]));
      assert (s + [c])[1..] == s[1..] + [c];
    }
  }

  lemma {:induction false} ScanNoBare(q: string, delimiter: char, quoted: bool, cur: string)
    requires delimiter != QUOTE && quoted == InQuotes(cur, false) && Stripped(cur, delimiter, false) == cur
    ensures NoBareDelimiter(Scan(q, delimiter, quoted, cur), delimiter)
    decreases |q|
  {
    if q != "" {
      if Separates(quoted, q[0], delimiter) {
        ScanNoBare(q[1..], delimiter, false, "");
      } else {
        StrippedSnoc(cur, q[0], delimiter, false);
        InQuotesSnoc(cur, q[0], false);
        ScanNoBare(q[1..], delimiter, Toggled(quoted, q[0]), cur + [q[0]]);
      }
    }
  }

  /** Every part is non-empty and holds no delimiter outside quotes: the query is cut at all of them. */
  lemma SplitCutsAtEveryDelimiter(q: string, delimiter: char)
    requires delimiter != QUOTE
    ensures NoBareDelimiter(Split(q, delimiter, true), delimiter)
  {
    ScanNoBare(q, delimiter, false, "");
  }

  ghost predicate OnlyQuotes(s: string) { forall i :: 0 <= i < |s| ==> s[i] == QUOTE }

  lemma {:induction false} TrimLeftIsExact(s: string) returns (left: string)
    ensures OnlyQuotes(left) && s == left + TrimLeft(s)
    ensures TrimLeft(s) != "" ==> TrimLeft(s)[0] != QUOTE
  {
    left := "";
    if s != "" && s[0] == QUOTE {
      var rest := TrimLeftIsExact(s[1..]);
      left := [QUOTE] + rest;
      assert s == [QUOTE] + s[1..];
    }
  }

  lemma {:induction false} TrimRightIsExact(s: string) returns (right: string)
    ensures OnlyQuotes(right) && s == TrimRight(s) + right
    ensures TrimRight(s) != "" ==> TrimRight(s)[|TrimRight(s)| - 1] != QUOTE
  {
    right := "";
    if s != "" && s[|s| - 1] == QUOTE {
      var rest := TrimRightIsExact(s[..|s| - 1]);
      right := rest + [QUOTE];
      assert s == s[..|s| - 1] + [QUOTE];
    }
  }

  /** Trimming removes all quotes at both ends and nothing else. */
  lemma TrimIsExact(s: string) returns (left: string, right: string)
    ensures OnlyQuotes(left) && OnlyQuotes(right) && s == left + Trim(s) + right
    ensures Trim(s) != "" ==> Trim(s)[0] != QUOTE && Trim(s)[|Trim(s)| - 1] != QUOTE
  {
    left := TrimLeftIsExact(s);
    right := TrimRightIsExact(TrimLeft(s));
    assert s == left + (Trim(s) + right);
  }

  // ---- workspaceSearchQuery ----

  /** strings.ToLower maps rune by rune; `lower` stands for unicode.ToLower. */
  function Lower(s: string, lower: char -> char): (r: string)
    ensures |r| == |s| && forall i :: 0 <= i < |s| ==> r[i] == lower(s[i])
  {
    if s == "" then "" else [lower(s[0])] + Lower(s[1..], lower)
  }

  type Params = map<string, string>

  /** One element: key:value, owner/name, or a bare name. */
  function AddElement(m: Params, element: string): Result<Params> {
    var parts := Split(element, ':', false);
    if |parts| == 1 then
      var names := Split(element, '/', false);
      if |names| == 1 then Ok(m["name" := names[0]])
      else if |names| == 2 then Ok(m["owner" := names[0]]["name" := names[1]])
      else Err
    else if |parts| == 2 then Ok(m[parts[0] := parts[1]])
    else Err
  }

  function AddElements(m: Params, elements: seq<string>): Result<Params>
    decreases |elements|
  {
    if elements == [] then Ok(m)
    else
      var r := AddElement(m, elements[0]);
      if r.Err? then Err else AddElements(r.value, elements[1..])
  }

  /** The parameters the search filter is read from. */
  function Search(query: string, lower: char -> char): Result<Params> {
    AddElements(map[], Split(Lower(query, lower), ' ', true))
  }

  method SearchQuery(query: string, lower: char -> char) returns (r: Result<Params>)
    ensures r == Search(query, lower)
  {
    var params: Params := map[];
    if query == "" { return Ok(params); }
    var elements := SplitQuery(Lower(query, lower), ' ', true);
    var i := 0;
    while i < |elements|
      invariant 0 <= i <= |elements|
      invariant Search(query, lower) == AddElements(params, elements[i..])
    {
      var element := elements[i];
      assert elements[i..][1..] == elements[i + 1..];
      var parts := SplitQuery(element, ':', false);
      if |parts| == 1 {
        var names := SplitQuery(element, '/', false);
        if |names| == 1 {
          params := params["name" := names[0]];
        } else if |names| == 2 {
          params := params["owner" := names[0]];
          params := params["name" := names[1]];
        } else {
          return Err;
        }
      } else if |parts| == 2 {
        params := params[parts[0] := parts[1]];
      } else {
        return Err;
      }
      i := i + 1;
    }
    r := Ok(params);
  }

  // ---- printing terms and reading them back ----

  datatype Term = Term(key: string, value: string)

  predicate Printable(t: Term) {
    && t.key != "" && QUOTE !in t.key && ' ' !in t.key && ':' !in t.key
    && QUOTE !in t.value
  }

  /** Lower-casing leaves the term and the punctuation around it as they are. */
  predicate InLowerCase(t: Term, lower: char -> char) {
    && Lower(t.key, lower) == t.key && Lower(t.value, lower) == t.value
    && lower(':') == ':' && lower(' ') == ' ' && lower(QUOTE) == QUOTE
  }

  function PrintTerm(t: Term): string { t.key + ":" + [QUOTE] + t.value + [QUOTE] }

  function Print(ts: seq<Term>): string {
    if ts == [] then ""
    else if |ts| == 1 then PrintTerm(ts[0])
    else PrintTerm(ts[0]) + " " + Print(ts[1..])
  }

  ghost function Override(m: Params, ts: seq<Term>): Params
    decreases |ts|
  {
    if ts == [] then m else Override(m[ts[0].key := ts[0].value], ts[1..])
  }

  /** Text without quotes, and without delimiters unless quoted, joins the current field. */
  lemma {:induction false} ScanText(a: string, rest: string, delimiter: char, quoted: bool, cur: string)
    requires QUOTE !in a && (quoted || delimiter !in a)
    ensures Scan(a + rest, delimiter, quoted, cur) == Scan(rest, delimiter, quoted, cur + a)
    decreases |a|
  {
    if a == "" {
      assert a + rest == rest && cur + a == cur;
    } else {
      assert a[0] in a;
      assert (a + rest)[1..] == a[1..] + rest;
      ScanText(a[1..], rest, delimiter, quoted, cur + [a[0]]);
      assert cur + [a[0]] + a[1..] == cur + a;
    }
  }

  lemma ScanQuote(rest: string, delimiter: char, quoted: bool, cur: string)
    requires delimiter != QUOTE
    ensures Scan([QUOTE] + rest, delimiter, quoted, cur) == Scan(rest, delimiter, !quoted, cur + [QUOTE])
  {
    assert ([QUOTE] + rest)[1..] == rest;
  }

  lemma ScanQuoted(value: string, rest: string, delimiter: char, cur: string)
    requires delimiter != QUOTE && QUOTE !in value
    ensures Scan([QUOTE] + (value + ([QUOTE] + rest)), delimiter, false, cur) ==
            Scan(rest, delimiter, false, cur + ([QUOTE] + value + [QUOTE]))
  {
    ScanQuote(value + ([QUOTE] + rest), delimiter, false, cur);
    ScanText(value, [QUOTE] + rest, delimiter, true, cur + [QUOTE]);
    ScanQuote(rest, delimiter, true, cur + [QUOTE] + value);
    assert cur + [QUOTE] + value + [QUOTE] == cur + ([QUOTE] + value + [QUOTE]);
  }

  lemma Regroup(head: string, q: string, value: string, rest: string)
    ensures head + q + value + q + rest == head + (q + (value + (q + rest)))
    ensures head + (q + value + q) == head + q + value + q
  {
  }

  lemma ScanTerm(t: Term, rest: string)
    requires Printable(t)
    ensures Scan(PrintTerm(t) + rest, ' ', false, "") == Scan(rest, ' ', false, PrintTerm(t))
  {
    var head, tail := t.key + ":", [QUOTE] + (t.value + ([QUOTE] + rest));
    Regroup(head, [QUOTE], t.value, rest);
    assert QUOTE !in head && ' ' !in head;
    ScanText(head, tail, ' ', false, "");
    assert "" + head == head;
    ScanQuoted(t.value, rest, ' ', head);
  }

  lemma {:induction false} ElementsOfPrint(ts: seq<Term>)
    requires forall i :: 0 <= i < |ts| ==> Printable(ts[i])
    ensures Split(Print(ts), ' ', true) == seq(|ts|, i requires 0 <= i < |ts| => PrintTerm(ts[i]))
  {
    if |ts| == 1 {
      assert PrintTerm(ts[0]) + "" == PrintTerm(ts[0]);
      ScanTerm(ts[0], "");
    } else if |ts| > 1 {
      ElementsOfPrint(ts[1..]);
      var rest := " " + Print(ts[1..]);
      assert Print(ts) == PrintTerm(ts[0]) + rest;
      ScanTerm(ts[0], rest);
      assert rest[1..] == Print(ts[1..]);
      assert Scan(rest, ' ', false, PrintTerm(ts[0])) == [PrintTerm(ts[0])] + Split(Print(ts[1..]), ' ', true);
    }
  }

  lemma TrimQuoted(value: string)
    requires QUOTE !in value
    ensures Trim([QUOTE] + value + [QUOTE]) == value
  {
    var s := [QUOTE] + value + [QUOTE];
    assert s[1..] == value + [QUOTE];
    if value == "" {
      assert s[1..] == [QUOTE] && [QUOTE][1..] == "";
      assert TrimLeft([QUOTE]) == TrimLeft("") == "";
    } else {
      assert value[0] in value && value[|value| - 1] in value;
      var t := value + [QUOTE];
      assert t[0] == value[0] && t[|t| - 1] == QUOTE && t[..|t| - 1] == value;
      assert TrimLeft(s) == TrimLeft(t) == t;
      assert TrimRight(t) == TrimRight(value) == value;
    }
  }

  lemma TrimPlain(s: string)
    requires QUOTE !in s
    ensures Trim(s) == s
  {
    if s != "" {
      assert s[0] in s && s[|s| - 1] in s;
    }
  }

  lemma ScanKey(key: string, tail: string)
    requires key != "" && QUOTE !in key && ':' !in key
    ensures Scan(key + (":" + tail), ':', false, "") == [key] + Scan(tail, ':', false, "")
  {
    ScanText(key, ":" + tail, ':', false, "");
    assert "" + key == key && (":" + tail)[1..] == tail;
  }

  lemma ScanValue(value: string)
    requires QUOTE !in value
    ensures Scan([QUOTE] + value + [QUOTE], ':', false, "") == [[QUOTE] + value + [QUOTE]]
  {
    var quoted := [QUOTE] + value + [QUOTE];
    assert quoted == [QUOTE] + (value + ([QUOTE] + ""));
    ScanQuoted(value, "", ':', "");
    assert "" + quoted == quoted;
  }

  lemma TermShape(key: string, q: string, value: string)
    ensures key + ":" + q + value + q == key + (":" + (q + value + q))
  {
  }

  lemma KeyAndValue(t: Term)
    requires Printable(t)
    ensures Split(PrintTerm(t), ':', false) == [t.key, t.value]
  {
    var quoted := [QUOTE] + t.value + [QUOTE];
    TermShape(t.key, [QUOTE], t.value);
    ScanKey(t.key, quoted);
    ScanValue(t.value);
    TrimPlain(t.key);
    TrimQuoted(t.value);
    assert Scan(PrintTerm(t), ':', false, "") == [t.key, quoted];
  }

  lemma {:induction false} ReadTerms(m: Params, ts: seq<Term>)
    requires forall i :: 0 <= i < |ts| ==> Printable(ts[i])
    ensures AddElements(m, seq(|ts|, i requires 0 <= i < |ts| => PrintTerm(ts[i]))) == Ok(Override(m, ts))
    decreases |ts|
  {
    var es := seq(|ts|, i requires 0 <= i < |ts| => PrintTerm(ts[i]));
    if ts != [] {
      KeyAndValue(ts[0]);
      ReadTerms(m[ts[0].key := ts[0].value], ts[1..]);
      assert es[1..] == seq(|ts[1..]|, i requires 0 <= i < |ts[1..]| => PrintTerm(ts[1..][i]));
    }
  }

  lemma LowerAppend(a: string, b: string, lower: char -> char)
    ensures Lower(a + b, lower) == Lower(a, lower) + Lower(b, lower)
  {
  }

  lemma TermIsLower(t: Term, lower: char -> char)
    requires InLowerCase(t, lower)
    ensures Lower(PrintTerm(t), lower) == PrintTerm(t)
  {
    var head := t.key + ":" + [QUOTE];
    LowerAppend(t.key, ":", lower);
    LowerAppend(t.key + ":", [QUOTE], lower);
    assert Lower(head, lower) == head;
    LowerAppend(head, t.value, lower);
    LowerAppend(head + t.value, [QUOTE], lower);
  }

  lemma {:induction false} PrintIsLower(ts: seq<Term>, lower: char -> char)
    requires forall i :: 0 <= i < |ts| ==> InLowerCase(ts[i], lower)
    ensures Lower(Print(ts), lower) == Print(ts)
  {
    if ts != [] {
      TermIsLower(ts[0], lower);
      if |ts| > 1 {
        PrintIsLower(ts[1..], lower);
        LowerAppend(PrintTerm(ts[0]), " ", lower);
        LowerAppend(PrintTerm(ts[0]) + " ", Print(ts[1..]), lower);
      }
    }
  }

  /** Printing any list of lower-case terms and searching for it gives back the map, later terms winning. */
  lemma PrintedTermsRoundTrip(ts: seq<Term>, lower: char -> char)
    requires forall i :: 0 <= i < |ts| ==> Printable(ts[i]) && InLowerCase(ts[i], lower)
    ensures Search(Print(ts), lower) == Ok(Override(map[], ts))
  {
    PrintIsLower(ts, lower);
    ElementsOfPrint(ts);
    ReadTerms(map[], ts);
  }

  /** Override is last-wins: the value of a key is that of its last term. */
  lemma {:induction false} LastTermWins(m: Params, ts: seq<Term>, i: nat)
    requires i < |ts| && forall j :: i < j < |ts| ==> ts[j].key != ts[i].key
    ensures ts[i].key in Override(m, ts) && Override(m, ts)[ts[i].key] == ts[i].value
    decreases |ts|
  {
    if i > 0 {
      LastTermWins(m[ts[0].key := ts[0].value], ts[1..], i - 1);
    } else {
      OverrideKeeps(m[ts[0].key := ts[0].value], ts[1..], ts[0].key);
    }
  }

  lemma {:induction false} OverrideKeeps(m: Params, ts: seq<Term>, key: string)
    requires key in m && forall j :: 0 <= j < |ts| ==> ts[j].key != key
    ensures key in Override(m, ts) && Override(m, ts)[key] == m[key]
    decreases |ts|
  {
    if ts != [] {
      OverrideKeeps(m[ts[0].key := ts[0].value], ts[1..], key);
    }
  }

  // ---- names ----

  predicate Plain(s: string) { s != "" && QUOTE !in s && ' ' !in s && ':' !in s && '/' !in s }

  lemma ScanPlain(s: string, delimiter: char)
    requires s != "" && QUOTE !in s && delimiter !in s && delimiter != QUOTE
    ensures Split(s, delimiter, false) == [s] && Split(s, delimiter, true) == [s]
  {
    assert s + "" == s && "" + s == s;
    ScanText(s, "", delimiter, false, "");
    TrimPlain(s);
    assert TrimAll([s]) == [s];
  }

  lemma ScanTwo(a: string, b: string, delimiter: char)
    requires a != "" && b != "" && QUOTE !in a && QUOTE !in b && delimiter !in a && delimiter !in b && delimiter != QUOTE
    ensures Split(a + [delimiter] + b, delimiter, false) == [a, b]
  {
    var rest := [delimiter] + b;
    assert a + [delimiter] + b == a + rest && "" + a == a && rest[1..] == b;
    ScanText(a, rest, delimiter, false, "");
    ScanPlain(b, delimiter);
    assert Scan(rest, delimiter, false, a) == [a] + Scan(b, delimiter, false, "");
    TrimPlain(a);
    TrimPlain(b);
    assert TrimAll([a, b]) == [a, b];
  }

  /** A bare word names a workspace; two joined by a slash name its owner first. */
  lemma NamesParse(m: Params, owner: string, name: string)
    requires Plain(owner) && Plain(name)
    ensures AddElement(m, name) == Ok(m["name" := name])
    ensures AddElement(m, owner + ['/'] + name) == Ok(m["owner" := owner]["name" := name])
  {
    ScanPlain(name, ':');
    ScanPlain(name, '/');
    var both := owner + ['/'] + name;
    assert both != "" && QUOTE !in both && ':' !in both;
    ScanPlain(both, ':');
    ScanTwo(owner, name, '/');
  }

  lemma ScanThree(a: string, b: string, c: string, delimiter: char)
    requires a != "" && b != "" && c != "" && QUOTE !in a && QUOTE !in b && QUOTE !in c
    requires delimiter !in a && delimiter !in b && delimiter !in c && delimiter != QUOTE
    ensures |Split(a + [delimiter] + (b + [delimiter] + c), delimiter, false)| == 3
  {
    var tail := b + [delimiter] + c;
    var rest := [delimiter] + tail;
    assert a + [delimiter] + tail == a + rest && "" + a == a && rest[1..] == tail;
    ScanText(a, rest, delimiter, false, "");
    ScanTwo(b, c, delimiter);
    assert |Scan(tail, delimiter, false, "")| == 2;
    assert Scan(rest, delimiter, false, a) == [a] + Scan(tail, delimiter, false, "");
  }

  /** A second colon, or a second slash in a name, is an error. */
  lemma TooManyParts(m: Params, a: string, b: string, c: string)
    requires Plain(a) && Plain(b) && Plain(c)
    ensures AddElement(m, a + [':'] + (b + [':'] + c)) == Err
    ensures AddElement(m, a + ['/'] + (b + ['/'] + c)) == Err
  {
    ScanThree(a, b, c, ':');
    ScanThree(a, b, c, '/');
    var path := a + ['/'] + (b + ['/'] + c);
    assert path != "" && QUOTE !in path && ':' !in path;
    ScanPlain(path, ':');
  }

  // ---- errors and letter case ----

  lemma {:induction false} OnlyDelimiters(s: string, delimiter: char)
    requires delimiter != QUOTE && forall i :: 0 <= i < |s| ==> s[i] == delimiter
    ensures Scan(s, delimiter, false, "") == []
  {
    if s != "" {
      OnlyDelimiters(s[1..], delimiter);
    }
  }

  /** An element of nothing but colons, or of nothing but slashes, is an error. */
  lemma EmptyElements(m: Params, colons: string, slashes: string)
    requires forall i :: 0 <= i < |colons| ==> colons[i] == ':'
    requires slashes != "" && forall i :: 0 <= i < |slashes| ==> slashes[i] == '/'
    ensures AddElement(m, colons).Err? && AddElement(m, slashes).Err?
  {
    OnlyDelimiters(colons, ':');
    OnlyDelimiters(slashes, '/');
    assert ':' !in slashes && QUOTE !in slashes;
    ScanText(slashes, "", ':', false, "");
    assert slashes + "" == slashes && "" + slashes == slashes;
  }

  /** A query is refused if and only if one of its elements is, wherever it stands. */
  lemma {:induction false} RefusedIff(m: Params, elements: seq<string>)
    ensures AddElements(m, elements).Err? <==>
            exists i :: 0 <= i < |elements| && AddElement(map[], elements[i]).Err?
    decreases |elements|
  {
    if elements != [] {
      var first, rest := elements[0], elements[1..];
      assert AddElement(m, first).Err? <==> AddElement(map[], first).Err?;
      if AddElement(m, first).Ok? {
        RefusedIff(AddElement(m, first).value, rest);
        assert forall i :: 0 <= i < |rest| ==> rest[i] == elements[i + 1];
        assert forall i :: 0 < i < |elements| ==> elements[i] == rest[i - 1];
      }
    }
  }

  /** Queries that differ only in case read the same. */
  lemma CaseIsIgnored(a: string, b: string, lower: char -> char)
    requires |a| == |b| && forall i :: 0 <= i < |a| ==> lower(a[i]) == lower(b[i])
    ensures Search(a, lower) == Search(b, lower)
  {
    assert Lower(a, lower) == Lower(b, lower);
  }
}
