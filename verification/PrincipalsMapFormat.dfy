/** Writing a principals map so that reading it gives the same map back. */
module PrincipalsMapFormat {
  import opened Types
  import opened Text
  import opened PrincipalsMap

  predicate NeedsQuoting(v: string) {
    || v == "" || v == "null" || v == "~"
    || ':' in v || '#' in v || '"' in v || '\'' in v
    || v[0] == '-' || v[0] == '[' || v[0] == '{'
    || Trim(v) != v
  }

  /** The value spelled so that it reads back unchanged, if it can be. */
  function QuoteFor(v: string): Option<string> {
    if '\n' in v || '\r' in v || '\\' in v then None
    else if !NeedsQuoting(v) then Some(v)
    else if '"' !in v then Some("\"" + v + "\"")
    else if '\'' !in v then Some("'" + v + "'")
    else None
  }

  /** No line break, no backslash, and not both kinds of quote. */
  predicate Writable(v: string) {
    '\n' !in v && '\r' !in v && '\\' !in v && !('"' in v && '\'' in v)
  }

  lemma QuoteForWritable(v: string)
    ensures QuoteFor(v).Some? <==> Writable(v)
  {
  }

  /** A string is written without quotes exactly when it is a plain scalar: not empty, not
      a null, without an indicator at its start, a colon, a hash, a quote, or blanks
      around it. */
  lemma BareIsPlainScalar(v: string)
    ensures QuoteFor(v) == Some(v) <==>
      && Writable(v) && v != "" && v !in {"null", "~"} && v[0] !in {'-', '[', '{'}
      && Trim(v) == v && forall c | c in v :: c !in {':', '#', '"', '\''}
  {
    hide Trim;
    assert |"\"" + v + "\""| == |"'" + v + "'"| == |v| + 2;
  }

  function ItemLines(ps: seq<string>): Option<seq<string>> {
    if ps == [] then Some([])
    else
      var first, rest := QuoteFor(ps[0]), ItemLines(ps[1..]);
      if first.None? || rest.None? then None else Some(["  - " + first.value] + rest.value)
  }

  function AccountLines(account: string, ps: seq<string>): Option<seq<string>> {
    var key, items := QuoteFor(account), ItemLines(ps);
    if key.None? || items.None? then None else Some([key.value + ":"] + items.value)
  }

  function MapLines(accounts: seq<string>, m: Principals): Option<seq<string>>
    requires forall a | a in accounts :: a in m
  {
    if accounts == [] then Some([])
    else
      var first, rest := AccountLines(accounts[0], m[accounts[0]]), MapLines(accounts[1..], m);
      if first.None? || rest.None? then None else Some(first.value + rest.value)
  }

  function Join(lines: seq<string>): string {
    if lines == [] then "" else lines[0] + "\n" + Join(lines[1..])
  }

  /* A written value, read back */

  lemma TrimKeeps(s: string)
    requires s == "" || (!IsSpace(s[0]) && !IsSpace(s[|s| - 1]))
    ensures Trim(s) == s
  {
  }

  lemma {:induction false} TrimStartShortens(s: string)
    ensures |TrimStart(s)| <= |s|
  {
    if s != "" && IsSpace(s[0]) {
      TrimStartShortens(s[1..]);
    }
  }

  lemma {:induction false} TrimEndShortens(s: string)
    ensures |TrimEnd(s)| <= |s|
  {
    if s != "" && IsSpace(s[|s| - 1]) {
      TrimEndShortens(s[..|s| - 1]);
    }
  }

  lemma TrimmedEnds(s: string)
    requires Trim(s) == s && s != ""
    ensures !IsSpace(s[0]) && !IsSpace(s[|s| - 1])
  {
    TrimEndShortens(TrimStart(s));
    if IsSpace(s[0]) {
      TrimStartShortens(s[1..]);
    }
    TrimStartShortens(s);
    if IsSpace(s[|s| - 1]) {
      TrimEndShortens(s[..|s| - 1]);
    }
  }

  /** A written value neither starts nor ends with space and is unquoted to itself. */
  lemma WrittenValue(v: string, w: string)
    requires QuoteFor(v) == Some(w)
    ensures w != "" && !IsSpace(w[0]) && !IsSpace(w[|w| - 1])
    ensures w[0] != '-' && Unquote(w) == Some(v)
    ensures '\n' !in w && '\r' !in w
  {
    if NeedsQuoting(v) {
      assert w[1..|w| - 1] == v;
    } else {
      TrimmedEnds(v);
      assert v[0] in v;
    }
  }

  lemma {:induction false} KeptWithoutHash(s: string, q: Quoting, gap: bool)
    requires '#' !in s
    ensures Kept(s, q, gap) == |s|
  {
    if s != "" {
      KeptWithoutHash(s[1..], Next(q, s[0]), IsBlank(s[0]));
    }
  }

  function Within(c: char): Quoting {
    if c == '"' then InDouble else InSingle
  }

  /** Inside quotes nothing starts a comment or ends the key. */
  lemma {:induction false} KeptInside(v: string, c: char, rest: string, gap: bool)
    requires IsQuote(c) && c !in v
    ensures Kept(v + [c] + rest, Within(c), gap) == |v| + 1 + Kept(rest, Outside, false)
  {
    var s := v + [c] + rest;
    if v == "" {
      assert s[1..] == rest;
    } else {
      assert s[1..] == v[1..] + [c] + rest;
      KeptInside(v[1..], c, rest, IsBlank(v[0]));
    }
  }

  lemma {:induction false} KeptBare(v: string, rest: string, gap: bool)
    requires '#' !in v && '"' !in v && '\'' !in v
    ensures Kept(v + rest, Outside, gap) == |v| + Kept(rest, Outside, if v == "" then gap else IsBlank(v[|v| - 1]))
  {
    if v == "" {
      assert v + rest == rest;
    } else {
      assert (v + rest)[1..] == v[1..] + rest;
      KeptBare(v[1..], rest, IsBlank(v[0]));
    }
  }

  /** No comment starts inside a written value, and none right after it. */
  lemma KeptPast(v: string, w: string, rest: string, gap: bool)
    requires QuoteFor(v) == Some(w)
    ensures Kept(w + rest, Outside, gap) == |w| + Kept(rest, Outside, false)
  {
    if NeedsQuoting(v) {
      var c := w[0];
      assert (w + rest)[1..] == v + [c] + rest;
      KeptInside(v, c, rest, false);
    } else {
      WrittenValue(v, w);
      KeptBare(v, rest, gap);
    }
  }

  lemma KeptWritten(v: string, w: string, rest: string, gap: bool)
    requires QuoteFor(v) == Some(w) && '#' !in rest
    ensures Kept(w + rest, Outside, gap) == |w + rest|
  {
    KeptPast(v, w, rest, gap);
    KeptWithoutHash(rest, Outside, false);
  }

  lemma {:induction false} ColonInside(v: string, c: char, rest: string)
    requires IsQuote(c) && c !in v
    ensures Colon(v + [c] + ([':'] + rest), Within(c)) == Some(|v| + 1)
  {
    var s := v + [c] + ([':'] + rest);
    if v == "" {
      assert s[1..] == [':'] + rest;
    } else {
      assert s[1..] == v[1..] + [c] + ([':'] + rest);
      ColonInside(v[1..], c, rest);
    }
  }

  lemma {:induction false} ColonAfterBare(v: string, rest: string)
    requires ':' !in v && '"' !in v && '\'' !in v
    ensures Colon(v + ([':'] + rest), Outside) == Some(|v|)
  {
    if v != "" {
      assert (v + ([':'] + rest))[1..] == v[1..] + ([':'] + rest);
      ColonAfterBare(v[1..], rest);
    }
  }

  /** The colon after a written key is the one that ends it. */
  lemma ColonAfterWritten(v: string, w: string, rest: string)
    requires QuoteFor(v) == Some(w)
    ensures Colon(w + ([':'] + rest), Outside) == Some(|w|)
  {
    if NeedsQuoting(v) {
      assert (w + ([':'] + rest))[1..] == v + [w[0]] + ([':'] + rest);
      ColonInside(v, w[0], rest);
    } else {
      ColonAfterBare(v, rest);
    }
  }

  /* A written line, read back */

  lemma AccountLineReads(r: Reading, a: string, w: string)
    requires QuoteFor(a) == Some(w) && a != "" && a !in r.m
    ensures ReadLine(r, w + ":") == Some(Reading(r.m[a := []], a))
  {
    var line := w + ":";
    WrittenValue(a, w);
    KeptWritten(a, w, ":", true);
    assert StripComment(line) == line;
    TrimKeeps(line);
    ColonAfterWritten(a, w, "");
    assert [':'] + "" == ":";
    assert line[..|w|] == w && line[|w| + 1..] == "";
    TrimKeeps(w);
    assert SplitKey(line) == Some((w, ""));
    assert ParseAccount(line) == Some(Account(a, [], true));
  }

  lemma KeptCons(c: char, s: string, gap: bool)
    requires c != '#' && !IsQuote(c)
    ensures Kept([c] + s, Outside, gap) == 1 + Kept(s, Outside, IsBlank(c))
  {
    assert ([c] + s)[1..] == s;
  }

  lemma TrimStartCons(c: char, s: string)
    ensures TrimStart([c] + s) == if IsSpace(c) then TrimStart(s) else [c] + s
  {
    assert ([c] + s)[1..] == s;
  }

  /** The layout of an item line: two blanks, a dash, a blank, the value. */
  lemma ItemLineContent(p: string, w: string)
    requires QuoteFor(p) == Some(w)
    ensures StripComment("  - " + w) == "  - " + w && Trim("  - " + w) == "- " + w && !Tabbed("  - " + w)
  {
    var item, dash, one := [' '] + w, ['-'] + ([' '] + w), [' '] + (['-'] + ([' '] + w));
    assert "  - " + w == [' '] + one && "- " + w == dash;
    KeptWritten(p, w, "", true);
    assert w + "" == w;
    KeptCons(' ', w, false);
    KeptCons('-', item, true);
    KeptCons(' ', dash, true);
    KeptCons(' ', one, true);
    TrimStartCons('-', item);
    TrimStartCons(' ', dash);
    TrimStartCons(' ', one);
    WrittenValue(p, w);
    assert dash[|dash| - 1] == w[|w| - 1];
    assert ([' '] + one)[1..] == one && one[1..] == dash;
    assert !Tabbed(dash) && !Tabbed(one);
  }

  lemma ItemParses(p: string, w: string)
    requires QuoteFor(p) == Some(w) && p != ""
    ensures ParseItem(" " + w) == Some(p)
  {
    WrittenValue(p, w);
    TrimStartCons(' ', w);
    assert " " + w == [' '] + w;
    TrimKeeps(w);
  }

  lemma ItemLineReads(r: Reading, p: string, w: string)
    requires QuoteFor(p) == Some(w) && p != "" && r.account != "" && r.account in r.m
    ensures ReadLine(r, "  - " + w) == Some(r.(m := r.m[r.account := r.m[r.account] + [p]]))
  {
    hide StripComment, Trim, Tabbed, ParseItem, QuoteFor, AddAccount;
    ItemLineContent(p, w);
    ItemParses(p, w);
    assert ("- " + w)[1..] == " " + w;
  }

  lemma {:induction false} ReadLinesAppend(r: Reading, a: seq<string>, b: seq<string>)
    ensures ReadLines(r, a + b) ==
      var mid := ReadLines(r, a); if mid.None? then None else ReadLines(mid.value, b)
    decreases |a|
  {
    if a == [] {
      assert a + b == b;
    } else {
      assert (a + b)[1..] == a[1..] + b;
      var next := ReadLine(r, a[0]);
      if next.Some? {
        ReadLinesAppend(next.value, a[1..], b);
      }
    }
  }

  lemma {:induction false} ItemLinesRead(r: Reading, ps: seq<string>)
    requires ItemLines(ps).Some? && "" !in ps && r.account != "" && r.account in r.m
    ensures ReadLines(r, ItemLines(ps).value) == Some(r.(m := r.m[r.account := r.m[r.account] + ps]))
    decreases |ps|
  {
    if ps == [] {
      assert r.m[r.account] + ps == r.m[r.account];
      assert r.m[r.account := r.m[r.account]] == r.m;
    } else {
      var lines := ItemLines(ps).value;
      var next := r.(m := r.m[r.account := r.m[r.account] + [ps[0]]]);
      ItemLineReads(r, ps[0], QuoteFor(ps[0]).value);
      ItemLinesRead(next, ps[1..]);
      assert lines[1..] == ItemLines(ps[1..]).value;
      assert r.m[r.account] + [ps[0]] + ps[1..] == r.m[r.account] + ps;
      assert next.m[r.account := r.m[r.account] + ps] == r.m[r.account := r.m[r.account] + ps];
    }
  }

  lemma AccountLinesRead(r: Reading, a: string, ps: seq<string>)
    requires AccountLines(a, ps).Some? && a != "" && "" !in ps && a !in r.m
    ensures ReadLines(r, AccountLines(a, ps).value) == Some(Reading(r.m[a := ps], a))
  {
    hide ReadLine, QuoteFor, ItemLines;
    var lines, next := AccountLines(a, ps).value, Reading(r.m[a := []], a);
    AccountLineReads(r, a, QuoteFor(a).value);
    ItemLinesRead(next, ps);
    assert lines[1..] == ItemLines(ps).value;
    assert next.m[a] + ps == ps;
    assert next.m[a := ps] == r.m[a := ps];
  }

  ghost predicate Distinct(names: seq<string>) {
    forall i, j :: 0 <= i < j < |names| ==> names[i] != names[j]
  }

  ghost function Restricted(m: Principals, accounts: seq<string>): Principals
    requires forall a | a in accounts :: a in m
  {
    map a | a in accounts :: m[a]
  }

  lemma RestrictedCons(r: Principals, m: Principals, accounts: seq<string>)
    requires accounts != [] && forall a | a in accounts :: a in m
    ensures r[accounts[0] := m[accounts[0]]] + Restricted(m, accounts[1..]) == r + Restricted(m, accounts)
  {
    assert accounts == [accounts[0]] + accounts[1..];
  }

  /** Reading the written accounts adds them, and nothing else, to the map. */
  lemma {:induction false} MapLinesRead(r: Reading, accounts: seq<string>, m: Principals)
    requires Distinct(accounts) && Sound(m) && forall a | a in accounts :: a in m && a !in r.m
    requires MapLines(accounts, m).Some?
    ensures var q := ReadLines(r, MapLines(accounts, m).value);
      q.Some? && q.value.m == r.m + Restricted(m, accounts)
    decreases |accounts|
  {
    if accounts == [] {
      assert r.m + Restricted(m, accounts) == r.m;
    } else {
      hide ReadLine, AccountLines, ReadLines, Restricted;
      var a, rest := accounts[0], accounts[1..];
      AccountLinesRead(r, a, m[a]);
      ReadLinesAppend(r, AccountLines(a, m[a]).value, MapLines(rest, m).value);
      RestrictedCons(r.m, m, accounts);
      forall b | b in rest ensures b in m && b !in r.m && b != a {
        assert b in accounts;
      }
      MapLinesRead(Reading(r.m[a := m[a]], a), rest, m);
    }
  }

  /* Lines and text */

  predicate Plain(s: string) {
    '\n' !in s && '\r' !in s
  }

  lemma {:induction false} PlainLinesStay(s: string)
    requires '\r' !in s
    ensures UnixLines(s) == s
  {
    if |s| >= 2 {
      PlainLinesStay(s[1..]);
    }
  }

  lemma {:induction false} SplitJoined(lines: seq<string>)
    requires forall l | l in lines :: Plain(l)
    ensures '\r' !in Join(lines)
    ensures Split(Join(lines), '\n') == lines + [""]
  {
    if lines != [] {
      assert Plain(lines[0]);
      SplitJoined(lines[1..]);
      SplitAppend(lines[0], Join(lines[1..]), '\n');
      SplitWhole(lines[0], '\n');
      assert lines[0] + "\n" + Join(lines[1..]) == Join(lines);
      assert [lines[0]] + (lines[1..] + [""]) == lines + [""];
    }
  }

  lemma {:induction false} ItemLinesArePlain(ps: seq<string>)
    requires ItemLines(ps).Some?
    ensures forall l | l in ItemLines(ps).value :: Plain(l)
  {
    if ps != [] {
      WrittenValue(ps[0], QuoteFor(ps[0]).value);
      ItemLinesArePlain(ps[1..]);
      assert Plain("  - " + QuoteFor(ps[0]).value);
    }
  }

  lemma {:induction false} MapLinesArePlain(accounts: seq<string>, m: Principals)
    requires (forall a | a in accounts :: a in m) && MapLines(accounts, m).Some?
    ensures forall l | l in MapLines(accounts, m).value :: Plain(l)
  {
    if accounts != [] {
      var a := accounts[0];
      WrittenValue(a, QuoteFor(a).value);
      ItemLinesArePlain(m[a]);
      MapLinesArePlain(accounts[1..], m);
      assert Plain(QuoteFor(a).value + ":");
    }
  }

  lemma BlankLineReads(r: Reading)
    ensures ReadLines(r, [""]) == Some(r)
  {
  }

  /** What is written reads back as the map it was written from. */
  lemma WrittenMapReadsBack(accounts: seq<string>, m: Principals)
    requires Distinct(accounts) && Sound(m) && forall a :: a in accounts <==> a in m
    requires MapLines(accounts, m).Some?
    ensures ParsedMap(Join(MapLines(accounts, m).value)) == Some(m)
  {
    hide ReadLine, MapLines;
    var lines := MapLines(accounts, m).value;
    MapLinesArePlain(accounts, m);
    SplitJoined(lines);
    PlainLinesStay(Join(lines));
    var start := Reading(map[], "");
    MapLinesRead(start, accounts, m);
    ReadLinesAppend(start, lines, [""]);
    BlankLineReads(ReadLines(start, lines).value);
    assert map[] + Restricted(m, accounts) == m;
  }

  ghost predicate AllWritable(m: Principals) {
    forall a | a in m :: Writable(a) && forall p | p in m[a] :: Writable(p)
  }

  lemma {:induction false} ItemLinesWritable(ps: seq<string>)
    ensures ItemLines(ps).Some? <==> forall p | p in ps :: Writable(p)
  {
    if ps != [] {
      QuoteForWritable(ps[0]);
      ItemLinesWritable(ps[1..]);
      assert ps == [ps[0]] + ps[1..];
    }
  }

  lemma {:induction false} MapLinesWritable(accounts: seq<string>, m: Principals)
    requires forall a | a in accounts :: a in m
    ensures MapLines(accounts, m).Some? <==>
      forall a | a in accounts :: Writable(a) && forall p | p in m[a] :: Writable(p)
  {
    if accounts != [] {
      var a := accounts[0];
      QuoteForWritable(a);
      ItemLinesWritable(m[a]);
      MapLinesWritable(accounts[1..], m);
      assert accounts == [a] + accounts[1..];
    }
  }

  /* The writer */

  function Joined(lines: Option<seq<string>>): Option<string> {
    if lines.None? then None else Some(Join(lines.value))
  }

  lemma {:induction false} JoinAppend(a: seq<string>, b: seq<string>)
    ensures Join(a + b) == Join(a) + Join(b)
  {
    if a == [] {
      assert a + b == b;
    } else {
      assert (a + b)[1..] == a[1..] + b;
      JoinAppend(a[1..], b);
    }
  }

  method FormatAccount(account: string, ps: seq<string>) returns (text: Option<string>)
    ensures text == Joined(AccountLines(account, ps))
  {
    var key := QuoteFor(account);
    if key.None? {
      return None;
    }
    var b := key.value + ":\n";
    ghost var done := [key.value + ":"];
    for i := 0 to |ps|
      invariant b == Join(done)
      invariant var rest := ItemLines(ps[i..]);
        AccountLines(account, ps) == if rest.None? then None else Some(done + rest.value)
    {
      assert ps[i..][0] == ps[i] && ps[i..][1..] == ps[i + 1..];
      var value := QuoteFor(ps[i]);
      if value.None? {
        return None;
      }
      ghost var line := "  - " + value.value;
      assert forall rest: seq<string> :: done + ([line] + rest) == done + [line] + rest;
      JoinAppend(done, [line]);
      b := b + ("  - " + value.value + "\n");
      done := done + [line];
    }
    assert done + [] == done;
    return Some(b);
  }

  ghost predicate Enumerates(accounts: seq<string>, m: Principals) {
    Sorted(accounts) && forall a :: a in accounts <==> a in m
  }

  lemma SortedIsDistinct(names: seq<string>)
    requires Sorted(names)
    ensures Distinct(names)
  {
    forall i, j | 0 <= i < j < |names| ensures names[i] != names[j] {
      BelowIsTotal(names[i], names[j]);
    }
  }

  /** Writes the accounts in order of name. It succeeds exactly for the maps all
      of whose strings can be spelled, and what it writes reads back as the map
      itself if and only if no name or principal is empty. */
  method Format(m: Principals) returns (text: Option<string>)
    ensures text.Some? <==> AllWritable(m)
    ensures text.Some? ==> (ParsedMap(text.value) == Some(m) <==> Sound(m))
    ensures exists accounts :: Enumerates(accounts, m) && text == Joined(MapLines(accounts, m))
  {
    var accounts := SortedNames(m.Keys);
    assert Enumerates(accounts, m);
    text := FormatAccounts(accounts, m);
    MapLinesWritable(accounts, m);
    if text.Some? {
      ParsedMapIsSound(text.value);
      if Sound(m) {
        SortedIsDistinct(accounts);
        WrittenMapReadsBack(accounts, m);
      }
    }
  }

  method FormatAccounts(accounts: seq<string>, m: Principals) returns (text: Option<string>)
    requires forall a | a in accounts :: a in m
    ensures text == Joined(MapLines(accounts, m))
  {
    var b := "";
    ghost var done: seq<string> := [];
    assert accounts[0..] == accounts && forall rest: seq<string> :: done + rest == rest;
    for i := 0 to |accounts|
      invariant b == Join(done)
      invariant var rest := MapLines(accounts[i..], m);
        MapLines(accounts, m) == if rest.None? then None else Some(done + rest.value)
    {
      var a := accounts[i];
      assert accounts[i..][0] == a && accounts[i..][1..] == accounts[i + 1..];
      var t := FormatAccount(a, m[a]);
      if t.None? {
        return None;
      }
      ghost var lines := AccountLines(a, m[a]).value;
      assert forall rest: seq<string> :: done + (lines + rest) == done + lines + rest;
      JoinAppend(done, lines);
      b := b + t.value;
      done := done + lines;
    }
    assert done + [] == done;
    return Some(b);
  }

  /** Two writings of one map are the same text. */
  lemma FormatIsDeterministic(a: seq<string>, b: seq<string>, m: Principals)
    requires Enumerates(a, m) && Enumerates(b, m)
    ensures Joined(MapLines(a, m)) == Joined(MapLines(b, m))
  {
    SortedIsUnique(a, b);
  }

  /** A map that was read from a file, if it can be written, is read back from
      what is written unchanged. */
  lemma ReadMapSurvivesRewriting(data: string, accounts: seq<string>)
    requires ParsedMap(data).Some?
    requires Enumerates(accounts, ParsedMap(data).value) && AllWritable(ParsedMap(data).value)
    ensures var m := ParsedMap(data).value;
      MapLines(accounts, m).Some? && ParsedMap(Join(MapLines(accounts, m).value)) == Some(m)
  {
    hide ParsedMap;
    var m := ParsedMap(data).value;
    ParsedMapIsSound(data);
    MapLinesWritable(accounts, m);
    SortedIsDistinct(accounts);
    WrittenMapReadsBack(accounts, m);
  }
}
