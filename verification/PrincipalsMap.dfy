/** The principals map file: the accepted subset of YAML, read line by line. */
module PrincipalsMap {
  import opened Types
  import opened Text

  /** Each local account with the principals that may assume it. */
  type Principals = map<string, seq<string>>

  /* Characters */

  /** The Unicode white space that trimming removes. */
  predicate IsSpace(c: char) {
    || c == ' ' || '\t' <= c <= '\r' || c == '\U{85}' || c == '\U{a0}' || c == '\U{1680}'
    || '\U{2000}' <= c <= '\U{200a}' || c == '\U{2028}' || c == '\U{2029}' || c == '\U{202f}'
    || c == '\U{205f}' || c == '\U{3000}'
  }

  predicate IsBlank(c: char) {
    c == ' ' || c == '\t'
  }

  predicate IsQuote(c: char) {
    c == '"' || c == '\''
  }

  function TrimStart(s: string): string {
    if s != "" && IsSpace(s[0]) then TrimStart(s[1..]) else s
  }

  function TrimEnd(s: string): string {
    if s != "" && IsSpace(s[|s| - 1]) then TrimEnd(s[..|s| - 1]) else s
  }

  function Trim(s: string): string {
    TrimEnd(TrimStart(s))
  }

  /* Scanning a line with quotes */

  datatype Quoting = Outside | InSingle | InDouble

  function Next(q: Quoting, c: char): Quoting {
    if c == '\'' && !q.InDouble? then (if q.InSingle? then Outside else InSingle)
    else if c == '"' && !q.InSingle? then (if q.InDouble? then Outside else InDouble)
    else q
  }

  /** How much of `s` comes before a comment; `gap` when it starts the line or
      follows a blank. */
  function Kept(s: string, q: Quoting, gap: bool): (n: nat)
    ensures n <= |s|
  {
    if s == "" || (s[0] == '#' && q.Outside? && gap) then 0
    else 1 + Kept(s[1..], Next(q, s[0]), IsBlank(s[0]))
  }

  function StripComment(line: string): string {
    line[..Kept(line, Outside, true)]
  }

  method CutComment(line: string) returns (r: string)
    ensures r == StripComment(line)
  {
    var inSingle, inDouble := false, false;
    ghost var q := Outside;
    for i := 0 to |line|
      invariant q == if inSingle then InSingle else if inDouble then InDouble else Outside
      invariant !(inSingle && inDouble)
      invariant Kept(line, Outside, true) == i + Kept(line[i..], q, i == 0 || IsBlank(line[i - 1]))
    {
      var c := line[i];
      assert line[i..][1..] == line[i + 1..];
      if c == '\'' && !inDouble {
        inSingle := !inSingle;
      } else if c == '"' && !inSingle {
        inDouble := !inDouble;
      } else if c == '#' && !inSingle && !inDouble && (i == 0 || line[i - 1] == ' ' || line[i - 1] == '\t') {
        return line[..i];
      }
      q := Next(q, c);
    }
    return line;
  }

  /** Where the colon that ends the key is, if there is one. */
  function Colon(s: string, q: Quoting): (n: Option<nat>)
    ensures n.Some? ==> n.value < |s|
  {
    if s == "" then None
    else if s[0] == ':' && q.Outside? then Some(0)
    else
      var rest := Colon(s[1..], Next(q, s[0]));
      if rest.None? then None else Some(1 + rest.value)
  }

  function SplitKey(line: string): Option<(string, string)> {
    var n := Colon(line, Outside);
    if n.None? then None else Some((Trim(line[..n.value]), Trim(line[n.value + 1..])))
  }

  method CutKey(line: string) returns (r: Option<(string, string)>)
    ensures r == SplitKey(line)
  {
    var inSingle, inDouble := false, false;
    ghost var q, all := Outside, Colon(line, Outside);
    for i := 0 to |line|
      invariant q == if inSingle then InSingle else if inDouble then InDouble else Outside
      invariant !(inSingle && inDouble)
      invariant var rest := Colon(line[i..], q); all == if rest.None? then None else Some(i + rest.value)
    {
      var c := line[i];
      assert line[i..][1..] == line[i + 1..];
      if c == '\'' && !inDouble {
        inSingle := !inSingle;
      } else if c == '"' && !inSingle {
        inDouble := !inDouble;
      } else if c == ':' && !inSingle && !inDouble {
        return Some((Trim(line[..i]), Trim(line[i + 1..])));
      }
      q := Next(q, c);
    }
    return None;
  }

  /* Values */

  /** Strips a matching pair of quotes; None when they do not match or hold an
      escape or another quote of the same kind. */
  function Unquote(v: string): Option<string> {
    if v == "" || !IsQuote(v[0]) then Some(v)
    else if |v| < 2 || v[|v| - 1] != v[0] then None
    else
      var inner := v[1..|v| - 1];
      if v[0] in inner || '\\' in inner then None else Some(inner)
  }

  function NonEmpty(v: Option<string>): Option<string> {
    if v == Some("") then None else v
  }

  /** What follows the dash of a list item. */
  function ParseItem(item: string): Option<string> {
    if item != "" && item[0] != ' ' then None else NonEmpty(Unquote(Trim(item)))
  }

  function ParseFields(fields: seq<string>): Option<seq<string>> {
    if fields == [] then Some([])
    else
      var first, rest := NonEmpty(Unquote(Trim(fields[0]))), ParseFields(fields[1..]);
      if first.None? || rest.None? then None else Some([first.value] + rest.value)
  }

  /** The inline list form, `[]` or `[a, b]`. */
  function ParseFlow(value: string): Option<seq<string>>
    requires value != "" && value[0] == '['
  {
    if value[|value| - 1] != ']' then None
    else
      var inner := Trim(value[1..|value| - 1]);
      if inner == "" then Some([]) else ParseFields(Split(inner, ','))
  }

  /** An account line: its name, its inline principals, and whether its list is
      still to come on the lines below. */
  datatype Account = Account(name: string, principals: seq<string>, open: bool)

  function ParseAccount(line: string): Option<Account> {
    match SplitKey(line)
    case None => None
    case Some((key, value)) =>
      var name := NonEmpty(Unquote(key));
      if name.None? then None
      else if value == "" then Some(Account(name.value, [], true))
      else if value == "null" || value == "~" then Some(Account(name.value, [], false))
      else if value[0] == '[' then
        var ps := ParseFlow(value);
        if ps.None? then None else Some(Account(name.value, ps.value, false))
      else None
  }

  /* Lines */

  function Indent(line: string): nat {
    if line != "" && IsBlank(line[0]) then 1 + Indent(line[1..]) else 0
  }

  function Tabbed(line: string): bool {
    line != "" && IsBlank(line[0]) && (line[0] == '\t' || Tabbed(line[1..]))
  }

  /** The map so far, and the account a following item belongs to ("" for none). */
  datatype Reading = Reading(m: Principals, account: string)

  function AppendPrincipal(r: Reading, item: string): Option<Reading> {
    var p := ParseItem(item);
    if p.None? || r.account == "" then None
    else Some(r.(m := r.m[r.account := (if r.account in r.m then r.m[r.account] else []) + [p.value]]))
  }

  function AddAccount(r: Reading, indent: nat, line: string): Option<Reading> {
    if indent > 0 then None
    else
      var a := ParseAccount(line);
      if a.None? || a.value.name in r.m then None
      else Some(Reading(r.m[a.value.name := a.value.principals], if a.value.open then a.value.name else ""))
  }

  /** One line of the file; None is an error. */
  function ReadLine(r: Reading, raw: string): Option<Reading> {
    var line := StripComment(raw);
    var content := Trim(line);
    if Tabbed(line) then None
    else if content == "" then Some(r)
    else if content[0] == '-' then AppendPrincipal(r, content[1..])
    else AddAccount(r, Indent(line), content)
  }

  function ReadLines(r: Reading, lines: seq<string>): Option<Reading>
    decreases |lines|
  {
    if lines == [] then Some(r)
    else
      var next := ReadLine(r, lines[0]);
      if next.None? then None else ReadLines(next.value, lines[1..])
  }

  /** Windows line ends become plain ones. */
  function UnixLines(s: string): string {
    if |s| < 2 then s
    else if s[0] == '\r' && s[1] == '\n' then ['\n'] + UnixLines(s[2..])
    else [s[0]] + UnixLines(s[1..])
  }

  function ParsedMap(data: string): Option<Principals> {
    var r := ReadLines(Reading(map[], ""), Split(UnixLines(data), '\n'));
    if r.None? then None else Some(r.value.m)
  }

  method Parse(data: string) returns (m: Option<Principals>)
    ensures m == ParsedMap(data)
  {
    var lines := Split(UnixLines(data), '\n');
    var r := Reading(map[], "");
    for i := 0 to |lines|
      invariant ReadLines(r, lines[i..]) == ReadLines(Reading(map[], ""), lines)
    {
      assert lines[i..][0] == lines[i] && lines[i..][1..] == lines[i + 1..];
      var line := CutComment(lines[i]);
      if Tabbed(line) {
        return None;
      }
      var content := Trim(line);
      if content != "" {
        var next :=
          if content[0] == '-' then AppendPrincipal(r, content[1..]) else AddAccount(r, Indent(line), content);
        if next.None? {
          return None;
        }
        r := next.value;
      }
    }
    return Some(r.m);
  }

  /* A map that parsed carries no empty name */

  ghost predicate Sound(m: Principals) {
    forall a | a in m :: a != "" && "" !in m[a]
  }

  lemma {:induction false} ParsedFieldsAreSound(fields: seq<string>)
    ensures ParseFields(fields).Some? ==> "" !in ParseFields(fields).value
  {
    if fields != [] {
      ParsedFieldsAreSound(fields[1..]);
    }
  }

  lemma ParsedAccountIsSound(line: string)
    ensures ParseAccount(line).Some? ==>
      ParseAccount(line).value.name != "" && "" !in ParseAccount(line).value.principals
  {
    var split := SplitKey(line);
    if split.Some? && |split.value.1| >= 2 && split.value.1[0] == '[' {
      var value := split.value.1;
      ParsedFieldsAreSound(Split(Trim(value[1..|value| - 1]), ','));
    }
  }

  lemma ReadLineIsSound(r: Reading, raw: string)
    requires Sound(r.m)
    ensures ReadLine(r, raw).Some? ==> Sound(ReadLine(r, raw).value.m)
  {
    ParsedAccountIsSound(Trim(StripComment(raw)));
  }

  lemma {:induction false} ReadLinesIsSound(r: Reading, lines: seq<string>)
    requires Sound(r.m)
    ensures ReadLines(r, lines).Some? ==> Sound(ReadLines(r, lines).value.m)
    decreases |lines|
  {
    if lines != [] {
      ReadLineIsSound(r, lines[0]);
      if ReadLine(r, lines[0]).Some? {
        ReadLinesIsSound(ReadLine(r, lines[0]).value, lines[1..]);
      }
    }
  }

  lemma ParsedMapIsSound(data: string)
    ensures ParsedMap(data).Some? ==> Sound(ParsedMap(data).value)
  {
    ReadLinesIsSound(Reading(map[], ""), Split(UnixLines(data), '\n'));
  }

  /** Whether one of the certificate's principals may assume the account. An account
      the map does not list is never allowed. */
  method Allowed(m: Principals, account: string, certPrincipals: seq<string>) returns (allowed: bool)
    ensures allowed <==> account in m && exists p :: p in certPrincipals && p in m[account]
  {
    if account !in m {
      return false;
    }
    for i := 0 to |certPrincipals|
      invariant forall j :: 0 <= j < i ==> certPrincipals[j] !in m[account]
    {
      if certPrincipals[i] in m[account] {
        return true;
      }
    }
    return false;
  }
}
