/** What the reader makes of each kind of line, and what it refuses. */
module PrincipalsMapLines {
  import opened Types
  import opened Text
  import opened PrincipalsMap
  import opened PrincipalsMapFormat
  import opened PrincipalsMapFlow

  /* Scanning a line piece by piece */

  /** Whether the scan is inside quotes after `s`. */
  function After(s: string, q: Quoting): Quoting {
    if s == "" then q else After(s[1..], Next(q, s[0]))
  }

  /** No comment starts in `s`; `gap` when it starts the line or follows a blank. */
  ghost predicate Whole(s: string, gap: bool) {
    Kept(s, Outside, gap) == |s|
  }

  lemma {:induction false} KeptAppend(s: string, t: string, q: Quoting, gap: bool)
    requires Kept(s, q, gap) == |s|
    ensures Kept(s + t, q, gap) == |s| + Kept(t, After(s, q), if s == "" then gap else IsBlank(s[|s| - 1]))
  {
    if s == "" {
      assert s + t == t;
    } else {
      assert (s + t)[0] == s[0] && (s + t)[1..] == s[1..] + t;
      KeptAppend(s[1..], t, Next(q, s[0]), IsBlank(s[0]));
    }
  }

  lemma {:induction false} ColonAppend(s: string, t: string, q: Quoting)
    requires Colon(s, q) == None
    ensures var n := Colon(t, After(s, q)); Colon(s + t, q) == if n.None? then None else Some(|s| + n.value)
  {
    if s == "" {
      assert s + t == t;
    } else {
      assert (s + t)[0] == s[0] && (s + t)[1..] == s[1..] + t;
      ColonAppend(s[1..], t, Next(q, s[0]));
    }
  }

  ghost predicate AllBlank(s: string) {
    forall i :: 0 <= i < |s| ==> IsBlank(s[i])
  }

  lemma {:induction false} BlanksScan(pad: string, gap: bool)
    requires AllBlank(pad)
    ensures Whole(pad, gap) && After(pad, Outside) == Outside && AllSpace(pad)
  {
    if pad != "" {
      BlanksScan(pad[1..], true);
    }
  }

  ghost predicate Trimmed(s: string) {
    s != "" && !IsSpace(s[0]) && !IsSpace(s[|s| - 1])
  }

  /* Account lines */

  /** Text that stands before an account's colon: trimmed, no list item, no comment,
      its quotes closed and no colon outside them. */
  ghost predicate KeyText(w: string) {
    Trimmed(w) && w[0] != '-' && Whole(w, true) && After(w, Outside) == Outside && Colon(w, Outside) == None
  }

  /** Every name can be put in quotes it does not hold, needed or not. */
  lemma QuotedIsKeyText(q: char, a: string)
    requires IsQuote(q) && q !in a
    ensures KeyText([q] + a + [q])
  {
    var w := [q] + a + [q];
    assert w[1..] == a + [q] + "";
    KeptInside(a, q, "", false);
    QuotesClose(a, q);
    assert w[1..] == a + [q];
  }

  lemma {:induction false} QuotesClose(v: string, q: char)
    requires IsQuote(q) && q !in v
    ensures After(v + [q], Within(q)) == Outside && Colon(v + [q], Within(q)) == None
  {
    if v == "" {
      assert (v + [q])[1..] == "";
    } else {
      assert (v + [q])[0] == v[0] && (v + [q])[1..] == v[1..] + [q];
      QuotesClose(v[1..], q);
    }
  }

  /** What may follow the colon: no comment, and no blank at the end. */
  ghost predicate ValueText(rest: string) {
    Whole(rest, false) && (rest == "" || !IsSpace(rest[|rest| - 1]))
  }

  lemma AccountLineSplits(w: string, rest: string)
    requires KeyText(w) && ValueText(rest)
    ensures var line := w + ([':'] + rest);
      Whole(line, true) && Trimmed(line) && Trim(line) == line && SplitKey(line) == Some((w, Trim(rest)))
  {
    var line := w + ([':'] + rest);
    KeptAppend(w, [':'] + rest, Outside, true);
    KeptCons(':', rest, false);
    assert !IsBlank(w[|w| - 1]);
    ColonAppend(w, [':'] + rest, Outside);
    assert line[..|w|] == w && line[|w| + 1..] == rest;
    TrimKeeps(w);
    TrimKeeps(line);
    hide TrimStart, TrimEnd, Kept, After;
    assert ([':'] + rest)[0] == ':';
  }

  lemma AccountParses(w: string, rest: string)
    requires KeyText(w) && ValueText(rest)
    ensures var name, value := NonEmpty(Unquote(w)), Trim(rest);
      ParseAccount(w + ([':'] + rest)) ==
        if name.None? then None
        else if value == "" then Some(Account(name.value, [], true))
        else if value in {"null", "~"} then Some(Account(name.value, [], false))
        else if value[0] != '[' || ParseFlow(value).None? then None
        else Some(Account(name.value, ParseFlow(value).value, false))
  {
    AccountLineSplits(w, rest);
    hide StripComment, Trim, SplitKey, ParseFlow, Unquote, KeyText, ValueText, Whole, NonEmpty;
  }

  /** An account at the start of a line, however it is spelled: a bad or empty name or a
      second line for an account is an error; no value leaves its list open,
      `null` and `~` close it empty, an inline list closes it with its
      principals, and any other value is an error. */
  lemma AccountLineMeans(r: Reading, w: string, rest: string)
    requires KeyText(w) && ValueText(rest)
    ensures var name, value := NonEmpty(Unquote(w)), Trim(rest);
      ReadLine(r, w + ([':'] + rest)) ==
        if name.None? || name.value in r.m then None
        else if value == "" then Some(Reading(r.m[name.value := []], name.value))
        else if value in {"null", "~"} then Some(Reading(r.m[name.value := []], ""))
        else if value[0] != '[' || ParseFlow(value).None? then None
        else Some(Reading(r.m[name.value := ParseFlow(value).value], ""))
  {
    var line := w + ([':'] + rest);
    AccountLineSplits(w, rest);
    AccountParses(w, rest);
    assert StripComment(line) == line && line[0] == w[0] && w[0] != '-';
    assert !Tabbed(line) && Indent(line) == 0;
    hide StripComment, Trim, SplitKey, ParseFlow, AppendPrincipal, ParseAccount, KeyText, ValueText, Whole, NonEmpty,
      Unquote;
  }

  /** Indented, by however much and whether by blanks or tabs, the same line is an error. */
  lemma IndentedAccountIsRefused(r: Reading, pad: string, w: string, rest: string)
    requires KeyText(w) && ValueText(rest) && AllBlank(pad) && pad != ""
    ensures ReadLine(r, pad + (w + ([':'] + rest))) == None
  {
    var line := w + ([':'] + rest);
    AccountLineSplits(w, rest);
    assert line[0] != '-';
    PaddedLine(pad, line);
    hide SplitKey, ParseAccount, StripComment, Trim, Kept, KeyText, ValueText, Whole, AppendPrincipal;
    assert Indent(pad + line) > 0 by {
      assert (pad + line)[0] == pad[0];
    }
  }

  lemma PaddedLine(pad: string, line: string)
    requires AllBlank(pad) && Whole(line, true) && Trimmed(line)
    ensures StripComment(pad + line) == pad + line && Trim(pad + line) == line
  {
    BlanksScan(pad, true);
    KeptAppend(pad, line, Outside, true);
    TrimPadded(pad, line, "");
    assert pad + line + "" == pad + line;
    TrimKeeps(line);
  }

  lemma {:induction false} TabIsSeen(pad: string, rest: string)
    requires AllBlank(pad) && '\t' in pad
    ensures Tabbed(pad + rest)
  {
    assert (pad + rest)[0] == pad[0] && (pad + rest)[1..] == pad[1..] + rest;
    if pad[0] != '\t' {
      TabIsSeen(pad[1..], rest);
    }
  }

  /** A line indented with a tab is an error, whatever it holds. */
  lemma TabIsRefused(r: Reading, pad: string, rest: string)
    requires AllBlank(pad) && '\t' in pad
    ensures ReadLine(r, pad + rest) == None
  {
    BlanksScan(pad, true);
    KeptAppend(pad, rest, Outside, true);
    var kept := Kept(rest, Outside, IsBlank(pad[|pad| - 1]));
    assert (pad + rest)[..|pad| + kept] == pad + rest[..kept];
    TabIsSeen(pad, rest[..kept]);
  }

  /* Line ends */

  /** The same text with Windows line ends. */
  function WindowsLines(s: string): string {
    if s == "" then "" else (if s[0] == '\n' then "\r\n" else [s[0]]) + WindowsLines(s[1..])
  }

  lemma {:induction false} LineEndsAreAlike(s: string)
    requires '\r' !in s
    ensures UnixLines(WindowsLines(s)) == s && UnixLines(s) == s
  {
    if s != "" {
      LineEndsAreAlike(s[1..]);
      var w := WindowsLines(s[1..]);
      assert s == [s[0]] + s[1..];
      if s[0] == '\n' {
        assert ("\r\n" + w)[2..] == w;
      } else {
        assert ([s[0]] + w)[1..] == w;
      }
    }
  }

  /** A file reads the same with either kind of line end. */
  lemma WindowsFileReadsAlike(data: string)
    requires '\r' !in data
    ensures ParsedMap(WindowsLines(data)) == ParsedMap(data)
  {
    LineEndsAreAlike(data);
  }

  /* List items */

  lemma {:induction false} SpacesAreNoTabs(pad: string, s: string)
    requires (forall i :: 0 <= i < |pad| ==> pad[i] == ' ') && s != "" && !IsBlank(s[0])
    ensures !Tabbed(pad + s)
  {
    if pad == "" {
      assert pad + s == s;
    } else {
      assert (pad + s)[0] == ' ' && (pad + s)[1..] == pad[1..] + s;
      SpacesAreNoTabs(pad[1..], s);
    }
  }

  /** An item, indented by any number of blanks and spelled in any way, appends its
      principal to the open account; a value the quotes spoil, or no open
      account, is an error. */
  lemma ItemLineMeans(r: Reading, pad: string, w: string)
    requires (forall i :: 0 <= i < |pad| ==> pad[i] == ' ') && Trimmed(w) && Whole(w, true)
    ensures var p := NonEmpty(Unquote(w));
      ReadLine(r, pad + (['-', ' '] + w)) ==
        if p.None? || r.account == "" then None
        else Some(r.(m := r.m[r.account := (if r.account in r.m then r.m[r.account] else []) + [p.value]]))
  {
    var line := ['-', ' '] + w;
    assert line == ['-'] + ([' '] + w);
    KeptCons(' ', w, false);
    KeptCons('-', [' '] + w, true);
    PaddedLine(pad, line);
    SpacesAreNoTabs(pad, line);
    assert line[1..] == [' '] + w;
    TrimPadded([' '], w, "");
    assert [' '] + w + "" == [' '] + w;
    TrimKeeps(w);
    assert ([' '] + w)[0] == ' ';
    hide StripComment, Trim, Tabbed, Unquote, AddAccount, Kept, Whole, NonEmpty;
  }

  lemma {:induction false} JoinedHashScans(s: string, q: Quoting, gap: bool)
    requires s != "" && s[0] == '#' ==> !gap
    requires forall i, j :: 0 <= i && j == i + 1 < |s| && s[j] == '#' ==> !IsBlank(s[i])
    ensures Kept(s, q, gap) == |s|
  {
    if s != "" {
      JoinedHashScans(s[1..], Next(q, s[0]), IsBlank(s[0]));
    }
  }

  /** A hash that follows no blank starts no comment: unquoted it is part of the principal. */
  lemma JoinedHashIsKept(r: Reading, pad: string, w: string)
    requires (forall i :: 0 <= i < |pad| ==> pad[i] == ' ') && Trimmed(w) && !IsQuote(w[0])
    requires w[0] != '#' && forall i, j :: 0 <= i && j == i + 1 < |w| && w[j] == '#' ==> !IsBlank(w[i])
    requires r.account in r.m && r.account != ""
    ensures ReadLine(r, pad + (['-', ' '] + w)) == Some(r.(m := r.m[r.account := r.m[r.account] + [w]]))
  {
    JoinedHashScans(w, Outside, true);
    ItemLineMeans(r, pad, w);
    hide ReadLine, Kept;
  }

  /** A dash without its blank is no item, whatever follows. */
  lemma StrayDashIsRefused(r: Reading, x: string)
    requires x == "" || x[0] != ' '
    ensures ReadLine(r, ['-'] + x) == None
  {
    var raw := ['-'] + x;
    assert raw[1..] == x;
    var line := StripComment(raw);
    assert line != "" && line[0] == '-' && (|line| > 1 ==> line[1] != ' ');
    TrimEndIsAPrefix(line);
    var content := TrimEnd(line);
    assert TrimStart(line) == line && content[0] == '-';
    assert content[1..] == "" || content[1..][0] != ' ';
    assert Unquote(Trim("")) == Some("");
    hide StripComment, TrimEnd, TrimStart, AddAccount;
  }

  /** Quotes are stripped from exactly the values without an escape or a further
      quote of their kind; the others are refused. */
  lemma QuotedValueReads(q: char, v: string)
    requires IsQuote(q)
    ensures Unquote([q] + v + [q]) == if q in v || '\\' in v then None else Some(v)
    ensures v == "" || v[|v| - 1] != q ==> Unquote([q] + v) == None
  {
    assert ([q] + v + [q])[1..|v| + 1] == v;
  }

  /* Comments */

  lemma {:induction false} IndentStops(line: string, more: string)
    requires !AllBlank(line)
    ensures Indent(line + more) == Indent(line) && Tabbed(line + more) == Tabbed(line)
  {
    assert (line + more)[0] == line[0] && (line + more)[1..] == line[1..] + more;
    if IsBlank(line[0]) {
      assert line == [line[0]] + line[1..];
      IndentStops(line[1..], more);
    }
  }

  lemma BlankLine(pad: string)
    requires AllBlank(pad)
    ensures Trim(pad) == ""
  {
    BlanksScan(pad, true);
    TrimPadded(pad, "", "");
    assert pad + "" + "" == pad;
  }

  lemma {:induction false} UntabbedSpace(pad: string)
    requires AllBlank(pad)
    ensures Tabbed(pad + [' ']) == Tabbed(pad)
  {
    if pad == "" {
      assert pad + [' '] == [' '] && [' '][1..] == "";
    } else {
      assert (pad + [' '])[0] == pad[0] && (pad + [' '])[1..] == pad[1..] + [' '];
      UntabbedSpace(pad[1..]);
    }
  }

  lemma CommentIsCut(line: string, blank: char, comment: string)
    requires Whole(line, true) && After(line, Outside) == Outside && IsBlank(blank)
    ensures StripComment(line + ([blank] + (['#'] + comment))) == line + [blank] && StripComment(line) == line
    ensures Trim(line + [blank]) == Trim(line)
  {
    var hash := ['#'] + comment;
    KeptAppend(line, [blank] + hash, Outside, true);
    var gap := if line == "" then true else IsBlank(line[|line| - 1]);
    KeptCons(blank, hash, gap);
    assert Kept(hash, Outside, true) == 0;
    assert (line + ([blank] + hash))[..|line| + 1] == line + [blank];
    TrimPadded("", line, [blank]);
    assert "" + line + [blank] == line + [blank];
  }

  /** On any line whose quotes are closed, a comment after a blank changes nothing. The
      blank is a tab only after some text: a line indented by a tab is an error,
      even for a comment. A line that is only a comment is skipped. */
  lemma CommentIsIgnored(r: Reading, line: string, blank: char, comment: string)
    requires Whole(line, true) && After(line, Outside) == Outside
    requires blank == ' ' || (blank == '\t' && !AllBlank(line))
    ensures ReadLine(r, line + ([blank] + (['#'] + comment))) == ReadLine(r, line)
    ensures ReadLine(r, ['#'] + comment) == Some(r)
  {
    CommentIsCut(line, blank, comment);
    if AllBlank(line) {
      BlankLine(line);
      UntabbedSpace(line);
    } else {
      IndentStops(line, [blank]);
    }
    assert StripComment(['#'] + comment) == "";
    hide Kept, StripComment, AddAccount, AppendPrincipal, Indent, Whole, After;
    assert Trim("") == "" && !Tabbed("");
    hide Trim;
  }

  /* Accounts with an inline list */

  /** An account with an inline list, however it is spelled and spaced, takes exactly
      its principals when none holds a comma. */
  lemma InlineAccountReads(r: Reading, a: string, w: string, pre: string, xs: seq<Item>)
    requires KeyText(w) && Unquote(w) == Some(a) && a != "" && a !in r.m
    requires xs != [] && AllSpelled(xs) && !HasComma(xs)
    requires AllSpace(pre) && Whole(pre + ("[" + Commas(xs) + "]"), false)
    ensures ReadLine(r, w + ([':'] + (pre + ("[" + Commas(xs) + "]")))) == Some(Reading(r.m[a := Values(xs)], ""))
  {
    var value := "[" + Commas(xs) + "]";
    var rest := pre + value;
    FlowListReadsBack(xs);
    TrimPadded(pre, value, "");
    assert pre + value + "" == rest;
    TrimKeeps(value);
    assert rest[|rest| - 1] == ']';
    hide ParseFlow, Commas, ReadLine, Trim, Whole, KeyText, Unquote, AllSpelled, HasComma;
    AccountLineMeans(r, w, rest);
  }

  /** A quoted item may hold a hash: nothing inside its quotes starts a comment. */
  lemma QuotedHashIsKept(q: char, v: string, gap: bool)
    requires IsQuote(q) && q !in v
    ensures Whole(['['] + ([q] + v + [q]) + [']'], gap)
  {
    var s := [q] + v + [q] + [']'];
    assert ['['] + ([q] + v + [q]) + [']'] == ['['] + s;
    KeptCons('[', s, gap);
    assert s[1..] == v + [q] + [']'];
    KeptInside(v, q, [']'], false);
  }
}
