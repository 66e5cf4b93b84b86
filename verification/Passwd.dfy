/** What the name and path rules are for: a served user makes one sound line of
    passwd(5), with clean paths and a name no program takes for a number. */
module Passwd {
  import opened Types
  import opened Text
  import opened Plist
  import opened Policy

  /* Clean paths */

  function Slashed(cs: seq<string>): string {
    if cs == [] then "" else if |cs| == 1 then cs[0] else cs[0] + ['/'] + Slashed(cs[1..])
  }

  /** The components left after empty and `.` ones are dropped and each `..` takes the
      one before it along. */
  function Resolved(cs: seq<string>, kept: seq<string>): seq<string>
    decreases |cs|
  {
    if cs == [] then kept
    else if cs[0] == "" || cs[0] == "." then Resolved(cs[1..], kept)
    else if cs[0] == ".." then Resolved(cs[1..], if kept == [] then [] else kept[..|kept| - 1])
    else Resolved(cs[1..], kept + [cs[0]])
  }

  /** The shortest spelling of a rooted path, as filepath.Clean gives it. */
  function Clean(p: string): string
    requires p != "" && p[0] == '/'
  {
    "/" + Slashed(Resolved(Split(p[1..], '/'), []))
  }

  predicate Component(c: string) {
    c != "" && c != "." && c != ".." && '/' !in c
  }

  ghost predicate Components(cs: seq<string>) {
    forall c | c in cs :: Component(c)
  }

  lemma {:induction false} FieldsHoldNoSeparator(s: string, sep: char)
    ensures forall f | f in Split(s, sep) :: sep !in f
  {
    if s != "" {
      FieldsHoldNoSeparator(s[1..], sep);
      assert Split(s[1..], sep)[0] in Split(s[1..], sep);
    }
  }

  lemma {:induction false} SlashedFields(s: string)
    ensures Slashed(Split(s, '/')) == s
  {
    if s != "" {
      var fields, rest := Split(s, '/'), Split(s[1..], '/');
      SlashedFields(s[1..]);
      if s[0] == '/' {
        assert fields[1..] == rest;
      } else {
        assert fields[1..] == rest[1..];
      }
    }
  }

  lemma {:induction false} FieldsOfSlashed(cs: seq<string>)
    requires cs != [] && Components(cs)
    ensures Split(Slashed(cs), '/') == cs
  {
    assert Component(cs[0]);
    if |cs| == 1 {
      SplitWhole(cs[0], '/');
      assert cs == [cs[0]];
    } else {
      FieldsOfSlashed(cs[1..]);
      SplitFirst(cs[0], Slashed(cs[1..]), '/');
      assert cs == [cs[0]] + cs[1..];
    }
  }

  lemma {:induction false} ResolvedAreComponents(cs: seq<string>, kept: seq<string>)
    requires (forall c | c in cs :: '/' !in c) && Components(kept)
    ensures Components(Resolved(cs, kept))
    decreases |cs|
  {
    if cs != [] {
      assert cs[0] in cs;
      ResolvedAreComponents(cs[1..],
        if cs[0] == "" || cs[0] == "." then kept
        else if cs[0] == ".." then (if kept == [] then [] else kept[..|kept| - 1])
        else kept + [cs[0]]);
    }
  }

  lemma {:induction false} ComponentsResolve(cs: seq<string>, kept: seq<string>)
    requires Components(cs)
    ensures Resolved(cs, kept) == kept + cs
    decreases |cs|
  {
    if cs != [] {
      assert cs[0] in cs;
      ComponentsResolve(cs[1..], kept + [cs[0]]);
      assert kept + [cs[0]] + cs[1..] == kept + cs;
    }
  }

  /** A path is usable exactly when it is rooted, already clean, and holds no colon and no
      control character. */
  lemma ValidPathIsClean(p: string)
    ensures ValidPath(p) <==> p != "" && p[0] == '/' && Clean(p) == p && ':' !in p && !HasControl(p)
  {
    if p != "" && p[0] == '/' {
      var rest := p[1..];
      var fields := Split(rest, '/');
      var left := Resolved(fields, []);
      FieldsHoldNoSeparator(rest, '/');
      SlashedFields(rest);
      ResolvedAreComponents(fields, []);
      assert p == "/" + rest;
      if rest == "" {
        assert fields == [""] && Resolved([""][1..], []) == [];
      } else if Components(fields) {
        ComponentsResolve(fields, []);
        assert [] + fields == fields;
        assert forall c | c in fields :: Component(c);
      } else if Clean(p) == p {
        assert Slashed(left) == rest;
        FieldsOfSlashed(left);
      }
    }
  }

  /* Names */

  lemma NumberText(k: int)
    ensures AllDigits(IntegerText(k)) || (IntegerText(k)[0] == '-' && AllDigits(IntegerText(k)[1..]))
  {
    DigitsReadBack(if k < 0 then -k else k);
    if k < 0 {
      assert IntegerText(k)[1..] == Digits(-k);
    }
  }

  /** No name the policy serves is the text of a number, of a path's own or parent
      directory, or could be mistaken for another field or path component. */
  lemma NamesAreNotNumbers(n: string)
    requires ValidName(n)
    ensures forall digits | AllDigits(digits) :: n != digits && n != "-" + digits
    ensures forall k :: n != IntegerText(k)
    ensures Component(n) && ':' !in n && !HasControl(n) && |n| <= MAX_NAME_BYTES
    ensures n[0] != ' ' && n[|n| - 1] != ' '
  {
    forall digits | AllDigits(digits) ensures n != "-" + digits {
      assert ("-" + digits)[1..] == digits;
    }
    forall k ensures n != IntegerText(k) {
      NumberText(k);
    }
  }

  /* The line */

  function PasswdLine(u: User): string {
    u.name + [':'] +
      ("x" + [':'] + (Digits(u.uid) + [':'] + (Digits(u.gid) + [':'] + ("" + [':'] + (u.home + [':'] + u.shell)))))
  }

  lemma DigitsArePlain(n: nat)
    ensures ':' !in Digits(n) && !HasControl(Digits(n))
  {
    DigitsReadBack(n);
    var s := Digits(n);
    hide Digits;
    forall i | 0 <= i < |s| ensures s[i] != ':' && !(s[i] < ' ' || s[i] == '\U{7f}') {
      assert IsDigit(s[i]);
    }
  }

  lemma NoControlJoined(a: string, b: string)
    requires !HasControl(a) && !HasControl(b)
    ensures !HasControl(a + [':'] + b)
  {
    var s := a + [':'] + b;
    forall i | 0 <= i < |s| ensures !(s[i] < ' ' || s[i] == '\U{7f}') {
      assert i < |a| ==> s[i] == a[i];
      assert i > |a| ==> s[i] == b[i - |a| - 1];
    }
  }

  lemma FieldJoined(a: string, b: string)
    requires ':' !in a && !HasControl(a) && !HasControl(b)
    ensures Split(a + [':'] + b, ':') == [a] + Split(b, ':') && !HasControl(a + [':'] + b)
  {
    SplitFirst(a, b, ':');
    NoControlJoined(a, b);
  }

  /** With the operator's two shells usable, as start-up demands, every served user makes
      a line of exactly seven fields, each the field it was made of, and no
      character that would break it. */
  lemma ServedUserMakesOneLine(cfg: Config, host: Host, r: UserRecord)
    requires ServeUser(cfg, host, r).Some? && ValidPath(cfg.shellFallback) && ValidPath(cfg.disabledShell)
    ensures var u := ServeUser(cfg, host, r).value;
      && Split(PasswdLine(u), ':') == [u.name, "x", Digits(u.uid), Digits(u.gid), "", u.home, u.shell]
      && !HasControl(PasswdLine(u))
  {
    var u := ServeUser(cfg, host, r).value;
    UserIsServedExactlyWhen(cfg, host, r);
    HomeAndShellComeFrom(cfg, host, r);
    assert ValidName(u.name) && ValidPath(u.shell);
    assert ValidPath(u.home) by {
      var (uid, gid, home, shell) := Overridden(host, r);
      FirstValidExists(HomeCandidates(cfg, r.name, uid, Or(r.home), home));
    }
    hide ServeUser, Expand, Split, Digits, ShellAcceptable;
    LineSplits(u);
  }

  lemma LineSplits(u: User)
    requires ValidName(u.name) && ValidPath(u.home) && ValidPath(u.shell)
    ensures Split(PasswdLine(u), ':') == [u.name, "x", Digits(u.uid), Digits(u.gid), "", u.home, u.shell]
    ensures !HasControl(PasswdLine(u))
  {
    hide Split, Digits;
    DigitsArePlain(u.uid);
    DigitsArePlain(u.gid);
    SplitWhole(u.shell, ':');
    var home := u.home + [':'] + u.shell;
    var gecos := "" + [':'] + home;
    var gid := Digits(u.gid) + [':'] + gecos;
    var uid := Digits(u.uid) + [':'] + gid;
    FieldJoined(u.home, u.shell);
    FieldJoined("", home);
    FieldJoined(Digits(u.gid), gecos);
    FieldJoined(Digits(u.uid), gid);
    FieldJoined("x", uid);
    FieldJoined(u.name, "x" + [':'] + uid);
  }
}
