/** The host's own rules over every answer from the directory: which names and
    ids it may serve, and what a served user or group looks like here. */
module Policy {
  import opened Types
  import opened Text
  import opened LocalFiles

  datatype Config = Config(
    minId: Uint32, maxId: Uint32,
    filterUsers: seq<string>, filterGroups: seq<string>, requireGroups: seq<string>,
    overrideGid: Uint32, ignoreGroupMembers: bool,
    overrideHomedir: string, fallbackHomedir: string,
    overrideShell: string, shellFallback: string, disabledShell: string,
    allowedShells: seq<string>, vetoedShells: seq<string>)

  /** One user's host override; an empty path sets nothing. */
  datatype Override = Override(uid: Option<Uint32>, gid: Option<Uint32>, home: string, shell: string)

  /** What the host files say at a moment; None is a file that cannot be read. */
  datatype Host = Host(
    passwd: Option<LocalDB>, group: Option<LocalDB>,
    shells: Option<seq<string>>, overrides: map<string, Override>)

  datatype User = User(
    name: string, uid: Uint32, gid: Uint32, home: string, shell: string,
    locked: bool, status: string, groups: seq<string>)

  datatype Group = Group(name: string, gid: Uint32, members: seq<string>)

  const MAX_NAME_BYTES := 32
  const STATUS_ACTIVE := "active"

  /** What start-up validation leaves of the id range. */
  predicate ValidRange(cfg: Config) {
    1 <= cfg.minId && (cfg.maxId == 0 || cfg.minId <= cfg.maxId)
  }

  predicate InRange(cfg: Config, id: Uint32) {
    cfg.minId <= id && (cfg.maxId == 0 || id <= cfg.maxId)
  }

  predicate HasControl(s: string) {
    exists i :: 0 <= i < |s| && (s[i] < ' ' || s[i] == '\U{7f}')
  }

  predicate ValidName(name: string) {
    && 1 <= |name| <= MAX_NAME_BYTES
    && name[0] != ' ' && name[|name| - 1] != ' '
    && !HasControl(name) && ':' !in name && '/' !in name
    && !AllDigits(name) && !(name[0] == '-' && AllDigits(name[1..]))
    && name != "." && name != ".."
  }

  /** Absolute, already clean, and safe in a passwd line. */
  predicate ValidPath(p: string) {
    && p != "" && p[0] == '/' && ':' !in p && !HasControl(p)
    && (p == "/" || forall c | c in Split(p[1..], '/') :: c != "" && c != "." && c != "..")
  }

  /* The short-circuit: what is never asked of the server */

  predicate UserNameAllowed(cfg: Config, host: Host, name: string) {
    && ValidName(name) && name !in cfg.filterUsers
    && host.passwd.Some? && name !in host.passwd.value.names
  }

  predicate UidAllowed(cfg: Config, host: Host, uid: Uint32) {
    InRange(cfg, uid) && host.passwd.Some? && uid !in host.passwd.value.ids
  }

  predicate GroupNameAllowed(cfg: Config, host: Host, name: string) {
    && ValidName(name) && name !in cfg.filterGroups
    && host.group.Some? && name !in host.group.value.names
  }

  predicate GidAllowed(cfg: Config, host: Host, gid: Uint32) {
    InRange(cfg, gid) && host.group.Some? && gid !in host.group.value.ids
  }

  /* Memberships */

  /** The gid rule: the name to list a membership under, or None to drop it. */
  function MembershipName(cfg: Config, local: LocalDB, m: Membership): Option<string> {
    if !InRange(cfg, m.gid) then None
    else if m.gid in local.ids then
      var name := local.ids[m.gid];
      if ValidName(name) && name !in cfg.filterGroups then Some(name) else None
    else if m.name in local.names then None
    else if ValidName(m.name) && m.name !in cfg.filterGroups then Some(m.name)
    else None
  }

  /** The memberships that are listed at all. */
  function Kept(cfg: Config, local: LocalDB, ms: seq<Membership>): seq<string> {
    if ms == [] then []
    else
      var last := ms[|ms| - 1];
      Kept(cfg, local, ms[..|ms| - 1]) +
      if MembershipName(cfg, local, last).Some? then [last.name] else []
  }

  /** The names they are listed under, each once. */
  function ListedNames(cfg: Config, local: LocalDB, ms: seq<Membership>): seq<string> {
    if ms == [] then []
    else
      var before, name := ListedNames(cfg, local, ms[..|ms| - 1]), MembershipName(cfg, local, ms[|ms| - 1]);
      if name.None? || name.value in before then before else before + [name.value]
  }

  method Memberships(cfg: Config, local: LocalDB, ms: seq<Membership>) returns (groups: seq<string>, kept: seq<string>)
    ensures groups == ListedNames(cfg, local, ms)
    ensures kept == Kept(cfg, local, ms)
  {
    groups, kept := [], [];
    for i := 0 to |ms|
      invariant groups == ListedNames(cfg, local, ms[..i])
      invariant kept == Kept(cfg, local, ms[..i])
    {
      assert ms[..i + 1][..i] == ms[..i];
      var name := MembershipName(cfg, local, ms[i]);
      if name.Some? {
        kept := kept + [ms[i].name];
        if name.value !in groups {
          groups := groups + [name.value];
        }
      }
    }
    assert ms[..|ms|] == ms;
  }

  /** Looked up as initgroups does, group file first and directory second, the
      name leads to the membership's own gid. */
  predicate LeadsTo(local: LocalDB, name: string, m: Membership) {
    if name in local.names then local.names[name] == Some(m.gid) else name == m.name
  }

  /** Each listed name appears once and stands for one of the memberships. */
  lemma {:induction false} ListedNamesAreKept(cfg: Config, local: LocalDB, ms: seq<Membership>)
    ensures forall i, j :: 0 <= i < j < |ListedNames(cfg, local, ms)| ==>
      ListedNames(cfg, local, ms)[i] != ListedNames(cfg, local, ms)[j]
    ensures forall n :: n in ListedNames(cfg, local, ms) <==>
      exists i :: 0 <= i < |ms| && MembershipName(cfg, local, ms[i]) == Some(n)
  {
    if ms != [] {
      var k := |ms| - 1;
      ListedNamesAreKept(cfg, local, ms[..k]);
      forall n ensures n in ListedNames(cfg, local, ms) <==>
        exists i :: 0 <= i < |ms| && MembershipName(cfg, local, ms[i]) == Some(n)
      {
        if n in ListedNames(cfg, local, ms[..k]) {
          var i :| 0 <= i < k && MembershipName(cfg, local, ms[..k][i]) == Some(n);
          assert MembershipName(cfg, local, ms[i]) == Some(n);
        }
        if i :| 0 <= i < k && MembershipName(cfg, local, ms[i]) == Some(n) {
          assert MembershipName(cfg, local, ms[..k][i]) == Some(n);
        }
      }
    }
  }

  /** The local names the gid rule may list all lead back to their gid. */
  ghost predicate ServableConsistent(cfg: Config, local: LocalDB) {
    forall i | i in local.ids && InRange(cfg, i) && ValidName(local.ids[i]) && local.ids[i] !in cfg.filterGroups ::
      local.ids[i] in local.names && local.names[local.ids[i]] == Some(i)
  }

  /** No membership is lost: one in range is listed under the local name of its gid,
      or under its own when neither the gid nor the name is a local group's. */
  lemma MembershipsAreListed(cfg: Config, local: LocalDB, ms: seq<Membership>, m: Membership)
    requires m in ms && InRange(cfg, m.gid)
    ensures m.gid in local.ids && ValidName(local.ids[m.gid]) && local.ids[m.gid] !in cfg.filterGroups ==>
      local.ids[m.gid] in ListedNames(cfg, local, ms)
    ensures m.gid !in local.ids && m.name !in local.names && ValidName(m.name) && m.name !in cfg.filterGroups ==>
      m.name in ListedNames(cfg, local, ms)
  {
    ListedNamesAreKept(cfg, local, ms);
    var i :| 0 <= i < |ms| && ms[i] == m;
    assert MembershipName(cfg, local, ms[i]) == MembershipName(cfg, local, m);
    hide ListedNames, ValidName;
  }

  /** Every listed name leads to its own gid exactly when the group file's
      servable names all do: the promise is only as good as the file. */
  lemma ListedNamesLeadHome(cfg: Config, local: LocalDB)
    ensures ServableConsistent(cfg, local) <==>
      forall m :: MembershipName(cfg, local, m).Some? ==> LeadsTo(local, MembershipName(cfg, local, m).value, m)
  {
    if !ServableConsistent(cfg, local) {
      var i :| i in local.ids && InRange(cfg, i) && ValidName(local.ids[i]) && local.ids[i] !in cfg.filterGroups &&
        !(local.ids[i] in local.names && local.names[local.ids[i]] == Some(i));
      var m := Membership(i, "");
      assert MembershipName(cfg, local, m) == Some(local.ids[i]);
      assert !LeadsTo(local, local.ids[i], m);
    }
  }

  /** For a group file that lists each name at most once, every listed name is
      in range and leads to its own membership's gid. */
  lemma ListedNamesResolve(cfg: Config, local: LocalDB, ls: seq<Listing>, ms: seq<Membership>, n: string)
    requires Indexes(local, ls) && NamesOnce(ls)
    requires n in ListedNames(cfg, local, ms)
    ensures exists m ::
      m in ms && MembershipName(cfg, local, m) == Some(n) && InRange(cfg, m.gid) && LeadsTo(local, n, m)
    ensures ValidName(n) && n !in cfg.filterGroups
  {
    ListedNamesAreKept(cfg, local, ms);
    NamesOnceIsConsistent(local, ls);
    var i :| 0 <= i < |ms| && MembershipName(cfg, local, ms[i]) == Some(n);
    assert ms[i] in ms && InRange(cfg, ms[i].gid) && LeadsTo(local, n, ms[i]);
  }

  /** A file that lists one name under two gids breaks the promise. */
  lemma TwiceListedNameLeadsAstray(cfg: Config)
    requires cfg.minId <= 20 && cfg.maxId == 0 && cfg.filterGroups == []
    ensures var ls := [Listing("adm", Some(10)), Listing("adm", Some(20))];
      var local := LocalDB(map["adm" := Some(10)], map[10 := "adm", 20 := "adm"]);
      Indexes(local, ls) && MembershipName(cfg, local, Membership(20, "team")) == Some("adm") &&
      !LeadsTo(local, "adm", Membership(20, "team"))
  {
    var ls := [Listing("adm", Some(10)), Listing("adm", Some(20))];
    assert ls[1..] == [Listing("adm", Some(20))] && ls[1..][1..] == [];
    forall n ensures FirstNamed(ls, n) == if n == "adm" then Some(ls[0]) else None {
      assert FirstNamed(ls[1..][1..], n) == None;
    }
    forall i: Uint32
      ensures FirstWithId(ls, i) == if i == 10 then Some(ls[0]) else if i == 20 then Some(ls[1]) else None
    {
      assert FirstWithId(ls[1..][1..], i) == None;
    }
    assert !AllDigits("adm") && !HasControl("adm") && ValidName("adm");
  }

  /* Home directory templates */

  /** Deletes every `%%`, left to right. */
  function DropPercents(t: string): string {
    if |t| < 2 then t
    else if t[0] == '%' && t[1] == '%' then DropPercents(t[2..])
    else [t[0]] + DropPercents(t[1..])
  }

  predicate ContainsHome(t: string) {
    exists i :: 0 <= i < |t| - 1 && t[i] == '%' && t[i + 1] == 'h'
  }

  function Replacement(c: char, name: string, uid: Uint32, home: string): string {
    match c
    case 'u' => name
    case 'U' => Digits(uid)
    case 'h' => home
    case '%' => "%"
    case _ => ['%', c]
  }

  /** The left-to-right scan: `%` takes the next character with it. */
  function Substitute(t: string, name: string, uid: Uint32, home: string): string {
    if t == "" then ""
    else if t[0] != '%' || |t| == 1 then [t[0]] + Substitute(t[1..], name, uid, home)
    else Replacement(t[1], name, uid, home) + Substitute(t[2..], name, uid, home)
  }

  function Expand(t: string, name: string, uid: Uint32, home: string): string {
    if t == "" || (home == "" && ContainsHome(DropPercents(t))) then ""
    else Substitute(t, name, uid, home)
  }

  lemma SubstituteStep(b: string, t: string, name: string, uid: Uint32, home: string)
    requires t != ""
    ensures b + Substitute(t, name, uid, home) ==
      if t[0] != '%' || |t| == 1 then (b + [t[0]]) + Substitute(t[1..], name, uid, home)
      else (b + Replacement(t[1], name, uid, home)) + Substitute(t[2..], name, uid, home)
  {
  }

  method ExpandTemplate(t: string, name: string, uid: Uint32, home: string) returns (b: string)
    ensures b == Expand(t, name, uid, home)
  {
    if t == "" || (home == "" && ContainsHome(DropPercents(t))) {
      return "";
    }
    b := "";
    var i := 0;
    while i < |t|
      invariant 0 <= i <= |t|
      invariant b + Substitute(t[i..], name, uid, home) == Substitute(t, name, uid, home)
    {
      SubstituteStep(b, t[i..], name, uid, home);
      if t[i] != '%' || i + 1 == |t| {
        b := b + [t[i]];
        i := i + 1;
      } else {
        b := b + Replacement(t[i + 1], name, uid, home);
        i := i + 2;
      }
    }
  }

  /** What a template means, read from the left: text without a percent sign stands
      for itself, and a sequence for what its letter names. */
  lemma {:induction false} TextStandsForItself(text: string, t: string, name: string, uid: Uint32, home: string)
    requires '%' !in text
    ensures Substitute(text + t, name, uid, home) == text + Substitute(t, name, uid, home)
  {
    if text == "" {
      assert text + t == t;
    } else {
      hide Replacement;
      TextStandsForItself(text[1..], t, name, uid, home);
      assert text == [text[0]] + text[1..];
      Regroup([text[0]], text[1..], t);
      Regroup([text[0]], text[1..], Substitute(t, name, uid, home));
      assert ([text[0]] + (text[1..] + t))[1..] == text[1..] + t;
    }
  }

  lemma SequencesAreReplaced(t: string, name: string, uid: Uint32, home: string)
    ensures Substitute("%u" + t, name, uid, home) == name + Substitute(t, name, uid, home)
    ensures Substitute("%U" + t, name, uid, home) == Digits(uid) + Substitute(t, name, uid, home)
    ensures Substitute("%h" + t, name, uid, home) == home + Substitute(t, name, uid, home)
    ensures Substitute("%%" + t, name, uid, home) == "%" + Substitute(t, name, uid, home)
    ensures forall c :: c !in {'u', 'U', 'h', '%'} ==>
      Substitute(['%', c] + t, name, uid, home) == ['%', c] + Substitute(t, name, uid, home)
  {
    assert forall c :: (['%', c] + t)[2..] == t;
    assert ("%u" + t)[2..] == ("%U" + t)[2..] == ("%h" + t)[2..] == ("%%" + t)[2..] == t;
  }

  /** How many times the scan puts the home in. */
  function Uses(t: string): nat {
    if t == "" then 0
    else if t[0] != '%' || |t| == 1 then Uses(t[1..])
    else (if t[1] == 'h' then 1 else 0) + Uses(t[2..])
  }

  lemma {:induction false} SubstituteLength(t: string, name: string, uid: Uint32, home: string)
    ensures |Substitute(t, name, uid, home)| == |Substitute(t, name, uid, "")| + Uses(t) * |home|
    ensures Uses(t) == 0 ==> Substitute(t, name, uid, home) == Substitute(t, name, uid, "")
  {
    if t != "" {
      if t[0] != '%' || |t| == 1 {
        SubstituteLength(t[1..], name, uid, home);
      } else {
        SubstituteLength(t[2..], name, uid, home);
        assert (1 + Uses(t[2..])) * |home| == |home| + Uses(t[2..]) * |home|;
      }
    }
  }

  lemma ContainsHomeCons(c: char, t: string)
    ensures ContainsHome([c] + t) <==> (c == '%' && t != "" && t[0] == 'h') || ContainsHome(t)
  {
    var s := [c] + t;
    assert t != "" ==> s[0] == c && s[0 + 1] == t[0];
    if i :| 0 <= i < |s| - 1 && s[i] == '%' && s[i + 1] == 'h' {
      var j := i - 1;
      assert i > 0 ==> t[j] == '%' && t[j + 1] == 'h';
    }
    if i :| 0 <= i < |t| - 1 && t[i] == '%' && t[i + 1] == 'h' {
      var j := i + 1;
      assert s[j] == '%' && s[j + 1] == 'h';
    }
  }

  lemma {:induction false} ShortcutFollowsTheScan(t: string)
    ensures ContainsHome(DropPercents(t)) <==> Uses(t) > 0
  {
    if |t| >= 2 {
      var rest := t[1..];
      if t[0] != '%' {
        ShortcutFollowsTheScan(rest);
        ContainsHomeCons(t[0], DropPercents(rest));
      } else {
        ShortcutFollowsTheScan(t[2..]);
        if t[1] != '%' {
          assert DropPercents(rest) == [t[1]] + DropPercents(t[2..]) by {
            assert rest[1..] == t[2..];
          }
          ContainsHomeCons(t[0], DropPercents(rest));
          ContainsHomeCons(t[1], DropPercents(t[2..]));
        }
      }
    }
  }

  /** Deleting every `%%` and then looking for `%h` finds it exactly when what
      the template expands to depends on the server's home; so without a home
      such a template, and only such a template, expands to nothing. */
  lemma ShortcutIsExact(t: string, name: string, uid: Uint32)
    ensures ContainsHome(DropPercents(t)) <==>
      exists home :: Substitute(t, name, uid, home) != Substitute(t, name, uid, "")
    ensures (exists home :: Substitute(t, name, uid, home) != Substitute(t, name, uid, "")) ==>
      Expand(t, name, uid, "") == ""
    ensures (forall home :: Substitute(t, name, uid, home) == Substitute(t, name, uid, "")) ==>
      forall home :: Expand(t, name, uid, home) == Substitute(t, name, uid, "")
  {
    ShortcutFollowsTheScan(t);
    if Uses(t) > 0 {
      SubstituteLength(t, name, uid, "x");
      assert Substitute(t, name, uid, "x") != Substitute(t, name, uid, "");
    } else {
      forall home ensures Substitute(t, name, uid, home) == Substitute(t, name, uid, "") {
        SubstituteLength(t, name, uid, home);
      }
    }
  }

  /* Users and groups after policy */

  function Or(s: Option<string>): string {
    if s.Some? then s.value else ""
  }

  /** override_homedir, then the record's or the host override's home, then
      fallback_homedir. */
  function HomeCandidates(cfg: Config, name: string, uid: Uint32, serverHome: string, home: string): seq<string> {
    [Expand(cfg.overrideHomedir, name, uid, serverHome), home, Expand(cfg.fallbackHomedir, name, uid, serverHome)]
  }

  function FirstValid(cs: seq<string>): Option<string> {
    if cs == [] then None else if ValidPath(cs[0]) then Some(cs[0]) else FirstValid(cs[1..])
  }

  predicate NoneValid(cs: seq<string>) {
    forall c | c in cs :: !ValidPath(c)
  }

  method FirstValidPath(cs: seq<string>) returns (home: Option<string>)
    ensures home == FirstValid(cs)
    ensures match home
      case None => NoneValid(cs)
      case Some(h) => ValidPath(h) && exists i :: 0 <= i < |cs| && cs[i] == h && NoneValid(cs[..i])
  {
    for i := 0 to |cs|
      invariant FirstValid(cs) == FirstValid(cs[i..])
      invariant NoneValid(cs[..i])
    {
      assert cs[i..][1..] == cs[i + 1..];
      if ValidPath(cs[i]) {
        return Some(cs[i]);
      }
    }
    return None;
  }

  lemma {:induction false} FirstValidExists(cs: seq<string>)
    ensures FirstValid(cs).Some? <==> exists c :: c in cs && ValidPath(c)
    ensures FirstValid(cs).Some? ==> FirstValid(cs).value in cs && ValidPath(FirstValid(cs).value)
  {
    if cs != [] {
      FirstValidExists(cs[1..]);
      assert cs == [cs[0]] + cs[1..];
    }
  }

  predicate ShellAcceptable(cfg: Config, host: Host, shell: string) {
    && ValidPath(shell) && shell !in cfg.vetoedShells
    && if cfg.allowedShells != [] then shell in cfg.allowedShells
       else host.shells.Some? && shell in host.shells.value
  }

  function Shell(cfg: Config, host: Host, shell: string): string {
    if ShellAcceptable(cfg, host, cfg.overrideShell) then cfg.overrideShell
    else if ShellAcceptable(cfg, host, shell) then shell
    else cfg.shellFallback
  }

  /** The record's ids and paths with the host override laid over them. */
  function Overridden(host: Host, r: UserRecord): (Uint32, Uint32, string, string) {
    if r.name !in host.overrides then (r.uid, r.gid, Or(r.home), Or(r.shell))
    else
      var o := host.overrides[r.name];
      (if o.uid.Some? then o.uid.value else r.uid,
       if o.gid.Some? then o.gid.value else r.gid,
       if o.home != "" then o.home else Or(r.home),
       if o.shell != "" then o.shell else Or(r.shell))
  }

  predicate Sane(cfg: Config, host: Host, name: string, uid: Uint32, gid: Uint32) {
    && name !in cfg.filterUsers && InRange(cfg, uid) && InRange(cfg, gid)
    && host.passwd.Some? && name !in host.passwd.value.names && uid !in host.passwd.value.ids
  }

  /** The user to serve, or None when the policy refuses the record. */
  function ServeUser(cfg: Config, host: Host, r: UserRecord): Option<User> {
    var (uid, gid, home, shell) := Overridden(host, r);
    if !ValidName(r.name) || !Sane(cfg, host, r.name, uid, gid) || host.group.None? then None
    else
      var local := host.group.value;
      var kept := Kept(cfg, local, r.groups);
      if cfg.requireGroups != [] && !(exists g :: g in kept && g in cfg.requireGroups) then None
      else
        var resolved := FirstValid(HomeCandidates(cfg, r.name, uid, Or(r.home), home));
        if resolved.None? then None
        else
          var active := r.status == STATUS_ACTIVE;
          Some(User(r.name, uid, if cfg.overrideGid != 0 then cfg.overrideGid else gid, resolved.value,
                    if active then Shell(cfg, host, shell) else cfg.disabledShell,
                    !active, r.status, ListedNames(cfg, local, r.groups)))
  }

  lemma {:induction false} KeptAreNamed(cfg: Config, local: LocalDB, ms: seq<Membership>, g: string)
    ensures g in Kept(cfg, local, ms) <==> exists m :: m in ms && m.name == g && MembershipName(cfg, local, m).Some?
  {
    if ms != [] {
      var k := |ms| - 1;
      KeptAreNamed(cfg, local, ms[..k], g);
      assert ms == ms[..k] + [ms[k]];
    }
  }

  /** A record is served exactly when its name and its ids, with the override laid
      over them, pass every rule, the local files can be read, a membership that
      keeps its gid here satisfies require_groups, and some home is usable. */
  lemma UserIsServedExactlyWhen(cfg: Config, host: Host, r: UserRecord)
    ensures var (uid, gid, home, _) := Overridden(host, r);
      ServeUser(cfg, host, r).Some? <==>
        && ValidName(r.name) && r.name !in cfg.filterUsers && host.passwd.Some? && host.group.Some?
        && r.name !in host.passwd.value.names && uid !in host.passwd.value.ids
        && cfg.minId <= uid && cfg.minId <= gid && (cfg.maxId != 0 ==> uid <= cfg.maxId && gid <= cfg.maxId)
        && (cfg.requireGroups == [] || exists m ::
              m in r.groups && MembershipName(cfg, host.group.value, m).Some? && m.name in cfg.requireGroups)
        && exists c :: c in HomeCandidates(cfg, r.name, uid, Or(r.home), home) && ValidPath(c)
  {
    var (uid, gid, home, shell) := Overridden(host, r);
    FirstValidExists(HomeCandidates(cfg, r.name, uid, Or(r.home), home));
    if host.group.Some? {
      var local := host.group.value;
      forall g ensures g in Kept(cfg, local, r.groups) <==>
        exists m :: m in r.groups && m.name == g && MembershipName(cfg, local, m).Some? {
        KeptAreNamed(cfg, local, r.groups, g);
      }
    }
  }

  predicate MemberServed(cfg: Config, passwd: LocalDB, m: string) {
    ValidName(m) && m !in cfg.filterUsers && m !in passwd.names
  }

  /** The members worth answering with, each once. */
  function ServedMembers(cfg: Config, passwd: LocalDB, ms: seq<string>): seq<string> {
    if ms == [] then []
    else
      var before, m := ServedMembers(cfg, passwd, ms[..|ms| - 1]), ms[|ms| - 1];
      if MemberServed(cfg, passwd, m) && m !in before then before + [m] else before
  }

  method Members(cfg: Config, passwd: LocalDB, ms: seq<string>) returns (served: seq<string>)
    ensures served == ServedMembers(cfg, passwd, ms)
  {
    served := [];
    for i := 0 to |ms|
      invariant served == ServedMembers(cfg, passwd, ms[..i])
    {
      assert ms[..i + 1][..i] == ms[..i];
      if MemberServed(cfg, passwd, ms[i]) && ms[i] !in served {
        served := served + [ms[i]];
      }
    }
    assert ms[..|ms|] == ms;
  }

  predicate StubAllowed(cfg: Config, host: Host, m: Membership) {
    GroupNameAllowed(cfg, host, m.name) && GidAllowed(cfg, host, m.gid)
  }

  /** The group to serve, or None when the policy refuses the record. */
  function ServeGroup(cfg: Config, host: Host, r: GroupRecord): Option<Group> {
    if !StubAllowed(cfg, host, Membership(r.gid, r.name)) then None
    else if cfg.ignoreGroupMembers then Some(Group(r.name, r.gid, []))
    else if host.passwd.None? then None
    else Some(Group(r.name, r.gid, ServedMembers(cfg, host.passwd.value, r.members)))
  }

  lemma {:induction false} ServedMembersAreServable(cfg: Config, passwd: LocalDB, ms: seq<string>)
    ensures forall m :: m in ServedMembers(cfg, passwd, ms) <==> m in ms && MemberServed(cfg, passwd, m)
    ensures forall i, j :: 0 <= i < j < |ServedMembers(cfg, passwd, ms)| ==>
      ServedMembers(cfg, passwd, ms)[i] != ServedMembers(cfg, passwd, ms)[j]
  {
    if ms != [] {
      ServedMembersAreServable(cfg, passwd, ms[..|ms| - 1]);
      assert ms == ms[..|ms| - 1] + [ms[|ms| - 1]];
    }
  }

  /** Whatever the server and the override file say, under a validated range no
      served user has id 0, or a local account's name or uid, its name is one
      the short-circuit lets through, and its group names lead to its own gids
      when the group file `ls` lists each name at most once. */
  lemma ServedUserIsSafe(cfg: Config, host: Host, r: UserRecord, ls: seq<Listing>)
    requires ValidRange(cfg) && ServeUser(cfg, host, r).Some?
    requires Indexes(host.group.value, ls)
    ensures var u := ServeUser(cfg, host, r).value;
      && u.name == r.name && UserNameAllowed(cfg, host, u.name) && UidAllowed(cfg, host, u.uid)
      && u.uid != 0 && u.gid != 0 && ValidPath(u.home)
      && (u.locked <==> r.status != STATUS_ACTIVE) && (u.locked ==> u.shell == cfg.disabledShell)
      && (!u.locked && u.shell != cfg.shellFallback ==>
            && ValidPath(u.shell) && u.shell !in cfg.vetoedShells
            && if cfg.allowedShells == [] then host.shells.Some? && u.shell in host.shells.value
               else u.shell in cfg.allowedShells)
      && (NamesOnce(ls) ==> forall n | n in u.groups ::
            exists m :: m in r.groups && InRange(cfg, m.gid) && LeadsTo(host.group.value, n, m))
  {
    var u := ServeUser(cfg, host, r).value;
    var (uid, gid, home, shell) := Overridden(host, r);
    FirstValidExists(HomeCandidates(cfg, r.name, uid, Or(r.home), home));
    if NamesOnce(ls) {
      forall n | n in u.groups
        ensures exists m :: m in r.groups && InRange(cfg, m.gid) && LeadsTo(host.group.value, n, m)
      {
        ListedNamesResolve(cfg, host.group.value, ls, r.groups, n);
      }
    }
  }

  /** A record no override touches, whose own home and shell are usable, is
      served with exactly the ids and paths the server sent. */
  lemma UntouchedRecordIsServedAsSent(cfg: Config, host: Host, r: UserRecord)
    requires ServeUser(cfg, host, r).Some? && r.status == STATUS_ACTIVE && r.name !in host.overrides
    requires cfg.overrideGid == 0 && cfg.overrideHomedir == "" && cfg.overrideShell == ""
    requires r.home.Some? && ValidPath(r.home.value)
    requires r.shell.Some? && ValidPath(r.shell.value) && r.shell.value !in cfg.vetoedShells
    requires if cfg.allowedShells == [] then host.shells.Some? && r.shell.value in host.shells.value
             else r.shell.value in cfg.allowedShells
    ensures var u := ServeUser(cfg, host, r).value;
      && (u.name, u.uid, u.gid, u.home, u.shell) == (r.name, r.uid, r.gid, r.home.value, r.shell.value)
      && !u.locked && u.status == STATUS_ACTIVE
  {
    var cs := HomeCandidates(cfg, r.name, r.uid, Or(r.home), Or(r.home));
    assert FirstValid(cs) == FirstValid(cs[1..]) == Some(cs[1]);
  }

  /** The served user's groups are exactly the names its memberships stand under here,
      each once. */
  lemma ServedUserListsItsGroups(cfg: Config, host: Host, r: UserRecord)
    requires ServeUser(cfg, host, r).Some?
    ensures var groups := ServeUser(cfg, host, r).value.groups;
      && (forall n :: n in groups <==> exists m :: m in r.groups && MembershipName(cfg, host.group.value, m) == Some(n))
      && forall i, j :: 0 <= i < j < |groups| ==> groups[i] != groups[j]
  {
    var local := host.group.value;
    ListedNamesAreKept(cfg, local, r.groups);
    hide ListedNames, Kept, MembershipName;
    forall m | m in r.groups && MembershipName(cfg, local, m).Some?
      ensures MembershipName(cfg, local, m).value in ListedNames(cfg, local, r.groups)
    {
      var i :| 0 <= i < |r.groups| && r.groups[i] == m;
      assert MembershipName(cfg, local, r.groups[i]) == MembershipName(cfg, local, m);
    }
  }

  /** The path a record and the host's override of it name, the override's first. */
  function Own(override: string, server: Option<string>): string {
    if override != "" then override else if server.Some? then server.value else ""
  }

  /** A served user's home is the first usable of the global template, its own and the
      fallback; an active one's shell the first acceptable of the global one and
      its own, or else the fallback. */
  lemma HomeAndShellComeFrom(cfg: Config, host: Host, r: UserRecord)
    requires ServeUser(cfg, host, r).Some?
    ensures var u := ServeUser(cfg, host, r).value;
      var o := if r.name in host.overrides then Some(host.overrides[r.name]) else None;
      var server := if r.home.Some? then r.home.value else "";
      var global, own := Expand(cfg.overrideHomedir, r.name, u.uid, server),
        Own(if o.Some? then o.value.home else "", r.home);
      u.home == if ValidPath(global) then global else if ValidPath(own) then own
                else Expand(cfg.fallbackHomedir, r.name, u.uid, server)
    ensures var u := ServeUser(cfg, host, r).value;
      var o := if r.name in host.overrides then Some(host.overrides[r.name]) else None;
      var own := Own(if o.Some? then o.value.shell else "", r.shell);
      u.shell == if r.status != STATUS_ACTIVE then cfg.disabledShell
                 else if ShellAcceptable(cfg, host, cfg.overrideShell) then cfg.overrideShell
                 else if ShellAcceptable(cfg, host, own) then own else cfg.shellFallback
  {
    var (uid, gid, home, shell) := Overridden(host, r);
    var cs := HomeCandidates(cfg, r.name, uid, Or(r.home), home);
    assert FirstValid(cs) == if ValidPath(cs[0]) then Some(cs[0]) else FirstValid(cs[1..]);
    assert FirstValid(cs[1..]) == if ValidPath(cs[1]) then Some(cs[1]) else FirstValid(cs[2..]) by {
      assert cs[1..][1..] == cs[2..];
    }
    assert FirstValid(cs[2..]) == if ValidPath(cs[2]) then Some(cs[2]) else FirstValid(cs[2..][1..]);
    assert cs[2..][1..] == [];
  }

  /** Whose word counts: the host override's over the server's, and the global
      overrides over both where they are usable. */
  lemma OverridesWin(cfg: Config, host: Host, r: UserRecord, o: Override)
    requires ServeUser(cfg, host, r).Some? && r.name in host.overrides && host.overrides[r.name] == o
    ensures var u := ServeUser(cfg, host, r).value;
      var template := Expand(cfg.overrideHomedir, r.name, u.uid, Or(r.home));
      && u.uid == (if o.uid.Some? then o.uid.value else r.uid)
      && (cfg.overrideGid != 0 ==> u.gid == cfg.overrideGid)
      && (cfg.overrideGid == 0 ==> u.gid == if o.gid.Some? then o.gid.value else r.gid)
      && (ValidPath(template) ==> u.home == template)
      && (!ValidPath(template) && ValidPath(o.home) ==> u.home == o.home)
      && (!u.locked && ShellAcceptable(cfg, host, cfg.overrideShell) ==> u.shell == cfg.overrideShell)
      && (!u.locked && !ShellAcceptable(cfg, host, cfg.overrideShell) && ShellAcceptable(cfg, host, o.shell) ==>
        u.shell == o.shell)
  {
    var (uid, gid, home, shell) := Overridden(host, r);
    var cs := HomeCandidates(cfg, r.name, uid, Or(r.home), home);
    assert FirstValid(cs) == if ValidPath(cs[0]) then Some(cs[0]) else FirstValid(cs[1..]);
    assert cs[1..][0] == cs[1];
  }

  /** A served group has exactly the members of its record the policy lets through,
      each once, or none at all where members are ignored. */
  lemma ServedGroupListsItsMembers(cfg: Config, host: Host, r: GroupRecord)
    requires ServeGroup(cfg, host, r).Some?
    ensures var members := ServeGroup(cfg, host, r).value.members;
      && (forall m :: m in members <==> !cfg.ignoreGroupMembers && m in r.members && UserNameAllowed(cfg, host, m))
      && forall i, j :: 0 <= i < j < |members| ==> members[i] != members[j]
  {
    if !cfg.ignoreGroupMembers {
      ServedMembersAreServable(cfg, host.passwd.value, r.members);
    }
    hide ValidName;
  }

  /** And it is served exactly when its name and gid are, and the local users can be
      read where members are wanted. */
  lemma GroupIsServedExactlyWhen(cfg: Config, host: Host, r: GroupRecord)
    ensures ServeGroup(cfg, host, r).Some? <==>
      && ValidName(r.name) && r.name !in cfg.filterGroups && host.group.Some? && r.name !in host.group.value.names
      && r.gid !in host.group.value.ids && cfg.minId <= r.gid && (cfg.maxId != 0 ==> r.gid <= cfg.maxId)
      && (cfg.ignoreGroupMembers || host.passwd.Some?)
  {
  }

  /** The same of groups and their members. */
  lemma ServedGroupIsSafe(cfg: Config, host: Host, r: GroupRecord)
    requires ValidRange(cfg) && ServeGroup(cfg, host, r).Some?
    ensures var g := ServeGroup(cfg, host, r).value;
      && g.name == r.name && g.gid == r.gid && g.gid != 0
      && GroupNameAllowed(cfg, host, g.name) && GidAllowed(cfg, host, g.gid)
      && forall m | m in g.members :: m in r.members && UserNameAllowed(cfg, host, m)
  {
    if !cfg.ignoreGroupMembers {
      ServedMembersAreServable(cfg, host.passwd.value, r.members);
    }
  }
}
