/** The host's passwd and group files, as the policy reads them. */
module LocalFiles {
  import opened Types
  import opened Text

  /** One line of the file: a name, and an id when the line gives one. */
  datatype Listing = Listing(name: string, id: Option<Uint32>)

  /** Each listed name with its id, and each listed id with its name. */
  datatype LocalDB = LocalDB(names: map<string, Option<Uint32>>, ids: map<Uint32, string>)

  function TrimSigns(s: string): string {
    if s != "" && (s[0] == '+' || s[0] == '-') then TrimSigns(s[1..]) else s
  }

  /** A blank line or a comment lists nothing. */
  function ReadLine(line: string): Option<Listing> {
    if line == "" || line[0] == '#' then None
    else
      var fields := Split(line, ':');
      Some(Listing(TrimSigns(fields[0]), if |fields| > 2 then ParseUint32(fields[2]) else None))
  }

  lemma {:induction false} SignsAreTrimmed(signs: string, name: string)
    requires (forall c | c in signs :: c == '+' || c == '-') && (name == "" || (name[0] != '+' && name[0] != '-'))
    ensures TrimSigns(signs + name) == name
  {
    if signs == "" {
      assert signs + name == name;
    } else {
      assert signs[0] in signs && (signs + name)[0] == signs[0] && (signs + name)[1..] == signs[1..] + name;
      forall c | c in signs[1..] ensures c == '+' || c == '-' {
        assert c in signs;
      }
      SignsAreTrimmed(signs[1..], name);
    }
  }

  /** A line of passwd(5) or group(5) lists its name, compat signs before it left out,
      with the id in its third field, if that is one; a shorter line lists the
      name alone. Blank lines and comments list nothing. */
  lemma LineLists(signs: string, name: string, password: string, id: string, rest: string)
    requires (forall c | c in signs :: c == '+' || c == '-') && name != "" && name[0] !in {'#', '+', '-'}
    requires ':' !in name && ':' !in password && ':' !in id
    ensures ReadLine(signs + name + [':'] + (password + [':'] + (id + [':'] + rest))) ==
      Some(Listing(name, ParseUint32(id)))
    ensures ReadLine(signs + name + [':'] + password) == ReadLine(signs + name) == Some(Listing(name, None))
    ensures ReadLine("") == None && ReadLine(['#'] + rest) == None
  {
    var first := signs + name;
    SignsAreTrimmed(signs, name);
    assert first[0] != '#';
    SplitFirst(id, rest, ':');
    SplitFirst(password, id + [':'] + rest, ':');
    SplitFirst(first, password + [':'] + (id + [':'] + rest), ':');
    SplitWhole(password, ':');
    SplitWhole(first, ':');
    SplitFirst(first, password, ':');
    hide Split, Decimal, TrimSigns;
  }

  /** An id is any decimal of 32 bits. */
  lemma IdsRead(n: nat)
    ensures ParseUint32(Digits(n)) == if n < 0x1_0000_0000 then Some(n) else None
  {
    DigitsReadBack(n);
  }

  function Listings(lines: seq<string>): seq<Listing> {
    if lines == [] then []
    else
      var last := ReadLine(lines[|lines| - 1]);
      Listings(lines[..|lines| - 1]) + if last.Some? then [last.value] else []
  }

  /** The first line that lists `name`, as getgrnam finds it. */
  function FirstNamed(ls: seq<Listing>, name: string): Option<Listing> {
    if ls == [] then None
    else if ls[0].name == name then Some(ls[0])
    else FirstNamed(ls[1..], name)
  }

  /** The first line that lists `id`, as getgrgid finds it. */
  function FirstWithId(ls: seq<Listing>, id: Uint32): Option<Listing> {
    if ls == [] then None
    else if ls[0].id == Some(id) then Some(ls[0])
    else FirstWithId(ls[1..], id)
  }

  /** The database answers as the file's first lines do. */
  ghost predicate Indexes(db: LocalDB, ls: seq<Listing>) {
    && (forall n :: n in db.names <==> n != "" && FirstNamed(ls, n).Some?)
    && (forall n | n in db.names :: db.names[n] == FirstNamed(ls, n).value.id)
    && (forall i :: i in db.ids <==> FirstWithId(ls, i).Some?)
    && (forall i | i in db.ids :: db.ids[i] == FirstWithId(ls, i).value.name)
  }

  lemma {:induction false} FirstNamedAppend(ls: seq<Listing>, l: Listing, name: string)
    ensures FirstNamed(ls + [l], name) ==
      if FirstNamed(ls, name).Some? then FirstNamed(ls, name)
      else if l.name == name then Some(l) else None
  {
    if ls != [] {
      assert (ls + [l])[1..] == ls[1..] + [l];
      FirstNamedAppend(ls[1..], l, name);
    }
  }

  lemma {:induction false} FirstWithIdAppend(ls: seq<Listing>, l: Listing, id: Uint32)
    ensures FirstWithId(ls + [l], id) ==
      if FirstWithId(ls, id).Some? then FirstWithId(ls, id)
      else if l.id == Some(id) then Some(l) else None
  {
    if ls != [] {
      assert (ls + [l])[1..] == ls[1..] + [l];
      FirstWithIdAppend(ls[1..], l, id);
    }
  }

  function Listed(db: LocalDB, l: Listing): LocalDB {
    var ids := if l.id.Some? && l.id.value !in db.ids then db.ids[l.id.value := l.name] else db.ids;
    var names := if l.name != "" && l.name !in db.names then db.names[l.name := l.id] else db.names;
    LocalDB(names, ids)
  }

  lemma ListedIndexes(db: LocalDB, ls: seq<Listing>, l: Listing)
    requires Indexes(db, ls)
    ensures Indexes(Listed(db, l), ls + [l])
  {
    forall n ensures FirstNamed(ls + [l], n) ==
      if FirstNamed(ls, n).Some? then FirstNamed(ls, n) else if l.name == n then Some(l) else None
    {
      FirstNamedAppend(ls, l, n);
    }
    forall i: Uint32 ensures FirstWithId(ls + [l], i) ==
      if FirstWithId(ls, i).Some? then FirstWithId(ls, i) else if l.id == Some(i) then Some(l) else None
    {
      FirstWithIdAppend(ls, l, i);
    }
  }

  method ParseLocalDB(lines: seq<string>) returns (db: LocalDB)
    ensures Indexes(db, Listings(lines))
  {
    db := LocalDB(map[], map[]);
    for i := 0 to |lines|
      invariant Indexes(db, Listings(lines[..i]))
    {
      var l := ReadLine(lines[i]);
      assert lines[..i + 1][..i] == lines[..i];
      if l.Some? {
        ListedIndexes(db, Listings(lines[..i]), l.value);
        db := Listed(db, l.value);
      } else {
        assert Listings(lines[..i + 1]) == Listings(lines[..i]);
      }
    }
    assert lines[..|lines|] == lines;
  }

  ghost predicate NamesOnce(ls: seq<Listing>) {
    forall i, j :: 0 <= i < j < |ls| ==> ls[i].name != ls[j].name
  }

  /** Every named id belongs to a name that leads back to it. */
  ghost predicate Consistent(db: LocalDB) {
    forall i | i in db.ids && db.ids[i] != "" :: db.ids[i] in db.names && db.names[db.ids[i]] == Some(i)
  }

  lemma {:induction false} FirstWithIdIsListed(ls: seq<Listing>, id: Uint32) returns (k: nat)
    requires FirstWithId(ls, id).Some?
    ensures k < |ls| && ls[k] == FirstWithId(ls, id).value && ls[k].id == Some(id)
  {
    if ls[0].id == Some(id) {
      k := 0;
    } else {
      k := FirstWithIdIsListed(ls[1..], id);
      k := k + 1;
    }
  }

  lemma {:induction false} FirstNamedIsFirst(ls: seq<Listing>, k: nat)
    requires k < |ls| && NamesOnce(ls)
    ensures FirstNamed(ls, ls[k].name) == Some(ls[k])
  {
    if k > 0 {
      FirstNamedIsFirst(ls[1..], k - 1);
    }
  }

  /** A file that lists each name at most once is consistent. */
  lemma NamesOnceIsConsistent(db: LocalDB, ls: seq<Listing>)
    requires Indexes(db, ls) && NamesOnce(ls)
    ensures Consistent(db)
  {
    forall i | i in db.ids && db.ids[i] != ""
      ensures db.ids[i] in db.names && db.names[db.ids[i]] == Some(i)
    {
      var k := FirstWithIdIsListed(ls, i);
      FirstNamedIsFirst(ls, k);
    }
  }
}
