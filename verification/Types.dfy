/** What the directory server sends, the keys a lookup is made with, and the
    usual optional value. */
module Types {

  datatype Option<+T> = None | Some(value: T)

  /** A uid or gid. Ids are compared and copied, never computed with. */
  type Uint32 = n: int | 0 <= n < 0x1_0000_0000

  /** Nanoseconds on the daemon's one clock, or a span of them. */
  type Time = int

  datatype Membership = Membership(gid: Uint32, name: string)

  datatype UserRecord = UserRecord(
    name: string, uid: Uint32, gid: Uint32, groups: seq<Membership>,
    home: Option<string>, shell: Option<string>, status: string)

  datatype GroupRecord = GroupRecord(name: string, gid: Uint32, members: seq<string>, truncated: bool)

  /** How a record is asked for: by name or by id. */
  datatype Ref = ByName(name: string) | ById(id: Uint32)

  /** A lookup key, shared by the negative cache and the refresh queue. */
  datatype Key = UserKey(ref: Ref) | GroupKey(ref: Ref)

  predicate HasMembership(groups: seq<Membership>, name: string) {
    exists i :: 0 <= i < |groups| && groups[i].name == name
  }
}
