/** Messages on a varlink stream, each ended by a NUL. */
module Varlink {
  import opened Types

  type Byte = n: int | 0 <= n < 256

  const NUL: Byte := 0

  /** How the stream ends once its bytes are used up. */
  datatype End = Closed | Broken

  datatype Result =
    | Message(bytes: seq<Byte>)
    | TooLarge
    | Truncated
    | Eof
    | ReadFailed

  /** The length of what comes before the first NUL, or of everything. */
  function Prefix(s: seq<Byte>): (n: nat)
    ensures n <= |s| && NUL !in s[..n] && (n < |s| ==> s[n] == NUL)
  {
    if s == [] || s[0] == NUL then 0
    else
      var n := 1 + Prefix(s[1..]);
      assert s[..n] == [s[0]] + s[1..][..n - 1];
      n
  }

  /** What reading one message should give: the bytes before the first NUL, with
      the size limit judged on the message alone. */
  function FirstMessage(s: seq<Byte>, end: End, limit: nat): Result {
    var n := Prefix(s);
    if n > limit then TooLarge
    else if n < |s| then Message(s[..n])
    else if end.Broken? then ReadFailed
    else if s == [] then Eof
    else Truncated
  }

  /* The buffered reader */

  datatype Status = Found | BufferFull | AtEnd

  class Reader {
    var rest: seq<Byte>
    const end: End

    constructor (s: seq<Byte>, end: End)
      ensures rest == s && this.end == end
    {
      rest := s;
      this.end := end;
    }

    /** Reads through the first NUL, or as much as the buffer holds, or what is
        left. `room` is the buffer's size at this call, whatever it is. */
    method ReadSlice(room: nat) returns (chunk: seq<Byte>, status: Status)
      requires 1 <= room
      modifies this
      ensures old(rest) == chunk + rest
      ensures match status
        case Found => chunk != [] && NUL !in chunk[..|chunk| - 1] && chunk[|chunk| - 1] == NUL
        case BufferFull => chunk != [] && NUL !in chunk
        case AtEnd => NUL !in chunk && rest == []
    {
      var n := Prefix(rest);
      if n < room && n < |rest| {
        chunk, status := rest[..n + 1], Found;
        assert chunk[..n] == rest[..n];
      } else if room <= n {
        chunk, status := rest[..room], BufferFull;
        assert forall i :: 0 <= i < room ==> rest[..room][i] == rest[..n][i];
      } else {
        chunk, status := rest, AtEnd;
        assert rest[..n] == rest;
      }
      rest := rest[|chunk|..];
    }
  }

  lemma {:induction false} PrefixOfChunks(seen: seq<Byte>, rest: seq<Byte>)
    requires NUL !in seen
    ensures Prefix(seen + rest) == |seen| + Prefix(rest)
  {
    if seen == [] {
      assert seen + rest == rest;
    } else {
      assert (seen + rest)[1..] == seen[1..] + rest;
      PrefixOfChunks(seen[1..], rest);
    }
  }

  /** Once a NUL has come in, the message is what came before it. */
  lemma NulDecides(msg: seq<Byte>, rest: seq<Byte>, end: End, limit: nat)
    requires NUL !in msg
    ensures FirstMessage(msg + [NUL] + rest, end, limit) == if |msg| > limit then TooLarge else Message(msg)
  {
    var s := msg + [NUL] + rest;
    assert s == msg + ([NUL] + rest);
    PrefixOfChunks(msg, [NUL] + rest);
    assert s[..|msg|] == msg;
  }

  /** Until then, too many bytes are too many whatever follows. */
  lemma ExcessDecides(seen: seq<Byte>, rest: seq<Byte>, end: End, limit: nat)
    requires NUL !in seen && |seen| > limit
    ensures FirstMessage(seen + rest, end, limit) == TooLarge
  {
    PrefixOfChunks(seen, rest);
  }

  lemma EndDecides(seen: seq<Byte>, end: End, limit: nat)
    requires NUL !in seen && |seen| <= limit
    ensures FirstMessage(seen, end, limit) == if end.Broken? then ReadFailed else if seen == [] then Eof else Truncated
  {
    PrefixOfChunks(seen, []);
    assert seen + [] == seen;
  }

  class Decoder {
    const r: Reader
    const limit: nat
    var buf: seq<Byte>

    constructor (r: Reader, limit: nat)
      ensures this.r == r && this.limit == limit && buf == []
    {
      this.r, this.limit, buf := r, limit, [];
    }

    /** However the stream comes in chunks, the result is that of looking at all
        of it at once; after a message exactly it and its NUL are used up. */
    method Next() returns (result: Result)
      modifies this, r
      ensures result == FirstMessage(old(r.rest), r.end, limit)
      ensures result.Message? ==> old(r.rest) == result.bytes + [NUL] + r.rest
      ensures result.Eof? ==> r.rest == []
    {
      hide FirstMessage;
      ghost var all := r.rest;
      buf := [];
      while true
        invariant all == buf + r.rest && NUL !in buf && |buf| <= limit
        decreases |r.rest|
      {
        var room: nat :| 1 <= room;
        ghost var seen := buf;
        var chunk, status := r.ReadSlice(room);
        buf := buf + chunk;
        var size := if status.Found? then |buf| - 1 else |buf|;
        assert all == buf + r.rest;
        if status.Found? {
          assert buf[..size] == seen + chunk[..|chunk| - 1] && buf == buf[..size] + [NUL];
          NulDecides(buf[..size], r.rest, r.end, limit);
        } else if size > limit {
          ExcessDecides(buf, r.rest, r.end, limit);
        } else if status.AtEnd? {
          assert all == buf;
          EndDecides(buf, r.end, limit);
        }
        if size > limit {
          return TooLarge;
        }
        match status {
          case Found => return Message(buf[..size]);
          case BufferFull =>
          case AtEnd =>
            if r.end.Broken? {
              return ReadFailed;
            }
            return if |buf| == 0 then Eof else Truncated;
        }
      }
    }
  }

  /* Framing */

  /** What the encoder sends for one encoded value, which the JSON encoder ends
      with a newline that the NUL replaces; None is a message over the limit. */
  function Framed(encoded: seq<Byte>, limit: nat): Option<seq<Byte>>
    requires encoded != []
  {
    var msg := encoded[..|encoded| - 1];
    if |msg| > limit then None else Some(msg + [NUL])
  }

  function Stream(msgs: seq<seq<Byte>>): seq<Byte> {
    if msgs == [] then [] else msgs[0] + [NUL] + Stream(msgs[1..])
  }

  /** Reading message after message until one read gives no message. */
  function ReadAll(s: seq<Byte>, end: End, limit: nat): (seq<seq<Byte>>, Result)
    decreases |s|
  {
    var r := FirstMessage(s, end, limit);
    if r.Message? then
      var (more, last) := ReadAll(s[|r.bytes| + 1..], end, limit);
      ([r.bytes] + more, last)
    else ([], r)
  }

  ghost predicate Framable(msgs: seq<seq<Byte>>, limit: nat) {
    forall i :: 0 <= i < |msgs| ==> NUL !in msgs[i] && |msgs[i]| <= limit
  }

  lemma StreamCons(msgs: seq<seq<Byte>>, tail: seq<Byte>)
    requires msgs != []
    ensures Stream(msgs) + tail == msgs[0] + [NUL] + (Stream(msgs[1..]) + tail)
  {
  }

  lemma ListCons(msgs: seq<seq<Byte>>, more: seq<seq<Byte>>)
    requires msgs != []
    ensures [msgs[0]] + (msgs[1..] + more) == msgs + more
  {
  }

  lemma ReadAllStep(first: seq<Byte>, rest: seq<Byte>, end: End, limit: nat)
    requires NUL !in first && |first| <= limit
    ensures ReadAll(first + [NUL] + rest, end, limit) ==
      ([first] + ReadAll(rest, end, limit).0, ReadAll(rest, end, limit).1)
  {
    hide FirstMessage;
    NulDecides(first, rest, end, limit);
    assert (first + [NUL] + rest)[|first| + 1..] == rest;
  }

  lemma {:induction false} FramedMessagesReadBack(msgs: seq<seq<Byte>>, tail: seq<Byte>, end: End, limit: nat)
    requires Framable(msgs, limit)
    ensures ReadAll(Stream(msgs) + tail, end, limit) ==
      (msgs + ReadAll(tail, end, limit).0, ReadAll(tail, end, limit).1)
    decreases |msgs|
  {
    hide ReadAll;
    if msgs == [] {
      assert Stream(msgs) + tail == tail;
      assert msgs + ReadAll(tail, end, limit).0 == ReadAll(tail, end, limit).0;
    } else {
      StreamCons(msgs, tail);
      ReadAllStep(msgs[0], Stream(msgs[1..]) + tail, end, limit);
      FramedMessagesReadBack(msgs[1..], tail, end, limit);
      ListCons(msgs, ReadAll(tail, end, limit).0);
    }
  }

  /** Whatever list of NUL-free messages within the limit is framed, the reader
      gives that list and then end of file; cut short inside a later message it
      gives the list and then a truncation. */
  lemma FramingRoundTrips(msgs: seq<seq<Byte>>, cut: seq<Byte>, limit: nat)
    requires Framable(msgs, limit) && NUL !in cut && |cut| <= limit
    ensures ReadAll(Stream(msgs), Closed, limit) == (msgs, Eof)
    ensures cut != [] ==> ReadAll(Stream(msgs) + cut, Closed, limit) == (msgs, Truncated)
  {
    FramedMessagesReadBack(msgs, [], Closed, limit);
    assert Stream(msgs) + [] == Stream(msgs) && msgs + [] == msgs;
    FramedMessagesReadBack(msgs, cut, Closed, limit);
    EndDecides(cut, Closed, limit);
  }

  /** What the encoder puts on the stream for a list of encoded values: nothing
      for one over the limit. */
  function Sent(encoded: seq<seq<Byte>>, limit: nat): seq<Byte>
    requires forall i :: 0 <= i < |encoded| ==> encoded[i] != []
  {
    if encoded == [] then []
    else
      var frame := Framed(encoded[0], limit);
      (if frame.Some? then frame.value else []) + Sent(encoded[1..], limit)
  }

  /** The values that fit, without their newlines. */
  function Fitting(encoded: seq<seq<Byte>>, limit: nat): seq<seq<Byte>>
    requires forall i :: 0 <= i < |encoded| ==> encoded[i] != []
  {
    if encoded == [] then []
    else
      (if |encoded[0]| - 1 <= limit then [encoded[0][..|encoded[0]| - 1]] else []) + Fitting(encoded[1..], limit)
  }

  lemma {:induction false} SentIsTheFitting(encoded: seq<seq<Byte>>, limit: nat)
    requires forall i :: 0 <= i < |encoded| ==> encoded[i] != [] && NUL !in encoded[i]
    ensures Sent(encoded, limit) == Stream(Fitting(encoded, limit)) && Framable(Fitting(encoded, limit), limit)
  {
    if encoded != [] {
      SentIsTheFitting(encoded[1..], limit);
      var fit, rest := Fitting(encoded, limit), Fitting(encoded[1..], limit);
      assert encoded[0] != [] && NUL !in encoded[0];
      if |encoded[0]| - 1 <= limit {
        assert fit[0] == encoded[0][..|encoded[0]| - 1] && fit[1..] == rest;
      } else {
        assert fit == rest && Sent(encoded, limit) == Sent(encoded[1..], limit);
      }
    }
  }

  /** Exactly the values an encoder accepts reach a decoder with the same limit,
      in order. */
  lemma AcceptedMessagesArrive(encoded: seq<seq<Byte>>, limit: nat)
    requires forall i :: 0 <= i < |encoded| ==> encoded[i] != [] && NUL !in encoded[i]
    ensures ReadAll(Sent(encoded, limit), Closed, limit) == (Fitting(encoded, limit), Eof)
  {
    SentIsTheFitting(encoded, limit);
    FramingRoundTrips(Fitting(encoded, limit), [], limit);
  }
}
