/** Platform policy from a property list: the XML form, read token by token, and
    the binary form, decoded first and filtered after, give the same settings. */
module Plist {
  import opened Types
  import opened Text

  datatype Token = Start(name: string) | End | Chars(text: string) | Other

  /** The value types a policy setting may take. */
  datatype Value = Str(s: string) | Int(n: int) | Bool(b: bool) | List(items: seq<string>)

  type Settings = map<string, Value>

  const MIN_INT64: int := -0x8000_0000_0000_0000
  const MAX_INT64: int := 0x7fff_ffff_ffff_ffff

  predicate IsInt64(n: int) {
    MIN_INT64 <= n <= MAX_INT64
  }

  /** A decimal integer of any size, with an optional sign. */
  function ParseInteger(s: string): Option<int> {
    if s == "" then None
    else if s[0] == '-' || s[0] == '+' then
      if |s| > 1 && AllDigits(s[1..]) then
        var n: int := Decimal(s[1..]);
        Some(if s[0] == '-' then -n else n)
      else None
    else if AllDigits(s) then Some(Decimal(s)) else None
  }

  /** An integer in decimal, as a property list writes it. */
  function IntegerText(n: int): string {
    if n < 0 then "-" + Digits(-n) else Digits(n)
  }

  /** It reads back, and a plus sign before it changes nothing. */
  lemma IntegerReadsBack(n: int)
    ensures ParseInteger(IntegerText(n)) == Some(n)
    ensures n >= 0 ==> ParseInteger("+" + IntegerText(n)) == Some(n)
  {
    var size := if n < 0 then -n else n;
    DigitsReadBack(size);
    var digits := Digits(size);
    hide Digits;
    assert IsDigit(digits[0]);
    assert ("-" + digits)[1..] == digits && ("+" + digits)[1..] == digits;
  }

  /* The reader's steps, each from the tokens left to the tokens left after it */

  /** Discards tokens through the end of `depth` open elements. */
  function Skip(ts: seq<Token>, depth: nat): (rest: Option<seq<Token>>)
    ensures rest.Some? ==> |rest.value| <= |ts|
    decreases |ts|
  {
    if depth == 0 then Some(ts)
    else if ts == [] then None
    else match ts[0]
      case Start(_) => Skip(ts[1..], depth + 1)
      case End => Skip(ts[1..], depth - 1)
      case _ => Skip(ts[1..], depth)
  }

  /** The text up to the next end of an element. */
  function CharData(ts: seq<Token>): (r: Option<(string, seq<Token>)>)
    ensures r.Some? ==> |r.value.1| < |ts|
    decreases |ts|
  {
    if ts == [] then None
    else match ts[0]
      case End => Some(("", ts[1..]))
      case Chars(text) =>
        var rest := CharData(ts[1..]);
        if rest.None? then None else Some((text + rest.value.0, rest.value.1))
      case _ => CharData(ts[1..])
  }

  function NextStart(ts: seq<Token>): (r: Option<(string, seq<Token>)>)
    ensures r.Some? ==> |r.value.1| < |ts|
    decreases |ts|
  {
    if ts == [] then None
    else if ts[0].Start? then Some((ts[0].name, ts[1..]))
    else NextStart(ts[1..])
  }

  /** The strings of an array whose start has been read; other elements are skipped. */
  function ArrayItems(ts: seq<Token>): (r: Option<(seq<string>, seq<Token>)>)
    ensures r.Some? ==> |r.value.1| < |ts|
    decreases |ts|
  {
    if ts == [] then None
    else match ts[0]
      case End => Some(([], ts[1..]))
      case Start(name) =>
        if name == "string" then
          var item := CharData(ts[1..]);
          if item.None? then None
          else
            var rest := ArrayItems(item.value.1);
            if rest.None? then None else Some(([item.value.0] + rest.value.0, rest.value.1))
        else
          var rest := Skip(ts[1..], 1);
          if rest.None? then None else ArrayItems(rest.value)
      case _ => ArrayItems(ts[1..])
  }

  /** The value of the element `name` whose start has been read. Outside is None
      for an error; inside is None for a type no setting has. */
  function ReadValue(name: string, ts: seq<Token>): (r: Option<(Option<Value>, seq<Token>)>)
    ensures r.Some? ==> |r.value.1| <= |ts|
  {
    if name == "string" then
      var text := CharData(ts);
      if text.None? then None else Some((Some(Str(text.value.0)), text.value.1))
    else if name == "integer" then
      var text := CharData(ts);
      if text.None? then None
      else
        var n := ParseInteger(text.value.0);
        if n.None? || !IsInt64(n.value) then None else Some((Some(Int(n.value)), text.value.1))
    else if name == "true" || name == "false" then
      var rest := Skip(ts, 1);
      if rest.None? then None else Some((Some(Bool(name == "true")), rest.value))
    else if name == "array" then
      var items := ArrayItems(ts);
      if items.None? then None else Some((Some(List(items.value.0)), items.value.1))
    else
      var rest := Skip(ts, 1);
      if rest.None? then None else Some((None, rest.value))
  }

  function ReadKeyed(ts: seq<Token>): (r: Option<((string, Option<Value>), seq<Token>)>)
    ensures r.Some? ==> |r.value.1| < |ts|
  {
    var key := CharData(ts);
    if key.None? then None
    else
      var start := NextStart(key.value.1);
      if start.None? then None
      else
        var v := ReadValue(start.value.0, start.value.1);
        if v.None? then None else Some(((key.value.0, v.value.0), v.value.1))
  }

  function Stored(values: Settings, key: string, v: Option<Value>): Settings {
    if v.Some? then values[key := v.value] else values
  }

  /** The entries of the root dictionary, up to its end. */
  function ReadDict(ts: seq<Token>, values: Settings): Option<Settings>
    decreases |ts|
  {
    if ts == [] then None
    else match ts[0]
      case End => Some(values)
      case Start(name) =>
        if name != "key" then None
        else
          var entry := ReadKeyed(ts[1..]);
          if entry.None? then None
          else ReadDict(entry.value.1, Stored(values, entry.value.0.0, entry.value.0.1))
      case _ => ReadDict(ts[1..], values)
  }

  function SeekDict(ts: seq<Token>): Option<seq<Token>>
    decreases |ts|
  {
    if ts == [] then None
    else if ts[0] == Start("dict") then Some(ts[1..])
    else SeekDict(ts[1..])
  }

  function ParsedXml(ts: seq<Token>): Option<Settings> {
    var root := SeekDict(ts);
    if root.None? then None else ReadDict(root.value, map[])
  }

  /** The XML decoder's cursor, and the reading loops over it. */
  class Decoder {
    var rest: seq<Token>

    constructor (ts: seq<Token>)
      ensures rest == ts
    {
      rest := ts;
    }

    method SkipToEnd() returns (ok: bool)
      modifies this
      ensures ok == Skip(old(rest), 1).Some?
      ensures ok ==> Some(rest) == Skip(old(rest), 1)
    {
      var depth := 1;
      while depth > 0
        invariant 0 <= depth && Skip(rest, depth) == Skip(old(rest), 1)
        decreases |rest|, depth
      {
        if rest == [] {
          return false;
        }
        if rest[0].Start? {
          depth := depth + 1;
        } else if rest[0].End? {
          depth := depth - 1;
        }
        rest := rest[1..];
      }
      return true;
    }

    method ReadCharData() returns (text: Option<string>)
      modifies this
      ensures text.Some? <==> CharData(old(rest)).Some?
      ensures text.Some? ==> (text.value, rest) == CharData(old(rest)).value
    {
      var buf := "";
      ghost var all := CharData(rest);
      assert forall more: string :: buf + more == more;
      while true
        invariant var left := CharData(rest);
          all == if left.None? then None else Some((buf + left.value.0, left.value.1))
        decreases |rest|
      {
        if rest == [] {
          return None;
        }
        var t := rest[0];
        rest := rest[1..];
        if t.Chars? {
          assert forall more: string :: buf + (t.text + more) == buf + t.text + more;
          buf := buf + t.text;
        } else if t.End? {
          assert buf + "" == buf;
          return Some(buf);
        }
      }
    }

    method NextStartElement() returns (name: Option<string>)
      modifies this
      ensures name.Some? <==> NextStart(old(rest)).Some?
      ensures name.Some? ==> (name.value, rest) == NextStart(old(rest)).value
    {
      while rest != []
        invariant NextStart(rest) == NextStart(old(rest))
      {
        var t := rest[0];
        rest := rest[1..];
        if t.Start? {
          return Some(t.name);
        }
      }
      return None;
    }

    method ReadArrayOfStrings() returns (items: Option<seq<string>>)
      modifies this
      ensures items.Some? <==> ArrayItems(old(rest)).Some?
      ensures items.Some? ==> (items.value, rest) == ArrayItems(old(rest)).value
    {
      var read: seq<string> := [];
      ghost var all := ArrayItems(rest);
      assert forall more: seq<string> :: read + more == more;
      while true
        invariant var left := ArrayItems(rest);
          all == if left.None? then None else Some((read + left.value.0, left.value.1))
        decreases |rest|
      {
        if rest == [] {
          return None;
        }
        var t := rest[0];
        rest := rest[1..];
        if t.End? {
          assert read + [] == read;
          return Some(read);
        }
        if t.Start? {
          if t.name == "string" {
            var s := ReadCharData();
            if s.None? {
              return None;
            }
            assert forall more: seq<string> :: read + ([s.value] + more) == read + [s.value] + more;
            read := read + [s.value];
          } else {
            var ok := SkipToEnd();
            if !ok {
              return None;
            }
          }
        }
      }
    }

    /** False for an error; otherwise the value, if it is of a type settings have. */
    method ReadScalarValue(name: string) returns (ok: bool, v: Option<Value>)
      modifies this
      ensures ok == ReadValue(name, old(rest)).Some?
      ensures ok ==> (v, rest) == ReadValue(name, old(rest)).value
    {
      ok, v := true, None;
      match name {
        case "string" =>
          var s := ReadCharData();
          if s.None? {
            return false, None;
          }
          v := Some(Str(s.value));
        case "integer" =>
          var s := ReadCharData();
          if s.None? {
            return false, None;
          }
          var n := ParseInteger(s.value);
          if n.None? || !IsInt64(n.value) {
            return false, None;
          }
          v := Some(Int(n.value));
        case "true" =>
          ok := SkipToEnd();
          v := Some(Bool(true));
        case "false" =>
          ok := SkipToEnd();
          v := Some(Bool(false));
        case "array" =>
          var items := ReadArrayOfStrings();
          if items.None? {
            return false, None;
          }
          v := Some(List(items.value));
        case _ =>
          ok := SkipToEnd();
      }
    }

    method Parse() returns (r: Option<Settings>)
      modifies this
      ensures r == ParsedXml(old(rest))
    {
      ghost var all := ParsedXml(rest);
      while true
        invariant ParsedXml(rest) == all
        decreases |rest|
      {
        if rest == [] {
          return None;
        }
        var t := rest[0];
        rest := rest[1..];
        if t == Start("dict") {
          break;
        }
      }
      assert ReadDict(rest, map[]) == all;
      var values: Settings := map[];
      while true
        invariant ReadDict(rest, values) == all
        decreases |rest|
      {
        if rest == [] {
          return None;
        }
        var t := rest[0];
        rest := rest[1..];
        if t.End? {
          return Some(values);
        }
        if t.Start? {
          if t.name != "key" {
            return None;
          }
          var key := ReadCharData();
          if key.None? {
            return None;
          }
          var name := NextStartElement();
          if name.None? {
            return None;
          }
          var ok, v := ReadScalarValue(name.value);
          if !ok {
            return None;
          }
          values := Stored(values, key.value, v);
        }
      }
    }
  }
}
