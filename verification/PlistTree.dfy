/** Property lists as trees: what a document's tokens are, what it decodes to,
    and which settings its decoded form gives. */
module PlistTree {
  import opened Types
  import opened Text
  import opened Plist

  /* XML */

  datatype Node = Elem(name: string, kids: seq<Node>) | Words(text: string) | Remark

  function Tokens(n: Node): seq<Token>
    decreases n, 0
  {
    match n
    case Elem(name, kids) => [Start(name)] + AllTokens(kids) + [End]
    case Words(text) => [Chars(text)]
    case Remark => [Other]
  }

  function AllTokens(ns: seq<Node>): seq<Token>
    decreases ns, 1
  {
    if ns == [] then [] else Tokens(ns[0]) + AllTokens(ns[1..])
  }

  /** White space, comments and the like: no elements. */
  predicate Flat(ns: seq<Node>) {
    forall i :: 0 <= i < |ns| ==> !ns[i].Elem?
  }

  function TextOf(ns: seq<Node>): string {
    if ns == [] then ""
    else (if ns[0].Words? then ns[0].text else "") + TextOf(ns[1..])
  }

  /* The decoded form, as the binary reader gives it */

  datatype Tree = PString(s: string) | PInt(n: int) | PBool(b: bool) | PArray(items: seq<Tree>) | PElse

  /** What an element stands for. A nested dictionary, a date, data or a real is
      something no setting is made of. */
  function Decoded(n: Node): Tree
    decreases n, 0
  {
    match n
    case Elem(name, kids) =>
      if name == "string" then PString(TextOf(kids))
      else if name == "integer" && ParseInteger(TextOf(kids)).Some? then PInt(ParseInteger(TextOf(kids)).value)
      else if name == "true" || name == "false" then PBool(name == "true")
      else if name == "array" then PArray(DecodedAll(kids))
      else PElse
    case _ => PElse
  }

  function DecodedAll(ns: seq<Node>): seq<Tree>
    decreases ns, 1
  {
    if ns == [] then []
    else (if ns[0].Elem? then [Decoded(ns[0])] else []) + DecodedAll(ns[1..])
  }

  function StringsOf(ps: seq<Tree>): seq<string> {
    if ps == [] then []
    else (if ps[0].PString? then [ps[0].s] else []) + StringsOf(ps[1..])
  }

  /** The binary path's filter: an integer that does not fit is skipped. */
  function Accept(p: Tree): Option<Value> {
    match p
    case PString(s) => Some(Str(s))
    case PBool(b) => Some(Bool(b))
    case PInt(n) => if IsInt64(n) then Some(Int(n)) else None
    case PArray(items) => Some(List(StringsOf(items)))
    case PElse => None
  }

  /* Reading back an element's tokens */

  /** Skipping passes over a whole subtree, however deep, and stays where it was. */
  lemma {:induction false} SkipPassesNode(n: Node, rest: seq<Token>, depth: nat)
    requires depth > 0
    ensures Skip(Tokens(n) + rest, depth) == Skip(rest, depth)
    decreases n, 0
  {
    var ts := Tokens(n) + rest;
    match n {
      case Elem(name, kids) =>
        assert ts[1..] == AllTokens(kids) + ([End] + rest);
        SkipPassesAll(kids, [End] + rest, depth + 1);
        assert ([End] + rest)[1..] == rest;
      case _ =>
        assert ts[1..] == rest;
    }
  }

  lemma {:induction false} SkipPassesAll(ns: seq<Node>, rest: seq<Token>, depth: nat)
    requires depth > 0
    ensures Skip(AllTokens(ns) + rest, depth) == Skip(rest, depth)
    decreases ns, 1
  {
    if ns == [] {
      assert AllTokens(ns) + rest == rest;
    } else {
      assert AllTokens(ns) + rest == Tokens(ns[0]) + (AllTokens(ns[1..]) + rest);
      SkipPassesNode(ns[0], AllTokens(ns[1..]) + rest, depth);
      SkipPassesAll(ns[1..], rest, depth);
    }
  }

  /** So it consumes exactly the element it was called in. */
  lemma SkipConsumesOneElement(kids: seq<Node>, rest: seq<Token>)
    ensures Skip(AllTokens(kids) + [End] + rest, 1) == Some(rest)
  {
    assert AllTokens(kids) + [End] + rest == AllTokens(kids) + ([End] + rest);
    SkipPassesAll(kids, [End] + rest, 1);
    assert ([End] + rest)[1..] == rest;
  }

  lemma FlatTokens(ns: seq<Node>)
    requires Flat(ns) && ns != []
    ensures AllTokens(ns) == Tokens(ns[0]) + AllTokens(ns[1..]) && Flat(ns[1..]) && |Tokens(ns[0])| == 1
  {
  }

  lemma {:induction false} CharDataReads(ns: seq<Node>, rest: seq<Token>)
    requires Flat(ns)
    ensures CharData(AllTokens(ns) + [End] + rest) == Some((TextOf(ns), rest))
    decreases |ns|
  {
    var ts := AllTokens(ns) + [End] + rest;
    if ns == [] {
      assert ts[0] == End && ts[1..] == rest;
    } else {
      FlatTokens(ns);
      assert ts[0] == Tokens(ns[0])[0] && ts[1..] == AllTokens(ns[1..]) + [End] + rest;
      assert "" + TextOf(ns[1..]) == TextOf(ns[1..]);
      CharDataReads(ns[1..], rest);
    }
  }

  lemma {:induction false} NextStartPassesFlat(ns: seq<Node>, name: string, rest: seq<Token>)
    requires Flat(ns)
    ensures NextStart(AllTokens(ns) + [Start(name)] + rest) == Some((name, rest))
    decreases |ns|
  {
    var ts := AllTokens(ns) + [Start(name)] + rest;
    if ns == [] {
      assert ts[0] == Start(name) && ts[1..] == rest;
    } else {
      FlatTokens(ns);
      assert ts[0] == Tokens(ns[0])[0] && ts[1..] == AllTokens(ns[1..]) + [Start(name)] + rest;
      NextStartPassesFlat(ns[1..], name, rest);
    }
  }

  /** Strings and integers hold only text, and an integer's text is one. */
  predicate WellFormed(n: Node) {
    n.Elem? ==>
      && (n.name == "string" || n.name == "integer" ==> Flat(n.kids))
      && (n.name == "integer" ==> ParseInteger(TextOf(n.kids)).Some?)
      && (n.name == "array" ==> StringsAreFlat(n.kids))
  }

  predicate StringsAreFlat(ns: seq<Node>) {
    forall i :: 0 <= i < |ns| && ns[i].Elem? && ns[i].name == "string" ==> Flat(ns[i].kids)
  }

  function StringOf(n: Node): seq<string> {
    if n.Elem? && n.name == "string" then [TextOf(n.kids)] else []
  }

  lemma ArrayItemsPassNode(n: Node, more: seq<Token>)
    requires StringsAreFlat([n])
    ensures ArrayItems(Tokens(n) + more) ==
      var rest := ArrayItems(more); if rest.None? then None else Some((StringOf(n) + rest.value.0, rest.value.1))
  {
    hide CharData, Skip, AllTokens, TextOf;
    var ts, left := Tokens(n) + more, ArrayItems(more);
    assert left.Some? ==> [] + left.value.0 == left.value.0;
    match n {
      case Elem(name, kids) =>
        assert ts[0] == Start(name) && ts[1..] == AllTokens(kids) + [End] + more;
        if name == "string" {
          assert [n][0] == n;
          CharDataReads(kids, more);
        } else {
          SkipConsumesOneElement(kids, more);
        }
      case _ =>
        assert ts[0] == Tokens(n)[0] && ts[1..] == more;
    }
  }

  lemma {:induction false} ArrayItemsRead(ns: seq<Node>, rest: seq<Token>)
    requires StringsAreFlat(ns)
    ensures ArrayItems(AllTokens(ns) + [End] + rest) == Some((StringsOf(DecodedAll(ns)), rest))
    decreases |ns|
  {
    var ts := AllTokens(ns) + [End] + rest;
    if ns == [] {
      assert ts[0] == End && ts[1..] == rest;
    } else {
      hide ArrayItems;
      assert StringsAreFlat(ns[1..]);
      ArrayItemsRead(ns[1..], rest);
      assert ts == Tokens(ns[0]) + (AllTokens(ns[1..]) + [End] + rest);
      ArrayItemsPassNode(ns[0], AllTokens(ns[1..]) + [End] + rest);
      StringsOfCons(Decoded(ns[0]), DecodedAll(ns[1..]));
      assert [] + DecodedAll(ns[1..]) == DecodedAll(ns[1..]);
    }
  }

  lemma StringsOfCons(p: Tree, ps: seq<Tree>)
    ensures StringsOf([p] + ps) == (if p.PString? then [p.s] else []) + StringsOf(ps)
  {
    assert ([p] + ps)[1..] == ps;
  }

  /** An element's value as the reader takes it from the tokens: an integer that
      does not fit is an error here, and everything else as in the decoded form. */
  lemma ValueReads(n: Node, rest: seq<Token>)
    requires n.Elem? && WellFormed(n)
    ensures ReadValue(n.name, AllTokens(n.kids) + [End] + rest) ==
      if Decoded(n).PInt? && !IsInt64(Decoded(n).n) then None else Some((Accept(Decoded(n)), rest))
  {
    if n.name == "string" || n.name == "integer" {
      CharDataReads(n.kids, rest);
    } else if n.name == "array" {
      ArrayItemsRead(n.kids, rest);
    } else {
      SkipConsumesOneElement(n.kids, rest);
    }
  }

  /* A dictionary's entries */

  /** A key and its value, with whatever stands around them. */
  datatype Entry = Entry(before: seq<Node>, key: seq<Node>, between: seq<Node>, value: Node)

  ghost predicate EntryOk(e: Entry) {
    Flat(e.before) && Flat(e.key) && Flat(e.between) && e.value.Elem? && WellFormed(e.value)
  }

  function EntryTokens(e: Entry): seq<Token> {
    AllTokens(e.before) + Tokens(Elem("key", e.key)) + AllTokens(e.between) + Tokens(e.value)
  }

  function EntriesTokens(es: seq<Entry>): seq<Token> {
    if es == [] then [] else EntryTokens(es[0]) + EntriesTokens(es[1..])
  }

  predicate Fits(e: Entry) {
    Decoded(e.value).PInt? ==> IsInt64(Decoded(e.value).n)
  }

  lemma {:induction false} ReadDictPassesFlat(ns: seq<Node>, rest: seq<Token>, values: Settings)
    requires Flat(ns)
    ensures ReadDict(AllTokens(ns) + rest, values) == ReadDict(rest, values)
    decreases |ns|
  {
    var ts := AllTokens(ns) + rest;
    if ns == [] {
      assert ts == rest;
    } else {
      FlatTokens(ns);
      assert ts[0] == Tokens(ns[0])[0] && ts[1..] == AllTokens(ns[1..]) + rest;
      ReadDictPassesFlat(ns[1..], rest, values);
    }
  }

  lemma KeyedReads(e: Entry, rest: seq<Token>)
    requires EntryOk(e)
    ensures ReadKeyed(AllTokens(e.key) + [End] + AllTokens(e.between) + Tokens(e.value) + rest) ==
      if Fits(e) then Some(((TextOf(e.key), Accept(Decoded(e.value))), rest)) else None
  {
    hide ReadValue, Accept, WellFormed;
    var inner := AllTokens(e.value.kids) + [End] + rest;
    var afterKey := AllTokens(e.between) + [Start(e.value.name)] + inner;
    assert AllTokens(e.key) + [End] + AllTokens(e.between) + Tokens(e.value) + rest ==
      AllTokens(e.key) + [End] + afterKey;
    CharDataReads(e.key, afterKey);
    NextStartPassesFlat(e.between, e.value.name, inner);
    ValueReads(e.value, rest);
  }

  lemma EntryReads(e: Entry, rest: seq<Token>, values: Settings)
    requires EntryOk(e)
    ensures ReadDict(EntryTokens(e) + rest, values) ==
      if Fits(e) then ReadDict(rest, Stored(values, TextOf(e.key), Accept(Decoded(e.value)))) else None
  {
    hide ReadKeyed, Accept, WellFormed;
    var keyed := AllTokens(e.key) + [End] + AllTokens(e.between) + Tokens(e.value) + rest;
    assert EntryTokens(e) + rest == AllTokens(e.before) + ([Start("key")] + keyed);
    ReadDictPassesFlat(e.before, [Start("key")] + keyed, values);
    assert ([Start("key")] + keyed)[1..] == keyed;
    KeyedReads(e, rest);
  }

  /* The whole dictionary */

  ghost predicate DistinctKeys(es: seq<Entry>) {
    forall i, j :: 0 <= i < j < |es| ==> TextOf(es[i].key) != TextOf(es[j].key)
  }

  ghost predicate EntriesOk(es: seq<Entry>) {
    forall i :: 0 <= i < |es| ==> EntryOk(es[i])
  }

  /** The dictionary the entries decode to. */
  function DecodedRoot(es: seq<Entry>): map<string, Tree> {
    if es == [] then map[]
    else
      var last := es[|es| - 1];
      DecodedRoot(es[..|es| - 1])[TextOf(last.key) := Decoded(last.value)]
  }

  function Filtered(root: map<string, Tree>): Settings {
    map k | k in root && Accept(root[k]).Some? :: Accept(root[k]).value
  }

  /** The binary path: every decoded entry of an accepted type is kept. */
  method FilterBinary(root: map<string, Tree>) returns (out: Settings)
    ensures out == Filtered(root)
    ensures forall k :: k in out ==> k in root
    ensures forall k | k in root ::
      match root[k]
      case PString(s) => k in out && out[k] == Str(s)
      case PBool(b) => k in out && out[k] == Bool(b)
      case PInt(n) => if IsInt64(n) then k in out && out[k] == Int(n) else k !in out
      case PArray(items) => k in out && out[k] == List(StringsOf(items))
      case PElse => k !in out
  {
    out := map[];
    var todo := root.Keys;
    while todo != {}
      invariant todo <= root.Keys
      invariant out == map k | k in root && k !in todo && Accept(root[k]).Some? :: Accept(root[k]).value
    {
      var key :| key in todo;
      todo := todo - {key};
      var v := Accept(root[key]);
      if v.Some? {
        out := out[key := v.value];
      }
    }
  }

  /** What the XML path has stored after the entries. */
  function StoredAll(es: seq<Entry>): Settings {
    if es == [] then map[]
    else
      var last := es[|es| - 1];
      Stored(StoredAll(es[..|es| - 1]), TextOf(last.key), Accept(Decoded(last.value)))
  }

  lemma {:induction false} RootKeys(es: seq<Entry>, k: string)
    ensures k in DecodedRoot(es) <==> exists i :: 0 <= i < |es| && TextOf(es[i].key) == k
  {
    if es != [] {
      var n := |es| - 1;
      RootKeys(es[..n], k);
      if i :| 0 <= i < n && TextOf(es[..n][i].key) == k {
        assert TextOf(es[i].key) == k;
      }
      if i :| 0 <= i < n && TextOf(es[i].key) == k {
        assert TextOf(es[..n][i].key) == k;
      }
    }
  }

  lemma FilteredWith(root: map<string, Tree>, k: string, t: Tree)
    requires k !in root
    ensures Filtered(root[k := t]) == Stored(Filtered(root), k, Accept(t))
  {
  }

  lemma {:induction false} StoredIsFiltered(es: seq<Entry>)
    requires DistinctKeys(es)
    ensures StoredAll(es) == Filtered(DecodedRoot(es))
  {
    if es != [] {
      var n, last := |es| - 1, es[|es| - 1];
      StoredIsFiltered(es[..n]);
      RootKeys(es[..n], TextOf(last.key));
      FilteredWith(DecodedRoot(es[..n]), TextOf(last.key), Decoded(last.value));
    }
  }

  ghost predicate AllFit(es: seq<Entry>, i: nat) {
    forall j :: i <= j < |es| ==> Fits(es[j])
  }

  lemma EntriesTokensFrom(es: seq<Entry>, i: nat, close: seq<Token>)
    requires i < |es|
    ensures EntriesTokens(es[i..]) + close == EntryTokens(es[i]) + (EntriesTokens(es[i + 1..]) + close)
  {
    assert es[i..][0] == es[i] && es[i..][1..] == es[i + 1..];
  }

  lemma {:induction false} EntriesRead(es: seq<Entry>, i: nat, tail: seq<Node>, rest: seq<Token>)
    requires EntriesOk(es) && Flat(tail) && i <= |es|
    ensures ReadDict(EntriesTokens(es[i..]) + (AllTokens(tail) + [End] + rest), StoredAll(es[..i])) ==
      if AllFit(es, i) then Some(StoredAll(es)) else None
    decreases |es| - i
  {
    var close := AllTokens(tail) + [End] + rest;
    if i == |es| {
      assert EntriesTokens(es[i..]) + close == AllTokens(tail) + ([End] + rest) && es[..i] == es;
      ReadDictPassesFlat(tail, [End] + rest, StoredAll(es));
    } else {
      hide ReadDict, Accept, Fits, EntriesTokens, EntryTokens, AllTokens, EntryOk;
      EntriesTokensFrom(es, i, close);
      EntryReads(es[i], EntriesTokens(es[i + 1..]) + close, StoredAll(es[..i]));
      assert es[..i + 1][..i] == es[..i];
      EntriesRead(es, i + 1, tail, rest);
    }
  }

  lemma {:induction false} SeekPassesHeader(header: seq<Token>, rest: seq<Token>)
    requires Start("dict") !in header
    ensures SeekDict(header + [Start("dict")] + rest) == Some(rest)
    decreases |header|
  {
    var ts := header + [Start("dict")] + rest;
    if header == [] {
      assert ts[0] == Start("dict") && ts[1..] == rest;
    } else {
      assert ts[0] == header[0] && ts[1..] == header[1..] + [Start("dict")] + rest;
      SeekPassesHeader(header[1..], rest);
    }
  }

  /** For every property list with distinct keys, whatever stands between its
      entries and however deep its values, reading the XML gives the settings that
      filtering the decoded form gives, exactly when every integer among its
      values fits 64 bits; otherwise the XML is refused where the binary form
      skips the value. */
  lemma XmlAgreesWithBinary(header: seq<Token>, es: seq<Entry>, tail: seq<Node>, rest: seq<Token>)
    requires Start("dict") !in header && EntriesOk(es) && DistinctKeys(es) && Flat(tail)
    ensures ParsedXml(header + [Start("dict")] + (EntriesTokens(es) + (AllTokens(tail) + [End] + rest))) ==
      if AllFit(es, 0) then Some(Filtered(DecodedRoot(es))) else None
  {
    SeekPassesHeader(header, EntriesTokens(es) + (AllTokens(tail) + [End] + rest));
    EntriesRead(es, 0, tail, rest);
    assert es[0..] == es && es[..0] == [];
    StoredIsFiltered(es);
  }

  /** Where a key should stand, any other element is an error. */
  lemma StrayElementIsRefused(ns: seq<Node>, name: string, rest: seq<Token>, values: Settings)
    requires Flat(ns) && name != "key"
    ensures ReadDict(AllTokens(ns) + ([Start(name)] + rest), values) == None
  {
    ReadDictPassesFlat(ns, [Start(name)] + rest, values);
  }

  /* Writing a tree */

  /** A tree as its XML: integers in decimal, and an empty `data` for what no setting is
      made of. */
  function Written(t: Tree): Node
    decreases t, 0
  {
    match t
    case PString(s) => Elem("string", [Words(s)])
    case PInt(n) => Elem("integer", [Words(IntegerText(n))])
    case PBool(b) => Elem(if b then "true" else "false", [])
    case PArray(items) => Elem("array", WrittenAll(items))
    case PElse => Elem("data", [])
  }

  function WrittenAll(ts: seq<Tree>): (ns: seq<Node>)
    ensures |ns| == |ts|
    decreases ts, 1
  {
    if ts == [] then [] else [Written(ts[0])] + WrittenAll(ts[1..])
  }

  lemma OneText(s: string)
    ensures TextOf([Words(s)]) == s
  {
    assert TextOf([Words(s)][1..]) == "";
  }

  /** What is written decodes to the tree it was written from. */
  lemma {:induction false} WrittenDecodes(t: Tree)
    ensures Written(t).Elem? && WellFormed(Written(t)) && Decoded(Written(t)) == t
    decreases t, 0
  {
    match t {
      case PString(s) => OneText(s);
      case PInt(n) =>
        OneText(IntegerText(n));
        IntegerReadsBack(n);
      case PArray(items) => AllWrittenDecodes(items);
      case _ =>
    }
  }

  lemma {:induction false} AllWrittenDecodes(ts: seq<Tree>)
    ensures DecodedAll(WrittenAll(ts)) == ts && StringsAreFlat(WrittenAll(ts))
    decreases ts, 1
  {
    if ts != [] {
      WrittenDecodes(ts[0]);
      AllWrittenDecodes(ts[1..]);
      var ns := WrittenAll(ts);
      assert ns[0] == Written(ts[0]) && ns[1..] == WrittenAll(ts[1..]);
      assert ts == [ts[0]] + ts[1..];
    }
  }

  function WrittenEntry(kv: (string, Tree)): Entry {
    Entry([], [Words(kv.0)], [], Written(kv.1))
  }

  /** A dictionary's entries, written one after the other. */
  function WrittenEntries(kvs: seq<(string, Tree)>): (es: seq<Entry>)
    ensures |es| == |kvs|
  {
    if kvs == [] then [] else WrittenEntries(kvs[..|kvs| - 1]) + [WrittenEntry(kvs[|kvs| - 1])]
  }

  /** The entry is sound and stands for the key and its value. */
  ghost predicate StandsFor(e: Entry, kv: (string, Tree)) {
    EntryOk(e) && TextOf(e.key) == kv.0 && Decoded(e.value) == kv.1
  }

  function Dictionary(kvs: seq<(string, Tree)>): map<string, Tree> {
    if kvs == [] then map[]
    else Dictionary(kvs[..|kvs| - 1])[kvs[|kvs| - 1].0 := kvs[|kvs| - 1].1]
  }

  lemma WrittenEntryStands(kv: (string, Tree))
    ensures StandsFor(WrittenEntry(kv), kv)
  {
    WrittenDecodes(kv.1);
    OneText(kv.0);
  }

  lemma {:induction false} WrittenEntriesDecode(kvs: seq<(string, Tree)>)
    ensures DecodedRoot(WrittenEntries(kvs)) == Dictionary(kvs)
    ensures forall i :: 0 <= i < |kvs| ==> StandsFor(WrittenEntries(kvs)[i], kvs[i])
  {
    if kvs != [] {
      var k, es := |kvs| - 1, WrittenEntries(kvs);
      WrittenEntriesDecode(kvs[..k]);
      WrittenEntryStands(kvs[k]);
      assert es[..k] == WrittenEntries(kvs[..k]) && es[k] == WrittenEntry(kvs[k]);
      assert TextOf(es[k].key) == kvs[k].0 && Decoded(es[k].value) == kvs[k].1;
      hide WrittenEntry, StandsFor, TextOf, Decoded;
      forall i | 0 <= i < |kvs| ensures StandsFor(es[i], kvs[i]) {
        assert i < k ==> es[i] == es[..k][i] && kvs[i] == kvs[..k][i];
      }
    }
  }

  ghost predicate IntegersFit(kvs: seq<(string, Tree)>) {
    forall i :: 0 <= i < |kvs| && kvs[i].1.PInt? ==> IsInt64(kvs[i].1.n)
  }

  lemma WrittenEntriesFit(kvs: seq<(string, Tree)>, es: seq<Entry>)
    requires |es| == |kvs| && forall i :: 0 <= i < |kvs| ==> StandsFor(es[i], kvs[i])
    requires forall i, j :: 0 <= i < j < |kvs| ==> kvs[i].0 != kvs[j].0
    ensures EntriesOk(es) && DistinctKeys(es) && (AllFit(es, 0) <==> IntegersFit(kvs))
  {
    hide EntryOk, Decoded, TextOf, IsInt64;
    forall i | 0 <= i < |kvs| ensures EntryOk(es[i]) && (Fits(es[i]) <==> (kvs[i].1.PInt? ==> IsInt64(kvs[i].1.n))) {
      assert StandsFor(es[i], kvs[i]);
    }
    forall i, j | 0 <= i < j < |es| ensures TextOf(es[i].key) != TextOf(es[j].key) {
      assert StandsFor(es[i], kvs[i]) && StandsFor(es[j], kvs[j]);
    }
    hide StandsFor, Fits;
  }

  /** So the XML of any dictionary of distinct keys reads as the settings its values
      give: strings, booleans, integers and the strings of arrays as they are,
      and an error exactly when an integer does not fit. */
  lemma {:induction false} WrittenPlistReads(kvs: seq<(string, Tree)>)
    requires forall i, j :: 0 <= i < j < |kvs| ==> kvs[i].0 != kvs[j].0
    ensures ParsedXml([Start("dict")] + (EntriesTokens(WrittenEntries(kvs)) + [End])) ==
      if IntegersFit(kvs) then Some(Filtered(Dictionary(kvs))) else None
  {
    var es := WrittenEntries(kvs);
    var none: seq<Node> := [];
    WrittenEntriesDecode(kvs);
    WrittenEntriesFit(kvs, es);
    assert Flat(none) && AllTokens(none) == [];
    hide *;
    XmlAgreesWithBinary([], es, none, []);
    assert [] + [Start("dict")] + (EntriesTokens(es) + ([] + [End] + [])) ==
      [Start("dict")] + (EntriesTokens(es) + [End]);
  }
}
