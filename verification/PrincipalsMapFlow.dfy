/** The inline list form, `account: [a, b]`, which is only read: when it gives
    back the principals it spells. */
module PrincipalsMapFlow {
  import opened Types
  import opened Text
  import opened PrincipalsMap
  import opened PrincipalsMapFormat

  /* Blanks around a text */

  ghost predicate AllSpace(s: string) {
    forall i :: 0 <= i < |s| ==> IsSpace(s[i])
  }

  lemma {:induction false} TrimStartSplits(s: string) returns (pre: string)
    ensures AllSpace(pre) && s == pre + TrimStart(s)
    ensures TrimStart(s) != "" ==> !IsSpace(TrimStart(s)[0])
  {
    if s != "" && IsSpace(s[0]) {
      var rest := TrimStartSplits(s[1..]);
      pre := [s[0]] + rest;
    } else {
      pre := "";
    }
  }

  lemma {:induction false} TrimEndSplits(s: string) returns (post: string)
    ensures AllSpace(post) && s == TrimEnd(s) + post
    ensures TrimEnd(s) != "" ==> !IsSpace(TrimEnd(s)[|TrimEnd(s)| - 1])
  {
    if s != "" && IsSpace(s[|s| - 1]) {
      var rest := TrimEndSplits(s[..|s| - 1]);
      post := rest + [s[|s| - 1]];
    } else {
      post := "";
    }
  }

  lemma TrimSplits(s: string) returns (pre: string, post: string)
    ensures AllSpace(pre) && AllSpace(post) && s == pre + Trim(s) + post
    ensures var t := Trim(s); t != "" ==> !IsSpace(t[0]) && !IsSpace(t[|t| - 1])
  {
    pre := TrimStartSplits(s);
    post := TrimEndSplits(TrimStart(s));
  }

  lemma {:induction false} TrimStartPadded(pre: string, s: string)
    requires AllSpace(pre)
    ensures TrimStart(pre + s) == TrimStart(s)
  {
    if pre == "" {
      assert pre + s == s;
    } else {
      assert (pre + s)[0] == pre[0] && (pre + s)[1..] == pre[1..] + s;
      TrimStartPadded(pre[1..], s);
    }
  }

  lemma {:induction false} TrimEndPadded(s: string, post: string)
    requires AllSpace(post)
    ensures TrimEnd(s + post) == TrimEnd(s)
  {
    if post == "" {
      assert s + post == s;
    } else {
      var t, k := s + post, |post| - 1;
      assert t[|t| - 1] == post[k] && t[..|t| - 1] == s + post[..k];
      TrimEndPadded(s, post[..k]);
    }
  }

  lemma {:induction false} TrimStartPaddedEnd(s: string, post: string)
    requires AllSpace(post)
    ensures TrimEnd(TrimStart(s + post)) == TrimEnd(TrimStart(s))
  {
    if s == "" {
      assert s + post == post + "";
      TrimStartPadded(post, "");
    } else if IsSpace(s[0]) {
      assert (s + post)[0] == s[0] && (s + post)[1..] == s[1..] + post;
      TrimStartPaddedEnd(s[1..], post);
    } else {
      assert (s + post)[0] == s[0];
      TrimEndPadded(s, post);
    }
  }

  /** Blanks around a text do not change what it trims to. */
  lemma TrimPadded(pre: string, s: string, post: string)
    requires AllSpace(pre) && AllSpace(post)
    ensures Trim(pre + s + post) == Trim(s)
  {
    assert pre + s + post == pre + (s + post);
    TrimStartPadded(pre, s + post);
    TrimStartPaddedEnd(s, post);
  }

  /* Reading fields */

  lemma {:induction false} ParseFieldsAppend(a: seq<string>, b: seq<string>)
    ensures var x, y := ParseFields(a), ParseFields(b);
      ParseFields(a + b) == if x.None? || y.None? then None else Some(x.value + y.value)
  {
    if a == [] {
      assert a + b == b;
      assert ParseFields(b).Some? ==> [] + ParseFields(b).value == ParseFields(b).value;
    } else {
      ParseFieldsAppend(a[1..], b);
      assert (a + b)[1..] == a[1..] + b;
      var first, x, y := NonEmpty(Unquote(Trim(a[0]))), ParseFields(a[1..]), ParseFields(b);
      if first.Some? && x.Some? && y.Some? {
        assert [first.value] + (x.value + y.value) == [first.value] + x.value + y.value;
      }
    }
  }

  lemma {:induction false} ParseFieldsLength(fields: seq<string>)
    ensures ParseFields(fields).Some? ==> |ParseFields(fields).value| == |fields|
  {
    if fields != [] {
      ParseFieldsLength(fields[1..]);
    }
  }

  lemma OneField(field: string)
    ensures var p := NonEmpty(Unquote(Trim(field)));
      ParseFields([field]) == if p.None? then None else Some([p.value])
  {
    hide Unquote, Trim, NonEmpty;
    var none: seq<string> := [];
    assert [field][1..] == none && ParseFields(none) == Some([]);
    var p := NonEmpty(Unquote(Trim(field)));
    assert p.Some? ==> [p.value] + none == [p.value];
  }

  lemma {:induction false} TrimEndIsAPrefix(s: string)
    ensures TrimEnd(s) <= s && (s != "" && !IsSpace(s[0]) ==> TrimEnd(s) != "")
  {
    if s != "" && IsSpace(s[|s| - 1]) {
      TrimEndIsAPrefix(s[..|s| - 1]);
    }
  }

  /* One principal between its separators */

  /** An item of an inline list and the principal it stands for. */
  datatype Item = Item(text: string, value: string)

  /** The text, with any blanks around it, is one way to write the value: as it is, or
      in quotes, needed or not. */
  ghost predicate Spells(x: Item) {
    x.value != "" && Trim(x.text) != "" && Unquote(Trim(x.text)) == Some(x.value)
  }

  ghost predicate IsQuoted(x: Item) {
    Trim(x.text) != "" && IsQuote(Trim(x.text)[0])
  }

  lemma {:induction false} FirstComma(p: string) returns (i: nat)
    requires ',' in p
    ensures i < |p| && p[i] == ',' && ',' !in p[..i]
  {
    if p[0] == ',' {
      i := 0;
    } else {
      var j := FirstComma(p[1..]);
      i := j + 1;
      assert p[..i] == [p[0]] + p[1..][..j];
    }
  }

  /** A value that opens a quote and never closes it. */
  lemma HalfIsRefused(pre: string, s: string)
    requires AllSpace(pre) && s != "" && IsQuote(s[0]) && forall i :: 0 < i < |s| ==> s[i] != s[0]
    ensures Unquote(Trim(pre + s)).None?
  {
    TrimPadded(pre, s, "");
    assert pre + s + "" == pre + s;
    assert TrimStart(s) == s;
    TrimEndIsAPrefix(s);
    hide TrimEnd, TrimStart;
    var v := TrimEnd(s);
    assert v[0] == s[0] && v[|v| - 1] == s[|v| - 1];
  }

  lemma CutQuoted(pre: string, p: string, q: char, post: string, i: nat)
    requires i < |p| && p[i] == ','
    ensures pre + ([q] + p + [q]) + post == pre + ([q] + p[..i]) + [','] + (p[i + 1..] + [q] + post)
  {
    assert p == p[..i] + [','] + p[i + 1..];
  }

  /** A comma cuts a quoted principal in two, and the first half is refused. */
  lemma QuotedCommaIsRefused(pre: string, p: string, q: char, post: string)
    requires AllSpace(pre) && IsQuote(q) && q !in p && ',' in p
    ensures ParseFields(Split(pre + ([q] + p + [q]) + post, ',')).None?
  {
    var i := FirstComma(p);
    var half, rest := [q] + p[..i], p[i + 1..] + [q] + post;
    CutQuoted(pre, p, q, post, i);
    SplitAppend(pre + half, rest, ',');
    SplitWhole(pre + half, ',');
    HalfIsRefused(pre, half);
    hide Split, Trim, Unquote;
  }

  function Values(xs: seq<Item>): (vs: seq<string>)
    ensures |vs| == |xs|
  {
    if xs == [] then [] else [xs[0].value] + Values(xs[1..])
  }

  /** The text of an inline list. */
  function Commas(xs: seq<Item>): string
    requires xs != []
  {
    if |xs| == 1 then xs[0].text else xs[0].text + ([','] + Commas(xs[1..]))
  }

  ghost predicate AllSpelled(xs: seq<Item>) {
    forall x | x in xs :: Spells(x)
  }

  ghost predicate HasComma(xs: seq<Item>) {
    exists x :: x in xs && ',' in x.value
  }

  ghost predicate HasQuotedComma(xs: seq<Item>) {
    exists x :: x in xs && ',' in x.value && IsQuoted(x)
  }

  /** What a list of items reads as: their values without commas, more with one, and
      an error where a comma was quoted. */
  ghost predicate ReadsAs(r: Option<seq<string>>, xs: seq<Item>) {
    && (!HasComma(xs) ==> r == Some(Values(xs)))
    && (r.Some? ==> |r.value| >= |xs|)
    && (HasComma(xs) ==> r.None? || |r.value| > |xs|)
    && (HasQuotedComma(xs) ==> r.None?)
  }

  lemma CommaStays(x: Item)
    requires Spells(x)
    ensures ',' in x.text <==> ',' in x.value
    ensures IsQuoted(x) ==> var q := Trim(x.text)[0]; Trim(x.text) == [q] + x.value + [q] && q !in x.value
  {
    var pre, post := TrimSplits(x.text);
    var w := Trim(x.text);
    assert ',' in x.text <==> ',' in w;
    if IsQuote(w[0]) {
      assert w == [w[0]] + w[1..|w| - 1] + [w[|w| - 1]];
    }
  }

  lemma QuotedItemIsRefused(x: Item)
    requires Spells(x) && IsQuoted(x) && ',' in x.value
    ensures ParseFields(Split(x.text, ',')).None?
  {
    CommaStays(x);
    var pre, post := TrimSplits(x.text);
    hide Spells, Trim, Split;
    QuotedCommaIsRefused(pre, x.value, Trim(x.text)[0], post);
  }

  lemma ItemReads(x: Item)
    requires Spells(x)
    ensures ReadsAs(ParseFields(Split(x.text, ',')), [x])
  {
    CommaStays(x);
    SplitWhole(x.text, ',');
    ParseFieldsLength(Split(x.text, ','));
    OneField(x.text);
    if ',' in x.value && IsQuoted(x) {
      QuotedItemIsRefused(x);
    }
    hide Split, Trim, Unquote, IsQuoted, ParseFields;
    var none: seq<Item> := [];
    assert [x][1..] == none && Values(none) == [] && Values([x]) == [x.value];
  }

  lemma ReadsAsBoth(r: Option<seq<string>>, x: Item, rest: Option<seq<string>>, xs: seq<Item>)
    requires ReadsAs(r, [x]) && ReadsAs(rest, xs)
    ensures ReadsAs(if r.None? || rest.None? then None else Some(r.value + rest.value), [x] + xs)
  {
    hide IsQuoted;
    var all := [x] + xs;
    assert x in [x] && x in all && forall y :: y in xs ==> y in all;
    assert all[1..] == xs && Values(all) == [x.value] + Values(xs);
    assert [x][1..] == [] && Values([x]) == [x.value];
  }

  lemma {:induction false} ItemsRead(xs: seq<Item>)
    requires xs != [] && AllSpelled(xs)
    ensures ReadsAs(ParseFields(Split(Commas(xs), ',')), xs)
    decreases |xs|
  {
    hide Spells, ReadsAs, Split, ParseFields;
    ItemReads(xs[0]);
    if |xs| == 1 {
      assert xs == [xs[0]];
    } else {
      var first, rest := xs[0].text, Commas(xs[1..]);
      ItemsRead(xs[1..]);
      assert Commas(xs) == first + [','] + rest;
      SplitAppend(first, rest, ',');
      ParseFieldsAppend(Split(first, ','), Split(rest, ','));
      ReadsAsBoth(ParseFields(Split(first, ',')), xs[0], ParseFields(Split(rest, ',')), xs[1..]);
      assert xs == [xs[0]] + xs[1..];
    }
  }

  /* The blanks inside the brackets */

  lemma {:induction false} TrimEndAppend(a: string, b: string)
    requires TrimEnd(b) != ""
    ensures TrimEnd(a + b) == a + TrimEnd(b)
  {
    var k := |a + b| - 1;
    assert (a + b)[k] == b[|b| - 1] && (a + b)[..k] == a + b[..|b| - 1];
    if IsSpace(b[|b| - 1]) {
      TrimEndAppend(a, b[..|b| - 1]);
    }
  }

  lemma {:induction false} TrimStartAppend(a: string, b: string)
    requires TrimStart(a) != ""
    ensures TrimStart(a + b) == TrimStart(a) + b
  {
    assert (a + b)[0] == a[0] && (a + b)[1..] == a[1..] + b;
    if IsSpace(a[0]) {
      TrimStartAppend(a[1..], b);
    }
  }

  /** The items with the blanks before the first and after the last left out. */
  function StartTrimmed(xs: seq<Item>): seq<Item>
    requires xs != []
  {
    [xs[0].(text := TrimStart(xs[0].text))] + xs[1..]
  }

  function EndTrimmed(xs: seq<Item>): (ys: seq<Item>)
    requires xs != []
    ensures |ys| == |xs|
  {
    if |xs| == 1 then [xs[0].(text := TrimEnd(xs[0].text))] else [xs[0]] + EndTrimmed(xs[1..])
  }

  /** The same items, as far as reading goes. */
  ghost predicate Alike(xs: seq<Item>, ys: seq<Item>) {
    |xs| == |ys| && forall i :: 0 <= i < |xs| ==> xs[i].value == ys[i].value && Trim(xs[i].text) == Trim(ys[i].text)
  }

  lemma {:induction false} AlikeValues(xs: seq<Item>, ys: seq<Item>)
    requires Alike(xs, ys)
    ensures Values(xs) == Values(ys)
  {
    hide Trim;
    if xs != [] {
      AlikeValues(xs[1..], ys[1..]);
    }
  }

  lemma AlikeItem(xs: seq<Item>, ys: seq<Item>, x: Item) returns (y: Item)
    requires Alike(xs, ys) && x in xs
    ensures y in ys && x.value == y.value && (IsQuoted(x) <==> IsQuoted(y)) && (Spells(x) <==> Spells(y))
  {
    hide Trim, Unquote;
    var i :| 0 <= i < |xs| && xs[i] == x;
    y := ys[i];
  }

  lemma AlikeSpelled(xs: seq<Item>, ys: seq<Item>)
    requires Alike(xs, ys) && AllSpelled(xs)
    ensures AllSpelled(ys)
  {
    forall y | y in ys ensures Spells(y) {
      hide Trim, Spells;
      var x := AlikeItem(ys, xs, y);
    }
  }

  lemma AlikeCommas(xs: seq<Item>, ys: seq<Item>)
    requires Alike(xs, ys)
    ensures (HasComma(xs) ==> HasComma(ys)) && (HasQuotedComma(xs) ==> HasQuotedComma(ys))
  {
    hide Trim, Spells, IsQuoted;
    if HasComma(xs) {
      var x :| x in xs && ',' in x.value;
      var y := AlikeItem(xs, ys, x);
    }
    if HasQuotedComma(xs) {
      var x :| x in xs && ',' in x.value && IsQuoted(x);
      var y := AlikeItem(xs, ys, x);
    }
  }

  lemma AlikeReads(r: Option<seq<string>>, xs: seq<Item>, ys: seq<Item>)
    requires Alike(xs, ys) && ReadsAs(r, ys)
    ensures ReadsAs(r, xs)
  {
    hide Trim, HasComma, HasQuotedComma, Values;
    AlikeValues(xs, ys);
    AlikeCommas(xs, ys);
    AlikeCommas(ys, xs);
  }

  lemma TrimmedTrims(s: string)
    ensures Trim(TrimStart(s)) == Trim(s) && Trim(TrimEnd(s)) == Trim(s)
  {
    hide Trim, TrimStart, TrimEnd;
    var pre := TrimStartSplits(s);
    TrimPadded(pre, TrimStart(s), "");
    assert pre + TrimStart(s) + "" == s;
    var post := TrimEndSplits(s);
    TrimPadded("", TrimEnd(s), post);
    assert "" + TrimEnd(s) + post == s;
  }

  lemma NotBlank(s: string)
    requires Trim(s) != ""
    ensures TrimStart(s) != "" && TrimEnd(s) != ""
  {
    TrimmedTrims(s);
  }

  lemma StartIsTrimmed(xs: seq<Item>)
    requires xs != [] && AllSpelled(xs)
    ensures Alike(xs, StartTrimmed(xs)) && Commas(StartTrimmed(xs)) == TrimStart(Commas(xs))
  {
    assert Spells(xs[0]);
    TrimmedTrims(xs[0].text);
    NotBlank(xs[0].text);
    hide Trim, TrimStart, TrimEnd;
    var ys := StartTrimmed(xs);
    if |xs| > 1 {
      assert ys[1..] == xs[1..];
      TrimStartAppend(xs[0].text, [','] + Commas(xs[1..]));
    }
  }

  lemma {:induction false} EndIsTrimmed(xs: seq<Item>)
    requires xs != [] && AllSpelled(xs)
    ensures Alike(xs, EndTrimmed(xs)) && Commas(EndTrimmed(xs)) == TrimEnd(Commas(xs)) != ""
    decreases |xs|
  {
    hide Trim, TrimEnd, TrimStart;
    if |xs| == 1 {
      assert Spells(xs[0]);
      TrimmedTrims(xs[0].text);
      NotBlank(xs[0].text);
    } else {
      var ys := EndTrimmed(xs);
      EndIsTrimmed(xs[1..]);
      assert ys[1..] == EndTrimmed(xs[1..]);
      TrimEndAppend([','], Commas(xs[1..]));
      TrimEndAppend(xs[0].text, [','] + Commas(xs[1..]));
    }
  }

  /** An empty list, blanks or not between its brackets, has no principals. */
  lemma EmptyListReads(pad: string)
    requires AllSpace(pad)
    ensures ParseFlow("[" + pad + "]") == Some([])
  {
    var value := "[" + pad + "]";
    assert value[1..|value| - 1] == pad;
    TrimPadded(pad, "", "");
    assert pad + "" + "" == pad;
  }

  /** An inline list, however its items are spelled and spaced, reads back as exactly
      their principals if and only if none holds a comma. One written in quotes
      with a comma inside is an error, never a different principal. */
  lemma FlowListReadsBack(xs: seq<Item>)
    requires xs != [] && AllSpelled(xs)
    ensures ParseFlow("[" + Commas(xs) + "]") == Some(Values(xs)) <==> !HasComma(xs)
    ensures HasQuotedComma(xs) ==> ParseFlow("[" + Commas(xs) + "]").None?
  {
    var s, value := Commas(xs), "[" + Commas(xs) + "]";
    assert value[1..|value| - 1] == s;
    hide Spells, IsQuoted, Commas, Split, ParseFields, TrimStart, TrimEnd;
    var ys := StartTrimmed(xs);
    StartIsTrimmed(xs);
    AlikeSpelled(xs, ys);
    var zs := EndTrimmed(ys);
    EndIsTrimmed(ys);
    AlikeSpelled(ys, zs);
    ItemsRead(zs);
    var r := ParseFields(Split(Trim(s), ','));
    AlikeReads(r, ys, zs);
    AlikeReads(r, xs, ys);
  }
}
