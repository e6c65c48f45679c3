/** Dropping the trailing commas of a JSON text
    (internal/txquery/jsonnode.go): the scanner, a grammar of JSON texts with
    one optional trailing comma per array or object, and that the scanner takes
    exactly those commas out. The grammar is RFC 8259's (sections 2, 4, 5 and 7)
    with the insides of numbers, literals and escapes left open. */
module TrailingCommas {
  import opened Options

  predicate IsSpace(c: char) { c == ' ' || c == '\t' || c == '\n' || c == '\r' }

  /** Whether the first character that is not white space closes something. */
  predicate ClosesNext(s: string) {
    s != [] && (if IsSpace(s[0]) then ClosesNext(s[1..]) else s[0] == ']' || s[0] == '}')
  }

  /** What is kept of the rest `s` of a text. */
  function Kept(s: string, inString: bool, escaped: bool): string {
    if s == [] then []
    else if inString then
      [s[0]] + (if escaped then Kept(s[1..], true, false)
                else if s[0] == '\\' then Kept(s[1..], true, true)
                else Kept(s[1..], s[0] != '"', false))
    else if s[0] == '"' then [s[0]] + Kept(s[1..], true, false)
    else if s[0] == ',' && ClosesNext(s[1..]) then Kept(s[1..], false, false)
    else [s[0]] + Kept(s[1..], false, false)
  }

  function Lenient(s: string): string { Kept(s, false, false) }

  lemma {:induction false} KeptNoLonger(s: string, inString: bool, escaped: bool)
    ensures |Kept(s, inString, escaped)| <= |s|
    decreases |s|
  {
    if s != [] {
      KeptNoLonger(s[1..], true, false);
      KeptNoLonger(s[1..], true, true);
      KeptNoLonger(s[1..], false, false);
    }
  }

  /** One character: whether it is kept, and the state after it. */
  lemma KeptStep(src: string, i: nat, inString: bool, escaped: bool)
    requires i < |src| && (escaped ==> inString)
    ensures var c := src[i];
            Kept(src[i..], inString, escaped) ==
            (if !inString && c == ',' && ClosesNext(src[i + 1..]) then [] else [c])
            + Kept(src[i + 1..], if inString then escaped || c != '"' else c == '"', inString && !escaped && c == '\\')
  {
    assert src[i..][0] == src[i] && src[i..][1..] == src[i + 1..];
  }

  lemma NothingKept(inString: bool, escaped: bool)
    ensures Kept([], inString, escaped) == []
  {
  }

  lemma ClosesStep(src: string, j: nat)
    requires j <= |src|
    ensures ClosesNext(src[j..]) <==>
            j < |src| && if IsSpace(src[j]) then ClosesNext(src[j + 1..]) else src[j] == ']' || src[j] == '}'
  {
    if j < |src| { assert src[j..][1..] == src[j + 1..]; }
  }

  method DropTrailingCommas(src: string) returns (out: string, changed: bool)
    ensures out == Lenient(src)
    ensures changed <==> out != src
  {
    hide Kept, ClosesNext;
    out, changed := [], false;
    assert src[0..] == src;
    var inString, escaped := false, false;
    for i := 0 to |src|
      invariant out + Kept(src[i..], inString, escaped) == Lenient(src)
      invariant escaped ==> inString
      invariant |out| <= i && (changed <==> |out| < i) && (!changed ==> out == src[..i])
    {
      var c := src[i];
      KeptStep(src, i, inString, escaped);
      if inString {
        if escaped {
          escaped := false;
        } else if c == '\\' {
          escaped := true;
        } else if c == '"' {
          inString := false;
        }
        out := out + [c];
        continue;
      }
      if c == '"' {
        inString := true;
      } else if c == ',' {
        var j := i + 1;
        while j < |src| && IsSpace(src[j])
          invariant i < j <= |src|
          invariant ClosesNext(src[i + 1..]) == ClosesNext(src[j..])
        {
          ClosesStep(src, j);
          j := j + 1;
        }
        ClosesStep(src, j);
        if j < |src| && (src[j] == ']' || src[j] == '}') {
          changed := true;
          continue;
        }
      }
      out := out + [c];
    }
    assert src[|src|..] == [];
    NothingKept(inString, escaped);
  }

  // -------------------------------------------------------------- grammar

  /** A JSON text as written. A scalar's token is its number or literal. */
  datatype Text =
    | Scalar(token: string)
    | Str(body: string)
    | Arr(items: Items)
    | Obj(items: Items)

  datatype Key = Key(body: string, before: string, after: string)

  /** One element or member, with the white space around it. */
  datatype Item = Item(lead: string, key: Option<Key>, value: Text, trail: string)

  /** What stands between brackets; the last item may have a comma after it,
      and white space after that. */
  datatype Items =
    | NoItems(space: string)
    | LastItem(item: Item, comma: Option<string>)
    | MoreItems(item: Item, rest: Items)

  predicate Space(s: string) { forall i :: 0 <= i < |s| ==> IsSpace(s[i]) }

  /** A string's characters: nothing but an escape holds a quote. */
  predicate Body(s: string) {
    s == [] || (if s[0] == '\\' then |s| >= 2 && Body(s[2..]) else s[0] != '"' && Body(s[1..]))
  }

  predicate TokenChar(c: char) { !IsSpace(c) && c !in "\",:[]{}" }

  predicate Token(s: string) { s != [] && forall i :: 0 <= i < |s| ==> TokenChar(s[i]) }

  predicate Grammatical(t: Text) {
    match t
    case Scalar(token) => Token(token)
    case Str(body) => Body(body)
    case Arr(items) => GrammaticalItems(items, false)
    case Obj(items) => GrammaticalItems(items, true)
  }

  predicate GrammaticalItem(i: Item, keyed: bool) {
    && Space(i.lead) && Space(i.trail) && Grammatical(i.value)
    && i.key.Some? == keyed
    && (i.key.Some? ==> Body(i.key.value.body) && Space(i.key.value.before) && Space(i.key.value.after))
  }

  predicate GrammaticalItems(items: Items, keyed: bool) {
    match items
    case NoItems(space) => Space(space)
    case LastItem(i, comma) => GrammaticalItem(i, keyed) && (comma.Some? ==> Space(comma.value))
    case MoreItems(i, rest) => GrammaticalItem(i, keyed) && !rest.NoItems? && GrammaticalItems(rest, keyed)
  }

  function Print(t: Text): string {
    match t
    case Scalar(token) => token
    case Str(body) => "\"" + body + "\""
    case Arr(items) => "[" + PrintItems(items) + "]"
    case Obj(items) => "{" + PrintItems(items) + "}"
  }

  function PrintKey(k: Option<Key>): string {
    if k.None? then "" else "\"" + k.value.body + "\"" + k.value.before + ":" + k.value.after
  }

  function PrintItem(i: Item): string { i.lead + PrintKey(i.key) + Print(i.value) + i.trail }

  function PrintItems(items: Items): string {
    match items
    case NoItems(space) => space
    case LastItem(i, comma) => PrintItem(i) + (if comma.Some? then "," + comma.value else "")
    case MoreItems(i, rest) => PrintItem(i) + "," + PrintItems(rest)
  }

  /** The text without its trailing commas. */
  function Strip(t: Text): Text {
    match t
    case Scalar(_) => t
    case Str(_) => t
    case Arr(items) => Arr(StripItems(items))
    case Obj(items) => Obj(StripItems(items))
  }

  function StripItem(i: Item): Item { i.(value := Strip(i.value)) }

  function StripItems(items: Items): Items {
    match items
    case NoItems(_) => items
    case LastItem(i, comma) =>
      var s := StripItem(i);
      LastItem(if comma.Some? then s.(trail := s.trail + comma.value) else s, None)
    case MoreItems(i, rest) => MoreItems(StripItem(i), StripItems(rest))
  }

  /** How many trailing commas a text has; a strict text has none. */
  function Commas(t: Text): nat {
    match t
    case Scalar(_) => 0
    case Str(_) => 0
    case Arr(items) => CommasIn(items)
    case Obj(items) => CommasIn(items)
  }

  function CommasIn(items: Items): nat {
    match items
    case NoItems(_) => 0
    case LastItem(i, comma) => Commas(i.value) + (if comma.Some? then 1 else 0)
    case MoreItems(i, rest) => Commas(i.value) + CommasIn(rest)
  }

  /** The value a text denotes: what is left without white space and trailing
      commas. Members of an array have no key. */
  datatype Value = Leaf(token: string) | Quoted(body: string) | Members(isObject: bool, members: seq<Member>)
  datatype Member = Member(key: Option<string>, value: Value)

  function Meaning(t: Text): Value {
    match t
    case Scalar(token) => Leaf(token)
    case Str(body) => Quoted(body)
    case Arr(items) => Members(false, MeaningOf(items))
    case Obj(items) => Members(true, MeaningOf(items))
  }

  function MeaningOfItem(i: Item): Member {
    Member(if i.key.Some? then Some(i.key.value.body) else None, Meaning(i.value))
  }

  function MeaningOf(items: Items): seq<Member> {
    match items
    case NoItems(_) => []
    case LastItem(i, _) => [MeaningOfItem(i)]
    case MoreItems(i, rest) => [MeaningOfItem(i)] + MeaningOf(rest)
  }

  // --------------------------------------------------------------- proofs

  lemma {:induction false} KeepsPlain(p: string, rest: string)
    requires forall i :: 0 <= i < |p| ==> p[i] != '"' && p[i] != ','
    ensures Lenient(p + rest) == p + Lenient(rest)
    decreases |p|
  {
    if p == [] {
      assert p + rest == rest;
    } else {
      assert (p + rest)[1..] == p[1..] + rest;
      KeepsPlain(p[1..], rest);
      assert [p[0]] + (p[1..] + Lenient(rest)) == p + Lenient(rest);
    }
  }

  lemma KeptEscape(c: char, s: string)
    ensures Kept("\\" + ([c] + s), true, false) == "\\" + ([c] + Kept(s, true, false))
  {
    assert ("\\" + ([c] + s))[1..] == [c] + s && ([c] + s)[1..] == s;
    assert Kept([c] + s, true, true) == [c] + Kept(s, true, false);
  }

  lemma KeptCharacter(c: char, s: string)
    requires c != '"' && c != '\\'
    ensures Kept([c] + s, true, false) == [c] + Kept(s, true, false)
  {
    assert ([c] + s)[1..] == s;
  }

  lemma KeptOpen(s: string)
    ensures Lenient("\"" + s) == "\"" + Kept(s, true, false)
  {
    assert ("\"" + s)[1..] == s;
  }

  lemma KeptClose(s: string)
    ensures Kept("\"" + s, true, false) == "\"" + Lenient(s)
  {
    assert ("\"" + s)[1..] == s;
  }

  lemma {:induction false} KeepsBody(body: string, rest: string)
    requires Body(body)
    ensures Kept(body + ("\"" + rest), true, false) == body + ("\"" + Lenient(rest))
    decreases |body|
  {
    hide Kept, Lenient;
    var tail, kept := "\"" + rest, "\"" + Lenient(rest);
    if body == [] {
      KeptClose(rest);
      assert body + tail == tail && body + kept == kept;
    } else if body[0] == '\\' {
      KeepsBody(body[2..], rest);
      KeptEscape(body[1], body[2..] + tail);
      assert body + tail == "\\" + ([body[1]] + (body[2..] + tail));
      assert body + kept == "\\" + ([body[1]] + (body[2..] + kept));
    } else {
      KeepsBody(body[1..], rest);
      KeptCharacter(body[0], body[1..] + tail);
      assert body + tail == [body[0]] + (body[1..] + tail);
      assert body + kept == [body[0]] + (body[1..] + kept);
    }
  }

  lemma LenientComma(s: string)
    ensures Lenient("," + s) == if ClosesNext(s) then Lenient(s) else "," + Lenient(s)
  {
    assert ("," + s)[1..] == s;
  }

  /** A quoted string is kept as it is. */
  lemma KeepsQuoted(body: string, rest: string)
    requires Body(body)
    ensures Lenient("\"" + body + "\"" + rest) == "\"" + body + "\"" + Lenient(rest)
  {
    hide Kept, Lenient;
    KeptOpen(body + ("\"" + rest));
    KeepsBody(body, rest);
    assert "\"" + body + "\"" + rest == "\"" + (body + ("\"" + rest));
    assert "\"" + body + "\"" + Lenient(rest) == "\"" + (body + ("\"" + Lenient(rest)));
  }

  lemma {:induction false} SpaceThenCloses(space: string, c: char, rest: string)
    requires Space(space) && !IsSpace(c)
    ensures ClosesNext(space + ([c] + rest)) <==> c == ']' || c == '}'
    decreases |space|
  {
    var s := space + ([c] + rest);
    if space == [] {
      assert s == [c] + rest;
    } else {
      assert s[1..] == space[1..] + ([c] + rest);
      SpaceThenCloses(space[1..], c, rest);
    }
  }

  /** After a comma between two items nothing closes. */
  lemma ItemDoesNotClose(i: Item, keyed: bool, rest: string)
    requires GrammaticalItem(i, keyed)
    ensures !ClosesNext(PrintItem(i) + rest)
  {
    var body := PrintKey(i.key) + Print(i.value) + i.trail;
    assert body != [] && !IsSpace(body[0]) && body[0] != ']' && body[0] != '}';
    SpaceThenCloses(i.lead, body[0], body[1..] + rest);
    assert PrintItem(i) + rest == i.lead + ([body[0]] + (body[1..] + rest));
  }

  lemma ItemsDoNotClose(items: Items, keyed: bool, rest: string)
    requires GrammaticalItems(items, keyed) && !items.NoItems?
    ensures !ClosesNext(PrintItems(items) + rest)
  {
    if items.LastItem? {
      var more := if items.comma.Some? then "," + items.comma.value else "";
      assert PrintItems(items) + rest == PrintItem(items.item) + (more + rest);
      ItemDoesNotClose(items.item, keyed, more + rest);
    } else {
      assert PrintItems(items) + rest == PrintItem(items.item) + ("," + PrintItems(items.rest) + rest);
      ItemDoesNotClose(items.item, keyed, "," + PrintItems(items.rest) + rest);
    }
  }

  lemma KeepsKey(k: Option<Key>, rest: string)
    requires k.Some? ==> Body(k.value.body) && Space(k.value.before) && Space(k.value.after)
    ensures Lenient(PrintKey(k) + rest) == PrintKey(k) + Lenient(rest)
  {
    if k.None? {
      assert PrintKey(k) + rest == rest;
    } else {
      var colon := k.value.before + ":" + k.value.after;
      assert PrintKey(k) + rest == "\"" + k.value.body + "\"" + (colon + rest);
      KeepsQuoted(k.value.body, colon + rest);
      KeepsPlain(colon, rest);
    }
  }

  lemma {:induction false} StripsText(t: Text, rest: string)
    requires Grammatical(t)
    ensures Lenient(Print(t) + rest) == Print(Strip(t)) + Lenient(rest)
    decreases t, 0
  {
    hide Lenient;
    match t
    case Scalar(token) => KeepsPlain(token, rest);
    case Str(body) => KeepsQuoted(body, rest);
    case Arr(items) =>
      assert Print(t) + rest == "[" + (PrintItems(items) + ("]" + rest));
      KeepsPlain("[", PrintItems(items) + ("]" + rest));
      StripsItems(items, false, ']', rest);
      assert "[" + (PrintItems(StripItems(items)) + ("]" + Lenient(rest))) == Print(Strip(t)) + Lenient(rest);
    case Obj(items) =>
      assert Print(t) + rest == "{" + (PrintItems(items) + ("}" + rest));
      KeepsPlain("{", PrintItems(items) + ("}" + rest));
      StripsItems(items, true, '}', rest);
      assert "{" + (PrintItems(StripItems(items)) + ("}" + Lenient(rest))) == Print(Strip(t)) + Lenient(rest);
  }

  lemma KeepsSpace(space: string, rest: string)
    requires Space(space)
    ensures Lenient(space + rest) == space + Lenient(rest)
  {
    KeepsPlain(space, rest);
  }

  lemma Regroup(a: string, b: string, c: string, d: string, e: string)
    ensures a + b + c + d + e == a + (b + (c + (d + e)))
  {
  }

  lemma {:induction false} StripsItem(i: Item, keyed: bool, rest: string)
    requires GrammaticalItem(i, keyed)
    ensures Lenient(PrintItem(i) + rest) == PrintItem(StripItem(i)) + Lenient(rest)
    decreases i, 1
  {
    StripsText(i.value, i.trail + rest);
    var k, v, v' := PrintKey(i.key), Print(i.value), Print(Strip(i.value));
    KeepsKey(i.key, v + (i.trail + rest));
    hide Lenient, Print, PrintKey, Strip, Grammatical;
    KeepsSpace(i.trail, rest);
    KeepsSpace(i.lead, k + (v + (i.trail + rest)));
    Regroup(i.lead, k, v, i.trail, rest);
    Regroup(i.lead, k, v', i.trail, Lenient(rest));
  }

  lemma PrintLast(i: Item, comma: Option<string>, end: string)
    ensures PrintItems(LastItem(i, comma)) + end ==
            PrintItem(i) + (if comma.Some? then "," + (comma.value + end) else end)
    ensures PrintItems(StripItems(LastItem(i, comma))) + end ==
            PrintItem(StripItem(i)) + (if comma.Some? then comma.value + end else end)
  {
    hide Print, PrintKey, StripItem;
    var s := StripItem(i);
    if comma.Some? { assert PrintItem(s.(trail := s.trail + comma.value)) == PrintItem(s) + comma.value; }
  }

  lemma PrintMore(i: Item, rest: Items, end: string)
    ensures PrintItems(MoreItems(i, rest)) + end == PrintItem(i) + ("," + (PrintItems(rest) + end))
  {
    hide PrintItem;
  }

  lemma StripsLast(i: Item, comma: Option<string>, close: char, rest: string)
    requires (close == ']' || close == '}') && (comma.Some? ==> Space(comma.value))
    requires var r := if comma.Some? then "," + (comma.value + ([close] + rest)) else [close] + rest;
             Lenient(PrintItem(i) + r) == PrintItem(StripItem(i)) + Lenient(r)
    ensures Lenient(PrintItems(LastItem(i, comma)) + ([close] + rest)) ==
            PrintItems(StripItems(LastItem(i, comma))) + ([close] + Lenient(rest))
  {
    hide Lenient, PrintItems, PrintItem, StripItems, StripItem;
    PrintLast(i, comma, [close] + rest);
    PrintLast(i, comma, [close] + Lenient(rest));
    KeepsPlain([close], rest);
    if comma.Some? {
      SpaceThenCloses(comma.value, close, rest);
      LenientComma(comma.value + ([close] + rest));
      KeepsPlain(comma.value, [close] + rest);
    }
  }

  lemma {:induction false} StripsItems(items: Items, keyed: bool, close: char, rest: string)
    requires GrammaticalItems(items, keyed) && (close == ']' || close == '}')
    ensures Lenient(PrintItems(items) + ([close] + rest)) == PrintItems(StripItems(items)) + ([close] + Lenient(rest))
    decreases items, 2
  {
    var tail, kept := [close] + rest, [close] + Lenient(rest);
    KeepsPlain([close], rest);
    match items
    case NoItems(space) => KeepsPlain(space, tail);
    case LastItem(i, comma) =>
      hide Lenient, PrintItems, PrintItem, StripItems, StripItem;
      StripsItem(i, keyed, if comma.Some? then "," + (comma.value + tail) else tail);
      StripsLast(i, comma, close, rest);
    case MoreItems(i, more) =>
      hide Lenient, PrintItems, PrintItem;
      StripsItem(i, keyed, "," + (PrintItems(more) + tail));
      ItemsDoNotClose(more, keyed, tail);
      StripsItems(more, keyed, close, rest);
      StripsMore(i, more, tail, kept);
  }

  lemma StripsMore(i: Item, more: Items, tail: string, kept: string)
    requires !ClosesNext(PrintItems(more) + tail)
    requires Lenient(PrintItems(more) + tail) == PrintItems(StripItems(more)) + kept
    requires var r := "," + (PrintItems(more) + tail); Lenient(PrintItem(i) + r) == PrintItem(StripItem(i)) + Lenient(r)
    ensures Lenient(PrintItems(MoreItems(i, more)) + tail) ==
            PrintItems(MoreItems(StripItem(i), StripItems(more))) + kept
  {
    hide Lenient, PrintItems, PrintItem, StripItems, StripItem, ClosesNext;
    PrintMore(i, more, tail);
    PrintMore(StripItem(i), StripItems(more), kept);
    LenientComma(PrintItems(more) + tail);
  }

  lemma {:induction false} StripFacts(t: Text)
    requires Grammatical(t)
    ensures Grammatical(Strip(t)) && Commas(Strip(t)) == 0
    ensures Meaning(Strip(t)) == Meaning(t)
    ensures |Print(Strip(t))| + Commas(t) == |Print(t)|
    decreases t, 0
  {
    if t.Arr? { StripItemsFacts(t.items, false); }
    if t.Obj? { StripItemsFacts(t.items, true); }
  }

  lemma {:induction false} StripItemsFacts(items: Items, keyed: bool)
    requires GrammaticalItems(items, keyed)
    ensures GrammaticalItems(StripItems(items), keyed) && CommasIn(StripItems(items)) == 0
    ensures MeaningOf(StripItems(items)) == MeaningOf(items)
    ensures |PrintItems(StripItems(items))| + CommasIn(items) == |PrintItems(items)|
    decreases items, 1
  {
    match items
    case NoItems(_) =>
    case LastItem(i, _) => StripFacts(i.value);
    case MoreItems(i, rest) =>
      StripFacts(i.value);
      StripItemsFacts(rest, keyed);
  }

  /** On a JSON text with trailing commas allowed, `dropTrailingCommas` takes out
      exactly those commas: what is left is the strict text of the same value,
      shorter by their number. */
  lemma DropsExactlyTrailingCommas(lead: string, t: Text, trail: string)
    requires Space(lead) && Space(trail) && Grammatical(t)
    ensures Lenient(lead + Print(t) + trail) == lead + Print(Strip(t)) + trail
    ensures Grammatical(Strip(t)) && Commas(Strip(t)) == 0 && Meaning(Strip(t)) == Meaning(t)
    ensures |Lenient(lead + Print(t) + trail)| + Commas(t) == |lead + Print(t) + trail|
    ensures Lenient(lead + Print(t) + trail) != lead + Print(t) + trail <==> Commas(t) > 0
  {
    assert lead + Print(t) + trail == lead + (Print(t) + (trail + ""));
    assert trail + "" == trail;
    KeepsPlain(lead, Print(t) + trail);
    StripsText(t, trail);
    KeepsPlain(trail, "");
    StripFacts(t);
    if Commas(t) == 0 { StrictIsKept(t); }
  }

  lemma {:induction false} StrictIsKept(t: Text)
    requires Commas(t) == 0
    ensures Strip(t) == t
    decreases t, 0
  {
    if t.Arr? || t.Obj? { StrictItemsAreKept(t.items); }
  }

  lemma {:induction false} StrictItemsAreKept(items: Items)
    requires CommasIn(items) == 0
    ensures StripItems(items) == items
    decreases items, 1
  {
    match items
    case NoItems(_) =>
    case LastItem(i, _) => StrictIsKept(i.value);
    case MoreItems(i, rest) =>
      StrictIsKept(i.value);
      StrictItemsAreKept(rest);
  }

  // ------------------------------------------------------------ one pass

  /** Whether the first character that is not white space is a comma that the
      pass drops. */
  predicate CommaCloses(s: string) {
    s != [] && (if IsSpace(s[0]) then CommaCloses(s[1..]) else s[0] == ',' && ClosesNext(s[1..]))
  }

  /** Some comma outside strings is followed by a comma that the pass drops. */
  predicate Doubled(s: string, inString: bool, escaped: bool) {
    s != [] &&
    (if inString then
       Doubled(s[1..], escaped || s[0] != '"', !escaped && s[0] == '\\')
     else
       (s[0] == ',' && CommaCloses(s[1..])) || Doubled(s[1..], s[0] == '"', false))
  }

  lemma {:induction false} KeptCloses(s: string)
    ensures ClosesNext(Lenient(s)) <==> ClosesNext(s) || CommaCloses(s)
    decreases |s|
  {
    if s != [] {
      KeptCloses(s[1..]);
      if !(s[0] == ',' && ClosesNext(s[1..])) { assert Lenient(s)[0] == s[0]; }
      if IsSpace(s[0]) { assert Lenient(s)[1..] == Lenient(s[1..]); }
    }
  }

  lemma KeptHead(c: char, s: string, inString: bool, escaped: bool)
    requires (escaped ==> inString) && (inString || c != ',' || !ClosesNext(s))
    ensures Kept([c] + s, inString, escaped) ==
            [c] + Kept(s, if inString then escaped || c != '"' else c == '"', inString && !escaped && c == '\\')
  {
    assert ([c] + s)[1..] == s;
  }

  lemma {:induction false} TwicePass(s: string, inString: bool, escaped: bool)
    requires escaped ==> inString
    ensures Kept(Kept(s, inString, escaped), inString, escaped) == Kept(s, inString, escaped) <==>
            !Doubled(s, inString, escaped)
    decreases |s|
  {
    if s != [] {
      var c, rest := s[0], s[1..];
      assert s == [c] + rest;
      var i', e' := if inString then escaped || c != '"' else c == '"', inString && !escaped && c == '\\';
      var kept := Kept(rest, i', e');
      TwicePass(rest, i', e');
      if !inString && c == ',' { KeptCloses(rest); }
      if !inString && c == ',' && ClosesNext(rest) {
        ClosesOnce(rest);
      } else {
        KeptHead(c, rest, inString, escaped);
        if !inString && c == ',' && ClosesNext(kept) {
          KeptNoLonger(kept, false, false);
          assert ([c] + kept)[1..] == kept;
        } else {
          KeptHead(c, kept, inString, escaped);
          assert ([c] + Kept(kept, i', e'))[1..] == Kept(kept, i', e') && ([c] + kept)[1..] == kept;
        }
      }
    }
  }

  lemma {:induction false} ClosesOnce(s: string)
    requires ClosesNext(s)
    ensures !CommaCloses(s)
    decreases |s|
  {
    if IsSpace(s[0]) { ClosesOnce(s[1..]); }
  }

  /** One pass leaves nothing for a second one to drop exactly if no comma is
      followed, after white space, by a comma that the pass drops. */
  lemma OnePassSuffices(s: string)
    ensures Lenient(Lenient(s)) == Lenient(s) <==> !Doubled(s, false, false)
  {
    TwicePass(s, false, false);
  }
}
