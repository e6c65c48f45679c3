/** The string list modules work with, and its two text forms
    (internal/scraper/strings.go). A character stands for a byte. */
module StringList {

  // ---------------------------------------------------------------- forms

  function Join(parts: seq<string>, sep: string): string {
    if parts == [] then "" else if |parts| == 1 then parts[0] else parts[0] + sep + Join(parts[1..], sep)
  }

  predicate NeedsQuotes(item: string) { ',' in item || ' ' in item || '"' in item }

  /** The item with every quote doubled. */
  function Doubled(s: string): string {
    if s == [] then [] else (if s[0] == '"' then "\"\"" else [s[0]]) + Doubled(s[1..])
  }

  function Field(item: string): string { if NeedsQuotes(item) then "\"" + Doubled(item) + "\"" else item }

  function Fields(items: seq<string>): seq<string> { seq(|items|, i requires 0 <= i < |items| => Field(items[i])) }

  function CommaTextOf(items: seq<string>): string { Join(Fields(items), ",") }

  /** Parsing the rest `v` of a CommaText with `items` read, `cur` under way. */
  function ParseFrom(v: string, items: seq<string>, cur: string, inQuote: bool): seq<string>
    decreases |v|
  {
    if v == [] then if cur != "" || items != [] then items + [cur] else items
    else if v[0] == '"' && inQuote && |v| > 1 && v[1] == '"' then ParseFrom(v[2..], items, cur + "\"", inQuote)
    else if v[0] == '"' then ParseFrom(v[1..], items, cur, !inQuote)
    else if v[0] == ',' && !inQuote then ParseFrom(v[1..], items + [cur], "", inQuote)
    else ParseFrom(v[1..], items, cur + [v[0]], inQuote)
  }

  function Parsed(v: string): seq<string> { ParseFrom(v, [], "", false) }

  function TextOf(items: seq<string>): string { Join(items, "\r\n") }

  /** Every "\r\n" made "\n". */
  function Unified(s: string): string {
    if s == [] then []
    else if |s| >= 2 && s[0] == '\r' && s[1] == '\n' then "\n" + Unified(s[2..])
    else [s[0]] + Unified(s[1..])
  }

  /** The stretches between line feeds; at least one. */
  function Split(s: string): (r: seq<string>)
    ensures r != []
  {
    if s == [] then [""]
    else if s[0] == '\n' then [""] + Split(s[1..])
    else var r := Split(s[1..]); [[s[0]] + r[0]] + r[1..]
  }

  predicate EndsInFeed(s: string) { s != [] && s[|s| - 1] == '\n' }

  function TrimFeed(s: string): string { if EndsInFeed(s) then s[..|s| - 1] else s }

  function SplitLines(v: string): seq<string> {
    var u := Unified(v);
    if u == "" then [] else Split(TrimFeed(u))
  }

  // ------------------------------------------------------------- the list

  class Strings {
    var items: seq<string>

    method CommaText() returns (text: string)
      ensures text == CommaTextOf(items)
    {
      var parts: seq<string> := [];
      for i := 0 to |items|
        invariant parts == Fields(items[..i])
      {
        assert items[..i + 1][..i] == items[..i];
        parts := parts + [Field(items[i])];
      }
      assert items[..|items|] == items;
      text := Join(parts, ",");
    }

    method SetCommaText(v: string)
      modifies this
      ensures items == Parsed(v)
    {
      items := [];
      var cur, inQuote, i := "", false, 0;
      while i < |v|
        invariant i <= |v|
        invariant ParseFrom(v[i..], items, cur, inQuote) == Parsed(v)
      {
        if v[i] == '"' && inQuote && i + 1 < |v| && v[i + 1] == '"' {
          assert v[i..][2..] == v[i + 2..];
          cur := cur + "\"";
          i := i + 1;
        } else {
          assert v[i..][1..] == v[i + 1..];
          if v[i] == '"' {
            inQuote := !inQuote;
          } else if v[i] == ',' && !inQuote {
            items := items + [cur];
            cur := "";
          } else {
            cur := cur + [v[i]];
          }
        }
        i := i + 1;
      }
      assert v[i..] == [];
      if |cur| > 0 || |items| > 0 {
        items := items + [cur];
      }
    }

    /** Takes the lines of a text: with every "\r\n" made "\n" they are what
        stands between its line feeds, one at the very end left aside. */
    method SetText(v: string)
      modifies this
      ensures (items == [] <==> v == "") && NoFeeds(items)
      ensures Unified(v) == Join(items, "\n") + (if EndsInFeed(Unified(v)) then "\n" else "")
      ensures items == SplitLines(v)
    {
      items := [];
      var u := Unified(v);
      if u == "" {
        return;
      }
      if EndsInFeed(u) {
        u := u[..|u| - 1];
      }
      items := Split(u);
      hide Split, Join, Unified;
      SplitHasNoFeeds(u);
      JoinSplit(u);
    }

    /** Flips the order by swapping the ends inward. */
    method Reverse()
      modifies this
      ensures |items| == |old(items)|
      ensures forall k :: 0 <= k < |items| ==> items[k] == old(items)[|items| - 1 - k]
    {
      var i, j := 0, |items| - 1;
      while i < j
        invariant |items| == |old(items)| && 0 <= i && i + j == |items| - 1
        invariant forall k :: 0 <= k < |items| && (k < i || k > j) ==> items[k] == old(items)[|items| - 1 - k]
        invariant forall k :: i <= k <= j ==> items[k] == old(items)[k]
      {
        var a, b := items[i], items[j];
        items := items[i := b][j := a];
        i, j := i + 1, j - 1;
      }
    }
  }

  // ----------------------------------------------------------- CommaText

  lemma {:induction false} ParsePlain(item: string, rest: string, items: seq<string>, cur: string)
    requires ',' !in item && '"' !in item
    ensures ParseFrom(item + rest, items, cur, false) == ParseFrom(rest, items, cur + item, false)
    decreases |item|
  {
    if item == [] {
      assert item + rest == rest && cur + item == cur;
    } else {
      assert (item + rest)[1..] == item[1..] + rest;
      assert cur + item == cur + [item[0]] + item[1..];
      ParsePlain(item[1..], rest, items, cur + [item[0]]);
    }
  }

  lemma ParseQuoteStep(v: string, items: seq<string>, cur: string)
    ensures ParseFrom("\"\"" + v, items, cur, true) == ParseFrom(v, items, cur + "\"", true)
  {
    assert ("\"\"" + v)[2..] == v;
  }

  lemma ParseQuotedStep(c: char, v: string, items: seq<string>, cur: string)
    requires c != '"'
    ensures ParseFrom([c] + v, items, cur, true) == ParseFrom(v, items, cur + [c], true)
  {
    assert ([c] + v)[1..] == v;
  }

  lemma ParseCloseStep(v: string, items: seq<string>, cur: string)
    requires v == [] || v[0] != '"'
    ensures ParseFrom("\"" + v, items, cur, true) == ParseFrom(v, items, cur, false)
  {
    assert ("\"" + v)[1..] == v;
  }

  lemma {:induction false} ParseDoubled(item: string, rest: string, items: seq<string>, cur: string)
    requires rest == [] || rest[0] != '"'
    ensures ParseFrom(Doubled(item) + ("\"" + rest), items, cur, true) == ParseFrom(rest, items, cur + item, false)
    decreases |item|
  {
    hide ParseFrom;
    var tail := "\"" + rest;
    if item == [] {
      assert Doubled(item) + tail == tail && cur + item == cur;
      ParseCloseStep(rest, items, cur);
    } else {
      var c, more := item[0], Doubled(item[1..]) + tail;
      assert Doubled(item) + tail == (if c == '"' then "\"\"" else [c]) + more;
      if c == '"' { ParseQuoteStep(more, items, cur); } else { ParseQuotedStep(c, more, items, cur); }
      assert cur + item == cur + [c] + item[1..];
      ParseDoubled(item[1..], rest, items, cur + [c]);
    }
  }

  lemma ParseField(item: string, rest: string, items: seq<string>)
    requires rest == [] || rest[0] == ','
    ensures ParseFrom(Field(item) + rest, items, "", false) == ParseFrom(rest, items, item, false)
  {
    assert "" + item == item;
    if NeedsQuotes(item) {
      assert Field(item) + rest == "\"" + (Doubled(item) + ("\"" + rest));
      assert (Field(item) + rest)[1..] == Doubled(item) + ("\"" + rest);
      ParseDoubled(item, rest, items, "");
    } else {
      ParsePlain(item, rest, items, "");
    }
  }

  lemma {:induction false} ParseFields(xs: seq<string>, items: seq<string>)
    requires xs != []
    ensures ParseFrom(CommaTextOf(xs), items, "", false) ==
            if items == [] && xs == [""] then [] else items + xs
    decreases |xs|
  {
    assert Fields(xs)[1..] == Fields(xs[1..]);
    if |xs| == 1 {
      assert CommaTextOf(xs) == Field(xs[0]) + "";
      ParseField(xs[0], "", items);
    } else {
      var rest := "," + CommaTextOf(xs[1..]);
      assert CommaTextOf(xs) == Field(xs[0]) + rest;
      ParseField(xs[0], rest, items);
      assert rest[1..] == CommaTextOf(xs[1..]);
      ParseFields(xs[1..], items + [xs[0]]);
      assert items + [xs[0]] + xs[1..] == items + xs;
    }
  }

  /** Assigning a list's own CommaText restores it, exactly unless it holds one
      empty string and nothing else. */
  lemma CommaTextRoundTrip(xs: seq<string>)
    ensures Parsed(CommaTextOf(xs)) == xs <==> xs != [""]
  {
    if xs != [] {
      ParseFields(xs, []);
      assert [] + xs == xs;
    }
  }

  /** Items without commas, blanks and quotes stand as they are, between commas;
      any other stands between quotes. */
  lemma CommaTextForm(xs: seq<string>)
    ensures (forall i :: 0 <= i < |xs| ==> ',' !in xs[i] && ' ' !in xs[i] && '"' !in xs[i]) ==>
              CommaTextOf(xs) == Join(xs, ",")
    ensures |xs| == 1 && (',' in xs[0] || ' ' in xs[0] || '"' in xs[0]) ==>
              var text := CommaTextOf(xs); |text| >= 2 && text[0] == '"' && text[|text| - 1] == '"'
  {
    if forall i :: 0 <= i < |xs| ==> ',' !in xs[i] && ' ' !in xs[i] && '"' !in xs[i] {
      assert Fields(xs) == xs;
    }
  }

  lemma {:induction false} ParseBetween(v: string, items: seq<string>, cur: string)
    requires '"' !in v && ',' !in cur && forall i :: 0 <= i < |items| ==> ',' !in items[i]
    requires v != "" || cur != "" || items != []
    ensures var r := ParseFrom(v, items, cur, false);
            && Join(r, ",") == Join(items + [cur], ",") + v && forall i :: 0 <= i < |r| ==> ',' !in r[i]
    decreases |v|
  {
    if v == [] {
      assert Join(items + [cur], ",") + v == Join(items + [cur], ",");
    } else if v[0] == ',' {
      JoinLast(items + [cur], "", ",");
      ParseBetween(v[1..], items + [cur], "");
      assert Join(items + [cur], ",") + "," + "" + v[1..] == Join(items + [cur], ",") + v;
    } else {
      LongerLast(items, cur, [v[0]]);
      ParseBetween(v[1..], items, cur + [v[0]]);
      assert Join(items + [cur], ",") + [v[0]] + v[1..] == Join(items + [cur], ",") + v;
    }
  }

  lemma LongerLast(items: seq<string>, cur: string, more: string)
    ensures Join(items + [cur + more], ",") == Join(items + [cur], ",") + more
  {
    if items == [] {
      assert items + [cur + more] == [cur + more] && items + [cur] == [cur];
    } else {
      JoinLast(items, cur + more, ",");
      JoinLast(items, cur, ",");
    }
  }

  /** A text without quotes is read as what stands between its commas. */
  lemma PlainTextIsSplit(v: string)
    requires '"' !in v
    ensures Join(Parsed(v), ",") == v && forall i :: 0 <= i < |Parsed(v)| ==> ',' !in Parsed(v)[i]
    ensures Parsed(v) == [] <==> v == ""
  {
    if v != "" {
      ParseBetween(v, [], "");
      assert [] + [""] == [""] && "" + v == v;
    }
  }

  // ---------------------------------------------------------------- Text

  /** The text of a list is its items with a carriage return and a line feed
      between each two. */
  lemma TextForm(xs: seq<string>, x: string)
    ensures TextOf([]) == "" && TextOf([x]) == x
    ensures xs != [] ==> TextOf(xs + [x]) == TextOf(xs) + "\r\n" + x
  {
    if xs != [] { JoinLast(xs, x, "\r\n"); }
  }

  predicate NoFeeds(xs: seq<string>) { forall i :: 0 <= i < |xs| ==> '\n' !in xs[i] }

  lemma {:induction false} UnifyItem(x: string, rest: string)
    requires '\n' !in x && (rest == [] || rest[0] != '\n')
    ensures Unified(x + rest) == x + Unified(rest)
    decreases |x|
  {
    if x == [] {
      assert x + rest == rest;
    } else {
      assert (x + rest)[1..] == x[1..] + rest;
      UnifyItem(x[1..], rest);
      assert |x + rest| >= 2 ==> (x + rest)[1] == if |x| > 1 then x[1] else rest[0];
      assert [x[0]] + (x[1..] + Unified(rest)) == x + Unified(rest);
    }
  }

  lemma {:induction false} UnifyText(xs: seq<string>)
    requires NoFeeds(xs)
    ensures Unified(TextOf(xs)) == Join(xs, "\n")
    decreases |xs|
  {
    if |xs| == 1 {
      UnifyItem(xs[0], "");
      assert xs[0] + "" == xs[0];
    } else if |xs| > 1 {
      var rest := "\r\n" + TextOf(xs[1..]);
      assert TextOf(xs) == xs[0] + rest;
      UnifyItem(xs[0], rest);
      assert rest[2..] == TextOf(xs[1..]);
      UnifyText(xs[1..]);
    }
  }

  lemma {:induction false} SplitItem(x: string, rest: string)
    requires '\n' !in x
    ensures Split(x + rest) == [x + Split(rest)[0]] + Split(rest)[1..]
    decreases |x|
  {
    if x == [] {
      assert x + rest == rest && x + Split(rest)[0] == Split(rest)[0];
    } else {
      assert (x + rest)[1..] == x[1..] + rest;
      SplitItem(x[1..], rest);
      assert [x[0]] + (x[1..] + Split(rest)[0]) == x + Split(rest)[0];
    }
  }

  lemma {:induction false} SplitJoin(xs: seq<string>)
    requires NoFeeds(xs) && xs != []
    ensures Split(Join(xs, "\n")) == xs
    decreases |xs|
  {
    if |xs| == 1 {
      SplitItem(xs[0], "");
      assert xs[0] + "" == xs[0];
    } else {
      var rest := "\n" + Join(xs[1..], "\n");
      assert Join(xs, "\n") == xs[0] + rest;
      assert rest[1..] == Join(xs[1..], "\n");
      SplitItem(xs[0], rest);
      SplitJoin(xs[1..]);
      assert xs[0] + "" == xs[0];
    }
  }

  lemma {:induction false} SplitHasNoFeeds(s: string)
    ensures NoFeeds(Split(s))
  {
    if s != [] { SplitHasNoFeeds(s[1..]); }
  }

  lemma {:induction false} JoinSplit(s: string)
    ensures Join(Split(s), "\n") == s
    decreases |s|
  {
    if s != [] {
      JoinSplit(s[1..]);
      var r := Split(s[1..]);
      if s[0] == '\n' {
        assert ([""] + r)[1..] == r;
      } else {
        assert ([[s[0]] + r[0]] + r[1..])[1..] == r[1..];
        assert Join([[s[0]] + r[0]] + r[1..], "\n") == [s[0]] + Join(r, "\n");
      }
    }
  }

  lemma {:induction false} JoinLast(xs: seq<string>, x: string, sep: string)
    requires xs != []
    ensures Join(xs + [x], sep) == Join(xs, sep) + sep + x
    decreases |xs|
  {
    assert (xs + [x])[1..] == xs[1..] + [x];
    if |xs| > 1 {
      JoinLast(xs[1..], x, sep);
    } else {
      assert xs + [x] == [xs[0], x];
    }
  }

  /** Assigning a list's own Text restores it exactly if no item holds a line
      feed and the last item, if there is one, is not empty. */
  lemma TextRoundTrip(xs: seq<string>)
    ensures SplitLines(TextOf(xs)) == xs <==> NoFeeds(xs) && (xs == [] || xs[|xs| - 1] != "")
  {
    var u := Unified(TextOf(xs));
    if u != "" { SplitHasNoFeeds(TrimFeed(u)); }
    if NoFeeds(xs) && xs != [] {
      UnifyText(xs);
      var n := |xs| - 1;
      if n > 0 {
        assert xs == xs[..n] + [xs[n]];
        JoinLast(xs[..n], xs[n], "\n");
      }
      if xs[n] == "" && n > 0 {
        assert TrimFeed(u) == Join(xs[..n], "\n");
        SplitJoin(xs[..n]);
        assert |SplitLines(TextOf(xs))| == n;
      } else if xs[n] != "" {
        assert u[|u| - 1] == xs[n][|xs[n]| - 1];
        SplitJoin(xs);
      }
    }
  }
}
