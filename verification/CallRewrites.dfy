/** The passes that rewrite calls until none is left (internal/txquery/
    rewrite.go), and why each of their loops ends on every text. */
module CallRewrites {
  import opened Spaces
  import opened Scanner
  import opened CallCount
  import opened LiteralPasses
  import opened Navigation

  /** The first call to a function and its parentheses, if they close. */
  datatype Target = Nothing | Unclosed | Target(start: nat, open: nat, close: nat)

  function TargetOf(e: string, fn: string): (t: Target)
    requires fn != []
    ensures t.Nothing? <==> FindCallIn(e, fn).NoCall?
    ensures t.Target? ==> t.start + |fn| <= t.open < t.close < |e| && e[t.open] == '(' && e[t.close] == ')'
  {
    var c := FindCallIn(e, fn);
    if c.NoCall? then Nothing
    else
      BeforeFirstCall(e, fn, ' ');
      match MatchParenOf(e, c.open)
      case None => Unclosed
      case Some(close) =>
        CloseChar('(', e[c.open + 1..], 0);
        assert e[c.open..] == [e[c.open]] + e[c.open + 1..];
        ClosedInside(e[c.open..], 0);
        Target(c.start, c.open, close)
  }

  method FindTarget(e: string, fn: string) returns (t: Target)
    requires fn != []
    ensures t == TargetOf(e, fn)
  {
    var c := FindCall(e, fn);
    if c.NoCall? {
      return Nothing;
    }
    var close := MatchParen(e, c.open);
    return if close.None? then Unclosed else Target(c.start, c.open, close.value);
  }

  /** What a pass leaves of a text, and in how many rounds. */
  datatype Pass = Pass(text: string, rounds: nat)

  function Again(p: Pass): Pass { p.(rounds := p.rounds + 1) }

  lemma OneMore(rounds: nat, k: nat)
    ensures (rounds + 1) * k == rounds * k + k && (rounds + 1) * k >= 0
  {
  }

  // --------------------------------------------------------------- json()

  function JsonStep(e: string, t: Target): (r: string)
    requires t.Target? && t.start < t.close < |e|
    ensures |r| <= |e| - (t.close - t.start) + 1
  {
    hide ChainOf;
    var c := ChainOf(e[t.close + 1..]);
    e[..t.start] + c.path + e[t.close + 1 + c.length..]
  }

  /** The pass stops only where no call is left or one is not closed. */
  function JsonPass(e: string, fn: string): (p: Pass)
    requires fn != []
    ensures |p.text| <= |e|
    ensures !TargetOf(p.text, fn).Target?
    decreases |e|
  {
    hide TargetOf, JsonStep, FindCallIn;
    var t := TargetOf(e, fn);
    if !t.Target? then Pass(e, 0)
    else Again(JsonPass(JsonStep(e, t), fn))
  }

  /** Every round shortens the text by the length of the name or more. */
  lemma {:induction false} JsonRounds(e: string, fn: string)
    requires fn != []
    ensures |JsonPass(e, fn).text| + JsonPass(e, fn).rounds * |fn| <= |e|
    decreases |e|
  {
    hide TargetOf, JsonStep, FindCallIn;
    var t := TargetOf(e, fn);
    if t.Target? {
      JsonRounds(JsonStep(e, t), fn);
      OneMore(JsonPass(JsonStep(e, t), fn).rounds, |fn|);
    }
  }

  function JsonRewritten(e: string): (r: string)
    ensures |r| <= |e|
    ensures TargetOf(r, "json").Nothing? || TargetOf(r, "json").Unclosed? || TargetOf(r, "parse-json").Unclosed?
  {
    hide JsonPass, TargetOf;
    var first := JsonPass(e, "parse-json").text;
    if TargetOf(first, "parse-json").Unclosed? then first else JsonPass(first, "json").text
  }

  lemma JsonRound(e: string, fn: string)
    requires fn != []
    ensures JsonPass(e, fn).text ==
            if TargetOf(e, fn).Target? then JsonPass(JsonStep(e, TargetOf(e, fn)), fn).text else e
  {
    hide TargetOf, JsonStep, FindCallIn;
  }

  /** What a call stands for besides the document: anything but `*` and `.`
      names the expression whose result is the JSON text. */
  function Noted(source: string, arg: string): string { if arg == "*" || arg == "." then source else arg }

  function ArgOf(e: string, t: Target): string
    requires t.Target? && t.start < t.open < t.close < |e|
  {
    TrimSpace(e[t.open + 1..t.close])
  }

  /** The expression a pass notes, the last call's winning. */
  function JsonSource(e: string, fn: string, source: string): string
    requires fn != []
    decreases |e|
  {
    hide JsonStep, FindCallIn;
    var t := TargetOf(e, fn);
    if !t.Target? then source
    else JsonSource(JsonStep(e, t), fn, Noted(source, ArgOf(e, t)))
  }

  lemma SourceRound(e: string, fn: string, source: string)
    requires fn != []
    ensures JsonSource(e, fn, source) ==
            var t := TargetOf(e, fn);
            if !t.Target? then source
            else JsonSource(JsonStep(e, t), fn, Noted(source, ArgOf(e, t)))
  {
    hide TargetOf, JsonStep, FindCallIn, ArgOf;
  }

  method RewriteJsonCalls(e0: string, fn: string, json0: bool, source0: string)
    returns (e: string, closed: bool, json: bool, source: string)
    requires fn != []
    ensures e == JsonPass(e0, fn).text && closed == TargetOf(e, fn).Nothing?
    ensures json == (json0 || TargetOf(e0, fn).Target?) && source == JsonSource(e0, fn, source0)
  {
    hide TargetOf, JsonPass, JsonSource, JsonStep, FindCallIn, Noted, ArgOf;
    e, json, source := e0, json0, source0;
    ghost var any := false;
    while true
      invariant JsonPass(e, fn).text == JsonPass(e0, fn).text
      invariant JsonSource(e, fn, source) == JsonSource(e0, fn, source0)
      invariant json == (json0 || any) && if any then TargetOf(e0, fn).Target? else e == e0
      decreases |e|
    {
      var t := FindTarget(e, fn);
      JsonRound(e, fn);
      SourceRound(e, fn, source);
      if !t.Target? {
        return e, t.Nothing?, json, source;
      }
      json, any := true, true;
      source := Noted(source, ArgOf(e, t));
      e := StepOver(e, t);
    }
  }

  method StepOver(e: string, t: Target) returns (r: string)
    requires t.Target? && t.start < t.close < |e|
    ensures r == JsonStep(e, t)
  {
    hide ChainOf;
    var path, next := ConsumeChain(e, t.close + 1);
    r := e[..t.start] + path + e[next..];
  }

  /** Whether the pass finds a call at all, and the expression it notes. */
  function JsonNoted(e: string): (bool, string) {
    hide JsonPass, TargetOf, JsonSource;
    var first := JsonPass(e, "parse-json").text;
    var found, source := TargetOf(e, "parse-json").Target?, JsonSource(e, "parse-json", "");
    if TargetOf(first, "parse-json").Unclosed? then (found, source)
    else (found || TargetOf(first, "json").Target?, JsonSource(first, "json", source))
  }

  /** `rewriteJSON`. An unclosed call ends the whole pass. */
  method RewriteJson(e0: string) returns (e: string, json: bool, source: string)
    ensures e == JsonRewritten(e0) && (json, source) == JsonNoted(e0)
  {
    hide JsonPass, TargetOf, JsonSource;
    var closed;
    e, closed, json, source := RewriteJsonCalls(e0, "parse-json", false, "");
    if !closed {
      return;
    }
    e, closed, json, source := RewriteJsonCalls(e, "json", json, source);
  }

  /** json(*) is found where it stands. */
  lemma JsonCallFound(more: string)
    ensures TargetOf("json(*)" + more, "json") == Target(0, 4, 6)
  {
    var e := "json(*)" + more;
    hide CloseIn, FirstCall;
    assert e == ['j'] + ("son(*)" + more);
    CallAtChar('j', "son(*)" + more, "json", ' ');
    assert e[|"json"|..] == ['('] + ("*)" + more);
    assert Blanks(e[|"json"|..]) == 0;
    assert FindCallIn(e, "json") == Call(0, 4);
    CloseChar('(', "*)" + more, 0);
    assert "*)" + more == ['*'] + (")" + more);
    CloseChar('*', ")" + more, 1);
    CloseChar(')', more, 1);
    assert e[4..] == ['('] + ("*)" + more);
  }

  lemma AfterHead(head: string, tail: string, k: nat)
    requires k <= |tail|
    ensures (head + tail)[|head|..] == tail && (head + tail)[|head| + k..] == tail[k..]
  {
  }

  lemma JsonStepOf(head: string, chain: string, rest: string, path: string, t: Target)
    requires t.Target? && t.start == 0 && 0 < t.close && |head| == t.close + 1
    requires ChainOf(chain + rest) == Chain(path, |chain|)
    ensures JsonStep(head + (chain + rest), t) == path + rest
  {
    hide ChainOf;
    AfterHead(chain, rest, 0);
    AfterHead(head, chain + rest, |chain|);
    assert (head + (chain + rest))[..0] + path == path;
  }

  /** A round on json(*) with a chain of steps leaves the chain's location path
      and what follows the chain. */
  lemma JsonCallBecomesPath(steps: seq<Step>, rest: string)
    requires (forall i :: 0 <= i < |steps| ==> Written(steps[i])) && Ends(rest)
    ensures var e := "json(*)" + (ChainText(steps) + rest);
            && TargetOf(e, "json") == Target(0, 4, 6)
            && JsonStep(e, TargetOf(e, "json")) == (if steps == [] then "/" else PathsText(steps)) + rest
  {
    hide TargetOf, FindCallIn, ChainOf, ChainText, PathsText, JsonStep, Written, Ends;
    JsonCallFound(ChainText(steps) + rest);
    ChainBecomesPath(steps, rest);
    JsonStepOf("json(*)", ChainText(steps), rest, if steps == [] then "/" else PathsText(steps), Target(0, 4, 6));
  }

  // ------------------------------------------------------- first arguments

  /** The call replaced by its first argument between two texts. */
  function WrapStep(e: string, t: Target, before: string, after: string): (r: string)
    requires t.Target? && t.start < t.open < t.close < |e|
    ensures |r| <= |e| - (t.open - t.start + 2) + |before| + |after|
  {
    hide ArgsFrom;
    var inner := e[t.open + 1..t.close];
    ArgsFit(inner, "", 0);
    e[..t.start] + before + Args(inner)[0] + after + e[t.close + 1..]
  }

  /** Ends because what is put around the argument is shorter than the name and
      its parentheses. */
  function WrapPass(e: string, fn: string, before: string, after: string): (p: Pass)
    requires fn != [] && |before| + |after| < |fn| + 2
    ensures |p.text| <= |e|
    ensures !TargetOf(p.text, fn).Target?
    decreases |e|
  {
    hide TargetOf, WrapStep, FindCallIn;
    var t := TargetOf(e, fn);
    if !t.Target? then Pass(e, 0)
    else Again(WrapPass(WrapStep(e, t, before, after), fn, before, after))
  }

  /** Every round shortens the text by what is saved around the argument. */
  lemma {:induction false} WrapRounds(e: string, fn: string, before: string, after: string)
    requires fn != [] && |before| + |after| < |fn| + 2
    ensures var p := WrapPass(e, fn, before, after); |p.text| + p.rounds * (|fn| + 2 - |before| - |after|) <= |e|
    decreases |e|
  {
    hide TargetOf, WrapStep, FindCallIn;
    var t := TargetOf(e, fn);
    if t.Target? {
      var next := WrapStep(e, t, before, after);
      WrapRounds(next, fn, before, after);
      OneMore(WrapPass(next, fn, before, after).rounds, |fn| + 2 - |before| - |after|);
    }
  }

  lemma WrapRound(e: string, fn: string, before: string, after: string)
    requires fn != [] && |before| + |after| < |fn| + 2
    ensures var t := TargetOf(e, fn);
            WrapPass(e, fn, before, after).text ==
            if t.Target? then WrapPass(WrapStep(e, t, before, after), fn, before, after).text else e
  {
    hide TargetOf, WrapStep, FindCallIn;
  }

  /** A call gives way to its first argument in parentheses; one round, and all. */
  function UnwrapStep(e: string, t: Target): (r: string)
    requires t.Target? && t.start < t.open < t.close < |e|
    ensures |r| <= |e| - (t.open - t.start)
  {
    hide WrapStep;
    WrapStep(e, t, "(", ")")
  }

  function Unwrapped(e: string, fn: string): string
    requires fn != []
  {
    WrapPass(e, fn, "(", ")").text
  }

  /** The arguments after the first, if there are any. */
  function RestOf(e: string, t: Target): seq<seq<string>>
    requires t.Target? && t.start < t.open < t.close < |e|
  {
    var args := Args(e[t.open + 1..t.close]);
    if |args| > 1 then [args[1..]] else []
  }

  function RestArgs(e: string, fn: string): seq<seq<string>>
    requires fn != []
    decreases |e|
  {
    hide UnwrapStep, FindCallIn;
    var t := TargetOf(e, fn);
    if !t.Target? then [] else RestOf(e, t) + RestArgs(UnwrapStep(e, t), fn)
  }

  lemma UnwrapRound(e: string, fn: string, kept: seq<seq<string>>)
    requires fn != []
    ensures var t := TargetOf(e, fn);
            && (t.Target? ==> Unwrapped(e, fn) == Unwrapped(UnwrapStep(e, t), fn))
            && (!t.Target? ==> Unwrapped(e, fn) == e)
            && (t.Target? ==> kept + RestArgs(e, fn) == kept + RestOf(e, t) + RestArgs(UnwrapStep(e, t), fn))
            && (!t.Target? ==> RestArgs(e, fn) == [])
  {
    hide TargetOf, WrapPass, WrapStep, FindCallIn, RestOf;
    WrapRound(e, fn, "(", ")");
  }

  /** One round of unwrapping, and what it keeps. */
  method Unwrap(e: string, t: Target) returns (r: string, rest: seq<seq<string>>)
    requires t.Target? && t.start < t.open < t.close < |e|
    ensures r == UnwrapStep(e, t) && rest == RestOf(e, t)
  {
    hide Args;
    var args := SplitArgs(e[t.open + 1..t.close]);
    rest := if |args| > 1 then [args[1..]] else [];
    r := e[..t.start] + "(" + args[0] + ")" + e[t.close + 1..];
  }

  /** `unwrapCall`: the call gives way to its first argument in parentheses, and
      the rest are handed over if anyone keeps them. */
  method UnwrapCall(e0: string, fn: string, keep: bool) returns (e: string, flag: bool, kept: seq<seq<string>>)
    requires fn != []
    ensures e == Unwrapped(e0, fn) && flag == TargetOf(e0, fn).Target?
    ensures kept == if keep then RestArgs(e0, fn) else []
  {
    hide TargetOf, FindCallIn, Unwrapped, UnwrapStep, RestArgs, RestOf;
    e, flag, kept := e0, false, [];
    assert [] + RestArgs(e0, fn) == RestArgs(e0, fn);
    while true
      invariant Unwrapped(e, fn) == Unwrapped(e0, fn)
      invariant if flag then TargetOf(e0, fn).Target? else e == e0
      invariant if keep then kept + RestArgs(e, fn) == RestArgs(e0, fn) else kept == []
      decreases |e|
    {
      var t := FindTarget(e, fn);
      UnwrapRound(e, fn, kept);
      if !t.Target? {
        return;
      }
      var rest;
      e, rest := Unwrap(e, t);
      flag := true;
      if keep {
        kept := kept + rest;
      }
    }
  }

  const JSON_FNS := ["jn:members", "jn:keys", "members", "keys"]

  function JsonFnsRewritten(e: string, fns: seq<string>): (r: string)
    requires forall i :: 0 <= i < |fns| ==> |fns[i]| > 2
    ensures |r| <= |e|
    ensures fns != [] ==> !TargetOf(r, fns[|fns| - 1]).Target?
  {
    hide WrapPass, TargetOf;
    if fns == [] then e
    else WrapPass(JsonFnsRewritten(e, fns[..|fns| - 1]), fns[|fns| - 1], "(", ")/*").text
  }

  /** `rewriteJSONFns`. An unclosed call ends the loop over that name only. */
  method RewriteJsonFns(e0: string) returns (e: string)
    ensures e == JsonFnsRewritten(e0, JSON_FNS)
  {
    hide TargetOf, Args, WrapPass, FindCallIn;
    e := e0;
    for n := 0 to |JSON_FNS|
      invariant e == JsonFnsRewritten(e0, JSON_FNS[..n])
    {
      var fn := JSON_FNS[n];
      assert JSON_FNS[..n + 1][..n] == JSON_FNS[..n];
      ghost var start := e;
      while true
        invariant WrapPass(e, fn, "(", ")/*").text == WrapPass(start, fn, "(", ")/*").text
        decreases |e|
      {
        var t := FindTarget(e, fn);
        WrapRound(e, fn, "(", ")/*");
        if !t.Target? {
          break;
        }
        var args := SplitArgs(e[t.open + 1..t.close]);
        var r := e[..t.start] + "(" + args[0] + ")/*" + e[t.close + 1..];
        assert r == WrapStep(e, t, "(", ")/*");
        e := r;
      }
    }
    assert JSON_FNS[..|JSON_FNS|] == JSON_FNS;
  }

  // ------------------------------------------------------------------ case

  const UPPER := "ABCDEFGHIJKLMNOPQRSTUVWXYZ"
  const LOWER := "abcdefghijklmnopqrstuvwxyz"

  /** Where a character first stands in an alphabet; its length if nowhere. */
  function IndexIn(c: char, alphabet: string): (i: nat)
    ensures i <= |alphabet| && (i < |alphabet| ==> alphabet[i] == c)
    ensures forall k :: 0 <= k < i ==> alphabet[k] != c
  {
    if alphabet == "" || alphabet[0] == c then 0 else 1 + IndexIn(c, alphabet[1..])
  }

  /** translate() as XPath has it (section 4.2 of XPath 1.0). */
  function Translate(s: string, from: string, to: string): string {
    if s == "" then "" else TranslateChar(s[0], from, to) + Translate(s[1..], from, to)
  }

  function TranslateChar(c: char, from: string, to: string): string {
    var i := IndexIn(c, from);
    if i == |from| then [c] else if i < |to| then [to[i]] else []
  }

  function UpperChar(c: char): char { if 'a' <= c <= 'z' then c - 'a' + 'A' else c }

  lemma Alphabet(i: nat)
    requires i < 26
    ensures |UPPER| == |LOWER| == 26 && UPPER[i] == 'A' + i as char && LOWER[i] == 'a' + i as char
  {
  }

  lemma LetterIndex(c: char)
    ensures IndexIn(c, UPPER) == if 'A' <= c <= 'Z' then (c - 'A') as int else 26
    ensures IndexIn(c, LOWER) == if 'a' <= c <= 'z' then (c - 'a') as int else 26
  {
    hide IndexIn;
    if IndexIn(c, UPPER) < 26 { Alphabet(IndexIn(c, UPPER)); }
    if IndexIn(c, LOWER) < 26 { Alphabet(IndexIn(c, LOWER)); }
    if 'A' <= c <= 'Z' { Alphabet((c - 'A') as int); }
    if 'a' <= c <= 'z' { Alphabet((c - 'a') as int); }
  }

  lemma CharChangesCase(c: char)
    ensures TranslateChar(c, UPPER, LOWER) == [LowerChar(c)] && TranslateChar(c, LOWER, UPPER) == [UpperChar(c)]
  {
    LetterIndex(c);
    hide IndexIn;
    if 'A' <= c <= 'Z' { Alphabet((c - 'A') as int); }
    if 'a' <= c <= 'z' { Alphabet((c - 'a') as int); }
  }

  /** What the calls are replaced by means what the calls mean, on letters. */
  lemma {:induction false} TranslateChangesCase(s: string, i: nat)
    requires i < |s|
    ensures |Translate(s, UPPER, LOWER)| == |Translate(s, LOWER, UPPER)| == |s|
    ensures Translate(s, UPPER, LOWER)[i] == LowerChar(s[i])
    ensures Translate(s, LOWER, UPPER)[i] == UpperChar(s[i])
    decreases |s|
  {
    CharChangesCase(s[0]);
    hide TranslateChar, LowerChar, UpperChar;
    if |s| > 1 { TranslateChangesCase(s[1..], if i == 0 then 0 else i - 1); }
  }

  /** A name no call to which can hide in what a call is replaced by. */
  predicate Clear(fn: string) {
    fn != [] && forall i :: 0 <= i < |fn| ==> !IsQuote(fn[i]) && fn[i] !in " (,)t"
  }

  predicate Unquoted(x: string) { forall i :: 0 <= i < |x| ==> x[i] != '\'' }

  function Alphabets(from: string, to: string): string { ",'" + from + "','" + to + "')" }

  function CaseStep(e: string, t: Target, from: string, to: string): string
    requires t.Target? && t.start < t.open < t.close < |e|
  {
    WrapStep(e, t, "translate(", Alphabets(from, to))
  }

  /** What is put in the place of a call counts as its argument does. */
  lemma TranslateCounts(arg: string, rest: string, from: string, to: string, fn: string, prev: char)
    requires Clear(fn) && Closed(arg) && Unquoted(from) && Unquoted(to)
    ensures Calls("translate(" + (arg + (Alphabets(from, to) + rest)), fn, prev) ==
            Calls(arg, fn, '(') + Calls(rest, fn, ')')
  {
    hide Calls, CallsAt, Closed, IsLiteral, LiteralLength;
    var tail := Alphabets(from, to) + rest;
    NameSkipped("translate(", arg + tail, fn, prev);
    assert tail[0] == ',';
    CallsAdd(arg, tail, fn, '(');
    AlphabetsCount(from, to, rest, fn, Last(arg, '('));
  }

  lemma AlphabetsCount(from: string, to: string, rest: string, fn: string, prev: char)
    requires Clear(fn) && Unquoted(from) && Unquoted(to)
    ensures Calls(Alphabets(from, to) + rest, fn, prev) == Calls(rest, fn, ')')
  {
    hide Calls, CallsAt, IsLiteral, LiteralLength;
    var second := "'" + to + "'";
    var first := "'" + from + "'";
    var a := ")" + rest;
    var b := second + a;
    var c := "," + b;
    var d := first + c;
    assert Alphabets(from, to) + rest == "," + d;
    NameSkipped(",", d, fn, prev);
    QuotedIsLiteral(from, c);
    CountLiteral(first, c, fn, ',');
    NameSkipped(",", b, fn, '\'');
    QuotedIsLiteral(to, a);
    CountLiteral(second, a, fn, ',');
    NameSkipped(")", rest, fn, '\'');
  }

  /** What stands after the opening parenthesis of a call. */
  function Closing(inner: string, rest: string): string { inner + (")" + rest) }

  /** What stands in the text once the call has been replaced. */
  function Translated(head: string, arg: string, rest: string, from: string, to: string): string {
    head + ("translate(" + (arg + (Alphabets(from, to) + rest)))
  }

  /** A call counts one more than its first argument and what follows it. */
  lemma CallCounts(inner: string, rest: string, fn: string)
    requires Clear(fn) && Closed(inner)
    ensures var arg := Args(inner)[0];
            && Closed(arg)
            && Calls(Closing(inner, rest), fn, '(') >= Calls(arg, fn, '(') + Calls(rest, fn, ')')
  {
    hide Calls, CallsAt, Closed, ArgsFrom, FirstArgument, TrimSpace;
    var k := FirstArgument(inner, 0);
    FirstArgumentCut(inner, "", 0);
    var a, d, after := inner[..k], inner[k..], ")" + rest;
    assert "" + a == a;
    assert inner + after == a + (d + after);
    CallsAdd(a, d + after, fn, '(');
    CallsAdd(d, after, fn, Last(a, '('));
    CallsDrop(")", rest, fn, Last(d, Last(a, '(')));
    Trimmed(a, fn);
  }

  lemma CallIsPlain(e: string, fn: string, c: Call)
    requires Clear(fn) && c.Call? && c.start < |e|
    requires CallsAt(e[c.start..], fn) && c.open == c.start + OpenOf(e[c.start..], fn)
    ensures c.start < c.open < |e| && e[c.open] == '('
    ensures forall i :: c.start <= i <= c.open ==> !IsQuote(e[i])
  {
    var s := e[c.start..];
    forall i | c.start <= i <= c.open ensures !IsQuote(e[i]) {
      if i < c.start + |fn| {
        assert e[i] == s[i - c.start] == fn[i - c.start];
      } else if i < c.open {
        assert e[i] == s[|fn|..][i - c.start - |fn|] == ' ';
      }
    }
  }

  /** The text in the parentheses of a call is closed. */
  predicate Within(e: string, t: Target)
    requires t.Target? && t.start < t.open < t.close < |e|
  {
    var inner := e[t.open + 1..t.close];
    Closed(inner) && e[t.open + 1..] == Closing(inner, e[t.close + 1..])
  }

  lemma InsideCall(e: string, fn: string)
    requires fn != [] && TargetOf(e, fn).Target?
    ensures Within(e, TargetOf(e, fn))
  {
    hide Closed, FirstCall, CloseIn;
    var t := TargetOf(e, fn);
    assert e[t.open..] == ['('] + e[t.open + 1..];
    CloseChar('(', e[t.open + 1..], 0);
    ClosedInside(e[t.open + 1..], 1);
    assert e[t.open + 1..][..t.close - t.open - 1] == e[t.open + 1..t.close];
  }

  /** The text before the first call is closed and holds none; the call itself
      counts one. */
  predicate Ahead(e: string, t: Target, fn: string)
    requires t.Target? && t.start < t.open < t.close < |e|
  {
    && Closed(e[..t.start]) && Calls(e[..t.start], fn, ' ') == 0
    && Calls(e, fn, ' ') > Calls(e[t.open + 1..], fn, '(')
  }

  lemma BeforeCall(e: string, fn: string)
    requires Clear(fn) && TargetOf(e, fn).Target?
    ensures Ahead(e, TargetOf(e, fn), fn)
  {
    hide Calls, CallsAt, Closed, FirstCall, CloseIn, OpenOf;
    var t := TargetOf(e, fn);
    BeforeFirstCall(e, fn, ' ');
    CallIsPlain(e, fn, FindCallIn(e, fn));
    var mid := e[t.start + 1..t.open + 1];
    assert e[t.start + 1..] == mid + e[t.open + 1..];
    assert forall i :: 0 <= i < |mid| ==> mid[i] == e[t.start + 1 + i];
    CallsDrop(mid, e[t.open + 1..], fn, e[t.start]);
    assert Last(mid, e[t.start]) == e[t.open];
  }

  lemma StepParts(e: string, t: Target, from: string, to: string)
    requires t.Target? && t.start < t.open < t.close < |e|
    ensures CaseStep(e, t, from, to) ==
            Translated(e[..t.start], Args(e[t.open + 1..t.close])[0], e[t.close + 1..], from, to)
  {
    hide Args, Alphabets;
    var head, word, arg := e[..t.start], "translate(", Args(e[t.open + 1..t.close])[0];
    var after, rest := Alphabets(from, to), e[t.close + 1..];
    Append(head + word + arg, after, rest);
    Append(head + word, arg, after + rest);
    Append(head, word, arg + (after + rest));
  }

  lemma ReplacedCounts(head: string, arg: string, rest: string, from: string, to: string, fn: string)
    requires Clear(fn) && Unquoted(from) && Unquoted(to) && Closed(head) && Closed(arg)
    ensures Calls(Translated(head, arg, rest, from, to), fn, ' ') ==
            Calls(head, fn, ' ') + Calls(arg, fn, '(') + Calls(rest, fn, ')')
  {
    hide Calls, Closed, Alphabets, Clear, Unquoted, Stops;
    var tail := "translate(" + (arg + (Alphabets(from, to) + rest));
    TranslateCounts(arg, rest, from, to, fn, Last(head, ' '));
    TailStops(tail, fn);
    CallsAdd(head, tail, fn, ' ');
  }

  /** A text counts more calls than the first argument of its first call and
      what stands after that call. */
  predicate Worth(e: string, t: Target, fn: string)
    requires t.Target? && t.start < t.open < t.close < |e|
  {
    var arg := Args(e[t.open + 1..t.close])[0];
    && Closed(e[..t.start]) && Calls(e[..t.start], fn, ' ') == 0 && Closed(arg)
    && Calls(e, fn, ' ') > Calls(arg, fn, '(') + Calls(e[t.close + 1..], fn, ')')
  }

  lemma WorthOf(e: string, t: Target, fn: string)
    requires Clear(fn) && t.Target? && t.start < t.open < t.close < |e| && Ahead(e, t, fn) && Within(e, t)
    ensures Worth(e, t, fn)
  {
    hide Calls, Closed, Args, Clear, Closing;
    CallCounts(e[t.open + 1..t.close], e[t.close + 1..], fn);
  }

  lemma CallInText(e: string, fn: string)
    requires Clear(fn) && TargetOf(e, fn).Target?
    ensures Worth(e, TargetOf(e, fn), fn)
  {
    assert fn != [];
    hide TargetOf, FindCallIn, Clear, Within, Ahead, Worth;
    BeforeCall(e, fn);
    InsideCall(e, fn);
    WorthOf(e, TargetOf(e, fn), fn);
  }

  lemma WorthLess(e: string, t: Target, fn: string, from: string, to: string)
    requires Clear(fn) && Unquoted(from) && Unquoted(to)
    requires t.Target? && t.start < t.open < t.close < |e| && Worth(e, t, fn)
    ensures Calls(CaseStep(e, t, from, to), fn, ' ') < Calls(e, fn, ' ')
  {
    hide Calls, Closed, Args, CaseStep, Translated, Clear, Unquoted;
    ReplacedCounts(e[..t.start], Args(e[t.open + 1..t.close])[0], e[t.close + 1..], from, to, fn);
    StepParts(e, t, from, to);
  }

  /** Each round of the case pass leaves fewer calls than it found, though the
      text grows. */
  lemma CaseStepCounts(e: string, fn: string, from: string, to: string)
    requires Clear(fn) && Unquoted(from) && Unquoted(to) && TargetOf(e, fn).Target?
    ensures Calls(CaseStep(e, TargetOf(e, fn), from, to), fn, ' ') < Calls(e, fn, ' ')
  {
    assert fn != [];
    hide Calls, TargetOf, FindCallIn, CaseStep, Clear, Unquoted, Worth;
    CallInText(e, fn);
    WorthLess(e, TargetOf(e, fn), fn, from, to);
  }

  lemma TailStops(tail: string, fn: string)
    requires Clear(fn) && tail != [] && tail[0] == 't'
    ensures Stops(tail[0], fn)
  {
  }

  /** The case pass runs at most as many rounds as there are calls. */
  function CasePass(e: string, fn: string, from: string, to: string): (p: Pass)
    requires Clear(fn) && Unquoted(from) && Unquoted(to)
    ensures p.rounds + Calls(p.text, fn, ' ') <= Calls(e, fn, ' ')
    ensures !TargetOf(p.text, fn).Target?
    decreases Calls(e, fn, ' ')
  {
    hide TargetOf, CaseStep, Calls;
    var t := TargetOf(e, fn);
    if !t.Target? then Pass(e, 0)
    else
      CaseStepCounts(e, fn, from, to);
      Again(CasePass(CaseStep(e, t, from, to), fn, from, to))
  }

  function CaseRewritten(e: string): string {
    hide CasePass;
    CasePass(CasePass(e, "lower-case", UPPER, LOWER).text, "upper-case", LOWER, UPPER).text
  }

  lemma CaseRound(e: string, fn: string, from: string, to: string)
    requires Clear(fn) && Unquoted(from) && Unquoted(to)
    ensures CasePass(e, fn, from, to).text ==
            if TargetOf(e, fn).Target? then CasePass(CaseStep(e, TargetOf(e, fn), from, to), fn, from, to).text else e
  {
    hide TargetOf, CaseStep;
  }

  method RewriteCaseCalls(e0: string, fn: string, from: string, to: string) returns (e: string)
    requires Clear(fn) && Unquoted(from) && Unquoted(to)
    ensures e == CasePass(e0, fn, from, to).text
  {
    hide TargetOf, Args, Calls, CasePass, Alphabets;
    e := e0;
    while true
      invariant CasePass(e, fn, from, to).text == CasePass(e0, fn, from, to).text
      decreases Calls(e, fn, ' ')
    {
      var t := FindTarget(e, fn);
      CaseRound(e, fn, from, to);
      if !t.Target? {
        return;
      }
      var args := SplitArgs(e[t.open + 1..t.close]);
      var r := e[..t.start] + "translate(" + args[0] + Alphabets(from, to) + e[t.close + 1..];
      assert r == CaseStep(e, t, from, to);
      CaseStepCounts(e, fn, from, to);
      e := r;
    }
  }

  /** `rewriteCase`. */
  method RewriteCase(e0: string) returns (e: string)
    ensures e == CaseRewritten(e0)
  {
    hide CasePass;
    e := RewriteCaseCalls(e0, "lower-case", UPPER, LOWER);
    e := RewriteCaseCalls(e, "upper-case", LOWER, UPPER);
  }
}
