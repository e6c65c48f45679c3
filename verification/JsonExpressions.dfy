/** What the passes make of a whole expression json(*) with suffixes and then
    lookups (internal/txquery/rewrite.go), and exactly when the text they leave
    selects what the expression means. */
module JsonExpressions {
  import opened Options
  import opened Spaces
  import opened Scanner
  import opened CallCount
  import opened LiteralPasses
  import opened JsonTree
  import opened Navigation
  import opened CallRewrites
  import opened JsonSuffixes

  const PARSE := "parse-json"

  /** json(*), a chain of suffixes, and a chain of lookups. */
  function Expression(chain: seq<Step>, lookups: seq<Step>): string {
    "json(*)" + (ChainText(chain) + LookupsText(lookups))
  }

  predicate AllWritten(steps: seq<Step>) { forall i :: 0 <= i < |steps| ==> Written(steps[i]) }

  /** A key "parse-json" with a parenthesis right after it reads as a call. */
  predicate MisreadAt(chain: seq<Step>, i: nat) {
    i + 1 < |chain| && chain[i] == Key(PARSE) && !chain[i + 1].Key?
  }

  predicate Misread(chain: seq<Step>) { exists i :: 0 <= i < |chain| && MisreadAt(chain, i) }

  // ------------------------------------------------------------ no calls

  lemma {:induction false} NoParenNoCall(s: string, fn: string, prev: char)
    requires fn != [] && '(' !in s
    ensures FirstCall(s, fn, prev) == NoCall
    decreases |s|
  {
    if s != [] {
      if IsQuote(s[0]) {
        NoParenNoCall(s[LiteralLength(s)..], fn, s[LiteralLength(s) - 1]);
      } else {
        NoParenNoCall(s[1..], fn, s[0]);
      }
    }
  }

  lemma NoParenNoTarget(s: string, fn: string)
    requires fn != [] && '(' !in s
    ensures TargetOf(s, fn).Nothing?
  {
    NoParenNoCall(s, fn, ' ');
  }

  /** A character that cannot begin a call. */
  predicate InertAt(p: string, fn: string, prev: char, i: nat)
    requires fn != [] && i < |p|
  {
    !IsQuote(p[i]) && (p[i] != fn[0] || Continues(if i == 0 then prev else p[i - 1]))
  }

  predicate Inert(p: string, fn: string, prev: char)
    requires fn != []
  {
    forall i :: 0 <= i < |p| ==> InertAt(p, fn, prev, i)
  }

  lemma InertTail(p: string, fn: string, prev: char)
    requires fn != [] && p != [] && Inert(p, fn, prev)
    ensures Inert(p[1..], fn, p[0]) && Last(p[1..], p[0]) == Last(p, prev)
  {
    forall i | 0 <= i < |p[1..]| ensures InertAt(p[1..], fn, p[0], i) {
      assert InertAt(p, fn, prev, i + 1);
    }
  }

  lemma {:induction false} InertNoCall(p: string, rest: string, fn: string, prev: char)
    requires fn != [] && Inert(p, fn, prev)
    ensures FirstCall(p + rest, fn, prev) == CallShifted(FirstCall(rest, fn, Last(p, prev)), |p|)
    decreases |p|
  {
    hide FirstCall, CallsAt;
    if p == [] {
      assert p + rest == rest;
    } else {
      var tail := p[1..];
      assert InertAt(p, fn, prev, 0);
      InertTail(p, fn, prev);
      hide Inert, InertAt, Last;
      assert p + rest == [p[0]] + (tail + rest);
      CallAtChar(p[0], tail + rest, fn, prev);
      if CallsAt([p[0]] + (tail + rest), fn) { StartsWith([p[0]] + (tail + rest), fn); }
      InertNoCall(tail, rest, fn, p[0]);
    }
  }

  lemma StartsWith(s: string, fn: string)
    requires fn != [] && CallsAt(s, fn)
    ensures s[0] == fn[0]
  {
  }

  predicate KeyText(s: string) { forall i :: 0 <= i < |s| ==> IsKeyChar(s[i]) }

  /** What follows does not go on with a key, nor with a blank. */
  predicate Breaks(more: string) { more == [] || (!IsKeyChar(more[0]) && more[0] != ' ') }

  /** A key is a call to `fn` only if it is that name and a parenthesis follows. */
  lemma KeyIsNoCall(name: string, more: string, fn: string)
    requires fn != [] && KeyText(fn)
    requires KeyText(name) && Breaks(more)
    requires name == fn ==> more == [] || more[0] != '('
    ensures !CallsAt(name + more, fn)
  {
    var s := name + more;
    if |fn| > |name| {
      NotThatLong(name, more, fn);
    } else if fn <= s {
      if |fn| < |name| {
        assert s[|fn|..][0] == name[|fn|];
      } else {
        assert fn == name && s[|fn|..] == more;
      }
      assert OpenOf(s, fn) == |fn|;
    }
  }

  lemma NotThatLong(name: string, more: string, fn: string)
    requires |fn| > |name| && Breaks(more) && KeyText(fn)
    ensures !(fn <= name + more)
  {
    if more != [] { assert IsKeyChar(fn[|name|]) && (name + more)[|name|] == more[0]; }
  }

  /** After its first character a key is inert: each has a name character before. */
  lemma KeyTailInert(name: string, fn: string)
    requires fn != [] && name != [] && KeyText(name)
    ensures Inert(name[1..], fn, name[0]) && !IsQuote(name[0])
  {
    var tail := name[1..];
    forall i | 0 <= i < |tail| ensures InertAt(tail, fn, name[0], i) {
      assert IsKeyChar(name[i]) && IsKeyChar(name[i + 1]) && tail[i] == name[i + 1];
      if i > 0 { assert tail[i - 1] == name[i]; }
    }
  }

  lemma KeyNoCall(name: string, more: string, fn: string, prev: char)
    requires fn != [] && KeyText(fn)
    requires name != [] && KeyText(name) && Breaks(more)
    requires name == fn ==> more == [] || more[0] != '('
    ensures FirstCall(name + more, fn, prev) == CallShifted(FirstCall(more, fn, Last(name, prev)), |name|)
  {
    hide FirstCall, CallsAt, KeyText, Breaks;
    var tail := name[1..];
    KeyIsNoCall(name, more, fn);
    KeyTailInert(name, fn);
    assert Last(tail, name[0]) == Last(name, prev);
    hide Inert, Last;
    assert name + more == [name[0]] + (tail + more);
    CallAtChar(name[0], tail + more, fn, prev);
    InertNoCall(tail, more, fn, name[0]);
  }

  lemma StepNoCall(s: Step, more: string, prev: char)
    requires Written(s) && Breaks(more)
    requires s == Key(PARSE) ==> more == [] || more[0] != '('
    ensures FirstCall(SuffixText(s) + more, PARSE, prev) ==
            CallShifted(FirstCall(more, PARSE, Last(SuffixText(s), prev)), |SuffixText(s)|)
  {
    hide FirstCall, Decimal;
    match s
    case Key(name) =>
      assert KeyText(PARSE) && KeyText(name);
      InertNoCall(".", name + more, PARSE, prev);
      assert "." + (name + more) == "." + name + more;
      KeyNoCall(name, more, PARSE, '.');
    case All => InertNoCall("()", more, PARSE, prev);
    case Index(n) =>
      DecimalIsDigits(n);
      InertNoCall(SuffixText(s), more, PARSE, prev);
  }

  lemma {:induction false} ChainNoCall(steps: seq<Step>, more: string, prev: char)
    requires AllWritten(steps) && !Misread(steps) && Breaks(more)
    requires steps != [] && steps[|steps| - 1] == Key(PARSE) ==> more == [] || more[0] != '('
    ensures FirstCall(ChainText(steps) + more, PARSE, prev) ==
            CallShifted(FirstCall(more, PARSE, Last(ChainText(steps), prev)), |ChainText(steps)|)
    decreases |steps|
  {
    hide FirstCall, Misread, MisreadAt, SuffixText;
    if steps == [] {
      assert ChainText(steps) + more == more;
    } else {
      var rest := steps[1..];
      var after := ChainText(rest) + more;
      AfterStep(steps, more);
      NotMisreadAfter(steps);
      StepNoCall(steps[0], after, prev);
      ChainNoCall(rest, more, Last(SuffixText(steps[0]), prev));
      Append(SuffixText(steps[0]), ChainText(rest), more);
      LastJoins(SuffixText(steps[0]), ChainText(rest), prev);
    }
  }

  lemma LastJoins(a: string, b: string, prev: char)
    ensures Last(a + b, prev) == Last(b, Last(a, prev))
  {
  }

  /** What follows a step of a chain. */
  lemma AfterStep(steps: seq<Step>, more: string)
    requires steps != [] && !Misread(steps) && Breaks(more)
    requires steps[|steps| - 1] == Key(PARSE) ==> more == [] || more[0] != '('
    ensures var after := ChainText(steps[1..]) + more;
            && Breaks(after)
            && (steps[0] == Key(PARSE) ==> after == [] || after[0] != '(')
  {
    var rest := steps[1..];
    assert !MisreadAt(steps, 0);
    if rest == [] {
      assert ChainText(rest) + more == more;
    } else {
      var first := SuffixText(rest[0]);
      assert first[0] == if rest[0].Key? then '.' else '(';
      assert (ChainText(rest) + more)[0] == first[0];
    }
  }

  lemma NotMisreadAfter(steps: seq<Step>)
    requires steps != [] && !Misread(steps)
    ensures !Misread(steps[1..])
  {
    forall i | 0 <= i < |steps[1..]| ensures !MisreadAt(steps[1..], i) {
      assert !MisreadAt(steps, i + 1);
    }
  }

  // -------------------------------------------------------- the whole pass

  /** Text after a chain that is not read as more of it and holds no call. */
  predicate Plain(rest: string) { Ends(rest) && '(' !in rest && (rest == [] || rest[0] != ' ') }

  lemma PlainStart(rest: string)
    requires Plain(rest)
    ensures Breaks(rest) && (rest == [] || rest[0] != '(')
  {
  }

  function PathOf(chain: seq<Step>): string { if chain == [] then "/" else PathsText(chain) }

  lemma StepHasNone(s: Step)
    requires Written(s)
    ensures '(' !in PathText(s) && '.' !in PathText(s) && '(' !in LookupText(s) && '.' !in LookupText(s)
  {
    if s.Index? { DecimalIsDigits(s.n); }
  }

  lemma {:induction false} PathsHaveNone(steps: seq<Step>)
    requires AllWritten(steps)
    ensures '(' !in PathsText(steps) && '.' !in PathsText(steps)
    decreases |steps|
  {
    if steps != [] {
      assert AllWritten(steps[1..]);
      StepHasNone(steps[0]);
      hide PathText, Written;
      PathsHaveNone(steps[1..]);
    }
  }

  lemma {:induction false} LookupsHaveNone(steps: seq<Step>)
    requires AllWritten(steps)
    ensures '(' !in LookupsText(steps) && '.' !in LookupsText(steps)
    decreases |steps|
  {
    if steps != [] {
      assert AllWritten(steps[1..]);
      StepHasNone(steps[0]);
      hide LookupText, Written;
      LookupsHaveNone(steps[1..]);
    }
  }

  lemma LookupsArePlain(lookups: seq<Step>)
    requires AllWritten(lookups)
    ensures Plain(LookupsText(lookups))
  {
    LookupsHaveNone(lookups);
    LookupsEnd(lookups);
    if lookups != [] { assert LookupText(lookups[0])[0] == '?'; }
  }

  /** No call to parse-json is found before the chain's end. */
  lemma HeadNoCall(chain: seq<Step>, more: string)
    requires AllWritten(chain) && !Misread(chain) && Breaks(more)
    requires chain != [] && chain[|chain| - 1] == Key(PARSE) ==> more == [] || more[0] != '('
    ensures FindCallIn("json(*)" + (ChainText(chain) + more), PARSE) ==
            CallShifted(FirstCall(more, PARSE, Last(ChainText(chain), ')')), 7 + |ChainText(chain)|)
  {
    JsonIsInert();
    hide FirstCall, ChainText, Inert, Last, Misread, AllWritten, Breaks;
    InertNoCall("json(*)", ChainText(chain) + more, PARSE, ' ');
    ChainNoCall(chain, more, ')');
  }

  lemma JsonIsInert()
    ensures Inert("json(*)", PARSE, ' ') && Last("json(*)", ' ') == ')'
  {
  }

  lemma PassDone(e: string, fn: string)
    requires fn != [] && TargetOf(e, fn).Nothing?
    ensures JsonPass(e, fn).text == e
  {
    hide TargetOf;
  }

  /** With no key misread, the whole pass writes the chain's path. */
  lemma PassWritesPath(chain: seq<Step>, rest: string)
    requires AllWritten(chain) && !Misread(chain) && Plain(rest)
    ensures var e := "json(*)" + (ChainText(chain) + rest);
            && TargetOf(e, PARSE).Nothing?
            && JsonRewritten(e) == PathOf(chain) + rest && '(' !in PathOf(chain) + rest
  {
    hide FirstCall, TargetOf, JsonPass, JsonStep, ChainText, PathsText, Misread, Ends;
    var e := "json(*)" + (ChainText(chain) + rest);
    PlainStart(rest);
    HeadNoCall(chain, rest);
    NoParenNoCall(rest, PARSE, Last(ChainText(chain), ')'));
    PassDone(e, PARSE);
    JsonCallBecomesPath(chain, rest);
    JsonRound(e, "json");
    PathsHaveNone(chain);
    NoParenNoTarget(PathOf(chain) + rest, "json");
    PassDone(PathOf(chain) + rest, "json");
  }

  // ------------------------------------------------------------- misreading

  lemma {:induction false} FirstMisread(chain: seq<Step>, n: nat) returns (i: nat)
    requires n < |chain| && MisreadAt(chain, n)
    ensures i <= n && MisreadAt(chain, i) && !Misread(chain[..i])
    decreases n
  {
    if j: nat :| j < n && MisreadAt(chain, j) {
      i := FirstMisread(chain, j);
    } else {
      i := n;
      forall j | 0 <= j < n ensures !MisreadAt(chain[..n], j) {
        assert !MisreadAt(chain, j);
      }
    }
  }

  /** What the misread call has after it, and the path written for that. */
  function AfterCall(s: Step, tail: seq<Step>): string
    requires !s.Key?
  {
    (if s.Index? then "[" + Decimal(s.n) + "]" else "") + ChainText(tail)
  }

  function PathAfterCall(s: Step, tail: seq<Step>): string
    requires !s.Key?
  {
    if s.Index? then PathsText([s] + tail) else PathOf(tail)
  }

  lemma IndexAfterCall(n: nat, tail: seq<Step>, rest: string)
    requires AllWritten(tail) && Ends(rest)
    ensures ChainOf(AfterCall(Index(n), tail) + rest) ==
            Chain(PathAfterCall(Index(n), tail), |AfterCall(Index(n), tail)|)
  {
    hide Suffixes, Decimal, ChainText, PathsText, Ends;
    var digits := Decimal(n);
    var bracket := "[" + digits + "]";
    DecimalIsDigits(n);
    SuffixesBecomePath(tail, rest, true);
    BracketSuffix(digits, ChainText(tail) + rest, false);
    Append(bracket, ChainText(tail), rest);
    PathsTextCons(Index(n), tail);
    assert "/*" + bracket == PathText(Index(n));
  }

  lemma PathsTextCons(s: Step, tail: seq<Step>)
    ensures PathsText([s] + tail) == PathText(s) + PathsText(tail)
  {
    assert ([s] + tail)[1..] == tail;
  }

  lemma ChainAfterCall(s: Step, tail: seq<Step>, rest: string)
    requires !s.Key? && AllWritten(tail) && Ends(rest)
    ensures ChainOf(AfterCall(s, tail) + rest) == Chain(PathAfterCall(s, tail), |AfterCall(s, tail)|)
  {
    hide ChainOf, Decimal, ChainText, PathsText;
    if s.Index? {
      IndexAfterCall(s.n, tail, rest);
    } else {
      ChainBecomesPath(tail, rest);
      assert AfterCall(s, tail) == ChainText(tail);
    }
  }

  /** An expression whose first misread key follows `pre`, and what a round of
      the pass leaves of it. */
  function AsRead(pre: seq<Step>, s: Step, tail: seq<Step>, rest: string): string
    requires !s.Key?
  {
    "json(*)" + (ChainText(pre) + ("." + PARSE + "()" + (AfterCall(s, tail) + rest)))
  }

  function AsLeft(pre: seq<Step>, s: Step, tail: seq<Step>, rest: string): string
    requires !s.Key?
  {
    "json(*)" + (ChainText(pre) + ("." + PathAfterCall(s, tail) + rest))
  }

  /** What stands before the misread key. */
  function Head(pre: seq<Step>): string { "json(*)" + (ChainText(pre) + ".") }

  lemma TextsFrom(pre: seq<Step>, s: Step, tail: seq<Step>, rest: string)
    requires !s.Key?
    ensures AsRead(pre, s, tail, rest) == Head(pre) + (PARSE + ("()" + (AfterCall(s, tail) + rest)))
    ensures AsLeft(pre, s, tail, rest) == Head(pre) + (PathAfterCall(s, tail) + rest)
  {
    hide ChainText, AfterCall, PathAfterCall;
    HeadIs(ChainText(pre), AfterCall(s, tail) + rest);
    LeftIs(ChainText(pre), PathAfterCall(s, tail), rest);
  }

  lemma LeftIs(chain: string, path: string, rest: string)
    ensures "json(*)" + (chain + ("." + path + rest)) == "json(*)" + (chain + ".") + (path + rest)
  {
  }

  lemma MisreadRound(pre: seq<Step>, s: Step, tail: seq<Step>, rest: string)
    requires AllWritten(pre) && !Misread(pre) && !s.Key? && AllWritten(tail) && Plain(rest)
    ensures JsonPass(AsRead(pre, s, tail, rest), PARSE).text == JsonPass(AsLeft(pre, s, tail, rest), PARSE).text
  {
    var e := AsRead(pre, s, tail, rest);
    MisreadFound(pre, AfterCall(s, tail) + rest);
    TextsFrom(pre, s, tail, rest);
    hide JsonPass, JsonStep, TargetOf, FindCallIn, ChainOf, ChainText, Ends, Misread;
    hide PathAfterCall, AfterCall, AsRead, AsLeft;
    ChainAfterCall(s, tail, rest);
    StepHere(Head(pre), AfterCall(s, tail), rest, PathAfterCall(s, tail));
    hide Head;
    JsonRound(e, PARSE);
  }

  lemma HeadIs(chain: string, x: string)
    ensures "json(*)" + (chain + ("." + PARSE + "()" + x)) == "json(*)" + (chain + ".") + (PARSE + ("()" + x))
  {
  }

  /** The misread key is the first call found, its parentheses the key's. */
  lemma MisreadFound(pre: seq<Step>, x: string)
    requires AllWritten(pre) && !Misread(pre)
    ensures var start := 8 + |ChainText(pre)|;
            TargetOf("json(*)" + (ChainText(pre) + ("." + PARSE + "()" + x)), PARSE) ==
            Target(start, start + 10, start + 11)
  {
    hide FirstCall, CallsAt, CloseIn, TargetOf, ChainText, Misread;
    var call := PARSE + ("()" + x);
    var head := "json(*)" + (ChainText(pre) + ".");
    HeadIs(ChainText(pre), x);
    Append("json(*)" + ChainText(pre), ".", call);
    assert head + call == "json(*)" + (ChainText(pre) + ("." + call));
    HeadNoCall(pre, "." + call);
    InertNoCall(".", call, PARSE, Last(ChainText(pre), ')'));
    CallHere(x);
    ParensClose(head + PARSE, x);
    Append(head, PARSE, "()" + x);
    TargetHere(head + call, |head|);
  }

  lemma CallHere(x: string)
    ensures FirstCall(PARSE + ("()" + x), PARSE, '.') == Call(0, 10)
  {
    var s := PARSE + ("()" + x);
    assert s == ['p'] + s[1..];
    CallAtChar('p', s[1..], PARSE, '.');
    assert PARSE <= s && s[|PARSE|..] == "()" + x;
  }

  lemma ParensClose(head: string, x: string)
    ensures MatchParenOf(head + ("()" + x), |head|) == Some(|head| + 1)
  {
    assert (head + ("()" + x))[|head|..] == ['('] + ([')'] + x);
    CloseChar('(', [')'] + x, 0);
    CloseChar(')', x, 1);
  }

  lemma TargetHere(e: string, start: nat)
    requires FindCallIn(e, PARSE) == Call(start, start + 10) && start + 10 <= |e|
    requires MatchParenOf(e, start + 10) == Some(start + 11)
    ensures TargetOf(e, PARSE) == Target(start, start + 10, start + 11)
  {
    hide FirstCall, MatchParenOf;
  }

  lemma Sliced(head: string, call: string, body: string, k: nat)
    requires k <= |body|
    ensures var e, n := head + (call + body), |head| + |call|;
            e[..|head|] == head && e[n..] == body && e[n + k..] == body[k..]
  {
    AfterHead(head + call, body, k);
    Append(head, call, body);
  }

  lemma StepAfter(head: string, call: string, chain: string, rest: string, path: string, t: Target)
    requires ChainOf(chain + rest) == Chain(path, |chain|)
    requires t.Target? && t.start == |head| < t.close && t.close + 1 == |head| + |call|
    ensures JsonStep(head + (call + (chain + rest)), t) == head + (path + rest)
  {
    hide ChainOf;
    Sliced(head, call, chain + rest, |chain|);
    AfterHead(chain, rest, 0);
    Append(head, path, rest);
  }

  lemma StepHere(head: string, chain: string, rest: string, path: string)
    requires ChainOf(chain + rest) == Chain(path, |chain|)
    ensures var e := head + (PARSE + ("()" + (chain + rest)));
            JsonStep(e, Target(|head|, |head| + 10, |head| + 11)) == head + (path + rest)
  {
    hide ChainOf, JsonStep;
    Append(PARSE, "()", chain + rest);
    StepAfter(head, PARSE + "()", chain, rest, path, Target(|head|, |head| + 10, |head| + 11));
  }

  lemma {:induction false} PathBegins(s: Step, tail: seq<Step>, rest: string)
    requires !s.Key? && AllWritten(tail) && Plain(rest)
    ensures var p := PathAfterCall(s, tail); p != [] && p[0] == '/' && Plain("." + p + rest)
  {
    if s.Index? {
      assert ([s] + tail)[1..] == tail;
      assert AllWritten([s] + tail);
      PathsHaveNone([s] + tail);
    } else {
      PathsHaveNone(tail);
    }
    var p := PathAfterCall(s, tail);
    assert ("." + p + rest)[1] == p[0];
  }

  /** With a key misread, the text keeps a dot that no path has. */
  lemma MisreadKeepsDot(chain: seq<Step>, rest: string, i: nat)
    requires AllWritten(chain) && MisreadAt(chain, i) && !Misread(chain[..i]) && Plain(rest)
    ensures '.' in JsonRewritten("json(*)" + (ChainText(chain) + rest))
  {
    var pre, s, tail := chain[..i], chain[i + 1], chain[i + 2..];
    assert AllWritten(pre) && AllWritten(tail);
    hide JsonPass, JsonRewritten, Misread, Plain, AllWritten, AsRead, AsLeft;
    MisreadIs(chain, rest, i);
    MisreadRound(pre, s, tail, rest);
    SameAfterwards(AsRead(pre, s, tail, rest), AsLeft(pre, s, tail, rest));
    LeftKeepsDot(pre, s, tail, rest);
  }

  lemma LeftKeepsDot(pre: seq<Step>, s: Step, tail: seq<Step>, rest: string)
    requires AllWritten(pre) && !Misread(pre) && !s.Key? && AllWritten(tail) && Plain(rest)
    ensures '.' in JsonRewritten(AsLeft(pre, s, tail, rest))
  {
    hide ChainText, JsonRewritten, PathAfterCall, Misread, Plain, PathOf, AllWritten;
    PathBegins(s, tail, rest);
    var p := PathAfterCall(s, tail);
    PassWritesPath(pre, "." + p + rest);
    Append(".", p, rest);
    DotInside(PathOf(pre), p + rest);
  }

  lemma MisreadIs(chain: seq<Step>, rest: string, i: nat)
    requires MisreadAt(chain, i)
    ensures "json(*)" + (ChainText(chain) + rest) == AsRead(chain[..i], chain[i + 1], chain[i + 2..], rest)
  {
    hide ChainText, AfterCall, MisreadAt;
    MisreadText(chain, i);
    NextIsNoKey(chain, i);
    Regrouped(ChainText(chain[..i]), "." + PARSE, AfterCall(chain[i + 1], chain[i + 2..]), rest);
  }

  lemma NextIsNoKey(chain: seq<Step>, i: nat)
    requires MisreadAt(chain, i)
    ensures i + 1 < |chain| && !chain[i + 1].Key?
  {
  }

  lemma DotInside(a: string, b: string)
    ensures '.' in a + ("." + b)
  {
    assert (a + ("." + b))[|a|] == '.';
  }

  lemma ChainTextCons(s: Step, tail: seq<Step>)
    ensures ChainText([s] + tail) == SuffixText(s) + ChainText(tail)
  {
    assert ([s] + tail)[1..] == tail;
  }

  lemma CallText(s: Step, tail: seq<Step>)
    requires !s.Key?
    ensures SuffixText(s) + ChainText(tail) == "()" + AfterCall(s, tail)
  {
    hide Decimal, ChainText;
  }

  lemma MisreadText(chain: seq<Step>, i: nat)
    requires MisreadAt(chain, i)
    ensures ChainText(chain) == ChainText(chain[..i]) + ("." + PARSE + ("()" + AfterCall(chain[i + 1], chain[i + 2..])))
  {
    hide ChainText, AfterCall;
    var pre, s, tail := chain[..i], chain[i + 1], chain[i + 2..];
    var key := Key(PARSE);
    assert chain == pre + ([key] + ([s] + tail));
    ChainTextJoins(pre, [key] + ([s] + tail));
    ChainTextCons(key, [s] + tail);
    ChainTextCons(s, tail);
    CallText(s, tail);
  }

  lemma Regrouped(pre: string, call: string, after: string, rest: string)
    ensures pre + (call + ("()" + after)) + rest == pre + (call + "()" + (after + rest))
  {
  }

  lemma SameAfterwards(e: string, e': string)
    requires JsonPass(e, PARSE).text == JsonPass(e', PARSE).text
    ensures JsonRewritten(e) == JsonRewritten(e')
  {
    hide JsonPass, TargetOf;
  }

  // ----------------------------------------------------------- the result

  /** The pass over json() writes the path of the suffixes exactly if no key
      "parse-json" has a parenthesis right after it. */
  lemma JsonPassIsExact(chain: seq<Step>, lookups: seq<Step>)
    requires AllWritten(chain) && AllWritten(lookups)
    ensures JsonRewritten(Expression(chain, lookups)) == PathOf(chain) + LookupsText(lookups) <==> !Misread(chain)
  {
    LookupsArePlain(lookups);
    var rest := LookupsText(lookups);
    if Misread(chain) {
      var n :| 0 <= n < |chain| && MisreadAt(chain, n);
      var i := FirstMisread(chain, n);
      MisreadKeepsDot(chain, rest, i);
      LookupsHaveNone(lookups);
      PathsHaveNone(chain);
      assert '.' !in PathOf(chain) + rest;
    } else {
      PassWritesPath(chain, rest);
    }
  }

  /** Nor does it note anything but the document as the JSON text. */
  lemma DocumentNoted(chain: seq<Step>, lookups: seq<Step>)
    requires AllWritten(chain) && AllWritten(lookups) && !Misread(chain)
    ensures JsonNoted(Expression(chain, lookups)) == (true, "")
  {
    hide TargetOf, JsonPass, JsonStep, JsonSource, ChainText, PathsText, Misread, Ends, TrimSpace;
    var rest := LookupsText(lookups);
    var e := Expression(chain, lookups);
    LookupsArePlain(lookups);
    PassWritesPath(chain, rest);
    PassDone(e, PARSE);
    SourceRound(e, PARSE, "");
    JsonCallBecomesPath(chain, rest);
    SourceRound(e, "json", "");
    Star(ChainText(chain) + rest);
    NoParenNoTarget(PathOf(chain) + rest, "json");
    SourceRound(PathOf(chain) + rest, "json", "");
  }

  lemma Star(more: string)
    ensures var e := "json(*)" + more; e[5..6] == "*" && TrimSpace("*") == "*"
  {
    assert ("json(*)" + more)[5] == '*';
  }

  lemma {:induction false} NoParenNoHelper(e: string, fns: seq<string>)
    requires '(' !in e && forall i :: 0 <= i < |fns| ==> |fns[i]| > 2
    ensures JsonFnsRewritten(e, fns) == e
    decreases |fns|
  {
    if fns != [] {
      hide TargetOf;
      NoParenNoHelper(e, fns[..|fns| - 1]);
      NoParenNoTarget(e, fns[|fns| - 1]);
      WrapRound(e, fns[|fns| - 1], "(", ")/*");
    }
  }

  /** What the passes over json(), the JSON helpers and the lookups leave of an
      expression, applied one after the other. */
  function PassesOver(e: string): string { Lookup(JsonFnsRewritten(JsonRewritten(e), JSON_FNS)) }

  /** The passes over json(), the JSON helpers and the lookups, one after the
      other as they are applied, leave the path of all the steps. */
  lemma PassesWritePath(chain: seq<Step>, lookups: seq<Step>)
    requires AllWritten(chain) && AllWritten(lookups) && !Misread(chain)
    ensures PassesOver(Expression(chain, lookups)) ==
            (if chain == [] then "/" else "") + PathsText(chain + lookups)
  {
    hide Lookup, JsonRewritten, JsonFnsRewritten, ChainText, Misread;
    var rest := LookupsText(lookups);
    LookupsArePlain(lookups);
    PassWritesPath(chain, rest);
    NoParenNoHelper(PathOf(chain) + rest, JSON_FNS);
    if chain + lookups == [] {
      LookupOfRoot();
      assert PathOf(chain) + rest == "/" && PathsText(chain + lookups) == "";
    } else {
      ChainThenLookups(chain, lookups);
      ChainBecomesPath(chain, rest);
      AfterHead(ChainText(chain), rest, 0);
    }
  }

  lemma LookupOfRoot()
    ensures Lookup("/") == "/"
  {
    assert "/"[1..] == "";
  }

  /** The text the passes leave reads as the expression's steps exactly if there
      is a suffix or no lookup: two slashes are no step. */
  lemma ReadExactly(chain: seq<Step>, lookups: seq<Step>)
    requires AllWritten(chain) && AllWritten(lookups) && !Misread(chain)
    ensures ReadPath(PassesOver(Expression(chain, lookups))) == Some(chain + lookups) <==> chain != [] || lookups == []
  {
    hide PassesOver, Expression, ReadPath, PathsText, Misread;
    PassesWritePath(chain, lookups);
    var steps := chain + lookups;
    ReadsBack(steps);
    NoPath();
    if chain == [] && lookups != [] {
      assert steps == lookups;
      TwoSlashes(steps);
    } else {
      assert (if chain == [] then "/" else "") + PathsText(steps) == if steps == [] then "/" else PathsText(steps);
    }
  }

  lemma TwoSlashes(steps: seq<Step>)
    requires steps != []
    ensures ReadPath("/" + PathsText(steps)) == None
  {
    var s := "/" + PathsText(steps);
    assert PathText(steps[0])[0] == '/';
    assert s[1] == '/' && s[1..][0] == '/';
  }

  /** An expression json(*) with suffixes and then lookups selects, by the text
      the passes leave for it, exactly the trees of the values it means, in
      order, if no plain `()` comes before a `()[n]` or some index is 0. (With
      lookups it needs a suffix first.) */
  lemma ExpressionSelects(v: Json, root: Node, chain: seq<Step>, lookups: seq<Step>)
    requires DistinctKeys(v) && OverTree(root, v)
    requires AllWritten(chain) && AllWritten(lookups) && !Misread(chain) && (chain != [] || lookups == [])
    requires ValueOf(v, chain, lookups).Some? && (!Spreads(chain) || HasZero(chain + lookups))
    ensures var path := ReadPath(PassesOver(Expression(chain, lookups)));
            path == Some(chain + lookups) && TreesOf(Evaluate([root], path.value), ValueOf(v, chain, lookups).value)
  {
    hide PassesOver, Expression, ValueOf, Evaluate, ReadPath, DistinctKeys, TreesOf, Misread, Spreads, HasZero;
    ReadExactly(chain, lookups);
    PathIsRight(v, root, chain, lookups);
  }

  /** The texts the rewritten expression reads from a document are those of the
      values it means: "true", "false" and "null" for those three, a string and
      a number as they stand, and nothing at all for a key that is not there. */
  lemma ExpressionTexts(v: Json, root: Node, chain: seq<Step>, lookups: seq<Step>)
    requires DistinctKeys(v) && OverTree(root, v)
    requires AllWritten(chain) && AllWritten(lookups) && !Misread(chain) && (chain != [] || lookups == [])
    requires ValueOf(v, chain, lookups).Some? && (!Spreads(chain) || HasZero(chain + lookups))
    ensures var path := ReadPath(PassesOver(Expression(chain, lookups)));
            && path.Some?
            && var selected, values := Evaluate([root], path.value), ValueOf(v, chain, lookups).value;
               && |selected| == |values|
               && forall i :: 0 <= i < |values| ==> TextOf(selected[i]) == Rendered(values[i])
  {
    hide PassesOver, Expression, ValueOf, Evaluate, ReadPath, DistinctKeys, TreesOf, Misread, Spreads, HasZero;
    ExpressionSelects(v, root, chain, lookups);
    var path := ReadPath(PassesOver(Expression(chain, lookups)));
    TextsOfTrees(Evaluate([root], path.value), ValueOf(v, chain, lookups).value);
  }

  lemma TextsOfTrees(nodes: seq<Node>, vs: seq<Json>)
    requires TreesOf(nodes, vs)
    ensures |nodes| == |vs| && forall i :: 0 <= i < |vs| ==> TextOf(nodes[i]) == Rendered(vs[i])
  {
    hide TextOf, Rendered, DistinctKeys, Children;
    forall i | 0 <= i < |vs| ensures TextOf(nodes[i]) == Rendered(vs[i]) {
      TextOfTree(nodes[i].tag, vs[i]);
    }
  }

  /** And for every other such expression there is a document from which the
      text selects more than the expression means. */
  lemma ExpressionSelectsMore(chain: seq<Step>, lookups: seq<Step>) returns (v: Json)
    requires AllWritten(chain) && AllWritten(lookups) && !Misread(chain)
    requires Spreads(chain) && !HasZero(chain + lookups)
    ensures DistinctKeys(v) && ValueOf(v, chain, lookups).Some?
    ensures var path := ReadPath(PassesOver(Expression(chain, lookups)));
            && path == Some(chain + lookups)
            && forall root :: OverTree(root, v) ==>
                 |Evaluate([root], path.value)| > |ValueOf(v, chain, lookups).value|
  {
    assert chain != [];
    hide PassesOver, Expression, ValueOf, Evaluate, ReadPath, DistinctKeys, Misread, Spreads, HasZero;
    ReadExactly(chain, lookups);
    v := PathIsWrong(chain, lookups);
  }

  /** Lookups straight on json(*) are left as a path with two slashes, which
      searches from every node: for every chain of them with no index 0 there is
      a document on which it finds more. */
  lemma DocumentLookupSearches(lookups: seq<Step>) returns (v: Json)
    requires AllWritten(lookups) && lookups != [] && !HasZero(lookups)
    ensures ReadSearch(PassesOver(Expression([], lookups))) == Some(lookups)
    ensures DistinctKeys(v) && ValueOf(v, [], lookups).Some?
    ensures forall root :: OverTree(root, v) ==> |Search(root, lookups)| > |ValueOf(v, [], lookups).value|
  {
    SearchText(lookups);
    v := SearchFindsMore(lookups);
  }

  lemma SearchText(lookups: seq<Step>)
    requires AllWritten(lookups) && lookups != []
    ensures ReadSearch(PassesOver(Expression([], lookups))) == Some(lookups)
  {
    hide PassesOver, Expression, ReadSteps;
    PassesWritePath([], lookups);
    ReadsBack(lookups);
    assert [] + lookups == lookups;
    var s := "/" + PathsText(lookups);
    assert PathText(lookups[0])[0] == '/';
    assert s[1] == '/' && s[1..] == PathsText(lookups);
  }

  lemma NoPath()
    ensures PathsText([]) == ""
  {
  }
}
