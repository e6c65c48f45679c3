/** What the passes that rewrite calls write in place of one
    (internal/txquery/rewrite.go): the whole text they leave for an expression
    with a single call in it, whatever stands before, in and after the call. */
module CallTexts {
  import opened Options
  import opened Spaces
  import opened Scanner
  import opened CallCount
  import opened LiteralPasses
  import opened Navigation
  import opened CallRewrites

  /** A function's name: characters that can only be part of a name. */
  predicate IsName(fn: string) { fn != [] && forall i :: 0 <= i < |fn| ==> Continues(fn[i]) }

  /** A call and what stands before and after it. */
  function Called(head: string, fn: string, inner: string, rest: string): string {
    head + (fn + ("(" + Closing(inner, rest)))
  }

  /** How deep in parentheses, and in parentheses and brackets, a text leaves
      what comes after it; None if it closes what is open already or has a comma
      outside all of its own. */
  function Nesting(s: string, parens: int, depth: int): Option<(int, int)>
    decreases |s|
  {
    if s == [] then Some((parens, depth))
    else if IsQuote(s[0]) then Nesting(s[LiteralLength(s)..], parens, depth)
    else if (s[0] == ')' && parens == 1) || (s[0] == ',' && depth == 0) then None
    else Nesting(s[1..], Deeper(s[0], parens), ArgDepth(s[0], depth))
  }

  /** One whole argument: its literals are closed, its parentheses and brackets
      pair off, and it has no comma outside them. */
  predicate Argument(arg: string) { Closed(arg) && Nesting(arg, 1, 0) == Some((1, 0)) }

  // -------------------------------------------------------------- in parts

  /** No literal and no call to `fn` can run over from `last` to `next`. */
  predicate Apart(last: char, next: char, fn: string) {
    && !(IsQuote(last) && IsQuote(next))
    && (last == '(' || (next != ' ' && next != '(' && (next !in fn || !Continues(last))))
  }

  lemma CallsAtApart(s: string, more: string, fn: string)
    requires IsName(fn) && s != [] && more != [] && Apart(s[|s| - 1], more[0], fn)
    ensures CallsAt(s + more, fn) <==> CallsAt(s, fn)
  {
    if |fn| > |s| {
      NotAcross(s, more, fn);
    } else if fn <= s {
      var tail := s[|fn|..];
      assert (s + more)[|fn|..] == tail + more;
      if Blanks(tail) < |tail| {
        BlanksKept(tail, more);
      } else {
        LastOfName(s, fn);
        BlanksOver(tail, more);
      }
    }
  }

  lemma NotAcross(s: string, more: string, fn: string)
    requires IsName(fn) && s != [] && more != [] && Apart(s[|s| - 1], more[0], fn) && |fn| > |s|
    ensures !(fn <= s + more)
  {
    var t := s + more;
    assert t[|s| - 1] == s[|s| - 1] && t[|s|] == more[0];
    assert Continues(fn[|s| - 1]) && Continues(fn[|s|]) && fn[|s|] in fn;
  }

  /** After a name and blanks comes no parenthesis. */
  lemma LastOfName(s: string, fn: string)
    requires IsName(fn) && fn <= s && Blanks(s[|fn|..]) == |s| - |fn|
    ensures s[|s| - 1] != '('
  {
    assert if |s| == |fn| then s[|s| - 1] == fn[|fn| - 1] else s[|s| - 1] == s[|fn|..][|s| - |fn| - 1];
  }

  lemma {:induction false} BlanksOver(s: string, more: string)
    requires Blanks(s) == |s| && more != []
    ensures more[0] != ' ' ==> Blanks(s + more) == |s| && (s + more)[|s|] == more[0]
    decreases |s|
  {
    if s == [] {
      assert s + more == more;
    } else {
      assert (s + more)[1..] == s[1..] + more;
      BlanksOver(s[1..], more);
    }
  }

  lemma LiteralGoesOver(s: string, more: string)
    requires s != [] && IsQuote(s[0]) && Closed(s) && more != [] && !(IsQuote(s[|s| - 1]) && IsQuote(more[0]))
    ensures var n := LiteralLength(s);
            && s == s[..n] + s[n..] && IsLiteral(s[..n], s[n..]) && IsLiteral(s[..n], s[n..] + more)
            && IsLiteral(s[..n], ".") && Closed(s[n..]) && s + more == s[..n] + (s[n..] + more)
  {
    hide Closed, IsLiteral, LiteralLength;
    var n := LiteralLength(s);
    Peel(s, 0);
    assert s[0..] == s;
    ClosedFirst(s);
    ClosedLiteralEnds(s[..n]);
    if s[n..] == [] {
      assert s[..n] == s && s[n..] + more == more;
    } else {
      NotItsQuote(s[..n], s[n..]);
    }
    NextIsOther(s, n, more);
    LiteralKeeps(s[..n], ".", s[n..] + more);
    Append(s[..n], s[n..], more);
  }

  lemma NextIsOther(s: string, n: nat, more: string)
    requires 0 < n <= |s| && more != [] && IsQuote(s[0]) && !(IsQuote(s[|s| - 1]) && IsQuote(more[0]))
    requires if s[n..] == [] then IsQuote(s[n - 1]) else s[n..][0] != s[0]
    ensures (s[n..] + more)[0] != s[..n][0]
  {
  }

  /** Calls on both sides of a place add up, and with none on the left the first
      one is the first on the right. */
  predicate Joins(s: string, more: string, fn: string, prev: char)
    requires fn != []
  {
    && Calls(s + more, fn, prev) == Calls(s, fn, prev) + Calls(more, fn, Last(s, prev))
    && (Calls(s, fn, prev) == 0 ==>
          FirstCall(s + more, fn, prev) == CallShifted(FirstCall(more, fn, Last(s, prev)), |s|))
  }

  lemma {:induction false} CallsJoin(s: string, more: string, fn: string, prev: char)
    requires IsName(fn) && Closed(s) && more != [] && Apart(Last(s, prev), more[0], fn)
    ensures Joins(s, more, fn, prev)
    decreases |s|
  {
    NameIsText(fn);
    if s == [] {
      assert s + more == more;
    } else {
      hide Joins, CallsAt, IsLiteral, LiteralLength, Closed, Apart, IsName;
      if IsQuote(s[0]) {
        ApartQuotes(s[|s| - 1], more[0], fn);
        LiteralGoesOver(s, more);
        var n := LiteralLength(s);
        CallsJoin(s[n..], more, fn, s[n - 1]);
        JoinsLiteral(s[..n], s[n..], more, fn, prev);
      } else {
        var c, rest := s[0], s[1..];
        assert s == [c] + rest;
        ClosedChar(c, rest);
        CallsJoin(rest, more, fn, c);
        CallsAtApart(s, more, fn);
        JoinsChar(c, rest, more, fn, prev);
      }
    }
  }

  lemma JoinsLiteral(lit: string, rest: string, more: string, fn: string, prev: char)
    requires fn != [] && IsLiteral(lit, rest) && IsLiteral(lit, rest + more) && Joins(rest, more, fn, lit[|lit| - 1])
    ensures Joins(lit + rest, more, fn, prev)
  {
    hide Calls, FirstCall, LiteralLength;
    LiteralHoldsNone(lit, rest, more, fn, prev);
    Append(lit, rest, more);
    assert Last(lit + rest, prev) == Last(rest, lit[|lit| - 1]);
  }

  lemma JoinsChar(c: char, rest: string, more: string, fn: string, prev: char)
    requires fn != [] && !IsQuote(c) && Joins(rest, more, fn, c)
    requires CallsAt([c] + rest + more, fn) <==> CallsAt([c] + rest, fn)
    ensures Joins([c] + rest, more, fn, prev)
  {
    hide Calls, FirstCall, CallsAt;
    Append([c], rest, more);
    CountChar(c, rest, fn, prev);
    CountChar(c, rest + more, fn, prev);
    CallAtChar(c, rest + more, fn, prev);
    assert Last([c] + rest, prev) == Last(rest, c);
  }

  lemma LiteralHoldsNone(lit: string, rest: string, more: string, fn: string, prev: char)
    requires fn != [] && IsLiteral(lit, rest) && IsLiteral(lit, rest + more)
    ensures Calls(lit + rest, fn, prev) == Calls(rest, fn, lit[|lit| - 1])
    ensures Calls(lit + (rest + more), fn, prev) == Calls(rest + more, fn, lit[|lit| - 1])
    ensures FirstCall(lit + (rest + more), fn, prev) ==
            CallShifted(FirstCall(rest + more, fn, lit[|lit| - 1]), |lit|)
  {
    hide Calls, FirstCall, LiteralLength;
    CountLiteral(lit, rest, fn, prev);
    CountLiteral(lit, rest + more, fn, prev);
    CallAfterLiteral(lit, rest + more, fn, prev);
  }

  lemma ApartQuotes(last: char, next: char, fn: string)
    requires Apart(last, next, fn)
    ensures !(IsQuote(last) && IsQuote(next))
  {
  }

  lemma NameIsText(fn: string)
    requires IsName(fn)
    ensures fn != []
  {
  }

  /** A name holds no call to another, and none to itself before its end. */
  lemma {:induction false} NameHoldsNone(p: string, s: string, fn: string, prev: char)
    requires IsName(p) && IsName(fn) && (p != fn || Continues(prev))
    ensures Calls(p + ("(" + s), fn, prev) == Calls(s, fn, '(')
    decreases |p|
  {
    var t := p + ("(" + s);
    assert t == [p[0]] + (p[1..] + ("(" + s));
    assert t[|p|] == '(' && t[..|p|] == p && (|fn| > |p| ==> Continues(fn[|p|]));
    assert |fn| < |p| ==> t[|fn|..][0] == p[|fn|];
    CountChar(p[0], p[1..] + ("(" + s), fn, prev);
    if |p| == 1 {
      assert p[1..] + ("(" + s) == ['('] + s;
      CountChar('(', s, fn, p[0]);
      assert (['('] + s)[0] == '(' && Continues(fn[0]);
    } else {
      NameHoldsNone(p[1..], s, fn, p[0]);
    }
  }

  /** Nor do characters that are in no name. */
  lemma {:induction false} PlainHoldsNone(p: string, s: string, fn: string, prev: char)
    requires IsName(fn) && forall i :: 0 <= i < |p| ==> !Continues(p[i]) && !IsQuote(p[i])
    ensures Calls(p + s, fn, prev) == Calls(s, fn, Last(p, prev))
    decreases |p|
  {
    if p == [] {
      assert p + s == s;
    } else {
      assert p + s == [p[0]] + (p[1..] + s);
      CountChar(p[0], p[1..] + s, fn, prev);
      PlainHoldsNone(p[1..], s, fn, p[0]);
    }
  }

  lemma {:induction false} NoneFound(s: string, fn: string, prev: char)
    requires fn != [] && Calls(s, fn, prev) == 0
    ensures FirstCall(s, fn, prev) == NoCall
    decreases |s|
  {
    if s != [] {
      if IsQuote(s[0]) {
        NoneFound(s[LiteralLength(s)..], fn, s[LiteralLength(s) - 1]);
      } else {
        hide CallsAt, Continues;
        NoneFound(s[1..], fn, s[0]);
      }
    }
  }

  // -------------------------------------------------------------- nesting

  lemma NestingLiteral(lit: string, rest: string, parens: int, depth: int)
    requires IsLiteral(lit, rest)
    ensures Nesting(lit + rest, parens, depth) == Nesting(rest, parens, depth)
  {
    assert (lit + rest)[|lit|..] == rest;
  }

  lemma NestingChar(c: char, rest: string, parens: int, depth: int)
    requires !IsQuote(c)
    ensures Nesting([c] + rest, parens, depth) ==
            if (c == ')' && parens == 1) || (c == ',' && depth == 0) then None
            else Nesting(rest, Deeper(c, parens), ArgDepth(c, depth))
  {
    assert ([c] + rest)[1..] == rest;
  }

  /** The nesting of a text and then another is that of the second where the
      first one leaves it. */
  lemma {:induction false} NestingJoin(s: string, more: string, parens: int, depth: int)
    requires Closed(s) && (more == [] || s == [] || !(IsQuote(s[|s| - 1]) && IsQuote(more[0])))
    ensures var n := Nesting(s, parens, depth);
            Nesting(s + more, parens, depth) == if n.None? then None else Nesting(more, n.value.0, n.value.1)
    decreases |s|
  {
    if s == [] || more == [] {
      assert s + more == if s == [] then more else s;
    } else {
      hide IsLiteral, LiteralLength, Closed, Nesting;
      if IsQuote(s[0]) {
        LiteralGoesOver(s, more);
        var n := LiteralLength(s);
        NestingLiteral(s[..n], s[n..], parens, depth);
        NestingLiteral(s[..n], s[n..] + more, parens, depth);
        NestingJoin(s[n..], more, parens, depth);
      } else {
        var c, rest := s[0], s[1..];
        assert s == [c] + rest && s + more == [c] + (rest + more);
        ClosedChar(c, rest);
        NestingChar(c, rest, parens, depth);
        NestingChar(c, rest + more, parens, depth);
        NestingJoin(rest, more, Deeper(c, parens), ArgDepth(c, depth));
      }
    }
  }

  lemma {:induction false} BlankNesting(w: string, parens: int, depth: int)
    requires forall i :: 0 <= i < |w| ==> IsSpace(w[i])
    ensures Closed(w) && Nesting(w, parens, depth) == Some((parens, depth))
    decreases |w|
  {
    if w != [] { BlankNesting(w[1..], parens, depth); }
  }

  /** An argument trimmed is still one. */
  lemma TrimmedArgument(arg: string)
    requires Argument(arg)
    ensures Argument(TrimSpace(arg))
  {
    hide Argument;
    ArgumentFromLeft(arg);
    ArgumentFromRight(TrimLeft(arg));
  }

  lemma ArgumentFromLeft(arg: string)
    requires Argument(arg)
    ensures Argument(TrimLeft(arg))
  {
    hide Nesting, Closed, TrimLeft, IsSpace;
    var l := TrimLeft(arg);
    var w := arg[..|arg| - |l|];
    assert arg == w + l;
    BlankNesting(w, 1, 0);
    BlanksAreSpace(w, "");
    ClosedAfter(w, l);
    NestingJoin(w, l, 1, 0);
  }

  lemma ArgumentFromRight(arg: string)
    requires Argument(arg)
    ensures Argument(TrimRight(arg))
  {
    hide Nesting, Closed, TrimRight, IsSpace;
    var r := TrimRight(arg);
    var x := arg[|r|..];
    assert arg == r + x && forall i :: 0 <= i < |x| ==> x[i] == arg[|r| + i];
    BlanksAreSpace("", x);
    ClosedBefore(r, x);
    NestingJoin(r, x, 1, 0);
    LeavesAlone(r, x);
  }

  lemma BlanksAreSpace(w: string, x: string)
    requires (forall i :: 0 <= i < |w| ==> IsSpace(w[i])) && forall i :: 0 <= i < |x| ==> IsSpace(x[i])
    ensures (forall i :: 0 <= i < |w| ==> !IsQuote(w[i])) && forall i :: 0 <= i < |x| ==> !IsQuote(x[i])
  {
  }

  lemma LeavesAlone(r: string, x: string)
    requires forall i :: 0 <= i < |x| ==> IsSpace(x[i])
    ensures var n := Nesting(r, 1, 0); n.Some? ==> Nesting(x, n.value.0, n.value.1) == n
  {
    var n := Nesting(r, 1, 0);
    if n.Some? { BlankNesting(x, n.value.0, n.value.1); }
  }

  /** The parenthesis after an argument closes its call. */
  lemma {:induction false} ClosesAfter(s: string, rest: string, parens: int, depth: int)
    requires Closed(s) && Nesting(s, parens, depth).Some? && Nesting(s, parens, depth).value.0 == 1
    ensures CloseIn(Closing(s, rest), parens) == Some(|s|)
    decreases |s|
  {
    var more := ")" + rest;
    if s == [] {
      assert s + more == [')'] + rest;
      CloseChar(')', rest, parens);
    } else {
      hide IsLiteral, LiteralLength, Closed, Nesting, CloseIn;
      if IsQuote(s[0]) {
        LiteralGoesOver(s, more);
        var n := LiteralLength(s);
        NestingLiteral(s[..n], s[n..], parens, depth);
        CloseLiteral(s[..n], s[n..] + more, parens);
        ClosesAfter(s[n..], rest, parens, depth);
      } else {
        var c, tail := s[0], s[1..];
        assert s == [c] + tail && s + more == [c] + (tail + more);
        ClosedChar(c, tail);
        NestingChar(c, tail, parens, depth);
        CloseChar(c, tail + more, parens);
        ClosesAfter(tail, rest, Deeper(c, parens), ArgDepth(c, depth));
      }
    }
  }

  /** A comma after an argument ends it, as the end of the list does. */
  lemma {:induction false} ArgsAfter(s: string, more: string, cur: string, parens: int, depth: int)
    requires Closed(s) && Nesting(s, parens, depth).Some? && Nesting(s, parens, depth).value.1 == 0
    requires more == [] || more[0] == ','
    ensures ArgsFrom(s + more, cur, depth) ==
            [TrimSpace(cur + s)] + (if more == [] then [] else ArgsFrom(more[1..], "", 0))
    decreases |s|
  {
    if s == [] {
      assert s + more == more && cur + s == cur;
    } else {
      hide IsLiteral, LiteralLength, Closed, Nesting, ArgsFrom, TrimSpace;
      if IsQuote(s[0]) {
        var n := LiteralLength(s);
        ClosedFirst(s);
        Peel(s, 0);
        assert s[0..] == s;
        LiteralGoesOn(s[..n], s[n..], more);
        NestingLiteral(s[..n], s[n..], parens, depth);
        Append(s[..n], s[n..], more);
        ArgsLiteral(s[..n], s[n..] + more, cur, depth);
        ArgsAfter(s[n..], more, cur + s[..n], parens, depth);
        Append(cur, s[..n], s[n..]);
      } else {
        var c, tail := s[0], s[1..];
        assert s == [c] + tail && s + more == [c] + (tail + more);
        ClosedChar(c, tail);
        NestingChar(c, tail, parens, depth);
        ArgsChar(c, tail + more, cur, depth);
        ArgsAfter(tail, more, cur + [c], Deeper(c, parens), ArgDepth(c, depth));
        Append(cur, [c], tail);
      }
    }
  }

  lemma OneArgument(arg: string)
    requires Argument(arg)
    ensures Args(arg) == [TrimSpace(arg)]
  {
    hide ArgsFrom, Nesting, Closed, TrimSpace;
    ArgsAfter(arg, "", "", 1, 0);
    assert arg + "" == arg && "" + arg == arg;
  }

  lemma ArgsRead(arg: string, more: string)
    requires Argument(arg)
    ensures Args(arg + ("," + more)) == [TrimSpace(arg)] + Args(more)
  {
    hide Nesting, Closed, TrimSpace, ArgsFrom;
    ArgsAfter(arg, "," + more, "", 1, 0);
    assert "" + arg == arg && ("," + more)[1..] == more;
  }

  lemma CloseRead(arg: string, more: string, rest: string)
    requires Argument(arg) && Closes(more, rest)
    ensures Closes(arg + ("," + more), rest)
  {
    hide Nesting, Closed, CloseIn;
    ClosesLater(arg, "," + more, rest, 1, 0);
    assert Closing(arg + ("," + more), rest) == arg + Closing("," + more, rest);
    assert Closing("," + more, rest) == [','] + Closing(more, rest);
    CloseChar(',', Closing(more, rest), 1);
  }

  /** Past an argument the search for the closing parenthesis goes on. */
  lemma {:induction false} ClosesLater(s: string, more: string, rest: string, parens: int, depth: int)
    requires Closed(s) && Nesting(s, parens, depth).Some? && more != [] && more[0] == ','
    ensures CloseIn(s + Closing(more, rest), parens) ==
            Shifted(CloseIn(Closing(more, rest), Nesting(s, parens, depth).value.0), |s|)
    decreases |s|
  {
    var after := Closing(more, rest);
    assert after != [] && after[0] == ',';
    if s == [] {
      assert s + after == after;
    } else {
      hide IsLiteral, LiteralLength, Closed, Nesting, CloseIn, Closing;
      if IsQuote(s[0]) {
        LiteralGoesOver(s, after);
        var n := LiteralLength(s);
        NestingLiteral(s[..n], s[n..], parens, depth);
        CloseLiteral(s[..n], s[n..] + after, parens);
        ClosesLater(s[n..], more, rest, parens, depth);
      } else {
        var c, tail := s[0], s[1..];
        assert s == [c] + tail && s + after == [c] + (tail + after);
        ClosedChar(c, tail);
        NestingChar(c, tail, parens, depth);
        CloseChar(c, tail + after, parens);
        ClosesLater(tail, more, rest, Deeper(c, parens), ArgDepth(c, depth));
      }
    }
  }

  // --------------------------------------------------------- the call found

  /** A text a call can stand after, with no call in it. */
  predicate Before(head: string, fn: string) {
    Closed(head) && Calls(head, fn, ' ') == 0 && !Continues(Last(head, ' '))
  }

  /** The parenthesis after an argument list closes the call. */
  predicate Closes(inner: string, rest: string) { CloseIn(Closing(inner, rest), 1) == Some(|inner|) }

  /** It does, and this is the first argument. */
  predicate StartsWith(inner: string, arg: string, rest: string) {
    Closes(inner, rest) && Args(inner)[0] == TrimSpace(arg)
  }

  lemma OneIsFirst(arg: string, rest: string)
    requires Argument(arg)
    ensures StartsWith(arg, arg, rest)
  {
    hide CloseIn, Closed, Nesting, Closing, ArgsFrom, TrimSpace;
    ClosesAfter(arg, rest, 1, 0);
    OneArgument(arg);
  }

  lemma CallFound(head: string, fn: string, arg: string, rest: string)
    requires IsName(fn) && Before(head, fn) && Closes(arg, rest)
    ensures TargetOf(Called(head, fn, arg, rest), fn) ==
            Target(|head|, |head| + |fn|, |head| + |fn| + 1 + |arg|)
  {
    assert fn != [];
    hide Calls, FirstCall, CloseIn, Closed, Closing;
    var tail := fn + ("(" + Closing(arg, rest));
    CallsJoin(head, tail, fn, ' ');
    CallHere(fn, Closing(arg, rest), Last(head, ' '));
    assert FindCallIn(head + tail, fn) == Call(|head|, |head| + |fn|);
    hide IsName, Joins, FindCallIn, Apart;
    AfterHead(head + fn, "(" + Closing(arg, rest), 0);
    Append(head, fn, "(" + Closing(arg, rest));
    assert "(" + Closing(arg, rest) == ['('] + Closing(arg, rest);
    CloseChar('(', Closing(arg, rest), 0);
  }

  lemma CallHere(fn: string, s: string, prev: char)
    requires IsName(fn) && !Continues(prev)
    ensures FirstCall(fn + ("(" + s), fn, prev) == Call(0, |fn|)
  {
    var t := fn + ("(" + s);
    assert t[|fn|..] == "(" + s;
    assert Blanks(t[|fn|..]) == 0;
    assert t == [fn[0]] + t[1..];
    CallAtChar(fn[0], t[1..], fn, prev);
  }

  /** What a round writes for the call: its argument between two texts. */
  function Wrapped(head: string, arg: string, rest: string, before: string, after: string): string {
    head + (before + (TrimSpace(arg) + (after + rest)))
  }

  lemma RoundWrites(head: string, fn: string, inner: string, arg: string, rest: string, before: string, after: string)
    requires IsName(fn) && Before(head, fn) && StartsWith(inner, arg, rest)
    ensures var e := Called(head, fn, inner, rest);
            && TargetOf(e, fn).Target?
            && WrapStep(e, TargetOf(e, fn), before, after) == Wrapped(head, arg, rest, before, after)
  {
    hide TargetOf, Args, TrimSpace, Closed, Calls, FindCallIn;
    CallFound(head, fn, inner, rest);
    CallParts(head, fn, inner, rest);
    Regroup(head, before, TrimSpace(arg), after, rest);
  }

  lemma CallParts(head: string, fn: string, arg: string, rest: string)
    ensures var e, open := Called(head, fn, arg, rest), |head| + |fn|;
            && open + 1 + |arg| < |e|
            && e[..|head|] == head && e[open + 1..open + 1 + |arg|] == arg && e[open + 2 + |arg|..] == rest
  {
    var e := Called(head, fn, arg, rest);
    assert e == head + fn + "(" + arg + ")" + rest;
  }

  lemma Regroup(a: string, b: string, c: string, d: string, e: string)
    ensures a + b + c + d + e == a + (b + (c + (d + e)))
  {
  }

  // ------------------------------------------------------ the helper passes

  /** What may stand around a call: text with no call to a name, also not one a
      parenthesis after it would make. */
  predicate Around(head: string, arg: string, rest: string, fn: string) {
    && Before(head, fn) && Calls(head + "(", fn, ' ') == 0
    && Argument(arg) && Calls(arg, fn, '(') == 0 && Calls(rest, fn, ')') == 0
  }

  /** What comes after the argument: a parenthesis and no part of a name. */
  predicate Ending(after: string) {
    after != [] && after[0] == ')' && forall i :: 0 <= i < |after| ==> !Continues(after[i]) && !IsQuote(after[i])
  }

  lemma NothingMore(head: string, arg: string, rest: string, after: string, fn: string)
    requires IsName(fn) && Around(head, arg, rest, fn) && Ending(after)
    ensures Calls(Wrapped(head, arg, rest, "(", after), fn, ' ') == 0
  {
    hide Calls, Closed, Nesting, TrimSpace;
    var t := TrimSpace(arg);
    var tail := t + (after + rest);
    Trimmed(arg, fn);
    assert head + ("(" + tail) == head + "(" + tail;
    ClosedWith(head);
    CallsJoin(head + "(", tail, fn, ' ');
    assert (after + rest)[0] == ')' && ')' !in fn;
    CallsJoin(t, after + rest, fn, '(');
    PlainHoldsNone(after, rest, fn, Last(t, '('));
    assert Last(after, ' ') == after[|after| - 1];
    PrevAlike(rest, fn, ')', after[|after| - 1]);
  }

  lemma {:induction false} ClosedWith(s: string)
    requires Closed(s)
    ensures Closed(s + "(")
    decreases |s|
  {
    hide IsLiteral, LiteralLength, Closed;
    if s == [] {
      NoText("", ' ');
      ClosedChar('(', "");
      assert s + "(" == ['('] + "";
    } else if IsQuote(s[0]) {
      var n := LiteralLength(s);
      LiteralGoesOver(s, "(");
      ClosedWith(s[n..]);
      ClosedLiteral(s[..n], s[n..] + "(");
    } else {
      ClosedChar(s[0], s[1..]);
      assert s == [s[0]] + s[1..];
      ClosedWith(s[1..]);
      ClosedChar(s[0], s[1..] + "(");
      assert s + "(" == [s[0]] + (s[1..] + "(");
    }
  }

  /** A pass that puts an argument in place of its call leaves just that of a
      text with one call: the argument between the two texts, what was before
      it, and what was after it. */
  lemma PassWrites(head: string, fn: string, inner: string, arg: string, rest: string, after: string)
    requires IsName(fn) && Around(head, arg, rest, fn) && StartsWith(inner, arg, rest)
    requires Ending(after) && |after| < |fn| + 1
    ensures WrapPass(Called(head, fn, inner, rest), fn, "(", after).text == Wrapped(head, arg, rest, "(", after)
  {
    assert fn != [];
    hide TargetOf, WrapStep, WrapPass, Calls, Before, Argument, StartsWith;
    var e, r := Called(head, fn, inner, rest), Wrapped(head, arg, rest, "(", after);
    RoundWrites(head, fn, inner, arg, rest, "(", after);
    WrapRound(e, fn, "(", after);
    NothingMore(head, arg, rest, after, fn);
    NoTarget(r, fn);
    WrapRound(r, fn, "(", after);
  }

  lemma NoTarget(e: string, fn: string)
    requires fn != [] && Calls(e, fn, ' ') == 0
    ensures TargetOf(e, fn) == Nothing
  {
    NoneFound(e, fn, ' ');
  }

  /** A call to one of several names is none to another. */
  lemma OtherNames(head: string, fn: string, arg: string, rest: string, other: string)
    requires IsName(fn) && IsName(other) && fn != other && Around(head, arg, rest, other)
    ensures Calls(Called(head, fn, arg, rest), other, ' ') == 0
  {
    hide Calls, Closed, Nesting;
    var tail := fn + ("(" + Closing(arg, rest));
    assert tail[0] == fn[0] && fn[0] != ' ' && fn[0] != '(' && !IsQuote(fn[0]);
    CallsJoin(head, tail, other, ' ');
    NameHoldsNone(fn, Closing(arg, rest), other, Last(head, ' '));
    assert ')' !in other;
    CallsJoin(arg, ")" + rest, other, '(');
    PlainHoldsNone(")", rest, other, Last(arg, '('));
  }

  /** The call, or what is left of it once its pass is done. */
  function Stage(head: string, fn: string, arg: string, rest: string, done: bool): string {
    if done then Wrapped(head, arg, rest, "(", ")/*") else Called(head, fn, arg, rest)
  }

  lemma HelperStage(head: string, fn: string, arg: string, rest: string, name: string, done: bool)
    requires IsName(fn) && IsName(name) && |name| > 2 && Around(head, arg, rest, name)
    ensures WrapPass(Stage(head, fn, arg, rest, done), name, "(", ")/*").text ==
            Stage(head, fn, arg, rest, done || fn == name)
  {
    hide Around, WrapPass, Called, Wrapped, IsName, TargetOf, FindCallIn;
    if done {
      HelperLeaves(head, arg, rest, name);
    } else if fn == name {
      OwnHelper(head, fn, arg, rest);
    } else {
      OtherHelper(head, fn, arg, rest, name);
    }
  }

  lemma OwnHelper(head: string, fn: string, arg: string, rest: string)
    requires IsName(fn) && |fn| > 2 && Around(head, arg, rest, fn)
    ensures WrapPass(Called(head, fn, arg, rest), fn, "(", ")/*").text == Wrapped(head, arg, rest, "(", ")/*")
  {
    assert fn != [];
    MembersEnd();
    ArgumentAround(head, arg, rest, fn);
    hide Around, WrapPass, Called, Wrapped, IsName, TargetOf, FindCallIn, Argument, Ending, StartsWith;
    OneIsFirst(arg, rest);
    PassWrites(head, fn, arg, arg, rest, ")/*");
  }

  lemma ArgumentAround(head: string, arg: string, rest: string, fn: string)
    requires Around(head, arg, rest, fn)
    ensures Argument(arg) && Before(head, fn)
  {
  }

  lemma HelperRound(e: string, fns: seq<string>)
    requires fns != [] && forall i :: 0 <= i < |fns| ==> |fns[i]| > 2
    ensures JsonFnsRewritten(e, fns) ==
            WrapPass(JsonFnsRewritten(e, fns[..|fns| - 1]), fns[|fns| - 1], "(", ")/*").text
  {
    hide WrapPass, TargetOf;
  }

  lemma HelperLeaves(head: string, arg: string, rest: string, fn: string)
    requires IsName(fn) && |fn| > 2 && Around(head, arg, rest, fn)
    ensures var r := Wrapped(head, arg, rest, "(", ")/*"); WrapPass(r, fn, "(", ")/*").text == r
  {
    assert fn != [];
    MembersEnd();
    hide Around, Calls, TargetOf, WrapPass, WrapStep, Wrapped, Ending, IsName, FindCallIn;
    var r := Wrapped(head, arg, rest, "(", ")/*");
    NothingMore(head, arg, rest, ")/*", fn);
    NoTarget(r, fn);
    WrapRound(r, fn, "(", ")/*");
  }

  lemma MembersEnd()
    ensures Ending(")/*")
  {
  }

  lemma OtherHelper(head: string, fn: string, arg: string, rest: string, other: string)
    requires IsName(fn) && IsName(other) && fn != other && |other| > 2 && Around(head, arg, rest, other)
    ensures var e := Called(head, fn, arg, rest); WrapPass(e, other, "(", ")/*").text == e
  {
    hide Around, Calls, TargetOf, WrapPass, WrapStep;
    assert other != [];
    var e := Called(head, fn, arg, rest);
    OtherNames(head, fn, arg, rest, other);
    NoTarget(e, other);
    WrapRound(e, other, "(", ")/*");
  }

  function Helper(e: string, fn: string): string
    requires |fn| > 2
  {
    hide WrapPass;
    WrapPass(e, fn, "(", ")/*").text
  }

  lemma HelpersInTurn(e: string)
    ensures JsonFnsRewritten(e, JSON_FNS) ==
            Helper(Helper(Helper(Helper(e, "jn:members"), "jn:keys"), "members"), "keys")
  {
    var fns := JSON_FNS;
    assert fns[..3] == ["jn:members", "jn:keys", "members"] && fns[..3][..2] == ["jn:members", "jn:keys"];
    assert fns[..3][..2][..1] == ["jn:members"] && fns[..3][..2][..1][..0] == [];
    hide JsonFnsRewritten;
    HelperRound(e, fns);
    HelperRound(e, fns[..3]);
    HelperRound(e, fns[..3][..2]);
    HelperRound(e, fns[..3][..2][..1]);
    NoHelpers(e);
  }

  lemma NoHelpers(e: string)
    ensures JsonFnsRewritten(e, []) == e
  {
  }

  lemma HelperNames()
    ensures IsName("jn:members") && IsName("jn:keys") && IsName("members") && IsName("keys")
  {
  }

  /** A call to a JSON helper becomes the members of its argument. */
  lemma HelperBecomesMembers(head: string, fn: string, arg: string, rest: string)
    requires fn in ["jn:members", "jn:keys", "members", "keys"]
    requires Around(head, arg, rest, "jn:members") && Around(head, arg, rest, "jn:keys")
    requires Around(head, arg, rest, "members") && Around(head, arg, rest, "keys")
    ensures JsonFnsRewritten(head + (fn + ("(" + (arg + (")" + rest)))), JSON_FNS) ==
            head + ("(" + (TrimSpace(arg) + (")/*" + rest)))
  {
    HelperNames();
    hide Around, JsonFnsRewritten, IsName, TrimSpace, Helper;
    HelpersInTurn(Called(head, fn, arg, rest));
    OneOfFour(head, fn, arg, rest, "jn:members", "jn:keys", "members", "keys");
  }

  lemma OneOfFour(head: string, fn: string, arg: string, rest: string, a: string, b: string, c: string, d: string)
    requires IsName(a) && IsName(b) && IsName(c) && IsName(d) && |a| > 2 && |b| > 2 && |c| > 2 && |d| > 2
    requires Around(head, arg, rest, a) && Around(head, arg, rest, b)
    requires Around(head, arg, rest, c) && Around(head, arg, rest, d)
    requires fn == a || fn == b || fn == c || fn == d
    ensures Helper(Helper(Helper(Helper(Called(head, fn, arg, rest), a), b), c), d) ==
            Wrapped(head, arg, rest, "(", ")/*")
  {
    hide Around, IsName, WrapPass, Called, Wrapped;
    HelperStage(head, fn, arg, rest, a, false);
    HelperStage(head, fn, arg, rest, b, fn == a);
    HelperStage(head, fn, arg, rest, c, fn == a || fn == b);
    HelperStage(head, fn, arg, rest, d, fn == a || fn == b || fn == c);
  }

  /** A call that is unwrapped gives way to its argument in parentheses, and
      nothing is kept. */
  lemma UnwrappedIsArgument(head: string, fn: string, arg: string, rest: string)
    requires IsName(fn) && Around(head, arg, rest, fn)
    ensures var e := head + (fn + ("(" + (arg + (")" + rest))));
            && Unwrapped(e, fn) == head + ("(" + (TrimSpace(arg) + (")" + rest)))
            && RestArgs(e, fn) == []
  {
    hide Argument, Calls, TrimSpace;
    OneIsFirst(arg, rest);
    PassWrites(head, fn, arg, arg, rest, ")");
    RestOfOne(head, fn, arg, arg, rest);
    OneArgument(arg);
  }

  /** With a second argument the first one still takes the call's place, and the
      second is kept. */
  lemma UnwrappedKeepsSecond(head: string, fn: string, arg: string, second: string, rest: string)
    requires IsName(fn) && Around(head, arg, rest, fn) && Argument(second)
    ensures var e := head + (fn + ("(" + ((arg + ("," + second)) + (")" + rest))));
            && Unwrapped(e, fn) == head + ("(" + (TrimSpace(arg) + (")" + rest)))
            && RestArgs(e, fn) == [[TrimSpace(second)]]
  {
    hide Argument, Calls, TrimSpace, Args;
    var inner := arg + ("," + second);
    TwoArguments(arg, second, rest);
    PassWrites(head, fn, inner, arg, rest, ")");
    RestOfOne(head, fn, inner, arg, rest);
    assert Args(inner)[1..] == [TrimSpace(second)];
  }

  lemma TwoArguments(arg: string, second: string, rest: string)
    requires Argument(arg) && Argument(second)
    ensures var inner := arg + ("," + second);
            StartsWith(inner, arg, rest) && Args(inner) == [TrimSpace(arg), TrimSpace(second)]
  {
    hide Argument, TrimSpace, ArgsFrom, CloseIn;
    ArgsRead(arg, second);
    OneArgument(second);
    OneIsFirst(second, rest);
    CloseRead(arg, second, rest);
  }

  lemma RestRound(e: string, fn: string)
    requires fn != []
    ensures var t := TargetOf(e, fn);
            RestArgs(e, fn) == if t.Target? then RestOf(e, t) + RestArgs(UnwrapStep(e, t), fn) else []
  {
    hide TargetOf, WrapStep, FindCallIn, RestOf;
  }

  lemma StepRead(head: string, fn: string, inner: string, arg: string, rest: string)
    requires IsName(fn) && Before(head, fn) && StartsWith(inner, arg, rest)
    ensures var e := Called(head, fn, inner, rest);
            && TargetOf(e, fn).Target?
            && UnwrapStep(e, TargetOf(e, fn)) == Wrapped(head, arg, rest, "(", ")")
  {
    hide TargetOf, WrapStep, Before, Called, Wrapped, StartsWith, FindCallIn;
    RoundWrites(head, fn, inner, arg, rest, "(", ")");
  }

  lemma RestKept(head: string, fn: string, inner: string, rest: string)
    requires IsName(fn) && Before(head, fn) && Closes(inner, rest)
    ensures var e := Called(head, fn, inner, rest);
            && TargetOf(e, fn).Target?
            && RestOf(e, TargetOf(e, fn)) == if |Args(inner)| > 1 then [Args(inner)[1..]] else []
  {
    assert fn != [];
    hide TargetOf, Args, Before, Called, Closes, IsName, FindCallIn, RestOf;
    CallFound(head, fn, inner, rest);
    CallParts(head, fn, inner, rest);
    RestRead(Called(head, fn, inner, rest), TargetOf(Called(head, fn, inner, rest), fn), inner);
  }

  lemma RestRead(e: string, t: Target, inner: string)
    requires t.Target? && t.start < t.open < t.close < |e| && e[t.open + 1..t.close] == inner
    ensures RestOf(e, t) == if |Args(inner)| > 1 then [Args(inner)[1..]] else []
  {
    hide Args;
  }

  lemma UnwrappedHoldsNone(head: string, arg: string, rest: string, fn: string)
    requires IsName(fn) && fn != [] && Around(head, arg, rest, fn)
    ensures TargetOf(Wrapped(head, arg, rest, "(", ")"), fn) == Nothing
  {
    assert Ending(")");
    hide Around, Wrapped, IsName, Ending, Calls, TargetOf, FindCallIn;
    NothingMore(head, arg, rest, ")", fn);
    NoTarget(Wrapped(head, arg, rest, "(", ")"), fn);
  }

  lemma RestOfOne(head: string, fn: string, inner: string, arg: string, rest: string)
    requires IsName(fn) && Around(head, arg, rest, fn) && StartsWith(inner, arg, rest)
    ensures RestArgs(Called(head, fn, inner, rest), fn) == if |Args(inner)| > 1 then [Args(inner)[1..]] else []
  {
    assert fn != [] && Closes(inner, rest);
    ArgumentAround(head, arg, rest, fn);
    hide TargetOf, Around, Args, RestArgs, RestOf, UnwrapStep, Called, Wrapped, IsName, StartsWith, FindCallIn, Closes;
    StepRead(head, fn, inner, arg, rest);
    RestKept(head, fn, inner, rest);
    UnwrappedHoldsNone(head, arg, rest, fn);
    RestRound(Called(head, fn, inner, rest), fn);
    RestRound(Wrapped(head, arg, rest, "(", ")"), fn);
  }

  // ---------------------------------------------------------------- json()

  const JSON := "json"
  const PARSE_JSON := "parse-json"

  predicate NoJsonCall(head: string, arg: string, rest: string) {
    && Before(head, JSON) && Before(head, PARSE_JSON) && Argument(arg) && Ends(rest)
    && Calls(arg, JSON, '(') == 0 && Calls(arg, PARSE_JSON, '(') == 0
    && Calls(rest, JSON, ')') == 0 && Calls(rest, PARSE_JSON, ')') == 0
  }

  lemma JsonNames()
    ensures IsName(JSON) && IsName(PARSE_JSON) && JSON != PARSE_JSON
  {
  }

  lemma JsonArgument(head: string, fn: string, arg: string, rest: string)
    requires NoJsonCall(head, arg, rest) && fn in [JSON, PARSE_JSON]
    ensures IsName(fn) && fn != [] && Before(head, fn) && Argument(arg) && Ends(rest)
  {
    JsonNames();
  }

  /** The call in a text, and the root in its place. */
  lemma JsonRoundWrites(head: string, fn: string, arg: string, rest: string)
    requires IsName(fn) && fn != [] && Before(head, fn) && StartsWith(arg, arg, rest) && Ends(rest)
    ensures var e := Called(head, fn, arg, rest);
            && TargetOf(e, fn) == Target(|head|, |head| + |fn|, |head| + |fn| + 1 + |arg|)
            && JsonStep(e, TargetOf(e, fn)) == head + ("/" + rest)
            && ArgOf(e, TargetOf(e, fn)) == TrimSpace(arg)
  {
    assert Closes(arg, rest);
    hide TargetOf, Before, Called, TrimSpace, Closes, StartsWith, FindCallIn, IsName, Ends, JsonStep, ArgOf;
    CallFound(head, fn, arg, rest);
    var e, t := Called(head, fn, arg, rest), Target(|head|, |head| + |fn|, |head| + |fn| + 1 + |arg|);
    PartsOf(head, fn, arg, rest, t);
    RootWritten(head, e, t, rest);
    ArgRead(e, t, arg);
  }

  lemma PartsOf(head: string, fn: string, inner: string, rest: string, t: Target)
    requires fn != [] && t == Target(|head|, |head| + |fn|, |head| + |fn| + 1 + |inner|)
    ensures var e := Called(head, fn, inner, rest);
            && t.start < t.open < t.close < |e|
            && e[..t.start] == head && e[t.open + 1..t.close] == inner && e[t.close + 1..] == rest
  {
    hide Called;
    CallParts(head, fn, inner, rest);
  }

  lemma ArgRead(e: string, t: Target, arg: string)
    requires t.Target? && t.start < t.open < t.close < |e| && e[t.open + 1..t.close] == arg
    ensures ArgOf(e, t) == TrimSpace(arg)
  {
    hide TrimSpace;
  }

  lemma RootWritten(head: string, e: string, t: Target, rest: string)
    requires t.Target? && t.start < t.open < t.close < |e| && Ends(rest)
    requires e[..t.start] == head && e[t.close + 1..] == rest
    ensures JsonStep(e, t) == head + ("/" + rest)
  {
    hide ChainOf, Ends;
    ChainBecomesPath([], rest);
    assert ChainText([]) + rest == rest && rest[0..] == rest;
    Append(head, "/", rest);
  }

  lemma NoJsonLeft(head: string, arg: string, rest: string, fn: string)
    requires NoJsonCall(head, arg, rest) && fn in [JSON, PARSE_JSON]
    ensures TargetOf(head + ("/" + rest), fn) == Nothing
  {
    JsonNames();
    hide Calls, Closed, Nesting;
    CallsJoin(head, "/" + rest, fn, ' ');
    PlainHoldsNone("/", rest, fn, Last(head, ' '));
    PrevAlike(rest, fn, ')', '/');
    NoTarget(head + ("/" + rest), fn);
  }

  lemma OtherJson(head: string, fn: string, arg: string, rest: string, other: string)
    requires NoJsonCall(head, arg, rest) && fn in [JSON, PARSE_JSON] && other in [JSON, PARSE_JSON] && fn != other
    ensures TargetOf(Called(head, fn, arg, rest), other) == Nothing
  {
    JsonNames();
    hide Calls, Closed, Nesting;
    var tail := fn + ("(" + Closing(arg, rest));
    assert fn[0] != ' ' && fn[0] != '(' && !IsQuote(fn[0]);
    CallsJoin(head, tail, other, ' ');
    NameHoldsNone(fn, Closing(arg, rest), other, Last(head, ' '));
    CallsJoin(arg, ")" + rest, other, '(');
    PlainHoldsNone(")", rest, other, Last(arg, '('));
    NoTarget(Called(head, fn, arg, rest), other);
  }

  lemma JsonPassWrites(head: string, fn: string, arg: string, rest: string, source: string)
    requires NoJsonCall(head, arg, rest) && fn in [JSON, PARSE_JSON]
    ensures fn != []
    ensures var e := Called(head, fn, arg, rest);
            && JsonPass(e, fn).text == head + ("/" + rest)
            && JsonSource(e, fn, source) == Noted(source, TrimSpace(arg))
            && TargetOf(e, fn).Target?
  {
    JsonNames();
    assert fn != [];
    hide TargetOf, JsonStep, JsonPass, JsonSource, NoJsonCall, ArgOf, TrimSpace, Noted, FindCallIn;
    var e, r := Called(head, fn, arg, rest), head + ("/" + rest);
    JsonArgument(head, fn, arg, rest);
    OneIsFirst(arg, rest);
    JsonRoundWrites(head, fn, arg, rest);
    NoJsonLeft(head, arg, rest, fn);
    JsonRound(e, fn);
    JsonRound(r, fn);
    SourceRound(e, fn, source);
    SourceRound(r, fn, Noted(source, TrimSpace(arg)));
  }

  lemma JsonPassLeaves(e: string, fn: string, source: string)
    requires fn != [] && TargetOf(e, fn) == Nothing
    ensures JsonPass(e, fn).text == e && JsonSource(e, fn, source) == source
  {
    hide JsonStep, FindCallIn;
    JsonRound(e, fn);
    SourceRound(e, fn, source);
  }

  /** A call to json() or parse-json() becomes the root; of `*` and `.` it is the
      document itself, and anything else is noted as what gives the JSON text. */
  lemma JsonTextIsNoted(head: string, fn: string, arg: string, rest: string)
    requires NoJsonCall(head, arg, rest) && fn in ["json", "parse-json"]
    ensures var e := head + (fn + ("(" + (arg + (")" + rest))));
            && JsonRewritten(e) == head + ("/" + rest)
            && JsonNoted(e) == (true, if TrimSpace(arg) in ["*", "."] then "" else TrimSpace(arg))
  {
    JsonNames();
    hide TargetOf, JsonPass, JsonSource, NoJsonCall, TrimSpace, FindCallIn;
    var e, r := Called(head, fn, arg, rest), head + ("/" + rest);
    JsonPassWrites(head, fn, arg, rest, "");
    if fn == JSON {
      OtherJson(head, fn, arg, rest, PARSE_JSON);
      JsonPassLeaves(e, PARSE_JSON, "");
    } else {
      NoJsonLeft(head, arg, rest, PARSE_JSON);
      NoJsonLeft(head, arg, rest, JSON);
      JsonPassLeaves(r, JSON, Noted("", TrimSpace(arg)));
    }
  }

  // --------------------------------------------------------- the case pass

  const LOWER_CASE := "lower-case"
  const UPPER_CASE := "upper-case"

  /** The text around a call holds no call to either case function. */
  predicate NoCaseCall(head: string, arg: string, rest: string) {
    && Before(head, LOWER_CASE) && Before(head, UPPER_CASE) && Argument(arg)
    && Calls(arg, LOWER_CASE, '(') == 0 && Calls(arg, UPPER_CASE, '(') == 0
    && Calls(rest, LOWER_CASE, ')') == 0 && Calls(rest, UPPER_CASE, ')') == 0
  }

  lemma CaseNames()
    ensures IsName(LOWER_CASE) && Clear(LOWER_CASE) && IsName(UPPER_CASE) && Clear(UPPER_CASE)
    ensures Unquoted(UPPER) && Unquoted(LOWER)
  {
  }

  lemma NoCallLeft(head: string, arg: string, rest: string, from: string, to: string, fn: string)
    requires NoCaseCall(head, arg, rest) && fn in [LOWER_CASE, UPPER_CASE] && Unquoted(from) && Unquoted(to)
    ensures Calls(Translated(head, TrimSpace(arg), rest, from, to), fn, ' ') == 0
  {
    hide Calls, Closed, Nesting, Unquoted, Translated, TrimSpace;
    CaseNames();
    Trimmed(arg, fn);
    ReplacedCounts(head, TrimSpace(arg), rest, from, to, fn);
  }

  lemma TranslatedIsWrapped(head: string, arg: string, rest: string, from: string, to: string)
    ensures Translated(head, TrimSpace(arg), rest, from, to) ==
            Wrapped(head, arg, rest, "translate(", Alphabets(from, to))
  {
  }

  lemma CasePassWrites(head: string, fn: string, arg: string, rest: string, from: string, to: string)
    requires NoCaseCall(head, arg, rest) && fn in [LOWER_CASE, UPPER_CASE] && Clear(fn)
    requires Unquoted(from) && Unquoted(to)
    ensures CasePass(Called(head, fn, arg, rest), fn, from, to).text ==
            Translated(head, TrimSpace(arg), rest, from, to)
  {
    CaseNames();
    hide TargetOf, WrapStep, CasePass, Calls, Closed, Argument, Clear, Unquoted, Alphabets, Translated, IsName;
    hide StartsWith;
    assert fn != [];
    var e, r := Called(head, fn, arg, rest), Translated(head, TrimSpace(arg), rest, from, to);
    ArgumentOf(head, arg, rest);
    OneIsFirst(arg, rest);
    RoundWrites(head, fn, arg, arg, rest, "translate(", Alphabets(from, to));
    TranslatedIsWrapped(head, arg, rest, from, to);
    CaseRound(e, fn, from, to);
    NoCallLeft(head, arg, rest, from, to, fn);
    NoTarget(r, fn);
    CaseRound(r, fn, from, to);
  }

  lemma CasePassLeaves(e: string, fn: string, from: string, to: string)
    requires Clear(fn) && Unquoted(from) && Unquoted(to) && Calls(e, fn, ' ') == 0
    ensures CasePass(e, fn, from, to).text == e
  {
    assert fn != [];
    hide TargetOf, CaseStep, CasePass;
    NoTarget(e, fn);
    CaseRound(e, fn, from, to);
  }

  /** A call to lower-case() becomes one to translate(), from capitals to small
      letters, of the same argument. */
  lemma LowerCaseIsTranslate(head: string, arg: string, rest: string)
    requires NoCaseCall(head, arg, rest)
    ensures CaseRewritten(head + ("lower-case" + ("(" + (arg + (")" + rest))))) ==
            head + ("translate(" + (TrimSpace(arg) +
              (",'" + "ABCDEFGHIJKLMNOPQRSTUVWXYZ" + "','" + "abcdefghijklmnopqrstuvwxyz" + "')" + rest)))
  {
    CaseNames();
    hide CasePass, Calls, NoCaseCall, Clear, Unquoted, TrimSpace;
    CasePassWrites(head, LOWER_CASE, arg, rest, UPPER, LOWER);
    NoCallLeft(head, arg, rest, UPPER, LOWER, UPPER_CASE);
    CasePassLeaves(Translated(head, TrimSpace(arg), rest, UPPER, LOWER), UPPER_CASE, LOWER, UPPER);
  }

  /** And one to upper-case() becomes one from small letters to capitals. */
  lemma UpperCaseIsTranslate(head: string, arg: string, rest: string)
    requires NoCaseCall(head, arg, rest)
    ensures CaseRewritten(head + ("upper-case" + ("(" + (arg + (")" + rest))))) ==
            head + ("translate(" + (TrimSpace(arg) +
              (",'" + "abcdefghijklmnopqrstuvwxyz" + "','" + "ABCDEFGHIJKLMNOPQRSTUVWXYZ" + "')" + rest)))
  {
    CaseNames();
    var e := Called(head, UPPER_CASE, arg, rest);
    assert Calls(e, LOWER_CASE, ' ') == 0 by { UpperIsNotLower(head, arg, rest); }
    hide CasePass, Calls, NoCaseCall, Clear, Unquoted, TrimSpace;
    CasePassLeaves(e, LOWER_CASE, UPPER, LOWER);
    CasePassWrites(head, UPPER_CASE, arg, rest, LOWER, UPPER);
  }

  lemma UpperIsNotLower(head: string, arg: string, rest: string)
    requires NoCaseCall(head, arg, rest)
    ensures Calls(Called(head, UPPER_CASE, arg, rest), LOWER_CASE, ' ') == 0
  {
    hide Calls, Closed, Nesting;
    CaseNames();
    var tail := UPPER_CASE + ("(" + Closing(arg, rest));
    CallsJoin(head, tail, LOWER_CASE, ' ');
    NameHoldsNone(UPPER_CASE, Closing(arg, rest), LOWER_CASE, Last(head, ' '));
    CallsJoin(arg, ")" + rest, LOWER_CASE, '(');
    PlainHoldsNone(")", rest, LOWER_CASE, Last(arg, '('));
  }

  // ------------------------------------------------------ what it is read as

  /** A call to translate() as its arguments read: of `arg`, with the characters
      of one literal for those of the other. */
  predicate Reads(inner: string, arg: string, from: string, to: string) {
    && Closes(inner, "")
    && Args(inner) == [arg, "'" + from + "'", "'" + to + "'"]
  }

  lemma AlphabetsRead(arg: string, from: string, to: string)
    requires Argument(arg) && Unquoted(from) && Unquoted(to)
    ensures Reads(arg + ("," + Quoted(from, to)), TrimSpace(arg), from, to)
  {
    hide Argument, TrimSpace, ArgsFrom, CloseIn, Quoted, Unquoted;
    QuotedArgs(from, to);
    ArgsRead(arg, Quoted(from, to));
    QuotedNesting(from, to);
    CloseRead(arg, Quoted(from, to), "");
  }

  lemma TrimmedTwice(s: string)
    ensures TrimSpace(TrimSpace(s)) == TrimSpace(s)
  {
    hide IsSpace;
    var l := TrimLeft(s);
    var r := TrimRight(l);
    assert r != [] ==> r[0] == l[0];
    assert TrimLeft(r) == r && TrimRight(r) == r;
  }

  /** What the pass writes for either function is read as a call to translate()
      of the same argument, with two alphabets by which translate() changes
      every character as the function does, and no other. */
  lemma CaseMeansTranslate(head: string, fn: string, arg: string, rest: string)
    returns (inner: string, from: string, to: string)
    requires NoCaseCall(head, arg, rest) && fn in ["lower-case", "upper-case"]
    ensures CaseRewritten(Called(head, fn, arg, rest)) == Called(head, "translate", inner, rest)
    ensures Reads(inner, TrimSpace(arg), from, to)
    ensures forall s :: Translate(s, from, to) == Recased(s, fn == "lower-case")
  {
    hide CaseRewritten, NoCaseCall, TrimSpace, Reads, Translate, Recased;
    from, to := if fn == "lower-case" then UPPER else LOWER, if fn == "lower-case" then LOWER else UPPER;
    var t := TrimSpace(arg);
    inner := t + ("," + Quoted(from, to));
    if fn == "lower-case" { LowerCaseIsTranslate(head, arg, rest); } else { UpperCaseIsTranslate(head, arg, rest); }
    AsCall(head, t, from, to, rest);
    CaseNames();
    ArgumentOf(head, arg, rest);
    TrimmedArgument(arg);
    AlphabetsRead(t, from, to);
    TrimmedTwice(arg);
    forall s ensures Translate(s, from, to) == Recased(s, fn == "lower-case") { TranslateRecases(s); }
  }

  /** What the case functions come to on letters. */
  function Recased(s: string, lower: bool): string {
    seq(|s|, i requires 0 <= i < |s| => if lower then LowerChar(s[i]) else UpperChar(s[i]))
  }

  lemma TranslateRecases(s: string)
    ensures Translate(s, UPPER, LOWER) == Recased(s, true) && Translate(s, LOWER, UPPER) == Recased(s, false)
  {
    hide Translate, LowerChar, UpperChar;
    var a, b := Translate(s, UPPER, LOWER), Translate(s, LOWER, UPPER);
    if s == [] { TranslateNothing(s); } else { TranslateChangesCase(s, 0); }
    assert |a| == |b| == |s|;
    forall i | 0 <= i < |s| ensures a[i] == Recased(s, true)[i] && b[i] == Recased(s, false)[i] {
      TranslateChangesCase(s, i);
    }
    assert a == Recased(s, true) && b == Recased(s, false);
  }

  lemma TranslateNothing(s: string)
    requires s == []
    ensures Translate(s, UPPER, LOWER) == [] && Translate(s, LOWER, UPPER) == []
  {
  }

  lemma ArgumentOf(head: string, arg: string, rest: string)
    requires NoCaseCall(head, arg, rest)
    ensures Argument(arg)
  {
  }

  lemma AsCall(head: string, t: string, from: string, to: string, rest: string)
    ensures Called(head, "translate", t + ("," + Quoted(from, to)), rest) ==
            head + ("translate(" + (t + (",'" + from + "','" + to + "')" + rest)))
  {
    var q := Quoted(from, to);
    assert ",'" + from + "','" + to + "')" + rest == "," + q + (")" + rest);
    assert t + ("," + q) + (")" + rest) == t + ("," + q + (")" + rest));
    assert "translate" + ("(" + Closing(t + ("," + q), rest)) == "translate(" + Closing(t + ("," + q), rest);
  }

  /** The two quoted alphabets, as the rest of an argument list. */
  function Quoted(from: string, to: string): string { "'" + from + "','" + to + "'" }

  lemma QuotedParts(from: string, to: string)
    requires Unquoted(from) && Unquoted(to)
    ensures var a, b := "'" + from + "'", "'" + to + "'";
            && Quoted(from, to) == a + ("," + b) && b == b + ""
            && IsLiteral(a, "," + b) && IsLiteral(b, "") && IsLiteral(a, ".") && IsLiteral(b, ".")
  {
    hide IsLiteral;
    QuotedIsLiteral(from, "," + ("'" + to + "'"));
    QuotedIsLiteral(to, "");
    QuotedIsLiteral(from, ".");
    QuotedIsLiteral(to, ".");
  }

  lemma QuotedArgs(from: string, to: string)
    requires Unquoted(from) && Unquoted(to)
    ensures Args(Quoted(from, to)) == ["'" + from + "'", "'" + to + "'"]
  {
    hide IsLiteral, ArgsFrom, TrimSpace, Unquoted, Quoted;
    QuotedParts(from, to);
    QuotesStay(from);
    QuotesStay(to);
    TwoLiterals("'" + from + "'", "'" + to + "'");
  }

  lemma TwoLiterals(a: string, b: string)
    requires IsLiteral(a, "," + b) && IsLiteral(b, "")
    ensures ArgsFrom(a + ("," + b), "", 0) == [TrimSpace(a), TrimSpace(b)]
  {
    hide IsLiteral, ArgsFrom, TrimSpace;
    ArgsLiteral(a, "," + b, "", 0);
    assert "" + a == a && "" + b == b && b + "" == b && "," + b == [','] + b;
    ArgsChar(',', b, a, 0);
    ArgsLiteral(b, "", "", 0);
    ArgsNothing("", b, 0);
  }

  lemma QuoteIsNoSpace()
    ensures !IsSpace('\'')
  {
  }

  lemma QuotesStay(x: string)
    ensures TrimSpace("'" + x + "'") == "'" + x + "'"
  {
    QuoteIsNoSpace();
    hide IsSpace;
    var s := "'" + x + "'";
    assert TrimLeft(s) == s && TrimRight(s) == s;
  }

  lemma QuotedNesting(from: string, to: string)
    requires Unquoted(from) && Unquoted(to)
    ensures Closed(Quoted(from, to)) && Closes(Quoted(from, to), "")
  {
    var a, b := "'" + from + "'", "'" + to + "'";
    QuotedParts(from, to);
    NestingNothing();
    hide IsLiteral, LiteralLength, Nesting, Unquoted, Closed;
    NestingLiteral(a, "," + b, 1, 1);
    NestingChar(',', b, 1, 1);
    NestingLiteral(b, "", 1, 1);
    NoText("", ' ');
    ClosedLiteral(b, "");
    ClosedChar(',', b);
    ClosedLiteral(a, "," + b);
    ClosesAfter(Quoted(from, to), "", 1, 1);
  }

  lemma NestingNothing()
    ensures Nesting("", 1, 1) == Some((1, 1))
  {
  }
}
