/** How many calls to a function an expression holds, as the scanners see them
    (internal/txquery/rewrite.go), and how the number follows the text apart. */
module CallCount {
  import opened Spaces
  import opened Scanner

  /** The calls to `fn` in `s`, outside literals; `prev` stands before `s`. */
  function Calls(s: string, fn: string, prev: char): nat
    decreases |s|
  {
    if s == [] then 0
    else if IsQuote(s[0]) then Calls(s[LiteralLength(s)..], fn, s[LiteralLength(s) - 1])
    else (if CallsAt(s, fn) && !Continues(prev) then 1 else 0) + Calls(s[1..], fn, s[0])
  }

  function Last(s: string, prev: char): char { if s == [] then prev else s[|s| - 1] }

  /** Every literal that opens in `s` is closed in it. */
  predicate Closed(s: string)
    decreases |s|
  {
    if s == [] then true
    else if IsQuote(s[0]) then IsLiteral(s[..LiteralLength(s)], ".") && Closed(s[LiteralLength(s)..])
    else Closed(s[1..])
  }

  // ------------------------------------------------------------- one step

  lemma CountLiteral(lit: string, rest: string, fn: string, prev: char)
    requires IsLiteral(lit, rest)
    ensures Calls(lit + rest, fn, prev) == Calls(rest, fn, lit[|lit| - 1])
  {
    var s := lit + rest;
    assert s[|lit|..] == rest && s[|lit| - 1] == lit[|lit| - 1];
  }

  lemma CountChar(c: char, rest: string, fn: string, prev: char)
    requires !IsQuote(c)
    ensures Calls([c] + rest, fn, prev) ==
            (if CallsAt([c] + rest, fn) && !Continues(prev) then 1 else 0) + Calls(rest, fn, c)
  {
    assert ([c] + rest)[1..] == rest;
  }

  lemma ClosedLiteral(lit: string, rest: string)
    requires IsLiteral(lit, rest)
    ensures Closed(lit + rest) <==> IsLiteral(lit, ".") && Closed(rest)
  {
    assert (lit + rest)[..|lit|] == lit && (lit + rest)[|lit|..] == rest;
  }

  lemma ClosedChar(c: char, rest: string)
    requires !IsQuote(c)
    ensures Closed([c] + rest) <==> Closed(rest)
  {
    assert ([c] + rest)[1..] == rest;
  }

  /** A closed literal stays one whatever follows it but its own quote. */
  lemma LiteralKeeps(lit: string, rest: string, after: string)
    requires IsLiteral(lit, rest) && rest != []
    requires after != [] ==> after[0] != lit[0]
    ensures IsLiteral(lit, after)
  {
    var s := lit + rest;
    assert s[..|lit|] == lit && s[|lit|..] == rest;
    AfterLiteral(s);
    LiteralKept(s, after);
  }

  lemma NotItsQuote(lit: string, rest: string)
    requires IsLiteral(lit, rest) && rest != []
    ensures rest[0] != lit[0]
  {
    AfterLiteral(lit + rest);
    assert (lit + rest)[|lit|] == rest[0];
  }

  /** A call is still one with more text after it. */
  lemma CallsAtLonger(s: string, more: string, fn: string)
    requires CallsAt(s, fn)
    ensures CallsAt(s + more, fn)
  {
    assert (s + more)[|fn|..] == s[|fn|..] + more;
    BlanksKept(s[|fn|..], more);
  }

  lemma {:induction false} BlanksKept(s: string, more: string)
    requires Blanks(s) < |s| || more == [] || more[0] != ' '
    ensures Blanks(s + more) == Blanks(s)
    decreases |s|
  {
    if s == [] {
      assert s + more == more;
    } else if s[0] == ' ' {
      assert (s + more)[1..] == s[1..] + more;
      BlanksKept(s[1..], more);
    }
  }

  /** A character no call to `fn` can run into from the left. */
  predicate Stops(c: char, fn: string) { c !in fn && c != ' ' && c != '(' && !IsQuote(c) }

  lemma CallsAtStop(s: string, more: string, fn: string)
    requires s != [] && (more == [] || Stops(more[0], fn))
    ensures CallsAt(s + more, fn) <==> CallsAt(s, fn)
  {
    var t := s + more;
    if |fn| > |s| {
      NoRunOver(s, more, fn);
    } else if fn <= s {
      assert t[|fn|..] == s[|fn|..] + more;
      BlanksKept(s[|fn|..], more);
    }
  }

  lemma NoRunOver(s: string, more: string, fn: string)
    requires |fn| > |s| && (more == [] || Stops(more[0], fn))
    ensures !(fn <= s + more)
  {
    if more != [] { assert fn[|s|] in fn && (s + more)[|s|] == more[0]; }
  }

  // ------------------------------------------------------ counting in parts

  lemma AddChar(c: char, rest: string, more: string, fn: string, prev: char)
    requires !IsQuote(c) && (more == [] || Stops(more[0], fn))
    ensures Calls([c] + rest + more, fn, prev) - Calls(rest + more, fn, c) ==
            Calls([c] + rest, fn, prev) - Calls(rest, fn, c)
  {
    hide Calls, CallsAt;
    var s := [c] + rest;
    CallsAtStop(s, more, fn);
    CountChar(c, rest, fn, prev);
    Append([c], rest, more);
    CountChar(c, rest + more, fn, prev);
  }

  lemma StopIsPlain(more: string, fn: string)
    requires more == [] || Stops(more[0], fn)
    ensures more == [] || !IsQuote(more[0])
  {
  }

  lemma AddLiteral(lit: string, rest: string, more: string, fn: string, prev: char)
    requires IsLiteral(lit, rest) && IsLiteral(lit, ".") && (more == [] || !IsQuote(more[0]))
    ensures Calls(lit + rest + more, fn, prev) == Calls(rest + more, fn, lit[|lit| - 1])
    ensures Calls(lit + rest, fn, prev) == Calls(rest, fn, lit[|lit| - 1])
  {
    hide Calls, LiteralLength;
    LiteralGoesOn(lit, rest, more);
    CountLiteral(lit, rest, fn, prev);
    Append(lit, rest, more);
    CountLiteral(lit, rest + more, fn, prev);
  }

  predicate Adds(s: string, more: string, fn: string, prev: char) {
    Calls(s + more, fn, prev) == Calls(s, fn, prev) + Calls(more, fn, Last(s, prev))
  }

  lemma AddsLiteral(lit: string, rest: string, more: string, fn: string, prev: char)
    requires IsLiteral(lit, rest) && IsLiteral(lit, ".") && (more == [] || !IsQuote(more[0]))
    requires Adds(rest, more, fn, lit[|lit| - 1])
    ensures Adds(lit + rest, more, fn, prev)
  {
    hide Calls, LiteralLength;
    AddLiteral(lit, rest, more, fn, prev);
    assert Last(lit + rest, prev) == Last(rest, lit[|lit| - 1]);
  }

  lemma AddsChar(c: char, rest: string, more: string, fn: string, prev: char)
    requires !IsQuote(c) && (more == [] || Stops(more[0], fn)) && Adds(rest, more, fn, c)
    ensures Adds([c] + rest, more, fn, prev)
  {
    hide Calls, Stops;
    AddChar(c, rest, more, fn, prev);
    assert Last([c] + rest, prev) == Last(rest, c);
  }

  lemma AddsNothing(more: string, fn: string, prev: char)
    ensures Adds("", more, fn, prev)
  {
    assert "" + more == more;
  }

  /** The calls of a closed text and of what follows a stop add up. */
  lemma {:induction false} CallsAdd(s: string, more: string, fn: string, prev: char)
    requires Closed(s) && (more == [] || Stops(more[0], fn))
    ensures Adds(s, more, fn, prev)
    decreases |s|
  {
    hide Adds, IsLiteral, LiteralLength, Closed, Stops;
    if s == [] {
      AddsNothing(more, fn, prev);
    } else {
      Peel(s, 0);
      assert s[0..] == s;
      if IsQuote(s[0]) {
        var n := LiteralLength(s);
        ClosedFirst(s);
        StopIsPlain(more, fn);
        CallsAdd(s[n..], more, fn, s[n - 1]);
        AddsLiteral(s[..n], s[n..], more, fn, prev);
      } else {
        ClosedChar(s[0], s[1..]);
        CallsAdd(s[1..], more, fn, s[0]);
        AddsChar(s[0], s[1..], more, fn, prev);
      }
    }
  }

  lemma LiteralGoesOn(lit: string, rest: string, more: string)
    requires IsLiteral(lit, rest) && IsLiteral(lit, ".")
    requires more == [] || !IsQuote(more[0])
    ensures IsLiteral(lit, rest + more)
  {
    if rest == [] { assert rest + more == more; } else { NotItsQuote(lit, rest); }
    LiteralKeeps(lit, ".", rest + more);
  }

  lemma GrowChar(c: char, rest: string, more: string, fn: string, prev: char)
    requires !IsQuote(c)
    ensures Calls([c] + rest + more, fn, prev) - Calls(rest + more, fn, c) >=
            Calls([c] + rest, fn, prev) - Calls(rest, fn, c)
  {
    hide Calls, CallsAt;
    var s := [c] + rest;
    if CallsAt(s, fn) { CallsAtLonger(s, more, fn); }
    CountChar(c, rest, fn, prev);
    Append([c], rest, more);
    CountChar(c, rest + more, fn, prev);
  }

  /** Text after a closed one takes no call away. */
  lemma {:induction false} CallsGrow(s: string, more: string, fn: string, prev: char)
    requires Closed(s) && (more == [] || !IsQuote(more[0]))
    ensures Calls(s + more, fn, prev) >= Calls(s, fn, prev)
    decreases |s|
  {
    if s != [] {
      hide Calls, CallsAt, IsLiteral, LiteralLength;
      Peel(s, 0);
      assert s[0..] == s;
      if IsQuote(s[0]) {
        var n := LiteralLength(s);
        AddLiteral(s[..n], s[n..], more, fn, prev);
        CallsGrow(s[n..], more, fn, s[n - 1]);
      } else {
        GrowChar(s[0], s[1..], more, fn, prev);
        CallsGrow(s[1..], more, fn, s[0]);
      }
    }
  }

  /** Dropping text without quotes from the front adds no call. */
  lemma {:induction false} CallsDrop(p: string, s: string, fn: string, prev: char)
    requires forall i :: 0 <= i < |p| ==> !IsQuote(p[i])
    ensures Calls(p + s, fn, prev) >= Calls(s, fn, Last(p, prev))
    decreases |p|
  {
    if p == [] {
      assert p + s == s;
    } else {
      hide Calls, CallsAt;
      assert p + s == [p[0]] + (p[1..] + s);
      CountChar(p[0], p[1..] + s, fn, prev);
      CallsDrop(p[1..], s, fn, p[0]);
    }
  }

  lemma PrevAlike(s: string, fn: string, p: char, q: char)
    requires !Continues(p) && !Continues(q)
    ensures Calls(s, fn, p) == Calls(s, fn, q)
  {
  }

  /** A name that cannot be the start of a call holds none. */
  lemma {:induction false} NameSkipped(p: string, s: string, fn: string, prev: char)
    requires p != [] && fn != [] && (Continues(prev) || p[0] != fn[0])
    requires forall i :: 0 <= i < |p| - 1 ==> IsNameChar(p[i])
    requires !IsQuote(p[|p| - 1])
    ensures Calls(p + s, fn, prev) == Calls(s, fn, p[|p| - 1])
    decreases |p|
  {
    assert p + s == [p[0]] + (p[1..] + s);
    CountChar(p[0], p[1..] + s, fn, prev);
    if |p| == 1 {
      assert p[1..] + s == s;
    } else {
      NameSkipped(p[1..], s, fn, p[0]);
    }
  }

  // ------------------------------------------------------- where parts end

  /** At `c` stands a call, and the text before it is closed and holds none. */
  predicate Leads(s: string, fn: string, prev: char, c: Call)
    requires c.Call? && c.start < |s|
  {
    && CallsAt(s[c.start..], fn) && c.open == c.start + OpenOf(s[c.start..], fn)
    && Closed(s[..c.start]) && Calls(s[..c.start], fn, prev) == 0
    && Calls(s, fn, prev) >= 1 + Calls(s[c.start + 1..], fn, s[c.start])
  }

  lemma LeadsLiteral(lit: string, rest: string, fn: string, prev: char, d: Call)
    requires IsLiteral(lit, rest) && d.Call? && d.start < |rest| && Leads(rest, fn, lit[|lit| - 1], d)
    ensures Leads(lit + rest, fn, prev, Call(|lit| + d.start, |lit| + d.open))
  {
    hide Calls, CallsAt, Closed, LiteralLength;
    var s, start := lit + rest, |lit| + d.start;
    assert s[..start] == lit + rest[..d.start];
    assert s[start..] == rest[d.start..] && s[start + 1..] == rest[d.start + 1..];
    CountLiteral(lit, rest, fn, prev);
    NotItsQuote(lit, rest);
    LiteralKeeps(lit, rest, ".");
    LiteralKeeps(lit, rest, rest[..d.start]);
    ClosedLiteral(lit, rest[..d.start]);
    CountLiteral(lit, rest[..d.start], fn, prev);
  }

  lemma LeadsChar(x: char, rest: string, fn: string, prev: char, d: Call)
    requires !IsQuote(x) && !(CallsAt([x] + rest, fn) && !Continues(prev))
    requires d.Call? && d.start < |rest| && Leads(rest, fn, x, d)
    ensures Leads([x] + rest, fn, prev, Call(1 + d.start, 1 + d.open))
  {
    hide Calls, CallsAt, Closed;
    var s, start := [x] + rest, 1 + d.start;
    var head := [x] + rest[..d.start];
    assert s[..start] == head && s == head + rest[d.start..];
    assert s[start..] == rest[d.start..] && s[start + 1..] == rest[d.start + 1..];
    CountChar(x, rest, fn, prev);
    if CallsAt(head, fn) { CallsAtLonger(head, rest[d.start..], fn); }
    ClosedChar(x, rest[..d.start]);
    CountChar(x, rest[..d.start], fn, prev);
  }

  lemma LeadsHere(s: string, fn: string, prev: char)
    requires s != [] && !IsQuote(s[0]) && CallsAt(s, fn) && !Continues(prev)
    ensures Leads(s, fn, prev, Call(0, OpenOf(s, fn)))
  {
    assert s[..0] == "" && s[0..] == s;
  }

  /** Up to its first call a text is closed and holds no call. */
  lemma {:induction false} BeforeFirstCall(s: string, fn: string, prev: char)
    requires fn != [] && FirstCall(s, fn, prev).Call?
    ensures Leads(s, fn, prev, FirstCall(s, fn, prev))
    decreases |s|
  {
    hide Leads, CallsAt, FirstCall, IsLiteral, LiteralLength;
    if s == [] {
      TooShortToCall(s, fn, prev);
      assert false;
    }
    Peel(s, 0);
    assert s[0..] == s;
    if IsQuote(s[0]) {
      var n := LiteralLength(s);
      var lit, rest := s[..n], s[n..];
      CallAfterLiteral(lit, rest, fn, prev);
      BeforeFirstCall(rest, fn, lit[n - 1]);
      LeadsLiteral(lit, rest, fn, prev, FirstCall(rest, fn, lit[n - 1]));
    } else {
      var rest := s[1..];
      CallAtChar(s[0], rest, fn, prev);
      if CallsAt(s, fn) && !Continues(prev) {
        LeadsHere(s, fn, prev);
      } else {
        BeforeFirstCall(rest, fn, s[0]);
        LeadsChar(s[0], rest, fn, prev, FirstCall(rest, fn, s[0]));
      }
    }
  }

  lemma NoText(fn: string, prev: char)
    ensures Closed("") && Calls("", fn, prev) == 0
  {
  }

  /** What stands between parentheses is closed. */
  lemma {:induction false} ClosedInside(s: string, depth: int)
    requires CloseIn(s, depth).Some?
    ensures s[CloseIn(s, depth).value] == ')' && Closed(s[..CloseIn(s, depth).value])
    decreases |s|
  {
    hide Closed, CloseIn, IsLiteral, LiteralLength;
    if s == [] {
      CloseNothing(s, depth);
      assert false;
    }
    Peel(s, 0);
    assert s[0..] == s;
    var v := CloseIn(s, depth).value;
    if IsQuote(s[0]) {
      var n := LiteralLength(s);
      var lit, rest := s[..n], s[n..];
      CloseLiteral(lit, rest, depth);
      ClosedInside(rest, depth);
      var u := CloseIn(rest, depth).value;
      assert s[..v] == lit + rest[..u];
      NotItsQuote(lit, rest);
      LiteralKeeps(lit, rest, ".");
      LiteralKeeps(lit, rest, rest[..u]);
      ClosedLiteral(lit, rest[..u]);
    } else {
      var rest := s[1..];
      CloseChar(s[0], rest, depth);
      if s[0] == ')' && depth == 1 {
        assert s[..0] == "";
        NoText("", ' ');
      } else {
        ClosedInside(rest, Deeper(s[0], depth));
        var u := CloseIn(rest, Deeper(s[0], depth)).value;
        assert s[..v] == [s[0]] + rest[..u];
        ClosedChar(s[0], rest[..u]);
      }
    }
  }

  /** How much of an argument list is its first argument. */
  function FirstArgument(s: string, depth: int): (n: nat)
    ensures n <= |s|
    decreases |s|
  {
    if s == [] then 0
    else if IsQuote(s[0]) then LiteralLength(s) + FirstArgument(s[LiteralLength(s)..], depth)
    else if s[0] == ',' && depth == 0 then 0
    else 1 + FirstArgument(s[1..], ArgDepth(s[0], depth))
  }

  lemma FirstArgumentLiteral(lit: string, rest: string, depth: int)
    requires IsLiteral(lit, rest)
    ensures FirstArgument(lit + rest, depth) == |lit| + FirstArgument(rest, depth)
  {
    assert (lit + rest)[|lit|..] == rest;
  }

  lemma FirstArgumentChar(c: char, rest: string, depth: int)
    requires !IsQuote(c)
    ensures FirstArgument([c] + rest, depth) ==
            if c == ',' && depth == 0 then 0 else 1 + FirstArgument(rest, ArgDepth(c, depth))
  {
    assert ([c] + rest)[1..] == rest;
  }

  /** The first argument is the text up to a comma or the end; both sides of
      the cut are closed. */
  predicate Cut(s: string, cur: string, depth: int) {
    var n := FirstArgument(s, depth);
    && ArgsFrom(s, cur, depth)[0] == TrimSpace(cur + s[..n])
    && (n < |s| ==> s[n] == ',') && Closed(s[..n]) && Closed(s[n..])
  }

  lemma CutLiteral(lit: string, rest: string, cur: string, depth: int)
    requires IsLiteral(lit, rest) && IsLiteral(lit, ".") && Cut(rest, cur + lit, depth)
    ensures Cut(lit + rest, cur, depth)
  {
    hide ArgsFrom, FirstArgument, TrimSpace, LiteralLength, Closed;
    ArgsLiteral(lit, rest, cur, depth);
    FirstArgumentLiteral(lit, rest, depth);
    var s, m := lit + rest, FirstArgument(rest, depth);
    assert s[..|lit| + m] == lit + rest[..m] && s[|lit| + m..] == rest[m..];
    Append(cur, lit, rest[..m]);
    if rest != [] { NotItsQuote(lit, rest); }
    LiteralKeeps(lit, ".", rest[..m]);
    ClosedLiteral(lit, rest[..m]);
  }

  lemma CutChar(c: char, rest: string, cur: string, depth: int)
    requires !IsQuote(c) && !(c == ',' && depth == 0) && Cut(rest, cur + [c], ArgDepth(c, depth))
    ensures Cut([c] + rest, cur, depth)
  {
    hide ArgsFrom, FirstArgument, TrimSpace, Closed;
    ArgsChar(c, rest, cur, depth);
    FirstArgumentChar(c, rest, depth);
    var s, m := [c] + rest, FirstArgument(rest, ArgDepth(c, depth));
    assert s[..1 + m] == [c] + rest[..m] && s[1 + m..] == rest[m..];
    Append(cur, [c], rest[..m]);
    ClosedChar(c, rest[..m]);
  }

  lemma CutHere(s: string, cur: string, depth: int)
    requires Closed(s) && (s == [] || (s[0] == ',' && depth == 0))
    ensures Cut(s, cur, depth)
  {
    assert s[..0] == [] && s[0..] == s && cur + [] == cur;
  }

  lemma {:induction false} FirstArgumentCut(s: string, cur: string, depth: int)
    requires Closed(s)
    ensures Cut(s, cur, depth)
    decreases |s|
  {
    hide Cut, IsLiteral, LiteralLength;
    if s == [] || (s[0] == ',' && depth == 0) {
      CutHere(s, cur, depth);
    } else {
      Peel(s, 0);
      assert s[0..] == s;
      if IsQuote(s[0]) {
        var k := LiteralLength(s);
        FirstArgumentCut(s[k..], cur + s[..k], depth);
        CutLiteral(s[..k], s[k..], cur, depth);
      } else {
        FirstArgumentCut(s[1..], cur + [s[0]], ArgDepth(s[0], depth));
        CutChar(s[0], s[1..], cur, depth);
      }
    }
  }

  // -------------------------------------------------------------- trimming

  lemma {:induction false} LiteralEnds(s: string, q: char)
    requires LiteralRest(s, q) < |s|
    ensures LiteralRest(s, q) > 0 && s[LiteralRest(s, q) - 1] == q
    decreases |s|
  {
    if s[0] != q {
      LiteralEnds(s[1..], q);
    } else if |s| > 1 && s[1] == q {
      LiteralEnds(s[2..], q);
    }
  }

  lemma ClosedLiteralEnds(lit: string)
    requires IsLiteral(lit, ".")
    ensures |lit| > 1 && IsQuote(lit[|lit| - 1])
  {
    var s := lit + ".";
    LiteralEnds(s[1..], s[0]);
    assert s[1..][|lit| - 2] == lit[|lit| - 1];
  }

  /** A text without quotes after a closed one leaves it closed when cut off. */
  lemma {:induction false} ClosedBefore(s: string, w: string)
    requires Closed(s + w) && forall i :: 0 <= i < |w| ==> !IsQuote(w[i])
    ensures Closed(s)
    decreases |s|
  {
    if s != [] {
      var t := s + w;
      hide IsLiteral, LiteralLength, Closed;
      Peel(t, 0);
      assert t[0..] == t;
      if IsQuote(s[0]) {
        var n := LiteralLength(t);
        var lit := t[..n];
        ClosedFirst(t);
        ClosedLiteralEnds(lit);
        assert forall i :: |s| <= i < |t| ==> t[i] == w[i - |s|];
        assert t[n - 1] == lit[n - 1];
        assert t[n..] == s[n..] + w && s == lit + s[n..];
        ClosedBefore(s[n..], w);
        if n < |t| {
          NotItsQuote(lit, t[n..]);
          LiteralKeeps(lit, t[n..], s[n..]);
        } else {
          assert t[n..] == s[n..];
        }
        ClosedLiteral(lit, s[n..]);
      } else {
        assert t == [s[0]] + (s[1..] + w) && s == [s[0]] + s[1..];
        ClosedChar(s[0], s[1..] + w);
        ClosedBefore(s[1..], w);
        ClosedChar(s[0], s[1..]);
      }
    }
  }

  lemma ClosedFirst(s: string)
    requires s != [] && IsQuote(s[0]) && Closed(s)
    ensures IsLiteral(s[..LiteralLength(s)], ".") && Closed(s[LiteralLength(s)..])
  {
  }

  lemma {:induction false} ClosedAfter(w: string, s: string)
    requires Closed(w + s) && forall i :: 0 <= i < |w| ==> !IsQuote(w[i])
    ensures Closed(s)
    decreases |w|
  {
    if w == [] {
      assert w + s == s;
    } else {
      assert w + s == [w[0]] + (w[1..] + s);
      ClosedChar(w[0], w[1..] + s);
      ClosedAfter(w[1..], s);
    }
  }

  /** Trimming an argument leaves it closed and adds no call. */
  lemma Trimmed(s: string, fn: string)
    requires Closed(s)
    ensures Closed(TrimSpace(s)) && Calls(TrimSpace(s), fn, '(') <= Calls(s, fn, '(')
  {
    hide Calls, Closed, TrimLeft, TrimRight;
    TrimmedLeft(s, fn);
    TrimmedRight(TrimLeft(s), fn);
  }

  lemma TrimmedLeft(s: string, fn: string)
    requires Closed(s)
    ensures Closed(TrimLeft(s)) && Calls(TrimLeft(s), fn, '(') <= Calls(s, fn, '(')
  {
    hide Calls, Closed, TrimLeft;
    var t := TrimLeft(s);
    var w := s[..|s| - |t|];
    assert s == w + t;
    ClosedAfter(w, t);
    CallsDrop(w, t, fn, '(');
    PrevAlike(t, fn, '(', Last(w, '('));
  }

  lemma TrimmedRight(s: string, fn: string)
    requires Closed(s)
    ensures Closed(TrimRight(s)) && Calls(TrimRight(s), fn, '(') <= Calls(s, fn, '(')
  {
    hide Calls, Closed, TrimRight;
    var r := TrimRight(s);
    var x := s[|r|..];
    assert s == r + x;
    assert forall i :: 0 <= i < |x| ==> x[i] == s[|r| + i];
    ClosedBefore(r, x);
    CallsGrow(r, x, fn, '(');
  }

  // ------------------------------------------------------------- literals

  lemma {:induction false} PlainRest(x: string, rest: string)
    requires forall i :: 0 <= i < |x| ==> x[i] != '\''
    requires rest != [] ==> rest[0] != '\''
    ensures LiteralRest(x + "'" + rest, '\'') == |x| + 1
    decreases |x|
  {
    var s := x + "'" + rest;
    if x != [] {
      assert s[1..] == x[1..] + "'" + rest;
      PlainRest(x[1..], rest);
    }
  }

  lemma QuotedIsLiteral(x: string, rest: string)
    requires forall i :: 0 <= i < |x| ==> x[i] != '\''
    requires rest != [] ==> rest[0] != '\''
    ensures IsLiteral("'" + x + "'", rest)
  {
    PlainRest(x, rest);
    assert ("'" + x + "'" + rest)[1..] == x + "'" + rest;
  }
}
