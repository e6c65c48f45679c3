/** The literal-aware scanners the expression passes are built on
    (internal/txquery/rewrite.go). Each is a function on the text that is left
    and a method with the program's index loop. */
module Scanner {
  import opened Options
  import opened Spaces

  predicate IsNameChar(c: char) { 'a' <= c <= 'z' || 'A' <= c <= 'Z' || '0' <= c <= '9' }

  predicate IsDigit(c: char) { '0' <= c <= '9' }

  predicate IsQuote(c: char) { c == '\'' || c == '"' }

  // ------------------------------------------------------------- literals

  /** How much of `s`, the text after an opening quote `q`, belongs to the
      literal: all of it if the quote is never closed. A doubled quote is an
      escaped one. */
  function LiteralRest(s: string, q: char): (n: nat)
    ensures n <= |s|
  {
    if s == [] then 0
    else if s[0] != q then 1 + LiteralRest(s[1..], q)
    else if |s| > 1 && s[1] == q then 2 + LiteralRest(s[2..], q)
    else 1
  }

  /** The length of the literal `s` starts with. */
  function LiteralLength(s: string): (n: nat)
    requires s != [] && IsQuote(s[0])
    ensures 1 <= n <= |s|
  {
    1 + LiteralRest(s[1..], s[0])
  }

  method SkipLiteral(s: string, i: nat) returns (j: int)
    ensures j == if i < |s| && IsQuote(s[i]) then i + LiteralLength(s[i..]) else -1
  {
    if i >= |s| || (s[i] != '\'' && s[i] != '"') {
      return -1;
    }
    var q, k := s[i], i + 1;
    assert s[i..][1..] == s[k..];
    while k < |s|
      invariant i < k <= |s|
      invariant k + LiteralRest(s[k..], q) == i + LiteralLength(s[i..])
    {
      assert s[k..][1..] == s[k + 1..];
      if s[k] != q {
        k := k + 1;
        continue;
      }
      if k + 1 < |s| && s[k + 1] == q {
        assert s[k..][2..] == s[k + 2..];
        k := k + 2;
        continue;
      }
      return k + 1;
    }
    return |s|;
  }

  /** The literals of a text, in order. */
  function Literals(s: string): seq<string> {
    if s == [] then []
    else if IsQuote(s[0]) then var n := LiteralLength(s); [s[..n]] + Literals(s[n..])
    else Literals(s[1..])
  }

  /** What belongs to the literal still does with `after` behind it. */
  predicate RestKept(s: string, q: char, after: string) {
    LiteralRest(s[..LiteralRest(s, q)] + after, q) == LiteralRest(s, q)
  }

  lemma KeptPlain(s: string, q: char, after: string)
    requires s != [] && s[0] != q && RestKept(s[1..], q, after)
    ensures RestKept(s, q, after)
  {
    var n := LiteralRest(s[1..], q);
    assert LiteralRest(s, q) == 1 + n;
    hide LiteralRest;
    RestGoesOn(s[0], s[1..][..n] + after, q);
    assert s[..1 + n] + after == [s[0]] + (s[1..][..n] + after);
  }

  lemma KeptDoubled(s: string, q: char, after: string)
    requires |s| > 1 && s[0] == q && s[1] == q && RestKept(s[2..], q, after)
    ensures RestKept(s, q, after)
  {
    var n := LiteralRest(s[2..], q);
    assert LiteralRest(s, q) == 2 + n;
    hide LiteralRest;
    RestDoubled(s[2..][..n] + after, q);
    assert s[..2 + n] + after == [q, q] + (s[2..][..n] + after);
  }

  lemma KeptClosed(s: string, q: char, after: string)
    requires s != [] && s[0] == q && !(|s| > 1 && s[1] == q) && (after != [] ==> after[0] != q)
    ensures RestKept(s, q, after)
  {
    assert s[..1] + after == [q] + after;
  }

  lemma {:induction false} LiteralRestKept(s: string, q: char, after: string)
    requires LiteralRest(s, q) == |s| ==> after == [] || (s != [] && RestCloses(s, q))
    requires after != [] ==> after[0] != q
    ensures RestKept(s, q, after)
    decreases |s|
  {
    hide RestKept;
    if s == [] {
      NothingRests(q, after);
    } else if s[0] != q {
      LiteralRestKept(s[1..], q, after);
      KeptPlain(s, q, after);
    } else if |s| > 1 && s[1] == q {
      LiteralRestKept(s[2..], q, after);
      KeptDoubled(s, q, after);
    } else {
      KeptClosed(s, q, after);
    }
  }

  lemma NothingRests(q: char, after: string)
    requires after == []
    ensures RestKept([], q, after)
  {
    assert [] + after == [];
  }

  lemma RestGoesOn(c: char, rest: string, q: char)
    requires c != q
    ensures LiteralRest([c] + rest, q) == 1 + LiteralRest(rest, q)
  {
    assert ([c] + rest)[1..] == rest;
  }

  lemma RestDoubled(rest: string, q: char)
    ensures LiteralRest([q, q] + rest, q) == 2 + LiteralRest(rest, q)
  {
    assert ([q, q] + rest)[2..] == rest;
  }

  /** Whether the quote that opened before `s` is closed in it. */
  predicate RestCloses(s: string, q: char) {
    s != [] &&
    (if s[0] != q then RestCloses(s[1..], q)
     else if |s| > 1 && s[1] == q then RestCloses(s[2..], q)
     else true)
  }

  /** A literal stays one whatever follows it, if that is not its own quote. */
  lemma LiteralKept(s: string, after: string)
    requires s != [] && IsQuote(s[0])
    requires LiteralLength(s) == |s| ==> after == [] || RestCloses(s[1..], s[0])
    requires after != [] ==> after[0] != s[0]
    ensures var n := LiteralLength(s);
            && IsQuote((s[..n] + after)[0]) && LiteralLength(s[..n] + after) == n
            && (s[..n] + after)[..n] == s[..n] && (s[..n] + after)[n..] == after
  {
    var n := LiteralLength(s);
    assert (s[..n] + after)[1..] == s[1..][..n - 1] + after;
    LiteralRestKept(s[1..], s[0], after);
  }

  /** What follows a literal is not its own quote. */
  lemma {:induction false} AfterRest(s: string, q: char)
    ensures var n := LiteralRest(s, q); n < |s| ==> s[n] != q && RestCloses(s, q)
    decreases |s|
  {
    if s != [] {
      if s[0] != q { AfterRest(s[1..], q); }
      else if |s| > 1 && s[1] == q { AfterRest(s[2..], q); }
    }
  }

  lemma AfterLiteral(s: string)
    requires s != [] && IsQuote(s[0])
    ensures var n := LiteralLength(s); n < |s| ==> s[n] != s[0] && RestCloses(s[1..], s[0])
  {
    AfterRest(s[1..], s[0]);
  }

  /** `lit` is the literal that `lit + rest` starts with. */
  predicate IsLiteral(lit: string, rest: string) {
    lit != [] && IsQuote(lit[0]) && LiteralLength(lit + rest) == |lit|
  }

  /** The text from an index on, split after its first literal or character. */
  lemma Peel(s: string, i: nat)
    requires i < |s|
    ensures s[i..] == [s[i]] + s[i + 1..]
    ensures IsQuote(s[i]) ==>
              var j := i + LiteralLength(s[i..]);
              i < j <= |s| && s[i..] == s[i..j] + s[j..] && IsLiteral(s[i..j], s[j..])
  {
    if IsQuote(s[i]) {
      var j := i + LiteralLength(s[i..]);
      assert s[i..] == s[i..j] + s[j..];
    }
  }

  /** A literal stays one whatever follows it, if that is not its own quote and,
      when the text ended unclosed, nothing. */
  lemma LiteralStays(lit: string, rest: string, after: string)
    requires IsLiteral(lit, rest)
    requires rest == [] ==> after == []
    requires after != [] ==> after[0] == rest[0] || !IsQuote(after[0])
    ensures IsLiteral(lit, after)
  {
    var s := lit + rest;
    assert s[..|lit|] == lit && s[|lit|..] == rest;
    AfterLiteral(s);
    if rest != [] { assert s[|lit|] == rest[0]; }
    LiteralKept(s, after);
  }

  lemma LiteralsOfLiteral(lit: string, rest: string)
    requires IsLiteral(lit, rest)
    ensures Literals(lit + rest) == [lit] + Literals(rest)
  {
    var s := lit + rest;
    assert s[..|lit|] == lit && s[|lit|..] == rest;
  }

  lemma {:induction false} LiteralsAfterPlain(p: string, s: string)
    requires forall i :: 0 <= i < |p| ==> !IsQuote(p[i])
    ensures Literals(p + s) == Literals(s)
    decreases |p|
  {
    if p == [] {
      assert p + s == s;
    } else {
      assert (p + s)[1..] == p[1..] + s;
      LiteralsAfterPlain(p[1..], s);
    }
  }

  lemma Append(a: string, b: string, c: string)
    ensures a + (b + c) == a + b + c
  {
  }

  // ---------------------------------------------------------- parentheses

  function Deeper(c: char, depth: int): int {
    if c == '(' then depth + 1 else if c == ')' then depth - 1 else depth
  }

  /** Where, from the start of `s`, the parenthesis open `depth` deep closes. */
  function CloseIn(s: string, depth: int): (r: Option<nat>)
    ensures r.Some? ==> r.value < |s|
    decreases |s|
  {
    if s == [] then None
    else if IsQuote(s[0]) then Shifted(CloseIn(s[LiteralLength(s)..], depth), LiteralLength(s))
    else if s[0] == ')' && depth == 1 then Some(0)
    else Shifted(CloseIn(s[1..], Deeper(s[0], depth)), 1)
  }

  function Shifted(r: Option<nat>, offset: nat): Option<nat> { if r.None? then None else Some(r.value + offset) }

  lemma CloseLiteral(lit: string, rest: string, depth: int)
    requires IsLiteral(lit, rest)
    ensures CloseIn(lit + rest, depth) == Shifted(CloseIn(rest, depth), |lit|)
  {
    assert (lit + rest)[|lit|..] == rest;
  }

  lemma CloseChar(c: char, rest: string, depth: int)
    requires !IsQuote(c)
    ensures CloseIn([c] + rest, depth) ==
            if c == ')' && depth == 1 then Some(0) else Shifted(CloseIn(rest, Deeper(c, depth)), 1)
  {
    assert ([c] + rest)[1..] == rest;
  }

  /** The parenthesis that closes the one at `open`. */
  function MatchParenOf(s: string, open: nat): (r: Option<nat>)
    requires open <= |s|
    ensures r.Some? ==> open <= r.value < |s|
  {
    Shifted(CloseIn(s[open..], 0), open)
  }

  method MatchParen(s: string, open: nat) returns (close: Option<nat>)
    requires open <= |s|
    ensures close == MatchParenOf(s, open)
  {
    hide CloseIn, IsLiteral, LiteralLength;
    var depth, i := 0, open;
    while i < |s|
      invariant open <= i <= |s|
      invariant Shifted(CloseIn(s[i..], depth), i) == MatchParenOf(s, open)
    {
      Peel(s, i);
      var j := SkipLiteral(s, i);
      if j > 0 {
        CloseLiteral(s[i..j], s[j..], depth);
        i := j;
        continue;
      }
      CloseChar(s[i], s[i + 1..], depth);
      if s[i] == '(' {
        depth := depth + 1;
      } else if s[i] == ')' {
        depth := depth - 1;
        if depth == 0 {
          return Some(i);
        }
      }
      i := i + 1;
    }
    CloseNothing(s[i..], depth);
    return None;
  }

  lemma CloseNothing(s: string, depth: int)
    requires s == []
    ensures CloseIn(s, depth) == None
  {
  }

  // ---------------------------------------------------------------- calls

  /** How many blanks `s` starts with. */
  function Blanks(s: string): (n: nat)
    ensures n <= |s| && (n < |s| ==> s[n] != ' ')
    ensures forall i :: 0 <= i < n ==> s[i] == ' '
  {
    if s != [] && s[0] == ' ' then 1 + Blanks(s[1..]) else 0
  }

  /** Whether `s` starts with `fn`, blanks and an opening parenthesis. */
  predicate CallsAt(s: string, fn: string) {
    fn <= s && OpenOf(s, fn) < |s| && s[OpenOf(s, fn)] == '('
  }

  function OpenOf(s: string, fn: string): nat
    requires fn <= s
  {
    |fn| + Blanks(s[|fn|..])
  }

  /** Whether a name after `prev` would be part of a longer one. */
  predicate Continues(prev: char) { prev == '-' || prev == ':' || prev == '_' || IsNameChar(prev) }

  datatype Call = NoCall | Call(start: nat, open: nat)

  function CallShifted(c: Call, offset: nat): Call { if c.NoCall? then c else Call(c.start + offset, c.open + offset) }

  /** The first call to `fn` in `s`, outside literals; `prev` stands before `s`. */
  function FirstCall(s: string, fn: string, prev: char): (c: Call)
    requires fn != []
    ensures c.Call? ==> c.start + |fn| <= c.open < |s|
    decreases |s|
  {
    if s == [] then NoCall
    else if IsQuote(s[0]) then
      var n := LiteralLength(s);
      CallShifted(FirstCall(s[n..], fn, s[n - 1]), n)
    else if CallsAt(s, fn) && !Continues(prev) then Call(0, OpenOf(s, fn))
    else CallShifted(FirstCall(s[1..], fn, s[0]), 1)
  }

  lemma CallAfterLiteral(lit: string, rest: string, fn: string, prev: char)
    requires fn != [] && IsLiteral(lit, rest)
    ensures FirstCall(lit + rest, fn, prev) == CallShifted(FirstCall(rest, fn, lit[|lit| - 1]), |lit|)
  {
    var s := lit + rest;
    assert s[|lit|..] == rest && s[|lit| - 1] == lit[|lit| - 1];
  }

  lemma CallAtChar(c: char, rest: string, fn: string, prev: char)
    requires fn != [] && !IsQuote(c)
    ensures FirstCall([c] + rest, fn, prev) ==
            if CallsAt([c] + rest, fn) && !Continues(prev) then Call(0, OpenOf([c] + rest, fn))
            else CallShifted(FirstCall(rest, fn, c), 1)
  {
    assert ([c] + rest)[1..] == rest;
  }

  lemma {:induction false} TooShortToCall(s: string, fn: string, prev: char)
    requires fn != [] && |s| <= |fn|
    ensures FirstCall(s, fn, prev) == NoCall
    decreases |s|
  {
    if s != [] {
      if IsQuote(s[0]) { TooShortToCall(s[LiteralLength(s)..], fn, s[LiteralLength(s) - 1]); }
      else { TooShortToCall(s[1..], fn, s[0]); }
    }
  }

  /** The first call in a whole expression. */
  function FindCallIn(s: string, fn: string): (c: Call)
    requires fn != []
    ensures c.Call? ==> c.start + |fn| <= c.open < |s|
  {
    FirstCall(s, fn, ' ')
  }

  lemma StandsAt(s: string, fn: string, i: nat)
    requires i <= |s|
    ensures fn <= s[i..] <==> i + |fn| <= |s| && s[i..i + |fn|] == fn
  {
    if i + |fn| <= |s| { assert s[i..][..|fn|] == s[i..i + |fn|]; }
  }

  /** Whether a call to `fn` stands at index i, and where it opens. */
  method CallAt(s: string, fn: string, i: nat) returns (open: Option<nat>)
    requires fn != [] && i <= |s|
    ensures open == if CallsAt(s[i..], fn) then Some(i + OpenOf(s[i..], fn)) else None
  {
    StandsAt(s, fn, i);
    if i + |fn| > |s| || s[i..i + |fn|] != fn {
      return None;
    }
    assert s[i..][|fn|..] == s[i + |fn|..];
    var k := i + |fn|;
    while k < |s| && s[k] == ' '
      invariant i + |fn| <= k <= |s|
      invariant k + Blanks(s[k..]) == i + |fn| + Blanks(s[i + |fn|..])
    {
      assert s[k..][1..] == s[k + 1..];
      k := k + 1;
    }
    return if k < |s| && s[k] == '(' then Some(k) else None;
  }

  method FindCall(s: string, fn: string) returns (c: Call)
    requires fn != []
    ensures c == FindCallIn(s, fn)
  {
    hide FirstCall, IsLiteral, LiteralLength, CallsAt, OpenOf;
    var i, prev := 0, ' ';
    assert s[0..] == s;
    assert CallShifted(FirstCall(s, fn, prev), 0) == FirstCall(s, fn, prev);
    while i + |fn| < |s|
      invariant i <= |s| && prev == if i == 0 then ' ' else s[i - 1]
      invariant CallShifted(FirstCall(s[i..], fn, prev), i) == FindCallIn(s, fn)
    {
      Peel(s, i);
      var j := SkipLiteral(s, i);
      if j > 0 {
        CallAfterLiteral(s[i..j], s[j..], fn, prev);
        i, prev := j, s[j - 1];
        continue;
      }
      CallAtChar(s[i], s[i + 1..], fn, prev);
      var open := CallAt(s, fn, i);
      if open.Some? && !Continues(prev) {
        return Call(i, open.value);
      }
      i, prev := i + 1, s[i];
    }
    TooShortToCall(s[i..], fn, prev);
    return NoCall;
  }

  // ------------------------------------------------------------ arguments

  function ArgDepth(c: char, depth: int): int {
    if c == '(' || c == '[' then depth + 1 else if c == ')' || c == ']' then depth - 1 else depth
  }

  /** The arguments in the rest `s` of an argument list, `cur` being read. */
  function ArgsFrom(s: string, cur: string, depth: int): (r: seq<string>)
    ensures r != []
    decreases |s|
  {
    if s == [] then [TrimSpace(cur)]
    else if IsQuote(s[0]) then ArgsFrom(s[LiteralLength(s)..], cur + s[..LiteralLength(s)], depth)
    else if s[0] == ',' && depth == 0 then [TrimSpace(cur)] + ArgsFrom(s[1..], "", 0)
    else ArgsFrom(s[1..], cur + [s[0]], ArgDepth(s[0], depth))
  }

  function Args(s: string): (r: seq<string>)
    ensures r != []
  {
    ArgsFrom(s, "", 0)
  }

  lemma ArgsLiteral(lit: string, rest: string, cur: string, depth: int)
    requires IsLiteral(lit, rest)
    ensures ArgsFrom(lit + rest, cur, depth) == ArgsFrom(rest, cur + lit, depth)
  {
    var s := lit + rest;
    assert s[..|lit|] == lit && s[|lit|..] == rest;
  }

  lemma ArgsChar(c: char, rest: string, cur: string, depth: int)
    requires !IsQuote(c)
    ensures ArgsFrom([c] + rest, cur, depth) ==
            if c == ',' && depth == 0 then [TrimSpace(cur)] + ArgsFrom(rest, "", 0)
            else ArgsFrom(rest, cur + [c], ArgDepth(c, depth))
  {
    assert ([c] + rest)[1..] == rest;
  }

  lemma ArgsNothing(s: string, cur: string, depth: int)
    requires s == []
    ensures ArgsFrom(s, cur, depth) == [TrimSpace(cur)]
  {
  }

  method SplitArgs(s: string) returns (out: seq<string>)
    ensures out == Args(s)
  {
    hide ArgsFrom, IsLiteral, LiteralLength, TrimSpace;
    out := [];
    var depth, start, i := 0, 0, 0;
    assert s[0..] == s && s[0..0] == "" && [] + ArgsFrom(s, "", 0) == ArgsFrom(s, "", 0);
    while i < |s|
      invariant start <= i <= |s|
      invariant out + ArgsFrom(s[i..], s[start..i], depth) == Args(s)
    {
      Peel(s, i);
      var j := SkipLiteral(s, i);
      if j > 0 {
        ArgsLiteral(s[i..j], s[j..], s[start..i], depth);
        assert s[start..i] + s[i..j] == s[start..j];
        i := j;
        continue;
      }
      ArgsChar(s[i], s[i + 1..], s[start..i], depth);
      assert s[start..i] + [s[i]] == s[start..i + 1];
      if s[i] == '(' || s[i] == '[' {
        depth := depth + 1;
      } else if s[i] == ')' || s[i] == ']' {
        depth := depth - 1;
      } else if s[i] == ',' {
        if depth == 0 {
          var arg := TrimSpace(s[start..i]);
          start := i + 1;
          assert s[start..i + 1] == "";
          assert out + ([arg] + ArgsFrom(s[i + 1..], "", 0)) == out + [arg] + ArgsFrom(s[i + 1..], "", 0);
          out := out + [arg];
        }
      }
      i := i + 1;
    }
    ArgsNothing(s[i..], s[start..i], depth);
    assert s[start..i] == s[start..];
    out := out + [TrimSpace(s[start..])];
  }

  lemma {:induction false} ArgsFit(s: string, cur: string, depth: int)
    ensures |ArgsFrom(s, cur, depth)[0]| <= |cur| + |s|
    decreases |s|
  {
    if s != [] {
      if IsQuote(s[0]) {
        ArgsFit(s[LiteralLength(s)..], cur + s[..LiteralLength(s)], depth);
      } else if !(s[0] == ',' && depth == 0) {
        ArgsFit(s[1..], cur + [s[0]], ArgDepth(s[0], depth));
      }
    }
  }
}
