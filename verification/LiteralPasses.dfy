/** Three passes over an expression that must leave its string literals alone:
    `rewriteAttrCase`, `rewriteDottedNames` and `rewriteLookup`
    (internal/txquery/rewrite.go). */
module LiteralPasses {
  import opened Scanner

  // ------------------------------------------------ outside the literals

  /** Index i is in no literal of `s`. */
  predicate Outside(s: string, i: nat)
    decreases |s|
  {
    && i < |s|
    && if IsQuote(s[0]) then i >= LiteralLength(s) && Outside(s[LiteralLength(s)..], i - LiteralLength(s))
       else i == 0 || Outside(s[1..], i - 1)
  }

  lemma {:induction false} OutsidePlain(s: string, n: nat, i: nat)
    requires n <= i < |s| && forall k :: 0 <= k < n ==> !IsQuote(s[k])
    ensures Outside(s, i) <==> Outside(s[n..], i - n)
    decreases n
  {
    if n == 0 {
      assert s[0..] == s;
    } else {
      OutsidePlain(s[1..], n - 1, i - 1);
      assert s[1..][n - 1..] == s[n..];
    }
  }

  // ------------------------------------------------------ attribute names

  predicate IsAttrChar(c: char) { IsNameChar(c) || c == '-' || c == '_' || c == ':' }

  function LowerChar(c: char): char { if 'A' <= c <= 'Z' then c - 'A' + 'a' else c }

  function Lower(s: string): (r: string)
    ensures |r| == |s| && forall i :: 0 <= i < |s| ==> r[i] == LowerChar(s[i])
  {
    seq(|s|, i requires 0 <= i < |s| => LowerChar(s[i]))
  }

  /** How many attribute-name characters `s` starts with. */
  function AttrName(s: string): (n: nat)
    ensures n <= |s| && (n < |s| ==> !IsAttrChar(s[n])) && forall i :: 0 <= i < n ==> IsAttrChar(s[i])
  {
    if s != [] && IsAttrChar(s[0]) then 1 + AttrName(s[1..]) else 0
  }

  function AttrCase(s: string): (r: string)
    ensures |r| == |s| && (s != [] ==> r[0] == s[0])
    decreases |s|
  {
    if s == [] then []
    else if IsQuote(s[0]) then s[..LiteralLength(s)] + AttrCase(s[LiteralLength(s)..])
    else if s[0] == '@' then
      var n := AttrName(s[1..]);
      "@" + Lower(s[1..][..n]) + AttrCase(s[1..][n..])
    else [s[0]] + AttrCase(s[1..])
  }

  lemma AttrCaseLiteral(lit: string, rest: string)
    requires IsLiteral(lit, rest)
    ensures AttrCase(lit + rest) == lit + AttrCase(rest)
  {
    var s := lit + rest;
    assert s[..|lit|] == lit && s[|lit|..] == rest;
  }

  lemma AttrCasePlain(c: char, rest: string)
    requires !IsQuote(c) && c != '@'
    ensures AttrCase([c] + rest) == [c] + AttrCase(rest)
  {
    assert ([c] + rest)[1..] == rest;
  }

  lemma AttrCaseName(name: string, rest: string)
    requires forall i :: 0 <= i < |name| ==> IsAttrChar(name[i])
    requires rest == [] || !IsAttrChar(rest[0])
    ensures AttrCase("@" + name + rest) == "@" + Lower(name) + AttrCase(rest)
  {
    var s := "@" + name + rest;
    assert s[1..] == name + rest;
    NameStays(name, rest);
    assert s[1..][..|name|] == name && s[1..][|name|..] == rest;
  }

  method RewriteAttrCase(e: string) returns (b: string)
    ensures b == AttrCase(e)
  {
    hide AttrCase, IsLiteral, LiteralLength, Lower, AttrName;
    b := "";
    var i := 0;
    assert "" + AttrCase(e[0..]) == AttrCase(e);
    while i < |e|
      invariant i <= |e| && b + AttrCase(e[i..]) == AttrCase(e)
    {
      Peel(e, i);
      var j := SkipLiteral(e, i);
      if j > 0 {
        AttrCaseLiteral(e[i..j], e[j..]);
        Append(b, e[i..j], AttrCase(e[j..]));
        b := b + e[i..j];
        i := j;
        continue;
      }
      if e[i] != '@' {
        AttrCasePlain(e[i], e[i + 1..]);
        Append(b, [e[i]], AttrCase(e[i + 1..]));
        b := b + [e[i]];
        i := i + 1;
        continue;
      }
      var k := i + 1;
      while k < |e| && (IsNameChar(e[k]) || e[k] == '-' || e[k] == '_' || e[k] == ':')
        invariant i < k <= |e|
        invariant forall m :: i < m < k ==> IsAttrChar(e[m])
      {
        k := k + 1;
      }
      assert e[i..] == "@" + e[i + 1..k] + e[k..];
      AttrCaseName(e[i + 1..k], e[k..]);
      Append(b, "@" + Lower(e[i + 1..k]), AttrCase(e[k..]));
      b := b + ("@" + Lower(e[i + 1..k]));
      i := k;
    }
    AttrCaseNothing(e[i..]);
    assert b + [] == b;
  }

  lemma AttrCaseNothing(s: string)
    requires s == []
    ensures AttrCase(s) == []
  {
  }

  lemma {:induction false} NameStays(s: string, after: string)
    requires forall i :: 0 <= i < |s| ==> IsAttrChar(s[i])
    requires after == [] || !IsAttrChar(after[0])
    ensures AttrName(s + after) == |s|
    decreases |s|
  {
    if s == [] {
      assert s + after == after;
    } else {
      assert (s + after)[1..] == s[1..] + after;
      NameStays(s[1..], after);
    }
  }

  /** The pass keeps the literals of `s`, and a second one changes nothing. */
  ghost predicate AttrCaseSafe(s: string) {
    Literals(AttrCase(s)) == Literals(s) && AttrCase(AttrCase(s)) == AttrCase(s)
  }

  lemma AttrCaseSafeLiteral(lit: string, rest: string)
    requires IsLiteral(lit, rest) && AttrCaseSafe(rest)
    ensures AttrCaseSafe(lit + rest)
  {
    hide AttrCase, IsLiteral, Literals;
    AttrCaseLiteral(lit, rest);
    LiteralStays(lit, rest, AttrCase(rest));
    AttrCaseLiteral(lit, AttrCase(rest));
    LiteralsOfLiteral(lit, rest);
    LiteralsOfLiteral(lit, AttrCase(rest));
  }

  lemma AttrCaseSafeName(name: string, rest: string)
    requires forall i :: 0 <= i < |name| ==> IsAttrChar(name[i])
    requires rest == [] || !IsAttrChar(rest[0])
    requires AttrCaseSafe(rest)
    ensures AttrCaseSafe("@" + name + rest)
  {
    hide AttrCase, Literals;
    AttrCaseName(name, rest);
    AttrCaseName(Lower(name), AttrCase(rest));
    LowerTwice(name);
    LiteralsAfterPlain("@" + name, rest);
    LiteralsAfterPlain("@" + Lower(name), AttrCase(rest));
  }

  /** Lower-casing attribute names keeps every literal, and doing it again
      changes nothing. */
  lemma {:induction false} AttrCaseKeepsLiterals(s: string)
    ensures Literals(AttrCase(s)) == Literals(s)
    ensures AttrCase(AttrCase(s)) == AttrCase(s)
    decreases |s|
  {
    if s == [] { return; }
    hide AttrCase, IsLiteral, LiteralLength, Literals, Lower;
    Peel(s, 0);
    assert s[0..] == s;
    if IsQuote(s[0]) {
      var n := LiteralLength(s);
      AttrCaseKeepsLiterals(s[n..]);
      AttrCaseSafeLiteral(s[..n], s[n..]);
    } else if s[0] == '@' {
      var n := AttrName(s[1..]);
      var name, rest := s[1..][..n], s[1..][n..];
      AttrCaseKeepsLiterals(rest);
      assert s == "@" + name + rest;
      AttrCaseSafeName(name, rest);
    } else {
      AttrCaseKeepsLiterals(s[1..]);
      AttrCasePlain(s[0], s[1..]);
      AttrCasePlain(s[0], AttrCase(s[1..]));
      LiteralsAfterPlain([s[0]], s[1..]);
      LiteralsAfterPlain([s[0]], AttrCase(s[1..]));
    }
  }

  lemma LowerTwice(s: string)
    ensures Lower(Lower(s)) == Lower(s)
  {
  }

  /** Index i stands in the name of an attribute: name characters all the way
      from an '@' outside the literals. */
  ghost predicate InAttrName(s: string, i: nat)
    requires i < |s|
  {
    exists j :: 0 <= j < i && s[j] == '@' && Outside(s, j) && NamesOnly(s, j, i)
  }

  predicate NamesOnly(s: string, j: nat, i: nat)
    requires j <= i < |s|
  {
    forall k :: j < k <= i ==> IsAttrChar(s[k])
  }

  /** Whether an index is in a name is decided after a cut no name runs over. */
  lemma InNameAfter(s: string, n: nat, i: nat)
    requires n <= i < |s|
    requires forall j :: n <= j < i ==> (Outside(s, j) <==> Outside(s[n..], j - n))
    requires forall j :: 0 <= j < n && s[j] == '@' && Outside(s, j) ==> !NamesOnly(s, j, i)
    ensures InAttrName(s, i) <==> InAttrName(s[n..], i - n)
  {
    var t := s[n..];
    forall j | n <= j < i ensures NamesOnly(s, j, i) <==> NamesOnly(t, j - n, i - n) {
      assert NamesOnly(t, j - n, i - n) ==> forall k :: j < k <= i ==> s[k] == t[k - n] && IsAttrChar(t[k - n]);
      assert NamesOnly(s, j, i) ==> forall k :: j - n < k <= i - n ==> t[k] == s[k + n] && IsAttrChar(s[k + n]);
    }
    if InAttrName(s, i) {
      var j :| 0 <= j < i && s[j] == '@' && Outside(s, j) && NamesOnly(s, j, i);
      assert j >= n && t[j - n] == '@' && Outside(t, j - n) && NamesOnly(t, j - n, i - n);
    }
    if InAttrName(t, i - n) {
      var j :| 0 <= j < i - n && t[j] == '@' && Outside(t, j) && NamesOnly(t, j, i - n);
      assert s[j + n] == '@' && Outside(s, j + n) && NamesOnly(s, j + n, i);
    }
  }

  /** What the pass makes of one character. */
  ghost predicate CaseAt(s: string, i: nat)
    requires i < |s|
  {
    AttrCase(s)[i] == if InAttrName(s, i) then LowerChar(s[i]) else s[i]
  }

  lemma CaseAtLiteral(lit: string, rest: string, i: nat)
    requires IsLiteral(lit, rest) && i < |lit| + |rest|
    requires i >= |lit| ==> CaseAt(rest, i - |lit|)
    ensures CaseAt(lit + rest, i)
  {
    hide AttrCase;
    var s, n := lit + rest, |lit|;
    AttrCaseLiteral(lit, rest);
    assert s[n..] == rest;
    assert forall j :: 0 <= j < n ==> !Outside(s, j);
    if i >= n { InNameAfter(s, n, i); }
  }

  lemma CaseAtPlain(c: char, rest: string, i: nat)
    requires !IsQuote(c) && c != '@' && i <= |rest|
    requires i > 0 ==> CaseAt(rest, i - 1)
    ensures CaseAt([c] + rest, i)
  {
    hide AttrCase;
    var s := [c] + rest;
    AttrCasePlain(c, rest);
    assert s[1..] == rest;
    if i > 0 {
      forall j | 1 <= j < i ensures Outside(s, j) <==> Outside(s[1..], j - 1) { OutsidePlain(s, 1, j); }
      InNameAfter(s, 1, i);
    }
  }

  lemma CaseAtName(name: string, rest: string, i: nat)
    requires forall k :: 0 <= k < |name| ==> IsAttrChar(name[k])
    requires rest == [] || !IsAttrChar(rest[0])
    requires i < 1 + |name| + |rest| && (i > |name| ==> CaseAt(rest, i - 1 - |name|))
    ensures CaseAt("@" + name + rest, i)
  {
    hide AttrCase;
    var s, n := "@" + name + rest, 1 + |name|;
    AttrCaseName(name, rest);
    assert s[n..] == rest;
    assert forall k :: 1 <= k < n ==> s[k] == name[k - 1] && IsAttrChar(s[k]);
    if 0 < i < n {
      assert s[0] == '@' && Outside(s, 0) && NamesOnly(s, 0, i);
    } else if i >= n {
      assert s[n] == rest[0];
      hide Outside;
      forall j | n <= j < i ensures Outside(s, j) <==> Outside(s[n..], j - n) { OutsidePlain(s, n, j); }
      InNameAfter(s, n, i);
    }
  }

  lemma {:induction false} CaseEverywhere(s: string, i: nat)
    requires i < |s|
    ensures CaseAt(s, i)
    decreases |s|
  {
    hide CaseAt, IsLiteral, LiteralLength;
    Peel(s, 0);
    assert s[0..] == s;
    if IsQuote(s[0]) {
      var n := LiteralLength(s);
      if i >= n { CaseEverywhere(s[n..], i - n); }
      CaseAtLiteral(s[..n], s[n..], i);
    } else if s[0] == '@' {
      var n := AttrName(s[1..]);
      var name, rest := s[1..][..n], s[1..][n..];
      if i > n { CaseEverywhere(rest, i - 1 - n); }
      assert s == "@" + name + rest;
      CaseAtName(name, rest, i);
    } else {
      if i > 0 { CaseEverywhere(s[1..], i - 1); }
      CaseAtPlain(s[0], s[1..], i);
    }
  }

  /** The pass lower-cases exactly the characters of attribute names. */
  lemma AttrCaseAt(s: string, i: nat)
    requires i < |s|
    ensures AttrCase(s)[i] == if InAttrName(s, i) then LowerChar(s[i]) else s[i]
  {
    hide AttrCase, InAttrName;
    CaseEverywhere(s, i);
  }

  // --------------------------------------------------------- dotted names

  predicate IsWord(c: char) { IsNameChar(c) || c == '_' }

  /** A dot between two name characters, not both digits, is a path step. */
  predicate DotSteps(prev: char, s: string) {
    |s| > 1 && s[0] == '.' && IsWord(prev) && IsWord(s[1]) && !(IsDigit(prev) && IsDigit(s[1]))
  }

  function Dotted(s: string, prev: char): (r: string)
    ensures |r| == |s| && (s != [] ==> r[0] == s[0] || (s[0] == '.' && r[0] == '/'))
    decreases |s|
  {
    if s == [] then []
    else if IsQuote(s[0]) then
      var n := LiteralLength(s);
      s[..n] + Dotted(s[n..], s[n - 1])
    else [if DotSteps(prev, s) then '/' else s[0]] + Dotted(s[1..], s[0])
  }

  lemma DottedLiteral(lit: string, rest: string, prev: char)
    requires IsLiteral(lit, rest)
    ensures Dotted(lit + rest, prev) == lit + Dotted(rest, lit[|lit| - 1])
  {
    var s := lit + rest;
    assert s[..|lit|] == lit && s[|lit|..] == rest;
  }

  lemma DottedChar(c: char, rest: string, prev: char)
    requires !IsQuote(c)
    ensures Dotted([c] + rest, prev) == [if DotSteps(prev, [c] + rest) then '/' else c] + Dotted(rest, c)
  {
    assert ([c] + rest)[1..] == rest;
  }

  method RewriteDottedNames(e: string) returns (b: string)
    ensures b == Dotted(e, ' ')
  {
    hide Dotted, IsLiteral, LiteralLength;
    b := "";
    var i := 0;
    ghost var prev := ' ';
    assert "" + Dotted(e[0..], ' ') == Dotted(e, ' ');
    while i < |e|
      invariant i <= |e| && prev == if i == 0 then ' ' else e[i - 1]
      invariant b + Dotted(e[i..], prev) == Dotted(e, ' ')
    {
      Peel(e, i);
      var j := SkipLiteral(e, i);
      if j > 0 {
        DottedLiteral(e[i..j], e[j..], prev);
        Append(b, e[i..j], Dotted(e[j..], e[j - 1]));
        b := b + e[i..j];
        i, prev := j, e[j - 1];
        continue;
      }
      DottedChar(e[i], e[i + 1..], prev);
      var c := e[i];
      if e[i] == '.' && i > 0 && i + 1 < |e|
        && (IsNameChar(e[i - 1]) || e[i - 1] == '_')
        && (IsNameChar(e[i + 1]) || e[i + 1] == '_')
        && !(IsDigit(e[i - 1]) && IsDigit(e[i + 1]))
      {
        c := '/';
      }
      Append(b, [c], Dotted(e[i + 1..], e[i]));
      b := b + [c];
      i, prev := i + 1, e[i];
    }
    DottedNothing(e[i..], prev);
    assert b + [] == b;
  }

  lemma DottedNothing(s: string, prev: char)
    requires s == []
    ensures Dotted(s, prev) == []
  {
  }

  /** Two characters a dot's neighbours cannot tell apart. */
  predicate Alike(a: char, b: char) { a == b || (!IsWord(a) && !IsWord(b)) }

  lemma {:induction false} DottedKeepsLiterals(s: string, prev: char, prev': char)
    requires Alike(prev, prev')
    ensures Literals(Dotted(s, prev)) == Literals(s)
    ensures Dotted(Dotted(s, prev), prev') == Dotted(s, prev)
    decreases |s|
  {
    if s == [] { return; }
    hide Dotted, IsLiteral, LiteralLength, Literals;
    Peel(s, 0);
    assert s[0..] == s;
    if IsQuote(s[0]) {
      var n := LiteralLength(s);
      var lit, rest := s[..n], s[n..];
      var last := lit[n - 1];
      DottedKeepsLiterals(rest, last, last);
      DottedLiteral(lit, rest, prev);
      LiteralStays(lit, rest, Dotted(rest, last));
      DottedLiteral(lit, Dotted(rest, last), prev');
      LiteralsOfLiteral(lit, rest);
      LiteralsOfLiteral(lit, Dotted(rest, last));
    } else {
      var rest := s[1..];
      var c' := if DotSteps(prev, s) then '/' else s[0];
      var out := Dotted(rest, s[0]);
      DottedKeepsLiterals(rest, s[0], c');
      DottedChar(s[0], rest, prev);
      DottedChar(c', out, prev');
      assert !DotSteps(prev', [c'] + out) by {
        if rest != [] { assert ([c'] + out)[1] == out[0]; }
      }
      LiteralsAfterPlain([s[0]], rest);
      LiteralsAfterPlain([c'], out);
    }
  }

  /** The pass turns exactly the dots that are path steps, outside literals,
      into slashes. */
  lemma {:induction false} DottedAt(s: string, prev: char, i: nat)
    requires i < |s|
    ensures Dotted(s, prev)[i] ==
            if Outside(s, i) && DotSteps(if i == 0 then prev else s[i - 1], s[i..]) then '/' else s[i]
    decreases |s|
  {
    if IsQuote(s[0]) {
      var n := LiteralLength(s);
      if i >= n {
        DottedAt(s[n..], s[n - 1], i - n);
        assert s[n..][i - n..] == s[i..];
      }
    } else if i == 0 {
      assert s[0..] == s;
    } else {
      DottedAt(s[1..], s[0], i - 1);
      assert s[1..][i - 1..] == s[i..];
    }
  }

  // --------------------------------------------------------------- lookup

  /** How many digits, and how many name characters, `s` starts with. */
  function Digits(s: string): (n: nat)
    ensures n <= |s| && (n < |s| ==> !IsDigit(s[n])) && forall i :: 0 <= i < n ==> IsDigit(s[i])
  {
    if s != [] && IsDigit(s[0]) then 1 + Digits(s[1..]) else 0
  }

  predicate IsKeyChar(c: char) { IsWord(c) || c == '-' }

  function KeyName(s: string): (n: nat)
    ensures n <= |s| && (n < |s| ==> !IsKeyChar(s[n])) && forall i :: 0 <= i < n ==> IsKeyChar(s[i])
  {
    if s != [] && IsKeyChar(s[0]) then 1 + KeyName(s[1..]) else 0
  }

  /** Whether a '?' with `s` after it is a lookup. */
  predicate LooksUp(s: string) { s != [] && (s[0] == '*' || IsWord(s[0])) }

  function Lookup(s: string): (r: string)
    ensures s == [] ==> r == []
    ensures s != [] ==> r != [] && (r[0] == s[0] || (s[0] == '?' && r[0] == '/'))
    decreases |s|
  {
    if s == [] then []
    else if IsQuote(s[0]) then s[..LiteralLength(s)] + Lookup(s[LiteralLength(s)..])
    else if s[0] != '?' || !LooksUp(s[1..]) then [s[0]] + Lookup(s[1..])
    else if s[1] == '*' then "/*" + Lookup(s[2..])
    else if IsDigit(s[1]) then
      var n := Digits(s[1..]);
      "/*[" + s[1..][..n] + "]" + Lookup(s[1..][n..])
    else
      var n := KeyName(s[1..]);
      "/" + s[1..][..n] + Lookup(s[1..][n..])
  }

  lemma LookupLiteral(lit: string, rest: string)
    requires IsLiteral(lit, rest)
    ensures Lookup(lit + rest) == lit + Lookup(rest)
  {
    var s := lit + rest;
    assert s[..|lit|] == lit && s[|lit|..] == rest;
  }

  lemma LookupPlain(c: char, rest: string)
    requires !IsQuote(c) && (c != '?' || !LooksUp(rest))
    ensures Lookup([c] + rest) == [c] + Lookup(rest)
  {
    assert ([c] + rest)[1..] == rest;
  }

  lemma LookupAll(rest: string)
    ensures Lookup("?*" + rest) == "/*" + Lookup(rest)
  {
    assert ("?*" + rest)[1..][0] == '*' && ("?*" + rest)[2..] == rest;
  }

  lemma {:induction false} DigitsStay(s: string, after: string)
    requires (forall i :: 0 <= i < |s| ==> IsDigit(s[i])) && (after == [] || !IsDigit(after[0]))
    ensures Digits(s + after) == |s|
    decreases |s|
  {
    if s == [] {
      assert s + after == after;
    } else {
      assert (s + after)[1..] == s[1..] + after;
      DigitsStay(s[1..], after);
    }
  }

  lemma {:induction false} KeyStays(s: string, after: string)
    requires (forall i :: 0 <= i < |s| ==> IsKeyChar(s[i])) && (after == [] || !IsKeyChar(after[0]))
    ensures KeyName(s + after) == |s|
    decreases |s|
  {
    if s == [] {
      assert s + after == after;
    } else {
      assert (s + after)[1..] == s[1..] + after;
      KeyStays(s[1..], after);
    }
  }

  lemma LookupIndex(digits: string, rest: string)
    requires digits != [] && (forall i :: 0 <= i < |digits| ==> IsDigit(digits[i]))
    requires rest == [] || !IsDigit(rest[0])
    ensures Lookup("?" + digits + rest) == "/*[" + digits + "]" + Lookup(rest)
  {
    hide Lookup, Digits;
    var u := digits + rest;
    assert "?" + digits + rest == "?" + u && u[0] == digits[0];
    LookupOfDigits(u);
    DigitsStay(digits, rest);
    assert u[..|digits|] == digits && u[|digits|..] == rest;
  }

  lemma LookupOfDigits(u: string)
    requires u != [] && IsDigit(u[0])
    ensures Lookup("?" + u) == "/*[" + u[..Digits(u)] + "]" + Lookup(u[Digits(u)..])
  {
    hide Digits;
    assert ("?" + u)[1..] == u;
  }

  lemma LookupOfKey(u: string)
    requires u != [] && IsWord(u[0]) && !IsDigit(u[0])
    ensures Lookup("?" + u) == "/" + u[..KeyName(u)] + Lookup(u[KeyName(u)..])
  {
    hide KeyName;
    assert ("?" + u)[1..] == u;
  }

  lemma LookupKey(name: string, rest: string)
    requires name != [] && IsWord(name[0]) && !IsDigit(name[0])
    requires (forall i :: 0 <= i < |name| ==> IsKeyChar(name[i])) && (rest == [] || !IsKeyChar(rest[0]))
    ensures Lookup("?" + name + rest) == "/" + name + Lookup(rest)
  {
    hide Lookup, KeyName;
    var u := name + rest;
    assert "?" + name + rest == "?" + u && u[0] == name[0];
    LookupOfKey(u);
    KeyStays(name, rest);
    assert u[..|name|] == name && u[|name|..] == rest;
  }

  /** What stands at index i, which starts no literal, and where it ends. */
  method LookupAt(e: string, i: nat) returns (step: string, k: nat)
    requires i < |e| && !IsQuote(e[i])
    ensures i < k <= |e| && Lookup(e[i..]) == step + Lookup(e[k..])
  {
    hide Lookup;
    Peel(e, i);
    var j := i + 1;
    k, step := j, [e[i]];
    if e[i] != '?' {
      LookupPlain(e[i], e[j..]);
    } else if j < |e| && e[j] == '*' {
      k := j + 1;
      step := "/*";
      assert e[i..] == "?*" + e[k..];
      LookupAll(e[k..]);
    } else if j < |e| && e[j] >= '0' && e[j] <= '9' {
      while k < |e| && e[k] >= '0' && e[k] <= '9'
        invariant j <= k <= |e| && forall m :: j <= m < k ==> IsDigit(e[m])
        invariant k == j ==> k < |e| && IsDigit(e[k])
      {
        k := k + 1;
      }
      step := "/*[" + e[j..k] + "]";
      assert e[i..] == "?" + e[j..k] + e[k..];
      LookupIndex(e[j..k], e[k..]);
    } else if j < |e| && (IsNameChar(e[j]) || e[j] == '_') {
      while k < |e| && (IsNameChar(e[k]) || e[k] == '_' || e[k] == '-')
        invariant j <= k <= |e| && forall m :: j <= m < k ==> IsKeyChar(e[m])
        invariant k == j ==> k < |e| && IsKeyChar(e[k])
      {
        k := k + 1;
      }
      step := "/" + e[j..k];
      assert e[i..] == "?" + e[j..k] + e[k..];
      LookupKey(e[j..k], e[k..]);
    } else {
      LookupPlain(e[i], e[j..]);
    }
  }

  method RewriteLookup(e: string) returns (b: string)
    ensures b == Lookup(e)
  {
    hide Lookup, IsLiteral, LiteralLength;
    b := "";
    var i := 0;
    assert "" + Lookup(e[0..]) == Lookup(e);
    while i < |e|
      invariant i <= |e| && b + Lookup(e[i..]) == Lookup(e)
    {
      Peel(e, i);
      var l := SkipLiteral(e, i);
      if l > 0 {
        LookupLiteral(e[i..l], e[l..]);
        Append(b, e[i..l], Lookup(e[l..]));
        b := b + e[i..l];
        i := l;
        continue;
      }
      var step, k := LookupAt(e, i);
      Append(b, step, Lookup(e[k..]));
      b := b + step;
      i := k;
    }
    LookupNothing(e[i..]);
    assert b + [] == b;
  }

  lemma LookupNothing(s: string)
    requires s == []
    ensures Lookup(s) == []
  {
  }

  /** Text without quotes and lookups is passed as it is. */
  lemma {:induction false} LookupPassesPlain(p: string, s: string)
    requires forall i :: 0 <= i < |p| ==> !IsQuote(p[i]) && p[i] != '?'
    ensures Lookup(p + s) == p + Lookup(s)
    decreases |p|
  {
    if p == [] {
      assert p + s == s;
    } else {
      assert (p + s)[1..] == p[1..] + s;
      LookupPassesPlain(p[1..], s);
      assert [p[0]] + (p[1..] + Lookup(s)) == p + Lookup(s);
    }
  }

  /** What the pass has put in place of a lookup holds no literal and no lookup. */
  lemma LookupStep(p: string, rest: string)
    requires forall i :: 0 <= i < |p| ==> !IsQuote(p[i]) && p[i] != '?'
    requires Literals(Lookup(rest)) == Literals(rest) && Lookup(Lookup(rest)) == Lookup(rest)
    ensures Literals(p + Lookup(rest)) == Literals(rest)
    ensures Lookup(p + Lookup(rest)) == p + Lookup(rest)
  {
    LiteralsAfterPlain(p, Lookup(rest));
    LookupPassesPlain(p, Lookup(rest));
  }

  /** The pass keeps the literals of `s`, and a second one changes nothing. */
  ghost predicate LookupSafe(s: string) {
    Literals(Lookup(s)) == Literals(s) && Lookup(Lookup(s)) == Lookup(s)
  }

  lemma LookupSafeLiteral(lit: string, rest: string)
    requires IsLiteral(lit, rest) && LookupSafe(rest)
    ensures LookupSafe(lit + rest)
  {
    hide Lookup, IsLiteral, Literals;
    LookupLiteral(lit, rest);
    LiteralStays(lit, rest, Lookup(rest));
    LookupLiteral(lit, Lookup(rest));
    LiteralsOfLiteral(lit, rest);
    LiteralsOfLiteral(lit, Lookup(rest));
  }

  lemma LookupSafeName(name: string, rest: string)
    requires name != [] && IsWord(name[0])
    requires if IsDigit(name[0])
             then (forall i :: 0 <= i < |name| ==> IsDigit(name[i])) && (rest == [] || !IsDigit(rest[0]))
             else (forall i :: 0 <= i < |name| ==> IsKeyChar(name[i])) && (rest == [] || !IsKeyChar(rest[0]))
    requires LookupSafe(rest)
    ensures LookupSafe("?" + name + rest)
  {
    hide Lookup, Literals;
    if IsDigit(name[0]) {
      LookupIndex(name, rest);
      LookupStep("/*[" + name + "]", rest);
    } else {
      LookupKey(name, rest);
      LookupStep("/" + name, rest);
    }
    LiteralsAfterPlain("?" + name, rest);
  }

  lemma LookupSafePlain(c: char, rest: string)
    requires !IsQuote(c) && (c != '?' || !LooksUp(rest)) && LookupSafe(rest)
    ensures LookupSafe([c] + rest)
  {
    hide Lookup, Literals;
    LookupPlain(c, rest);
    LookupPlain(c, Lookup(rest));
    LiteralsAfterPlain([c], rest);
    LiteralsAfterPlain([c], Lookup(rest));
  }

  lemma LookupSafeAll(rest: string)
    requires LookupSafe(rest)
    ensures LookupSafe("?*" + rest)
  {
    hide Lookup, Literals;
    LookupAll(rest);
    LookupStep("/*", rest);
    LiteralsAfterPlain("?*", rest);
  }

  lemma {:induction false} LookupIsSafe(s: string)
    ensures LookupSafe(s)
    decreases |s|
  {
    if s == [] { return; }
    hide LookupSafe, IsLiteral, LiteralLength;
    Peel(s, 0);
    assert s[0..] == s;
    if IsQuote(s[0]) {
      var n := LiteralLength(s);
      LookupIsSafe(s[n..]);
      LookupSafeLiteral(s[..n], s[n..]);
    } else if s[0] != '?' || !LooksUp(s[1..]) {
      LookupIsSafe(s[1..]);
      LookupSafePlain(s[0], s[1..]);
    } else if s[1] == '*' {
      LookupIsSafe(s[2..]);
      assert s == "?*" + s[2..];
      LookupSafeAll(s[2..]);
    } else {
      var n := if IsDigit(s[1]) then Digits(s[1..]) else KeyName(s[1..]);
      var name, rest := s[1..][..n], s[1..][n..];
      assert s == "?" + name + rest;
      assert n > 0 && name[0] == s[1] by { assert s[1..][0] == s[1]; }
      LookupIsSafe(rest);
      LookupSafeName(name, rest);
    }
  }

  /** Turning lookups into steps keeps every literal, and doing it again
      changes nothing. */
  lemma LookupKeepsLiterals(s: string)
    ensures Literals(Lookup(s)) == Literals(s)
    ensures Lookup(Lookup(s)) == Lookup(s)
  {
    LookupIsSafe(s);
  }
}
