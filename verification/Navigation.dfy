/** JSON navigation: what lookups find, the texts of lookups and of the suffixes
    of json(), the location path the passes write for either
    (internal/txquery/rewrite.go), and that from the JSON tree the path selects
    exactly the trees of what the lookups find, in order (section 3.11.3 of
    XQuery 3.1; section 2 of XPath 1.0). */
module Navigation {
  import opened Options
  import opened Scanner
  import opened LiteralPasses
  import opened JsonTree

  /** One step: a key of an object; every member; the n-th member, from 1. */
  datatype Step = Key(name: string) | All | Index(n: nat)

  // ------------------------------------------------------------- meaning

  /** Keys of an object differ, at every depth. */
  predicate DistinctKeys(v: Json) {
    match v
    case Obj(fields) =>
      && (forall i :: 0 <= i < |fields| ==> DistinctKeys(fields[i].value))
      && (forall i, j :: 0 <= i < j < |fields| ==> fields[i].key != fields[j].key)
    case Arr(elems) => forall i :: 0 <= i < |elems| ==> DistinctKeys(elems[i])
    case _ => true
  }

  function ValuesOf(fields: seq<Field>): seq<Json> { seq(|fields|, i requires 0 <= i < |fields| => fields[i].value) }

  function ValueNamed(fields: seq<Field>, name: string): seq<Json> {
    if fields == [] then []
    else
      var last := fields[|fields| - 1];
      ValueNamed(fields[..|fields| - 1], name) + (if last.key == name then [last.value] else [])
  }

  /** What a step looks up in one value; None where the step does not apply:
      a key on anything but an object, members of a scalar, an index outside an
      array. */
  function LookUp(v: Json, s: Step): Option<seq<Json>> {
    match s
    case Key(name) => if v.Obj? then Some(ValueNamed(v.fields, name)) else None
    case All => if v.Arr? then Some(v.elems) else if v.Obj? then Some(ValuesOf(v.fields)) else None
    case Index(n) => if v.Arr? && 1 <= n <= |v.elems| then Some([v.elems[n - 1]]) else None
  }

  /** A step over a sequence of values, one after the other. */
  function LookUpEach(vs: seq<Json>, s: Step): Option<seq<Json>> {
    if vs == [] then Some([])
    else
      match (LookUpEach(vs[..|vs| - 1], s), LookUp(vs[|vs| - 1], s))
      case (Some(before), Some(last)) => Some(before + last)
      case _ => None
  }

  function Navigate(vs: seq<Json>, steps: seq<Step>): Option<seq<Json>>
    decreases |steps|
  {
    if steps == [] then Some(vs)
    else match LookUpEach(vs, steps[0])
      case None => None
      case Some(next) => Navigate(next, steps[1..])
  }

  // ---------------------------------------------------------------- paths

  /** The element children of a node with a name, and all of them. */
  function ElementsNamed(nodes: seq<Node>, name: string): seq<Node> {
    if nodes == [] then []
    else
      var last := nodes[|nodes| - 1];
      ElementsNamed(nodes[..|nodes| - 1], name) + (if last.Element? && last.tag == name then [last] else [])
  }

  function Elements(nodes: seq<Node>): seq<Node> {
    if nodes == [] then []
    else Elements(nodes[..|nodes| - 1]) + (if nodes[|nodes| - 1].Element? then [nodes[|nodes| - 1]] else [])
  }

  /** What a location step selects from one context node: `name`, `*`, or
      `*[n]`, whose predicate counts among the step's nodes from that context. */
  function Select(node: Node, s: Step): seq<Node> {
    if node.TextNode? then []
    else
      match s
      case Key(name) => ElementsNamed(node.children, name)
      case All => Elements(node.children)
      case Index(n) => var es := Elements(node.children); if 1 <= n <= |es| then [es[n - 1]] else []
  }

  function SelectEach(nodes: seq<Node>, s: Step): seq<Node> {
    if nodes == [] then [] else SelectEach(nodes[..|nodes| - 1], s) + Select(nodes[|nodes| - 1], s)
  }

  function Evaluate(nodes: seq<Node>, path: seq<Step>): seq<Node>
    decreases |path|
  {
    if path == [] then nodes else Evaluate(SelectEach(nodes, path[0]), path[1..])
  }

  /** The nodes are elements over the trees of the values, one for one. */
  ghost predicate TreesOf(nodes: seq<Node>, vs: seq<Json>) {
    && |nodes| == |vs|
    && forall i :: 0 <= i < |vs| ==> nodes[i].Element? && nodes[i].children == Children(vs[i]) && DistinctKeys(vs[i])
  }

  // --------------------------------------------------------------- proofs

  lemma {:induction false} ElementsOfElements(nodes: seq<Node>)
    requires forall i :: 0 <= i < |nodes| ==> nodes[i].Element?
    ensures Elements(nodes) == nodes
  {
    if nodes != [] {
      ElementsOfElements(nodes[..|nodes| - 1]);
      assert nodes == nodes[..|nodes| - 1] + [nodes[|nodes| - 1]];
    }
  }

  lemma {:induction false} NamedFields(fields: seq<Field>, name: string)
    requires forall i :: 0 <= i < |fields| ==> DistinctKeys(fields[i].value)
    ensures TreesOf(ElementsNamed(Children(Obj(fields)), name), ValueNamed(fields, name))
  {
    if fields != [] {
      var n := |fields| - 1;
      NamedFields(fields[..n], name);
      assert Children(Obj(fields))[..n] == Children(Obj(fields[..n]));
    }
  }

  lemma StepSelects(node: Node, v: Json, s: Step)
    requires node.Element? && node.children == Children(v) && DistinctKeys(v)
    requires LookUp(v, s).Some?
    ensures TreesOf(Select(node, s), LookUp(v, s).value)
  {
    ElementsOfElements(node.children);
    if s.Key? { NamedFields(v.fields, s.name); }
  }

  lemma TreesJoin(a: seq<Node>, b: seq<Node>, va: seq<Json>, vb: seq<Json>)
    requires TreesOf(a, va) && TreesOf(b, vb)
    ensures TreesOf(a + b, va + vb)
  {
  }

  lemma TreesSplit(nodes: seq<Node>, vs: seq<Json>)
    requires TreesOf(nodes, vs) && vs != []
    ensures var n := |vs| - 1;
            && |nodes| == |vs| && TreesOf(nodes[..n], vs[..n])
            && nodes[n].Element? && nodes[n].children == Children(vs[n]) && DistinctKeys(vs[n])
  {
  }

  lemma {:induction false} StepSelectsEach(nodes: seq<Node>, vs: seq<Json>, s: Step)
    requires TreesOf(nodes, vs) && LookUpEach(vs, s).Some?
    ensures TreesOf(SelectEach(nodes, s), LookUpEach(vs, s).value)
    decreases |vs|
  {
    if vs != [] {
      var n := |vs| - 1;
      hide LookUp, Select, Children, TreesOf, DistinctKeys;
      TreesSplit(nodes, vs);
      StepSelectsEach(nodes[..n], vs[..n], s);
      StepSelects(nodes[n], vs[n], s);
      TreesJoin(SelectEach(nodes[..n], s), Select(nodes[n], s), LookUpEach(vs[..n], s).value, LookUp(vs[n], s).value);
    }
  }

  lemma {:induction false} PathSelects(nodes: seq<Node>, vs: seq<Json>, steps: seq<Step>)
    requires TreesOf(nodes, vs) && Navigate(vs, steps).Some?
    ensures TreesOf(Evaluate(nodes, steps), Navigate(vs, steps).value)
    decreases |steps|
  {
    if steps != [] {
      hide TreesOf, LookUpEach, SelectEach;
      StepSelectsEach(nodes, vs, steps[0]);
      PathSelects(SelectEach(nodes, steps[0]), LookUpEach(vs, steps[0]).value, steps[1..]);
    }
  }

  /** Navigation keeps its meaning: whatever a chain of steps looks up in a
      value, the path selects, from the tree of that value, exactly the trees of
      what was looked up, in the same order. */
  lemma NavigationPreserved(v: Json, root: Node, steps: seq<Step>)
    requires DistinctKeys(v) && root.Element? && root.children == Children(v)
    requires Navigate([v], steps).Some?
    ensures var found := Navigate([v], steps).value;
            var selected := Evaluate([root], steps);
            && |selected| == |found|
            && forall i :: 0 <= i < |found| ==> selected[i].Element? && selected[i].children == Children(found[i])
  {
    PathSelects([root], [v], steps);
  }

  // ----------------------------------------------------------------- text

  function Decimal(n: nat): string {
    if n < 10 then [n as char + '0'] else Decimal(n / 10) + [(n % 10) as char + '0']
  }

  lemma {:induction false} DecimalIsDigits(n: nat)
    ensures Decimal(n) != [] && forall i :: 0 <= i < |Decimal(n)| ==> IsDigit(Decimal(n)[i])
  {
    if n >= 10 { DecimalIsDigits(n / 10); }
  }

  /** A step as a lookup, as a suffix of json(), and as a location step. */
  function LookupText(s: Step): string {
    match s
    case Key(name) => "?" + name
    case All => "?*"
    case Index(n) => "?" + Decimal(n)
  }

  function SuffixText(s: Step): string {
    match s
    case Key(name) => "." + name
    case All => "()"
    case Index(n) => "()[" + Decimal(n) + "]"
  }

  function PathText(s: Step): string {
    match s
    case Key(name) => "/" + name
    case All => "/*"
    case Index(n) => "/*[" + Decimal(n) + "]"
  }

  function LookupsText(steps: seq<Step>): string {
    if steps == [] then "" else LookupText(steps[0]) + LookupsText(steps[1..])
  }

  function ChainText(steps: seq<Step>): string {
    if steps == [] then "" else SuffixText(steps[0]) + ChainText(steps[1..])
  }

  function PathsText(steps: seq<Step>): string {
    if steps == [] then "" else PathText(steps[0]) + PathsText(steps[1..])
  }

  lemma {:induction false} PathsTextJoins(a: seq<Step>, b: seq<Step>)
    ensures PathsText(a + b) == PathsText(a) + PathsText(b)
    decreases |a|
  {
    if a == [] {
      assert a + b == b;
    } else {
      assert (a + b)[1..] == a[1..] + b;
      PathsTextJoins(a[1..], b);
    }
  }

  lemma {:induction false} ChainTextJoins(a: seq<Step>, b: seq<Step>)
    ensures ChainText(a + b) == ChainText(a) + ChainText(b)
    decreases |a|
  {
    if a == [] {
      assert a + b == b;
    } else {
      assert (a + b)[1..] == a[1..] + b;
      ChainTextJoins(a[1..], b);
    }
  }

  /** Keys that can be written in a lookup. */
  predicate Written(s: Step) {
    s.Key? ==>
      && s.name != [] && IsWord(s.name[0]) && !IsDigit(s.name[0])
      && forall i :: 0 <= i < |s.name| ==> IsKeyChar(s.name[i])
  }

  /** The text after a chain that is not read as more of it. */
  predicate Ends(rest: string) {
    rest == [] || (!IsKeyChar(rest[0]) && rest[0] != '[' && !StartsKey(rest) && !StartsMembers(rest))
  }

  lemma OneLookup(s: Step, more: string)
    requires Written(s) && (more == [] || !IsKeyChar(more[0]))
    ensures Lookup(LookupText(s) + more) == PathText(s) + Lookup(more)
  {
    hide Lookup, Decimal;
    match s
    case Key(name) => LookupKey(name, more);
    case All => LookupAll(more);
    case Index(n) =>
      DecimalIsDigits(n);
      LookupIndex(Decimal(n), more);
  }

  lemma {:induction false} LookupsBecomePath(steps: seq<Step>, rest: string)
    requires (forall i :: 0 <= i < |steps| ==> Written(steps[i])) && Ends(rest)
    ensures Lookup(LookupsText(steps) + rest) == PathsText(steps) + Lookup(rest)
    decreases |steps|
  {
    hide Lookup;
    if steps == [] {
      assert LookupsText(steps) + rest == rest;
    } else {
      var more := LookupsText(steps[1..]) + rest;
      LookupsBecomePath(steps[1..], rest);
      assert more == [] || !IsKeyChar(more[0]) by {
        if |steps| > 1 { assert LookupText(steps[1])[0] == '?'; }
      }
      hide LookupText, PathText, Written;
      OneLookup(steps[0], more);
      Append(LookupText(steps[0]), LookupsText(steps[1..]), rest);
      Append(PathText(steps[0]), PathsText(steps[1..]), Lookup(rest));
    }
  }

  // ------------------------------------------------------- reading a path

  /** The number some digits write. */
  function Number(digits: string): nat
    requires forall i :: 0 <= i < |digits| ==> IsDigit(digits[i])
  {
    if digits == [] then 0
    else
      assert IsDigit(digits[|digits| - 1]);
      10 * Number(digits[..|digits| - 1]) + (digits[|digits| - 1] - '0') as int
  }

  lemma {:induction false} NumberOfDecimal(n: nat)
    ensures forall i :: 0 <= i < |Decimal(n)| ==> IsDigit(Decimal(n)[i])
    ensures Number(Decimal(n)) == n
  {
    DecimalIsDigits(n);
    if n < 10 {
      assert Decimal(n)[..0] == [];
    } else {
      NumberOfDecimal(n / 10);
      assert Decimal(n)[..|Decimal(n)| - 1] == Decimal(n / 10);
    }
  }

  function Then(s: Step, rest: Option<seq<Step>>): Option<seq<Step>> {
    if rest.None? then None else Some([s] + rest.value)
  }

  // The steps a text writes, as an XPath engine reads /name, /* and /*[n]
  // (section 2 of XPath 1.0); None for any other text.
  function ReadSteps(s: string): Option<seq<Step>>
    decreases |s|
  {
    if s == [] then Some([])
    else if |s| < 2 || s[0] != '/' then None
    else if s[1] == '*' && |s| > 2 && s[2] == '[' then
      var n := Digits(s[3..]);
      if 0 < n < |s[3..]| && s[3..][n] == ']' then
        Then(Index(Number(s[3..][..n])), ReadSteps(s[3..][n + 1..]))
      else None
    else if s[1] == '*' then Then(All, ReadSteps(s[2..]))
    else
      var n := KeyName(s[1..]);
      if IsWord(s[1]) && !IsDigit(s[1]) && n > 0 then Then(Key(s[1..][..n]), ReadSteps(s[1..][n..])) else None
  }

  /** A whole path; a single slash is the root. */
  function ReadPath(s: string): Option<seq<Step>> { if s == "/" then Some([]) else ReadSteps(s) }

  /** A path that begins with two slashes: the steps it takes from every node. */
  function ReadSearch(s: string): Option<seq<Step>> {
    if |s| > 1 && s[0] == '/' && s[1] == '/' then ReadSteps(s[1..]) else None
  }

  lemma ReadKey(name: string, more: string)
    requires Written(Key(name)) && (more == [] || !IsKeyChar(more[0]))
    ensures ReadSteps("/" + name + more) == Then(Key(name), ReadSteps(more))
  {
    var s := "/" + name + more;
    assert s[1..] == name + more;
    KeyStays(name, more);
    assert s[1] == name[0] && s[1..][..|name|] == name && s[1..][|name|..] == more;
  }

  lemma ReadAll(more: string)
    requires more == [] || more[0] != '['
    ensures ReadSteps("/*" + more) == Then(All, ReadSteps(more))
  {
    var s := "/*" + more;
    assert s[2..] == more;
    if |s| > 2 { assert s[2] == more[0]; }
  }

  lemma ReadIndex(digits: string, more: string)
    requires digits != [] && forall i :: 0 <= i < |digits| ==> IsDigit(digits[i])
    ensures ReadSteps("/*[" + digits + "]" + more) == Then(Index(Number(digits)), ReadSteps(more))
  {
    hide Number;
    var s, after := "/*[" + digits + "]" + more, "]" + more;
    assert s[3..] == digits + after;
    DigitsStay(digits, after);
    assert s[3..][..|digits|] == digits && s[3..][|digits|] == ']' && s[3..][|digits| + 1..] == more;
  }

  lemma ReadStep(s: Step, more: string)
    requires Written(s) && (more == [] || more[0] == '/')
    ensures ReadSteps(PathText(s) + more) == Then(s, ReadSteps(more))
  {
    hide ReadSteps, Decimal, Number;
    match s
    case Key(name) => ReadKey(name, more);
    case All => ReadAll(more);
    case Index(n) =>
      DecimalIsDigits(n);
      NumberOfDecimal(n);
      ReadIndex(Decimal(n), more);
  }

  /** The text written for a chain of steps is read as those steps. */
  lemma {:induction false} ReadsBack(steps: seq<Step>)
    requires forall i :: 0 <= i < |steps| ==> Written(steps[i])
    ensures ReadSteps(PathsText(steps)) == Some(steps)
    ensures ReadPath(if steps == [] then "/" else PathsText(steps)) == Some(steps)
    decreases |steps|
  {
    if steps != [] {
      hide ReadSteps;
      ReadsBack(steps[1..]);
      assert PathsText(steps[1..]) != [] ==> PathsText(steps[1..])[0] == '/' by {
        if |steps| > 1 { assert PathText(steps[1])[0] == '/'; }
      }
      ReadStep(steps[0], PathsText(steps[1..]));
      assert [steps[0]] + steps[1..] == steps;
      assert |PathText(steps[0])| > 1;
    }
  }

  /** Navigation keeps its meaning down to the text: read as a path and
      evaluated from the tree of a value, what is written for a chain of steps
      selects exactly the trees of what the steps look up, in order. */
  lemma PathTextSelects(v: Json, root: Node, steps: seq<Step>)
    requires DistinctKeys(v) && root.Element? && root.children == Children(v)
    requires (forall i :: 0 <= i < |steps| ==> Written(steps[i])) && Navigate([v], steps).Some?
    ensures var path := ReadPath(if steps == [] then "/" else PathsText(steps));
            && path.Some?
            && var found, selected := Navigate([v], steps).value, Evaluate([root], path.value);
               && |selected| == |found|
               && forall i :: 0 <= i < |found| ==> selected[i].Element? && selected[i].children == Children(found[i])
  {
    hide ReadPath, Navigate, Evaluate, PathsText, DistinctKeys, Written;
    ReadsBack(steps);
    NavigationPreserved(v, root, steps);
  }

  // ------------------------------------------------------- json() suffixes

  /** How much of `s`, inside `depth` brackets, runs to the one that closes. */
  function BracketRest(s: string, depth: int): (n: nat)
    ensures n <= |s| && (s != [] ==> n > 0)
    decreases |s|
  {
    if s == [] then 0
    else if IsQuote(s[0]) then LiteralLength(s) + BracketRest(s[LiteralLength(s)..], depth)
    else if s[0] == ']' && depth == 1 then 1
    else 1 + BracketRest(s[1..], if s[0] == '[' then depth + 1 else if s[0] == ']' then depth - 1 else depth)
  }

  datatype Chain = Chain(path: string, length: nat)

  predicate StartsKey(s: string) { |s| > 1 && s[0] == '.' && IsWord(s[1]) }
  predicate StartsMembers(s: string) { |s| > 1 && s[0] == '(' && s[1] == ')' }

  /** The path for the suffixes at the start of `s`, and their length; `wrote`
      is whether the path has a step already. */
  function Suffixes(s: string, wrote: bool): (c: Chain)
    ensures c.length <= |s| && (c.length == 0 ==> c.path == "")
    ensures |c.path| <= c.length + (if wrote then 0 else 2)
    decreases |s|
  {
    if StartsKey(s) then
      var k := KeyName(s[1..]);
      var c := Suffixes(s[1 + k..], true);
      Chain("/" + s[1..1 + k] + c.path, 1 + k + c.length)
    else if StartsMembers(s) then
      var c := Suffixes(s[2..], true);
      Chain("/*" + c.path, 2 + c.length)
    else if s != [] && s[0] == '[' then
      var k := BracketRest(s, 0);
      var c := Suffixes(s[k..], true);
      Chain((if wrote then "" else "/*") + s[..k] + c.path, k + c.length)
    else Chain("", 0)
  }

  /** The path that stands for json() with these suffixes. */
  function ChainOf(s: string): (c: Chain)
    ensures c.length <= |s| && |c.path| <= c.length + 2
  {
    var c := Suffixes(s, false);
    if c.length == 0 then Chain("/", 0) else c
  }

  lemma BracketLiteral(lit: string, rest: string, depth: int)
    requires IsLiteral(lit, rest)
    ensures BracketRest(lit + rest, depth) == |lit| + BracketRest(rest, depth)
  {
    assert (lit + rest)[|lit|..] == rest;
  }

  lemma BracketChar(c: char, rest: string, depth: int)
    requires !IsQuote(c)
    ensures BracketRest([c] + rest, depth) ==
            if c == ']' && depth == 1 then 1
            else 1 + BracketRest(rest, if c == '[' then depth + 1 else if c == ']' then depth - 1 else depth)
  {
    assert ([c] + rest)[1..] == rest;
  }

  lemma NoBracket(depth: int)
    ensures BracketRest([], depth) == 0
  {
  }

  method Bracket(s: string, i: nat) returns (j: nat)
    requires i < |s|
    ensures j == i + BracketRest(s[i..], 0) && i < j <= |s|
  {
    hide BracketRest, IsLiteral, LiteralLength;
    var depth := 0;
    j := i;
    while j < |s|
      invariant i <= j <= |s| && (j == i ==> depth == 0)
      invariant j + BracketRest(s[j..], depth) == i + BracketRest(s[i..], 0)
    {
      Peel(s, j);
      var k := SkipLiteral(s, j);
      if k > 0 {
        BracketLiteral(s[j..k], s[k..], depth);
        j := k;
        continue;
      }
      BracketChar(s[j], s[j + 1..], depth);
      if s[j] == '[' {
        depth := depth + 1;
      } else if s[j] == ']' {
        depth := depth - 1;
        if depth == 0 {
          j := j + 1;
          break;
        }
      }
      j := j + 1;
    }
    assert s[|s|..] == [];
    NoBracket(depth);
  }

  /** `s` starts with a suffix `k` long, written as `step`. */
  predicate IsSuffix(s: string, wrote: bool, k: nat, step: string) {
    && 0 < k <= |s|
    && (|| (StartsKey(s) && k == 1 + KeyName(s[1..]) && step == "/" + s[1..k])
        || (StartsMembers(s) && k == 2 && step == "/*")
        || (s[0] == '[' && k == BracketRest(s, 0) && step == (if wrote then "" else "/*") + s[..k]))
  }

  lemma SuffixesStep(s: string, wrote: bool, k: nat, step: string)
    requires k <= |s| && IsSuffix(s, wrote, k, step)
    ensures Suffixes(s, wrote) == Chain(step + Suffixes(s[k..], true).path, k + Suffixes(s[k..], true).length)
  {
    hide KeyName, BracketRest;
  }

  lemma SuffixesEnd(s: string, wrote: bool)
    requires !StartsKey(s) && !StartsMembers(s) && (s == [] || s[0] != '[')
    ensures Suffixes(s, wrote) == Chain("", 0)
  {
  }

  method KeyEnd(s: string, i: nat) returns (k: nat)
    requires i < |s|
    ensures k == i + 1 + KeyName(s[i..][1..]) && k <= |s|
  {
    k := i + 1;
    assert s[i..][1..] == s[k..];
    while k < |s| && (IsNameChar(s[k]) || s[k] == '_' || s[k] == '-')
      invariant i < k <= |s| && k - i - 1 + KeyName(s[k..]) == KeyName(s[i..][1..])
    {
      assert s[k..][1..] == s[k + 1..];
      k := k + 1;
    }
  }

  /** The suffix at index i and the step written for it; none if k == i. */
  method SuffixAt(s: string, i: nat, wrote: bool) returns (k: nat, step: string)
    requires i < |s|
    ensures i <= k <= |s|
    ensures k > i ==> IsSuffix(s[i..], wrote, k - i, step)
    ensures k == i ==> !StartsKey(s[i..]) && !StartsMembers(s[i..]) && s[i] != '['
  {
    hide KeyName, BracketRest;
    k, step := i, "";
    if s[i] == '.' && i + 1 < |s| && (IsNameChar(s[i + 1]) || s[i + 1] == '_') {
      k := KeyEnd(s, i);
      assert s[i..][1..k - i] == s[i + 1..k];
      step := "/" + s[i + 1..k];
    } else if s[i] == '(' && i + 1 < |s| && s[i + 1] == ')' {
      k := i + 2;
      step := "/*";
    } else if s[i] == '[' {
      k := Bracket(s, i);
      assert s[i..][..k - i] == s[i..k];
      step := (if wrote then "" else "/*") + s[i..k];
    }
  }

  method ConsumeChain(s: string, start: nat) returns (path: string, next: nat)
    requires start <= |s|
    ensures var c := ChainOf(s[start..]); path == c.path && next == start + c.length
  {
    hide Suffixes, IsSuffix;
    var b, wrote, i := "", false, start;
    while i < |s|
      invariant start <= i <= |s| && wrote == (i > start)
      invariant b + Suffixes(s[i..], wrote).path == Suffixes(s[start..], false).path
      invariant i + Suffixes(s[i..], wrote).length == start + Suffixes(s[start..], false).length
    {
      var k, step := SuffixAt(s, i, wrote);
      if k == i {
        break;
      }
      SuffixesStep(s[i..], wrote, k - i, step);
      assert s[i..][k - i..] == s[k..];
      Append(b, step, Suffixes(s[k..], true).path);
      b := b + step;
      wrote := true;
      i := k;
    }
    SuffixesEnd(s[i..], wrote);
    if !wrote {
      return "/", i;
    }
    return b, i;
  }

  lemma {:induction false} DigitsInBracket(digits: string, rest: string)
    requires forall i :: 0 <= i < |digits| ==> IsDigit(digits[i])
    ensures BracketRest(digits + "]" + rest, 1) == |digits| + 1
    decreases |digits|
  {
    var s := digits + "]" + rest;
    if digits != [] {
      assert s[1..] == digits[1..] + "]" + rest;
      DigitsInBracket(digits[1..], rest);
    }
  }

  lemma KeySuffix(name: string, more: string, wrote: bool)
    requires Written(Key(name)) && (more == [] || !IsKeyChar(more[0]))
    ensures Suffixes("." + name + more, wrote) ==
            Chain("/" + name + Suffixes(more, true).path, 1 + |name| + Suffixes(more, true).length)
  {
    hide Suffixes, KeyName;
    var t := "." + name + more;
    assert t[1..] == name + more;
    KeyStays(name, more);
    assert t[1..1 + |name|] == name && t[1 + |name|..] == more;
    SuffixesStep(t, wrote, 1 + |name|, "/" + name);
  }

  lemma MembersSuffix(more: string, wrote: bool)
    ensures Suffixes("()" + more, wrote) ==
            Chain("/*" + Suffixes(more, true).path, 2 + Suffixes(more, true).length)
  {
    hide Suffixes;
    var t := "()" + more;
    assert t[2..] == more;
    SuffixesStep(t, wrote, 2, "/*");
  }

  lemma BracketSuffix(digits: string, more: string, wrote: bool)
    requires forall i :: 0 <= i < |digits| ==> IsDigit(digits[i])
    ensures Suffixes("[" + digits + "]" + more, wrote) ==
            Chain((if wrote then "" else "/*") + ("[" + digits + "]") + Suffixes(more, true).path,
                  |digits| + 2 + Suffixes(more, true).length)
  {
    hide Suffixes;
    var t := "[" + digits + "]" + more;
    assert BracketRest(t, 0) == |digits| + 2 by {
      assert t[1..] == digits + "]" + more;
      DigitsInBracket(digits, more);
    }
    hide BracketRest;
    assert t[..|digits| + 2] == "[" + digits + "]" && t[|digits| + 2..] == more;
    SuffixesStep(t, wrote, |digits| + 2, (if wrote then "" else "/*") + ("[" + digits + "]"));
  }

  lemma IndexSuffix(digits: string, more: string, wrote: bool)
    requires forall i :: 0 <= i < |digits| ==> IsDigit(digits[i])
    ensures Suffixes("()[" + digits + "]" + more, wrote) ==
            Chain("/*[" + digits + "]" + Suffixes(more, true).path, 4 + |digits| + Suffixes(more, true).length)
  {
    hide Suffixes;
    var bracket := "[" + digits + "]";
    BracketSuffix(digits, more, true);
    assert "" + bracket == bracket;
    MembersSuffix(bracket + more, wrote);
    assert "()[" + digits + "]" + more == "()" + (bracket + more);
    Append("/*", bracket, Suffixes(more, true).path);
    assert "/*" + bracket == "/*[" + digits + "]";
  }

  lemma OneSuffix(s: Step, more: string, wrote: bool)
    requires Written(s) && (more == [] || !IsKeyChar(more[0]))
    ensures Suffixes(SuffixText(s) + more, wrote) ==
            Chain(PathText(s) + Suffixes(more, true).path, |SuffixText(s)| + Suffixes(more, true).length)
  {
    hide Suffixes, Decimal;
    match s
    case Key(name) => KeySuffix(name, more, wrote);
    case All => MembersSuffix(more, wrote);
    case Index(n) =>
      DecimalIsDigits(n);
      IndexSuffix(Decimal(n), more, wrote);
  }

  lemma {:induction false} SuffixesBecomePath(steps: seq<Step>, rest: string, wrote: bool)
    requires (forall i :: 0 <= i < |steps| ==> Written(steps[i])) && Ends(rest)
    ensures Suffixes(ChainText(steps) + rest, wrote) == Chain(PathsText(steps), |ChainText(steps)|)
    decreases |steps|
  {
    hide Suffixes;
    if steps == [] {
      assert ChainText(steps) + rest == rest;
      SuffixesEnd(rest, wrote);
    } else {
      var more := ChainText(steps[1..]) + rest;
      assert ChainText(steps) + rest == SuffixText(steps[0]) + more;
      assert more == [] || !IsKeyChar(more[0]) by {
        if |steps| > 1 { assert SuffixText(steps[1])[0] in ".("; }
      }
      OneSuffix(steps[0], more, wrote);
      SuffixesBecomePath(steps[1..], rest, true);
    }
  }

  /** json() with a chain of steps becomes the chain's path, and what follows
      the chain is left; no step at all gives the root. */
  lemma ChainBecomesPath(steps: seq<Step>, rest: string)
    requires (forall i :: 0 <= i < |steps| ==> Written(steps[i])) && Ends(rest)
    ensures ChainOf(ChainText(steps) + rest) ==
            Chain(if steps == [] then "/" else PathsText(steps), |ChainText(steps)|)
  {
    SuffixesBecomePath(steps, rest, false);
    if steps != [] { assert SuffixText(steps[0]) != ""; }
  }

  lemma {:induction false} PathsArePlain(steps: seq<Step>)
    requires forall i :: 0 <= i < |steps| ==> Written(steps[i])
    ensures forall i :: 0 <= i < |PathsText(steps)| ==> !IsQuote(PathsText(steps)[i]) && PathsText(steps)[i] != '?'
    decreases |steps|
  {
    if steps != [] {
      PathsArePlain(steps[1..]);
      if steps[0].Index? { DecimalIsDigits(steps[0].n); }
      var p := PathText(steps[0]);
      assert forall i :: 0 <= i < |p| ==> !IsQuote(p[i]) && p[i] != '?';
    }
  }

  /** json() with a chain of suffixes and then lookups: the two passes write the
      path of all the steps exactly if there is a suffix or no lookup. A lookup
      straight on json() gets a second slash before it, which makes its first
      step a search at any depth. */
  lemma ChainThenLookups(chain: seq<Step>, lookups: seq<Step>)
    requires forall i :: 0 <= i < |chain| ==> Written(chain[i])
    requires forall i :: 0 <= i < |lookups| ==> Written(lookups[i])
    requires chain + lookups != []
    ensures var c := ChainOf(ChainText(chain) + LookupsText(lookups));
            var text := Lookup(c.path + (ChainText(chain) + LookupsText(lookups))[c.length..]);
            && text == (if chain == [] then "/" else "") + PathsText(chain + lookups)
            && (text == PathsText(chain + lookups) <==> chain != [])
  {
    hide Lookup, LookupText, LookupsText, ChainText, PathsText, ChainOf;
    var rest := LookupsText(lookups);
    LookupsEnd(lookups);
    ChainBecomesPath(chain, rest);
    assert (ChainText(chain) + rest)[|ChainText(chain)|..] == rest;
    PathsArePlain(chain);
    var path := if chain == [] then "/" else PathsText(chain);
    LookupPassesPlain(path, rest);
    LookupsBecomePath(lookups, "");
    NothingLeft(lookups);
    PathsTextJoins(chain, lookups);
    if chain == [] { assert chain + lookups == lookups; }
  }

  lemma LookupsEnd(lookups: seq<Step>)
    ensures Ends(LookupsText(lookups))
  {
    if lookups != [] { assert LookupText(lookups[0])[0] == '?'; }
  }

  lemma NothingLeft(lookups: seq<Step>)
    ensures LookupsText(lookups) + "" == LookupsText(lookups)
    ensures PathsText(lookups) + Lookup("") == PathsText(lookups)
    ensures PathsText([]) == ""
  {
  }
}
