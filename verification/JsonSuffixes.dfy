/** What the suffixes of json() mean, and exactly when the location path written
    for them (internal/txquery/rewrite.go) selects what they mean. A suffix
    `()[n]` is an unboxing and then a predicate, and a predicate filters the
    whole sequence on its left (section 3.2.1 of XQuery 3.1), where a step with
    a predicate counts within each context node (section 2.4 of XPath 1.0). */
module JsonSuffixes {
  import opened Options
  import opened JsonTree
  import opened Navigation

  // ------------------------------------------------------------- meaning

  /** The members of arrays, one array after the other; None if there is
      anything but arrays. */
  function Unboxed(vs: seq<Json>): Option<seq<Json>> {
    if vs == [] then Some([])
    else if !vs[|vs| - 1].Arr? then None
    else
      match Unboxed(vs[..|vs| - 1])
      case None => None
      case Some(before) => Some(before + vs[|vs| - 1].elems)
  }

  function Nth(vs: seq<Json>, n: nat): seq<Json> { if 1 <= n <= |vs| then [vs[n - 1]] else [] }

  /** A suffix over a sequence: a key of each value, the members of all, or the
      n-th of the members of all. */
  function Suffixed(vs: seq<Json>, s: Step): Option<seq<Json>> {
    match s
    case Key(_) => LookUpEach(vs, s)
    case All => Unboxed(vs)
    case Index(n) => if Unboxed(vs).None? then None else Some(Nth(Unboxed(vs).value, n))
  }

  function Meaning(vs: seq<Json>, chain: seq<Step>): Option<seq<Json>>
    decreases |chain|
  {
    if chain == [] then Some(vs)
    else
      match Suffixed(vs, chain[0])
      case None => None
      case Some(next) => Meaning(next, chain[1..])
  }

  /** What an expression looks up: its suffixes, then its lookups. */
  function ValueOf(v: Json, chain: seq<Step>, lookups: seq<Step>): Option<seq<Json>> {
    match Meaning([v], chain)
    case None => None
    case Some(found) => Navigate(found, lookups)
  }

  // ----------------------------------------------------------- conditions

  predicate HasIndex(chain: seq<Step>) { exists i :: 0 <= i < |chain| && chain[i].Index? }

  /** A plain `()` comes before a `()[n]`. */
  predicate Spreads(chain: seq<Step>) {
    exists i, j :: 0 <= i < j < |chain| && chain[i].All? && chain[j].Index?
  }

  /** Some index is 0, which is that of no member. */
  predicate HasZero(steps: seq<Step>) { Index(0) in steps }

  lemma Conditions(chain: seq<Step>)
    requires chain != []
    ensures HasIndex(chain) <==> chain[0].Index? || HasIndex(chain[1..])
    ensures Spreads(chain) <==> (chain[0].All? && HasIndex(chain[1..])) || Spreads(chain[1..])
    ensures HasZero(chain) <==> chain[0] == Index(0) || HasZero(chain[1..])
  {
    var rest := chain[1..];
    assert forall i :: 0 <= i < |rest| ==> rest[i] == chain[i + 1];
    if HasIndex(chain) {
      var i :| 0 <= i < |chain| && chain[i].Index?;
      if i > 0 { assert rest[i - 1].Index?; }
    }
    if HasIndex(rest) {
      var i :| 0 <= i < |rest| && rest[i].Index?;
      assert chain[i + 1].Index?;
      if chain[0].All? { assert Spreads(chain); }
    }
    if Spreads(chain) {
      var i, j :| 0 <= i < j < |chain| && chain[i].All? && chain[j].Index?;
      assert rest[j - 1].Index?;
      if i > 0 { assert rest[i - 1].All?; }
    }
    if Spreads(rest) {
      var i, j :| 0 <= i < j < |rest| && rest[i].All? && rest[j].Index?;
      assert chain[i + 1].All? && chain[j + 1].Index?;
    }
  }

  // ------------------------------------------------ where the path is right

  lemma {:induction false} UnboxedIsLookup(vs: seq<Json>)
    requires Unboxed(vs).Some?
    ensures LookUpEach(vs, All) == Unboxed(vs)
    decreases |vs|
  {
    if vs != [] { UnboxedIsLookup(vs[..|vs| - 1]); }
  }

  lemma {:induction false} NamedAtMostOnce(fields: seq<Field>, name: string)
    requires forall i, j :: 0 <= i < j < |fields| ==> fields[i].key != fields[j].key
    ensures |ValueNamed(fields, name)| <= 1
    ensures (forall i :: 0 <= i < |fields| ==> fields[i].key != name) ==> ValueNamed(fields, name) == []
  {
    if fields != [] { NamedAtMostOnce(fields[..|fields| - 1], name); }
  }

  lemma KeyOfOne(vs: seq<Json>, s: Step)
    requires |vs| <= 1 && s.Key? && LookUpEach(vs, s).Some?
    requires forall i :: 0 <= i < |vs| ==> DistinctKeys(vs[i])
    ensures |LookUpEach(vs, s).value| <= 1
  {
    if vs != [] {
      assert vs[..0] == [];
      NamedAtMostOnce(vs[0].fields, s.name);
    }
  }

  /** On one value at most, `()[n]` and the step for it agree. */
  lemma IndexOfOne(nodes: seq<Node>, vs: seq<Json>, n: nat)
    requires TreesOf(nodes, vs) && |vs| <= 1 && Suffixed(vs, Index(n)).Some?
    ensures TreesOf(SelectEach(nodes, Index(n)), Suffixed(vs, Index(n)).value)
    ensures |Suffixed(vs, Index(n)).value| <= 1
  {
    if vs != [] {
      assert vs[..0] == [] && nodes[..0] == [];
      ElementsOfElements(nodes[0].children);
      assert Unboxed(vs) == Some([] + vs[0].elems);
      assert [] + vs[0].elems == vs[0].elems;
      assert SelectEach(nodes, Index(n)) == [] + Select(nodes[0], Index(n));
    }
  }

  lemma {:induction false} UnspreadSelects(nodes: seq<Node>, vs: seq<Json>, chain: seq<Step>)
    requires TreesOf(nodes, vs) && Meaning(vs, chain).Some?
    requires !Spreads(chain) && (|vs| <= 1 || !HasIndex(chain))
    ensures TreesOf(Evaluate(nodes, chain), Meaning(vs, chain).value)
    decreases |chain|
  {
    if chain != [] {
      Conditions(chain);
      var s, next := chain[0], Suffixed(vs, chain[0]).value;
      match s {
        case Key(_) =>
          if |vs| <= 1 { KeyOfOne(vs, s); }
          StepSelectsEach(nodes, vs, s);
        case All =>
          UnboxedIsLookup(vs);
          StepSelectsEach(nodes, vs, s);
        case Index(n) => IndexOfOne(nodes, vs, n);
      }
      UnspreadSelects(SelectEach(nodes, s), next, chain[1..]);
    }
  }

  // ------------------------------------------------------------ index zero

  lemma {:induction false} NothingFromNothing(steps: seq<Step>)
    ensures Evaluate([], steps) == [] && Meaning([], steps) == Some([]) && Navigate([], steps) == Some([])
    decreases |steps|
  {
    if steps != [] { NothingFromNothing(steps[1..]); }
  }

  lemma {:induction false} NoZeroth(nodes: seq<Node>)
    ensures SelectEach(nodes, Index(0)) == []
    decreases |nodes|
  {
    if nodes != [] { NoZeroth(nodes[..|nodes| - 1]); }
  }

  lemma {:induction false} ZeroSelectsNothing(nodes: seq<Node>, steps: seq<Step>)
    requires HasZero(steps)
    ensures Evaluate(nodes, steps) == []
    decreases |steps|
  {
    Conditions(steps);
    if steps[0] == Index(0) {
      NoZeroth(nodes);
      NothingFromNothing(steps[1..]);
    } else {
      ZeroSelectsNothing(SelectEach(nodes, steps[0]), steps[1..]);
    }
  }

  lemma {:induction false} ZeroMeansNothing(vs: seq<Json>, chain: seq<Step>)
    requires HasZero(chain) && Meaning(vs, chain).Some?
    ensures Meaning(vs, chain) == Some([])
    decreases |chain|
  {
    Conditions(chain);
    if chain[0] == Index(0) {
      NothingFromNothing(chain[1..]);
    } else {
      ZeroMeansNothing(Suffixed(vs, chain[0]).value, chain[1..]);
    }
  }

  lemma {:induction false} ZeroFindsNothing(vs: seq<Json>, steps: seq<Step>)
    requires HasZero(steps) && Navigate(vs, steps).Some?
    ensures Navigate(vs, steps) == Some([])
    decreases |steps|
  {
    Conditions(steps);
    if steps[0] == Index(0) {
      NothingFromNothing(steps[1..]);
    } else {
      ZeroFindsNothing(LookUpEach(vs, steps[0]).value, steps[1..]);
    }
  }

  lemma {:induction false} EvaluateJoins(nodes: seq<Node>, a: seq<Step>, b: seq<Step>)
    ensures Evaluate(nodes, a + b) == Evaluate(Evaluate(nodes, a), b)
    decreases |a|
  {
    if a == [] {
      assert a + b == b;
    } else {
      assert (a + b)[1..] == a[1..] + b;
      EvaluateJoins(SelectEach(nodes, a[0]), a[1..], b);
    }
  }

  /** With no plain `()` before a `()[n]`, or with an index 0, the path selects
      exactly the trees of the values the suffixes and the lookups after them
      mean, in order; an index past the end selects nothing on either side. */
  lemma PathIsRight(v: Json, root: Node, chain: seq<Step>, lookups: seq<Step>)
    requires DistinctKeys(v) && root.Element? && root.children == Children(v)
    requires ValueOf(v, chain, lookups).Some? && (!Spreads(chain) || HasZero(chain + lookups))
    ensures TreesOf(Evaluate([root], chain + lookups), ValueOf(v, chain, lookups).value)
  {
    var found := Meaning([v], chain).value;
    if HasZero(chain + lookups) {
      ZeroSelectsNothing([root], chain + lookups);
      if HasZero(chain) {
        ZeroMeansNothing([v], chain);
        NothingFromNothing(lookups);
      } else {
        ZeroFindsNothing(found, lookups);
      }
    } else {
      EvaluateJoins([root], chain, lookups);
      UnspreadSelects([root], [v], chain);
      PathSelects(Evaluate([root], chain), found, lookups);
    }
  }

  // ------------------------------------------------ where the path is wrong

  function Copies(k: nat, v: Json): (r: seq<Json>)
    ensures |r| == k && forall i :: 0 <= i < k ==> r[i] == v
  {
    if k == 0 then [] else Copies(k - 1, v) + [v]
  }

  /** A value every step of which finds something, with `leaf` at the ends: two
      members for a plain `()`, n for a `()[n]`. */
  function Witness(steps: seq<Step>, leaf: Json): Json
    decreases |steps|
  {
    if steps == [] then leaf
    else
      var x := Witness(steps[1..], leaf);
      match steps[0]
      case Key(name) => Obj([Field(name, x)])
      case All => Arr(Copies(2, x))
      case Index(n) => Arr(Copies(n, x))
  }

  lemma {:induction false} WitnessIsDistinct(steps: seq<Step>, leaf: Json)
    requires DistinctKeys(leaf)
    ensures DistinctKeys(Witness(steps, leaf))
    decreases |steps|
  {
    if steps != [] { WitnessIsDistinct(steps[1..], leaf); }
  }

  /** How many values the path comes to from k of them, and how many are meant. */
  function PathCount(k: nat, steps: seq<Step>): nat
    decreases |steps|
  {
    if steps == [] then k else PathCount(if steps[0].All? then 2 * k else k, steps[1..])
  }

  function MeantCount(k: nat, chain: seq<Step>): nat
    decreases |chain|
  {
    if chain == [] then k
    else MeantCount(match chain[0] case Key(_) => k case All => 2 * k case Index(_) => 1, chain[1..])
  }

  lemma {:induction false} CopiesJoin(a: nat, b: nat, v: Json)
    ensures Copies(a, v) + Copies(b, v) == Copies(a + b, v)
  {
  }

  lemma OneField(name: string, x: Json)
    ensures ValueNamed([Field(name, x)], name) == [x]
  {
    var fields := [Field(name, x)];
    assert fields[..0] == [] && ValueNamed(fields[..0], name) == [];
  }

  lemma {:induction false} KeyOfCopies(k: nat, name: string, x: Json)
    ensures LookUpEach(Copies(k, Obj([Field(name, x)])), Key(name)) == Some(Copies(k, x))
    decreases k
  {
    var v := Obj([Field(name, x)]);
    if k > 0 {
      KeyOfCopies(k - 1, name, x);
      assert Copies(k, v)[..k - 1] == Copies(k - 1, v);
      OneField(name, x);
      assert LookUp(v, Key(name)) == Some([x]);
    }
  }

  lemma UnboxedMore(vs: seq<Json>, elems: seq<Json>)
    requires Unboxed(vs).Some?
    ensures Unboxed(vs + [Arr(elems)]) == Some(Unboxed(vs).value + elems)
  {
    assert (vs + [Arr(elems)])[..|vs|] == vs;
  }

  lemma OneMoreTime(k: nat, n: nat)
    requires k > 0
    ensures (k - 1) * n + n == k * n && (k - 1) * n >= 0
  {
  }

  lemma MembersMore(k: nat, n: nat, x: Json, before: nat)
    requires k > 0 && Unboxed(Copies(k - 1, Arr(Copies(n, x)))) == Some(Copies(before, x))
    ensures Unboxed(Copies(k, Arr(Copies(n, x)))) == Some(Copies(before + n, x))
  {
    var v := Arr(Copies(n, x));
    assert Copies(k, v) == Copies(k - 1, v) + [v];
    hide Unboxed, Copies;
    UnboxedMore(Copies(k - 1, v), Copies(n, x));
    CopiesJoin(before, n, x);
  }

  lemma NoMembers(x: Json, y: Json)
    ensures Unboxed(Copies(0, x)) == Some(Copies(0, y))
  {
  }

  lemma {:induction false} MembersOfCopies(k: nat, n: nat, x: Json)
    ensures k * n >= 0 && Unboxed(Copies(k, Arr(Copies(n, x)))) == Some(Copies(k * n, x))
    decreases k
  {
    hide Unboxed, Copies;
    if k == 0 {
      NoMembers(Arr(Copies(n, x)), x);
    } else {
      MembersOfCopies(k - 1, n, x);
      OneMoreTime(k, n);
      MembersMore(k, n, x, (k - 1) * n);
    }
  }

  lemma {:induction false} IndexOfCopies(k: nat, n: nat, x: Json)
    requires n >= 1
    ensures LookUpEach(Copies(k, Arr(Copies(n, x))), Index(n)) == Some(Copies(k, x))
    decreases k
  {
    var v := Arr(Copies(n, x));
    if k > 0 {
      IndexOfCopies(k - 1, n, x);
      assert Copies(k, v)[..k - 1] == Copies(k - 1, v);
    }
  }

  lemma StepOfCopies(k: nat, steps: seq<Step>, leaf: Json)
    requires steps != [] && steps[0] != Index(0)
    ensures LookUpEach(Copies(k, Witness(steps, leaf)), steps[0]) ==
            Some(Copies(if steps[0].All? then 2 * k else k, Witness(steps[1..], leaf)))
  {
    hide LookUpEach, Unboxed, Copies;
    var x := Witness(steps[1..], leaf);
    match steps[0]
    case Key(name) => KeyOfCopies(k, name, x);
    case All =>
      MembersOfCopies(k, 2, x);
      UnboxedIsLookup(Copies(k, Arr(Copies(2, x))));
    case Index(n) => IndexOfCopies(k, n, x);
  }

  lemma {:induction false} LookupsOfCopies(k: nat, steps: seq<Step>, leaf: Json)
    requires !HasZero(steps)
    ensures Navigate(Copies(k, Witness(steps, leaf)), steps) == Some(Copies(PathCount(k, steps), leaf))
    decreases |steps|
  {
    if steps != [] {
      Conditions(steps);
      StepOfCopies(k, steps, leaf);
      hide LookUpEach, Copies, HasZero;
      LookupsOfCopies(if steps[0].All? then 2 * k else k, steps[1..], leaf);
    }
  }

  lemma {:induction false} MeaningOfCopies(k: nat, chain: seq<Step>, leaf: Json)
    requires k >= 1 && !HasZero(chain)
    ensures Meaning(Copies(k, Witness(chain, leaf)), chain) == Some(Copies(MeantCount(k, chain), leaf))
    decreases |chain|
  {
    if chain != [] {
      Conditions(chain);
      var x := Witness(chain[1..], leaf);
      match chain[0] {
        case Key(name) =>
          KeyOfCopies(k, name, x);
          MeaningOfCopies(k, chain[1..], leaf);
        case All =>
          MembersOfCopies(k, 2, x);
          MeaningOfCopies(2 * k, chain[1..], leaf);
        case Index(n) =>
          MembersOfCopies(k, n, x);
          AtLeast(k, n);
          assert Nth(Copies(k * n, x), n) == Copies(1, x);
          MeaningOfCopies(1, chain[1..], leaf);
      }
    }
  }

  lemma AtLeast(k: nat, n: nat)
    requires k >= 1
    ensures n <= k * n
  {
    assert k * n == n + (k - 1) * n;
  }

  lemma {:induction false} WitnessJoins(a: seq<Step>, b: seq<Step>, leaf: Json)
    ensures Witness(a + b, leaf) == Witness(a, Witness(b, leaf))
    decreases |a|
  {
    if a == [] {
      assert a + b == b;
    } else {
      assert (a + b)[1..] == a[1..] + b;
      WitnessJoins(a[1..], b, leaf);
    }
  }

  lemma {:induction false} PathCountJoins(k: nat, a: seq<Step>, b: seq<Step>)
    ensures PathCount(k, a + b) == PathCount(PathCount(k, a), b)
    decreases |a|
  {
    if a == [] {
      assert a + b == b;
    } else {
      assert (a + b)[1..] == a[1..] + b;
      PathCountJoins(if a[0].All? then 2 * k else k, a[1..], b);
    }
  }

  lemma {:induction false} PathCountGrows(j: nat, k: nat, steps: seq<Step>)
    requires j < k
    ensures j <= PathCount(j, steps) < PathCount(k, steps)
    decreases |steps|
  {
    if steps != [] {
      var f := if steps[0].All? then 2 else 1;
      PathCountGrows(f * j, f * k, steps[1..]);
    }
  }

  /** The path comes to more values than are meant as soon as it comes to more
      than one before a `()[n]`. */
  lemma {:induction false} PathCountsMore(j: nat, k: nat, chain: seq<Step>)
    requires 1 <= j <= k
    ensures MeantCount(j, chain) <= PathCount(k, chain)
    ensures j < k || Spreads(chain) || (k > 1 && HasIndex(chain)) ==> MeantCount(j, chain) < PathCount(k, chain)
    decreases |chain|
  {
    if chain != [] {
      Conditions(chain);
      match chain[0]
      case Key(_) => PathCountsMore(j, k, chain[1..]);
      case All => PathCountsMore(2 * j, 2 * k, chain[1..]);
      case Index(_) => PathCountsMore(1, k, chain[1..]);
    }
  }

  lemma NoZeroApart(chain: seq<Step>, lookups: seq<Step>)
    ensures HasZero(chain + lookups) <==> HasZero(chain) || HasZero(lookups)
  {
  }

  lemma NullIsDistinct()
    ensures DistinctKeys(Null)
  {
  }

  /** With a plain `()` before a `()[n]`, and no index 0, there is a value from
      which the path selects more than is meant. */
  lemma PathIsWrong(chain: seq<Step>, lookups: seq<Step>) returns (v: Json)
    requires Spreads(chain) && !HasZero(chain + lookups)
    ensures DistinctKeys(v) && ValueOf(v, chain, lookups).Some?
    ensures forall root: Node :: root.Element? && root.children == Children(v) ==>
              |Evaluate([root], chain + lookups)| > |ValueOf(v, chain, lookups).value|
  {
    hide Evaluate, Meaning, Navigate, PathCount, MeantCount, Children, HasZero, Spreads, DistinctKeys;
    NoZeroApart(chain, lookups);
    assert DistinctKeys(Null) by { NullIsDistinct(); }
    var inner := Witness(lookups, Null);
    var steps := chain + lookups;
    v := Witness(chain, inner);
    WitnessIsDistinct(lookups, Null);
    WitnessIsDistinct(chain, inner);
    assert Copies(0, v) == [] && Copies(1, v) == [v];
    hide Copies, Witness;
    MeaningOfCopies(1, chain, inner);
    var meant := MeantCount(1, chain);
    LookupsOfCopies(meant, lookups, Null);
    WitnessJoins(chain, lookups, Null);
    LookupsOfCopies(1, steps, Null);
    PathCountsMore(1, 1, chain);
    PathCountJoins(1, chain, lookups);
    PathCountGrows(meant, PathCount(1, chain), lookups);
    forall root: Node | root.Element? && root.children == Children(v)
      ensures |Evaluate([root], steps)| == PathCount(1, steps)
    {
      PathSelects([root], [v], steps);
    }
  }

  /** The values and the path agree on every document exactly then. */
  ghost predicate Agrees(chain: seq<Step>, lookups: seq<Step>) {
    forall v, root ::
      DistinctKeys(v) && OverTree(root, v) && ValueOf(v, chain, lookups).Some? ==>
        TreesOf(Evaluate([root], chain + lookups), ValueOf(v, chain, lookups).value)
  }

  predicate OverTree(root: Node, v: Json) { root.Element? && root.children == Children(v) }

  lemma AgreesExactly(chain: seq<Step>, lookups: seq<Step>)
    ensures Agrees(chain, lookups) <==> !Spreads(chain) || HasZero(chain + lookups)
  {
    if !Spreads(chain) || HasZero(chain + lookups) {
      forall v, root | DistinctKeys(v) && OverTree(root, v) && ValueOf(v, chain, lookups).Some?
        ensures TreesOf(Evaluate([root], chain + lookups), ValueOf(v, chain, lookups).value)
      {
        PathIsRight(v, root, chain, lookups);
      }
    } else {
      var v := PathIsWrong(chain, lookups);
      var root := Element("", Children(v));
      assert OverTree(root, v);
    }
  }

  // ----------------------------------------------------- the second slash

  /** Every node below some nodes, each before what is inside it. */
  function Descendants(nodes: seq<Node>): seq<Node> {
    if nodes == [] then []
    else
      var last := nodes[|nodes| - 1];
      Descendants(nodes[..|nodes| - 1]) + ([last] + (if last.Element? then Descendants(last.children) else []))
  }

  /** What a path after two slashes selects: its steps from the node and from
      every node below it, in the order of these. Every node has one parent, so
      no node comes up twice. */
  function Search(root: Node, steps: seq<Step>): seq<Node>
    requires root.Element?
  {
    Evaluate([root] + Descendants(root.children), steps)
  }

  lemma SelectEachMore(nodes: seq<Node>, x: Node, s: Step)
    ensures SelectEach(nodes + [x], s) == SelectEach(nodes, s) + Select(x, s)
  {
    assert (nodes + [x])[..|nodes|] == nodes;
  }

  lemma JoinLast(a: seq<Node>, b: seq<Node>)
    requires b != []
    ensures a + b == (a + b[..|b| - 1]) + [b[|b| - 1]] && b == b[..|b| - 1] + [b[|b| - 1]]
  {
  }

  lemma {:induction false} SelectEachJoins(a: seq<Node>, b: seq<Node>, s: Step)
    ensures SelectEach(a + b, s) == SelectEach(a, s) + SelectEach(b, s)
    decreases |b|
  {
    if b == [] {
      assert a + b == a && SelectEach(b, s) == [];
    } else {
      hide Select, SelectEach;
      var before, last := b[..|b| - 1], b[|b| - 1];
      JoinLast(a, b);
      SelectEachJoins(a, before, s);
      SelectEachMore(a + before, last, s);
      SelectEachMore(before, last, s);
    }
  }

  lemma {:induction false} EvaluateEach(a: seq<Node>, b: seq<Node>, steps: seq<Step>)
    ensures Evaluate(a + b, steps) == Evaluate(a, steps) + Evaluate(b, steps)
    decreases |steps|
  {
    if steps != [] {
      SelectEachJoins(a, b, steps[0]);
      EvaluateEach(SelectEach(a, steps[0]), SelectEach(b, steps[0]), steps[1..]);
    }
  }

  lemma {:induction false} ChildIsBelow(nodes: seq<Node>, i: nat)
    requires i < |nodes|
    ensures nodes[i] in Descendants(nodes)
    ensures nodes[i].Element? ==> forall d :: d in Descendants(nodes[i].children) ==> d in Descendants(nodes)
    decreases |nodes|
  {
    var n := |nodes| - 1;
    if i < n { ChildIsBelow(nodes[..n], i); }
  }

  lemma {:induction false} ElementIsChild(nodes: seq<Node>, name: string, x: Node)
    ensures x in ElementsNamed(nodes, name) ==> x in nodes
    ensures x in Elements(nodes) ==> x in nodes
  {
    if nodes != [] {
      ElementIsChild(nodes[..|nodes| - 1], name, x);
      assert nodes == nodes[..|nodes| - 1] + [nodes[|nodes| - 1]];
    }
  }

  lemma SelectedIsChild(node: Node, s: Step, x: Node)
    requires x in Select(node, s)
    ensures node.Element? && x in node.children
  {
    ElementIsChild(node.children, if s.Key? then s.name else "", x);
  }

  lemma {:induction false} SelectedFromOne(nodes: seq<Node>, s: Step, x: Node) returns (i: nat)
    requires x in SelectEach(nodes, s)
    ensures i < |nodes| && x in Select(nodes[i], s)
    decreases |nodes|
  {
    var n := |nodes| - 1;
    if x in Select(nodes[n], s) { i := n; } else { i := SelectedFromOne(nodes[..n], s, x); }
  }

  /** What a path selects from a set of nodes closed under children is in it. */
  lemma {:induction false} SelectedStays(nodes: seq<Node>, below: seq<Node>, steps: seq<Step>, x: Node)
    requires forall i :: 0 <= i < |nodes| && nodes[i].Element? ==>
               forall d :: d in Descendants(nodes[i].children) ==> d in below
    requires steps != [] && x in Evaluate(nodes, steps)
    ensures x in below
    decreases |steps|
  {
    var next := SelectEach(nodes, steps[0]);
    forall k | 0 <= k < |next|
      ensures next[k] in below
      ensures next[k].Element? ==> forall d :: d in Descendants(next[k].children) ==> d in below
    {
      var i := SelectedFromOne(nodes, steps[0], next[k]);
      SelectedIsChild(nodes[i], steps[0], next[k]);
      var j :| 0 <= j < |nodes[i].children| && nodes[i].children[j] == next[k];
      ChildIsBelow(nodes[i].children, j);
    }
    if |steps| == 1 {
      assert Evaluate(nodes, steps) == next;
    } else {
      SelectedStays(next, below, steps[1..], x);
    }
  }

  lemma {:induction false} SearchHolds(nodes: seq<Node>, x: Node, steps: seq<Step>)
    requires x in nodes
    ensures |Evaluate(nodes, steps)| >= |Evaluate([x], steps)|
    decreases |nodes|
  {
    var n := |nodes| - 1;
    assert nodes == nodes[..n] + [nodes[n]];
    EvaluateEach(nodes[..n], [nodes[n]], steps);
    if nodes[n] != x { SearchHolds(nodes[..n], x, steps); }
  }

  /** For every chain of lookups without an index 0 there is a document on which
      the search finds more than the lookups: one with, at the end of what the
      lookups find, a value they find something in once more. */
  lemma SearchFindsMore(lookups: seq<Step>) returns (v: Json)
    requires lookups != [] && !HasZero(lookups)
    ensures DistinctKeys(v) && Navigate([v], lookups).Some?
    ensures forall root :: OverTree(root, v) ==> |Search(root, lookups)| > |Navigate([v], lookups).value|
  {
    var leaf := Witness(lookups, Null);
    v := Witness(lookups, leaf);
    WitnessIsDistinct(lookups, Null);
    WitnessIsDistinct(lookups, leaf);
    assert Copies(0, v) == [] && Copies(1, v) == [v] && Copies(0, leaf) == [] && Copies(1, leaf) == [leaf];
    LookupsOfCopies(1, lookups, leaf);
    LookupsOfCopies(1, lookups, Null);
    PathCountGrows(0, 1, lookups);
    forall root | OverTree(root, v) ensures |Search(root, lookups)| > |Navigate([v], lookups).value| {
      MoreFound(root, v, leaf, lookups);
    }
  }

  lemma MoreFound(root: Node, v: Json, leaf: Json, lookups: seq<Step>)
    requires lookups != [] && OverTree(root, v) && DistinctKeys(v) && DistinctKeys(leaf)
    requires Navigate([v], lookups).Some? && leaf in Navigate([v], lookups).value
    requires Navigate([leaf], lookups).Some? && Navigate([leaf], lookups).value != []
    ensures |Search(root, lookups)| > |Navigate([v], lookups).value|
  {
    hide Navigate, Evaluate, Descendants, Children, DistinctKeys;
    var below := Descendants(root.children);
    EvaluateEach([root], below, lookups);
    PathSelects([root], [v], lookups);
    var selected, found := Evaluate([root], lookups), Navigate([v], lookups).value;
    var i :| 0 <= i < |found| && found[i] == leaf;
    var x := selected[i];
    assert x.Element? && x.children == Children(leaf);
    FoundAgain(x, leaf, lookups);
    SelectedStays([root], below, lookups, x);
    SearchHolds(below, x, lookups);
  }

  lemma FoundAgain(x: Node, leaf: Json, lookups: seq<Step>)
    requires OverTree(x, leaf) && DistinctKeys(leaf)
    requires Navigate([leaf], lookups).Some? && Navigate([leaf], lookups).value != []
    ensures |Evaluate([x], lookups)| > 0
  {
    PathSelects([x], [leaf], lookups);
  }

  /** With an index 0 neither finds anything. */
  lemma ZeroSearchesNothing(v: Json, root: Node, lookups: seq<Step>)
    requires HasZero(lookups) && OverTree(root, v) && Navigate([v], lookups).Some?
    ensures Search(root, lookups) == [] && Navigate([v], lookups) == Some([])
  {
    ZeroSelectsNothing([root] + Descendants(root.children), lookups);
    ZeroFindsNothing([v], lookups);
  }
}
