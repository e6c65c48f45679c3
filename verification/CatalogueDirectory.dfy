/** What a whole read finds: which positions of a site's directory it asks for
    (internal/app/catalogue_index.go, internal/app/app.go), what its table says
    of them, and what a job that is not broken off leaves in the store. All of
    it is said of the site alone. */
module CatalogueDirectory {
  import opened Options
  import opened CatalogueStore
  import opened SiteBrowse
  import opened CatalogueRead

  /** A page of the directory: it and the pages before it in its section all
      list something. */
  ghost predicate InDirectory(site: Site, at: Pos) {
    && 0 <= at.dir < site.total && 0 <= at.page
    && forall q :: 0 <= q <= at.page ==> site.listing(at.dir, q) != []
  }

  /** The entries of some pages, one page after the other. */
  function EntriesOf(site: Site, ps: seq<Pos>): seq<Entry> {
    if ps == [] then []
    else EntriesOf(site, ps[..|ps| - 1]) + site.listing(ps[|ps| - 1].dir, ps[|ps| - 1].page)
  }

  /** The first pages of the directory, in order and none left out. */
  ghost predicate Walked(site: Site, ps: seq<Pos>) {
    && (forall i, j :: 0 <= i < j < |ps| ==> Before(ps[i], ps[j]))
    && (forall i :: 0 <= i < |ps| ==> InDirectory(site, ps[i]))
    && (forall x, i :: 0 <= i < |ps| && InDirectory(site, x) && Before(x, ps[i]) ==> x in ps)
  }

  ghost predicate WholeDirectory(site: Site, ps: seq<Pos>) {
    forall x :: InDirectory(site, x) ==> x in ps
  }

  /** Three sections in a row list nothing: with the page asked for at the end of
      the section before them these are the four empty ones a request gives up
      after. */
  ghost predicate Gap(site: Site, a: int) { forall d :: a <= d < a + 3 ==> site.listing(d, 0) == [] }

  /** Some section with titles comes after such a gap. */
  ghost predicate GivesUp(site: Site) {
    exists a, e :: 1 <= a && a + 3 <= e < site.total && Gap(site, a) && site.listing(e, 0) != []
  }

  ghost predicate NoGapBelow(site: Site, d: int) { forall a :: 1 <= a && a + 3 <= d ==> !Gap(site, a) }

  // ------------------------------------------------------- one position

  /** After a page that was answered comes the very next page of the section
      that answered; the positions gone past on the way there list nothing. */
  lemma NextIsNextPage(site: Site, r: Run) returns (k: nat)
    requires r.at.dir >= 0 && !Iterate(site, r).done
    ensures k < MAX_ROLLOVERS
    ensures var at := Rolled(r.at, k);
            && at.dir < site.total && site.listing(at.dir, at.page) != []
            && Iterate(site, r).table == Absorb(r.table, site.listing(at.dir, at.page))
            && Iterate(site, r).at == Pos(at.dir, at.page + 1)
    ensures forall j :: 0 <= j < k ==> site.listing(Rolled(r.at, j).dir, Rolled(r.at, j).page) == []
  {
    k := BrowseFindsFirst(site, Clamped(r.at), MAX_ROLLOVERS, false);
    AbsorbNone(r.table, []);
  }

  lemma {:induction false} AbsorbJoins(t: Table, a: seq<Entry>, b: seq<Entry>)
    ensures Absorb(t, a + b) == Absorb(Absorb(t, a), b)
    decreases |b|
  {
    hide Note;
    if b == [] {
      assert a + b == a;
    } else {
      var n := |b| - 1;
      assert (a + b)[..|a + b| - 1] == a + b[..n];
      AbsorbJoins(t, a, b[..n]);
    }
  }

  lemma OnePageMore(site: Site, ps: seq<Pos>, at: Pos)
    ensures Absorb(map[], EntriesOf(site, ps + [at])) ==
            Absorb(Absorb(map[], EntriesOf(site, ps)), site.listing(at.dir, at.page))
  {
    hide Absorb;
    assert (ps + [at])[..|ps|] == ps;
    AbsorbJoins(map[], EntriesOf(site, ps), site.listing(at.dir, at.page));
  }

  /** Every page before `at` has been read and none from there on, and nothing
      has been jumped over. */
  ghost predicate AtNext(site: Site, at: Pos, ps: seq<Pos>) {
    && at.dir >= 0 && at.page >= 0 && (at.page == 0 ==> at.dir == 0) && (at.page > 0 ==> at.dir < site.total)
    && (forall q :: 0 <= q < at.page ==> site.listing(at.dir, q) != [])
    && (forall x :: x in ps ==> Before(x, at))
    && (forall x :: InDirectory(site, x) && Before(x, at) ==> x in ps)
    && NoGapBelow(site, at.dir)
  }

  /** The last page brought no new title. */
  predicate Stale(site: Site, ps: seq<Pos>) {
    ps != [] && Absorb(map[], EntriesOf(site, ps)) == Absorb(map[], EntriesOf(site, ps[..|ps| - 1]))
  }

  /** The read came to the end of section d and found no more in the sections
      one request goes through. */
  ghost predicate StoppedAfter(site: Site, ps: seq<Pos>, d: int) {
    && d >= 0 && NoGapBelow(site, d)
    && (forall x :: x in ps ==> x.dir <= d)
    && (forall x :: InDirectory(site, x) && x.dir < d + MAX_ROLLOVERS ==> x in ps)
    && (forall e :: d < e < d + MAX_ROLLOVERS && e < site.total ==> site.listing(e, 0) == [])
  }

  /** The pages between a position and the one that answered list nothing. */
  lemma NothingBetween(site: Site, at: Pos, k: nat, x: Pos)
    requires at.dir >= 0 && at.page >= 0 && InDirectory(site, x) && !Before(x, at)
    requires forall j :: 0 <= j < k ==> site.listing(Rolled(at, j).dir, Rolled(at, j).page) == []
    ensures !Before(x, Rolled(at, k)) && (k > 0 ==> x.dir >= at.dir + k)
  {
    var j: nat := x.dir - at.dir;
    assert site.listing(x.dir, 0) != [] && (x.page >= at.page ==> site.listing(x.dir, at.page) != []);
    assert j < k ==> site.listing(Rolled(at, j).dir, Rolled(at, j).page) == [];
  }

  lemma GapFree(site: Site, at: Pos, k: nat)
    requires at.dir >= 0 && at.page >= 0 && NoGapBelow(site, at.dir) && k < MAX_ROLLOVERS
    requires at.page == 0 ==> at.dir == 0
    requires forall q :: 0 <= q < at.page ==> site.listing(at.dir, q) != []
    ensures NoGapBelow(site, at.dir + k)
  {
    forall a | 1 <= a && a + 3 <= at.dir + k ensures !Gap(site, a) {
      if a + 3 > at.dir {
        assert at.page > 0 && site.listing(at.dir, 0) != [];
      }
    }
  }

  lemma PageRead(site: Site, at: Pos, ps: seq<Pos>, k: nat)
    requires Walked(site, ps) && AtNext(site, at, ps) && k < MAX_ROLLOVERS
    requires forall j :: 0 <= j < k ==> site.listing(Rolled(at, j).dir, Rolled(at, j).page) == []
    requires Rolled(at, k).dir < site.total && site.listing(Rolled(at, k).dir, Rolled(at, k).page) != []
    ensures var x := Rolled(at, k);
            Walked(site, ps + [x]) && AtNext(site, Pos(x.dir, x.page + 1), ps + [x])
  {
    var x := Rolled(at, k);
    var ps', at' := ps + [x], Pos(x.dir, x.page + 1);
    GapFree(site, at, k);
    hide Gap, NoGapBelow;
    assert InDirectory(site, x);
    forall y | InDirectory(site, y) && Before(y, at') ensures y in ps' {
      if Before(y, at) {
        assert y in ps;
      } else {
        NothingBetween(site, at, k, y);
        assert y == x;
      }
    }
    forall y, i | 0 <= i < |ps'| && InDirectory(site, y) && Before(y, ps'[i]) ensures y in ps' {
      assert Before(y, at');
    }
  }

  lemma NothingLeft(site: Site, at: Pos, ps: seq<Pos>, k: nat)
    requires Walked(site, ps) && AtNext(site, at, ps) && k <= MAX_ROLLOVERS
    requires forall j :: 0 <= j < k ==> site.listing(Rolled(at, j).dir, Rolled(at, j).page) == []
    requires k == MAX_ROLLOVERS || Rolled(at, k).dir >= site.total
    ensures StoppedAfter(site, ps, at.dir)
  {
    hide Gap, NoGapBelow;
    forall y | InDirectory(site, y) && y.dir < at.dir + MAX_ROLLOVERS ensures y in ps {
      if !Before(y, at) { NothingBetween(site, at, k, y); }
    }
    forall e | at.dir < e < at.dir + MAX_ROLLOVERS && e < site.total ensures site.listing(e, 0) == [] {
      var j := e - at.dir;
      assert site.listing(Rolled(at, j).dir, Rolled(at, j).page) == [];
    }
  }

  /** One position more. */
  lemma WalksOn(site: Site, r: Run, ps: seq<Pos>) returns (ps': seq<Pos>)
    requires Walked(site, ps) && AtNext(site, r.at, ps) && r.table == Absorb(map[], EntriesOf(site, ps))
    ensures var r' := Iterate(site, r);
            && Walked(site, ps') && r'.table == Absorb(map[], EntriesOf(site, ps'))
            && (!r'.done ==> AtNext(site, r'.at, ps'))
            && (r'.done ==> Stale(site, ps') || StoppedAfter(site, ps', r.at.dir))
  {
    hide Walked, AtNext, StoppedAfter, Absorb, EntriesOf;
    assert r.at.dir >= 0 by { NextIsInside(site, r.at, ps); }
    var k := BrowseFindsFirst(site, Clamped(r.at), MAX_ROLLOVERS, false);
    var x := Rolled(r.at, k);
    if Browsed(site, r.at).entries == [] {
      ps' := ps;
      NothingLeft(site, r.at, ps, k);
      AbsorbNone(r.table, []);
    } else {
      ps' := ps + [x];
      PageRead(site, r.at, ps, k);
      OnePageMore(site, ps, x);
      AbsorbKeeps(r.table, site.listing(x.dir, x.page));
      assert ps'[..|ps'| - 1] == ps;
    }
  }

  lemma NextIsInside(site: Site, at: Pos, ps: seq<Pos>)
    requires AtNext(site, at, ps)
    ensures at.dir >= 0
  {
  }

  lemma StartsAtFront(site: Site)
    ensures Walked(site, []) && AtNext(site, FRESH.at, []) && FRESH.table == Absorb(map[], EntriesOf(site, []))
  {
  }

  /** What a read of any length has read: the first pages of the directory, in
      order; and how it ended, if it did. */
  lemma {:induction false} ReadsInOrder(site: Site, calls: nat) returns (ps: seq<Pos>, d: int)
    ensures var r := Advance(site, FRESH, calls);
            && Walked(site, ps) && r.table == Absorb(map[], EntriesOf(site, ps))
            && (!r.done ==> AtNext(site, r.at, ps))
            && (r.done ==> Stale(site, ps) || StoppedAfter(site, ps, d))
  {
    hide Walked, AtNext, StoppedAfter, Stale, Absorb, EntriesOf, Iterate;
    d := 0;
    if calls == 0 {
      ps := [];
      StartsAtFront(site);
      AdvanceNone(site, FRESH);
    } else {
      var r := Advance(site, FRESH, calls - 1);
      ps, d := ReadsInOrder(site, calls - 1);
      if Over(r) {
        OverStays(site, FRESH, calls - 1, calls);
      } else {
        AdvanceOnce(site, FRESH, calls - 1);
        d := r.at.dir;
        ps := WalksOn(site, r, ps);
      }
    }
  }

  // ----------------------------------------------------- the whole directory

  predicate Lists(site: Site, at: Pos, u: string) {
    u != "" && exists i :: 0 <= i < |site.listing(at.dir, at.page)| && site.listing(at.dir, at.page)[i].link == u
  }

  /** The link stands on some page of the directory. */
  ghost predicate OnSite(site: Site, u: string) { exists at :: InDirectory(site, at) && Lists(site, at, u) }

  /** The page has a link no page before it has. */
  ghost predicate BringsNew(site: Site, at: Pos, u: string) {
    Lists(site, at, u) && forall x :: InDirectory(site, x) && Before(x, at) ==> !Lists(site, x, u)
  }

  ghost predicate EachPageNew(site: Site) {
    forall at :: InDirectory(site, at) ==> exists u :: BringsNew(site, at, u)
  }

  /** The links of some entries. */
  function LinksIn(es: seq<Entry>): set<string> { set i | 0 <= i < |es| && es[i].link != "" :: es[i].link }

  lemma {:induction false} AbsorbsLinks(es: seq<Entry>)
    ensures Absorb(map[], es).Keys == LinksIn(es)
  {
    if es != [] {
      var n := |es| - 1;
      AbsorbsLinks(es[..n]);
      NoteKeys(Absorb(map[], es[..n]), es[n]);
      hide Absorb, Note;
      LinksMore(es);
      AbsorbOne(map[], es, n);
      assert es[..n + 1] == es;
    }
  }

  lemma LinksMore(es: seq<Entry>)
    requires es != []
    ensures LinksIn(es) == LinksIn(es[..|es| - 1]) + (if es[|es| - 1].link == "" then {} else {es[|es| - 1].link})
  {
    var n := |es| - 1;
    assert forall i :: 0 <= i < n ==> es[..n][i] == es[i];
    forall u | u in LinksIn(es[..n]) ensures u in LinksIn(es) {
      var i :| 0 <= i < n && es[..n][i].link == u;
      assert es[i].link == u;
    }
  }

  lemma {:induction false} LinksOfPages(site: Site, ps: seq<Pos>, u: string)
    ensures u in LinksIn(EntriesOf(site, ps)) <==> exists i :: 0 <= i < |ps| && Lists(site, ps[i], u)
  {
    if ps != [] {
      var n := |ps| - 1;
      LinksOfPages(site, ps[..n], u);
      LinksJoin(EntriesOf(site, ps[..n]), site.listing(ps[n].dir, ps[n].page), u);
      assert forall i :: 0 <= i < n ==> ps[..n][i] == ps[i];
      hide LinksIn;
      ListsIs(site, ps[n], u);
      hide Lists;
      if i :| 0 <= i < |ps| && Lists(site, ps[i], u) {
        if i < n { assert Lists(site, ps[..n][i], u); }
      }
      if i :| 0 <= i < n && Lists(site, ps[..n][i], u) { assert Lists(site, ps[i], u); }
    }
  }

  lemma ListsIs(site: Site, at: Pos, u: string)
    ensures Lists(site, at, u) <==> u in LinksIn(site.listing(at.dir, at.page))
  {
  }

  lemma LinksJoin(a: seq<Entry>, b: seq<Entry>, u: string)
    ensures u in LinksIn(a + b) <==> u in LinksIn(a) || u in LinksIn(b)
  {
    assert forall i :: 0 <= i < |a| ==> (a + b)[i] == a[i];
    assert forall i :: 0 <= i < |b| ==> (a + b)[|a| + i] == b[i];
    if u in LinksIn(a) {
      var i :| 0 <= i < |a| && a[i].link == u;
      assert (a + b)[i].link == u;
    }
    if u in LinksIn(b) {
      var i :| 0 <= i < |b| && b[i].link == u;
      assert (a + b)[|a| + i].link == u;
    }
  }

  /** A page that brings something new is not stale. */
  lemma NewIsNotStale(site: Site, ps: seq<Pos>, u: string)
    requires Walked(site, ps) && ps != [] && BringsNew(site, ps[|ps| - 1], u)
    ensures !Stale(site, ps)
  {
    var n := |ps| - 1;
    hide EntriesOf, Lists, Absorb;
    AbsorbsLinks(EntriesOf(site, ps));
    AbsorbsLinks(EntriesOf(site, ps[..n]));
    LinksOfPages(site, ps, u);
    LinksOfPages(site, ps[..n], u);
    forall i | 0 <= i < n ensures !Lists(site, ps[..n][i], u) {
      assert InDirectory(site, ps[i]) && Before(ps[i], ps[n]);
    }
  }

  /** Stopping after section d the whole directory has been read exactly if no
      section with titles comes after a gap. */
  lemma StoppedMeans(site: Site, ps: seq<Pos>, d: int)
    requires Walked(site, ps) && StoppedAfter(site, ps, d)
    ensures WholeDirectory(site, ps) <==> !GivesUp(site)
    ensures forall x :: InDirectory(site, x) && x !in ps ==> x.dir > d
  {
    if !WholeDirectory(site, ps) {
      var x :| InDirectory(site, x) && x !in ps;
      assert x.dir >= d + MAX_ROLLOVERS;
      assert site.listing(x.dir, 0) != [];
      assert Gap(site, d + 1);
      assert GivesUp(site);
    }
    if GivesUp(site) {
      var a, e :| 1 <= a && a + 3 <= e < site.total && Gap(site, a) && site.listing(e, 0) != [];
      assert InDirectory(site, Pos(e, 0));
      assert a + 3 <= d ==> !Gap(site, a);
      assert Pos(e, 0) !in ps;
    }
  }

  /** A read that comes to its end, on a site each page of which has a new link,
      has read the whole directory exactly if no section with titles comes after
      three empty ones in a row, the first section aside; the pages are read in
      order, each once. */
  lemma ReadsDirectory(site: Site, calls: nat) returns (ps: seq<Pos>)
    requires EachPageNew(site) && Advance(site, FRESH, calls).done
    ensures Walked(site, ps) && Advance(site, FRESH, calls).table == Absorb(map[], EntriesOf(site, ps))
    ensures WholeDirectory(site, ps) <==> !GivesUp(site)
    ensures !WholeDirectory(site, ps) ==>
              exists x :: InDirectory(site, x) && x !in ps && forall y :: y in ps ==> Before(y, x)
  {
    hide Advance, EntriesOf, Absorb, GivesUp;
    var d;
    ps, d := ReadsInOrder(site, calls);
    if Stale(site, ps) {
      assert InDirectory(site, ps[|ps| - 1]);
      var u :| BringsNew(site, ps[|ps| - 1], u);
      NewIsNotStale(site, ps, u);
    }
    StoppedMeans(site, ps, d);
    hide InDirectory;
    if !WholeDirectory(site, ps) {
      var x :| InDirectory(site, x) && x !in ps;
      assert forall y :: y in ps ==> Before(y, x);
    }
  }

  /** So such a read finds exactly the links of the site's directory, under the
      same condition. */
  lemma FindsWhatIsListed(site: Site, calls: nat)
    requires EachPageNew(site) && Advance(site, FRESH, calls).done
    ensures (forall u :: u in Advance(site, FRESH, calls).table <==> OnSite(site, u)) <==> !GivesUp(site)
  {
    hide Advance, EntriesOf, Absorb, GivesUp, InDirectory, Lists, Walked, BringsNew;
    var ps := ReadsDirectory(site, calls);
    var t := Advance(site, FRESH, calls).table;
    AbsorbsLinks(EntriesOf(site, ps));
    forall u ensures u in t <==> exists i :: 0 <= i < |ps| && Lists(site, ps[i], u) { LinksOfPages(site, ps, u); }
    hide LinksIn;
    forall i | 0 <= i < |ps| ensures InDirectory(site, ps[i]) { WalkedInside(site, ps, i); }
    if WholeDirectory(site, ps) {
      forall u ensures u in t <==> OnSite(site, u) {
        if OnSite(site, u) {
          var at :| InDirectory(site, at) && Lists(site, at, u);
          var i :| 0 <= i < |ps| && ps[i] == at;
          assert Lists(site, ps[i], u);
        }
      }
    } else {
      var x :| InDirectory(site, x) && x !in ps && forall y :: y in ps ==> Before(y, x);
      var u := NewLink(site, x);
      assert OnSite(site, u);
      forall i | 0 <= i < |ps| ensures !Lists(site, ps[i], u) { assert ps[i] in ps; }
    }
  }

  lemma WalkedInside(site: Site, ps: seq<Pos>, i: nat)
    requires Walked(site, ps) && i < |ps|
    ensures InDirectory(site, ps[i])
  {
  }

  lemma NewLink(site: Site, x: Pos) returns (u: string)
    requires EachPageNew(site) && InDirectory(site, x)
    ensures Lists(site, x, u) && forall y :: InDirectory(site, y) && Before(y, x) ==> !Lists(site, y, u)
  {
    u :| BringsNew(site, x, u);
  }

  /** What the table says of a link: the cleaned name of the first entry that
      has it, and how many different links came before. */
  lemma {:induction false} TableTells(es: seq<Entry>, u: string) returns (i: nat)
    requires u in Absorb(map[], es)
    ensures i < |es| && es[i].link == u && forall j :: 0 <= j < i ==> es[j].link != u
    ensures Absorb(map[], es)[u] == Listed(CleanTitle(es[i].name), |LinksIn(es[..i])|)
    decreases |es|
  {
    var n := |es| - 1;
    var before := Absorb(map[], es[..n]);
    AbsorbsLinks(es[..n]);
    if u in before {
      hide CleanTitle, LinksIn;
      i := TableTells(es[..n], u);
      assert es[..n][..i] == es[..i];
      assert forall j :: 0 <= j < n ==> es[..n][j] == es[j];
    } else {
      i := n;
      assert |before| == |before.Keys|;
      forall j | 0 <= j < n ensures es[j].link != u {
        assert es[..n][j] == es[j] && (u != "" ==> u !in LinksIn(es[..n]));
      }
    }
  }

  // ---------------------------------------------------------- the whole job

  /** The row the store is left with for each title a read found. */
  ghost predicate Recorded(t: Tables, read: int, table: Table) {
    && t.titles.Keys == table.Keys
    && forall u :: u in table ==>
         t.titles[u].name == table[u].name && t.titles[u].place == table[u].place && t.titles[u].seenRead == read
  }

  /** A job that is not broken off and finds a title leaves exactly the titles it
      found, each as the read saw it, and a catalogue that is complete, of the
      site, as old as the job's end, and with nothing to carry on. */
  lemma UnbrokenJobLeaves(t: Tables, site: Site, a: Attempt, full: Run)
    requires WellNumbered(t) && full == Advance(site, FRESH, a.failAt) && Over(full) && full.table != map[]
    ensures var u := JobResult(t, site, false, a);
            && u.catalogue.Some?
            && Recorded(u, u.catalogue.value.readSeq, full.table)
            && (forall x :: x in full.table ==>
                  u.titles[x].firstRead == if x in t.titles then t.titles[x].firstRead else u.catalogue.value.readSeq)
            && u.catalogue.value.complete && u.catalogue.value.source == FromSite
            && u.catalogue.value.dataAt == Some(a.now) && u.catalogue.value.resume == NO_POS
            && u.catalogue.value.steps == u.catalogue.value.pages == full.steps
            && Resumption(u) == None
  {
    hide Advance;
    UnbrokenJob(t, site, a, full);
  }

  /** One that finds nothing leaves the titles there were; it is complete only
      where there were none and no challenge was met. */
  lemma EmptyJobLeaves(t: Tables, site: Site, a: Attempt, full: Run)
    requires WellNumbered(t) && full == Advance(site, FRESH, a.failAt) && Over(full) && full.table == map[]
    ensures var u := JobResult(t, site, false, a);
            && u.titles == t.titles && u.catalogue.Some? && u.catalogue.value.resume == NO_POS
            && (u.catalogue.value.complete <==> t.titles == map[] && !ChallengedAt(site, full))
            && (t.titles != map[] ==>
                  && SourceOf(u) == SourceOf(t) && DataAtOf(u) == DataAtOf(t)
                  && u.catalogue.value.pages == t.catalogue.value.pages)
            && (t.titles == map[] ==> SourceOf(u) == FromSite && DataAtOf(u) == Some(a.now))
  {
    hide JobResult, Advance, Stamp, TableOf, ChallengedAt;
    UnbrokenJob(t, site, a, full);
    StampNothing(t.titles, StartOf(t, false).read);
  }

  /** One that is broken off leaves every title there was and every one it found,
      and where it was: incomplete, with no date. */
  lemma BrokenJobLeaves(t: Tables, site: Site, a: Attempt, r: Run)
    requires WellNumbered(t) && r == Advance(site, FRESH, a.failAt) && !Over(r) && r.table != map[]
    ensures var u := JobResult(t, site, false, a);
            && u.catalogue.Some? && u.titles.Keys == t.titles.Keys + r.table.Keys
            && (forall x :: x in r.table ==>
                  && u.titles[x].name == r.table[x].name && u.titles[x].place == r.table[x].place
                  && u.titles[x].seenRead == u.catalogue.value.readSeq)
            && (forall x :: x in t.titles && x !in r.table ==> u.titles[x] == t.titles[x])
            && !u.catalogue.value.complete && u.catalogue.value.resume == r.at && u.catalogue.value.steps == r.steps
            && SourceOf(u) == FromSite && DataAtOf(u) == None
            && (t.catalogue.Some? ==> u.catalogue.value.pages == t.catalogue.value.pages)
  {
    hide Advance, TableOf;
    var b := StartOf(t, false);
    forall x {
      StampAt(b.tables.titles, b.read, r.table, x);
    }
  }

  /** So a job on a site each page of which has a new link leaves in the store
      exactly what the site lists, exactly if no titles come after a gap. */
  lemma StoreHoldsTheSite(t: Tables, site: Site, a: Attempt)
    requires WellNumbered(t) && EachPageNew(site)
    requires a.failAt >= MAX_POSITIONS && Advance(site, FRESH, a.failAt).done
    requires Advance(site, FRESH, a.failAt).table != map[]
    ensures (forall u :: u in JobResult(t, site, false, a).titles <==> OnSite(site, u)) <==> !GivesUp(site)
  {
    hide Advance, JobResult, OnSite, GivesUp, EachPageNew;
    UnbrokenJobLeaves(t, site, a, Advance(site, FRESH, a.failAt));
    FindsWhatIsListed(site, a.failAt);
  }

  // ------------------------------------------------------ titles after a gap

  /** Two sections with one title each and three empty ones between them. */
  function GapSite(): Site {
    Site(5,
         (dir, page) => if page == 0 && dir in {0, 4} then [Entry(if dir == 0 then "a" else "b", "")] else [],
         (dir, page) => false)
  }

  lemma GapSiteRead(r: Run)
    requires r == Advance(GapSite(), FRESH, MAX_POSITIONS)
    ensures r.done && Over(r) && r.table.Keys == {"a"}
  {
    var site := GapSite();
    var first := Iterate(site, FRESH);
    AbsorbsLinks(site.listing(0, 0));
    assert LinksIn(site.listing(0, 0)) == {"a"} by { assert site.listing(0, 0)[0].link == "a"; }
    assert first.at == Pos(0, 1) && !first.done && first.table.Keys == {"a"};
    var second := Iterate(site, first);
    var k := BrowseFindsFirst(site, Clamped(first.at), MAX_ROLLOVERS, false);
    AbsorbNone(first.table, []);
    assert second.done && second.table == first.table;
    OverIsLast(site, second, MAX_POSITIONS - 2);
    AdvanceNone(site, FRESH);
    AdvanceOnce(site, FRESH, 0);
    AdvanceNone(site, first);
    hide Iterate;
    AdvanceAdds(site, FRESH, 1, MAX_POSITIONS - 1);
    AdvanceOnce(site, first, 0);
    AdvanceAdds(site, first, 1, MAX_POSITIONS - 2);
  }

  /** A read of that site ends complete without the title after the gap, and
      removes it from the store. */
  lemma TitleAfterGapIsLost(t: Tables, now: int)
    requires WellNumbered(t) && "b" in t.titles
    ensures OnSite(GapSite(), "b")
    ensures var u := JobResult(t, GapSite(), false, Attempt(MAX_POSITIONS, now));
            u.catalogue.Some? && u.catalogue.value.complete && "b" !in u.titles
  {
    var site, full := GapSite(), Advance(GapSite(), FRESH, MAX_POSITIONS);
    assert InDirectory(site, Pos(4, 0)) && site.listing(4, 0)[0].link == "b";
    assert Lists(site, Pos(4, 0), "b");
    assert OnSite(site, "b");
    hide Advance, JobResult, OnSite, Over;
    GapSiteRead(full);
    assert "a" in full.table && "b" !in full.table;
    UnbrokenJobLeaves(t, site, Attempt(MAX_POSITIONS, now), full);
  }
}
