/** One read of a site's catalogue: `indexSite` and `readFailed`
    (internal/app/catalogue_index.go), and the proof that a read broken off any
    number of times and carried on each time is the read that was never broken. */
module CatalogueRead {
  import opened Options
  import opened CatalogueStore
  import opened SiteBrowse

  const MAX_POSITIONS: nat := 10000
  const INDEX_BATCH: nat := 200

  /** What a read keeps of a title: its cleaned name and its place in the list. */
  datatype Listed = Listed(name: string, place: int)
  type Table = map<string, Listed>

  /** A read under way: where it is, how many positions it got through, what it
      has seen, and whether it found the end. */
  datatype Run = Run(at: Pos, steps: nat, table: Table, done: bool)

  const FRESH := Run(Pos(0, 0), 0, map[], false)

  function Note(t: Table, e: Entry): Table {
    if e.link == "" || e.link in t then t
    else t[e.link := Listed(CleanTitle(e.name), |t|)]
  }

  /** The table after the entries of one position. */
  function Absorb(t: Table, es: seq<Entry>): Table {
    if es == [] then t else Note(Absorb(t, es[..|es| - 1]), es[|es| - 1])
  }

  /** One iteration of the read loop. */
  function Iterate(site: Site, r: Run): Run {
    var res := Browsed(site, r.at);
    var t := Absorb(r.table, res.entries);
    if |t| == |r.table| || !res.more then Run(r.at, r.steps + 1, t, true)
    else Run(res.next, r.steps + 1, t, false)
  }

  predicate Over(r: Run) { r.done || r.steps >= MAX_POSITIONS }

  /** The read after up to `calls` more answered positions. */
  function Advance(site: Site, r: Run, calls: nat): Run
    decreases calls, site.total
  {
    if Over(r) || calls == 0 then r else Advance(site, Iterate(site, r), calls - 1)
  }

  // ------------------------------------------------- the table in the store

  /** The rows once read `read` has stamped the titles of `table` on them. */
  function Stamp(titles: map<string, TitleRow>, read: int, table: Table): map<string, TitleRow> {
    map u | u in titles.Keys + table.Keys ::
      if u in table
      then TitleRow(table[u].name, table[u].place, read, if u in titles then titles[u].firstRead else read)
      else titles[u]
  }

  /** The table the rows hold for read `read`. */
  function TableOf(titles: map<string, TitleRow>, read: int): Table {
    map u | u in titles && titles[u].seenRead == read :: Listed(titles[u].name, titles[u].place)
  }

  lemma NoteKeys(t: Table, e: Entry)
    ensures Note(t, e).Keys == t.Keys + (if e.link == "" then {} else {e.link})
    ensures |Note(t, e)| == |t| + (if e.link == "" || e.link in t then 0 else 1)
  {
    assert Note(t, e).Keys == t.Keys + (if e.link == "" then {} else {e.link});
    assert |Note(t, e)| == |Note(t, e).Keys| && |t| == |t.Keys|;
  }

  lemma StampAt(titles: map<string, TitleRow>, read: int, t: Table, u: string)
    ensures var rows := Stamp(titles, read, t);
            && (u in rows <==> u in titles || u in t)
            && (u in t ==>
                  rows[u] == TitleRow(t[u].name, t[u].place, read, if u in titles then titles[u].firstRead else read))
            && (u in titles && u !in t ==> rows[u] == titles[u])
  {
  }

  lemma StampNote(titles: map<string, TitleRow>, read: int, t: Table, e: Entry)
    requires e.link != "" && e.link !in t
    ensures Put(Stamp(titles, read, t), read, SiteTitle(e.link, e.name, |t|)) == Stamp(titles, read, Note(t, e))
  {
    hide CleanTitle, Stamp;
    var a, b := Put(Stamp(titles, read, t), read, SiteTitle(e.link, e.name, |t|)), Stamp(titles, read, Note(t, e));
    forall u ensures (u in a <==> u in b) && (u in a ==> a[u] == b[u]) {
      StampAt(titles, read, t, u);
      StampAt(titles, read, Note(t, e), u);
    }
  }

  lemma StampOfTable(titles: map<string, TitleRow>, read: int)
    ensures Stamp(titles, read, TableOf(titles, read)) == titles
    ensures TableOf(titles, read).Keys == SeenBy(titles, read).Keys
  {
  }

  lemma TableOfStamp(titles: map<string, TitleRow>, read: int, t: Table)
    requires forall u :: u in titles ==> titles[u].seenRead != read
    ensures TableOf(Stamp(titles, read, t), read) == t
  {
  }

  // ------------------------------------------------------------ a whole job

  /** Where a job starts: the tables, the read number and the run. */
  datatype Begin = Begin(tables: Tables, read: int, run: Run)

  function StartOf(t: Tables, resume: bool): Begin {
    var r := if resume then Resumption(t) else None;
    match r
    case Some(x) =>
      Begin(t, x.read, Run(x.at, x.steps, TableOf(t.titles, x.read), false))
    case None =>
      var b := Begun(t);
      Begin(b, b.catalogue.value.readSeq, FRESH)
  }

  /** One attempt at a read: the request that fails or is stopped (counted from
      0), if the read is not over before it, and the time the attempt ends. */
  datatype Attempt = Attempt(failAt: nat, now: int)

  /** How a read that was not broken off ends, over what `before` held. */
  function EndOutcome(before: Tables, r: Run, challenged: bool, now: int): ReadOutcome {
    if r.table == map[] then
      if before.titles != map[] then ReadOutcome(false, SourceOf(before), DataAtOf(before), r.steps, NO_POS)
      else ReadOutcome(!challenged, FromSite, Some(now), r.steps, NO_POS)
    else ReadOutcome(true, FromSite, Some(now), r.steps, NO_POS)
  }

  /** Whether a read that found nothing was answered with a challenge: its only
      request is the one that ended it. */
  function ChallengedAt(site: Site, r: Run): bool { r.done && Browsed(site, r.at).challenged }

  /** How a read broken off ends: what was read stays, and so does where; no
      date is given. */
  function BrokenOutcome(r: Run): ReadOutcome { ReadOutcome(false, FromSite, None, r.steps, r.at) }

  /** The tables after one job. */
  function JobResult(t: Tables, site: Site, resume: bool, a: Attempt): Tables {
    var b := StartOf(t, resume);
    var r := Advance(site, b.run, a.failAt);
    var after := b.tables.(titles := Stamp(b.tables.titles, b.read, r.table));
    Finished(after, b.read, if Over(r) then EndOutcome(t, r, ChallengedAt(site, r), a.now) else BrokenOutcome(r))
  }

  lemma AbsorbKeeps(t: Table, es: seq<Entry>)
    ensures t.Keys <= Absorb(t, es).Keys && |t| <= |Absorb(t, es)|
    ensures |Absorb(t, es)| == |t| ==> Absorb(t, es) == t
  {
    if es != [] {
      var p := Absorb(t, es[..|es| - 1]);
      AbsorbKeeps(t, es[..|es| - 1]);
      var e := es[|es| - 1];
      if e.link != "" && e.link !in p { assert |Note(p, e)| == |p| + 1; }
    }
  }

  lemma {:induction false} AdvanceOnce(site: Site, r: Run, calls: nat)
    requires !Over(Advance(site, r, calls))
    ensures Advance(site, r, calls + 1) == Iterate(site, Advance(site, r, calls))
    decreases calls
  {
    if calls > 0 { AdvanceOnce(site, Iterate(site, r), calls - 1); }
  }

  lemma AbsorbOne(t: Table, es: seq<Entry>, i: nat)
    requires i < |es|
    ensures Absorb(t, es[..i + 1]) == Note(Absorb(t, es[..i]), es[i])
  {
    assert es[..i + 1][..i] == es[..i];
  }

  lemma AbsorbNone(t: Table, es: seq<Entry>)
    requires es == []
    ensures Absorb(t, es) == t
  {
  }

  /** A title joins the batch, and a full batch goes to the store. */
  method Keep(store: Store, read: int, batch0: seq<SiteTitle>, title: SiteTitle) returns (batch: seq<SiteTitle>)
    modifies store`titles
    ensures Added(store.titles, read, batch) == Added(old(store.titles), read, batch0 + [title])
  {
    batch := batch0 + [title];
    if |batch| >= INDEX_BATCH {
      store.AddSiteTitles(read, batch);
      batch := [];
      AddedNone(store.titles, read);
    }
  }

  /** What one position gives the read loop: the new titles go to the batch, and
      full batches to the store. */
  method Collect(store: Store, read: int, entries: seq<Entry>, seen0: set<string>, batch0: seq<SiteTitle>,
                 ghost titles: map<string, TitleRow>, ghost table: Table)
    returns (seen: set<string>, batch: seq<SiteTitle>, added: nat)
    requires seen0 == table.Keys
    requires Added(store.titles, read, batch0) == Stamp(titles, read, table)
    modifies store`titles
    ensures seen == Absorb(table, entries).Keys
    ensures added == |Absorb(table, entries)| - |table|
    ensures Added(store.titles, read, batch) == Stamp(titles, read, Absorb(table, entries))
  {
    hide Absorb, Added, Put, Stamp, CleanTitle;
    AbsorbNone(table, entries[..0]);
    seen, batch, added := seen0, batch0, 0;
    for i := 0 to |entries|
      invariant seen == Absorb(table, entries[..i]).Keys
      invariant added == |Absorb(table, entries[..i])| - |table|
      invariant Added(store.titles, read, batch) == Stamp(titles, read, Absorb(table, entries[..i]))
    {
      ghost var t := Absorb(table, entries[..i]);
      AbsorbOne(table, entries, i);
      var e := entries[i];
      if e.link == "" || e.link in seen {
        continue;
      }
      assert |seen| == |t| by { assert seen == t.Keys; }
      StampNote(titles, read, t, e);
      assert |Note(t, e)| == |t| + 1;
      seen := seen + {e.link};
      added := added + 1;
      var title := SiteTitle(e.link, e.name, |seen| - 1);
      AddedOne(store.titles, read, batch, title);
      batch := Keep(store, read, batch, title);
    }
    assert entries[..|entries|] == entries;
  }

  /** One iteration: a position is asked for and its new titles kept. */
  method ReadPosition(store: Store, site: Site, read: int, at0: Pos, seen0: set<string>, batch0: seq<SiteTitle>,
                      ghost titles: map<string, TitleRow>, ghost r: Run)
    returns (at: Pos, seen: set<string>, batch: seq<SiteTitle>, done: bool, challenged: bool)
    requires at0 == r.at && seen0 == r.table.Keys
    requires Added(store.titles, read, batch0) == Stamp(titles, read, r.table)
    modifies store`titles
    ensures var r' := Iterate(site, r);
            && at == r'.at && done == r'.done && seen == r'.table.Keys && r'.steps == r.steps + 1
            && Added(store.titles, read, batch) == Stamp(titles, read, r'.table)
            && (done ==> at == at0) && (!done ==> seen != {}) && seen0 <= seen
    ensures challenged == Browsed(site, at0).challenged
  {
    var res := Browse(site, at0);
    AbsorbKeeps(r.table, res.entries);
    challenged := res.challenged;
    var added;
    seen, batch, added := Collect(store, read, res.entries, seen0, batch0, titles, r.table);
    assert added > 0 ==> |seen| > 0 by { assert |seen| == |Absorb(r.table, res.entries)|; }
    done := added == 0 || !res.more;
    at := if done then at0 else res.next;
  }

  /** The read loop: positions are asked for until one adds nothing, the site
      has no more, the bound is reached, or request number `failAt` fails; what
      was read is in the store either way. */
  method ReadLoop(store: Store, site: Site, read: int, at0: Pos, steps0: nat, seen0: set<string>, failAt: nat,
                  ghost b: Begin)
    returns (broken: bool, at: Pos, steps: nat, seen: set<string>, challenged: bool)
    requires store.View() == b.tables && read == b.read
    requires b.run == Run(at0, steps0, b.run.table, false) && seen0 == b.run.table.Keys
    requires Stamp(b.tables.titles, read, b.run.table) == b.tables.titles
    modifies store`titles
    ensures var r := Advance(site, b.run, failAt);
            && store.titles == Stamp(b.tables.titles, read, r.table)
            && broken == !Over(r) && at == r.at && steps == r.steps && seen == r.table.Keys
            && (!broken && seen == {} ==> (challenged <==> r.done && Browsed(site, at).challenged))
  {
    hide Advance, Iterate, Stamp, Browsed;
    ghost var titles := store.titles;
    at, steps, seen, challenged := at0, steps0, seen0, false;
    var batch: seq<SiteTitle> := [];
    var done, calls := false, 0;
    ghost var r := b.run;
    AdvanceNone(site, r);
    while steps < MAX_POSITIONS && !done
      invariant calls <= failAt && r == Advance(site, b.run, calls)
      invariant at == r.at && steps == r.steps && done == r.done && seen == r.table.Keys
      invariant Added(store.titles, read, batch) == Stamp(titles, read, r.table)
      invariant seen == {} ==> (challenged <==> done && Browsed(site, at).challenged)
      decreases MAX_POSITIONS - steps
    {
      if calls == failAt {
        store.AddSiteTitles(read, batch);
        return true, at, steps, seen, challenged;
      }
      AdvanceOnce(site, b.run, calls);
      var flag;
      at, seen, batch, done, flag := ReadPosition(store, site, read, at, seen, batch, titles, r);
      r := Iterate(site, r);
      challenged := challenged || flag;
      steps := steps + 1;
      calls := calls + 1;
    }
    OverStays(site, b.run, calls, failAt);
    store.AddSiteTitles(read, batch);
    broken := false;
  }

  /** Where the job starts: an unfinished read picked up, or a new one. */
  method StartRead(store: Store, resume: bool)
    returns (read: int, at: Pos, steps: nat, seen: set<string>)
    modifies store
    ensures var b := StartOf(old(store.View()), resume);
            && store.View() == b.tables && read == b.read
            && b.run == Run(at, steps, b.run.table, false) && seen == b.run.table.Keys
            && Stamp(store.titles, read, b.run.table) == store.titles
  {
    if resume {
      var found := store.ResumeSiteCatalogue();
      if found.Some? {
        StampOfTable(store.titles, found.value.read);
        return found.value.read, found.value.at, found.value.steps, found.value.seen;
      }
    }
    read := store.BeginSiteCatalogue();
    at, steps, seen := Pos(0, 0), 0, {};
    assert Stamp(store.titles, read, map[]) == store.titles;
  }

  /** `indexSite`: the whole job, ending through `readFailed` when the
      attempt's request fails. */
  method IndexSite(store: Store, site: Site, resume: bool, a: Attempt)
    modifies store
    ensures store.View() == JobResult(old(store.View()), site, resume, a)
  {
    ghost var before := store.View();
    ghost var b := StartOf(before, resume);
    var count, source, dataAt := store.SiteCatalogueInfo();
    var read, at, steps, seen := StartRead(store, resume);
    var broken, challenged;
    broken, at, steps, seen, challenged := ReadLoop(store, site, read, at, steps, seen, a.failAt, b);
    ghost var r := Advance(site, b.run, a.failAt);
    assert store.View() == b.tables.(titles := Stamp(b.tables.titles, read, r.table));
    if broken {
      store.FinishSiteCatalogue(read, ReadOutcome(false, FromSite, None, steps, at));
      return;
    }
    var complete, from, age := true, FromSite, Some(a.now);
    if |seen| == 0 {
      if challenged {
        complete := false;
      }
      if count > 0 {
        complete, from, age := false, source, dataAt;
      }
    }
    assert seen == {} <==> r.table == map[];
    var o := ReadOutcome(complete, from, age, steps, NO_POS);
    assert o == EndOutcome(before, r, ChallengedAt(site, r), a.now);
    store.FinishSiteCatalogue(read, o);
  }

  lemma AdvanceNone(site: Site, r: Run)
    ensures Advance(site, r, 0) == r
  {
  }

  /** A read that was over stays as it is. */
  lemma OverIsLast(site: Site, r: Run, n: nat)
    ensures Over(r) ==> Advance(site, r, n) == r
  {
  }

  lemma {:induction false} OverStays(site: Site, r: Run, calls: nat, more: nat)
    requires Over(Advance(site, r, calls)) && calls <= more
    ensures Advance(site, r, more) == Advance(site, r, calls)
    decreases calls
  {
    if !Over(r) { OverStays(site, Iterate(site, r), calls - 1, more - 1); }
  }

  // ---------------------------------------------- an interrupted read equals
  //                                                an uninterrupted one

  lemma {:induction false} AdvanceAdds(site: Site, r: Run, m: nat, n: nat)
    ensures Advance(site, r, m + n) == Advance(site, Advance(site, r, m), n)
    decreases m
  {
    if m > 0 && !Over(r) { AdvanceAdds(site, Iterate(site, r), m - 1, n); }
  }

  /** A read is over after at most MAX_POSITIONS positions. */
  lemma {:induction false} AdvanceEnds(site: Site, r: Run, calls: nat)
    requires r.steps + calls >= MAX_POSITIONS
    ensures Over(Advance(site, r, calls))
    decreases calls
  {
    if calls > 0 && !Over(r) { AdvanceEnds(site, Iterate(site, r), calls - 1); }
  }

  lemma {:induction false} AdvanceStaysInside(site: Site, r: Run, calls: nat)
    requires r.at.dir >= 0
    ensures Advance(site, r, calls).at.dir >= 0
    decreases calls
  {
    if calls > 0 && !Over(r) {
      var k := BrowseFindsFirst(site, Clamped(r.at), MAX_ROLLOVERS, false);
      AdvanceStaysInside(site, Iterate(site, r), calls - 1);
    }
  }

  /** The tables after fresh and resumed reads that came to `r`, the last of
      them broken off there. */
  function Paused(t: Tables, r: Run): Tables {
    var b := StartOf(t, false);
    Finished(b.tables.(titles := Stamp(b.tables.titles, b.read, r.table)), b.read, BrokenOutcome(r))
  }

  lemma ResumesWhereItStopped(t: Tables, r: Run)
    requires WellNumbered(t) && r.at.dir >= 0
    ensures StartOf(Paused(t, r), true) == Begin(Paused(t, r), StartOf(t, false).read, r.(done := false))
  {
    var b := StartOf(t, false);
    TableOfStamp(b.tables.titles, b.read, r.table);
  }

  lemma {:induction false} AdvanceGrows(site: Site, r: Run, n: nat)
    ensures r.table.Keys <= Advance(site, r, n).table.Keys
    decreases n
  {
    if n > 0 && !Over(r) {
      AbsorbKeeps(r.table, Browsed(site, r.at).entries);
      AdvanceGrows(site, Iterate(site, r), n - 1);
    }
  }

  lemma StampOver(titles: map<string, TitleRow>, read: int, t: Table, t': Table)
    requires t.Keys <= t'.Keys
    ensures Stamp(Stamp(titles, read, t), read, t') == Stamp(titles, read, t')
  {
  }

  /** Carrying on a broken read and breaking it again is one longer broken read. */
  lemma PausedAgain(t: Tables, site: Site, r: Run, a: Attempt)
    requires WellNumbered(t) && r.at.dir >= 0 && !r.done && !Over(Advance(site, r, a.failAt))
    ensures JobResult(Paused(t, r), site, true, a) == Paused(t, Advance(site, r, a.failAt))
  {
    var b := StartOf(t, false);
    ResumesWhereItStopped(t, r);
    AdvanceGrows(site, r, a.failAt);
    StampOver(b.tables.titles, b.read, r.table, Advance(site, r, a.failAt).table);
  }

  /** How many requests the attempts that failed had answered. */
  function Sum(fails: seq<Attempt>): nat { if fails == [] then 0 else fails[0].failAt + Sum(fails[1..]) }

  /** Carrying a read on, attempt after attempt. */
  function CarriedOn(t: Tables, site: Site, fails: seq<Attempt>): Tables
    decreases |fails|
  {
    if fails == [] then t else CarriedOn(JobResult(t, site, true, fails[0]), site, fails[1..])
  }

  /** A fresh read and its resumptions, all broken off but the last. */
  function Interrupted(t: Tables, site: Site, first: Attempt, fails: seq<Attempt>, last: Attempt): Tables {
    JobResult(CarriedOn(JobResult(t, site, false, first), site, fails), site, true, last)
  }

  lemma NotDone(r: Run)
    ensures r.done ==> Over(r)
  {
  }

  lemma {:induction false} CarriedOnIsPaused(t: Tables, site: Site, r: Run, fails: seq<Attempt>)
    requires WellNumbered(t) && r.at.dir >= 0 && !r.done && !Over(Advance(site, r, Sum(fails)))
    ensures CarriedOn(Paused(t, r), site, fails) == Paused(t, Advance(site, r, Sum(fails)))
    decreases |fails|
  {
    if fails != [] {
      hide JobResult, Paused, Advance, Over, WellNumbered;
      var n := fails[0].failAt;
      var r' := Advance(site, r, n);
      AdvanceAdds(site, r, n, Sum(fails[1..]));
      OverIsLast(site, r', Sum(fails[1..]));
      PausedAgain(t, site, r, fails[0]);
      NotDone(r');
      AdvanceStaysInside(site, r, n);
      CarriedOnIsPaused(t, site, r', fails[1..]);
    }
  }

  /** A fresh job broken off is a pause. */
  lemma FirstPause(t: Tables, site: Site, first: Attempt)
    requires !Over(Advance(site, FRESH, first.failAt))
    ensures JobResult(t, site, false, first) == Paused(t, Advance(site, FRESH, first.failAt))
  {
  }

  /** The catalogue but for where its titles came from and how old they are. */
  function Undated(t: Tables): Tables {
    if t.catalogue.None? then t
    else t.(catalogue := Some(t.catalogue.value.(source := FromSite, dataAt := None)))
  }

  /** A job's end depends on the row it starts from only through what a read
      never touches before its end. */
  lemma EndsAlike(p: Tables, q: Tables, read: int, o: ReadOutcome, o': ReadOutcome)
    requires p.catalogue.Some? && q.catalogue.Some? && p.titles == q.titles
    requires p.catalogue.value.pages == q.catalogue.value.pages
    requires p.catalogue.value.readSeq == q.catalogue.value.readSeq
    requires p.catalogue.value.newFrom == q.catalogue.value.newFrom
    requires o'.(source := o.source, dataAt := o.dataAt) == o && (o.source != o'.source ==> !o.complete)
    ensures var i, u := Finished(p, read, o'), Finished(q, read, o);
            && Undated(i) == Undated(u) && i.catalogue.Some? && u.catalogue.Some?
            && (i == u <==> o.source == o'.source && o.dataAt == o'.dataAt)
            && SourceOf(i) == o'.source && DataAtOf(i) == o'.dataAt
            && SourceOf(u) == o.source && DataAtOf(u) == o.dataAt
  {
  }

  lemma FullRead(site: Site, m: nat, never: nat)
    requires never >= MAX_POSITIONS
    ensures var full := Advance(site, Advance(site, FRESH, m), never);
            full == Advance(site, FRESH, never) && Over(full)
  {
    AdvanceEnds(site, FRESH, never);
    AdvanceAdds(site, FRESH, m, never);
    OverStays(site, FRESH, never, m + never);
  }

  lemma LastAttempt(t: Tables, site: Site, r: Run, last: Attempt, full: Run)
    requires WellNumbered(t) && r.at.dir >= 0 && !r.done
    requires full == Advance(site, r, last.failAt) && Over(full) && r.table.Keys <= full.table.Keys
    ensures var b := StartOf(t, false);
            JobResult(Paused(t, r), site, true, last) ==
            Finished(Paused(t, r).(titles := Stamp(b.tables.titles, b.read, full.table)), b.read,
                     EndOutcome(Paused(t, r), full, ChallengedAt(site, full), last.now))
  {
    var b := StartOf(t, false);
    ResumesWhereItStopped(t, r);
    StampOver(b.tables.titles, b.read, r.table, full.table);
  }

  lemma UnbrokenJob(t: Tables, site: Site, last: Attempt, full: Run)
    requires full == Advance(site, FRESH, last.failAt) && Over(full)
    ensures var b := StartOf(t, false);
            JobResult(t, site, false, last) ==
            Finished(b.tables.(titles := Stamp(b.tables.titles, b.read, full.table)), b.read,
                     EndOutcome(t, full, ChallengedAt(site, full), last.now))
  {
  }

  /** A read that found nothing keeps the list there was before it. */
  predicate KeepsList(t: Tables, full: Run) { t.titles != map[] && full.table == map[] }

  lemma SameEnd(t: Tables, r: Run, full: Run, challenged: bool, now: int)
    requires r.table.Keys <= full.table.Keys
    ensures var b, p := StartOf(t, false), Paused(t, r);
            var titles := Stamp(b.tables.titles, b.read, full.table);
            var i := Finished(p.(titles := titles), b.read, EndOutcome(p, full, challenged, now));
            var u := Finished(b.tables.(titles := titles), b.read, EndOutcome(t, full, challenged, now));
            && i.titles == u.titles && Undated(i) == Undated(u) && i.catalogue.Some? && u.catalogue.Some?
            && (i == u <==> !(KeepsList(t, full) && (SourceOf(t) == Prebuilt || DataAtOf(t).Some?)))
            && (KeepsList(t, full) ==>
                  && SourceOf(i) == FromSite && DataAtOf(i) == None
                  && SourceOf(u) == SourceOf(t) && DataAtOf(u) == DataAtOf(t))
  {
    var b, p := StartOf(t, false), Paused(t, r);
    var titles := Stamp(b.tables.titles, b.read, full.table);
    if full.table == map[] {
      assert r.table == map[];
      assert p.titles == t.titles;
    }
    EndsAlike(p.(titles := titles), b.tables.(titles := titles), b.read,
              EndOutcome(t, full, challenged, now), EndOutcome(p, full, challenged, now));
  }

  /** However often a read of an unchanging site is broken off before its end
      and carried on, the titles, the read number, the step count, the page
      count, the end position and the completeness it leaves are those of one
      read that was never broken off and ends when the last attempt does. (An
      attempt whose failing request is past the bound on a read does not fail.)

      The catalogue's source and date are the same too, except exactly where a
      read finds nothing over a kept list that came from a published snapshot
      or has a date. An unbroken read goes on giving both; a broken one has by
      then recorded the site as the source, and no date. */
  lemma InterruptedReadIsUninterruptedRead(t: Tables, site: Site, first: Attempt, fails: seq<Attempt>, last: Attempt)
    requires WellNumbered(t) && last.failAt >= MAX_POSITIONS
    requires !Over(Advance(site, FRESH, first.failAt + Sum(fails)))
    ensures var i, u := Interrupted(t, site, first, fails, last), JobResult(t, site, false, last);
            var keeps := KeepsList(t, Advance(site, FRESH, last.failAt));
            && i.titles == u.titles && Undated(i) == Undated(u) && i.catalogue.Some? && u.catalogue.Some?
            && (i == u <==> !(keeps && (SourceOf(t) == Prebuilt || DataAtOf(t).Some?)))
            && (keeps ==> && SourceOf(i) == FromSite && DataAtOf(i) == None
                          && SourceOf(u) == SourceOf(t) && DataAtOf(u) == DataAtOf(t))
  {
    hide JobResult, Paused, CarriedOn, Advance, StartOf, Stamp, Finished, EndOutcome, ChallengedAt, Undated, KeepsList;
    var n := first.failAt;
    var r1 := Advance(site, FRESH, n);
    var r := Advance(site, r1, Sum(fails));
    var full := Advance(site, r, last.failAt);
    AdvanceAdds(site, FRESH, n, Sum(fails));
    OverIsLast(site, r1, Sum(fails));
    FirstPause(t, site, first);
    AdvanceStaysInside(site, FRESH, n);
    CarriedOnIsPaused(t, site, r1, fails);
    FullRead(site, n + Sum(fails), last.failAt);
    AdvanceStaysInside(site, r1, Sum(fails));
    AdvanceGrows(site, r, last.failAt);
    LastAttempt(t, site, r, last, full);
    UnbrokenJob(t, site, last, full);
    SameEnd(t, r, full, ChallengedAt(site, full), last.now);
  }

  /** A site whose directory lists nothing. */
  function EmptySite(total: int): Site { Site(total, (dir, page) => [], (dir, page) => false) }

  lemma {:induction false} NothingBrowsed(total: int, at: Pos, attempts: nat, flag: bool)
    ensures BrowseFrom(EmptySite(total), at, attempts, flag).entries == []
    decreases attempts
  {
    if attempts > 0 && at.dir < total { NothingBrowsed(total, Pos(at.dir + 1, 0), attempts - 1, false); }
  }

  lemma EmptyRead(total: int, calls: nat)
    requires calls > 0
    ensures var r := Advance(EmptySite(total), FRESH, calls); Over(r) && r.table == map[]
  {
    var site := EmptySite(total);
    NothingBrowsed(total, Clamped(FRESH.at), MAX_ROLLOVERS, false);
    AbsorbNone(FRESH.table, Browsed(site, FRESH.at).entries);
    OverIsLast(site, Iterate(site, FRESH), calls - 1);
  }

  lemma StampNothing(titles: map<string, TitleRow>, read: int)
    ensures Stamp(titles, read, map[]) == titles
  {
  }

  /** A job that finds nothing leaves the titles as they are. */
  lemma KeptTitles(t: Tables, site: Site, last: Attempt, full: Run)
    requires full == Advance(site, FRESH, last.failAt) && Over(full) && KeepsList(t, full)
    ensures JobResult(t, site, false, last).titles == t.titles
  {
    hide JobResult, Advance, Stamp, SeenBy, TableOf;
    UnbrokenJob(t, site, last, full);
    StampNothing(t.titles, StartOf(t, false).read);
  }

  /** It does happen: over any stored list with a date, a read of an empty site
      broken off at its first request and carried on loses the date, and one
      that was never broken off keeps it. */
  lemma DateIsLost(t: Tables, total: int, now: int)
    requires WellNumbered(t) && t.titles != map[] && DataAtOf(t).Some?
    ensures var site, first, last := EmptySite(total), Attempt(0, now), Attempt(MAX_POSITIONS, now);
            var i, u := Interrupted(t, site, first, [], last), JobResult(t, site, false, last);
            i.titles == u.titles == t.titles && DataAtOf(u) == DataAtOf(t) && DataAtOf(i) == None
  {
    hide JobResult, Interrupted, CarriedOn, Advance, Undated, WellNumbered;
    var site, last := EmptySite(total), Attempt(MAX_POSITIONS, now);
    EmptyRead(total, MAX_POSITIONS);
    AdvanceNone(site, FRESH);
    InterruptedReadIsUninterruptedRead(t, site, Attempt(0, now), [], last);
    KeptTitles(t, site, last, Advance(site, FRESH, MAX_POSITIONS));
  }

  // -------------------------------------------------- what a read looks like

  /** The places of a table are exactly 0..n-1, one title each. */
  ghost predicate Enumerated(t: Table) {
    && (forall u :: u in t ==> 0 <= t[u].place < |t|)
    && (forall u, v :: u in t && v in t && t[u].place == t[v].place ==> u == v)
  }

  lemma {:induction false} AbsorbEnumerates(t: Table, es: seq<Entry>)
    requires Enumerated(t)
    ensures Enumerated(Absorb(t, es))
  {
    if es != [] { AbsorbEnumerates(t, es[..|es| - 1]); }
  }

  lemma {:induction false} ReadEnumerates(site: Site, r: Run, calls: nat)
    requires Enumerated(r.table)
    ensures Enumerated(Advance(site, r, calls).table)
    decreases calls
  {
    if calls > 0 && !Over(r) {
      AbsorbEnumerates(r.table, Browsed(site, r.at).entries);
      ReadEnumerates(site, Iterate(site, r), calls - 1);
    }
  }

  /** How many positions a read asks for before it is over. */
  function Calls(site: Site, r: Run): nat
    decreases MAX_POSITIONS - r.steps
  {
    if Over(r) then 0 else 1 + Calls(site, Iterate(site, r))
  }

  /** The read loop stops whatever the site answers: every position but the
      last adds a link not seen before. */
  lemma {:induction false} CallsBound(site: Site, r: Run)
    requires r.steps <= 10000
    ensures Calls(site, r) <= 10000 - r.steps
    ensures Over(Advance(site, r, Calls(site, r)))
    ensures Calls(site, r) <= 1 + |Advance(site, r, Calls(site, r)).table| - |r.table|
    decreases MAX_POSITIONS - r.steps
  {
    if !Over(r) {
      AbsorbKeeps(r.table, Browsed(site, r.at).entries);
      CallsBound(site, Iterate(site, r));
    }
  }

  /** Each position asked for comes after the one before it in the directory,
      through the ends of sections too. */
  lemma PositionsIncrease(site: Site, r: Run)
    requires r.at.dir >= 0 && !Iterate(site, r).done
    ensures Before(r.at, Iterate(site, r).at)
  {
    var k := BrowseFindsFirst(site, Clamped(r.at), MAX_ROLLOVERS, false);
    assert Absorb(r.table, []) == r.table;
  }
}
