/** Every run of reads over one site's stored catalogue, one read open at a
    time: fresh reads, resumed reads, snapshots, failures and crashes in any
    order. The state carries the history the claims are about: what was stored
    when the latest read began, and what has been added under its number. */
module CatalogueRuns {
  import opened Options
  import opened CatalogueStore
  import opened SiteBrowse
  import opened CatalogueRead

  /** `count` is how many titles were stored when the job started, `seen` the
      titles the job knows its read to have turned up. */
  datatype Phase = Idle | Open(read: int, count: nat, seen: set<string>)

  datatype World = World(tables: Tables, phase: Phase, before: set<string>, added: set<string>)

  datatype Event =
    | Start
    | CarryOn
    | AddListed(batch: seq<SiteTitle>)
    | AddSnapshot(batch: seq<SiteTitle>)
    | EndSite(outcome: ReadOutcome)
    | EndSnapshot(outcome: ReadOutcome)
    | Abandon // the process dies, or a statement fails

  /** Where runs start: no row at all, or a row from before reads were
      numbered, whose titles carry number 0. */
  predicate Starts(w: World) {
    && w.phase.Idle? && w.before == {} && w.added == w.tables.titles.Keys
    && match w.tables.catalogue
       case None => w.tables.titles == map[]
       case Some(c) =>
         && c.readSeq == 0 && c.newFrom == 0 && c.resume == NO_POS
         && forall u :: u in w.tables.titles ==> w.tables.titles[u].seenRead == w.tables.titles[u].firstRead == 0
  }

  function Urls(batch: seq<SiteTitle>): set<string> { set s | s in batch && s.url != "" :: s.url }

  /** What the program can do next. A site read is finished complete only if it
      saw a title or nothing was stored when its job started; a snapshot, which
      holds at least one title, only once its titles are in. */
  predicate Allowed(w: World, e: Event) {
    match e
    case Start => w.phase.Idle?
    case CarryOn => w.phase.Idle? && Resumption(w.tables).Some?
    case AddListed(_) => w.phase.Open?
    case AddSnapshot(_) => w.phase.Open?
    case EndSite(o) => w.phase.Open? && (o.complete ==> w.phase.seen != {} || w.phase.count == 0)
    case EndSnapshot(o) => w.phase.Open? && w.added != {}
    case Abandon => w.phase.Open?
  }

  function Next(w: World, e: Event): World
    requires Allowed(w, e)
  {
    match e
    case Start =>
      var t := Begun(w.tables);
      World(t, Open(t.catalogue.value.readSeq, |w.tables.titles|, {}), w.tables.titles.Keys, {})
    case CarryOn =>
      var r := Resumption(w.tables).value;
      w.(phase := Open(r.read, |w.tables.titles|, r.seen))
    case AddListed(batch) =>
      World(w.tables.(titles := Added(w.tables.titles, w.phase.read, batch)),
            w.phase.(seen := w.phase.seen + Urls(batch)), w.before, w.added + Urls(batch))
    case AddSnapshot(batch) =>
      w.(tables := w.tables.(titles := Added(w.tables.titles, w.phase.read, batch)), added := w.added + Urls(batch))
    case EndSite(o) => w.(tables := Finished(w.tables, w.phase.read, o), phase := Idle)
    case EndSnapshot(o) => w.(tables := Finished(w.tables, w.phase.read, o), phase := Idle)
    case Abandon => w.(phase := Idle)
  }

  predicate ValidRun(w: World, es: seq<Event>)
    decreases |es|
  {
    es == [] || (Allowed(w, es[0]) && ValidRun(Next(w, es[0]), es[1..]))
  }

  function After(w: World, es: seq<Event>): World
    requires ValidRun(w, es)
    decreases |es|
  {
    if es == [] then w else After(Next(w, es[0]), es[1..])
  }

  /** The titles the interface marks New. */
  function NewTitles(t: Tables): set<string> {
    match t.catalogue
    case None => {}
    case Some(c) => set u | u in t.titles && c.newFrom > 0 && t.titles[u].firstRead == c.newFrom
  }

  ghost predicate Inv(w: World) {
    && WellNumbered(w.tables)
    && (match w.tables.catalogue
        case None => w.before == {} && w.added == {} && w.phase.Idle?
        case Some(c) =>
          var titles := w.tables.titles;
          && w.added == SeenBy(titles, c.readSeq).Keys
          && (forall u :: u in titles ==> (titles[u].firstRead == c.readSeq <==> u !in w.before))
          && (c.newFrom > 0 <==> w.before != {})
          && (!c.complete ==> w.before <= titles.Keys)
          && (w.phase.Open? ==>
                && !c.complete && w.phase.read == c.readSeq && w.phase.seen <= w.added
                && (w.phase.count == 0 ==> titles.Keys == w.added)))
  }

  lemma AddKeepsInv(w: World, batch: seq<SiteTitle>, w': World)
    requires Inv(w) && w.phase.Open?
    requires w' == Next(w, AddListed(batch)) || w' == Next(w, AddSnapshot(batch))
    ensures Inv(w') && w.tables.titles.Keys <= w'.tables.titles.Keys
  {
    AddedStamps(w.tables.titles, w.phase.read, batch);
  }

  /** Every step keeps the invariant, and none empties a catalogue. */
  lemma StepSafe(w: World, e: Event)
    requires Inv(w) && Allowed(w, e)
    ensures Inv(Next(w, e))
    ensures w.tables.titles != map[] ==> Next(w, e).tables.titles != map[]
  {
    match e {
      case AddListed(batch) => AddKeepsInv(w, batch, Next(w, e));
      case AddSnapshot(batch) => AddKeepsInv(w, batch, Next(w, e));
      case EndSite(o) =>
        if w.tables.titles != map[] {
          var u :| u in w.tables.titles;
          if o.complete {
            assert w.added != {};
            var v :| v in w.added;
            assert v in Next(w, e).tables.titles;
          }
        }
      case EndSnapshot(o) =>
        var v :| v in w.added;
        assert v in Next(w, e).tables.titles;
      case _ =>
    }
  }

  lemma {:induction false} RunSafe(w: World, es: seq<Event>)
    requires Inv(w) && ValidRun(w, es)
    ensures Inv(After(w, es))
    ensures w.tables.titles != map[] ==> After(w, es).tables.titles != map[]
    decreases |es|
  {
    if es != [] {
      StepSafe(w, es[0]);
      RunSafe(Next(w, es[0]), es[1..]);
    }
  }

  lemma {:induction false} RunsCompose(w: World, es: seq<Event>, more: seq<Event>)
    requires ValidRun(w, es) && ValidRun(After(w, es), more)
    ensures ValidRun(w, es + more) && After(w, es + more) == After(After(w, es), more)
    decreases |es|
  {
    if es == [] {
      assert es + more == more;
    } else {
      assert (es + more)[0] == es[0] && (es + more)[1..] == es[1..] + more;
      RunsCompose(Next(w, es[0]), es[1..], more);
    }
  }

  lemma StartsSafe(w: World)
    requires Starts(w)
    ensures Inv(w)
  {
  }

  /** Once a title is stored, the catalogue is never empty again. */
  lemma NeverEmptied(w0: World, es: seq<Event>, more: seq<Event>)
    requires Starts(w0) && ValidRun(w0, es) && ValidRun(After(w0, es), more)
    requires After(w0, es).tables.titles != map[]
    ensures ValidRun(w0, es + more) && After(w0, es + more).tables.titles != map[]
  {
    StartsSafe(w0);
    RunsCompose(w0, es, more);
    RunSafe(w0, es);
    RunSafe(After(w0, es), more);
  }

  /** In every reachable state, the titles marked New are exactly those that
      were not stored when the latest read began, and none if nothing was. */
  lemma NewMarkerIsExact(w0: World, es: seq<Event>)
    requires Starts(w0) && ValidRun(w0, es)
    ensures var w := After(w0, es);
            NewTitles(w.tables) == if w.before == {} then {} else w.tables.titles.Keys - w.before
  {
    StartsSafe(w0);
    RunSafe(w0, es);
  }

  /** An incomplete end loses no title; a complete one leaves exactly the
      non-empty URLs added under the read's number. */
  lemma EndsDecideTitles(w0: World, es: seq<Event>, o: ReadOutcome)
    requires Starts(w0) && ValidRun(w0, es) && Allowed(After(w0, es), EndSite(o))
    ensures var w := After(w0, es);
            var w' := Next(w, EndSite(o));
            && (!o.complete ==> w'.tables.titles == w.tables.titles)
            && (o.complete ==> w'.tables.titles.Keys == w.added)
  {
    StartsSafe(w0);
    RunSafe(w0, es);
  }

  // --------------------------------------------------- jobs are such runs

  lemma {:induction false} AddedTwice(titles: map<string, TitleRow>, read: int, a: seq<SiteTitle>, b: seq<SiteTitle>)
    ensures Added(titles, read, a + b) == Added(Added(titles, read, a), read, b)
    decreases |b|
  {
    if b == [] {
      assert a + b == a;
    } else {
      assert (a + b)[..|a + b| - 1] == a + b[..|b| - 1];
      AddedTwice(titles, read, a, b[..|b| - 1]);
    }
  }

  /** One more entry of a position, and what it adds to the batch. */
  lemma OneMoreEntry(titles: map<string, TitleRow>, read: int, t: Table, p: Table, e: Entry, batch: seq<SiteTitle>)
    returns (more: seq<SiteTitle>)
    requires Added(Stamp(titles, read, t), read, batch) == Stamp(titles, read, p)
    requires t.Keys <= p.Keys && Urls(batch) == p.Keys - t.Keys
    ensures Added(Stamp(titles, read, t), read, more) == Stamp(titles, read, Note(p, e))
    ensures Urls(more) == Note(p, e).Keys - t.Keys
  {
    hide Stamp, Urls, Added, Put, CleanTitle, Note;
    more := batch;
    if e.link == "" || e.link in p {
      NoteStays(p, e);
    } else {
      var s := SiteTitle(e.link, e.name, |p|);
      NoteKeys(p, e);
      StampNote(titles, read, p, e);
      AddedOne(Stamp(titles, read, t), read, batch, s);
      UrlsAdd(batch, s);
      more := batch + [s];
    }
  }

  /** The batch the entries of one position come to. */
  lemma {:induction false} AbsorbedBatch(titles: map<string, TitleRow>, read: int, t: Table, es: seq<Entry>)
    returns (batch: seq<SiteTitle>)
    ensures Added(Stamp(titles, read, t), read, batch) == Stamp(titles, read, Absorb(t, es))
    ensures Urls(batch) == Absorb(t, es).Keys - t.Keys
    decreases |es|
  {
    hide Stamp, Added, Note;
    if es == [] {
      batch := [];
      AddedNone(Stamp(titles, read, t), read);
    } else {
      hide Urls;
      var n := |es| - 1;
      AbsorbKeeps(t, es[..n]);
      batch := AbsorbedBatch(titles, read, t, es[..n]);
      batch := OneMoreEntry(titles, read, t, Absorb(t, es[..n]), es[n], batch);
    }
  }

  lemma NoteStays(t: Table, e: Entry)
    requires e.link == "" || e.link in t
    ensures Note(t, e) == t
  {
  }

  lemma UrlsAdd(a: seq<SiteTitle>, s: SiteTitle)
    ensures Urls(a + [s]) == Urls(a) + (if s.url == "" then {} else {s.url})
  {
    assert s in a + [s];
  }

  lemma NoUrls()
    ensures Urls([]) == {}
  {
  }

  lemma UrlsConcat(a: seq<SiteTitle>, b: seq<SiteTitle>)
    ensures Urls(a + b) == Urls(a) + Urls(b)
  {
  }

  lemma {:induction false} ReadBatch(titles: map<string, TitleRow>, read: int, site: Site, r: Run, calls: nat)
    returns (batch: seq<SiteTitle>)
    ensures Added(Stamp(titles, read, r.table), read, batch) == Stamp(titles, read, Advance(site, r, calls).table)
    ensures Urls(batch) == Advance(site, r, calls).table.Keys - r.table.Keys
    decreases calls
  {
    hide Stamp, Absorb, Browsed, Urls, Added;
    AddedNone(Stamp(titles, read, r.table), read);
    NoUrls();
    batch := [];
    if calls > 0 && !Over(r) {
      var es := Browsed(site, r.at).entries;
      var first := AbsorbedBatch(titles, read, r.table, es);
      AbsorbKeeps(r.table, es);
      var rest := ReadBatch(titles, read, site, Iterate(site, r), calls - 1);
      AdvanceGrows(site, Iterate(site, r), calls - 1);
      AddedTwice(Stamp(titles, read, r.table), read, first, rest);
      UrlsConcat(first, rest);
      batch := first + rest;
    }
  }

  /** A job of `indexSite`, whatever its site answers and wherever it fails, is
      a run: it starts or carries on, adds, and ends. */
  lemma JobIsARun(w: World, site: Site, resume: bool, a: Attempt) returns (es: seq<Event>)
    requires Inv(w) && w.phase.Idle?
    ensures ValidRun(w, es) && After(w, es).phase.Idle?
    ensures After(w, es).tables == JobResult(w.tables, site, resume, a)
  {
    var b := StartOf(w.tables, resume);
    var r := Advance(site, b.run, a.failAt);
    var batch := ReadBatch(b.tables.titles, b.read, site, b.run, a.failAt);
    var open := if resume && Resumption(w.tables).Some? then CarryOn else Start;
    var o := if Over(r) then EndOutcome(w.tables, r, ChallengedAt(site, r), a.now) else BrokenOutcome(r);
    es := [open, AddListed(batch), EndSite(o)];
    AdvanceGrows(site, b.run, a.failAt);
    OpensAs(w, resume, open);
    assert JobResult(w.tables, site, resume, a) ==
           Finished(b.tables.(titles := Stamp(b.tables.titles, b.read, r.table)), b.read, o);
    assert o.complete ==> r.table != map[] || w.tables.titles == map[];
    hide JobResult, Stamp, Finished, EndOutcome, BrokenOutcome, StartOf, Advance, Next, Allowed, Urls;
    ThreeSteps(w, open, batch, o, b, r);
    ThreeEvents(w, open, AddListed(batch), EndSite(o));
  }

  lemma OneEvent(w: World, e: Event, es: seq<Event>)
    requires Allowed(w, e) && ValidRun(Next(w, e), es)
    ensures ValidRun(w, [e] + es) && After(w, [e] + es) == After(Next(w, e), es)
  {
    assert ([e] + es)[1..] == es;
  }

  lemma ThreeEvents(w: World, a: Event, b: Event, c: Event)
    requires Allowed(w, a) && Allowed(Next(w, a), b) && Allowed(Next(Next(w, a), b), c)
    ensures ValidRun(w, [a, b, c]) && After(w, [a, b, c]) == Next(Next(Next(w, a), b), c)
  {
    hide Allowed, Next;
    var w1 := Next(w, a);
    var w2 := Next(w1, b);
    OneEvent(w2, c, []);
    OneEvent(w1, b, [c]);
    OneEvent(w, a, [b, c]);
    assert [c] + [] == [c] && [b] + [c] == [b, c] && [a] + [b, c] == [a, b, c];
  }

  lemma OpensAs(w: World, resume: bool, open: Event)
    requires Inv(w) && w.phase.Idle?
    requires open == if resume && Resumption(w.tables).Some? then CarryOn else Start
    ensures var b := StartOf(w.tables, resume);
            && Allowed(w, open)
            && Next(w, open).tables == b.tables
            && Next(w, open).phase == Open(b.read, |w.tables.titles|, b.run.table.Keys)
            && Stamp(b.tables.titles, b.read, b.run.table) == b.tables.titles
  {
    var b := StartOf(w.tables, resume);
    if open.CarryOn? {
      StampOfTable(b.tables.titles, b.read);
    }
  }

  lemma ThreeSteps(w: World, open: Event, batch: seq<SiteTitle>, o: ReadOutcome, b: Begin, r: Run)
    requires Allowed(w, open)
    requires Next(w, open).tables == b.tables
    requires Next(w, open).phase == Open(b.read, |w.tables.titles|, b.run.table.Keys)
    requires Added(b.tables.titles, b.read, batch) == Stamp(b.tables.titles, b.read, r.table)
    requires Urls(batch) == r.table.Keys - b.run.table.Keys && b.run.table.Keys <= r.table.Keys
    requires o.complete ==> r.table != map[] || w.tables.titles == map[]
    ensures var w1 := Next(w, open);
            && Allowed(w1, AddListed(batch))
            && var w2 := Next(w1, AddListed(batch));
            && Allowed(w2, EndSite(o))
            && var w3 := Next(w2, EndSite(o));
            && w3.phase.Idle?
            && w3.tables == Finished(b.tables.(titles := Stamp(b.tables.titles, b.read, r.table)), b.read, o)
  {
    hide Stamp, Added, Urls, Finished, Inv;
    var w1 := Next(w, open);
    Together(b.run.table.Keys, Urls(batch), r.table.Keys);
    hide Next;
    AddsTo(w1, batch);
    EndsAs(Next(w1, AddListed(batch)), o);
  }

  lemma Together<T>(a: set<T>, b: set<T>, c: set<T>)
    requires b == c - a && a <= c
    ensures a + b == c
  {
  }

  lemma AddsTo(w: World, batch: seq<SiteTitle>)
    requires w.phase.Open?
    ensures Allowed(w, AddListed(batch))
    ensures var w' := Next(w, AddListed(batch));
            && w'.phase == Open(w.phase.read, w.phase.count, w.phase.seen + Urls(batch))
            && w'.tables == w.tables.(titles := Added(w.tables.titles, w.phase.read, batch))
  {
    hide Urls, Added;
  }

  lemma EndsAs(w: World, o: ReadOutcome)
    requires w.phase.Open? && (o.complete ==> w.phase.seen != {} || w.phase.count == 0)
    ensures Allowed(w, EndSite(o))
    ensures Next(w, EndSite(o)).phase.Idle? && Next(w, EndSite(o)).tables == Finished(w.tables, w.phase.read, o)
  {
    hide Finished;
  }

  /** Any number of jobs, each over its own answers. */
  datatype Job = Job(site: Site, resume: bool, attempt: Attempt)

  function AfterJobs(t: Tables, jobs: seq<Job>): Tables
    decreases |jobs|
  {
    if jobs == [] then t
    else AfterJobs(JobResult(t, jobs[0].site, jobs[0].resume, jobs[0].attempt), jobs[1..])
  }

  lemma {:induction false} JobsAreARun(w: World, jobs: seq<Job>) returns (es: seq<Event>)
    requires Inv(w) && w.phase.Idle?
    ensures ValidRun(w, es) && After(w, es).tables == AfterJobs(w.tables, jobs)
    decreases |jobs|
  {
    hide JobResult, Next, Allowed, Inv;
    es := [];
    if jobs != [] {
      var j := jobs[0];
      es := JobIsARun(w, j.site, j.resume, j.attempt);
      RunSafe(w, es);
      var rest := JobsAreARun(After(w, es), jobs[1..]);
      RunsCompose(w, es, rest);
      es := es + rest;
    }
  }

  /** No sequence of jobs empties a catalogue that holds a title. */
  lemma JobsNeverEmpty(w: World, jobs: seq<Job>)
    requires Inv(w) && w.phase.Idle? && w.tables.titles != map[]
    ensures AfterJobs(w.tables, jobs).titles != map[]
  {
    var es := JobsAreARun(w, jobs);
    RunSafe(w, es);
  }
}
