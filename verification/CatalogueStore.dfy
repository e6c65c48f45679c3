/** The stored catalogue of one site: its `site_catalogue` row and its
    `site_title` rows, and the four transactions that change them
    (internal/store/catalogue.go).

    Each transaction is a function on `Tables`; the class `Store` holds the two
    tables as fields and performs the transactions on them. */
module CatalogueStore {
  import opened Options
  import opened Spaces

  /** A position in a site's directory: which section, which page of it. */
  datatype Pos = Pos(dir: int, page: int)

  const NO_POS := Pos(-1, 0)

  datatype Source = FromSite | Prebuilt

  /** One title as a read hands it to the store. */
  datatype SiteTitle = SiteTitle(url: string, name: string, place: int)

  /** A `site_title` row, keyed by URL. */
  datatype TitleRow = TitleRow(name: string, place: int, seenRead: int, firstRead: int)

  /** The site's `site_catalogue` row. `dataAt` is how old the titles are, to
      the second as it is stored. */
  datatype CatalogueRow = CatalogueRow(
    complete: bool, source: Source, dataAt: Option<int>, pages: nat, steps: nat, resume: Pos,
    readSeq: int, newFrom: int)

  datatype Tables = Tables(catalogue: Option<CatalogueRow>, titles: map<string, TitleRow>)

  /** How a read ended. */
  datatype ReadOutcome = ReadOutcome(complete: bool, source: Source, dataAt: Option<int>, steps: nat, resume: Pos)

  /** An unfinished read picked up again. */
  datatype Resumed = Resumed(read: int, at: Pos, steps: nat, seen: set<string>)

  // ---------------------------------------------------------------- names

  /** The name with every run of white space made one blank and none left at
      either end; `gap` is whether white space came since the last word. */
  function Words(s: string, started: bool, gap: bool): string {
    if s == [] then []
    else if IsSpace(s[0]) then Words(s[1..], started, true)
    else (if started && gap then " " else "") + [s[0]] + Words(s[1..], true, false)
  }

  function CleanTitle(s: string): string { Words(s, false, false) }

  /** The words of a text: its longest stretches without white space. */
  function Fields(s: string): seq<string>
    decreases |s|
  {
    if s == [] then []
    else if IsSpace(s[0]) then Fields(s[1..])
    else [s[..WordLength(s)]] + Fields(s[WordLength(s)..])
  }

  function WordLength(s: string): (n: nat)
    ensures n <= |s| && (n < |s| ==> IsSpace(s[n])) && forall i :: 0 <= i < n ==> !IsSpace(s[i])
    ensures s != [] && !IsSpace(s[0]) ==> n > 0
  {
    if s == [] || IsSpace(s[0]) then 0 else 1 + WordLength(s[1..])
  }

  function Spaced(words: seq<string>): string {
    if words == [] then "" else if |words| == 1 then words[0] else words[0] + " " + Spaced(words[1..])
  }

  /** What is added after a word for the words still to come. */
  function Following(words: seq<string>): string { if words == [] then "" else " " + Spaced(words) }

  lemma FirstWord(s: string)
    requires s != [] && !IsSpace(s[0])
    ensures var n, m := WordLength(s), WordLength(s[1..]);
            && n == m + 1 && s[..n] == [s[0]] + s[1..][..m] && s[n..] == s[1..][m..]
            && Fields(s) == [s[..n]] + Fields(s[n..])
            && Spaced(Fields(s)) == s[..n] + Following(Fields(s[n..]))
  {
    hide IsSpace;
    var n := WordLength(s);
    FirstField(s);
    hide Fields, WordLength;
    SpacedFirst(s[..n], Fields(s[n..]));
  }

  lemma FirstField(s: string)
    requires s != [] && !IsSpace(s[0])
    ensures var n, m := WordLength(s), WordLength(s[1..]);
            n == m + 1 && Fields(s) == [s[..n]] + Fields(s[n..])
  {
    hide IsSpace;
  }

  lemma SpacedFirst(word: string, words: seq<string>)
    ensures Spaced([word] + words) == word + Following(words)
  {
    assert ([word] + words)[1..] == words;
  }

  lemma NextWords(s: string, started: bool, gap: bool)
    requires s != []
    ensures Words(s, started, gap) ==
            if IsSpace(s[0]) then Words(s[1..], started, true)
            else (if started && gap then " " else "") + ([s[0]] + Words(s[1..], true, false))
    ensures IsSpace(s[0]) ==> Fields(s) == Fields(s[1..]) && WordLength(s) == 0
  {
    hide IsSpace;
  }

  lemma {:induction false} WordsGoOn(s: string)
    ensures Words(s, true, false) == s[..WordLength(s)] + Following(Fields(s[WordLength(s)..]))
    ensures Words(s, true, true) == Following(Fields(s))
    decreases |s|
  {
    if s != [] {
      hide IsSpace, Spaced, Words, Following, Fields, WordLength;
      WordsGoOn(s[1..]);
      NextWords(s, true, false);
      NextWords(s, true, true);
      if IsSpace(s[0]) {
        assert s[0..] == s;
      } else {
        FirstWord(s);
        AfterWord(Fields(s));
        var n := WordLength(s);
        Append([s[0]], s[1..][..n - 1], Following(Fields(s[n..])));
      }
    }
  }

  lemma Append(a: string, b: string, c: string)
    ensures a + (b + c) == a + b + c && "" + a == a
  {
  }

  lemma AfterWord(words: seq<string>)
    requires words != []
    ensures Following(words) == " " + Spaced(words)
  {
  }

  /** A cleaned name is the words of the name with one blank between each two. */
  lemma CleanTitleIsItsWords(s: string)
    ensures CleanTitle(s) == Spaced(Fields(s))
  {
    WordsStart(s, false);
  }

  lemma {:induction false} WordsStart(s: string, gap: bool)
    ensures Words(s, false, gap) == Spaced(Fields(s))
    decreases |s|
  {
    if s == [] {
      NoWords();
    } else {
      hide IsSpace, Spaced, Words, Following, Fields, WordLength;
      NextWords(s, false, gap);
      if IsSpace(s[0]) {
        WordsStart(s[1..], true);
      } else {
        FirstWord(s);
        WordsGoOn(s[1..]);
        var n := WordLength(s);
        Append([s[0]], s[1..][..n - 1], Following(Fields(s[n..])));
        Append([s[0]] + Words(s[1..], true, false), "", "");
      }
    }
  }

  lemma NoWords()
    ensures Spaced([]) == ""
  {
  }

  // --------------------------------------------------------- transactions

  /** BeginSiteCatalogue: a fresh read number; nothing stored is touched. */
  function Begun(t: Tables): Tables {
    match t.catalogue
    case None =>
      t.(catalogue := Some(CatalogueRow(false, FromSite, None, 0, 0, NO_POS, 1, 0)))
    case Some(c) =>
      t.(catalogue := Some(c.(complete := false, readSeq := c.readSeq + 1,
                              newFrom := if t.titles != map[] then c.readSeq + 1 else 0)))
  }

  /** The upsert of one title by read `read`. */
  function Put(titles: map<string, TitleRow>, read: int, s: SiteTitle): map<string, TitleRow> {
    if s.url == "" then titles
    else titles[s.url := TitleRow(CleanTitle(s.name), s.place, read,
                                  if s.url in titles then titles[s.url].firstRead else read)]
  }

  /** AddSiteTitles: the upserts in order. */
  function Added(titles: map<string, TitleRow>, read: int, batch: seq<SiteTitle>): map<string, TitleRow> {
    if batch == [] then titles
    else Put(Added(titles, read, batch[..|batch| - 1]), read, batch[|batch| - 1])
  }

  /** The rows read `read` has seen. */
  function SeenBy(titles: map<string, TitleRow>, read: int): map<string, TitleRow> {
    map u | u in titles && titles[u].seenRead == read :: titles[u]
  }

  /** FinishSiteCatalogue: only a complete read may remove titles. */
  function Finished(t: Tables, read: int, o: ReadOutcome): Tables {
    var titles := if o.complete then SeenBy(t.titles, read) else t.titles;
    match t.catalogue
    case None => Tables(None, titles)
    case Some(c) =>
      Tables(Some(c.(complete := o.complete, source := o.source, dataAt := o.dataAt, steps := o.steps,
                     resume := if o.complete then NO_POS else o.resume,
                     pages := if o.complete && o.source == FromSite then o.steps else c.pages)),
             titles)
  }

  /** ResumeSiteCatalogue: what there is to carry on, if anything. */
  function Resumption(t: Tables): Option<Resumed> {
    match t.catalogue
    case None => None
    case Some(c) =>
      if !c.complete && c.resume.dir >= 0
      then Some(Resumed(c.readSeq, c.resume, c.steps, SeenBy(t.titles, c.readSeq).Keys))
      else None
  }

  function SourceOf(t: Tables): Source {
    if t.catalogue.Some? then t.catalogue.value.source else FromSite
  }

  function DataAtOf(t: Tables): Option<int> {
    if t.catalogue.Some? then t.catalogue.value.dataAt else None
  }

  // ------------------------------------------------------------ invariants

  /** What the tables of a site always satisfy: titles only under a catalogue
      row, and first_read <= seen_read <= read_seq in every title. A row from
      before reads were numbered has number 0. */
  ghost predicate WellNumbered(t: Tables) {
    match t.catalogue
    case None => t.titles == map[]
    case Some(c) =>
      && (c.newFrom == 0 || c.newFrom == c.readSeq)
      && 0 <= c.readSeq
      && forall u :: u in t.titles ==> t.titles[u].firstRead <= t.titles[u].seenRead <= c.readSeq
  }

  lemma AddedOne(titles: map<string, TitleRow>, read: int, batch: seq<SiteTitle>, s: SiteTitle)
    ensures Added(titles, read, batch + [s]) == Put(Added(titles, read, batch), read, s)
  {
    assert (batch + [s])[..|batch|] == batch;
  }

  lemma AddedNone(titles: map<string, TitleRow>, read: int)
    ensures Added(titles, read, []) == titles
  {
  }

  lemma UrlsOfLast(batch: seq<SiteTitle>, last: SiteTitle)
    ensures (set s | s in batch + [last] && s.url != "" :: s.url) ==
            (set s | s in batch && s.url != "" :: s.url) + (if last.url == "" then {} else {last.url})
  {
    assert last in batch + [last];
  }

  /** An added batch keeps every title stored and stamps exactly its own URLs. */
  lemma {:induction false} AddedStamps(titles: map<string, TitleRow>, read: int, batch: seq<SiteTitle>)
    ensures var after := Added(titles, read, batch);
            var urls := set s | s in batch && s.url != "" :: s.url;
            && after.Keys == titles.Keys + urls
            && (forall u :: u in urls ==> after[u].seenRead == read)
            && (forall u :: u in titles && u !in urls ==> after[u] == titles[u])
            && (forall u :: u in titles ==> after[u].firstRead == titles[u].firstRead)
            && (forall u :: u in urls && u !in titles ==> after[u].firstRead == read)
  {
    if batch != [] {
      var n := |batch| - 1;
      hide CleanTitle;
      AddedStamps(titles, read, batch[..n]);
      assert batch == batch[..n] + [batch[n]];
      var urls := set s | s in batch && s.url != "" :: s.url;
      var urls' := set s | s in batch[..n] && s.url != "" :: s.url;
      UrlsOfLast(batch[..n], batch[n]);
    }
  }

  // ------------------------------------------------------------ the class

  /** The two tables as the transactions update them. */
  class Store {
    var catalogue: Option<CatalogueRow>
    var titles: map<string, TitleRow>

    ghost function View(): Tables reads this { Tables(catalogue, titles) }

    constructor ()
      ensures View() == Tables(None, map[])
    {
      catalogue, titles := None, map[];
    }

    /** How many titles are stored, where they came from and how old they are. */
    method SiteCatalogueInfo() returns (count: nat, source: Source, dataAt: Option<int>)
      ensures count == |titles| && source == SourceOf(View()) && dataAt == DataAtOf(View())
    {
      count := |titles|;
      source, dataAt := FromSite, None;
      if catalogue.Some? {
        source, dataAt := catalogue.value.source, catalogue.value.dataAt;
      }
    }

    method BeginSiteCatalogue() returns (read: int)
      modifies this
      ensures View() == Begun(old(View()))
      ensures read == catalogue.value.readSeq
    {
      if catalogue.None? {
        catalogue := Some(CatalogueRow(false, FromSite, None, 0, 0, NO_POS, 1, 0));
      } else {
        var c := catalogue.value;
        var from := if |titles| > 0 then c.readSeq + 1 else 0;
        catalogue := Some(c.(complete := false, readSeq := c.readSeq + 1, newFrom := from));
      }
      read := catalogue.value.readSeq;
    }

    method AddSiteTitles(read: int, batch: seq<SiteTitle>)
      modifies this`titles
      ensures titles == Added(old(titles), read, batch)
    {
      for i := 0 to |batch|
        invariant titles == Added(old(titles), read, batch[..i])
      {
        assert batch[..i + 1][..i] == batch[..i];
        var s := batch[i];
        if s.url != "" {
          var first := if s.url in titles then titles[s.url].firstRead else read;
          titles := titles[s.url := TitleRow(CleanTitle(s.name), s.place, read, first)];
        }
      }
      assert batch[..|batch|] == batch;
    }

    method FinishSiteCatalogue(read: int, o: ReadOutcome)
      modifies this
      ensures View() == Finished(old(View()), read, o)
    {
      if o.complete {
        titles := map u | u in titles && titles[u].seenRead == read :: titles[u];
      }
      var resume := if o.complete then NO_POS else o.resume;
      if catalogue.Some? {
        var c := catalogue.value;
        var pages := if o.complete && o.source == FromSite then o.steps else c.pages;
        catalogue := Some(c.(complete := o.complete, source := o.source, dataAt := o.dataAt, steps := o.steps,
                             resume := resume, pages := pages));
      }
    }

    method ResumeSiteCatalogue() returns (r: Option<Resumed>)
      ensures r == Resumption(View())
    {
      if catalogue.None? || catalogue.value.complete || catalogue.value.resume.dir < 0 {
        return None;
      }
      var c := catalogue.value;
      var seen := set u | u in titles && titles[u].seenRead == c.readSeq;
      assert seen == SeenBy(titles, c.readSeq).Keys;
      return Some(Resumed(c.readSeq, c.resume, c.steps, seen));
    }
  }
}
