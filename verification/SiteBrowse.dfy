/** Reading one position of a site's directory, rolling on into the next
    section when the current one is finished (internal/app/app.go). */
module SiteBrowse {
  import opened CatalogueStore

  datatype Entry = Entry(link: string, name: string)

  /** A site that does not change: how many sections it has, and what each page
      of each section lists. `challenged` marks pages that are anti-bot
      interstitials. */
  datatype Site = Site(total: int, listing: (int, int) -> seq<Entry>, challenged: (int, int) -> bool)

  datatype BrowseResult = BrowseResult(
    entries: seq<Entry>, at: Pos, next: Pos, more: bool, challenged: bool)

  /** How many sections one request walks before it gives up. */
  const MAX_ROLLOVERS: nat := 4

  /** Browse from `at` with `attempts` requests left; `flag` is what the last
      request said about a challenge. */
  function BrowseFrom(site: Site, at: Pos, attempts: nat, flag: bool): BrowseResult
    decreases attempts, site.total
  {
    if attempts == 0 || at.dir >= site.total then
      BrowseResult([], at, at, at.dir < site.total, flag)
    else
      var es := site.listing(at.dir, at.page);
      var c := site.challenged(at.dir, at.page);
      if es != [] then BrowseResult(es, at, Pos(at.dir, at.page + 1), true, c)
      else BrowseFrom(site, Pos(at.dir + 1, 0), attempts - 1, c)
  }

  function Clamped(at: Pos): Pos { if at.dir < 0 then Pos(0, at.page) else at }

  function Browsed(site: Site, at: Pos): BrowseResult {
    BrowseFrom(site, Clamped(at), MAX_ROLLOVERS, false)
  }

  method Browse(site: Site, start: Pos) returns (r: BrowseResult)
    ensures r == Browsed(site, start)
  {
    var at := start;
    if at.dir < 0 {
      at := Pos(0, at.page);
    }
    var attempt, flag := 0, false;
    while attempt < MAX_ROLLOVERS && at.dir < site.total
      invariant 0 <= attempt <= MAX_ROLLOVERS
      invariant BrowseFrom(site, at, MAX_ROLLOVERS - attempt, flag) == Browsed(site, start)
    {
      var entries := site.listing(at.dir, at.page);
      flag := site.challenged(at.dir, at.page);
      if |entries| > 0 {
        return BrowseResult(entries, at, Pos(at.dir, at.page + 1), true, flag);
      }
      at := Pos(at.dir + 1, 0);
      attempt := attempt + 1;
    }
    return BrowseResult([], at, at, at.dir < site.total, flag);
  }

  /** The order a directory is walked in. */
  predicate Before(a: Pos, b: Pos) {
    a.dir < b.dir || (a.dir == b.dir && a.page < b.page)
  }

  /** Where position `at` stands after rolling over `k` sections. */
  function Rolled(at: Pos, k: nat): Pos { if k == 0 then at else Pos(at.dir + k, 0) }

  /** Browse answers from the first of the next positions that lists anything:
      every position it rolled over lists nothing, and it gives up only after
      MAX_ROLLOVERS empty ones or past the last section. */
  lemma {:induction false} BrowseFindsFirst(site: Site, at: Pos, attempts: nat, flag: bool) returns (k: nat)
    ensures k <= attempts
    ensures forall j :: 0 <= j < k ==>
              Rolled(at, j).dir < site.total && site.listing(Rolled(at, j).dir, Rolled(at, j).page) == []
    ensures var r := BrowseFrom(site, at, attempts, flag);
            && r.at == Rolled(at, k)
            && (r.entries != [] ==>
                  && k < attempts && r.at.dir < site.total
                  && r.entries == site.listing(r.at.dir, r.at.page)
                  && r.more && r.next == Pos(r.at.dir, r.at.page + 1))
            && (r.entries == [] ==>
                  && (k == attempts || r.at.dir >= site.total)
                  && r.next == r.at && (r.more <==> r.at.dir < site.total))
    decreases attempts
  {
    k := 0;
    if attempts > 0 && at.dir < site.total && site.listing(at.dir, at.page) == [] {
      var k' := BrowseFindsFirst(site, Pos(at.dir + 1, 0), attempts - 1, site.challenged(at.dir, at.page));
      k := k' + 1;
      forall j | 0 <= j < k
        ensures Rolled(at, j).dir < site.total && site.listing(Rolled(at, j).dir, Rolled(at, j).page) == []
      {
        if j > 0 { assert Rolled(at, j) == Rolled(Pos(at.dir + 1, 0), j - 1); }
      }
    }
  }

  /** What the answer says of a challenge is what the last page asked for was: the
      one that answered, or the one before the position it gave up at. */
  lemma {:induction false} ChallengeIsOfLastPage(site: Site, at: Pos, attempts: nat, flag: bool) returns (asked: nat)
    ensures var r := BrowseFrom(site, at, attempts, flag);
            && (r.entries != [] ==> asked > 0)
            && r.at == Rolled(at, if r.entries != [] then asked - 1 else asked)
            && r.challenged ==
               if asked == 0 then flag
               else site.challenged(Rolled(at, asked - 1).dir, Rolled(at, asked - 1).page)
    decreases attempts
  {
    asked := 0;
    if attempts > 0 && at.dir < site.total {
      asked := 1;
      if site.listing(at.dir, at.page) == [] {
        var next, c := Pos(at.dir + 1, 0), site.challenged(at.dir, at.page);
        var more := ChallengeIsOfLastPage(site, next, attempts - 1, c);
        asked := 1 + more;
        assert more > 0 ==> Rolled(next, more - 1) == Rolled(at, more);
      }
    }
  }
}
