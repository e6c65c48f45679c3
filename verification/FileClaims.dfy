/** Which library file a download writes: the claim table behind a lock
    (internal/app/files.go) and the paths recorded in the store outside it
    (internal/store/store.go), as `downloadChapter` uses them
    (internal/app/app.go). */
module FileClaims {
  import opened Options
  import opened Sets

  type Path = string

  /** Chapters and the file recorded against each, "" for none. */
  type Chapters = map<int, Path>

  /** What `SELECT id ... WHERE file_path = ? LIMIT 1` may answer. */
  predicate IsOwner(chapters: Chapters, path: Path, owner: int) {
    if owner == 0 then forall c :: c in chapters ==> chapters[c] != path
    else owner in chapters && chapters[owner] == path
  }

  /** No other chapter is writing or has written the path. */
  predicate FreeFor(held: map<Path, int>, chapters: Chapters, ch: int, path: Path) {
    && (path in held ==> held[path] == ch)
    && (forall c :: c in chapters && chapters[c] == path ==> c == ch)
  }

  /** At most one chapter is recorded at the path. */
  predicate OneOwner(chapters: Chapters, path: Path) {
    forall a, b :: a in chapters && b in chapters && chapters[a] == path && chapters[b] == path ==> a == b
  }

  class Claims {
    var held: map<Path, int>

    method ChapterByFile(chapters: Chapters, path: Path) returns (owner: int)
      requires 0 !in chapters
      ensures IsOwner(chapters, path, owner)
    {
      if exists c :: c in chapters && chapters[c] == path {
        var c :| c in chapters && chapters[c] == path;
        return c;
      }
      return 0;
    }

    /** Takes the first candidate free for the chapter; none when every name is
        taken. Should two chapters be recorded at a path already, the store may
        name either, so a path one of them claims is free only if it has one
        owner. */
    method ClaimFile(chapters: Chapters, ch: int, candidates: seq<Path>) returns (claimed: Option<nat>)
      requires 0 !in chapters
      modifies this
      ensures claimed.Some? ==>
                && claimed.value < |candidates|
                && (candidates[claimed.value] in old(held) ==> old(held)[candidates[claimed.value]] == ch)
                && (OneOwner(chapters, candidates[claimed.value]) ==>
                      FreeFor(old(held), chapters, ch, candidates[claimed.value]))
                && (forall i :: 0 <= i < claimed.value ==> !FreeFor(old(held), chapters, ch, candidates[i]))
                && held == old(held)[candidates[claimed.value] := ch]
      ensures claimed.None? ==>
                && held == old(held)
                && forall i :: 0 <= i < |candidates| ==> !FreeFor(held, chapters, ch, candidates[i])
    {
      for i := 0 to |candidates|
        invariant held == old(held)
        invariant forall k :: 0 <= k < i ==> !FreeFor(held, chapters, ch, candidates[k])
      {
        var path := candidates[i];
        if path in held && held[path] != ch {
          continue;
        }
        var owner := ChapterByFile(chapters, path);
        if owner != 0 && owner != ch {
          continue;
        }
        held := held[path := ch];
        return Some(i);
      }
      return None;
    }

    /** Gives the claim up, if it is still the chapter's. */
    method Release(path: Path, ch: int)
      modifies this
      ensures held == if path in old(held) && old(held)[path] == ch then old(held) - {path} else old(held)
    {
      if path in held && held[path] == ch {
        held := held - {path};
      }
    }
  }

  // ------------------------------------------------- the interleaving machine

  /** Where a download is: fetching; inside the claim, about to look at
      candidate `i`; past the check of the claim table; past the check of the
      store; writing its claimed file; past recording it; over. */
  datatype Step =
    | Fetching
    | Looking(i: nat)
    | NotHeld(i: nat)
    | NotStored(i: nat)
    | Writing(path: Path)
    | Releasing(path: Path)
    | Over

  datatype Download = Download(ch: int, candidates: seq<Path>, step: Step)

  datatype World = World(
    chapters: Chapters, held: map<Path, int>, lock: Option<nat>, downloads: map<nat, Download>)

  datatype Event =
    | AddChapter(ch: int)
    | DropChapter(ch: int)
    | ClearPath(ch: int)                 // queued again, failed, cancelled or reset
    | Begin(d: nat, ch: int, candidates: seq<Path>)
    | GiveUp(d: nat)                     // an error before anything is claimed
    | Lock(d: nat)
    | CheckHeld(d: nat)
    | CheckStore(d: nat, owner: int)
    | Take(d: nat)
    | Record(d: nat)
    | RecordNothing(d: nat)              // writing or recording the file failed
    | Release(d: nat)
    | Restart

  const START := World(map[], map[], None, map[])

  function StepOf(w: World, d: nat): Step { if d in w.downloads then w.downloads[d].step else Over }

  function PathAt(w: World, d: nat, i: nat): Path
    requires d in w.downloads && i < |w.downloads[d].candidates|
  {
    w.downloads[d].candidates[i]
  }

  predicate Allowed(w: World, e: Event) {
    match e
    case AddChapter(ch) => ch > 0 && ch !in w.chapters
    case DropChapter(ch) => true
    case ClearPath(ch) => true
    case Begin(d, ch, cs) => d !in w.downloads && ch in w.chapters && "" !in cs
    case GiveUp(d) =>
      var s := StepOf(w, d);
      s.Fetching? || s.NotHeld? || (s.Looking? && s.i >= |w.downloads[d].candidates|)
    case Lock(d) => StepOf(w, d).Fetching? && w.lock.None?
    case CheckHeld(d) => var s := StepOf(w, d); s.Looking? && s.i < |w.downloads[d].candidates|
    case CheckStore(d, owner) =>
      var s := StepOf(w, d);
      s.NotHeld? && s.i < |w.downloads[d].candidates| && IsOwner(w.chapters, PathAt(w, d, s.i), owner)
    case Take(d) => var s := StepOf(w, d); s.NotStored? && s.i < |w.downloads[d].candidates|
    case Record(d) => StepOf(w, d).Writing?
    case RecordNothing(d) => StepOf(w, d).Writing?
    case Release(d) => StepOf(w, d).Releasing? && w.lock.None?
    case Restart => true
  }

  function Moved(w: World, d: nat, s: Step): World
    requires d in w.downloads
  {
    w.(downloads := w.downloads[d := w.downloads[d].(step := s)])
  }

  function WithPath(chapters: Chapters, ch: int, path: Path): Chapters {
    if ch in chapters then chapters[ch := path] else chapters
  }

  function Next(w: World, e: Event): World
    requires Allowed(w, e)
  {
    match e
    case AddChapter(ch) => w.(chapters := w.chapters[ch := ""])
    case DropChapter(ch) => w.(chapters := w.chapters - {ch})
    case ClearPath(ch) => w.(chapters := WithPath(w.chapters, ch, ""))
    case Begin(d, ch, cs) =>
      w.(downloads := w.downloads[d := Download(ch, cs, Fetching)], chapters := WithPath(w.chapters, ch, ""))
    case GiveUp(d) => Moved(w, d, Over).(lock := if w.lock == Some(d) then None else w.lock)
    case Lock(d) => Moved(w, d, Looking(0)).(lock := Some(d))
    case CheckHeld(d) =>
      var i, ch := w.downloads[d].step.i, w.downloads[d].ch;
      var path := PathAt(w, d, i);
      Moved(w, d, if path in w.held && w.held[path] != ch then Looking(i + 1) else NotHeld(i))
    case CheckStore(d, owner) =>
      var i := w.downloads[d].step.i;
      Moved(w, d, if owner != 0 && owner != w.downloads[d].ch then Looking(i + 1) else NotStored(i))
    case Take(d) =>
      var path := PathAt(w, d, w.downloads[d].step.i);
      Moved(w, d, Writing(path)).(held := w.held[path := w.downloads[d].ch], lock := None)
    case Record(d) =>
      var path := w.downloads[d].step.path;
      Moved(w, d, Releasing(path)).(chapters := WithPath(w.chapters, w.downloads[d].ch, path))
    case RecordNothing(d) => Moved(w, d, Releasing(w.downloads[d].step.path))
    case Release(d) =>
      var path, ch := w.downloads[d].step.path, w.downloads[d].ch;
      Moved(w, d, Over).(held := if path in w.held && w.held[path] == ch then w.held - {path} else w.held)
    case Restart => World(w.chapters, map[], None, map[])
  }

  predicate ValidRun(w: World, es: seq<Event>)
    decreases |es|
  {
    es == [] || (Allowed(w, es[0]) && ValidRun(Next(w, es[0]), es[1..]))
  }

  function After(w: World, es: seq<Event>): World
    requires ValidRun(w, es)
    decreases |es|
  {
    if es == [] then w else After(Next(w, es[0]), es[1..])
  }

  /** A claim is taken on a path that is held already. The claim table lets that
      through for the chapter that holds it. */
  predicate SharesClaim(w: World, e: Event)
    requires Allowed(w, e)
  {
    e.Take? && PathAt(w, e.d, w.downloads[e.d].step.i) in w.held
  }

  predicate NeverShares(w: World, es: seq<Event>)
    requires ValidRun(w, es)
    decreases |es|
  {
    es == [] || (!SharesClaim(w, es[0]) && NeverShares(Next(w, es[0]), es[1..]))
  }

  /** A chapter with a download running gets no second one. */
  predicate Sole(w: World, e: Event) {
    e.Begin? ==> forall d :: d in w.downloads && w.downloads[d].ch == e.ch ==> w.downloads[d].step.Over?
  }

  predicate AlwaysSole(w: World, es: seq<Event>)
    requires ValidRun(w, es)
    decreases |es|
  {
    es == [] || (Sole(w, es[0]) && AlwaysSole(Next(w, es[0]), es[1..]))
  }

  /** The chapter holds a claim on the path or has it recorded. */
  predicate Assigned(w: World, path: Path, ch: int) {
    (path in w.held && w.held[path] == ch) || (ch in w.chapters && w.chapters[ch] == path)
  }

  ghost predicate Exclusive(w: World) {
    forall path, a, b :: path != "" && Assigned(w, path, a) && Assigned(w, path, b) ==> a == b
  }

  // ------------------------------------------------ what every run keeps

  predicate Claiming(s: Step) { s.Writing? || s.Releasing? }

  /** What is true of one download at its step, whatever the others do. */
  predicate Placed(w: World, d: nat)
    requires d in w.downloads
  {
    var ch, cs := w.downloads[d].ch, w.downloads[d].candidates;
    && ch > 0 && "" !in cs
    && match w.downloads[d].step
       case Fetching => w.lock != Some(d)
       case Over => w.lock != Some(d)
       case Looking(_) => w.lock == Some(d)
       case NotHeld(i) => w.lock == Some(d) && i < |cs| && (cs[i] in w.held ==> w.held[cs[i]] == ch)
       case NotStored(i) => w.lock == Some(d) && i < |cs| && (cs[i] in w.held ==> w.held[cs[i]] == ch)
       case Writing(path) => w.lock != Some(d) && path != ""
       case Releasing(path) => w.lock != Some(d) && path != ""
  }

  /** A claim held is that of a download that has not released it yet. */
  ghost predicate HasHolder(w: World, path: Path)
    requires path in w.held
  {
    exists d :: d in w.downloads && IsHolder(w, d, path)
  }

  predicate IsHolder(w: World, d: nat, path: Path)
    requires d in w.downloads && path in w.held
  {
    var x := w.downloads[d];
    Claiming(x.step) && x.step.path == path && x.ch == w.held[path]
  }

  ghost predicate Basic(w: World) {
    && (forall c :: c in w.chapters ==> c > 0)
    && (forall d :: d in w.downloads ==> Placed(w, d))
    && (forall path :: path in w.held ==> HasHolder(w, path))
    && (w.lock.Some? ==> w.lock.value in w.downloads)
  }

  predicate Moves(e: Event) { !e.AddChapter? && !e.DropChapter? && !e.ClearPath? && !e.Restart? }

  lemma PlacedStays(w: World, e: Event, d: nat)
    requires Basic(w) && Allowed(w, e) && d in Next(w, e).downloads
    ensures Placed(Next(w, e), d)
  {
    if d in w.downloads { assert Placed(w, d); }
    if Moves(e) && e.d in w.downloads { assert Placed(w, e.d); }
    if e.Take? { assert PathAt(w, e.d, w.downloads[e.d].step.i) in w.downloads[e.d].candidates; }
  }

  lemma HolderStays(w: World, e: Event, path: Path)
    requires Basic(w) && Allowed(w, e) && path in Next(w, e).held
    ensures HasHolder(Next(w, e), path)
  {
    var w' := Next(w, e);
    if e.Take? && path == PathAt(w, e.d, w.downloads[e.d].step.i) {
      assert IsHolder(w', e.d, path);
    } else {
      assert HasHolder(w, path);
      var d :| d in w.downloads && IsHolder(w, d, path);
      assert IsHolder(w', d, path);
    }
  }

  lemma BasicStep(w: World, e: Event)
    requires Basic(w) && Allowed(w, e)
    ensures Basic(Next(w, e))
  {
    var w' := Next(w, e);
    forall d | d in w'.downloads ensures Placed(w', d) { PlacedStays(w, e, d); }
    forall path | path in w'.held ensures HasHolder(w', path) { HolderStays(w, e, path); }
    hide Placed, HasHolder;
  }

  lemma {:induction false} BasicRun(w: World, es: seq<Event>)
    requires Basic(w) && ValidRun(w, es)
    ensures Basic(After(w, es))
    decreases |es|
  {
    hide Next, Basic, Allowed;
    if es != [] {
      BasicStep(w, es[0]);
      BasicRun(Next(w, es[0]), es[1..]);
    }
  }

  // ------------------------------------- what unshared claims keep besides

  /** A claiming download holds its claim; what a download found of the store
      stays true under the lock. */
  predicate StepHolds(w: World, d: nat)
    requires d in w.downloads
  {
    var ch, cs := w.downloads[d].ch, w.downloads[d].candidates;
    match w.downloads[d].step
    case NotStored(i) => i < |cs| && FreeFor(w.held, w.chapters, ch, cs[i])
    case Writing(path) => path in w.held && w.held[path] == ch
    case Releasing(path) => path in w.held && w.held[path] == ch
    case _ => true
  }

  predicate Apart(a: Download, b: Download) { Claiming(a.step) && Claiming(b.step) ==> a.step.path != b.step.path }

  ghost predicate Inv(w: World) {
    && Basic(w)
    && Exclusive(w)
    && (forall d :: d in w.downloads ==> StepHolds(w, d))
    && (forall d, d' | d in w.downloads && d' in w.downloads && d != d' :: Apart(w.downloads[d], w.downloads[d']))
  }

  lemma StaysExclusive(w: World, e: Event)
    requires Inv(w) && Allowed(w, e)
    ensures Exclusive(Next(w, e))
  {
    var w' := Next(w, e);
    forall path, a, b | path != "" && Assigned(w', path, a) && Assigned(w', path, b) ensures a == b {
      match e {
        case Take(d) =>
          assert StepHolds(w, d);
          if path != PathAt(w, d, w.downloads[d].step.i) {
            assert Assigned(w, path, a) && Assigned(w, path, b);
          }
        case Record(d) =>
          assert StepHolds(w, d);
          assert Assigned(w, path, a) && Assigned(w, path, b);
        case _ => assert Assigned(w, path, a) && Assigned(w, path, b);
      }
    }
  }

  /** What holds of a download goes on holding while another one moves. */
  lemma OthersKeep(w: World, e: Event, d: nat)
    requires Inv(w) && Allowed(w, e) && !SharesClaim(w, e) && d in w.downloads
    requires Moves(e) ==> e.d != d
    ensures d in Next(w, e).downloads ==> StepHolds(Next(w, e), d)
  {
    assert StepHolds(w, d) && Placed(w, d);
    if e.Take? || e.Record? || e.Release? {
      assert StepHolds(w, e.d) && Placed(w, e.d);
      assert Apart(w.downloads[d], w.downloads[e.d]);
    }
  }

  /** What holds of the download that moves. */
  lemma MoverKeeps(w: World, e: Event)
    requires Inv(w) && Allowed(w, e) && Moves(e)
    ensures StepHolds(Next(w, e), e.d)
  {
    if e.d in w.downloads { assert StepHolds(w, e.d) && Placed(w, e.d); }
    if e.CheckStore? && e.owner != 0 {
      var path := PathAt(w, e.d, w.downloads[e.d].step.i);
      assert path in w.downloads[e.d].candidates;
      assert forall c :: c in w.chapters && w.chapters[c] == path ==> Assigned(w, path, c);
      assert Assigned(w, path, e.owner);
    }
  }

  lemma StayApart(w: World, e: Event, d: nat, d': nat)
    requires Inv(w) && Allowed(w, e) && !SharesClaim(w, e)
    requires d in Next(w, e).downloads && d' in Next(w, e).downloads && d != d'
    ensures Apart(Next(w, e).downloads[d], Next(w, e).downloads[d'])
  {
    if d in w.downloads { assert StepHolds(w, d); }
    if d' in w.downloads { assert StepHolds(w, d'); }
    if d in w.downloads && d' in w.downloads { assert Apart(w.downloads[d], w.downloads[d']); }
  }

  lemma StepSafe(w: World, e: Event)
    requires Inv(w) && Allowed(w, e) && !SharesClaim(w, e)
    ensures Inv(Next(w, e))
  {
    var w' := Next(w, e);
    BasicStep(w, e);
    StaysExclusive(w, e);
    forall d | d in w'.downloads ensures StepHolds(w', d) {
      if Moves(e) && e.d == d { MoverKeeps(w, e); } else { OthersKeep(w, e, d); }
    }
    forall d, d' | d in w'.downloads && d' in w'.downloads && d != d'
      ensures Apart(w'.downloads[d], w'.downloads[d'])
    {
      StayApart(w, e, d, d');
    }
    hide StepHolds, Exclusive, Basic, Apart;
  }

  lemma {:induction false} RunSafe(w: World, es: seq<Event>)
    requires Inv(w) && ValidRun(w, es) && NeverShares(w, es)
    ensures Inv(After(w, es))
    decreases |es|
  {
    hide Next, Inv, Allowed, SharesClaim;
    if es != [] {
      StepSafe(w, es[0]);
      RunSafe(Next(w, es[0]), es[1..]);
    }
  }

  /** As long as no claim is taken on a path already held, claims and recorded
      paths together give each library path to at most one chapter, in every
      state of every interleaving. */
  lemma OneChapterPerPath(es: seq<Event>, path: Path, a: int, b: int)
    requires ValidRun(START, es) && NeverShares(START, es) && path != ""
    requires Assigned(After(START, es), path, a) && Assigned(After(START, es), path, b)
    ensures a == b
  {
    RunSafe(START, es);
  }

  /** No claim outlives its downloads: in every state of every interleaving a
      path that is held is one some download of its chapter is still writing or
      about to release, so with all of them over nothing is held. */
  lemma ClaimsAreGivenUp(es: seq<Event>)
    requires ValidRun(START, es)
    ensures var w := After(START, es);
            && (forall path :: path in w.held ==>
                  exists d ::
                    && d in w.downloads && w.downloads[d].ch == w.held[path]
                    && w.downloads[d].step in {Writing(path), Releasing(path)})
            && ((forall d :: d in w.downloads ==> w.downloads[d].step.Over?) ==> w.held == map[])
  {
    BasicRun(START, es);
    var w := After(START, es);
    forall path | path in w.held
      ensures exists d ::
                && d in w.downloads && w.downloads[d].ch == w.held[path]
                && w.downloads[d].step in {Writing(path), Releasing(path)}
    {
      assert HasHolder(w, path);
      var d :| d in w.downloads && IsHolder(w, d, path);
    }
  }

  // ------------------------------------------ one download a chapter is enough

  predicate OneIsOver(a: Download, b: Download) { a.ch == b.ch ==> a.step.Over? || b.step.Over? }

  ghost predicate OneEach(w: World) {
    forall d, d' | d in w.downloads && d' in w.downloads && d != d' :: OneIsOver(w.downloads[d], w.downloads[d'])
  }

  lemma OneEachStep(w: World, e: Event)
    requires Basic(w) && OneEach(w) && Allowed(w, e) && Sole(w, e)
    ensures OneEach(Next(w, e))
  {
    var w' := Next(w, e);
    forall d, d' | d in w'.downloads && d' in w'.downloads && d != d'
      ensures OneIsOver(w'.downloads[d], w'.downloads[d'])
    {
      if d in w.downloads && d' in w.downloads { assert OneIsOver(w.downloads[d], w.downloads[d']); }
    }
  }

  lemma NotHeldYet(w: World, e: Event)
    requires Basic(w) && OneEach(w) && Allowed(w, e)
    ensures !SharesClaim(w, e)
  {
    if e.Take? {
      var path := PathAt(w, e.d, w.downloads[e.d].step.i);
      assert Placed(w, e.d);
      forall d | d in w.downloads ensures path in w.held ==> !IsHolder(w, d, path) {
        if d != e.d { assert OneIsOver(w.downloads[d], w.downloads[e.d]); }
      }
      assert path in w.held ==> HasHolder(w, path);
    }
  }

  /** With at most one running download per chapter no claim is shared, so each
      path has at most one chapter. */
  lemma {:induction false} OneDownloadSharesNothing(w: World, es: seq<Event>)
    requires Basic(w) && OneEach(w) && ValidRun(w, es) && AlwaysSole(w, es)
    ensures NeverShares(w, es)
    decreases |es|
  {
    hide Next, Basic, Allowed, OneEach, SharesClaim, Sole;
    if es != [] {
      BasicStep(w, es[0]);
      OneEachStep(w, es[0]);
      NotHeldYet(w, es[0]);
      OneDownloadSharesNothing(Next(w, es[0]), es[1..]);
    }
  }

  lemma OneDownloadOneChapter(es: seq<Event>, path: Path, a: int, b: int)
    requires ValidRun(START, es) && AlwaysSole(START, es) && path != ""
    requires Assigned(After(START, es), path, a) && Assigned(After(START, es), path, b)
    ensures a == b
  {
    OneDownloadSharesNothing(START, es);
    OneChapterPerPath(es, path, a, b);
  }

  // ----------------------------------------- a shared claim can always break

  lemma NoEvents(w: World)
    ensures ValidRun(w, []) && After(w, []) == w
  {
  }

  lemma OneEvent(w: World, e: Event)
    requires Allowed(w, e)
    ensures ValidRun(w, [e]) && After(w, [e]) == Next(w, e)
  {
    assert [e][1..] == [];
  }

  lemma {:induction false} Joined(w: World, es: seq<Event>, more: seq<Event>)
    requires ValidRun(w, es) && ValidRun(After(w, es), more)
    ensures ValidRun(w, es + more) && After(w, es + more) == After(After(w, es), more)
    decreases |es|
  {
    if es == [] {
      assert es + more == more;
    } else {
      assert (es + more)[0] == es[0] && (es + more)[1..] == es[1..] + more;
      Joined(Next(w, es[0]), es[1..], more);
    }
  }

  lemma Then(w: World, es: seq<Event>, e: Event) returns (more: seq<Event>)
    requires ValidRun(w, es) && Allowed(After(w, es), e)
    ensures ValidRun(w, more) && After(w, more) == Next(After(w, es), e)
  {
    hide Allowed, Next;
    OneEvent(After(w, es), e);
    Joined(w, es, [e]);
    more := es + [e];
  }

  /** A download begins and comes as far as taking the claim on a path free for
      its chapter. */
  lemma AboutToTake(w: World, d: nat, ch: int, path: Path) returns (es: seq<Event>)
    requires d !in w.downloads && w.lock.None? && path != "" && ch in w.chapters && 0 !in w.chapters
    requires FreeFor(w.held, w.chapters, ch, path)
    ensures ValidRun(w, es)
    ensures After(w, es) == World(w.chapters[ch := ""], w.held, Some(d),
                                  w.downloads[d := Download(ch, [path], NotStored(0))])
  {
    hide ValidRun, After;
    NoEvents(w);
    es := Then(w, [], Begin(d, ch, [path]));
    es := Then(w, es, Lock(d));
    es := Then(w, es, CheckHeld(d));
    es := Then(w, es, CheckStore(d, 0));
  }

  lemma ClaimTaken(w: World, d: nat, ch: int, path: Path) returns (es: seq<Event>)
    requires d !in w.downloads && w.lock.None? && path != "" && ch in w.chapters && 0 !in w.chapters
    requires FreeFor(w.held, w.chapters, ch, path)
    ensures ValidRun(w, es)
    ensures After(w, es) == World(w.chapters[ch := ""], w.held[path := ch], None,
                                  w.downloads[d := Download(ch, [path], Writing(path))])
  {
    hide ValidRun, After;
    es := AboutToTake(w, d, ch, path);
    es := Then(w, es, Take(d));
  }

  /** A holder lets go of a path, and its chapter has no file recorded. (The id
      of a deleted chapter may be given out again.) */
  lemma LetGo(w: World, d: nat, path: Path) returns (es: seq<Event>)
    requires w.lock.None? && d in w.downloads && path in w.held && IsHolder(w, d, path) && w.held[path] > 0
    ensures ValidRun(w, es)
    ensures After(w, es) == World(w.chapters[w.held[path] := ""], w.held - {path}, None,
                                  w.downloads[d := w.downloads[d].(step := Over)])
  {
    hide ValidRun, After;
    var ch := w.held[path];
    NoEvents(w);
    es := [];
    if w.downloads[d].step.Writing? { es := Then(w, es, RecordNothing(d)); }
    es := Then(w, es, Release(d));
    es := Then(w, es, if ch in w.chapters then ClearPath(ch) else AddChapter(ch));
  }

  /** A path that nobody holds or has recorded goes to a new chapter, and a
      download that lost its claim records it for its own. */
  lemma LostClaimRecorded(w: World, d: nat, path: Path) returns (es: seq<Event>)
    requires w.lock.None? && path != "" && path !in w.held && 0 !in w.chapters
    requires forall c :: c in w.chapters ==> w.chapters[c] != path
    requires d in w.downloads && w.downloads[d].step == Writing(path) && w.downloads[d].ch in w.chapters
    ensures ValidRun(w, es) && !Exclusive(After(w, es))
  {
    hide ValidRun, After, Exclusive;
    NoEvents(w);
    var other := Above(w.chapters.Keys);
    es := Then(w, [], AddChapter(other));
    var newcomer := Above(w.downloads.Keys);
    var claim := ClaimTaken(After(w, es), newcomer, other, path);
    Joined(w, es, claim);
    es := Then(w, es + claim, Record(d));
    BothAssigned(After(w, es), path, w.downloads[d].ch, other);
  }

  /** From any state in which two downloads of a chapter claim one path, a run
      leads to a path that belongs to two chapters. */
  lemma TwoClaimsCollide(w: World, d: nat, d0: nat, path: Path) returns (es: seq<Event>)
    requires Basic(w) && Exclusive(w) && w.lock.None? && path in w.held
    requires d in w.downloads && d0 in w.downloads && d != d0 && IsHolder(w, d0, path)
    requires w.downloads[d].step == Writing(path) && w.downloads[d].ch == w.held[path]
    ensures ValidRun(w, es) && !Exclusive(After(w, es))
  {
    assert Placed(w, d);
    assert Assigned(w, path, w.held[path]);
    assert forall c :: c in w.chapters && w.chapters[c] == path ==> Assigned(w, path, c);
    hide ValidRun, After, Placed, Exclusive;
    es := LetGo(w, d0, path);
    var more := LostClaimRecorded(After(w, es), d, path);
    Joined(w, es, more);
    es := es + more;
  }

  lemma BothAssigned(w: World, path: Path, a: int, b: int)
    requires path != "" && a != b && Assigned(w, path, a) && Assigned(w, path, b)
    ensures !Exclusive(w)
  {
  }

  /** The condition is exact: whenever, in any reachable state, a claim is taken
      on a path already held, some continuation gives a path to two chapters. */
  lemma SharedClaimBreaks(es: seq<Event>, d: nat) returns (more: seq<Event>)
    requires ValidRun(START, es) && Allowed(After(START, es), Take(d)) && SharesClaim(After(START, es), Take(d))
    ensures var w := Next(After(START, es), Take(d)); ValidRun(w, more) && !Exclusive(After(w, more))
  {
    BasicRun(START, es);
    more := ShareBreaks(After(START, es), d);
  }

  lemma ShareBreaks(w: World, d: nat) returns (more: seq<Event>)
    requires Basic(w) && Allowed(w, Take(d)) && SharesClaim(w, Take(d))
    ensures var w' := Next(w, Take(d)); ValidRun(w', more) && !Exclusive(After(w', more))
  {
    var w' := Next(w, Take(d));
    BasicStep(w, Take(d));
    var path := PathAt(w, d, w.downloads[d].step.i);
    assert Placed(w, d) && HasHolder(w, path);
    var d0 :| d0 in w.downloads && IsHolder(w, d0, path);
    if Exclusive(w') {
      assert IsHolder(w', d0, path);
      more := TwoClaimsCollide(w', d, d0, path);
    } else {
      more := [];
      NoEvents(w');
    }
  }

  /** And it can happen: nothing stops a second download of a chapter from taking
      the claim the first one holds. */
  lemma TwoDownloadsOfAChapterCollide(path: Path) returns (es: seq<Event>)
    requires path != ""
    ensures ValidRun(START, es) && !Exclusive(After(START, es))
  {
    hide ValidRun, After;
    NoEvents(START);
    es := Then(START, [], AddChapter(1));
    var claim := ClaimTaken(After(START, es), 1, 1, path);
    Joined(START, es, claim);
    es := es + claim;
    var second := AboutToTake(After(START, es), 2, 1, path);
    Joined(START, es, second);
    es := es + second;
    var more := SharedClaimBreaks(es, 2);
    es := Then(START, es, Take(2));
    Joined(START, es, more);
    es := es + more;
  }
}
