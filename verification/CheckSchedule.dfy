/** Which series a sweep of the check scheduler takes
    (internal/app/scheduler.go, internal/store/store.go), and that none that is
    due waits for ever. Times are in seconds. */
module CheckSchedule {
  import opened Options
  import opened Sets

  /** A followed or unfollowed series and when it was last checked. */
  datatype Series = Series(subscribed: bool, checkedAt: Option<int>)

  type Library = map<int, Series>

  predicate Due(s: Series, now: int, interval: nat) {
    s.subscribed && (s.checkedAt.None? || s.checkedAt.value < now - interval)
  }

  function DueIds(lib: Library, now: int, interval: nat): set<int> {
    set id | id in lib && Due(lib[id], now, interval)
  }

  /** The order checks are taken in: never checked first, then oldest first. */
  predicate NoLater(a: Option<int>, b: Option<int>) { a.None? || (b.Some? && a.value <= b.value) }

  /** What SeriesDueForCheck may answer: the first `limit` of the due series in
      check order, those checked at the same time in any order. */
  ghost predicate IsBatch(lib: Library, now: int, interval: nat, limit: nat, picked: seq<int>) {
    var due := DueIds(lib, now, interval);
    && |picked| == (if limit < |due| then limit else |due|)
    && (forall i :: 0 <= i < |picked| ==> picked[i] in due)
    && (forall i, j :: 0 <= i < j < |picked| ==>
          picked[i] != picked[j] && NoLater(lib[picked[i]].checkedAt, lib[picked[j]].checkedAt))
    && (forall i, w :: 0 <= i < |picked| && w in due && w !in picked ==>
          NoLater(lib[picked[i]].checkedAt, lib[w].checkedAt))
  }

  lemma EarliestExists(lib: Library, s: set<int>) returns (id: int)
    requires s != {} && s <= lib.Keys
    ensures id in s && forall x :: x in s ==> NoLater(lib[id].checkedAt, lib[x].checkedAt)
  {
    Inhabited(s);
    var x :| x in s;
    var rest := s - {x};
    if rest == {} {
      id := x;
      assert s == {x};
    } else {
      var y := EarliestExists(lib, rest);
      id := if NoLater(lib[x].checkedAt, lib[y].checkedAt) then x else y;
      assert forall z :: z in s ==> z == x || z in rest;
    }
  }

  method SeriesDueForCheck(lib: Library, now: int, interval: nat, limit: nat) returns (picked: seq<int>)
    ensures IsBatch(lib, now, interval, limit, picked)
  {
    var left := set id | id in lib && Due(lib[id], now, interval);
    ghost var due := left;
    assert due == DueIds(lib, now, interval);
    picked := [];
    while |picked| < limit && left != {}
      invariant left <= due <= lib.Keys && |picked| <= limit && |picked| + |left| == |due|
      invariant forall id :: id in due <==> id in left || id in picked
      invariant forall i :: 0 <= i < |picked| ==> picked[i] in due && picked[i] !in left
      invariant forall i, j :: 0 <= i < j < |picked| ==>
                  picked[i] != picked[j] && NoLater(lib[picked[i]].checkedAt, lib[picked[j]].checkedAt)
      invariant forall i, w :: 0 <= i < |picked| && w in left ==> NoLater(lib[picked[i]].checkedAt, lib[w].checkedAt)
      decreases |left|
    {
      ghost var first := EarliestExists(lib, left);
      var id :| id in left && forall x :: x in left ==> NoLater(lib[id].checkedAt, lib[x].checkedAt);
      picked := picked + [id];
      left := left - {id};
    }
  }

  /** What may happen between a sweep and the next: every check it queued has
      ended, those in `failed` by failing, which leaves the time of the last
      check alone; another series may be checked too, unfollowed or removed, but
      none is added. */
  ghost predicate Between(lib: Library, now: int, picked: seq<int>, failed: set<int>, lib': Library) {
    && lib'.Keys <= lib.Keys
    && forall id :: id in lib' ==>
         if id in picked && id !in failed then Checked(lib'[id], now)
         else lib'[id] == lib[id] || Checked(lib'[id], now) || !lib'[id].subscribed
  }

  predicate Checked(s: Series, now: int) { s.checkedAt.Some? && s.checkedAt.value >= now }

  /** The due series no later in check order than w. */
  function Ahead(lib: Library, now: int, interval: nat, w: int): set<int>
    requires w in lib
  {
    set id | id in lib && Due(lib[id], now, interval) && NoLater(lib[id].checkedAt, lib[w].checkedAt)
  }

  function Members(picked: seq<int>): set<int> { set id | id in picked }

  lemma {:induction false} MembersSize(picked: seq<int>)
    requires forall i, j :: 0 <= i < j < |picked| ==> picked[i] != picked[j]
    ensures |Members(picked)| == |picked|
  {
    if picked != [] {
      var n := |picked| - 1;
      MembersSize(picked[..n]);
      assert Members(picked) == Members(picked[..n]) + {picked[n]};
    }
  }

  /** A sweep that leaves a due series waiting takes a full batch of those ahead
      of it; but for those whose check fails they are gone from there by the
      next, and no other ever gets ahead of it. */
  lemma SweepDrains(lib: Library, now: int, interval: nat, limit: nat, picked: seq<int>, failed: set<int>,
                    lib': Library, now': int, w: int)
    requires IsBatch(lib, now, interval, limit, picked) && Between(lib, now, picked, failed, lib')
    requires w in DueIds(lib, now, interval) && w !in picked && w in lib' && lib'[w] == lib[w]
    requires now <= now'
    ensures w in Ahead(lib', now', interval, w)
    ensures Ahead(lib', now', interval, w) <= Ahead(lib, now, interval, w) - (Members(picked) - failed)
    ensures |Ahead(lib', now', interval, w)| + limit <= |Ahead(lib, now, interval, w)| + |failed|
  {
    var ahead, ahead', taken := Ahead(lib, now, interval, w), Ahead(lib', now', interval, w), Members(picked);
    var due := DueIds(lib, now, interval);
    MembersSize(picked);
    assert taken <= ahead;
    assert ahead' <= ahead - (taken - failed) by {
      forall id | id in ahead' ensures id in ahead && id !in taken - failed {
        assert id in lib && id in lib';
      }
    }
    assert |picked| == limit by {
      assert taken <= due - {w};
      Smaller(taken, due - {w});
    }
    Difference(taken, failed);
    assert |ahead - (taken - failed)| == |ahead| - |taken - failed|;
    Smaller(ahead', ahead - (taken - failed));
  }

  lemma Difference(a: set<int>, b: set<int>)
    ensures |a - b| + |b| >= |a|
  {
    Smaller(a, (a - b) + b);
  }

  /** A sweep: when it ran, what it took, which checks failed, and the library by
      the next one. */
  datatype Sweep = Sweep(now: int, picked: seq<int>, failed: set<int>, after: Library)

  /** Sweeps in order, at most `fails` of each one's checks failing, with w left
      alone until one takes it. */
  ghost predicate Sweeps(lib: Library, interval: nat, limit: nat, fails: nat, w: int, sweeps: seq<Sweep>)
    decreases |sweeps|
  {
    sweeps != [] ==>
      var s := sweeps[0];
      && IsBatch(lib, s.now, interval, limit, s.picked)
      && Between(lib, s.now, s.picked, s.failed, s.after) && |s.failed| <= fails
      && (w !in s.picked && w in lib ==> w in s.after && s.after[w] == lib[w])
      && (|sweeps| > 1 ==> s.now <= sweeps[1].now)
      && Sweeps(s.after, interval, limit, fails, w, sweeps[1..])
  }

  /** A due series is taken within as many sweeps as what a batch has left, when
      as many checks as can fail have failed, covers the series ahead of it. */
  lemma {:induction false} TakenInTime(lib: Library, interval: nat, limit: nat, fails: nat, w: int, sweeps: seq<Sweep>)
    returns (k: nat)
    requires sweeps != [] && Sweeps(lib, interval, limit, fails, w, sweeps)
    requires w in lib && lib[w].subscribed
    requires lib[w].checkedAt.None? || lib[w].checkedAt.value < sweeps[0].now - interval
    requires |sweeps| * (limit - fails) >= |Ahead(lib, sweeps[0].now, interval, w)|
    ensures k < |sweeps| && w in sweeps[k].picked
    ensures forall j :: 0 <= j < k ==> w !in sweeps[j].picked
    decreases |sweeps|
  {
    k := 0;
    var s := sweeps[0];
    if w !in s.picked {
      var next := if |sweeps| > 1 then sweeps[1].now else s.now;
      SweepDrains(lib, s.now, interval, limit, s.picked, s.failed, s.after, next, w);
      Smaller({w}, Ahead(s.after, next, interval, w));
      if |sweeps| == 1 {
        assert false;
      } else {
        assert |sweeps| * (limit - fails) == |sweeps[1..]| * (limit - fails) + (limit - fails);
        var j := TakenInTime(s.after, interval, limit, fails, w, sweeps[1..]);
        k := j + 1;
      }
    }
  }

  /** Only followed series are taken, and only those never checked or not for
      longer than the interval; so one that was checked is taken again only once
      the interval has passed. */
  lemma NotTooOften(lib: Library, now: int, interval: nat, limit: nat, picked: seq<int>, failed: set<int>,
                    lib': Library, now': int, picked': seq<int>, id: int)
    requires IsBatch(lib, now, interval, limit, picked) && Between(lib, now, picked, failed, lib')
    requires IsBatch(lib', now', interval, limit, picked')
    ensures id in picked ==>
              && id in lib && lib[id].subscribed
              && (lib[id].checkedAt.Some? ==> now - lib[id].checkedAt.value > interval)
    ensures id in picked && id !in failed && id in picked' ==> now' - now > interval
  {
    if id in picked {
      var i :| 0 <= i < |picked| && picked[i] == id;
    }
    if id in picked' {
      var i :| 0 <= i < |picked'| && picked'[i] == id;
    }
  }

  /** Series that are due, come strictly before w, and never get checked: their
      checks fail, every one. */
  ghost predicate Stuck(lib: Library, now: int, interval: nat, w: int, stuck: set<int>) {
    && w in lib && stuck <= DueIds(lib, now, interval)
    && forall x :: x in stuck ==> !NoLater(lib[w].checkedAt, lib[x].checkedAt)
  }

  ghost predicate StuckSweeps(lib: Library, interval: nat, limit: nat, w: int, stuck: set<int>, sweeps: seq<Sweep>)
    decreases |sweeps|
  {
    sweeps != [] ==>
      var s := sweeps[0];
      && IsBatch(lib, s.now, interval, limit, s.picked)
      && w in s.after && (w !in s.picked ==> w in lib && s.after[w] == lib[w])
      && (forall x :: x in stuck ==> x in lib && x in s.after && s.after[x] == lib[x])
      && (|sweeps| > 1 ==> s.now <= sweeps[1].now)
      && StuckSweeps(s.after, interval, limit, w, stuck, sweeps[1..])
  }

  lemma NotTaken(lib: Library, now: int, interval: nat, limit: nat, picked: seq<int>, w: int, stuck: set<int>)
    requires IsBatch(lib, now, interval, limit, picked) && Stuck(lib, now, interval, w, stuck) && |stuck| >= limit
    ensures w !in picked
  {
    if w in picked {
      var i :| 0 <= i < |picked| && picked[i] == w;
      forall x | x in stuck ensures x in Members(picked) - {w} {
        assert x in DueIds(lib, now, interval) && !NoLater(lib[picked[i]].checkedAt, lib[x].checkedAt);
      }
      MembersSize(picked);
      Smaller(stuck, Members(picked) - {w});
      assert false;
    }
  }

  /** The bound is sharp: as many failing series as a batch holds, strictly ahead
      of w, and w is never taken. */
  lemma {:induction false} NeverTaken(lib: Library, interval: nat, limit: nat, w: int, stuck: set<int>,
                                      sweeps: seq<Sweep>)
    requires sweeps != [] ==> Stuck(lib, sweeps[0].now, interval, w, stuck)
    requires StuckSweeps(lib, interval, limit, w, stuck, sweeps) && |stuck| >= limit
    ensures forall j :: 0 <= j < |sweeps| ==> w !in sweeps[j].picked
    decreases |sweeps|
  {
    if sweeps != [] {
      var s := sweeps[0];
      NotTaken(lib, s.now, interval, limit, s.picked, w, stuck);
      if |sweeps| > 1 {
        forall x | x in stuck ensures x in DueIds(s.after, sweeps[1].now, interval) {
          assert x in DueIds(lib, s.now, interval) && s.after[x] == lib[x];
        }
      }
      NeverTaken(s.after, interval, limit, w, stuck, sweeps[1..]);
    }
  }
}
