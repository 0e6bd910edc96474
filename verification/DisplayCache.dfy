/**
 * The client's per-thread display cache (GetDisplayById) and the tags that validate it.
 *
 * A request is three atomic steps of its thread: it reads the clock, it checks the cache under the lock, and
 * after the server has answered it commits under the lock again. Other threads' steps and the notifications of
 * the server fall anywhere in between. The history fields `notified` and `destroyed` record when a display was
 * last notified; the code has no such fields and never reads them.
 */
module DisplayCache {
  import opened DmTypes

  type ThreadId = nat

  /** A cached display and the time at which the request that fetched it left the checked section. */
  datatype Cached = Cached(info: nat, issuedAt: nat)

  datatype Request =
    | Idle
    | Started(id: Id, actual: bool, target: nat)
    | Issued(id: Id, target: nat, issuedAt: nat)

  datatype Locals = Locals(displays: map<Id, Cached>, tags: map<Id, nat>, request: Request)

  datatype World = World(
    now: nat,
    globalTags: map<Id, nat>,
    locals: map<ThreadId, Locals>,
    notified: map<Id, nat>,
    destroyed: map<Id, nat>
  )

  datatype Event =
    | Start(thread: ThreadId, id: Id, actual: bool)
    | Check(thread: ThreadId, expired: bool)
    | Fail(thread: ThreadId)
    | Commit(thread: ThreadId, info: nat)
    | NotifyCreate(id: Id)
    | NotifyChange(id: Id)
    | NotifyDestroy(thread: ThreadId, id: Id)

  datatype Timed = Timed(at: nat, event: Event)

  const Init := World(0, map[], map[], map[], map[])

  function LocalsOf(w: World, t: ThreadId): Locals {
    if t in w.locals then w.locals[t] else Locals(map[], map[], Idle)
  }

  /** The cached display is returned without asking the server. */
  predicate Hits(w: World, t: ThreadId, expired: bool) {
    var l := LocalsOf(w, t);
    && l.request.Started?
    && !l.request.actual
    && l.request.id in l.displays
    && !expired
    && l.request.id in w.globalTags
    && l.request.id in l.tags
    && l.tags[l.request.id] == w.globalTags[l.request.id]
  }

  function StartStep(w: World, at: nat, t: ThreadId, id: Id, actual: bool): World {
    var l := LocalsOf(w, t);
    if id == INVALID_ID || !l.request.Idle? then w.(now := at)
    else w.(now := at, locals := w.locals[t := l.(request := Started(id, actual, at))])
  }

  /** The global tags after the checked section: a missing tag is created by CheckNeedUpdateDisplayByTag with the
      clock's value, or by `operator[]` with zero when the age test already failed. */
  function CheckedTags(w: World, at: nat, id: Id, expired: bool): (g: map<Id, nat>) {
    if id in w.globalTags then w.globalTags else w.globalTags[id := if expired then 0 else at]
  }

  function CheckStep(w: World, at: nat, t: ThreadId, expired: bool): World {
    var l := LocalsOf(w, t);
    if !l.request.Started? then w.(now := at)
    else
      var id := l.request.id;
      if id !in l.displays || l.request.actual then
        w.(now := at, locals := w.locals[t := l.(request := Issued(id, l.request.target, at))])
      else if Hits(w, t, expired) then
        w.(now := at, locals := w.locals[t := l.(request := Idle)])
      else
        var g := CheckedTags(w, at, id, expired);
        w.(now := at, globalTags := g, locals := w.locals[t := l.(request := Issued(id, g[id], at))])
  }

  function FailStep(w: World, at: nat, t: ThreadId): World {
    var l := LocalsOf(w, t);
    if !l.request.Issued? then w.(now := at)
    else w.(now := at, locals := w.locals[t := l.(request := Idle)])
  }

  function CommitStep(w: World, at: nat, t: ThreadId, info: nat): World {
    var l := LocalsOf(w, t);
    if !l.request.Issued? then w.(now := at)
    else
      var r := l.request;
      w.(now := at, locals := w.locals[t :=
        Locals(l.displays[r.id := Cached(info, r.issuedAt)], l.tags[r.id := r.target], Idle)])
  }

  function NotifyStep(w: World, at: nat, id: Id): World {
    w.(now := at, globalTags := w.globalTags[id := at], notified := w.notified[id := at])
  }

  /** Only the maps of the thread that runs the notification are cleaned. */
  function DestroyStep(w: World, at: nat, t: ThreadId, id: Id): World {
    var l := LocalsOf(w, t);
    w.(now := at, globalTags := w.globalTags - {id},
       locals := w.locals[t := l.(displays := l.displays - {id}, tags := l.tags - {id})],
       notified := w.notified[id := at], destroyed := w.destroyed[id := at])
  }

  function Step(w: World, e: Timed): World {
    match e.event
    case Start(t, id, actual) => StartStep(w, e.at, t, id, actual)
    case Check(t, expired) => CheckStep(w, e.at, t, expired)
    case Fail(t) => FailStep(w, e.at, t)
    case Commit(t, info) => CommitStep(w, e.at, t, info)
    case NotifyCreate(id) => NotifyStep(w, e.at, id)
    case NotifyChange(id) => NotifyStep(w, e.at, id)
    case NotifyDestroy(t, id) => DestroyStep(w, e.at, t, id)
  }

  function Run(run: seq<Timed>): World {
    if run == [] then Init else Step(Run(run[..|run| - 1]), run[|run| - 1])
  }

  /** A clock that is never zero and never repeats. */
  predicate Increasing(run: seq<Timed>) {
    && (forall i :: 0 <= i < |run| ==> 0 < run[i].at)
    && (forall i, j :: 0 <= i < j < |run| ==> run[i].at < run[j].at)
  }

  predicate Notifies(e: Event, d: Id) {
    match e
    case NotifyCreate(id) => id == d
    case NotifyChange(id) => id == d
    case NotifyDestroy(_, id) => id == d
    case _ => false
  }

  /** The cache's fields. `threads` holds the thread-local maps and the locals of the request in progress. */
  class DisplayManagerImpl {
    var globalDisplayTagMap: map<Id, nat>
    var threads: map<ThreadId, Locals>
    ghost var now: nat
    ghost var notified: map<Id, nat>
    ghost var destroyed: map<Id, nat>

    ghost function View(): World
      reads this
    {
      World(now, globalDisplayTagMap, threads, notified, destroyed)
    }

    constructor ()
      ensures View() == Init
    {
      globalDisplayTagMap, threads := map[], map[];
      now, notified, destroyed := 0, map[], map[];
    }

    function Thread(t: ThreadId): (l: Locals)
      reads this
      ensures l == LocalsOf(View(), t)
    {
      if t in threads then threads[t] else Locals(map[], map[], Idle)
    }

    method StartGetDisplay(t: ThreadId, id: Id, actual: bool, clock: nat) returns (started: bool)
      requires Thread(t).request.Idle?
      modifies this
      ensures View() == StartStep(old(View()), clock, t, id, actual)
      ensures started <==> id != INVALID_ID
    {
      now := clock;
      started := id != INVALID_ID;
      if started {
        threads := threads[t := Thread(t).(request := Started(id, actual, clock))];
      }
    }

    method CheckNeedUpdateDisplayByTag(t: ThreadId, id: Id, clock: nat) returns (need: bool)
      modifies this`globalDisplayTagMap
      ensures globalDisplayTagMap == CheckedTags(old(View()), clock, id, false)
      ensures need <==> !(id in old(globalDisplayTagMap) && id in Thread(t).tags
                          && Thread(t).tags[id] == old(globalDisplayTagMap)[id])
    {
      if id !in globalDisplayTagMap {
        globalDisplayTagMap := globalDisplayTagMap[id := clock];
        return true;
      }
      if id in Thread(t).tags {
        return Thread(t).tags[id] != globalDisplayTagMap[id];
      }
      return true;
    }

    method CheckCache(t: ThreadId, expired: bool, clock: nat) returns (hit: Option<Cached>)
      requires Thread(t).request.Started?
      modifies this
      ensures View() == CheckStep(old(View()), clock, t, expired)
      ensures hit == if Hits(old(View()), t, expired)
                     then Some(old(Thread(t)).displays[old(Thread(t)).request.id]) else None
    {
      now := clock;
      var l := Thread(t);
      var id, target := l.request.id, l.request.target;
      if id in l.displays && !l.request.actual {
        if !expired {
          var need := CheckNeedUpdateDisplayByTag(t, id, clock);
          if !need {
            threads := threads[t := l.(request := Idle)];
            return Some(l.displays[id]);
          }
        }
        if id !in globalDisplayTagMap {
          globalDisplayTagMap := globalDisplayTagMap[id := 0];
        }
        target := globalDisplayTagMap[id];
      }
      threads := threads[t := l.(request := Issued(id, target, clock))];
      return None;
    }

    method CommitDisplay(t: ThreadId, info: Option<nat>, clock: nat) returns (display: Option<Cached>)
      requires Thread(t).request.Issued?
      modifies this
      ensures View() == if info.None? then FailStep(old(View()), clock, t)
                        else CommitStep(old(View()), clock, t, info.value)
      ensures display == if info.None? then None else Some(Thread(t).displays[old(Thread(t)).request.id])
    {
      now := clock;
      var l := Thread(t);
      if info.None? {
        threads := threads[t := l.(request := Idle)];
        return None;
      }
      var r := l.request;
      l := l.(displays := l.displays[r.id := Cached(info.value, r.issuedAt)]);
      l := l.(tags := l.tags[r.id := r.target], request := Idle);
      threads := threads[t := l];
      return Some(l.displays[r.id]);
    }

    method NotifyDisplayChange(id: Id, clock: nat)
      modifies this
      ensures View() == NotifyStep(old(View()), clock, id)
    {
      globalDisplayTagMap := globalDisplayTagMap[id := clock];
      now, notified := clock, notified[id := clock];
    }

    method NotifyDisplayDestroy(t: ThreadId, id: Id, clock: nat)
      modifies this
      ensures View() == DestroyStep(old(View()), clock, t, id)
    {
      var l := Thread(t);
      threads := threads[t := l.(displays := l.displays - {id}, tags := l.tags - {id})];
      globalDisplayTagMap := globalDisplayTagMap - {id};
      now, notified, destroyed := clock, notified[id := clock], destroyed[id := clock];
    }
  }

  // ---------------------------------------------------------------- invariant

  /** A fetch issued at time i happened after every notification of d so far. */
  predicate After(w: World, d: Id, i: nat) {
    d in w.notified ==> w.notified[d] < i
  }

  /** A non-zero tag that equals the global one was read after the last notification. */
  predicate TagOk(w: World, d: Id, tag: nat, issuedAt: nat) {
    && tag <= w.now
    && issuedAt <= w.now
    && (tag != 0 && d in w.globalTags && w.globalTags[d] == tag ==> After(w, d, issuedAt))
  }

  predicate RequestOk(w: World, r: Request) {
    match r
    case Idle => true
    case Started(id, _, target) => 0 < target <= w.now && (id in w.globalTags ==> w.globalTags[id] != target)
    case Issued(id, target, issuedAt) => TagOk(w, id, target, issuedAt)
  }

  predicate LocalsOk(w: World, l: Locals) {
    && l.displays.Keys == l.tags.Keys
    && (forall d :: d in l.displays ==> TagOk(w, d, l.tags[d], l.displays[d].issuedAt))
    && RequestOk(w, l.request)
  }

  /** Only a destruction leaves a display without a global tag, or lets its tag become zero again. */
  predicate GlobalOk(w: World, d: Id) {
    && (d in w.globalTags ==> w.globalTags[d] <= w.now)
    && (d in w.destroyed ==> d in w.notified && w.destroyed[d] <= w.notified[d])
    && (d in w.notified ==> w.notified[d] <= w.now)
    && ((d !in w.globalTags || w.globalTags[d] == 0) && d in w.notified ==>
          d in w.destroyed && w.destroyed[d] == w.notified[d])
  }

  ghost predicate Inv(w: World) {
    && (forall t :: t in w.locals ==> LocalsOk(w, w.locals[t]))
    && (forall d :: GlobalOk(w, d))
  }

  /** How a step may move the tag of a display: not at all, away, to zero, or to the new time. */
  predicate Moves(w: World, w': World, d: Id) {
    || d !in w'.globalTags
    || w'.globalTags[d] == 0
    || w'.globalTags[d] == w'.now
    || (d in w.globalTags && w.globalTags[d] == w'.globalTags[d]
        && (d in w'.notified ==> d in w.notified && w.notified[d] == w'.notified[d]))
  }

  ghost predicate Later(w: World, w': World) {
    w.now < w'.now && forall d :: Moves(w, w', d)
  }

  lemma LocalsStayOk(w: World, w': World, l: Locals)
    requires LocalsOk(w, l) && Later(w, w')
    ensures LocalsOk(w', l)
  {
    forall d | d in l.displays ensures TagOk(w', d, l.tags[d], l.displays[d].issuedAt) {
      assert TagOk(w, d, l.tags[d], l.displays[d].issuedAt) && Moves(w, w', d);
    }
    if !l.request.Idle? {
      assert Moves(w, w', l.request.id);
    }
  }

  /** Enough for a step that changes the locals of one thread only. */
  lemma InvFrom(w: World, w': World, t: ThreadId)
    requires Inv(w) && Later(w, w')
    requires forall u :: u in w'.locals && u != t ==> u in w.locals && w'.locals[u] == w.locals[u]
    requires t in w'.locals ==> LocalsOk(w', w'.locals[t])
    requires forall d :: GlobalOk(w', d)
    ensures Inv(w')
  {
    forall u | u in w'.locals ensures LocalsOk(w', w'.locals[u]) {
      if u != t {
        LocalsStayOk(w, w', w.locals[u]);
      }
    }
  }

  lemma NotifyKeepsInv(w: World, at: nat, id: Id)
    requires Inv(w) && w.now < at
    ensures Inv(NotifyStep(w, at, id))
  {
    var w' := NotifyStep(w, at, id);
    forall d ensures GlobalOk(w', d) && Moves(w, w', d) {
      assert GlobalOk(w, d);
    }
    if 0 in w.locals {
      LocalsStayOk(w, w', w.locals[0]);
    }
    InvFrom(w, w', 0);
  }

  lemma DestroyKeepsInv(w: World, at: nat, t: ThreadId, id: Id)
    requires Inv(w) && w.now < at
    ensures Inv(DestroyStep(w, at, t, id))
  {
    var w' := DestroyStep(w, at, t, id);
    forall d ensures GlobalOk(w', d) && Moves(w, w', d) {
      assert GlobalOk(w, d);
    }
    LocalsStayOk(w, w', LocalsOf(w, t));
    assert LocalsOk(w', w'.locals[t]);
    InvFrom(w, w', t);
  }

  /** Replacing one thread's request, while the missing tag of one display may be created. */
  lemma RequestKeepsInv(w: World, at: nat, t: ThreadId, g: map<Id, nat>, r: Request)
    requires Inv(w) && w.now < at
    requires forall d :: d in w.globalTags ==> d in g && g[d] == w.globalTags[d]
    requires forall d :: d in g && d !in w.globalTags ==> g[d] == 0 || g[d] == at
    requires match r
             case Idle => true
             case Started(_, _, target) => target == at && g == w.globalTags
             case Issued(_, target, issuedAt) => issuedAt == at && target <= at
    ensures Inv(w.(now := at, globalTags := g, locals := w.locals[t := LocalsOf(w, t).(request := r)]))
  {
    var w' := w.(now := at, globalTags := g, locals := w.locals[t := LocalsOf(w, t).(request := r)]);
    forall d ensures GlobalOk(w', d) && Moves(w, w', d) {
      assert GlobalOk(w, d);
    }
    LocalsStayOk(w, w', LocalsOf(w, t));
    if !r.Idle? {
      assert GlobalOk(w, r.id);
    }
    InvFrom(w, w', t);
  }

  lemma CheckKeepsInv(w: World, at: nat, t: ThreadId, expired: bool)
    requires Inv(w) && w.now < at
    ensures Inv(CheckStep(w, at, t, expired))
  {
    var l := LocalsOf(w, t);
    if !l.request.Started? {
      TickKeepsInv(w, at);
    } else {
      var id := l.request.id;
      assert LocalsOk(w, l);
      assert GlobalOk(w, id);
      var g := CheckedTags(w, at, id, expired);
      RequestKeepsInv(w, at, t, w.globalTags, Issued(id, l.request.target, at));
      RequestKeepsInv(w, at, t, w.globalTags, Idle);
      RequestKeepsInv(w, at, t, g, Issued(id, g[id], at));
    }
  }

  lemma TickKeepsInv(w: World, at: nat)
    requires Inv(w) && w.now < at
    ensures Inv(w.(now := at))
  {
    var w' := w.(now := at);
    forall d ensures GlobalOk(w', d) && Moves(w, w', d) {
      assert GlobalOk(w, d);
    }
    if 0 in w.locals {
      LocalsStayOk(w, w', w.locals[0]);
    }
    InvFrom(w, w', 0);
  }

  lemma CommitKeepsInv(w: World, at: nat, t: ThreadId, info: nat)
    requires Inv(w) && w.now < at
    requires LocalsOf(w, t).request.Issued?
    ensures Inv(CommitStep(w, at, t, info))
  {
    var w' := CommitStep(w, at, t, info);
    forall d ensures GlobalOk(w', d) && Moves(w, w', d) {
      assert GlobalOk(w, d);
    }
    LocalsStayOk(w, w', LocalsOf(w, t));
    InvFrom(w, w', t);
  }

  lemma StepKeepsInv(w: World, e: Timed)
    requires Inv(w) && w.now < e.at
    ensures Inv(Step(w, e)) && Step(w, e).now == e.at
  {
    match e.event
    case Start(t, id, actual) =>
      TickKeepsInv(w, e.at);
      RequestKeepsInv(w, e.at, t, w.globalTags, Started(id, actual, e.at));
    case Check(t, expired) => CheckKeepsInv(w, e.at, t, expired);
    case Fail(t) =>
      TickKeepsInv(w, e.at);
      RequestKeepsInv(w, e.at, t, w.globalTags, Idle);
    case Commit(t, info) =>
      TickKeepsInv(w, e.at);
      if LocalsOf(w, t).request.Issued? {
        CommitKeepsInv(w, e.at, t, info);
      }
    case NotifyCreate(id) => NotifyKeepsInv(w, e.at, id);
    case NotifyChange(id) => NotifyKeepsInv(w, e.at, id);
    case NotifyDestroy(t, id) => DestroyKeepsInv(w, e.at, t, id);
  }

  lemma {:induction false} RunKeepsInv(run: seq<Timed>)
    requires Increasing(run)
    ensures Inv(Run(run))
    ensures Run(run).now == if run == [] then 0 else run[|run| - 1].at
  {
    if run != [] {
      RunKeepsInv(run[..|run| - 1]);
      StepKeepsInv(Run(run[..|run| - 1]), run[|run| - 1]);
    }
  }

  // ---------------------------------------------------------------- what the run's events say

  predicate NotifiedSince(run: seq<Timed>, d: Id, time: nat) {
    exists i :: 0 <= i < |run| && Notifies(run[i].event, d) && time <= run[i].at
  }

  predicate DestroyedSince(run: seq<Timed>, d: Id, time: nat) {
    exists i :: 0 <= i < |run| && run[i].event.NotifyDestroy? && run[i].event.id == d && time <= run[i].at
  }

  predicate CheckedAt(run: seq<Timed>, t: ThreadId, time: nat) {
    exists i :: 0 <= i < |run| && run[i].event.Check? && run[i].event.thread == t && run[i].at == time
  }

  predicate Committed(run: seq<Timed>, t: ThreadId, c: Cached) {
    exists i :: 0 <= i < |run| && run[i].event == Commit(t, c.info) && CheckedAt(run[..i], t, c.issuedAt)
  }

  lemma {:induction false} HistoryIsTheLastEvent(run: seq<Timed>, d: Id, time: nat)
    requires Increasing(run)
    ensures NotifiedSince(run, d, time) <==> d in Run(run).notified && time <= Run(run).notified[d]
    ensures DestroyedSince(run, d, time) <==> d in Run(run).destroyed && time <= Run(run).destroyed[d]
  {
    if run != [] {
      var n := |run| - 1;
      HistoryIsTheLastEvent(run[..n], d, time);
      RunKeepsInv(run[..n]);
      assert GlobalOk(Run(run[..n]), d);
      SinceLast(run, d, time);
      StepHistory(Run(run[..n]), run[n], d);
    }
  }

  lemma StepHistory(w: World, e: Timed, d: Id)
    ensures var w' := Step(w, e);
            && (if Notifies(e.event, d) then d in w'.notified && w'.notified[d] == e.at
                else (d in w'.notified <==> d in w.notified) &&
                     (d in w.notified ==> w'.notified[d] == w.notified[d]))
            && (if e.event.NotifyDestroy? && e.event.id == d then d in w'.destroyed && w'.destroyed[d] == e.at
                else (d in w'.destroyed <==> d in w.destroyed) &&
                     (d in w.destroyed ==> w'.destroyed[d] == w.destroyed[d]))
  {}

  lemma SinceLast(run: seq<Timed>, d: Id, time: nat)
    requires run != []
    ensures var n := |run| - 1;
            && (NotifiedSince(run, d, time) <==>
                NotifiedSince(run[..n], d, time) || (Notifies(run[n].event, d) && time <= run[n].at))
            && (DestroyedSince(run, d, time) <==>
                DestroyedSince(run[..n], d, time) ||
                (run[n].event.NotifyDestroy? && run[n].event.id == d && time <= run[n].at))
  {
    var n := |run| - 1;
    assert forall i :: 0 <= i < n ==> run[..n][i] == run[i];
  }

  lemma {:induction false} RequestsAreIssuedByChecks(run: seq<Timed>, t: ThreadId)
    ensures var r := LocalsOf(Run(run), t).request; r.Issued? ==> CheckedAt(run, t, r.issuedAt)
  {
    hide Step;
    if run != [] {
      var n := |run| - 1;
      RequestsAreIssuedByChecks(run[..n], t);
      RequestIsIssuedByCheck(Run(run[..n]), run[n], t);
      var r := LocalsOf(Run(run), t).request;
      if r.Issued? && r == LocalsOf(Run(run[..n]), t).request {
        CheckedPrefix(run, n, t, r.issuedAt);
      }
    }
  }

  lemma RequestIsIssuedByCheck(w: World, e: Timed, t: ThreadId)
    ensures var r := LocalsOf(Step(w, e), t).request;
            r.Issued? && r != LocalsOf(w, t).request ==>
              e.event.Check? && e.event.thread == t && e.at == r.issuedAt
  {
    hide CheckStep;
    if e.event.Check? {
      CheckIssues(w, e.at, e.event.thread, e.event.expired, t);
    }
  }

  lemma CheckIssues(w: World, at: nat, checking: ThreadId, expired: bool, t: ThreadId)
    ensures var r := LocalsOf(CheckStep(w, at, checking, expired), t).request;
            r.Issued? && r != LocalsOf(w, t).request ==> checking == t && at == r.issuedAt
  {}

  lemma CheckedPrefix(run: seq<Timed>, n: nat, t: ThreadId, time: nat)
    requires n <= |run| && CheckedAt(run[..n], t, time)
    ensures CheckedAt(run, t, time)
  {
    var i :| 0 <= i < n && run[..n][i].event.Check? && run[..n][i].event.thread == t && run[..n][i].at == time;
    assert run[i] == run[..n][i];
  }

  /** A cached display changes by a commit of its thread only. */
  lemma DisplaysChangeByCommit(w: World, e: Timed, t: ThreadId, d: Id)
    ensures var before, after := LocalsOf(w, t), LocalsOf(Step(w, e), t);
            d in after.displays && !(d in before.displays && before.displays[d] == after.displays[d]) ==>
              && e.event == Commit(t, after.displays[d].info)
              && before.request.Issued? && before.request.issuedAt == after.displays[d].issuedAt
  {
    hide CheckStep;
    if e.event.Check? {
      CheckKeepsDisplays(w, e.at, e.event.thread, e.event.expired, t);
    }
  }

  lemma CheckKeepsDisplays(w: World, at: nat, checking: ThreadId, expired: bool, t: ThreadId)
    ensures LocalsOf(CheckStep(w, at, checking, expired), t).displays == LocalsOf(w, t).displays
  {}

  /** Every cached display was committed by its own thread, for a fetch that the thread issued at `issuedAt`. */
  lemma {:induction false} CachedDisplaysWereFetched(run: seq<Timed>, t: ThreadId, d: Id)
    ensures var l := LocalsOf(Run(run), t); d in l.displays ==> Committed(run, t, l.displays[d])
  {
    hide Step, CheckedAt;
    if run != [] {
      var n := |run| - 1;
      DisplaysChangeByCommit(Run(run[..n]), run[n], t, d);
      var before, l := LocalsOf(Run(run[..n]), t), LocalsOf(Run(run), t);
      CachedDisplaysWereFetched(run[..n], t, d);
      if d in l.displays {
        var c := l.displays[d];
        if d in before.displays && before.displays[d] == c {
          var i :| 0 <= i < n && run[..n][i].event == Commit(t, c.info) && CheckedAt(run[..n][..i], t, c.issuedAt);
          assert run[..n][..i] == run[..i] && run[i] == run[..n][i];
        } else {
          RequestsAreIssuedByChecks(run[..n], t);
          assert run[n].event == Commit(t, c.info);
        }
      }
    }
  }

  // ---------------------------------------------------------------- coherence

  /**
   * A display returned from the cache, after any interleaving, is stale exactly when its tag is zero and the
   * display was destroyed since its fetch was issued. In particular a non-zero tag is always current.
   */
  lemma HitIsStaleExactlyAfterADestroy(run: seq<Timed>, t: ThreadId, expired: bool)
    requires Increasing(run) && Hits(Run(run), t, expired)
    ensures var l := LocalsOf(Run(run), t);
            var d := l.request.id;
            var c := l.displays[d];
            && Committed(run, t, c)
            && (NotifiedSince(run, d, c.issuedAt) <==>
                Run(run).globalTags[d] == 0 && DestroyedSince(run, d, c.issuedAt))
  {
    var w := Run(run);
    var l := LocalsOf(w, t);
    var d := l.request.id;
    var c := l.displays[d];
    RunKeepsInv(run);
    assert LocalsOk(w, l) && GlobalOk(w, d);
    assert TagOk(w, d, l.tags[d], c.issuedAt);
    HistoryIsTheLastEvent(run, d, c.issuedAt);
    CachedDisplaysWereFetched(run, t, d);
  }

  /** The coherence promise: without a destruction of the display every hit was fetched after the last notification. */
  lemma HitIsCurrentWithoutDestroy(run: seq<Timed>, t: ThreadId, expired: bool)
    requires Increasing(run) && Hits(Run(run), t, expired)
    requires forall i :: 0 <= i < |run| && run[i].event.NotifyDestroy? ==>
               run[i].event.id != LocalsOf(Run(run), t).request.id
    ensures var l := LocalsOf(Run(run), t);
            var d := l.request.id;
            var c := l.displays[d];
            && Committed(run, t, c)
            && forall i :: 0 <= i < |run| && Notifies(run[i].event, d) ==> run[i].at < c.issuedAt
  {
    HitIsStaleExactlyAfterADestroy(run, t, expired);
  }

  predicate Reaches(run: seq<Timed>, w: World) {
    Increasing(run) && w.now == |run| && Run(run) == w && (run != [] ==> run[|run| - 1].at == |run|)
  }

  lemma Extend(run: seq<Timed>, w: World, w': World, event: Event) returns (longer: seq<Timed>)
    requires Reaches(run, w) && w' == Step(w, Timed(|run| + 1, event))
    ensures longer == run + [Timed(|run| + 1, event)] && Reaches(longer, w')
  {
    longer := run + [Timed(|run| + 1, event)];
    assert longer[..|run|] == run;
    RunKeepsInv(run);
    StepKeepsInv(w, Timed(|run| + 1, event));
  }

  /** What one whole request of thread t for display 7 does, from reading the clock to the commit. */
  lemma RequestEffect(w: World, at: nat, t: ThreadId, expired: bool)
    requires LocalsOf(w, t).request == Idle
    requires 7 in LocalsOf(w, t).displays ==> expired
    ensures var l, g := LocalsOf(w, t), CheckedTags(w, 0, 7, true);
            var w' := CommitStep(CheckStep(StartStep(w, at, t, 7, false), at + 1, t, expired), at + 2, t, 0);
            && w'.locals == w.locals[t := Locals(l.displays[7 := Cached(0, at + 1)],
                                                 l.tags[7 := if 7 !in l.displays then at else g[7]], Idle)]
            && w'.globalTags == if 7 in l.displays then g else w.globalTags
  {
    var l, g := LocalsOf(w, t), CheckedTags(w, 0, 7, true);
    var w1 := StartStep(w, at, t, 7, false);
    assert LocalsOf(w1, t) == l.(request := Started(7, false, at));
    var w2 := CheckStep(w1, at + 1, t, expired);
    assert LocalsOf(w2, t) == l.(request := Issued(7, if 7 !in l.displays then at else g[7], at + 1));
    assert w2.locals == w.locals[t := LocalsOf(w2, t)];
    var w3 := CommitStep(w2, at + 2, t, 0);
    assert w3.locals == w.locals[t := LocalsOf(w3, t)];
  }

  function AfterRequest(w: World, at: nat, t: ThreadId, expired: bool): World {
    CommitStep(CheckStep(StartStep(w, at, t, 7, false), at + 1, t, expired), at + 2, t, 0)
  }

  lemma ExtendByRequest(run: seq<Timed>, w: World, t: ThreadId, expired: bool) returns (longer: seq<Timed>)
    requires Reaches(run, w)
    ensures |longer| == |run| + 3 && longer[..|run|] == run
    ensures Reaches(longer, AfterRequest(w, |run| + 1, t, expired))
  {
    var w1 := StartStep(w, |run| + 1, t, 7, false);
    longer := Extend(run, w, w1, Start(t, 7, false));
    var w2 := CheckStep(w1, |run| + 2, t, expired);
    longer := Extend(longer, w1, w2, Check(t, expired));
    longer := Extend(longer, w2, AfterRequest(w, |run| + 1, t, expired), Commit(t, 0));
  }

  lemma ExtendByRequest'(run: seq<Timed>, w: World, t: ThreadId, expired: bool) returns (longer: seq<Timed>, w': World)
    requires Reaches(run, w)
    requires LocalsOf(w, t).request == Idle
    requires 7 in LocalsOf(w, t).displays ==> expired
    ensures |longer| == |run| + 3 && longer[..|run|] == run && Reaches(longer, w')
    ensures var l, g := LocalsOf(w, t), CheckedTags(w, 0, 7, true);
            && w'.locals == w.locals[t := Locals(l.displays[7 := Cached(0, |run| + 2)],
                                                 l.tags[7 := if 7 !in l.displays then |run| + 1 else g[7]], Idle)]
            && w'.globalTags == if 7 in l.displays then g else w.globalTags
  {
    longer := ExtendByRequest(run, w, t, expired);
    w' := AfterRequest(w, |run| + 1, t, expired);
    RequestEffect(w, |run| + 1, t, expired);
  }

  /** Three requests store display 7 with a tag of zero on thread 1; then another thread runs its destruction. */
  lemma RunToDestroy() returns (run: seq<Timed>, w: World)
    ensures |run| == 10 && Reaches(run, w) && Notifies(run[9].event, 7) && run[9].at == 10
    ensures 7 !in w.globalTags && LocalsOf(w, 1) == Locals(map[7 := Cached(0, 8)], map[7 := 0], Idle)
    ensures 7 in LocalsOf(w, 3).displays && LocalsOf(w, 3).request == Idle
  {
    run, w := ExtendByRequest'([], Init, 1, false);
    run, w := ExtendByRequest'(run, w, 3, false);
    run, w := ExtendByRequest'(run, w, 1, true);    // no global tag yet: it is created as zero
    run := Extend(run, w, DestroyStep(w, 10, 2, 7), NotifyDestroy(2, 7));  // thread 1's own maps keep display 7
    w := DestroyStep(w, 10, 2, 7);
  }

  /** A run with a destruction that ends in a stale hit: the zero tag of display 7 is erased, and created again. */
  lemma DestroyCanLeaveAStaleHit() returns (run: seq<Timed>)
    ensures Increasing(run) && Hits(Run(run), 1, false)
    ensures var l := LocalsOf(Run(run), 1); NotifiedSince(run, l.request.id, l.displays[l.request.id].issuedAt)
  {
    var w: World;
    run, w := RunToDestroy();
    var changed := run;
    run, w := ExtendByRequest'(run, w, 3, true);    // and here the tag is created as zero again
    run := Extend(run, w, StartStep(w, 14, 1, 7, false), Start(1, 7, false));
    assert run[9] == changed[9];
  }
}
