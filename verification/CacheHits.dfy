/**
 * When the display cache serves a request, told from the events of a run: which fetches leave a display that later
 * requests of the thread get without asking the server.
 */
module CacheHits {
  import opened DmTypes
  import opened DisplayCache

  /** An event of a request of thread t. */
  predicate Own(e: Event, t: ThreadId) {
    match e
    case Start(u, _, _) => u == t
    case Check(u, _) => u == t
    case Fail(u) => u == t
    case Commit(u, _) => u == t
    case _ => false
  }

  /** At event h thread t, which was idle, asked for display d; nothing has become of the request yet. */
  predicate Opens(run: seq<Timed>, h: nat, t: ThreadId, d: Id, actual: bool) {
    && h < |run| && run[h].event == Start(t, d, actual) && d != INVALID_ID
    && LocalsOf(Run(run[..h]), t).request.Idle?
    && forall k :: h < k < |run| ==> !Own(run[k].event, t)
  }

  /** The request of event h was not served from the cache at event i, and its answer came at event j. */
  predicate Fetches(run: seq<Timed>, h: nat, i: nat, j: nat, t: ThreadId, d: Id, actual: bool) {
    && i < j < |run| && Opens(run[..i], h, t, d, actual)
    && run[i].event.Check? && run[i].event.thread == t && !Hits(Run(run[..i]), t, run[i].event.expired)
    && run[j].event.Commit? && run[j].event.thread == t
    && forall k :: i < k < j ==> !Own(run[k].event, t)
  }

  /** At event k thread t stores an answer about display d. */
  predicate Stores(run: seq<Timed>, k: nat, t: ThreadId, d: Id)
    requires k < |run|
  {
    && run[k].event.Commit? && run[k].event.thread == t
    && LocalsOf(Run(run[..k]), t).request.Issued? && LocalsOf(Run(run[..k]), t).request.id == d
  }

  predicate StoresAgain(run: seq<Timed>, j: nat, t: ThreadId, d: Id) {
    exists k :: j < k < |run| && Stores(run, k, t, d)
  }

  predicate Knows(run: seq<Timed>, t: ThreadId, d: Id) {
    d in LocalsOf(Run(run), t).displays
  }

  // ---------------------------------------------------------------- what one event does

  lemma RequestStays(w: World, e: Timed, t: ThreadId)
    requires !Own(e.event, t)
    ensures LocalsOf(Step(w, e), t).request == LocalsOf(w, t).request
  {}

  lemma OwnStep(w: World, e: Timed, t: ThreadId)
    ensures var l, l' := LocalsOf(w, t), LocalsOf(Step(w, e), t);
            match e.event
            case Start(u, d, actual) =>
              u == t && l.request.Idle? && d != INVALID_ID ==> l' == l.(request := Started(d, actual, e.at))
            case Commit(u, info) =>
              u == t && l.request.Issued? ==>
                var r := l.request;
                && l'.request.Idle?
                && r.id in l'.displays && l'.displays[r.id] == Cached(info, r.issuedAt)
                && r.id in l'.tags && l'.tags[r.id] == r.target
            case _ => true
  {}

  /** A missed check asks the server; it takes over the global tag exactly if it could have used the cached display. */
  lemma MissedCheck(w: World, e: Timed, t: ThreadId)
    requires e.event.Check? && e.event.thread == t && LocalsOf(w, t).request.Started? && !Hits(w, t, e.event.expired)
    ensures var l, w' := LocalsOf(w, t), Step(w, e);
            var r := LocalsOf(w', t).request;
            && r.Issued? && r.id == l.request.id && r.issuedAt == e.at
            && if l.request.actual || l.request.id !in l.displays then r.target == l.request.target
               else r.id in w'.globalTags && w'.globalTags[r.id] == r.target
  {}

  /** Without a commit for d, or a destruction of d on the thread, the thread's own entry stays. */
  lemma EntryStays(w: World, e: Timed, t: ThreadId, d: Id)
    requires d in LocalsOf(w, t).displays && d in LocalsOf(w, t).tags
    requires e.event.Commit? && e.event.thread == t ==>
               !(LocalsOf(w, t).request.Issued? && LocalsOf(w, t).request.id == d)
    requires e.event != NotifyDestroy(t, d)
    ensures var l, l' := LocalsOf(w, t), LocalsOf(Step(w, e), t);
            && d in l'.displays && l'.displays[d] == l.displays[d]
            && d in l'.tags && l'.tags[d] == l.tags[d]
  {
    hide CheckStep;
    if e.event.Check? {
      CheckKeepsEntries(w, e.at, e.event.thread, e.event.expired, t);
    }
  }

  lemma CheckKeepsEntries(w: World, at: nat, checking: ThreadId, expired: bool, t: ThreadId)
    ensures var l, l' := LocalsOf(w, t), LocalsOf(CheckStep(w, at, checking, expired), t);
            l'.displays == l.displays && l'.tags == l.tags
  {}

  /** How the global tag of d moves. */
  lemma TagStep(w: World, e: Timed, d: Id)
    ensures var g, g' := w.globalTags, Step(w, e).globalTags;
            if e.event.NotifyDestroy? && e.event.id == d then d !in g'
            else if Notifies(e.event, d) then d in g' && g'[d] == e.at
            else if d in g then d in g' && g'[d] == g[d]
            else d in g' ==> g'[d] == 0 || g'[d] == e.at
  {}

  lemma NoEntryStays(w: World, e: Timed, t: ThreadId, d: Id)
    requires d !in LocalsOf(w, t).displays
    requires e.event.Commit? && e.event.thread == t ==>
               !(LocalsOf(w, t).request.Issued? && LocalsOf(w, t).request.id == d)
    ensures d !in LocalsOf(Step(w, e), t).displays
  {
    hide CheckStep;
    if e.event.Check? {
      CheckKeepsEntries(w, e.at, e.event.thread, e.event.expired, t);
    }
  }

  // ---------------------------------------------------------------- what a part of a run does

  lemma RunAt(run: seq<Timed>, n: nat)
    requires n < |run|
    ensures Run(run[..n + 1]) == Step(Run(run[..n]), run[n])
    ensures Increasing(run) ==> Inv(Run(run[..n])) && Run(run[..n]).now < run[n].at
    ensures Increasing(run) ==> Run(run[..n + 1]).now == run[n].at
  {
    hide Step, Inv;
    assert run[..n + 1][..n] == run[..n];
    if Increasing(run) {
      RunKeepsInv(run[..n]);
      RunKeepsInv(run[..n + 1]);
    }
  }

  lemma {:induction false} RequestSince(run: seq<Timed>, m: nat, n: nat, t: ThreadId)
    requires m <= n <= |run| && forall k :: m <= k < n ==> !Own(run[k].event, t)
    ensures LocalsOf(Run(run[..n]), t).request == LocalsOf(Run(run[..m]), t).request
    decreases n - m
  {
    hide Step, Run;
    if m < n {
      RequestSince(run, m, n - 1, t);
      RunAt(run, n - 1);
      RequestStays(Run(run[..n - 1]), run[n - 1], t);
    }
  }

  lemma {:induction false} EntrySince(run: seq<Timed>, m: nat, n: nat, t: ThreadId, d: Id)
    requires m <= n <= |run| && d in LocalsOf(Run(run[..m]), t).displays && d in LocalsOf(Run(run[..m]), t).tags
    requires forall k :: m <= k < n ==> !Stores(run, k, t, d) && run[k].event != NotifyDestroy(t, d)
    ensures var l, l' := LocalsOf(Run(run[..m]), t), LocalsOf(Run(run[..n]), t);
            && d in l'.displays && l'.displays[d] == l.displays[d]
            && d in l'.tags && l'.tags[d] == l.tags[d]
    decreases n - m
  {
    hide Step, Run;
    if m < n {
      EntrySince(run, m, n - 1, t, d);
      RunAt(run, n - 1);
      assert !Stores(run, n - 1, t, d);
      EntryStays(Run(run[..n - 1]), run[n - 1], t, d);
    }
  }

  lemma {:induction false} NoEntrySince(run: seq<Timed>, m: nat, n: nat, t: ThreadId, d: Id)
    requires m <= n <= |run| && d !in LocalsOf(Run(run[..m]), t).displays
    requires forall k :: m <= k < n ==> !Stores(run, k, t, d)
    ensures d !in LocalsOf(Run(run[..n]), t).displays
    decreases n - m
  {
    hide Step, Run;
    if m < n {
      NoEntrySince(run, m, n - 1, t, d);
      RunAt(run, n - 1);
      assert !Stores(run, n - 1, t, d);
      NoEntryStays(Run(run[..n - 1]), run[n - 1], t, d);
    }
  }

  lemma {:induction false} TagStays(run: seq<Timed>, m: nat, n: nat, d: Id)
    requires m <= n <= |run| && d in Run(run[..m]).globalTags
    requires forall k :: m <= k < n ==> !Notifies(run[k].event, d)
    ensures d in Run(run[..n]).globalTags && Run(run[..n]).globalTags[d] == Run(run[..m]).globalTags[d]
    decreases n - m
  {
    hide Step, Run;
    if m < n {
      TagStays(run, m, n - 1, d);
      RunAt(run, n - 1);
      TagStep(Run(run[..n - 1]), run[n - 1], d);
    }
  }

  /** A time that is not the global tag of d never becomes it. */
  lemma {:induction false} TagNeverIs(run: seq<Timed>, m: nat, n: nat, d: Id, time: nat)
    requires Increasing(run) && m <= n <= |run| && 0 < time <= Run(run[..m]).now
    requires d in Run(run[..m]).globalTags ==> Run(run[..m]).globalTags[d] != time
    ensures d in Run(run[..n]).globalTags ==> Run(run[..n]).globalTags[d] != time
    ensures time <= Run(run[..n]).now
    decreases n - m
  {
    hide Step, Run, Inv, Increasing;
    if m < n {
      TagNeverIs(run, m, n - 1, d, time);
      RunAt(run, n - 1);
      TagStep(Run(run[..n - 1]), run[n - 1], d);
    }
  }

  /** A notification that is no destruction sets the tag to its time; later ones, to later times. */
  lemma {:induction false} TagIsLater(run: seq<Timed>, k: nat, n: nat, d: Id)
    requires Increasing(run) && k < n <= |run| && Notifies(run[k].event, d)
    requires forall x :: k <= x < n ==> !(run[x].event.NotifyDestroy? && run[x].event.id == d)
    ensures d in Run(run[..n]).globalTags && run[k].at <= Run(run[..n]).globalTags[d]
    decreases n - k
  {
    hide Step, Run, Inv;
    RunAt(run, n - 1);
    TagStep(Run(run[..n - 1]), run[n - 1], d);
    if k < n - 1 {
      TagIsLater(run, k, n - 1, d);
    }
  }

  // ---------------------------------------------------------------- requests and fetches

  lemma OpenRequest(run: seq<Timed>, h: nat, t: ThreadId, d: Id, actual: bool)
    requires Opens(run, h, t, d, actual)
    ensures LocalsOf(Run(run), t).request == Started(d, actual, run[h].at)
  {
    hide Step, Run;
    RunAt(run, h);
    OwnStep(Run(run[..h]), run[h], t);
    RequestSince(run, h + 1, |run|, t);
    assert run[..|run|] == run;
  }

  /** What a fetch stores: the answer with the time of its check, and the global tag as it was then, or the time of
      the request if the thread had no display to be served. */
  lemma FetchStores(run: seq<Timed>, h: nat, i: nat, j: nat, t: ThreadId, d: Id, actual: bool)
    requires Fetches(run, h, i, j, t, d, actual)
    ensures var l := LocalsOf(Run(run[..j + 1]), t);
            && l.request.Idle?
            && d in l.displays && l.displays[d] == Cached(run[j].event.info, run[i].at) && d in l.tags
            && var g := Run(run[..i + 1]).globalTags;
               if actual || !Knows(run[..i], t, d) then l.tags[d] == run[h].at else d in g && g[d] == l.tags[d]
  {
    hide Step, Run, Hits;
    OpenRequest(run[..i], h, t, d, actual);
    RunAt(run, i);
    MissedCheck(Run(run[..i]), run[i], t);
    RequestSince(run, i + 1, j, t);
    RunAt(run, j);
    OwnStep(Run(run[..j]), run[j], t);
  }

  /** Events since a time are the events from its position on. */
  lemma SincePosition(run: seq<Timed>, i: nat, d: Id)
    requires Increasing(run) && i < |run| && run[i].event.Check?
    ensures NotifiedSince(run, d, run[i].at) <==> exists k :: i < k < |run| && Notifies(run[k].event, d)
    ensures DestroyedSince(run, d, run[i].at) <==>
              exists k :: i < k < |run| && run[k].event.NotifyDestroy? && run[k].event.id == d
  {
    assert forall k :: 0 <= k < |run| ==> (run[i].at <= run[k].at <==> i <= k);
  }

  /** A time of a request never equals the global tag: what the first fetch of a display stores serves nobody. */
  lemma RequestTimeIsNoTag(run: seq<Timed>, h: nat, i: nat, t: ThreadId, d: Id, actual: bool)
    requires Increasing(run) && i < |run| && Opens(run[..i], h, t, d, actual)
    ensures d in Run(run).globalTags ==> Run(run).globalTags[d] != run[h].at
  {
    hide Step, Run;
    OpenRequest(run[..i], h, t, d, actual);
    RunAt(run, i);
    assert LocalsOk(Run(run[..i]), LocalsOf(Run(run[..i]), t));
    TagNeverIs(run, i, |run|, d, run[h].at);
    assert run[..|run|] == run;
  }

  /** The tag that a later fetch stores is the global one until the next notification, and is behind it afterwards. */
  lemma FetchedTagIsGlobal(run: seq<Timed>, i: nat, d: Id, tag: nat)
    requires Increasing(run) && i < |run| && run[i].event.Check?
    requires d in Run(run[..i + 1]).globalTags && Run(run[..i + 1]).globalTags[d] == tag
    requires !DestroyedSince(run, d, run[i].at)
    ensures d in Run(run).globalTags && (Run(run).globalTags[d] == tag <==> !NotifiedSince(run, d, run[i].at))
  {
    hide Step, Run, DestroyedSince, NotifiedSince;
    SincePosition(run, i, d);
    assert run[..|run|] == run;
    if k :| i < k < |run| && Notifies(run[k].event, d) {
      TagIsLater(run, k, |run|, d);
      RunKeepsInv(run[..i + 1]);
      assert GlobalOk(Run(run[..i + 1]), d);
    } else {
      TagStays(run, i + 1, |run|, d);
    }
  }

  /** A fetched display that was not fetched again is still the thread's entry. */
  lemma FetchedEntryStays(run: seq<Timed>, h: nat, i: nat, j: nat, t: ThreadId, d: Id, actual: bool)
    requires Increasing(run) && Fetches(run, h, i, j, t, d, actual) && !StoresAgain(run, j, t, d)
    requires !DestroyedSince(run, d, run[i].at)
    ensures var l, l' := LocalsOf(Run(run), t), LocalsOf(Run(run[..j + 1]), t);
            && d in l.displays && l.displays[d] == Cached(run[j].event.info, run[i].at)
            && d in l.tags && d in l'.tags && l.tags[d] == l'.tags[d]
  {
    hide Step, Run, DestroyedSince, Opens, Increasing, Hits, Stores, Own;
    FetchStores(run, h, i, j, t, d, actual);
    NotDestroyedSince(run, i, t, d);
    EntryToEnd(run, j, t, d);
  }

  lemma EntryToEnd(run: seq<Timed>, j: nat, t: ThreadId, d: Id)
    requires j < |run| && d in LocalsOf(Run(run[..j + 1]), t).displays && d in LocalsOf(Run(run[..j + 1]), t).tags
    requires !StoresAgain(run, j, t, d) && forall k :: j < k < |run| ==> run[k].event != NotifyDestroy(t, d)
    ensures var l, l' := LocalsOf(Run(run[..j + 1]), t), LocalsOf(Run(run), t);
            && d in l'.displays && l'.displays[d] == l.displays[d]
            && d in l'.tags && l'.tags[d] == l.tags[d]
  {
    hide Run, Stores;
    EntrySince(run, j + 1, |run|, t, d);
    assert run[..|run|] == run;
  }

  lemma NotDestroyedSince(run: seq<Timed>, i: nat, t: ThreadId, d: Id)
    requires Increasing(run) && i < |run| && !DestroyedSince(run, d, run[i].at)
    ensures forall k :: i < k < |run| ==> run[k].event != NotifyDestroy(t, d)
  {}

  /**
   * When the cache serves a request. Thread t has fetched display d by the events h0, i and j, and has not stored d
   * again. In a later request for d, as long as d is not destroyed, the check is a hit exactly if the request does
   * not insist on the actual information, the cached display is not too old, the fetch did not insist either and found
   * d known to the thread, and d has not been notified since the fetch's check. The hit is on what was fetched.
   */
  lemma CacheServesExactly(run: seq<Timed>, h0: nat, i: nat, j: nat, h: nat, t: ThreadId, d: Id, insisted: bool,
                           actual: bool, expired: bool)
    requires Increasing(run) && Fetches(run, h0, i, j, t, d, insisted) && !StoresAgain(run, j, t, d)
    requires Opens(run, h, t, d, actual) && !DestroyedSince(run, d, run[i].at)
    ensures Hits(Run(run), t, expired) <==>
              !actual && !expired && !insisted && Knows(run[..i], t, d) && !NotifiedSince(run, d, run[i].at)
    ensures Knows(run, t, d) && LocalsOf(Run(run), t).displays[d] == Cached(run[j].event.info, run[i].at)
  {
    hide Step, Run, DestroyedSince, NotifiedSince, Stores;
    OpenRequest(run, h, t, d, actual);
    FetchStores(run, h0, i, j, t, d, insisted);
    FetchedEntryStays(run, h0, i, j, t, d, insisted);
    var tag := LocalsOf(Run(run), t).tags[d];
    if insisted || !Knows(run[..i], t, d) {
      RequestTimeIsNoTag(run, h0, i, t, d, insisted);
    } else {
      FetchedTagIsGlobal(run, i, d, tag);
    }
  }

  /** A request that insists on the actual information always asks the server. */
  lemma ActualRequestAsksServer(run: seq<Timed>, h: nat, t: ThreadId, d: Id, expired: bool, at: nat)
    requires Opens(run, h, t, d, true)
    ensures !Hits(Run(run), t, expired)
    ensures LocalsOf(Run(run + [Timed(at, Check(t, expired))]), t).request == Issued(d, run[h].at, at)
  {
    hide Run;
    OpenRequest(run, h, t, d, true);
    assert (run + [Timed(at, Check(t, expired))])[..|run|] == run;
    RunAt(run + [Timed(at, Check(t, expired))], |run|);
    assert (run + [Timed(at, Check(t, expired))])[..|run| + 1] == run + [Timed(at, Check(t, expired))];
    MissedCheck(Run(run), Timed(at, Check(t, expired)), t);
  }

  /** After a destruction that the thread itself was told of, only a new fetch can serve it. */
  lemma ForgottenDisplayIsFetched(run: seq<Timed>, k: nat, h: nat, t: ThreadId, d: Id, actual: bool, expired: bool)
    requires k < |run| && run[k].event == NotifyDestroy(t, d) && !StoresAgain(run, k, t, d)
    requires Opens(run, h, t, d, actual)
    ensures !Hits(Run(run), t, expired)
  {
    hide Run, Stores;
    OpenRequest(run, h, t, d, actual);
    RunAt(run, k);
    NoEntrySince(run, k + 1, |run|, t, d);
    assert run[..|run|] == run;
  }

  /** A hit ends the request; the thread can be served again. */
  lemma HitEndsRequest(run: seq<Timed>, t: ThreadId, expired: bool, at: nat)
    requires Hits(Run(run), t, expired)
    ensures var w := Run(run + [Timed(at, Check(t, expired))]);
            && LocalsOf(w, t) == LocalsOf(Run(run), t).(request := Idle)
            && w.globalTags == Run(run).globalTags
  {
    hide Run;
    var longer := run + [Timed(at, Check(t, expired))];
    assert longer[..|run|] == run && longer[..|run| + 1] == longer;
    RunAt(longer, |run|);
  }

  function ThreeRequests(t: ThreadId, d: Id, first: nat, second: nat): seq<Timed> {
    [Timed(1, Start(t, d, false)), Timed(2, Check(t, false)), Timed(3, Commit(t, first)),
     Timed(4, Start(t, d, false)), Timed(5, Check(t, false)), Timed(6, Commit(t, second)), Timed(7, Start(t, d, false))]
  }

  /** Two fetches are enough: the third of three equal requests is served what the second one fetched. */
  lemma ThirdRequestIsServed(t: ThreadId, d: Id, first: nat, second: nat)
    requires d != INVALID_ID
    ensures var run := ThreeRequests(t, d, first, second);
            && Increasing(run)
            && Hits(Run(run), t, false) && Knows(run, t, d) && LocalsOf(Run(run), t).displays[d].info == second
  {
    var run := ThreeRequests(t, d, first, second);
    SecondFetch(t, d, first, second);
    hide Run, Hits, Fetches, Stores, Knows;
    assert run[6].event == Start(t, d, false) && run[5].event == Commit(t, second);
    assert Opens(run, 6, t, d, false);
    CacheServesExactly(run, 3, 4, 5, 6, t, d, false, false, false);
  }

  lemma FirstFetch(t: ThreadId, d: Id, first: nat, second: nat)
    requires d != INVALID_ID
    ensures Fetches(ThreeRequests(t, d, first, second), 0, 1, 2, t, d, false)
    ensures !Knows(ThreeRequests(t, d, first, second)[..1], t, d)
  {
    var run := ThreeRequests(t, d, first, second);
    assert run[..0] == [] && run[..1][..0] == [];
    assert LocalsOf(Run([]), t).request.Idle?;
    RunAt(run, 0);
  }

  lemma SecondFetch(t: ThreadId, d: Id, first: nat, second: nat)
    requires d != INVALID_ID
    ensures var run := ThreeRequests(t, d, first, second);
            && Fetches(run, 3, 4, 5, t, d, false) && Knows(run[..4], t, d) && LocalsOf(Run(run[..6]), t).request.Idle?
  {
    hide Run, Step, Hits;
    var run := ThreeRequests(t, d, first, second);
    FirstFetch(t, d, first, second);
    FetchStores(run, 0, 1, 2, t, d, false);
    assert run[..4][..3] == run[..3];
    assert Opens(run[..4], 3, t, d, false);
    EntrySince(run, 3, 4, t, d);
    FirstFetchServesNobody(run[..4], t, d);
    FetchStores(run, 3, 4, 5, t, d, false);
  }

  lemma FirstFetchServesNobody(run: seq<Timed>, t: ThreadId, d: Id)
    requires Increasing(run) && |run| == 4 && Opens(run[..1], 0, t, d, false) && Opens(run, 3, t, d, false)
    requires d in LocalsOf(Run(run), t).tags && LocalsOf(Run(run), t).tags[d] == run[0].at
    ensures !Hits(Run(run), t, false)
  {
    hide Step, Run;
    OpenRequest(run, 3, t, d, false);
    RequestTimeIsNoTag(run, 0, 1, t, d, false);
  }
}
