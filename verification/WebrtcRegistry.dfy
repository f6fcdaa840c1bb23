// The WebRTC registry on values: requests routed to hubs by key, items created, started and
// completed by their goroutines, in any interleaving; and what every run keeps.
module WebrtcRegistry {
  import opened Base

  datatype Action = CameraVideoSave | CameraVideoStream | ChannelsSession | StorageVideoStream | Unknown

  // I identifies an item: a number in runs, an object in the server.
  datatype Hub<I> = Hub(count: u64, stack: map<u64, I>)

  datatype Outcome = Existing | Created | Refused

  // wr.I starts here; the keys at or below it are never issued.
  const FIRST_KEY: u64 := 1000

  /* ---- atomic pieces ---- */

  function Decrement(x: u64): u64 {
    (x - 1) % TWO_64
  }

  function Started<I>(h: Hub<I>): Hub<I> {
    h.(count := Increment(h.count))
  }

  // The mutexed part of complete().
  function Completed<I>(h: Hub<I>, key: u64): Hub<I> {
    h.(count := Decrement(h.count), stack := h.stack - {key})
  }

  // RunHub's switch: a camera viewer ("action.get") only joins an existing item, every other
  // request finds its item or creates it.
  function Handled<I>(h: Hub<I>, key: u64, action: Action, get: bool, item: I): (Hub<I>, Outcome) {
    if key in h.stack then (h, Existing)
    else if action == CameraVideoStream && get then (h, Refused)
    else (h.(stack := h.stack[key := item]), Created)
  }

  // item.run() starts a goroutine for every action it knows.
  predicate IsKnown(action: Action) {
    action != Unknown
  }

  predicate LiveIn<I>(hubs: map<u64, Hub<I>>, h: u64, key: u64) {
    h in hubs && key in hubs[h].stack
  }

  predicate Live<I>(hubs: map<u64, Hub<I>>, key: u64) {
    exists h :: LiveIn(hubs, h, key)
  }

  // WebrtHubByObj: a positive key that is live goes to a hub where it lives; any other key is
  // overwritten by a fresh one and goes to some hub.
  predicate Routed<I>(i: u64, hubs: map<u64, Hub<I>>, key: u64, i': u64, key': u64, hub: u64) {
    if key > 0 && Live(hubs, key)
    then LiveIn(hubs, hub, key) && i' == i && key' == key
    else hub in hubs && i' == Increment(i) && key' == i'
  }

  // Routing looks at keys only, not at what an item is.
  predicate SameKeys<I, J>(hubs: map<u64, Hub<I>>, hubs': map<u64, Hub<J>>) {
    hubs.Keys == hubs'.Keys && forall h :: h in hubs ==> hubs[h].stack.Keys == hubs'[h].stack.Keys
  }

  lemma SameRouting<I, J>(hubs: map<u64, Hub<I>>, hubs': map<u64, Hub<J>>, i: u64, key: u64, i': u64, key': u64, hub: u64)
    requires SameKeys(hubs, hubs') && Routed(i, hubs, key, i', key', hub)
    ensures Routed(i, hubs', key, i', key', hub)
  {
    assert forall h: u64, k: u64 :: LiveIn(hubs, h, k) <==> LiveIn(hubs', h, k);
  }

  /* ---- runs ---- */

  datatype Phase = Idle | Spawned | Running | Done

  datatype Item = Item(hub: u64, key: u64, phase: Phase)

  // A request between WebrtHubByObj and the hub loop. `issued`: its key was issued to it.
  datatype Request = Request(hub: u64, key: u64, action: Action, get: bool, issued: bool)

  // `home` records, for the proofs only, which hub each issued key was sent to.
  datatype State = State(i: u64, hubs: map<u64, Hub<nat>>, items: seq<Item>,
                         waiting: map<nat, Request>, requests: nat, home: map<u64, u64>)

  datatype Event =
    | Submit(key: u64, action: Action, get: bool, hub: u64)
    | Handle(request: nat)
    | Start(item: nat)
    | Complete(item: nat)

  function NewState(hubKeys: set<u64>): State {
    State(FIRST_KEY, map h | h in hubKeys :: Hub(0, map[]), [], map[], 0, map[])
  }

  // The key a submitted request ends up with, and the new wr.I.
  function KeyGiven(s: State, key: u64): u64 {
    if key > 0 && Live(s.hubs, key) then key else Increment(s.i)
  }

  predicate Enabled(s: State, e: Event) {
    match e
    case Submit(key, _, _, hub) =>
      Routed(s.i, s.hubs, key, if key > 0 && Live(s.hubs, key) then s.i else Increment(s.i), KeyGiven(s, key), hub)
    case Handle(r) => r in s.waiting && s.waiting[r].hub in s.hubs
    case Start(id) => id < |s.items| && s.items[id].phase == Spawned && s.items[id].hub in s.hubs
    case Complete(id) => id < |s.items| && s.items[id].phase == Running && s.items[id].hub in s.hubs
  }

  // An event that is not enabled changes nothing, so every sequence of events is a run.
  function Step(s: State, e: Event): State
  {
    if !Enabled(s, e) then s else
    match e
    case Submit(key, action, get, hub) =>
      var issue := !(key > 0 && Live(s.hubs, key));
      var r := Request(hub, KeyGiven(s, key), action, get, issue);
      s.(i := if issue then Increment(s.i) else s.i, waiting := s.waiting[s.requests := r],
         requests := s.requests + 1, home := if issue then s.home[r.key := hub] else s.home)
    case Handle(n) =>
      var r := s.waiting[n];
      var (h, outcome) := Handled(s.hubs[r.hub], r.key, r.action, r.get, |s.items|);
      var s' := s.(waiting := s.waiting - {n}, hubs := s.hubs[r.hub := h]);
      if outcome == Created
      then s'.(items := s.items + [Item(r.hub, r.key, if IsKnown(r.action) then Spawned else Idle)])
      else s'
    case Start(id) =>
      var it := s.items[id];
      s.(hubs := s.hubs[it.hub := Started(s.hubs[it.hub])], items := s.items[id := it.(phase := Running)])
    case Complete(id) =>
      var it := s.items[id];
      s.(hubs := s.hubs[it.hub := Completed(s.hubs[it.hub], it.key)], items := s.items[id := it.(phase := Done)])
  }

  // What WebrtHubByObj decides is what the submission step does.
  lemma RoutedIsSubmitted(s: State, e: Event, i': u64, key': u64)
    requires e.Submit? && Routed(s.i, s.hubs, e.key, i', key', e.hub)
    ensures Enabled(s, e) && Step(s, e).i == i'
    ensures var q := Step(s, e).waiting[s.requests];
      q.hub == e.hub && q.key == key' && q.action == e.action && q.get == e.get
  {
  }

  function Exec(hubKeys: set<u64>, run: seq<Event>): State {
    if run == [] then NewState(hubKeys) else Step(Exec(hubKeys, run[..|run| - 1]), run[|run| - 1])
  }

  // Short enough that wr.I has not wrapped.
  predicate NoWrap(run: seq<Event>) {
    |run| < TWO_64 - FIRST_KEY
  }

  // How many items of hub h are between start() and complete().
  function RunningIn(items: seq<Item>, h: u64): (n: nat)
    ensures n <= |items|
  {
    if items == [] then 0
    else
      var last := items[|items| - 1];
      RunningIn(items[..|items| - 1], h) + if last.hub == h && last.phase == Running then 1 else 0
  }

  // Every live key was issued, lives in its home hub, and its entry is an uncompleted item.
  predicate StacksHome(s: State) {
    forall h, k :: LiveIn(s.hubs, h, k) ==>
      && k in s.home && s.home[k] == h
      && var id := s.hubs[h].stack[k]; id < |s.items| && s.items[id] == Item(h, k, s.items[id].phase) && s.items[id].phase != Done
  }

  // Every uncompleted item is exactly the value stored under its key.
  predicate ItemsStored(s: State) {
    forall id :: 0 <= id < |s.items| && s.items[id].phase != Done ==>
      var it := s.items[id]; LiveIn(s.hubs, it.hub, it.key) && s.hubs[it.hub].stack[it.key] == id
  }

  // Every waiting request is addressed to the home of its key.
  predicate WaitingHome(s: State) {
    forall r :: r in s.waiting ==>
      && r < s.requests && s.waiting[r].hub in s.hubs
      && s.waiting[r].key in s.home && s.home[s.waiting[r].key] == s.waiting[r].hub
  }

  predicate HomesIssued(s: State) {
    FIRST_KEY <= s.i && forall k :: k in s.home ==> FIRST_KEY < k <= s.i
  }

  predicate CountsRunning(s: State) {
    forall h :: h in s.hubs ==> s.hubs[h].count == RunningIn(s.items, h)
  }

  // A request that was issued its key is, until handled, the only one that knows it.
  predicate IssuedAlone(s: State) {
    forall r :: r in s.waiting && s.waiting[r].issued ==>
      && (forall h :: !LiveIn(s.hubs, h, s.waiting[r].key))
      && (forall q :: q in s.waiting && s.waiting[q].key == s.waiting[r].key ==> q == r)
  }

  predicate TablesInv(s: State) {
    StacksHome(s) && ItemsStored(s) && WaitingHome(s) && HomesIssued(s) && IssuedAlone(s)
  }

  predicate Inv(s: State) {
    TablesInv(s) && CountsRunning(s)
  }

  lemma {:induction false} RunningAfterAppend(items: seq<Item>, it: Item, h: u64)
    ensures RunningIn(items + [it], h) == RunningIn(items, h) + if it.hub == h && it.phase == Running then 1 else 0
  {
    assert (items + [it])[..|items|] == items;
  }

  lemma {:induction false} RunningAfterUpdate(items: seq<Item>, id: nat, it: Item, h: u64)
    requires id < |items|
    ensures RunningIn(items[id := it], h) == RunningIn(items, h)
      - (if items[id].hub == h && items[id].phase == Running then 1 else 0)
      + (if it.hub == h && it.phase == Running then 1 else 0)
  {
    var n := |items| - 1;
    if id == n {
      assert items[id := it][..n] == items[..n];
    } else {
      RunningAfterUpdate(items[..n], id, it, h);
      assert items[id := it][..n] == items[..n][id := it];
    }
  }

  lemma SubmitKeeps(s: State, e: Event)
    requires Inv(s) && e.Submit? && Enabled(s, e) && s.i < TWO_64 - 1
    ensures Inv(Step(s, e)) && s.i <= Step(s, e).i <= s.i + 1
  {
    if e.key > 0 && Live(s.hubs, e.key) {
      assert LiveIn(s.hubs, e.hub, e.key);
      JoinKeeps(s, Step(s, e), Request(e.hub, e.key, e.action, e.get, false));
    } else {
      IssueKeeps(s, Step(s, e), Request(e.hub, s.i + 1, e.action, e.get, true));
    }
  }

  // A request for a live key.
  lemma JoinKeeps(s: State, s': State, r: Request)
    requires Inv(s) && LiveIn(s.hubs, r.hub, r.key) && !r.issued
    requires s' == s.(waiting := s.waiting[s.requests := r], requests := s.requests + 1)
    ensures Inv(s')
  {
    assert forall q :: q in s.waiting ==> s'.waiting[q] == s.waiting[q] && q != s.requests;
  }

  // A request that is issued the next key.
  lemma IssueKeeps(s: State, s': State, r: Request)
    requires Inv(s) && s.i < TWO_64 - 1 && r.hub in s.hubs && r.key == s.i + 1 && r.issued
    requires s' == s.(i := r.key, waiting := s.waiting[s.requests := r], requests := s.requests + 1,
                      home := s.home[r.key := r.hub])
    ensures Inv(s')
  {
    assert forall q :: q in s.waiting ==> s'.waiting[q] == s.waiting[q] && q != s.requests;
  }

  lemma HandleKeeps(s: State, e: Event)
    requires Inv(s) && e.Handle? && Enabled(s, e)
    ensures Inv(Step(s, e)) && Step(s, e).i == s.i && |Step(s, e).items| <= |s.items| + 1
  {
    var r := s.waiting[e.request];
    var (h, outcome) := Handled(s.hubs[r.hub], r.key, r.action, r.get, |s.items|);
    if outcome == Created {
      CreateKeeps(s, e);
    } else {
      assert s.hubs[r.hub := h] == s.hubs;
    }
  }

  lemma CreateKeeps(s: State, e: Event)
    requires Inv(s) && e.Handle? && Enabled(s, e) && Creating(s.hubs, s.waiting[e.request])
    ensures Inv(Step(s, e))
  {
    CreateKeepsTables(s, e);
    var r, s' := s.waiting[e.request], Step(s, e);
    forall h | h in s'.hubs ensures s'.hubs[h].count == RunningIn(s'.items, h) {
      RunningAfterAppend(s.items, Item(r.hub, r.key, if IsKnown(r.action) then Spawned else Idle), h);
    }
  }

  predicate Creating(hubs: map<u64, Hub<nat>>, r: Request) {
    r.hub in hubs && r.key !in hubs[r.hub].stack && !(r.action == CameraVideoStream && r.get)
  }

  lemma CreateKeepsTables(s: State, e: Event)
    requires TablesInv(s) && e.Handle? && Enabled(s, e) && Creating(s.hubs, s.waiting[e.request])
    ensures TablesInv(Step(s, e))
  {
    var r, s' := s.waiting[e.request], Step(s, e);
    assert forall h, k :: LiveIn(s'.hubs, h, k) <==> LiveIn(s.hubs, h, k) || (h == r.hub && k == r.key);
  }

  lemma StartKeeps(s: State, e: Event)
    requires Inv(s) && e.Start? && Enabled(s, e) && |s.items| < TWO_64
    ensures Inv(Step(s, e)) && Step(s, e).i == s.i
  {
    StartKeepsTables(s, e);
    StartKeepsCounts(s, e);
  }

  lemma StartKeepsCounts(s: State, e: Event)
    requires CountsRunning(s) && e.Start? && Enabled(s, e) && |s.items| < TWO_64
    ensures CountsRunning(Step(s, e))
  {
    var it, s' := s.items[e.item], Step(s, e);
    forall h | h in s'.hubs ensures s'.hubs[h].count == RunningIn(s'.items, h) {
      RunningAfterUpdate(s.items, e.item, it.(phase := Running), h);
    }
  }

  lemma StartKeepsTables(s: State, e: Event)
    requires TablesInv(s) && e.Start? && Enabled(s, e)
    ensures TablesInv(Step(s, e))
  {
    var s' := Step(s, e);
    assert forall h, k :: LiveIn(s'.hubs, h, k) <==> LiveIn(s.hubs, h, k);
  }

  lemma CompleteKeeps(s: State, e: Event)
    requires Inv(s) && e.Complete? && Enabled(s, e)
    ensures Inv(Step(s, e)) && Step(s, e).i == s.i
  {
    CompleteKeepsTables(s, e);
    CompleteKeepsCounts(s, e);
  }

  lemma CompleteKeepsCounts(s: State, e: Event)
    requires CountsRunning(s) && e.Complete? && Enabled(s, e)
    ensures CountsRunning(Step(s, e))
  {
    var it, s' := s.items[e.item], Step(s, e);
    RunningAtLeastOne(s.items, e.item);
    forall h | h in s'.hubs ensures s'.hubs[h].count == RunningIn(s'.items, h) {
      RunningAfterUpdate(s.items, e.item, it.(phase := Done), h);
    }
  }

  lemma CompleteKeepsTables(s: State, e: Event)
    requires TablesInv(s) && e.Complete? && Enabled(s, e)
    ensures TablesInv(Step(s, e))
  {
    var it, s' := s.items[e.item], Step(s, e);
    assert forall h, k :: LiveIn(s'.hubs, h, k) <==> LiveIn(s.hubs, h, k) && !(h == it.hub && k == it.key);
  }

  lemma {:induction false} RunningAtLeastOne(items: seq<Item>, id: nat)
    requires id < |items| && items[id].phase == Running
    ensures RunningIn(items, items[id].hub) >= 1
  {
    if id == |items| - 1 {
    } else {
      RunningAtLeastOne(items[..|items| - 1], id);
    }
  }

  lemma {:induction false} EveryRunKeepsInv(hubKeys: set<u64>, run: seq<Event>)
    requires NoWrap(run)
    ensures var s := Exec(hubKeys, run);
      Inv(s) && s.hubs.Keys == hubKeys && s.i <= FIRST_KEY + |run| && |s.items| <= |run|
  {
    if run == [] {
    } else {
      var before, e := run[..|run| - 1], run[|run| - 1];
      EveryRunKeepsInv(hubKeys, before);
      var s := Exec(hubKeys, before);
      if Enabled(s, e) {
        match e
        case Submit(_, _, _, _) => SubmitKeeps(s, e);
        case Handle(_) => HandleKeeps(s, e);
        case Start(_) => StartKeeps(s, e);
        case Complete(_) => CompleteKeeps(s, e);
      }
    }
  }

  /* ---- what every run keeps ---- */

  // The submissions so far that were issued a key: those whose own key was not live.
  function Issues(hubKeys: set<u64>, run: seq<Event>): nat {
    if run == [] then 0
    else
      var before, e := run[..|run| - 1], run[|run| - 1];
      Issues(hubKeys, before) + if IssuesAt(hubKeys, before, e) then 1 else 0
  }

  predicate IssuesAt(hubKeys: set<u64>, before: seq<Event>, e: Event) {
    e.Submit? && e.hub in hubKeys && !(e.key > 0 && Live(Exec(hubKeys, before).hubs, e.key))
  }

  // The n-th key issued is 1000 + n: wr.I counts from 1000.
  lemma {:induction false} KeysAreNumbered(hubKeys: set<u64>, run: seq<Event>)
    requires NoWrap(run)
    ensures Exec(hubKeys, run).i == 1000 + Issues(hubKeys, run)
    ensures Issues(hubKeys, run) <= |run|
  {
    if run == [] {
    } else {
      var before, e := run[..|run| - 1], run[|run| - 1];
      KeysAreNumbered(hubKeys, before);
      EveryRunKeepsInv(hubKeys, before);
      StepCounts(Exec(hubKeys, before), e);
    }
  }

  lemma StepCounts(s: State, e: Event)
    requires s.i < TWO_64 - 1
    ensures Step(s, e).i == s.i + if e.Submit? && e.hub in s.hubs && !(e.key > 0 && Live(s.hubs, e.key)) then 1 else 0
  {
  }

  // And it is the key the request waits with.
  lemma IssuedKeyWaits(hubKeys: set<u64>, run: seq<Event>, e: Event)
    requires NoWrap(run + [e]) && IssuesAt(hubKeys, run, e)
    ensures var r, s' := Exec(hubKeys, run).requests, Exec(hubKeys, run + [e]);
      && r in s'.waiting && s'.waiting[r].key == 1001 + Issues(hubKeys, run)
      && s'.waiting[r] == Request(e.hub, s'.waiting[r].key, e.action, e.get, true) && s'.requests == r + 1
  {
    ExecSnoc(hubKeys, run, e);
    KeysAreNumbered(hubKeys, run);
    EveryRunKeepsInv(hubKeys, run);
    SubmitWaits(Exec(hubKeys, run), e);
  }

  lemma SubmitWaits(s: State, e: Event)
    requires e.Submit? && e.hub in s.hubs && !(e.key > 0 && Live(s.hubs, e.key)) && s.i < TWO_64 - 1
    ensures Step(s, e).requests == s.requests + 1 && s.requests in Step(s, e).waiting
    ensures Step(s, e).waiting[s.requests] == Request(e.hub, s.i + 1, e.action, e.get, true)
  {
  }

  lemma ExecSnoc(hubKeys: set<u64>, run: seq<Event>, e: Event)
    ensures Exec(hubKeys, run + [e]) == Step(Exec(hubKeys, run), e)
  {
    assert (run + [e])[..|run|] == run;
  }

  // Every live key is above 1000, was issued by wr.I, and lives in one hub only.
  lemma OneHomePerKey(hubKeys: set<u64>, run: seq<Event>, h: u64, h': u64, k: u64)
    requires NoWrap(run)
    requires LiveIn(Exec(hubKeys, run).hubs, h, k) && LiveIn(Exec(hubKeys, run).hubs, h', k)
    ensures h == h' && 1000 < k <= 1000 + Issues(hubKeys, run)
  {
    EveryRunKeepsInv(hubKeys, run);
    KeysAreNumbered(hubKeys, run);
  }

  // A waiting request is addressed to the only hub where its key lives or can come to live:
  // whichever hub holds the key now or in any later state is the one it is waiting for.
  lemma WaitingRequestGoesHome(hubKeys: set<u64>, run: seq<Event>, later: seq<Event>, r: nat, h: u64)
    requires NoWrap(run + later) && r in Exec(hubKeys, run).waiting
    requires LiveIn(Exec(hubKeys, run + later).hubs, h, Exec(hubKeys, run).waiting[r].key)
    ensures h == Exec(hubKeys, run).waiting[r].hub
  {
    EveryRunKeepsInv(hubKeys, run);
    EveryRunKeepsInv(hubKeys, run + later);
    HomesNeverMove(hubKeys, run, later, Exec(hubKeys, run).waiting[r].key);
  }

  lemma StepKeepsHomes(s: State, e: Event, k: u64)
    requires Inv(s) && s.i < TWO_64 - 1 && k in s.home
    ensures k in Step(s, e).home && Step(s, e).home[k] == s.home[k]
  {
  }

  lemma {:induction false} HomesNeverMove(hubKeys: set<u64>, run: seq<Event>, later: seq<Event>, k: u64)
    requires NoWrap(run + later) && k in Exec(hubKeys, run).home
    ensures k in Exec(hubKeys, run + later).home
    ensures Exec(hubKeys, run + later).home[k] == Exec(hubKeys, run).home[k]
  {
    if later == [] {
      assert run + later == run;
    } else {
      var before, e := later[..|later| - 1], later[|later| - 1];
      HomesNeverMove(hubKeys, run, before, k);
      EveryRunKeepsInv(hubKeys, run + before);
      StepKeepsHomes(Exec(hubKeys, run + before), e, k);
      ExecLonger(hubKeys, run, later);
    }
  }

  lemma ExecLonger(hubKeys: set<u64>, run: seq<Event>, later: seq<Event>)
    requires later != []
    ensures Exec(hubKeys, run + later) == Step(Exec(hubKeys, run + later[..|later| - 1]), later[|later| - 1])
  {
    assert (run + later)[..|run + later| - 1] == run + later[..|later| - 1];
  }

  // complete() deletes its own entry: the item being completed is the value under its key,
  // that key disappears and no other; and its decrement does not wrap.
  lemma CompleteDeletesItsOwn(hubKeys: set<u64>, run: seq<Event>, id: nat)
    requires NoWrap(run) && Enabled(Exec(hubKeys, run), Complete(id))
    ensures var s := Exec(hubKeys, run); var it := s.items[id];
      var s' := Step(s, Complete(id));
      && it.key in s.hubs[it.hub].stack && s.hubs[it.hub].stack[it.key] == id
      && s'.hubs[it.hub].stack == s.hubs[it.hub].stack - {it.key}
      && s'.hubs[it.hub].count == s.hubs[it.hub].count - 1
      && forall h :: h in s.hubs && h != it.hub ==> s'.hubs[h] == s.hubs[h]
  {
    EveryRunKeepsInv(hubKeys, run);
    RunningAtLeastOne(Exec(hubKeys, run).items, id);
  }

  // Load accounting is conserved: Count is the number of items between start() and
  // complete(), and never more than the hub's stack holds.
  lemma LoadIsConserved(hubKeys: set<u64>, run: seq<Event>, h: u64)
    requires NoWrap(run) && h in Exec(hubKeys, run).hubs
    ensures var s := Exec(hubKeys, run);
      s.hubs[h].count == RunningIn(s.items, h) <= |s.hubs[h].stack.Keys|
  {
    EveryRunKeepsInv(hubKeys, run);
    var s := Exec(hubKeys, run);
    forall id | 0 <= id < |s.items| && s.items[id].hub == h && s.items[id].phase == Running
      ensures s.items[id].key in s.hubs[h].stack && s.hubs[h].stack[s.items[id].key] == id
    {
      assert LiveIn(s.hubs, h, s.items[id].key);
    }
    RunningAreStored(s.items, h, s.hubs[h].stack);
  }

  lemma {:induction false} RunningAreStored(items: seq<Item>, h: u64, stack: map<u64, nat>)
    requires forall id :: 0 <= id < |items| && items[id].hub == h && items[id].phase == Running ==>
      items[id].key in stack && stack[items[id].key] == id
    ensures RunningIn(items, h) <= |stack.Keys|
  {
    if items == [] {
    } else {
      var n := |items| - 1;
      if items[n].hub == h && items[n].phase == Running {
        var rest := stack - {items[n].key};
        RunningAreStored(items[..n], h, rest);
        assert rest.Keys == stack.Keys - {items[n].key};
      } else {
        RunningAreStored(items[..n], h, stack);
      }
    }
  }

  // The fixed keys 1 and 2 of the HTTP handlers (and every key up to 1000) are never live, so
  // a request carrying one is always given a key of its own, never used before.
  lemma FixedKeysAreNeverShared(hubKeys: set<u64>, run: seq<Event>, key: u64)
    requires NoWrap(run) && key <= 1000
    ensures !Live(Exec(hubKeys, run).hubs, key)
    ensures KeyGiven(Exec(hubKeys, run), key) == (1001 + Issues(hubKeys, run)) % TWO_64
    ensures KeyGiven(Exec(hubKeys, run), key) !in Exec(hubKeys, run).home
  {
    EveryRunKeepsInv(hubKeys, run);
    KeysAreNumbered(hubKeys, run);
  }

  predicate Uncompleted(s: State, id: nat, key: u64) {
    id < |s.items| && s.items[id].key == key && s.items[id].phase != Done
  }

  // A request under the key of an uncompleted item can only go to that item's hub, with its
  // key; any other goes to any hub, under the next key.
  lemma SubmissionRouted(hubKeys: set<u64>, run: seq<Event>, e: Event)
    requires NoWrap(run + [e]) && e.Submit?
    ensures var s, s' := Exec(hubKeys, run), Exec(hubKeys, run + [e]);
      if exists id: nat :: Uncompleted(s, id, e.key)
      then forall id: nat :: Uncompleted(s, id, e.key) ==>
        && (Enabled(s, e) <==> e.hub == s.items[id].hub)
        && (Enabled(s, e) ==> s' == s.(waiting := s.waiting[s.requests := Request(e.hub, e.key, e.action, e.get, false)],
                                       requests := s.requests + 1))
      else
        && (Enabled(s, e) <==> e.hub in hubKeys)
        && (Enabled(s, e) ==> s'.requests == s.requests + 1 && s.requests in s'.waiting
                              && s'.waiting[s.requests] == Request(e.hub, s'.i, e.action, e.get, true)
                              && s'.i == 1001 + Issues(hubKeys, run))
  {
    var s := Exec(hubKeys, run);
    EveryRunKeepsInv(hubKeys, run);
    KeysAreNumbered(hubKeys, run);
    ExecSnoc(hubKeys, run, e);
    LiveIffUncompleted(s, e.key);
    forall id: nat, h | Uncompleted(s, id, e.key) && LiveIn(s.hubs, h, e.key) ensures h == s.items[id].hub {
      assert LiveIn(s.hubs, s.items[id].hub, e.key);
    }
    if e.hub in hubKeys && !(e.key > 0 && Live(s.hubs, e.key)) {
      SubmitWaits(s, e);
    }
  }

  lemma LiveIffUncompleted(s: State, key: u64)
    requires Inv(s)
    ensures Live(s.hubs, key) <==> exists id: nat :: Uncompleted(s, id, key)
    ensures forall id: nat :: Uncompleted(s, id, key) ==> key > 1000 && LiveIn(s.hubs, s.items[id].hub, key)
  {
    if h :| LiveIn(s.hubs, h, key) {
      assert Uncompleted(s, s.hubs[h].stack[key], key);
    }
  }

  // A viewer waiting for the hub joins an item exactly when one was created under its key and
  // is not completed; it is refused otherwise.
  lemma ViewerJoinsIffUncompleted(hubKeys: set<u64>, run: seq<Event>, r: nat)
    requires NoWrap(run) && r in Exec(hubKeys, run).waiting
    requires var q := Exec(hubKeys, run).waiting[r]; q.get && q.action == CameraVideoStream
    ensures var s := Exec(hubKeys, run); var q := s.waiting[r];
      q.hub in s.hubs &&
      var (h, outcome) := Handled(s.hubs[q.hub], q.key, q.action, q.get, |s.items|);
      && h == s.hubs[q.hub]
      && outcome == if exists id: nat :: Uncompleted(s, id, q.key) then Existing else Refused
  {
    KeyInStackIffUncompleted(hubKeys, run, r);
  }

  // Hence a viewer that asks for a camera under a key that is not live is always refused,
  // however the run goes on before the hub handles it.
  lemma ViewerIsAlwaysRefused(hubKeys: set<u64>, run: seq<Event>, r: nat)
    requires NoWrap(run) && r in Exec(hubKeys, run).waiting
    requires var q := Exec(hubKeys, run).waiting[r]; q.issued && q.get && q.action == CameraVideoStream
    ensures var s := Exec(hubKeys, run); var q := s.waiting[r];
      q.hub in s.hubs && Handled(s.hubs[q.hub], q.key, q.action, q.get, |s.items|).1 == Refused
  {
    EveryRunKeepsInv(hubKeys, run);
    var s := Exec(hubKeys, run);
    assert !LiveIn(s.hubs, s.waiting[r].hub, s.waiting[r].key);
  }

  // In particular one that asks under a fixed key, whatever happens before it is handled.
  lemma ViewerUnderFixedKeyIsRefused(hubKeys: set<u64>, run: seq<Event>, key: u64, hub: u64, later: seq<Event>)
    requires key <= 1000 && hub in hubKeys
    requires var submit := Submit(key, CameraVideoStream, true, hub); NoWrap(run + [submit] + later)
    ensures var s := Exec(hubKeys, run + [Submit(key, CameraVideoStream, true, hub)] + later);
      var r := Exec(hubKeys, run).requests;
      r in s.waiting ==>
        var q := s.waiting[r]; q.hub in s.hubs && Handled(s.hubs[q.hub], q.key, q.action, q.get, |s.items|).1 == Refused
  {
    var e := Submit(key, CameraVideoStream, true, hub);
    FixedKeysAreNeverShared(hubKeys, run, key);
    IssuedKeyWaits(hubKeys, run, e);
    var r := Exec(hubKeys, run).requests;
    if r in Exec(hubKeys, run + [e] + later).waiting {
      WaitingIsUnchanged(hubKeys, run + [e], later, r);
      ViewerIsAlwaysRefused(hubKeys, run + [e] + later, r);
    }
  }

  // A request that still waits is as it was submitted.
  lemma {:induction false} WaitingIsUnchanged(hubKeys: set<u64>, run: seq<Event>, later: seq<Event>, r: nat)
    requires r in Exec(hubKeys, run + later).waiting && r < Exec(hubKeys, run).requests
    ensures r < Exec(hubKeys, run + later).requests
    ensures r in Exec(hubKeys, run).waiting && Exec(hubKeys, run + later).waiting[r] == Exec(hubKeys, run).waiting[r]
  {
    if later == [] {
      assert run + later == run;
    } else {
      ExecLonger(hubKeys, run, later);
      RequestsGrow(hubKeys, run, later[..|later| - 1]);
      WaitingIsUnchanged(hubKeys, run, later[..|later| - 1], r);
    }
  }

  lemma {:induction false} RequestsGrow(hubKeys: set<u64>, run: seq<Event>, later: seq<Event>)
    ensures Exec(hubKeys, run).requests <= Exec(hubKeys, run + later).requests
  {
    if later == [] {
      assert run + later == run;
    } else {
      ExecLonger(hubKeys, run, later);
      RequestsGrow(hubKeys, run, later[..|later| - 1]);
    }
  }

  // Any other request joins the uncompleted item under its key if there is one, and otherwise
  // makes a new item.
  lemma OthersJoinOrCreate(hubKeys: set<u64>, run: seq<Event>, r: nat)
    requires NoWrap(run) && r in Exec(hubKeys, run).waiting
    requires var q := Exec(hubKeys, run).waiting[r]; !(q.get && q.action == CameraVideoStream)
    ensures var s := Exec(hubKeys, run); var q := s.waiting[r];
      q.hub in s.hubs &&
      var (h, outcome) := Handled(s.hubs[q.hub], q.key, q.action, q.get, |s.items|);
      if exists id: nat :: Uncompleted(s, id, q.key)
      then outcome == Existing && h == s.hubs[q.hub]
      else outcome == Created && h == s.hubs[q.hub].(stack := s.hubs[q.hub].stack[q.key := |s.items|])
  {
    KeyInStackIffUncompleted(hubKeys, run, r);
  }

  // What handling a waiting request does to the registry.
  lemma HandlingARequest(hubKeys: set<u64>, run: seq<Event>, r: nat)
    requires NoWrap(run + [Handle(r)]) && r in Exec(hubKeys, run).waiting
    ensures var s, s' := Exec(hubKeys, run), Exec(hubKeys, run + [Handle(r)]); var q := s.waiting[r];
      if (q.get && q.action == CameraVideoStream) || exists id: nat :: Uncompleted(s, id, q.key)
      then s' == s.(waiting := s.waiting - {r})
      else
        && q.hub in s.hubs
        && s'.items == s.items + [Item(q.hub, q.key, if q.action == Unknown then Idle else Spawned)]
        && s'.hubs == s.hubs[q.hub := s.hubs[q.hub].(stack := s.hubs[q.hub].stack[q.key := |s.items|])]
        && s' == s.(waiting := s.waiting - {r}, items := s'.items, hubs := s'.hubs)
  {
    ExecSnoc(hubKeys, run, Handle(r));
    EveryRunKeepsInv(hubKeys, run);
    KeyInStackIffUncompleted(hubKeys, run, r);
    var s := Exec(hubKeys, run);
    assert s.hubs[s.waiting[r].hub := s.hubs[s.waiting[r].hub]] == s.hubs;
  }

  lemma KeyInStackIffUncompleted(hubKeys: set<u64>, run: seq<Event>, r: nat)
    requires NoWrap(run) && r in Exec(hubKeys, run).waiting
    ensures var s := Exec(hubKeys, run); var q := s.waiting[r];
      q.hub in s.hubs && (q.key in s.hubs[q.hub].stack <==> exists id: nat :: Uncompleted(s, id, q.key))
  {
    EveryRunKeepsInv(hubKeys, run);
    var s := Exec(hubKeys, run);
    var q := s.waiting[r];
    LiveIffUncompleted(s, q.key);
    assert LiveIn(s.hubs, q.hub, q.key) ==> Live(s.hubs, q.key);
  }

  /* ---- the life of an item, by the history ---- */

  // The event makes item number id, of an action that item.run() knows.
  predicate Spawning(hubKeys: set<u64>, before: seq<Event>, e: Event, id: nat) {
    var s := Exec(hubKeys, before);
    && e.Handle? && Enabled(s, e) && |s.items| == id && |Step(s, e).items| == id + 1
    && s.waiting[e.request].action in {CameraVideoSave, CameraVideoStream, ChannelsSession, StorageVideoStream}
  }

  // Its goroutine has begun start(), and has made complete().
  predicate Began(hubKeys: set<u64>, run: seq<Event>, id: nat) {
    run != [] &&
    var before, e := run[..|run| - 1], run[|run| - 1];
    Began(hubKeys, before, id) || (e == Start(id) && Spawns(hubKeys, before, id))
  }

  predicate Spawns(hubKeys: set<u64>, run: seq<Event>, id: nat) {
    run != [] &&
    var before, e := run[..|run| - 1], run[|run| - 1];
    Spawns(hubKeys, before, id) || Spawning(hubKeys, before, e, id)
  }

  predicate Ended(hubKeys: set<u64>, run: seq<Event>, id: nat) {
    run != [] &&
    var before, e := run[..|run| - 1], run[|run| - 1];
    Ended(hubKeys, before, id) || (e == Complete(id) && Began(hubKeys, before, id))
  }

  function PhaseByHistory(hubKeys: set<u64>, run: seq<Event>, id: nat): Phase {
    if !Spawns(hubKeys, run, id) then Idle
    else if !Began(hubKeys, run, id) then Spawned
    else if !Ended(hubKeys, run, id) then Running
    else Done
  }

  // An item of a known action is started by its first Start, completed by the first Complete
  // after that, and nothing else changes it; an item of an unknown action stays idle.
  lemma {:induction false} LifeOfAnItem(hubKeys: set<u64>, run: seq<Event>, id: nat)
    requires NoWrap(run)
    ensures id >= |Exec(hubKeys, run).items| ==> !Spawns(hubKeys, run, id)
    ensures Began(hubKeys, run, id) ==> Spawns(hubKeys, run, id)
    ensures Ended(hubKeys, run, id) ==> Began(hubKeys, run, id)
    ensures id < |Exec(hubKeys, run).items| ==> Exec(hubKeys, run).items[id].phase == PhaseByHistory(hubKeys, run, id)
  {
    if run == [] {
    } else {
      var before, e := run[..|run| - 1], run[|run| - 1];
      LifeOfAnItem(hubKeys, before, id);
      EveryRunKeepsInv(hubKeys, before);
      PhaseStep(Exec(hubKeys, before), e, id);
    }
  }

  // So a goroutine may start or complete exactly when the history says so.
  lemma ProgressByHistory(hubKeys: set<u64>, run: seq<Event>, id: nat)
    requires NoWrap(run)
    ensures Enabled(Exec(hubKeys, run), Start(id)) <==> Spawns(hubKeys, run, id) && !Began(hubKeys, run, id)
    ensures Enabled(Exec(hubKeys, run), Complete(id)) <==> Began(hubKeys, run, id) && !Ended(hubKeys, run, id)
    ensures id < |Exec(hubKeys, run).items| ==>
      (Exec(hubKeys, run).items[id].phase == Done <==> Ended(hubKeys, run, id))
  {
    LifeOfAnItem(hubKeys, run, id);
    EveryRunKeepsInv(hubKeys, run);
  }

  // The phase of one item after an event.
  lemma PhaseStep(s: State, e: Event, id: nat)
    requires ItemsStored(s)
    ensures |s.items| <= |Step(s, e).items| <= |s.items| + 1
    ensures id < |s.items| ==>
      Step(s, e).items[id].phase ==
        (if e == Start(id) && s.items[id].phase == Spawned then Running
         else if e == Complete(id) && s.items[id].phase == Running then Done
         else s.items[id].phase)
    ensures |s.items| == id < |Step(s, e).items| ==>
      Step(s, e).items[id].phase == if s.waiting[e.request].action == Unknown then Idle else Spawned
  {
  }

  // An item of an unknown action is never started or completed: it stays under its key forever.
  lemma UnknownItemStaysForever(hubKeys: set<u64>, run: seq<Event>, later: seq<Event>, id: nat)
    requires NoWrap(run + later) && id < |Exec(hubKeys, run).items| && !Spawns(hubKeys, run, id)
    ensures var s, s' := Exec(hubKeys, run), Exec(hubKeys, run + later);
      id < |s'.items| && s'.items[id] == s.items[id] && LiveIn(s'.hubs, s.items[id].hub, s.items[id].key)
  {
    LifeOfAnItem(hubKeys, run, id);
    IdleItemStays(hubKeys, run, later, id);
  }

  lemma {:induction false} IdleItemStays(hubKeys: set<u64>, run: seq<Event>, later: seq<Event>, id: nat)
    requires NoWrap(run + later) && id < |Exec(hubKeys, run).items| && Exec(hubKeys, run).items[id].phase == Idle
    ensures var s, s' := Exec(hubKeys, run), Exec(hubKeys, run + later);
      id < |s'.items| && s'.items[id] == s.items[id] && LiveIn(s'.hubs, s.items[id].hub, s.items[id].key)
  {
    EveryRunKeepsInv(hubKeys, run + later);
    if later == [] {
      assert run + later == run;
    } else {
      IdleItemStays(hubKeys, run, later[..|later| - 1], id);
      ExecLonger(hubKeys, run, later);
    }
  }
}
