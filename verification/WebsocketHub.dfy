// What the sharded websocket hub does, on values: one function per hub message,
// whole runs of such messages, and what every run keeps.
module WebsocketHub {
  import opened Base
  import Address

  datatype Client = Client(wsKey: u64, stackKey: u64, clientKey: u64) {
    function Key(): string {
      Address.Print("ws", wsKey, stackKey, clientKey)
    }
  }

  // One stack: its client table, the separately kept Count, and the key counter I.
  datatype Stack = Stack(clients: map<u64, Client>, count: u64, i: u64) {
    // The table is indexed by each client's own key.
    predicate WellKeyed() {
      forall k :: k in clients ==> clients[k].clientKey == k
    }

    predicate CountIsSize() {
      count == |clients.Keys|
    }
  }

  datatype Hub = Hub(key: u64, stacks: map<u64, Stack>)

  /* ---- one message ---- */

  function CountDown(c: u64): u64 {
    if c > 1 then c - 1 else 0
  }

  function CountDownBy(c: u64, n: nat): u64 {
    if n <= c then c - n else 0
  }

  function Issued(st: Stack): Stack {
    st.(i := Increment(st.i))
  }

  function Joined(st: Stack, c: Client): Stack {
    st.(clients := st.clients[c.clientKey := c], count := Increment(st.count))
  }

  // A client leaves: nothing happens when it has already left.
  function Left(st: Stack, k: u64): Stack {
    if k in st.clients then st.(clients := st.clients - {k}, count := CountDown(st.count)) else st
  }

  // A broadcast whose writes to the clients in `failing` fail.
  function LeftAll(st: Stack, failing: set<u64>): Stack {
    st.(clients := st.clients - failing, count := CountDownBy(st.count, |st.clients.Keys * failing|))
  }

  predicate Minimal(h: Hub, s: u64) {
    s in h.stacks && forall j :: j in h.stacks ==> h.stacks[s].count <= h.stacks[j].count
  }

  // Where Websocket.Send delivers a text key: (stack, client), if anywhere.
  function SendTarget(h: Hub, s: string): Option<(u64, u64)> {
    match Address.Parse("ws", s)
    case None => None
    case Some((ws, st, cl)) =>
      if ws > 0 && st > 0 && cl > 0 && h.key == ws && st in h.stacks && h.stacks[st].count > 0
      then Some((st, cl)) else None
  }

  // Websocket.SendAll skips the stacks whose Count is zero.
  function AfterSendAll(h: Hub, failing: set<(u64, u64)>): Hub {
    h.(stacks := map s | s in h.stacks :: AfterVisit(h.stacks[s], FailingIn(failing, s)))
  }

  function AfterVisit(st: Stack, failing: set<u64>): Stack {
    if st.count > 0 then LeftAll(st, failing) else st
  }

  function FailingIn(failing: set<(u64, u64)>, s: u64): set<u64> {
    set f | f in failing && f.0 == s :: f.1
  }

  lemma LeftAllNobody(st: Stack, failing: set<u64>)
    requires st.clients.Keys !! failing
    ensures LeftAll(st, failing) == st
  {
    assert st.clients.Keys * failing == {};
    assert st.clients - failing == st.clients;
  }

  // Where Count is the size of the table, skipping the Count-zero stacks loses nobody.
  lemma SkippingLosesNobody(st: Stack, failing: set<u64>)
    requires st.CountIsSize()
    ensures AfterVisit(st, failing) == LeftAll(st, failing)
  {
    if st.count == 0 {
      assert st.clients.Keys == {};
      LeftAllNobody(st, failing);
    }
  }

  /* ---- runs ---- */

  datatype Event =
    | Allocate(stack: u64)
    | Register(stack: u64, client: u64)
    | BroadcastAll(stack: u64, failing: set<u64>)
    | SendOne(stack: u64, client: u64, written: bool)
    | PingFails(stack: u64, client: u64)
    | Unregister(stack: u64, client: u64)

  // Does this event make client k of stack s leave, if it is there?
  predicate Departs(e: Event, s: u64, k: u64) {
    e.stack == s &&
    match e
    case BroadcastAll(_, failing) => k in failing
    case SendOne(_, c, written) => c == k && !written
    case PingFails(_, c) => c == k
    case Unregister(_, c) => c == k
    case _ => false
  }

  function StackStep(hubKey: u64, st: Stack, e: Event): Stack {
    match e
    case Allocate(_) => Issued(st)
    case Register(s, k) => Joined(st, Client(hubKey, s, k))
    case BroadcastAll(_, failing) => LeftAll(st, failing)
    case SendOne(_, k, written) => if written then st else Left(st, k)
    case PingFails(_, k) => Left(st, k)
    case Unregister(_, k) => Left(st, k)
  }

  function Step(h: Hub, e: Event): Hub {
    if e.stack in h.stacks
    then h.(stacks := h.stacks[e.stack := StackStep(h.key, h.stacks[e.stack], e)])
    else h
  }

  // NewWebsocket: n empty stacks under keys 1..n.
  function NewHub(key: u64, n: u64): Hub {
    Hub(key, NewStacks(n))
  }

  function NewStacks(n: u64): map<u64, Stack> {
    if n == 0 then map[] else NewStacks(n - 1)[n := Stack(map[], 0, 0)]
  }

  lemma {:induction false} NewStacksAreEmpty(n: u64)
    ensures forall s :: s in NewStacks(n) <==> 1 <= s <= n
    ensures forall s :: s in NewStacks(n) ==> NewStacks(n)[s] == Stack(map[], 0, 0)
  {
    if n == 0 {
    } else {
      NewStacksAreEmpty(n - 1);
    }
  }

  function Exec(key: u64, n: u64, run: seq<Event>): Hub {
    if run == [] then NewHub(key, n) else Step(Exec(key, n, run[..|run| - 1]), run[|run| - 1])
  }

  // The number of client keys stack s has issued.
  function Allocations(run: seq<Event>, s: u64): (a: nat)
    ensures a <= |run|
  {
    if run == [] then 0
    else Allocations(run[..|run| - 1], s) + if run[|run| - 1] == Allocate(s) then 1 else 0
  }

  // What the connection handler guarantees: a client is registered under a key issued to it,
  // and only once; only a client that was registered is pinged or unregistered. Fewer than
  // 2^64 events, so no counter has wrapped.
  predicate ValidRun(n: u64, run: seq<Event>) {
    |run| < TWO_64 &&
    (run != [] ==>
      var before, e := run[..|run| - 1], run[|run| - 1];
      && ValidRun(n, before)
      && 1 <= e.stack <= n
      && (e.Register? ==> 1 <= e.client <= Allocations(before, e.stack) && e !in before)
      && (e.PingFails? || e.Unregister? ==> Register(e.stack, e.client) in before))
  }

  // The history's own notion of a connected client: registered, and nothing made it leave since.
  // It mentions no table and no counter.
  predicate Live(run: seq<Event>, s: u64, k: u64) {
    run != [] &&
    var before, e := run[..|run| - 1], run[|run| - 1];
    e == Register(s, k) || (Live(before, s, k) && !Departs(e, s, k))
  }

  lemma {:induction false} LiveWasRegistered(n: u64, run: seq<Event>, s: u64, k: u64)
    requires ValidRun(n, run) && Live(run, s, k)
    ensures Register(s, k) in run && 1 <= s <= n && 1 <= k <= Allocations(run, s)
  {
    if run[|run| - 1] == Register(s, k) {
    } else {
      LiveWasRegistered(n, run[..|run| - 1], s, k);
    }
  }

  // What a stack looks like after a run, according to the history alone.
  ghost predicate Agrees(key: u64, run: seq<Event>, s: u64, st: Stack) {
    && (forall k :: k in st.clients <==> Live(run, s, k))
    && (forall k :: k in st.clients ==> st.clients[k] == Client(key, s, k))
    && st.CountIsSize() && st.count <= |run|
    && st.i == Allocations(run, s)
  }

  lemma LeftAgrees(st: Stack, k: u64)
    requires st.CountIsSize()
    ensures Left(st, k).CountIsSize() && Left(st, k).clients == st.clients - {k}
    ensures k in st.clients ==> Left(st, k).count == st.count - 1
  {
    if k in st.clients {
      assert (st.clients - {k}).Keys == st.clients.Keys - {k};
    }
  }

  lemma LeftAllAgrees(st: Stack, failing: set<u64>)
    requires st.CountIsSize()
    ensures LeftAll(st, failing).CountIsSize()
  {
    var gone := st.clients.Keys * failing;
    assert (st.clients - failing).Keys == st.clients.Keys - gone;
  }

  // In every reachable state of every run each stack's table holds exactly the clients the
  // history says are connected, and its Count is the size of that table.
  lemma {:induction false} EveryRunKeepsCount(key: u64, n: u64, run: seq<Event>)
    requires ValidRun(n, run)
    ensures var h := Exec(key, n, run);
      && h.key == key
      && (forall s :: s in h.stacks <==> 1 <= s <= n)
      && (forall s :: s in h.stacks ==> Agrees(key, run, s, h.stacks[s]))
  {
    if run == [] {
      NewStacksAreEmpty(n);
    } else {
      var before, e := run[..|run| - 1], run[|run| - 1];
      EveryRunKeepsCount(key, n, before);
      var h0, h := Exec(key, n, before), Exec(key, n, run);
      forall s | s in h.stacks ensures Agrees(key, run, s, h.stacks[s]) {
        StackKeepsCount(key, n, run, s, h0.stacks[s]);
      }
    }
  }

  lemma StackKeepsCount(key: u64, n: u64, run: seq<Event>, s: u64, st: Stack)
    requires ValidRun(n, run) && run != [] && Agrees(key, run[..|run| - 1], s, st)
    ensures var e := run[|run| - 1];
      Agrees(key, run, s, if e.stack == s then StackStep(key, st, e) else st)
  {
    var before, e := run[..|run| - 1], run[|run| - 1];
    if e.stack == s && e.Register? {
      RegisterAgrees(key, n, run, s, st);
    } else if e.stack == s && !e.Allocate? {
      DepartureAgrees(key, run, s, st);
    }
  }

  lemma RegisterAgrees(key: u64, n: u64, run: seq<Event>, s: u64, st: Stack)
    requires ValidRun(n, run) && run != [] && Agrees(key, run[..|run| - 1], s, st)
    requires run[|run| - 1].Register? && run[|run| - 1].stack == s
    ensures Agrees(key, run, s, StackStep(key, st, run[|run| - 1]))
  {
    var before, k := run[..|run| - 1], run[|run| - 1].client;
    if k in st.clients {
      LiveWasRegistered(n, before, s, k);
      assert false;
    }
    var st' := StackStep(key, st, run[|run| - 1]);
    assert st'.clients.Keys == st.clients.Keys + {k};
  }

  lemma DepartureAgrees(key: u64, run: seq<Event>, s: u64, st: Stack)
    requires run != [] && Agrees(key, run[..|run| - 1], s, st)
    requires run[|run| - 1].stack == s && !run[|run| - 1].Register? && !run[|run| - 1].Allocate?
    ensures Agrees(key, run, s, StackStep(key, st, run[|run| - 1]))
  {
    var e := run[|run| - 1];
    if e.BroadcastAll? {
      LeftAllAgrees(st, e.failing);
      LeaversAgree(key, run, s, st, StackStep(key, st, e), e.failing);
    } else {
      LeftAgrees(st, e.client);
      LeaversAgree(key, run, s, st, StackStep(key, st, e), if e.SendOne? && e.written then {} else {e.client});
    }
  }

  lemma LeaversAgree(key: u64, run: seq<Event>, s: u64, st: Stack, st': Stack, gone: set<u64>)
    requires run != [] && Agrees(key, run[..|run| - 1], s, st)
    requires run[|run| - 1] != Allocate(s) && !run[|run| - 1].Register?
    requires forall k :: Departs(run[|run| - 1], s, k) <==> k in gone
    requires st'.clients == st.clients - gone && st'.CountIsSize() && st'.count <= st.count && st'.i == st.i
    ensures Agrees(key, run, s, st')
  {
    forall k: u64 ensures k in st'.clients <==> Live(run, s, k) {
      assert k in st.clients <==> Live(run[..|run| - 1], s, k);
    }
  }

  // A registration connects the client, and adds exactly one to Count.
  lemma AddedExactlyOnce(key: u64, n: u64, run: seq<Event>, s: u64, k: u64)
    requires ValidRun(n, run + [Register(s, k)])
    ensures s in Exec(key, n, run).stacks && s in Exec(key, n, run + [Register(s, k)]).stacks
    ensures !Live(run, s, k) && Live(run + [Register(s, k)], s, k)
    ensures Exec(key, n, run + [Register(s, k)]).stacks[s].count == Exec(key, n, run).stacks[s].count + 1
  {
    var e := Register(s, k);
    LiveSnoc(run, e, s, k);
    EveryRunKeepsCount(key, n, run);
    EveryRunKeepsCount(key, n, run + [e]);
    assert (run + [e])[..|run|] == run;
    if Live(run, s, k) { LiveWasRegistered(n, run, s, k); }
    OneMoreClient(Exec(key, n, run).stacks[s], Exec(key, n, run + [e]).stacks[s], k);
  }

  lemma OneMoreClient(st: Stack, st': Stack, k: u64)
    requires st.CountIsSize() && st'.CountIsSize() && k !in st.clients
    requires forall j :: j in st'.clients ==> j in st.clients || j == k
    requires forall j :: j in st.clients || j == k ==> j in st'.clients
    ensures st'.count == st.count + 1
  {
    assert st'.clients.Keys == st.clients.Keys + {k};
  }

  // However a client leaves (failed targeted write, failed ping, Unregister; in any order and
  // several of them), it is subtracted exactly once: the departing event takes one from Count
  // when the client is still connected and nothing otherwise, so the saturating branch of
  // CountDecrement fires only from Count 1.
  lemma SubtractedExactlyOnce(key: u64, n: u64, run: seq<Event>, e: Event, s: u64, k: u64)
    requires ValidRun(n, run + [e]) && e.stack == s
    requires e == SendOne(s, k, false) || e == PingFails(s, k) || e == Unregister(s, k)
    ensures s in Exec(key, n, run).stacks && s in Exec(key, n, run + [e]).stacks
    ensures !Live(run + [e], s, k)
    ensures var c, c' := Exec(key, n, run).stacks[s].count, Exec(key, n, run + [e]).stacks[s].count;
      c' == c - if Live(run, s, k) then 1 else 0
  {
    assert (run + [e])[..|run|] == run;
    EveryRunKeepsCount(key, n, run);
    EveryRunKeepsCount(key, n, run + [e]);
    LeftAgrees(Exec(key, n, run).stacks[s], k);
  }

  function Lost(run: seq<Event>, s: u64, failing: set<u64>): set<u64> {
    set k | k in failing && Live(run, s, k)
  }

  // So is every client whose broadcast write fails, all of them together: Count falls by the
  // number of connected clients among them, which it is never below.
  lemma BroadcastSubtractsEachOnce(key: u64, n: u64, run: seq<Event>, s: u64, failing: set<u64>)
    requires ValidRun(n, run + [BroadcastAll(s, failing)])
    ensures s in Exec(key, n, run).stacks && s in Exec(key, n, run + [BroadcastAll(s, failing)]).stacks
    ensures forall k: u64 :: Live(run + [BroadcastAll(s, failing)], s, k) <==> Live(run, s, k) && k !in failing
    ensures var c, c' := Exec(key, n, run).stacks[s].count, Exec(key, n, run + [BroadcastAll(s, failing)]).stacks[s].count;
      |Lost(run, s, failing)| <= c && c' == c - |Lost(run, s, failing)|
  {
    var e := BroadcastAll(s, failing);
    assert (run + [e])[..|run|] == run;
    EveryRunKeepsCount(key, n, run);
    EveryRunKeepsCount(key, n, run + [e]);
    LiveSnocBroadcast(run, s, failing);
    FewerBy(Exec(key, n, run).stacks[s], Exec(key, n, run + [e]).stacks[s], Lost(run, s, failing));
  }

  lemma LiveSnocBroadcast(run: seq<Event>, s: u64, failing: set<u64>)
    ensures forall k: u64 :: Live(run + [BroadcastAll(s, failing)], s, k) <==> Live(run, s, k) && k !in failing
  {
    assert (run + [BroadcastAll(s, failing)])[..|run|] == run;
  }

  lemma FewerBy(st: Stack, st': Stack, gone: set<u64>)
    requires st.CountIsSize() && st'.CountIsSize() && forall k :: k in gone ==> k in st.clients
    requires forall k :: k in st'.clients <==> k in st.clients && k !in gone
    ensures |gone| <= st.count && st'.count == st.count - |gone|
  {
    assert st'.clients.Keys == st.clients.Keys - gone;
  }

  // Clients that ever registered, and those of them no longer connected.
  function Arrivals(run: seq<Event>, s: u64): set<u64> {
    set e | e in run && e.Register? && e.stack == s :: e.client
  }

  function Departures(run: seq<Event>, s: u64): set<u64> {
    set k | k in Arrivals(run, s) && !Live(run, s, k)
  }

  // Conservation: Count is arrivals less departures, each client counted once.
  lemma CountIsArrivalsLessDepartures(key: u64, n: u64, run: seq<Event>, s: u64)
    requires ValidRun(n, run) && 1 <= s <= n
    ensures s in Exec(key, n, run).stacks
    ensures Exec(key, n, run).stacks[s].count == |Arrivals(run, s)| - |Departures(run, s)|
  {
    EveryRunKeepsCount(key, n, run);
    var st := Exec(key, n, run).stacks[s];
    forall k | Live(run, s, k) ensures k in Arrivals(run, s) {
      LiveWasRegistered(n, run, s, k);
      assert Register(s, k) in run && Register(s, k).client == k;
    }
    TableIsDifference(st, Arrivals(run, s), Departures(run, s));
  }

  lemma TableIsDifference(st: Stack, arrivals: set<u64>, departures: set<u64>)
    requires departures <= arrivals && st.CountIsSize()
    requires forall k :: k in st.clients <==> k in arrivals && k !in departures
    ensures st.count == |arrivals| - |departures|
  {
    assert st.clients.Keys == arrivals - departures;
  }

  /* ---- delivery ---- */

  // No text whatever turns a targeted Send into a broadcast through the ClientKey 0 sentinel.
  lemma SendNeverBroadcasts(h: Hub, s: string)
    requires SendTarget(h, s).Some?
    ensures SendTarget(h, s).value.1 != 0
  {
  }

  // A text is delivered exactly when it reads "ws", this hub's own key, a stack of it whose Count
  // is not zero, and a client key, none of them zero: so one with another hub's key never is.
  lemma SendTargetIff(h: Hub, s: string, st: u64, cl: u64)
    ensures SendTarget(h, s) == Some((st, cl)) <==>
      && Address.Reads("ws", Address.Split(s), h.key, st, cl)
      && h.key > 0 && st > 0 && cl > 0 && st in h.stacks && h.stacks[st].count > 0
  {
    Address.ParseAccepts("ws", s, h.key, st, cl);
  }

  // A connected client's printed key reaches that client and no other. The one exception
  // is a hub whose own key (the Unix second it was created) is 0.
  lemma SendReachesTheClient(key: u64, n: u64, run: seq<Event>, s: u64, k: u64)
    requires ValidRun(n, run) && Live(run, s, k)
    ensures var h := Exec(key, n, run);
      && s in h.stacks && k in h.stacks[s].clients
      && (SendTarget(h, h.stacks[s].clients[k].Key()) == Some((s, k)) <==> key > 0)
  {
    EveryRunKeepsCount(key, n, run);
    LiveWasRegistered(n, run, s, k);
    Address.ParsePrinted("ws", key, s, k);
    var st := Exec(key, n, run).stacks[s];
    assert k in st.clients;
    assert st.clients.Keys != {};
  }

  // Two different connected clients never print the same key.
  lemma LiveKeysDistinct(key: u64, n: u64, run: seq<Event>, s: u64, k: u64, s': u64, k': u64)
    requires ValidRun(n, run) && Live(run, s, k) && Live(run, s', k') && (s, k) != (s', k')
    ensures var h := Exec(key, n, run);
      && s in h.stacks && k in h.stacks[s].clients && s' in h.stacks && k' in h.stacks[s'].clients
      && h.stacks[s].clients[k].Key() != h.stacks[s'].clients[k'].Key()
  {
    EveryRunKeepsCount(key, n, run);
    LiveWasRegistered(n, run, s, k);
    LiveWasRegistered(n, run, s', k');
    var h := Exec(key, n, run);
    assert k in h.stacks[s].clients && k' in h.stacks[s'].clients;
    if h.stacks[s].clients[k].Key() == h.stacks[s'].clients[k'].Key() {
      Address.PrintIsInjective("ws", key, s, k, key, s', k');
    }
  }

  // When the key counter does wrap, the next client is issued the broadcast sentinel.
  lemma WrappedCounterIssuesSentinel(st: Stack)
    ensures Issued(st).i == 0 <==> st.i == TWO_64 - 1
  {
  }

  /* ---- SendAll as hub messages ---- */

  function BroadcastRun(n: u64, failing: set<(u64, u64)>): seq<Event> {
    if n == 0 then [] else BroadcastRun(n - 1, failing) + [BroadcastAll(n, FailingIn(failing, n))]
  }

  // SendAll is the hubs handling one broadcast each in turn; afterwards the connected clients
  // are exactly those connected before whose write succeeded.
  lemma SendAllIsARun(key: u64, n: u64, run: seq<Event>, failing: set<(u64, u64)>)
    requires ValidRun(n, run) && |run| + n < TWO_64
    ensures ValidRun(n, run + BroadcastRun(n, failing))
    ensures Exec(key, n, run + BroadcastRun(n, failing)) == AfterSendAll(Exec(key, n, run), failing)
    ensures forall s: u64, k: u64 ::
      Live(run + BroadcastRun(n, failing), s, k) <==> Live(run, s, k) && (s, k) !in failing
  {
    BroadcastRunIsValid(n, run, failing, n);
    forall s: u64, k: u64 ensures Live(run + BroadcastRun(n, failing), s, k) <==> Live(run, s, k) && (s, k) !in failing {
      BroadcastRunLive(run, failing, n, s, k);
      if Live(run, s, k) { LiveWasRegistered(n, run, s, k); }
    }
    EveryRunKeepsCount(key, n, run);
    BroadcastRunExec(key, n, run, failing, n);
    AllBroadcasts(Exec(key, n, run), failing, n);
  }

  lemma ExecSnoc(key: u64, n: u64, run: seq<Event>, e: Event)
    ensures Exec(key, n, run + [e]) == Step(Exec(key, n, run), e)
  {
    assert (run + [e])[..|run|] == run;
  }

  lemma LiveSnoc(run: seq<Event>, e: Event, s: u64, k: u64)
    ensures Live(run + [e], s, k) <==> e == Register(s, k) || (Live(run, s, k) && !Departs(e, s, k))
  {
    assert (run + [e])[..|run|] == run;
  }

  lemma BroadcastRunSnoc(run: seq<Event>, failing: set<(u64, u64)>, m: u64)
    requires m > 0
    ensures run + BroadcastRun(m, failing)
         == run + BroadcastRun(m - 1, failing) + [BroadcastAll(m, FailingIn(failing, m))]
  {
  }

  lemma {:induction false} BroadcastRunIsValid(n: u64, run: seq<Event>, failing: set<(u64, u64)>, m: u64)
    requires ValidRun(n, run) && m <= n && |run| + n < TWO_64
    ensures |BroadcastRun(m, failing)| == m && ValidRun(n, run + BroadcastRun(m, failing))
  {
    var run' := run + BroadcastRun(m, failing);
    if m == 0 {
      assert run' == run;
    } else {
      BroadcastRunIsValid(n, run, failing, m - 1);
      assert run'[..|run'| - 1] == run + BroadcastRun(m - 1, failing);
    }
  }

  // Stacks 1..m have handled the broadcast.
  function AfterBroadcasts(h: Hub, failing: set<(u64, u64)>, m: u64): Hub {
    h.(stacks := map s | s in h.stacks ::
      if s <= m then LeftAll(h.stacks[s], FailingIn(failing, s)) else h.stacks[s])
  }

  lemma AllBroadcasts(h: Hub, failing: set<(u64, u64)>, n: u64)
    requires forall s :: s in h.stacks ==> s <= n && h.stacks[s].CountIsSize()
    ensures AfterBroadcasts(h, failing, n) == AfterSendAll(h, failing)
  {
    forall s | s in h.stacks ensures AfterVisit(h.stacks[s], FailingIn(failing, s)) == LeftAll(h.stacks[s], FailingIn(failing, s)) {
      SkippingLosesNobody(h.stacks[s], FailingIn(failing, s));
    }
    assert AfterBroadcasts(h, failing, n).stacks == AfterSendAll(h, failing).stacks;
  }

  lemma OneMoreBroadcast(h: Hub, failing: set<(u64, u64)>, m: u64)
    requires m in h.stacks && m > 0
    ensures Step(AfterBroadcasts(h, failing, m - 1), BroadcastAll(m, FailingIn(failing, m))) == AfterBroadcasts(h, failing, m)
  {
    var a, b := AfterBroadcasts(h, failing, m - 1), AfterBroadcasts(h, failing, m);
    var st := LeftAll(h.stacks[m], FailingIn(failing, m));
    assert a.stacks[m] == h.stacks[m] && b.stacks[m] == st;
    assert StackStep(a.key, a.stacks[m], BroadcastAll(m, FailingIn(failing, m))) == st;
    assert a.stacks[m := st] == b.stacks;
  }

  lemma {:induction false} BroadcastRunExec(key: u64, n: u64, run: seq<Event>, failing: set<(u64, u64)>, m: u64)
    requires forall s: u64 :: 1 <= s <= m ==> s in Exec(key, n, run).stacks
    ensures Exec(key, n, run + BroadcastRun(m, failing)) == AfterBroadcasts(Exec(key, n, run), failing, m)
  {
    var h := Exec(key, n, run);
    if m == 0 {
      assert run + BroadcastRun(0, failing) == run;
      assert AfterBroadcasts(h, failing, 0).stacks == h.stacks by { NoStackZero(key, n, run); }
    } else {
      BroadcastRunExec(key, n, run, failing, m - 1);
      BroadcastRunSnoc(run, failing, m);
      ExecSnoc(key, n, run + BroadcastRun(m - 1, failing), BroadcastAll(m, FailingIn(failing, m)));
      OneMoreBroadcast(h, failing, m);
    }
  }

  lemma {:induction false} NoStackZero(key: u64, n: u64, run: seq<Event>)
    ensures forall s :: s in Exec(key, n, run).stacks <==> 1 <= s <= n
  {
    if run == [] {
      NewStacksAreEmpty(n);
    } else {
      NoStackZero(key, n, run[..|run| - 1]);
    }
  }

  lemma {:induction false} BroadcastRunLive(run: seq<Event>, failing: set<(u64, u64)>, m: u64, s: u64, k: u64)
    ensures Live(run + BroadcastRun(m, failing), s, k)
       <==> Live(run, s, k) && (1 <= s <= m ==> (s, k) !in failing)
  {
    if m == 0 {
      assert run + BroadcastRun(0, failing) == run;
    } else {
      BroadcastRunLive(run, failing, m - 1, s, k);
      BroadcastRunSnoc(run, failing, m);
      LiveSnoc(run + BroadcastRun(m - 1, failing), BroadcastAll(m, FailingIn(failing, m)), s, k);
      assert k in FailingIn(failing, m) <==> (m, k) in failing;
    }
  }
}
