// Whole runs of the WebRTC server: the registry and every hub's connection tables together,
// over the same items. Each part of such a run is a run of WebrtcRegistry or WebrtcConnections.
module WebrtcRuns {
  import opened Base
  import R = WebrtcRegistry
  import C = WebrtcConnections

  // Item number i of the registry has table number i in its own hub's tables.
  datatype System = System(reg: R.State, tables: map<u64, C.Tables>)

  datatype Event =
    | Registry(step: R.Event)
    | Connect(item: nat)                  // NewWebrtConnection
    | OpenChannel(item: nat, conn: u64)   // the peer opened its data channel
    | Drop(item: nat, conn: u64)          // delConn

  function NewSystem(hubKeys: set<u64>): System {
    System(R.NewState(hubKeys), map h | h in hubKeys :: C.Tables(0, [], {}))
  }

  predicate OfHub(s: R.State, item: nat, h: u64) {
    item < |s.items| && s.items[item].hub == h
  }

  function Registered(s: R.State, e: Event): R.State {
    if e.Registry? then R.Step(s, e.step) else s
  }

  // What an event does to the tables of hub h: a new item has a table everywhere, all else
  // happens in the item's own hub.
  function InTables(s: R.State, e: Event, h: u64): Option<C.Event> {
    match e
    case Registry(Complete(id)) =>
      if R.Enabled(s, R.Complete(id)) && OfHub(s, id, h) then Some(C.CompleteItem(id)) else None
    case Registry(_) => if |Registered(s, e).items| > |s.items| then Some(C.NewItem) else None
    case Connect(id) => if OfHub(s, id, h) then Some(C.NewConnection(id)) else None
    case OpenChannel(id, c) => if OfHub(s, id, h) then Some(C.OpenChannel(id, c)) else None
    case Drop(id, c) => if OfHub(s, id, h) then Some(C.DelConn(id, c)) else None
  }

  function TablesAfter(t: C.Tables, e: Option<C.Event>): C.Tables {
    match e case Some(x) => C.Step(t, x) case None => t
  }

  function Step(s: System, e: Event): System {
    System(Registered(s.reg, e), map h | h in s.tables :: TablesAfter(s.tables[h], InTables(s.reg, e, h)))
  }

  function Exec(hubKeys: set<u64>, run: seq<Event>): System {
    if run == [] then NewSystem(hubKeys) else Step(Exec(hubKeys, run[..|run| - 1]), run[|run| - 1])
  }

  lemma ExecSnoc(hubKeys: set<u64>, run: seq<Event>, e: Event)
    ensures Exec(hubKeys, run + [e]) == Step(Exec(hubKeys, run), e)
  {
    assert (run + [e])[..|run|] == run;
  }

  // Which tables a step changes, event by event.
  lemma NoTables(s: System, e: Event)
    requires forall h :: h in s.tables ==> InTables(s.reg, e, h) == None
    ensures Step(s, e) == System(Registered(s.reg, e), s.tables)
  {
    assert Step(s, e).tables == s.tables;
  }

  lemma OneTable(s: System, e: Event, h: u64, x: C.Event)
    requires h in s.tables && InTables(s.reg, e, h) == Some(x)
    requires forall j :: j in s.tables && j != h ==> InTables(s.reg, e, j) == None
    ensures Step(s, e) == System(Registered(s.reg, e), s.tables[h := C.Step(s.tables[h], x)])
  {
    assert Step(s, e).tables == s.tables[h := C.Step(s.tables[h], x)];
  }

  function WithNewItem(t: C.Tables): C.Tables {
    C.Step(t, C.NewItem)
  }

  lemma EveryTable(s: System, e: Event)
    requires forall h :: h in s.tables ==> InTables(s.reg, e, h) == Some(C.NewItem)
    ensures Step(s, e) == System(Registered(s.reg, e), map h | h in s.tables :: WithNewItem(s.tables[h]))
  {
    assert Step(s, e).tables == map h | h in s.tables :: WithNewItem(s.tables[h]);
  }

  /* ---- what the server's objects hold in a state ---- */

  datatype HubShape = HubShape(key: u64, count: u64, connI: u64, closed: set<u64>, stack: map<u64, nat>)

  datatype ItemShape = ItemShape(hub: u64, key: u64, connections: map<u64, bool>)

  predicate WellFormed(s: System) {
    && s.reg.hubs.Keys == s.tables.Keys
    && (forall h :: h in s.tables ==> |s.tables[h].tables| == |s.reg.items|)
    && (forall id :: 0 <= id < |s.reg.items| ==> s.reg.items[id].hub in s.tables)
  }

  function HubOf(s: System, h: u64): HubShape
    requires WellFormed(s) && h in s.tables
  {
    var t := s.tables[h];
    HubShape(h, s.reg.hubs[h].count, t.connI, t.closed, s.reg.hubs[h].stack)
  }

  function ItemOf(s: System, id: nat): ItemShape
    requires WellFormed(s) && id < |s.reg.items|
  {
    var it := s.reg.items[id];
    ItemShape(it.hub, it.key, s.tables[it.hub].tables[id])
  }

  function HubsOf(s: System): map<u64, HubShape>
    requires WellFormed(s)
  {
    map h | h in s.tables :: HubOf(s, h)
  }

  function ItemsOf(s: System): (items: seq<ItemShape>)
    requires WellFormed(s)
    ensures |items| == |s.reg.items| && forall id :: 0 <= id < |items| ==> items[id] == ItemOf(s, id)
  {
    seq(|s.reg.items|, id requires 0 <= id < |s.reg.items| => ItemOf(s, id))
  }

  // One hub may have changed, and one item.
  lemma OneHubChanged(s: System, s': System, h: u64)
    requires WellFormed(s) && WellFormed(s') && s'.tables.Keys == s.tables.Keys && h in s.tables
    requires forall j :: j in s.tables && j != h ==> HubOf(s', j) == HubOf(s, j)
    ensures HubsOf(s') == HubsOf(s)[h := HubOf(s', h)]
  {
  }

  lemma OneItemChanged(s: System, s': System, id: nat)
    requires WellFormed(s) && WellFormed(s') && id < |s.reg.items| == |s'.reg.items|
    requires forall j: nat :: j < |s.reg.items| && j != id ==> ItemOf(s', j) == ItemOf(s, j)
    ensures ItemsOf(s') == ItemsOf(s)[id := ItemOf(s', id)]
  {
  }

  // The same seen from the tables: item id of hub h made step x.
  lemma OneTableChanged(s: System, s': System, h: u64, id: nat, x: C.Event)
    requires WellFormed(s) && id < |s.reg.items| == |s'.reg.items| && h in s.tables && s'.reg.hubs.Keys == s.reg.hubs.Keys
    requires !x.NewItem? && x.item == id && s'.tables == s.tables[h := C.Step(s.tables[h], x)]
    requires forall j: nat :: j < |s.reg.items| ==> s'.reg.items[j].hub == s.reg.items[j].hub && s'.reg.items[j].key == s.reg.items[j].key
    ensures WellFormed(s')
    ensures forall j: nat :: j < |s.reg.items| && j != id ==> ItemOf(s', j) == ItemOf(s, j)
  {
    TouchesOneTable(s.tables[h], x, id);
  }

  lemma NewShapes(hubKeys: set<u64>)
    ensures var s := Exec(hubKeys, []);
      && WellFormed(s) && s.reg.i == 1000 && ItemsOf(s) == []
      && HubsOf(s) == map h | h in hubKeys :: HubShape(h, 0, 0, {}, map[])
  {
  }

  lemma SubmitShapes(s: System, e: R.Event)
    requires WellFormed(s) && e.Submit? && R.Enabled(s.reg, e)
    ensures var s' := Step(s, Registry(e));
      WellFormed(s') && s'.reg == R.Step(s.reg, e) && HubsOf(s') == HubsOf(s) && ItemsOf(s') == ItemsOf(s)
  {
    NoTables(s, Registry(e));
  }

  function Counted(h: HubShape): HubShape {
    h.(count := Increment(h.count))
  }

  lemma StartShapes(s: System, id: nat)
    requires WellFormed(s) && R.Enabled(s.reg, R.Start(id))
    ensures var s', h := Step(s, Registry(R.Start(id))), s.reg.items[id].hub;
      && WellFormed(s') && s'.reg.i == s.reg.i
      && HubsOf(s') == HubsOf(s)[h := Counted(HubOf(s, h))] && ItemsOf(s') == ItemsOf(s)
  {
    NoTables(s, Registry(R.Start(id)));
    StartedShapes(s, Step(s, Registry(R.Start(id))), id);
  }

  lemma StartedShapes(s: System, s': System, id: nat)
    requires WellFormed(s) && id < |s.reg.items| && s'.tables == s.tables
    requires var it := s.reg.items[id];
      && s'.reg.hubs == s.reg.hubs[it.hub := R.Started(s.reg.hubs[it.hub])]
      && s'.reg.items == s.reg.items[id := it.(phase := R.Running)]
    ensures var h := s.reg.items[id].hub;
      WellFormed(s') && HubsOf(s') == HubsOf(s)[h := Counted(HubOf(s, h))] && ItemsOf(s') == ItemsOf(s)
  {
    var h := s.reg.items[id].hub;
    OneHubChanged(s, s', h);
    assert forall j: nat :: j < |s.reg.items| ==> ItemOf(s', j) == ItemOf(s, j);
  }

  // A hub after one of its items completed, and the item.
  function Without(h: HubShape, it: ItemShape): HubShape {
    h.(count := R.Decrement(h.count), closed := h.closed + it.connections.Keys, stack := h.stack - {it.key})
  }

  function Emptied(it: ItemShape): ItemShape {
    it.(connections := map[])
  }

  lemma CompleteShapes(s: System, id: nat)
    requires WellFormed(s) && R.Enabled(s.reg, R.Complete(id))
    ensures var s', h := Step(s, Registry(R.Complete(id))), s.reg.items[id].hub;
      && WellFormed(s') && s'.reg.i == s.reg.i
      && HubsOf(s') == HubsOf(s)[h := Without(HubOf(s, h), ItemOf(s, id))]
      && ItemsOf(s') == ItemsOf(s)[id := Emptied(ItemOf(s, id))]
  {
    OneTable(s, Registry(R.Complete(id)), s.reg.items[id].hub, C.CompleteItem(id));
    CompletedShapes(s, Step(s, Registry(R.Complete(id))), id);
  }

  lemma CompletedShapes(s: System, s': System, id: nat)
    requires WellFormed(s) && id < |s.reg.items|
    requires var it := s.reg.items[id];
      && s'.tables == s.tables[it.hub := C.Step(s.tables[it.hub], C.CompleteItem(id))]
      && s'.reg.hubs == s.reg.hubs[it.hub := R.Completed(s.reg.hubs[it.hub], it.key)]
      && s'.reg.items == s.reg.items[id := it.(phase := R.Done)]
    ensures var h := s.reg.items[id].hub;
      && WellFormed(s')
      && HubsOf(s') == HubsOf(s)[h := Without(HubOf(s, h), ItemOf(s, id))]
      && ItemsOf(s') == ItemsOf(s)[id := Emptied(ItemOf(s, id))]
  {
    var h := s.reg.items[id].hub;
    assert s'.tables[h].tables[id] == map[] && s'.tables[h].closed == s.tables[h].closed + s.tables[h].tables[id].Keys;
    OneTableChanged(s, s', h, id, C.CompleteItem(id));
    assert HubsOf(s') == HubsOf(s)[h := HubOf(s', h)] by { OneHubChanged(s, s', h); }
    assert ItemsOf(s') == ItemsOf(s)[id := ItemOf(s', id)] by { OneItemChanged(s, s', id); }
  }

  // The hub creates item number |items|, or finds one or refuses and nothing changes.
  function OutcomeOf(s: R.State, r: nat): R.Outcome
    requires R.Enabled(s, R.Handle(r))
  {
    var q := s.waiting[r];
    R.Handled(s.hubs[q.hub], q.key, q.action, q.get, |s.items|).1
  }

  predicate Creates(s: R.State, r: nat)
    requires R.Enabled(s, R.Handle(r))
  {
    OutcomeOf(s, r) == R.Created
  }

  function With(h: HubShape, key: u64, number: nat): HubShape {
    h.(stack := h.stack[key := number])
  }

  lemma CreateShapes(s: System, r: nat)
    requires WellFormed(s) && R.Enabled(s.reg, R.Handle(r)) && Creates(s.reg, r)
    ensures var s', q := Step(s, Registry(R.Handle(r))), s.reg.waiting[r];
      && WellFormed(s') && s'.reg.i == s.reg.i
      && HubsOf(s') == HubsOf(s)[q.hub := With(HubOf(s, q.hub), q.key, |s.reg.items|)]
      && ItemsOf(s') == ItemsOf(s) + [ItemShape(q.hub, q.key, map[])]
  {
    EveryTable(s, Registry(R.Handle(r)));
    CreatedShapes(s, Step(s, Registry(R.Handle(r))), s.reg.waiting[r].hub, s.reg.waiting[r].key);
  }

  lemma CreatedShapes(s: System, s': System, h: u64, key: u64)
    requires WellFormed(s) && h in s.tables
    requires s'.tables == map j | j in s.tables :: WithNewItem(s.tables[j])
    requires s'.reg.hubs == s.reg.hubs[h := s.reg.hubs[h].(stack := s.reg.hubs[h].stack[key := |s.reg.items|])]
    requires |s'.reg.items| == |s.reg.items| + 1 && s'.reg.items[..|s.reg.items|] == s.reg.items
    requires s'.reg.items[|s.reg.items|] == R.Item(h, key, s'.reg.items[|s.reg.items|].phase)
    ensures WellFormed(s')
    ensures HubsOf(s') == HubsOf(s)[h := With(HubOf(s, h), key, |s.reg.items|)]
    ensures ItemsOf(s') == ItemsOf(s) + [ItemShape(h, key, map[])]
  {
    assert forall id :: 0 <= id < |s.reg.items| ==> s'.reg.items[id] == s'.reg.items[..|s.reg.items|][id];
    ItemsStay(s, s');
    OneHubChanged(s, s', h);
  }

  lemma ItemsStay(s: System, s': System)
    requires WellFormed(s) && WellFormed(s') && |s.reg.items| <= |s'.reg.items| && s.tables.Keys == s'.tables.Keys
    requires forall id :: 0 <= id < |s.reg.items| ==> s'.reg.items[id] == s.reg.items[id]
    requires forall h :: h in s.tables ==> s.tables[h].tables <= s'.tables[h].tables
    ensures forall id :: 0 <= id < |s.reg.items| ==> ItemOf(s', id) == ItemOf(s, id)
  {
  }

  lemma FindShapes(s: System, r: nat)
    requires WellFormed(s) && R.Enabled(s.reg, R.Handle(r)) && !Creates(s.reg, r)
    ensures var s' := Step(s, Registry(R.Handle(r)));
      WellFormed(s') && s'.reg.i == s.reg.i && HubsOf(s') == HubsOf(s) && ItemsOf(s') == ItemsOf(s)
  {
    NoTables(s, Registry(R.Handle(r)));
  }

  // A step of one item's connections: its hub's tables make it.
  function TableEvent(e: Event): C.Event
    requires !e.Registry?
  {
    match e
    case Connect(id) => C.NewConnection(id)
    case OpenChannel(id, c) => C.OpenChannel(id, c)
    case Drop(id, c) => C.DelConn(id, c)
  }

  // What it does to the hub and to the item.
  function HubAfter(h: HubShape, it: ItemShape, e: Event): HubShape {
    match e
    case Connect(_) => h.(connI := Increment(h.connI))
    case Drop(_, c) => h.(closed := h.closed + if c in it.connections then {c} else {})
    case _ => h
  }

  function ItemAfter(h: HubShape, it: ItemShape, e: Event): ItemShape {
    match e
    case Connect(_) => it.(connections := C.Entered(it.connections, Increment(h.connI), false))
    case OpenChannel(_, c) => if c in it.connections then it.(connections := C.Entered(it.connections, c, true)) else it
    case Drop(_, c) => it.(connections := it.connections - {c})
    case _ => it
  }

  lemma TableShapes(s: System, e: Event)
    requires WellFormed(s) && !e.Registry? && e.item < |s.reg.items|
    ensures var s', h := Step(s, e), s.reg.items[e.item].hub;
      && s'.tables == s.tables[h := C.Step(s.tables[h], TableEvent(e))]
      && WellFormed(s') && s'.reg == s.reg
      && HubsOf(s') == HubsOf(s)[h := HubAfter(HubOf(s, h), ItemOf(s, e.item), e)]
      && ItemsOf(s') == ItemsOf(s)[e.item := ItemAfter(HubOf(s, h), ItemOf(s, e.item), e)]
  {
    var h := s.reg.items[e.item].hub;
    OneTable(s, e, h, TableEvent(e));
    TableStepShapes(s.tables[h], HubOf(s, h), ItemOf(s, e.item), e);
    OneTableChanged(s, Step(s, e), h, e.item, TableEvent(e));
    OneHubChanged(s, Step(s, e), h);
    OneItemChanged(s, Step(s, e), e.item);
  }

  lemma TableStepShapes(t: C.Tables, h: HubShape, it: ItemShape, e: Event)
    requires !e.Registry? && e.item < |t.tables|
    requires h.connI == t.connI && h.closed == t.closed && it.connections == t.tables[e.item]
    ensures var t', h', it' := C.Step(t, TableEvent(e)), HubAfter(h, it, e), ItemAfter(h, it, e);
      && |t'.tables| == |t.tables|
      && h' == h.(connI := t'.connI, closed := t'.closed) && it' == it.(connections := t'.tables[e.item])
  {
    if e.Drop? && e.conn !in it.connections {
      assert it.connections - {e.conn} == it.connections;
    }
  }

  lemma TouchesOneTable(t: C.Tables, x: C.Event, id: nat)
    requires id < |t.tables| && !x.NewItem? && x.item == id
    ensures |C.Step(t, x).tables| == |t.tables|
    ensures forall j :: 0 <= j < |t.tables| && j != id ==> C.Step(t, x).tables[j] == t.tables[j]
  {
  }

  /* ---- the two parts of a run ---- */

  function RegistryRun(run: seq<Event>): seq<R.Event> {
    if run == [] then []
    else
      var before, e := run[..|run| - 1], run[|run| - 1];
      RegistryRun(before) + if e.Registry? then [e.step] else []
  }

  lemma {:induction false} RegistryPart(hubKeys: set<u64>, run: seq<Event>)
    ensures Exec(hubKeys, run).reg == R.Exec(hubKeys, RegistryRun(run))
    ensures |RegistryRun(run)| <= |run|
  {
    if run == [] {
    } else {
      var before, e := run[..|run| - 1], run[|run| - 1];
      RegistryPart(hubKeys, before);
      if e.Registry? {
        assert RegistryRun(run)[..|RegistryRun(before)|] == RegistryRun(before);
      } else {
        assert RegistryRun(run) == RegistryRun(before);
      }
    }
  }

  function TableRun(hubKeys: set<u64>, run: seq<Event>, h: u64): seq<C.Event> {
    if run == [] then []
    else
      var before, e := run[..|run| - 1], run[|run| - 1];
      TableRun(hubKeys, before, h) +
      match InTables(Exec(hubKeys, before).reg, e, h) case Some(x) => [x] case None => []
  }

  lemma {:induction false} TablePart(hubKeys: set<u64>, run: seq<Event>, h: u64)
    requires h in hubKeys
    ensures var s := Exec(hubKeys, run);
      h in s.tables && s.tables[h] == C.Exec(TableRun(hubKeys, run, h)) && |s.tables[h].tables| == |s.reg.items|
    ensures |TableRun(hubKeys, run, h)| <= |run|
  {
    if run == [] {
    } else {
      var before, e := run[..|run| - 1], run[|run| - 1];
      TablePart(hubKeys, before, h);
      OneEvent(Exec(hubKeys, before), e, h);
      match InTables(Exec(hubKeys, before).reg, e, h)
      case Some(x) => C.ExecSnoc(TableRun(hubKeys, before, h), x);
      case None => assert TableRun(hubKeys, run, h) == TableRun(hubKeys, before, h);
    }
  }

  // Every item has one table in every hub.
  lemma OneEvent(s: System, e: Event, h: u64)
    requires h in s.tables && |s.tables[h].tables| == |s.reg.items|
    ensures |Step(s, e).tables[h].tables| == |Step(s, e).reg.items|
  {
    if e.Registry? { ItemsGrowByOne(s.reg, e.step); }
  }

  lemma ItemsGrowByOne(s: R.State, e: R.Event)
    ensures |s.items| <= |R.Step(s, e).items| <= |s.items| + 1
    ensures |R.Step(s, e).items| > |s.items| ==> e.Handle?
  {
  }

  /* ---- open connections, by the history ---- */

  // The connections hub h has numbered so far.
  function Connects(hubKeys: set<u64>, run: seq<Event>, h: u64): nat {
    if run == [] then 0
    else
      var before, e := run[..|run| - 1], run[|run| - 1];
      Connects(hubKeys, before, h) + if e.Connect? && OfHub(Exec(hubKeys, before).reg, e.item, h) then 1 else 0
  }

  // Number c, the next of its hub, goes to a connection of item id.
  predicate Gives(hubKeys: set<u64>, before: seq<Event>, e: Event, id: nat, c: u64) {
    var items := Exec(hubKeys, before).reg.items;
    e == Connect(id) && id < |items| && c == Connects(hubKeys, before, items[id].hub) + 1
  }

  // The connection is dropped, or its item completed.
  predicate Takes(hubKeys: set<u64>, before: seq<Event>, e: Event, id: nat, c: u64) {
    || e == Drop(id, c)
    || (e == Registry(R.Complete(id)) && Began(hubKeys, before, id) && !Ended(hubKeys, before, id))
  }

  predicate Began(hubKeys: set<u64>, run: seq<Event>, id: nat) {
    R.Began(hubKeys, RegistryRun(run), id)
  }

  predicate Ended(hubKeys: set<u64>, run: seq<Event>, id: nat) {
    R.Ended(hubKeys, RegistryRun(run), id)
  }

  // Item id was given connection c, which was not taken from it since.
  predicate Has(hubKeys: set<u64>, run: seq<Event>, id: nat, c: u64) {
    run != [] &&
    var before, e := run[..|run| - 1], run[|run| - 1];
    Gives(hubKeys, before, e, id, c) || (Has(hubKeys, before, id, c) && !Takes(hubKeys, before, e, id, c))
  }

  // And its peer opened the data channel while item id had it.
  predicate Opened(hubKeys: set<u64>, run: seq<Event>, id: nat, c: u64) {
    run != [] &&
    var before, e := run[..|run| - 1], run[|run| - 1];
    if e == OpenChannel(id, c) then Has(hubKeys, before, id, c)
    else Opened(hubKeys, before, id, c) && !Takes(hubKeys, before, e, id, c)
  }

  lemma {:induction false} ConnectionsAreNumbered(hubKeys: set<u64>, run: seq<Event>, h: u64)
    requires NoWrap(run) && h in hubKeys
    ensures h in Exec(hubKeys, run).tables && Exec(hubKeys, run).tables[h].connI == Connects(hubKeys, run, h) <= |run|
  {
    if run == [] {
    } else {
      var before, e := run[..|run| - 1], run[|run| - 1];
      ConnectionsAreNumbered(hubKeys, before, h);
      TablePart(hubKeys, before, h);
      NumberStep(Exec(hubKeys, before), e, h);
    }
  }

  lemma HubStep(s: System, e: Event, h: u64)
    requires h in s.tables
    ensures h in Step(s, e).tables && Step(s, e).tables[h] == TablesAfter(s.tables[h], InTables(s.reg, e, h))
  {
  }

  lemma NumberStep(s: System, e: Event, h: u64)
    requires h in s.tables && |s.tables[h].tables| == |s.reg.items| && s.tables[h].connI < TWO_64 - 1
    ensures h in Step(s, e).tables
    ensures Step(s, e).tables[h].connI == s.tables[h].connI + if e.Connect? && OfHub(s.reg, e.item, h) then 1 else 0
  {
    HubStep(s, e, h);
  }

  // The tables say what the history says.
  lemma {:induction false} TableByHistory(hubKeys: set<u64>, run: seq<Event>, h: u64, id: nat, c: u64)
    requires NoWrap(run) && h in hubKeys
    requires OfHub(Exec(hubKeys, run).reg, id, h)
    ensures h in Exec(hubKeys, run).tables && id < |Exec(hubKeys, run).tables[h].tables|
    ensures c in Exec(hubKeys, run).tables[h].tables[id] <==> Has(hubKeys, run, id, c)
    ensures IsOpen(Exec(hubKeys, run), h, id, c) <==> Opened(hubKeys, run, id, c)
    ensures Has(hubKeys, run, id, c) ==> c <= Connects(hubKeys, run, h)
  {
    TablePart(hubKeys, run, h);
    if run == [] {
    } else {
      var before, e := run[..|run| - 1], run[|run| - 1];
      var s := Exec(hubKeys, before);
      TablePart(hubKeys, before, h);
      HubStep(s, e, h);
      ItemsKeepPlace(s.reg, e);
      if id < |s.reg.items| {
        TableByHistory(hubKeys, before, h, id, c);
        ConnectionsAreNumbered(hubKeys, before, h);
        ByHistoryStep(hubKeys, run, h, id, c);
      } else {
        NothingYet(hubKeys, before, id, c);
      }
    }
  }

  lemma ItemsKeepPlace(s: R.State, e: Event)
    ensures |s.items| <= |Registered(s, e).items| <= |s.items| + 1
    ensures forall id :: 0 <= id < |s.items| ==>
      Registered(s, e).items[id] == s.items[id].(phase := Registered(s, e).items[id].phase)
  {
  }

  lemma {:induction false} NothingYet(hubKeys: set<u64>, run: seq<Event>, id: nat, c: u64)
    requires id >= |Exec(hubKeys, run).reg.items|
    ensures !Has(hubKeys, run, id, c) && !Opened(hubKeys, run, id, c)
  {
    if run == [] {
    } else {
      ItemsKeepPlace(Exec(hubKeys, run[..|run| - 1]).reg, run[|run| - 1]);
      NothingYet(hubKeys, run[..|run| - 1], id, c);
    }
  }

  // One entry of a hub's tables after an event.
  lemma EntryStep(s: System, e: Event, h: u64, id: nat, c: u64)
    requires h in s.tables && OfHub(s.reg, id, h) && id < |s.tables[h].tables| && s.tables[h].connI < TWO_64 - 1
    ensures var t, t' := s.tables[h], TablesAfter(s.tables[h], InTables(s.reg, e, h));
      && id < |t'.tables|
      && (c in t'.tables[id] <==>
            || (e == Connect(id) && c == t.connI + 1)
            || (c in t.tables[id] && e != Drop(id, c) && InTables(s.reg, e, h) != Some(C.CompleteItem(id))))
      && (c in t'.tables[id] ==>
            t'.tables[id][c] ==
              if e == Connect(id) && c == t.connI + 1 then false
              else e == OpenChannel(id, c) || t.tables[id][c])
  {
  }

  lemma ByHistoryStep(hubKeys: set<u64>, run: seq<Event>, h: u64, id: nat, c: u64)
    requires NoWrap(run) && run != []
    requires var before := run[..|run| - 1]; var s := Exec(hubKeys, before);
      && OfHub(s.reg, id, h) && h in s.tables && id < |s.tables[h].tables|
      && s.tables[h].connI == Connects(hubKeys, before, h) <= |before|
      && (c in s.tables[h].tables[id] <==> Has(hubKeys, before, id, c))
      && (IsOpen(s, h, id, c) <==> Opened(hubKeys, before, id, c))
      && (Has(hubKeys, before, id, c) ==> c <= Connects(hubKeys, before, h))
    ensures var s, e := Exec(hubKeys, run[..|run| - 1]), run[|run| - 1]; var t := TablesAfter(s.tables[h], InTables(s.reg, e, h));
      && id < |t.tables|
      && (c in t.tables[id] <==> Has(hubKeys, run, id, c))
      && (c in t.tables[id] && t.tables[id][c] <==> Opened(hubKeys, run, id, c))
      && (Has(hubKeys, run, id, c) ==> c <= Connects(hubKeys, run, h))
  {
    var before, e := run[..|run| - 1], run[|run| - 1];
    var s := Exec(hubKeys, before);
    CompletesByHistory(hubKeys, before, e, h, id);
    EntryStep(s, e, h, id, c);
    assert Takes(hubKeys, before, e, id, c) <==> e == Drop(id, c) || InTables(s.reg, e, h) == Some(C.CompleteItem(id));
    assert Gives(hubKeys, before, e, id, c) <==> e == Connect(id) && c == s.tables[h].connI + 1;
  }

  lemma CompletesByHistory(hubKeys: set<u64>, before: seq<Event>, e: Event, h: u64, id: nat)
    requires NoWrap(before) && OfHub(Exec(hubKeys, before).reg, id, h)
    ensures InTables(Exec(hubKeys, before).reg, e, h) == Some(C.CompleteItem(id)) <==>
      e == Registry(R.Complete(id)) && Began(hubKeys, before, id) && !Ended(hubKeys, before, id)
  {
    RegistryPart(hubKeys, before);
    R.ProgressByHistory(hubKeys, RegistryRun(before), id);
  }

  /* ---- sends ---- */

  // What SendAll visits: the entry of a live key above 1000, a connection in its table whose
  // data channel is open.
  predicate Visited(s: System, a: (u64, u64, u64)) {
    R.LiveIn(s.reg.hubs, a.0, a.1) && a.1 > 1000 && IsOpen(s, a.0, s.reg.hubs[a.0].stack[a.1], a.2)
  }

  predicate IsOpen(s: System, h: u64, id: nat, c: u64) {
    h in s.tables && id < |s.tables[h].tables| && c in s.tables[h].tables[id] && s.tables[h].tables[id][c]
  }

  // The numbers name a connection whose data channel was opened, not dropped since, of an item
  // that is not completed.
  ghost predicate OpenNow(hubKeys: set<u64>, run: seq<Event>, a: (u64, u64, u64)) {
    exists id: nat :: OpenOf(hubKeys, run, id, a)
  }

  predicate OpenOf(hubKeys: set<u64>, run: seq<Event>, id: nat, a: (u64, u64, u64)) {
    var items := Exec(hubKeys, run).reg.items;
    && id < |items| && items[id].hub == a.0 && items[id].key == a.1
    && !Ended(hubKeys, run, id) && Opened(hubKeys, run, id, a.2)
  }

  // For instance one that was just made, and opened.
  lemma JustOpened(hubKeys: set<u64>, run: seq<Event>, id: nat)
    requires NoWrap(run) && id < |Exec(hubKeys, run).reg.items| && !Ended(hubKeys, run, id)
    ensures var it := Exec(hubKeys, run).reg.items[id];
      && Connects(hubKeys, run, it.hub) + 1 < TWO_64
      && var c := Connects(hubKeys, run, it.hub) + 1;
      OpenNow(hubKeys, run + [Connect(id)] + [OpenChannel(id, c)], (it.hub, it.key, c))
  {
    var it := Exec(hubKeys, run).reg.items[id];
    UncompletedEntry(hubKeys, run, id);
    ConnectionsAreNumbered(hubKeys, run, it.hub);
    var c := Connects(hubKeys, run, it.hub) + 1;
    var e, e' := Connect(id), OpenChannel(id, c);
    ConnectionEvent(hubKeys, run, e);
    ConnectionEvent(hubKeys, run + [e], e');
    assert (run + [e])[..|run|] == run && (run + [e] + [e'])[..|run| + 1] == run + [e];
    assert Has(hubKeys, run + [e], id, c);
    assert OpenOf(hubKeys, run + [e] + [e'], id, (it.hub, it.key, c));
  }

  lemma ConnectionEvent(hubKeys: set<u64>, run: seq<Event>, e: Event)
    requires !e.Registry?
    ensures Exec(hubKeys, run + [e]).reg == Exec(hubKeys, run).reg && RegistryRun(run + [e]) == RegistryRun(run)
  {
    assert (run + [e])[..|run|] == run;
  }

  predicate NoWrap(run: seq<Event>) {
    |run| < TWO_64 - 1000
  }

  // In every reachable state the filter on keys excludes nothing, and the lookup by key misses
  // nothing: what SendAll visits is exactly what the history calls open.
  lemma FilterExcludesNothing(hubKeys: set<u64>, run: seq<Event>, a: (u64, u64, u64))
    requires NoWrap(run)
    ensures Visited(Exec(hubKeys, run), a) <==> OpenNow(hubKeys, run, a)
  {
    var s := Exec(hubKeys, run);
    LiveEntry(hubKeys, run, a.0, a.1);
    if Visited(s, a) {
      var id := s.reg.hubs[a.0].stack[a.1];
      TableByHistory(hubKeys, run, a.0, id, a.2);
      assert OpenOf(hubKeys, run, id, a);
    }
    if id: nat :| OpenOf(hubKeys, run, id, a) {
      UncompletedEntry(hubKeys, run, id);
      TableByHistory(hubKeys, run, a.0, id, a.2);
    }
  }

  // A live key is above 1000, and its entry an uncompleted item of that hub under that key.
  lemma LiveEntry(hubKeys: set<u64>, run: seq<Event>, h: u64, k: u64)
    requires NoWrap(run)
    ensures var s := Exec(hubKeys, run).reg;
      R.LiveIn(s.hubs, h, k) ==>
        var id := s.hubs[h].stack[k];
        && h in hubKeys && k > 1000 && id < |s.items| && s.items[id].hub == h && s.items[id].key == k
        && !Ended(hubKeys, run, id)
  {
    RegistryPart(hubKeys, run);
    R.EveryRunKeepsInv(hubKeys, RegistryRun(run));
    var s := Exec(hubKeys, run).reg;
    if R.LiveIn(s.hubs, h, k) {
      R.ProgressByHistory(hubKeys, RegistryRun(run), s.hubs[h].stack[k]);
    }
  }

  lemma UncompletedEntry(hubKeys: set<u64>, run: seq<Event>, id: nat)
    requires NoWrap(run) && id < |Exec(hubKeys, run).reg.items| && !Ended(hubKeys, run, id)
    ensures var s := Exec(hubKeys, run).reg; var it := s.items[id];
      it.hub in hubKeys && it.key > 1000 && R.LiveIn(s.hubs, it.hub, it.key) && s.hubs[it.hub].stack[it.key] == id
  {
    RegistryPart(hubKeys, run);
    R.EveryRunKeepsInv(hubKeys, RegistryRun(run));
    R.ProgressByHistory(hubKeys, RegistryRun(run), id);
  }

  // A number names one connection: no other item of the hub has it, live or completed.
  lemma OneItemPerConnection(hubKeys: set<u64>, run: seq<Event>, h: u64, i: nat, j: nat, c: u64)
    requires NoWrap(run) && h in hubKeys
    requires h in Exec(hubKeys, run).tables
    requires C.HeldBy(Exec(hubKeys, run).tables[h], i, c) && C.HeldBy(Exec(hubKeys, run).tables[h], j, c)
    ensures i == j
  {
    TablePart(hubKeys, run, h);
    C.EveryConnectionAccounted(TableRun(hubKeys, run, h));
  }
}
