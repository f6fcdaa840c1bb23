// The WebRTC registry as the server runs it: hub, item and request objects updated in place.
// The server object carries, for the proofs only, the run it has made so far; every method
// makes one step of it.
module WebrtcServer {
  import opened Base
  import opened WebrtcRegistry
  import Address
  import Decimal
  import Runs = WebrtcRuns

  // A request object; `key` is its "key" datum, 0 when absent or unreadable.
  class WebrtObj {
    const action: Action
    const get: bool
    var key: u64

    constructor (action: Action, get: bool, key: u64)
      ensures this.action == action && this.get == get && this.key == key
    {
      this.action, this.get, this.key := action, get, key;
    }
  }

  // A connection table entry is true once the peer has opened its data channel.
  class WebrtItem {
    const key: u64
    const hub: WebrtHub
    const obj: WebrtObj
    ghost const number: nat // its number in the run
    var connections: map<u64, bool>

    constructor (key: u64, hub: WebrtHub, obj: WebrtObj, ghost number: nat)
      ensures this.key == key && this.hub == hub && this.obj == obj && this.number == number && connections == map[]
    {
      this.key, this.hub, this.obj, this.number := key, hub, obj, number;
      connections := map[];
    }

    ghost function Shape(): Runs.ItemShape
      reads this
    {
      Runs.ItemShape(hub.key, key, connections)
    }

    method NewConnection() returns (c: u64)
      modifies this`connections, hub`connI
      ensures c == hub.connI == Increment(old(hub.connI))
      ensures connections == old(connections)[c := false]
    {
      hub.connI := Increment(hub.connI);
      c := hub.connI;
      connections := connections[c := false];
    }

    method OnDataChannel(c: u64)
      modifies this`connections
      ensures connections == if c in old(connections) then old(connections)[c := true] else old(connections)
    {
      if c in connections {
        connections := connections[c := true];
      }
    }

    // Close the peer, then forget it; nothing happens when it is already gone.
    method DelConn(c: u64)
      modifies this`connections, hub`closed
      ensures connections == old(connections) - {c}
      ensures hub.closed == old(hub.closed) + if c in old(connections) then {c} else {}
    {
      if c in connections {
        hub.closed := hub.closed + {c};
        connections := connections - {c};
      }
    }

    method Start()
      modifies hub`count
      ensures hub.View() == Started(old(hub.View()))
    {
      hub.count := Increment(hub.count);
    }

    // The item's goroutine ends: one mutexed update of the hub, then every peer is closed.
    method Complete()
      modifies hub`count, hub`stack, hub`closed, this`connections
      ensures hub.View() == Completed(old(hub.View()), obj.key)
      ensures connections == map[]
      ensures hub.closed == old(hub.closed) + old(connections).Keys
    {
      var key := obj.key;
      hub.count := Decrement(hub.count);
      assert key !in hub.stack ==> hub.stack - {key} == hub.stack;
      if key in hub.stack {
        hub.stack := hub.stack - {key};
      }
      var todo := connections.Keys;
      while todo != {}
        invariant hub.View() == Completed(old(hub.View()), key)
        invariant todo == connections.Keys <= old(connections).Keys
        invariant hub.closed + todo == old(hub.closed) + old(connections).Keys
        decreases todo
      {
        var c :| c in todo;
        DelConn(c);
        todo := todo - {c};
      }
    }

    // One send to each connection with a data channel; the caller knows the item as (h, k).
    method SendAll(h: u64, k: u64) returns (log: seq<(u64, u64, u64)>)
      ensures forall a: (u64, u64, u64) :: multiset(log)[a] == if a.0 == h && a.1 == k && Open(a.2) then 1 else 0
    {
      log := [];
      var todo := connections.Keys;
      while todo != {}
        invariant todo <= connections.Keys
        invariant forall a: (u64, u64, u64) ::
          multiset(log)[a] == if a.0 == h && a.1 == k && a.2 !in todo && Open(a.2) then 1 else 0
        decreases todo
      {
        var c :| c in todo;
        if connections[c] {
          log := log + [(h, k, c)];
        }
        todo := todo - {c};
      }
    }

    predicate Open(c: u64)
      reads this
    {
      c in connections && connections[c]
    }
  }

  class WebrtHub {
    const key: u64
    var count: u64
    var connI: u64
    var closed: set<u64>
    var stack: map<u64, WebrtItem>

    constructor (key: u64)
      ensures this.key == key && View() == Hub(0, map[]) && connI == 0 && closed == {}
    {
      this.key := key;
      count, connI, closed, stack := 0, 0, {}, map[];
    }

    function View(): Hub<WebrtItem>
      reads this
    {
      Hub(count, stack)
    }

    ghost function Shape(): Runs.HubShape
      reads this
    {
      Runs.HubShape(key, count, connI, closed, Numbers(stack))
    }

    method ItemByObj(obj: WebrtObj, ghost number: nat) returns (item: WebrtItem)
      modifies this`stack
      ensures obj.key in stack && stack[obj.key] == item
      ensures obj.key in old(stack) ==> stack == old(stack)
      ensures obj.key !in old(stack) ==>
        && fresh(item) && item.key == obj.key && item.hub == this && item.obj == obj && item.number == number && item.connections == map[]
        && stack == old(stack)[obj.key := item]
    {
      if obj.key in stack {
        return stack[obj.key];
      }
      item := new WebrtItem(obj.key, this, obj, number);
      stack := stack[obj.key := item];
    }

    // One request taken from ChanStack.
    method Handle(obj: WebrtObj, ghost number: nat) returns (outcome: Outcome, item: WebrtItem?)
      modifies this`stack
      ensures item != null ==> (View(), outcome) == Handled(old(View()), obj.key, obj.action, obj.get, item)
      ensures item != null && outcome == Created ==>
        fresh(item) && item.key == obj.key && item.hub == this && item.obj == obj && item.number == number && item.connections == map[]
      ensures if outcome == Created then item != null && stack == old(stack)[obj.key := item] else stack == old(stack)
      ensures item == null ==>
        View() == old(View()) && outcome == Refused && obj.key !in stack && obj.action == CameraVideoStream && obj.get
    {
      var live := obj.key in stack;
      if obj.action == CameraVideoStream && obj.get && !live {
        return Refused, null;
      }
      item := ItemByObj(obj, number);
      outcome := if live then Existing else Created;
    }

    method SendAll() returns (log: seq<(u64, u64, u64)>)
      ensures forall a: (u64, u64, u64) :: multiset(log)[a] == if a.0 == key && Reached(a.1, a.2) then 1 else 0
    {
      log := [];
      var todo := stack.Keys;
      while todo != {}
        invariant todo <= stack.Keys
        invariant forall a: (u64, u64, u64) ::
          multiset(log)[a] == if a.0 == key && a.1 !in todo && Reached(a.1, a.2) then 1 else 0
        decreases todo
      {
        var k :| k in todo;
        if k > FIRST_KEY {
          var more := stack[k].SendAll(key, k);
          log := log + more;
        }
        todo := todo - {k};
      }
    }

    ghost predicate Reached(k: u64, c: u64)
      reads this, set k | k in stack :: stack[k]
    {
      k in stack && k > 1000 && stack[k].Open(c)
    }
  }

  ghost function Numbers(stack: map<u64, WebrtItem>): map<u64, nat> {
    map k | k in stack :: stack[k].number
  }

  lemma NumbersWith(stack: map<u64, WebrtItem>, item: WebrtItem)
    requires item.key !in stack
    ensures Numbers(stack[item.key := item]) == Numbers(stack)[item.key := item.number]
    ensures stack[item.key := item] - {item.key} == stack
  {
  }

  lemma NumbersWithout(stack: map<u64, WebrtItem>, key: u64)
    ensures Numbers(stack - {key}) == Numbers(stack) - {key}
  {
  }

  // The items a hub stores are its own, and each stands in the list under its number.
  ghost predicate AllListed(items: seq<WebrtItem>, hub: WebrtHub, stack: map<u64, WebrtItem>) {
    forall k :: k in stack ==> stack[k].number < |items| && items[stack[k].number] == stack[k] && stack[k].hub == hub
  }

  lemma OneMoreListed(items: seq<WebrtItem>, item: WebrtItem, hub: WebrtHub, stack: map<u64, WebrtItem>)
    requires AllListed(items, hub, stack - {item.key})
    requires item.key in stack && stack[item.key] == item && item.number == |items| && item.hub == hub
    ensures AllListed(items + [item], hub, stack)
  {
    forall k | k in stack ensures stack[k].number <= |items| && (items + [item])[stack[k].number] == stack[k] && stack[k].hub == hub {
      if k != item.key {
        assert k in stack - {item.key};
      }
    }
  }

  class WebrtcApi {
    var i: u64
    var stack: map<u64, WebrtHub>

    // For the proofs: the items in the order they were created, and all objects concerned.
    ghost var items: seq<WebrtItem>
    ghost var parts: set<object>

    // The objects hold what state s of a run says.
    ghost predicate Holds(s: Runs.System)
      reads this, parts
    {
      Runs.WellFormed(s) && i == s.reg.i && Mirrored(Runs.HubsOf(s), Runs.ItemsOf(s))
    }

    ghost predicate Mirrored(hubs: map<u64, Runs.HubShape>, shapes: seq<Runs.ItemShape>)
      reads `stack, `items, `parts, parts
    {
      && stack.Keys == hubs.Keys && |items| == |shapes|
      && HubsMirrored(hubs, {}) && ItemsMirrored(shapes, |shapes|, |shapes|)
    }

    // All hubs but those under `except`; the first `n` items but number `except`.
    ghost predicate HubsMirrored(hubs: map<u64, Runs.HubShape>, except: set<u64>)
      requires stack.Keys == hubs.Keys
      reads `stack, `items, `parts, parts
    {
      forall h :: h in stack && h !in except ==> stack[h] in parts && HubMirrored(stack[h], h, hubs[h])
    }

    ghost predicate ItemsMirrored(shapes: seq<Runs.ItemShape>, n: nat, except: nat)
      requires n <= |items| && n <= |shapes|
      reads `stack, `items, `parts, parts
    {
      forall id: nat :: id < n && id != except ==>
        items[id] in parts && items[id].obj in parts && ItemMirrored(items[id], id, shapes[id])
    }

    lemma Reassemble(item: WebrtItem, hubs: map<u64, Runs.HubShape>, shapes: seq<Runs.ItemShape>,
                     hub: Runs.HubShape, shape: Runs.ItemShape)
      requires stack.Keys == hubs.Keys && |items| == |shapes| && Listed(item)
      requires item in parts && item.obj in parts && item.hub in parts && item.hub.key in stack && stack[item.hub.key] == item.hub
      requires HubsMirrored(hubs, {item.hub.key}) && HubMirrored(item.hub, item.hub.key, hub)
      requires ItemsMirrored(shapes, |shapes|, item.number) && ItemMirrored(item, item.number, shape)
      ensures Mirrored(hubs[item.hub.key := hub], shapes[item.number := shape])
    {
    }

    lemma ReassembleNew(item: WebrtItem, hubs: map<u64, Runs.HubShape>, shapes: seq<Runs.ItemShape>,
                        hub: Runs.HubShape, shape: Runs.ItemShape)
      requires stack.Keys == hubs.Keys && |items| == |shapes| + 1 && Listed(item) && item.number == |shapes|
      requires item in parts && item.obj in parts && item.hub in parts && item.hub.key in stack && stack[item.hub.key] == item.hub
      requires HubsMirrored(hubs, {item.hub.key}) && HubMirrored(item.hub, item.hub.key, hub)
      requires ItemsMirrored(shapes, |shapes|, |shapes|) && ItemMirrored(item, item.number, shape)
      ensures Mirrored(hubs[item.hub.key := hub], shapes + [shape])
    {
    }

    ghost predicate HubMirrored(hub: WebrtHub, h: u64, shape: Runs.HubShape)
      reads `items, hub
    {
      hub.key == h && hub.Shape() == shape && AllListed(items, hub, hub.stack)
    }

    ghost predicate ItemMirrored(item: WebrtItem, id: nat, shape: Runs.ItemShape)
      reads `stack, item, item.obj
    {
      && item.number == id && item.Shape() == shape
      && item.obj.key == item.key && item.hub.key in stack && stack[item.hub.key] == item.hub
    }

    ghost predicate Listed(item: WebrtItem)
      reads `items
    {
      item.number < |items| && items[item.number] == item
    }

    function View(): map<u64, Hub<WebrtItem>>
      reads `stack, set h | h in stack :: stack[h]
    {
      map h | h in stack :: stack[h].View()
    }

    ghost predicate Wired()
      reads `stack
    {
      forall h :: h in stack ==> stack[h].key == h
    }

    // webrtc(): hub keys come from a clock of one second, so the number of hubs is not known;
    // there is at least one.
    constructor (hubKeys: set<u64>)
      requires hubKeys != {}
      ensures Holds(Runs.Exec(hubKeys, [])) && stack.Keys == hubKeys && fresh(parts) && i == 1000
      ensures forall h :: h in stack ==> fresh(stack[h])
    {
      i, stack := FIRST_KEY, map[];
      items, parts := [], {};
      new;
      var todo := hubKeys;
      while todo != {}
        invariant todo <= hubKeys && stack.Keys == hubKeys - todo && i == 1000 && items == [] && fresh(parts)
        invariant forall h :: h in stack ==>
          fresh(stack[h]) && stack[h] in parts && stack[h].key == h && stack[h].View() == Hub(0, map[])
          && stack[h].connI == 0 && stack[h].closed == {}
        decreases todo
      {
        var h :| h in todo;
        var hub := new WebrtHub(h);
        stack, parts := stack[h := hub], parts + {hub};
        todo := todo - {h};
      }
      Runs.NewShapes(hubKeys);
    }

    // WebrtHub(): any hub first, then whichever has a smaller Count.
    method LeastLoaded() returns (hub: WebrtHub)
      requires Wired() && stack.Keys != {}
      ensures hub.key in stack && stack[hub.key] == hub
      ensures forall h :: h in stack ==> hub.count <= stack[h].count
    {
      var first :| first in stack.Keys;
      hub := stack[first];
      var todo := stack.Keys;
      while todo != {}
        invariant todo <= stack.Keys
        invariant hub.key in stack && stack[hub.key] == hub
        invariant forall h :: h in stack && h !in todo ==> hub.count <= stack[h].count
        decreases todo
      {
        var h :| h in todo;
        if stack[h].count < hub.count {
          hub := stack[h];
        }
        todo := todo - {h};
      }
    }

    // The first hub, in any order, whose stack holds the key.
    method Find(key: u64) returns (found: Option<WebrtHub>)
      requires Wired()
      ensures found.Some? ==> LiveIn(View(), found.value.key, key) && stack[found.value.key] == found.value
      ensures found.None? ==> !Live(View(), key)
    {
      var todo := stack.Keys;
      while todo != {}
        invariant todo <= stack.Keys
        invariant forall h :: h in stack && h !in todo ==> key !in stack[h].stack
        decreases todo
      {
        var h :| h in todo;
        if key in stack[h].stack {
          return Some(stack[h]);
        }
        todo := todo - {h};
      }
      found := None;
    }

    // WebrtHubByObj.
    method HubByObj(obj: WebrtObj, ghost hubs: map<u64, Runs.HubShape>, ghost shapes: seq<Runs.ItemShape>)
      returns (hub: WebrtHub)
      requires Wired() && stack.Keys != {} && Mirrored(hubs, shapes) && obj !in parts
      modifies this`i, obj`key
      ensures Mirrored(hubs, shapes)
      ensures View() == old(View()) && hub.key in stack && stack[hub.key] == hub
      ensures Routed(old(i), View(), old(obj.key), i, obj.key, hub.key)
      ensures i != old(i) ==> forall h :: h in stack ==> hub.count <= stack[h].count
    {
      ghost var hubsBefore, key := View(), obj.key;
      if obj.key > 0 {
        var found := Find(obj.key);
        if found.Some? {
          return found.value;
        }
        assert !Live(hubsBefore, key);
      }
      hub := Fresh(obj, hubs, shapes);
      assert View() == hubsBefore && hub.key in hubsBefore;
    }

    method Fresh(obj: WebrtObj, ghost hubs: map<u64, Runs.HubShape>, ghost shapes: seq<Runs.ItemShape>)
      returns (hub: WebrtHub)
      requires Wired() && stack.Keys != {} && Mirrored(hubs, shapes) && obj !in parts
      modifies this`i, obj`key
      ensures Mirrored(hubs, shapes) && View() == old(View()) && i == obj.key == Increment(old(i))
      ensures hub.key in stack && stack[hub.key] == hub && forall h :: h in stack ==> hub.count <= stack[h].count
    {
      IssueKey(obj, hubs, shapes);
      hub := LeastLoaded();
    }

    method IssueKey(obj: WebrtObj, ghost hubs: map<u64, Runs.HubShape>, ghost shapes: seq<Runs.ItemShape>)
      requires Mirrored(hubs, shapes) && obj !in parts
      modifies this`i, obj`key
      ensures Mirrored(hubs, shapes) && View() == old(View()) && i == obj.key == Increment(old(i))
    {
      i := Increment(i);
      obj.key := i;
    }

    lemma SameKeysAsRun(s: Runs.System)
      requires Holds(s)
      ensures SameKeys(View(), s.reg.hubs) && Wired()
    {
      forall h | h in stack ensures stack[h].key == h && View()[h].stack.Keys == s.reg.hubs[h].stack.Keys {
        assert stack[h].Shape() == Runs.HubOf(s, h);
      }
    }

    // The request waits under its number for the hub, as this object says.
    ghost predicate Waits(s: State, r: nat, hub: WebrtHub, obj: WebrtObj)
      reads obj
    {
      r in s.waiting && s.waiting[r] == Request(hub.key, obj.key, obj.action, obj.get, s.waiting[r].issued)
    }

    // Routing, as the run's submission step.
    method Route(obj: WebrtObj, ghost s: State, ghost hubs: map<u64, Runs.HubShape>, ghost shapes: seq<Runs.ItemShape>)
      returns (hub: WebrtHub, ghost e: Event)
      requires Mirrored(hubs, shapes) && Wired() && stack.Keys != {} && SameKeys(View(), s.hubs) && i == s.i && obj !in parts
      modifies `i, obj`key
      ensures Mirrored(hubs, shapes)
      ensures hub.key in stack && stack[hub.key] == hub
      ensures e == WebrtcRegistry.Submit(old(obj.key), obj.action, obj.get, hub.key)
      ensures Enabled(s, e) && i == Step(s, e).i && Waits(Step(s, e), s.requests, hub, obj)
    {
      hub := HubByObj(obj, hubs, shapes);
      assert Routed(old(i), s.hubs, old(obj.key), i, obj.key, hub.key) by {
        SameRouting(View(), s.hubs, old(i), old(obj.key), i, obj.key, hub.key);
      }
      e := WebrtcRegistry.Submit(old(obj.key), obj.action, obj.get, hub.key);
      RoutedIsSubmitted(s, e, i, obj.key);
    }

    // An HTTP handler routes its own request object, which no item has.
    method Submit(obj: WebrtObj, ghost s: Runs.System) returns (hub: WebrtHub, ghost e: Event)
      requires Holds(s) && stack.Keys != {} && obj !in parts
      modifies `i, obj`key
      ensures e == WebrtcRegistry.Submit(old(obj.key), obj.action, obj.get, hub.key) && Enabled(s.reg, e)
      ensures Holds(Runs.Step(s, Runs.Registry(e)))
      ensures Waits(Step(s.reg, e), s.reg.requests, hub, obj)
    {
      assert SameKeys(View(), s.reg.hubs) && Wired() by { SameKeysAsRun(s); }
      hub, e := Route(obj, s.reg, Runs.HubsOf(s), Runs.ItemsOf(s));
      Runs.SubmitShapes(s, e);
    }

    // The item's goroutine starts.
    method ItemStarts(item: WebrtItem, ghost s: Runs.System)
      requires Holds(s) && Listed(item) && Enabled(s.reg, Start(item.number))
      modifies item.hub`count
      ensures Holds(Runs.Step(s, Runs.Registry(Start(item.number))))
    {
      assert ItemMirrored(item, item.number, Runs.ItemOf(s, item.number));
      Runs.StartShapes(s, item.number);
      StartMirrored(item, Runs.HubsOf(s), Runs.ItemsOf(s));
    }

    method StartMirrored(item: WebrtItem, ghost hubs: map<u64, Runs.HubShape>, ghost shapes: seq<Runs.ItemShape>)
      requires Mirrored(hubs, shapes) && Listed(item) && item.hub.key in hubs
      modifies item.hub`count
      ensures Mirrored(hubs[item.hub.key := Runs.Counted(hubs[item.hub.key])], shapes)
    {
      item.Start();
    }

    // The item's goroutine ends.
    method ItemCompletes(item: WebrtItem, ghost s: Runs.System)
      requires Holds(s) && Listed(item) && Enabled(s.reg, Complete(item.number))
      modifies item.hub`count, item.hub`stack, item.hub`closed, item`connections
      ensures Holds(Runs.Step(s, Runs.Registry(Complete(item.number))))
    {
      assert ItemMirrored(item, item.number, Runs.ItemOf(s, item.number));
      Runs.CompleteShapes(s, item.number);
      CompleteMirrored(item, Runs.HubsOf(s), Runs.ItemsOf(s));
    }

    method CompleteMirrored(item: WebrtItem, ghost hubs: map<u64, Runs.HubShape>, ghost shapes: seq<Runs.ItemShape>)
      requires Mirrored(hubs, shapes) && Listed(item) && item.hub.key in hubs
      modifies item.hub`count, item.hub`stack, item.hub`closed, item`connections
      ensures var h, id := item.hub.key, item.number;
        Mirrored(hubs[h := Runs.Without(hubs[h], shapes[id])], shapes[id := Runs.Emptied(shapes[id])])
    {
      assert HubMirrored(item.hub, item.hub.key, hubs[item.hub.key]) && ItemMirrored(item, item.number, shapes[item.number]);
      ghost var hub, it := hubs[item.hub.key], shapes[item.number];
      NumbersWithout(item.hub.stack, item.key);
      item.Complete();
      Reassemble(item, hubs, shapes, Runs.Without(hub, it), Runs.Emptied(it));
    }

    // The hub loop takes a request from its channel; `r` is the request's number in the run.
    method HandleRequest(hub: WebrtHub, obj: WebrtObj, ghost r: nat, ghost s: Runs.System) returns (outcome: Outcome)
      requires Holds(s) && Enabled(s.reg, WebrtcRegistry.Handle(r)) && Waits(s.reg, r, hub, obj)
      requires hub.key in stack && stack[hub.key] == hub
      modifies hub`stack, `items, `parts
      ensures Holds(Runs.Step(s, Runs.Registry(WebrtcRegistry.Handle(r))))
      ensures outcome == Runs.OutcomeOf(s.reg, r)
    {
      outcome := HandleMirrored(hub, obj, Runs.HubsOf(s), Runs.ItemsOf(s));
      if Runs.Creates(s.reg, r) {
        Runs.CreateShapes(s, r);
      } else {
        Runs.FindShapes(s, r);
      }
    }

    method HandleMirrored(hub: WebrtHub, obj: WebrtObj, ghost hubs: map<u64, Runs.HubShape>, ghost shapes: seq<Runs.ItemShape>)
      returns (outcome: Outcome)
      requires Mirrored(hubs, shapes) && hub.key in stack && stack[hub.key] == hub
      modifies hub`stack, `items, `parts
      ensures outcome == if obj.key in hubs[hub.key].stack then Existing
                         else if obj.action == CameraVideoStream && obj.get then Refused else Created
      ensures outcome != Created ==> Mirrored(hubs, shapes)
      ensures outcome == Created ==>
        Mirrored(hubs[hub.key := Runs.With(hubs[hub.key], obj.key, |shapes|)],
                 shapes + [Runs.ItemShape(hub.key, obj.key, map[])])
    {
      var item;
      outcome, item := HandleUnlisted(hub, obj, hubs, shapes);
      if outcome == Created {
        Enlist(item, hubs, shapes);
      }
    }

    // The hub's part: a new item is in its stack but not yet in the list.
    method HandleUnlisted(hub: WebrtHub, obj: WebrtObj, ghost hubs: map<u64, Runs.HubShape>, ghost shapes: seq<Runs.ItemShape>)
      returns (outcome: Outcome, item: WebrtItem?)
      requires Mirrored(hubs, shapes) && hub.key in stack && stack[hub.key] == hub
      modifies hub`stack
      ensures outcome == if obj.key in hubs[hub.key].stack then Existing
                         else if obj.action == CameraVideoStream && obj.get then Refused else Created
      ensures outcome != Created ==> Mirrored(hubs, shapes)
      ensures outcome == Created ==>
        item != null && item.obj == obj && item.key == obj.key && Unlisted(item, hub, hubs, shapes)
    {
      assert HubMirrored(hub, hub.key, hubs[hub.key]);
      assert obj.key in hub.View().stack <==> obj.key in hubs[hub.key].stack;
      outcome, item := hub.Handle(obj, |items|);
      if outcome == Created {
        NumbersWith(old(hub.stack), item);
      }
    }

    ghost predicate Unlisted(item: WebrtItem, hub: WebrtHub, hubs: map<u64, Runs.HubShape>, shapes: seq<Runs.ItemShape>)
      reads `stack, `items, `parts, parts, item, hub
    {
      && item.hub == hub && item.number == |shapes| == |items| && item.connections == map[]
      && stack.Keys == hubs.Keys && hub.key in stack && stack[hub.key] == hub && hub in parts
      && HubsMirrored(hubs, {hub.key}) && ItemsMirrored(shapes, |shapes|, |shapes|)
      && hub.Shape() == Runs.With(hubs[hub.key], item.key, |shapes|)
      && item.key in hub.stack && hub.stack[item.key] == item && AllListed(items, hub, hub.stack - {item.key})
    }

    ghost method Enlist(item: WebrtItem, hubs: map<u64, Runs.HubShape>, shapes: seq<Runs.ItemShape>)
      requires Unlisted(item, item.hub, hubs, shapes) && item.key == item.obj.key
      modifies `items, `parts
      ensures Mirrored(hubs[item.hub.key := Runs.With(hubs[item.hub.key], item.key, |shapes|)],
                       shapes + [Runs.ItemShape(item.hub.key, item.key, map[])])
    {
      OneMoreListed(items, item, item.hub, item.hub.stack);
      items, parts := items + [item], parts + {item, item.obj};
      ReassembleNew(item, hubs, shapes, Runs.With(hubs[item.hub.key], item.key, |shapes|),
                    Runs.ItemShape(item.hub.key, item.key, map[]));
    }

    // A peer connects, opens its data channel, is dropped: the hub's tables make the step.
    method Connect(item: WebrtItem, ghost s: Runs.System) returns (c: u64)
      requires Holds(s) && Listed(item)
      modifies item`connections, item.hub`connI
      ensures Holds(Runs.Step(s, Runs.Connect(item.number)))
    {
      Runs.TableShapes(s, Runs.Connect(item.number));
      c := ConnectMirrored(item, Runs.HubsOf(s), Runs.ItemsOf(s));
    }

    method ChannelOpens(item: WebrtItem, c: u64, ghost s: Runs.System)
      requires Holds(s) && Listed(item)
      modifies item`connections
      ensures Holds(Runs.Step(s, Runs.OpenChannel(item.number, c)))
    {
      Runs.TableShapes(s, Runs.OpenChannel(item.number, c));
      OpenMirrored(item, c, Runs.HubsOf(s), Runs.ItemsOf(s));
    }

    method Disconnects(item: WebrtItem, c: u64, ghost s: Runs.System)
      requires Holds(s) && Listed(item)
      modifies item`connections, item.hub`closed
      ensures Holds(Runs.Step(s, Runs.Drop(item.number, c)))
    {
      Runs.TableShapes(s, Runs.Drop(item.number, c));
      DropMirrored(item, c, Runs.HubsOf(s), Runs.ItemsOf(s));
    }

    // The shapes after a step of one item's connections.
    ghost predicate MirroredAfter(item: WebrtItem, e: Runs.Event, hubs: map<u64, Runs.HubShape>, shapes: seq<Runs.ItemShape>)
      requires item.hub.key in hubs && item.number < |shapes|
      reads `stack, `items, `parts, parts
    {
      var h, it := hubs[item.hub.key], shapes[item.number];
      Mirrored(hubs[item.hub.key := Runs.HubAfter(h, it, e)], shapes[item.number := Runs.ItemAfter(h, it, e)])
    }

    method ConnectMirrored(item: WebrtItem, ghost hubs: map<u64, Runs.HubShape>, ghost shapes: seq<Runs.ItemShape>)
      returns (c: u64)
      requires Mirrored(hubs, shapes) && Listed(item) && item.hub.key in hubs
      modifies item`connections, item.hub`connI
      ensures MirroredAfter(item, Runs.Connect(item.number), hubs, shapes)
    {
      assert HubMirrored(item.hub, item.hub.key, hubs[item.hub.key]) && ItemMirrored(item, item.number, shapes[item.number]);
      c := item.NewConnection();
    }

    method OpenMirrored(item: WebrtItem, c: u64, ghost hubs: map<u64, Runs.HubShape>, ghost shapes: seq<Runs.ItemShape>)
      requires Mirrored(hubs, shapes) && Listed(item) && item.hub.key in hubs
      modifies item`connections
      ensures MirroredAfter(item, Runs.OpenChannel(item.number, c), hubs, shapes)
    {
      assert ItemMirrored(item, item.number, shapes[item.number]);
      item.OnDataChannel(c);
    }

    method DropMirrored(item: WebrtItem, c: u64, ghost hubs: map<u64, Runs.HubShape>, ghost shapes: seq<Runs.ItemShape>)
      requires Mirrored(hubs, shapes) && Listed(item) && item.hub.key in hubs
      modifies item`connections, item.hub`closed
      ensures MirroredAfter(item, Runs.Drop(item.number, c), hubs, shapes)
    {
      assert HubMirrored(item.hub, item.hub.key, hubs[item.hub.key]) && ItemMirrored(item, item.number, shapes[item.number]);
      item.DelConn(c);
    }

    // Deliver to one address text: at most one send, to the connection the text names.
    method Send(text: string) returns (log: seq<(u64, u64, u64)>)
      ensures log == Deliveries(text)
    {
      log := [];
      match Address.Parse("webrtc", text) {
        case Some((h, k, c)) =>
          if h in stack {
            if k in stack[h].stack {
              if c in stack[h].stack[k].connections {
                if stack[h].stack[k].connections[c] {
                  log := [(h, k, c)];
                }
              }
            }
          }
        case None =>
      }
    }

    ghost function Deliveries(text: string): seq<(u64, u64, u64)>
      reads *
    {
      match Address.Parse("webrtc", text)
      case None => []
      case Some(a) => if Connected(a) then [a] else []
    }

    // After any run a text delivers to the open connection it names, of an item that is not
    // completed, and to nothing else.
    lemma DeliveriesInRun(run: seq<Runs.Event>, text: string)
      requires Holds(Runs.Exec(stack.Keys, run)) && Runs.NoWrap(run)
      ensures var named := Address.Parse("webrtc", text);
        Deliveries(text) ==
          if named.Some? && Runs.OpenNow(stack.Keys, run, named.value) then [named.value] else []
    {
      var named, s := Address.Parse("webrtc", text), Runs.Exec(stack.Keys, run);
      if named.Some? {
        var a := named.value;
        VisitedIsConnected(s, a);
        Runs.FilterExcludesNothing(stack.Keys, run, a);
        assert Connected(a) ==> a.1 > 1000 by {
          SameKeysAsRun(s);
          Runs.LiveEntry(stack.Keys, run, a.0, a.1);
        }
      }
    }

    // A live connection's printed key reaches that connection and no other, and a text that
    // reaches it differs from the printed key at most in leading zeros.
    lemma PrintedKeyReaches(a: (u64, u64, u64), text: string)
      requires Connected(a)
      ensures Deliveries(Address.Print("webrtc", a.0, a.1, a.2)) == [a]
      ensures Deliveries(text) == [a] && text != Address.Print("webrtc", a.0, a.1, a.2) ==>
        exists i :: 1 <= i <= 3 && !Decimal.Canonical(Address.Split(text)[i])
    {
      Address.ParsePrinted("webrtc", a.0, a.1, a.2);
      if Deliveries(text) == [a] && forall i :: 1 <= i <= 3 ==> Decimal.Canonical(Address.Split(text)[i]) {
        var f := Address.Split(text);
        assert Decimal.Canonical(f[1]) && Decimal.Canonical(f[2]) && Decimal.Canonical(f[3]);
        Address.AcceptedAddress("webrtc", text);
        var x: u64, y: u64, z: u64 :| text == Address.Print("webrtc", x, y, z);
        Address.ParsePrinted("webrtc", x, y, z);
      }
    }

    // A live item's connection whose data channel is open.
    ghost predicate Connected(a: (u64, u64, u64))
      reads *
    {
      a.0 in stack && a.1 in stack[a.0].stack && stack[a.0].stack[a.1].Open(a.2)
    }

    // One send to each open connection of every hub; items at or below key 1000 are skipped.
    // After any run that is nobody: each open connection of an item that is not completed is
    // sent to exactly once, and nothing else is.
    method SendAll(ghost run: seq<Runs.Event>) returns (log: seq<(u64, u64, u64)>)
      requires Holds(Runs.Exec(stack.Keys, run)) && Runs.NoWrap(run)
      ensures forall a: (u64, u64, u64) ::
        multiset(log)[a] == if Runs.OpenNow(stack.Keys, run, a) then 1 else 0
    {
      ghost var s := Runs.Exec(stack.Keys, run);
      SameKeysAsRun(s);
      log := SendToHubs();
      forall a: (u64, u64, u64) ensures multiset(log)[a] == if Runs.OpenNow(stack.Keys, run, a) then 1 else 0 {
        VisitedIsConnected(s, a);
        Runs.FilterExcludesNothing(stack.Keys, run, a);
      }
    }

    method SendToHubs() returns (log: seq<(u64, u64, u64)>)
      requires Wired()
      ensures forall a: (u64, u64, u64) :: multiset(log)[a] == if Connected(a) && a.1 > 1000 then 1 else 0
    {
      log := [];
      var todo := stack.Keys;
      while todo != {}
        invariant todo <= stack.Keys
        invariant forall a: (u64, u64, u64) ::
          multiset(log)[a] == if a.0 !in todo && Connected(a) && a.1 > 1000 then 1 else 0
        decreases todo
      {
        var h :| h in todo;
        var more := stack[h].SendAll();
        log := log + more;
        todo := todo - {h};
      }
    }

    lemma VisitedIsConnected(s: Runs.System, a: (u64, u64, u64))
      requires Holds(s)
      ensures Runs.Visited(s, a) <==> Connected(a) && a.1 > 1000
    {
      SameKeysAsRun(s);
      if LiveIn(View(), a.0, a.1) {
        var item := stack[a.0].stack[a.1];
        assert stack[a.0].Shape() == Runs.HubOf(s, a.0);
        assert AllListed(items, stack[a.0], stack[a.0].stack) && Listed(item);
        assert items[item.number].Shape() == Runs.ItemOf(s, item.number);
      }
    }
  }
}
