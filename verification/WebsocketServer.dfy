// The hub as the server runs it: objects whose fields the hub loops update. Every method is
// tied to the value-level function of WebsocketHub, about which whole runs are proved.
module WebsocketServer {
  import opened Base
  import opened WebsocketHub
  import Address

  // A WebsocketStack together with the client table its RunHub loop owns.
  class WebsocketStack {
    const wsKey: u64
    const key: u64
    var clients: map<u64, Client>
    var count: u64
    var i: u64

    constructor (wsKey: u64, key: u64)
      ensures this.wsKey == wsKey && this.key == key
      ensures View() == Stack(map[], 0, 0)
    {
      this.wsKey, this.key := wsKey, key;
      clients, count, i := map[], 0, 0;
    }

    function View(): Stack
      reads this
    {
      Stack(clients, count, i)
    }

    method CountIncrement()
      modifies this`count
      ensures count == Increment(old(count))
    {
      count := Increment(count);
    }

    method CountDecrement()
      modifies this`count
      ensures count == CountDown(old(count)) == if old(count) == 0 then 0 else old(count) - 1
    {
      if count > 1 {
        count := count - 1;
      } else {
        count := 0;
      }
    }

    method DeleteClient(clientKey: u64) returns (deleted: bool)
      modifies this`clients
      ensures deleted <==> clientKey in old(clients)
      ensures clients == old(clients) - {clientKey}
    {
      if clientKey in clients {
        clients := clients - {clientKey};
        return true;
      }
      return false;
    }

    // The tail every departure shares: delete, then decrement only if something was deleted.
    method Drop(clientKey: u64)
      modifies this`clients, this`count
      ensures View() == Left(old(View()), clientKey)
    {
      var deleted := DeleteClient(clientKey);
      if deleted {
        CountDecrement();
      }
    }

    method HandleRegister(c: Client)
      modifies this`clients, this`count
      ensures View() == Joined(old(View()), c)
    {
      CountIncrement();
      clients := clients[c.clientKey := c];
    }

    // `failing` is the set of clients whose socket refuses the write; `attempts` lists the writes.
    method HandleBroadcast(clientKey: u64, failing: set<u64>) returns (attempts: seq<u64>)
      requires View().WellKeyed()
      modifies this`clients, this`count
      ensures View().WellKeyed()
      ensures clientKey == 0 ==>
        View() == LeftAll(old(View()), failing) && WroteOnce(attempts, old(clients).Keys, {})
      ensures clientKey != 0 ==>
        && View() == (if clientKey in failing then Left(old(View()), clientKey) else old(View()))
        && attempts == if clientKey in old(clients) then [clientKey] else []
    {
      attempts := [];
      if clientKey == 0 {
        attempts := WriteToAll(failing);
      } else if clientKey in clients {
        attempts := [clientKey];
        Write(clients[clientKey], failing);
      }
    }

    // One write; a client whose write fails is closed and dropped.
    method Write(c: Client, failing: set<u64>)
      modifies this`clients, this`count
      ensures View() == if c.clientKey in failing then Left(old(View()), c.clientKey) else old(View())
    {
      if c.clientKey in failing {
        Drop(c.clientKey);
      }
    }

    // The map range of the broadcast case: keys in any order, deleting while ranging.
    method WriteToAll(failing: set<u64>) returns (attempts: seq<u64>)
      requires View().WellKeyed()
      modifies this`clients, this`count
      ensures View().WellKeyed() && View() == LeftAll(old(View()), failing)
      ensures WroteOnce(attempts, old(clients).Keys, {})
    {
      ghost var before := View();
      var todo := clients.Keys;
      attempts := [];
      LeftAllNobody(before, failing - todo);
      while todo != {}
        invariant todo <= before.clients.Keys
        invariant View() == LeftAll(before, failing - todo)
        invariant WroteOnce(attempts, before.clients.Keys, todo)
        decreases todo
      {
        var k :| k in todo;
        LeftAllGrows(before, failing, todo, k);
        Write(clients[k], failing);
        WroteOneMore(attempts, before.clients.Keys, todo, k);
        attempts := attempts + [k];
        todo := todo - {k};
      }
      assert failing - {} == failing;
    }

    // SendAll's visit to this stack: a stack whose Count is zero is skipped.
    method HandleSendAll(failing: set<u64>) returns (attempts: seq<(u64, u64)>)
      requires View().WellKeyed()
      modifies this`clients, this`count
      ensures View().WellKeyed() && View() == AfterVisit(old(View()), failing)
      ensures WritesTo(attempts, key, old(View()))
    {
      attempts := [];
      if count > 0 {
        var keys := HandleBroadcast(0, failing);
        attempts := Tag(key, keys);
        assert WroteOnce(keys, old(clients).Keys, {});
      }
    }

    method HandleUnregister(c: Client)
      modifies this`clients, this`count
      ensures View() == Left(old(View()), c.clientKey)
    {
      Drop(c.clientKey);
    }

    method PingFailed(c: Client)
      modifies this`clients, this`count
      ensures View() == Left(old(View()), c.clientKey)
    {
      Drop(c.clientKey);
    }

    method NewWebsocketClient() returns (c: Client)
      modifies this`i
      ensures View() == Issued(old(View()))
      ensures c == Client(wsKey, key, i)
    {
      i := Increment(i);
      c := Client(wsKey, key, i);
    }
  }

  // One write to each of the keys not in `todo`, none to anybody else.
  ghost predicate WroteOnce(attempts: seq<u64>, keys: set<u64>, todo: set<u64>) {
    forall k :: multiset(attempts)[k] == if k in keys && k !in todo then 1 else 0
  }

  lemma WroteOneMore(attempts: seq<u64>, keys: set<u64>, todo: set<u64>, k: u64)
    requires WroteOnce(attempts, keys, todo) && k in keys && k in todo
    ensures WroteOnce(attempts + [k], keys, todo - {k})
  {
  }

  // One more client handled by the range loop.
  lemma LeftAllGrows(st: Stack, failing: set<u64>, todo: set<u64>, k: u64)
    requires k in st.clients && k in todo
    ensures k in LeftAll(st, failing - todo).clients
    ensures LeftAll(st, failing - (todo - {k}))
         == var st' := LeftAll(st, failing - todo); if k in failing then Left(st', k) else st'
  {
    var f, f' := failing - todo, failing - (todo - {k});
    if k in failing {
      assert f' == f + {k};
      assert st.clients.Keys * f' == (st.clients.Keys * f) + {k};
      assert st.clients - f' == (st.clients - f) - {k};
    } else {
      assert f' == f;
    }
  }

  class Websocket {
    const key: u64
    var stack: map<u64, WebsocketStack>
    var i: u64
    ghost var nodes: set<WebsocketStack>

    ghost predicate Valid()
      reads this, nodes
    {
      Wired() && forall s :: s in stack ==> stack[s].View().WellKeyed()
    }

    // Every stack knows its hub and its own key, so no two keys share a stack object.
    ghost predicate Wired()
      reads this
    {
      forall s :: s in stack ==> stack[s] in nodes && stack[s].wsKey == key && stack[s].key == s
    }

    ghost function View(): Hub
      requires Wired()
      reads this, nodes
    {
      Hub(key, map s | s in stack :: stack[s].View())
    }

    // NewWebsocket: at least 50 stacks, one for every 5000 connections allowed.
    constructor (key: u64, maxConnect: u64)
      ensures Valid() && fresh(nodes) && 1 in stack
      ensures View() == NewHub(key, if maxConnect / 5000 < 50 then 50 else maxConnect / 5000)
    {
      this.key := key;
      stack, i, nodes := map[], 0, {};
      new;
      var countStack := maxConnect / 5000;
      if countStack < 50 {
        countStack := 50;
      }
      var n := 0;
      assert View().stacks == map[];
      while n < countStack
        invariant 0 <= n <= countStack && i == n
        invariant Valid() && fresh(nodes)
        invariant View() == NewHub(key, n)
      {
        NewWebsocketStack();
        n := n + 1;
      }
      NewStacksAreEmpty(countStack);
      assert View().stacks.Keys == stack.Keys;
    }

    method NewWebsocketStack()
      requires Valid()
      modifies this
      ensures Valid() && i == Increment(old(i))
      ensures i in stack && fresh(stack[i]) && nodes == old(nodes) + {stack[i]} && stack == old(stack)[i := stack[i]]
      ensures View() == old(View()).(stacks := old(View()).stacks[i := Stack(map[], 0, 0)])
    {
      i := Increment(i);
      var s := new WebsocketStack(key, i);
      stack, nodes := stack[i := s], nodes + {s};
    }

    // Any loop order over the stacks; the source dereferences stack 1 without checking it.
    method NewWebsocketClient() returns (c: Client)
      requires Valid() && 1 in stack
      modifies nodes
      ensures Valid()
      ensures c.wsKey == key && Minimal(old(View()), c.stackKey)
      ensures Minimal(old(View()), 1) ==> c.stackKey == 1
      ensures c.clientKey == Increment(old(View()).stacks[c.stackKey].i)
      ensures View() == Step(old(View()), Allocate(c.stackKey))
    {
      var chosen := stack[1];
      var todo := stack.Keys;
      while todo != {}
        invariant todo <= stack.Keys && chosen.key in stack && stack[chosen.key] == chosen
        invariant forall s :: s in stack && s !in todo ==> chosen.count <= stack[s].count
        invariant chosen.count <= stack[1].count
        invariant chosen.key == 1 || chosen.count < stack[1].count
        decreases todo
      {
        var s :| s in todo;
        if stack[s].count < chosen.count {
          chosen := stack[s];
        }
        todo := todo - {s};
      }
      assert Minimal(View(), chosen.key);
      c := chosen.NewWebsocketClient();
    }

    method Register(c: Client)
      requires Valid()
      modifies nodes
      ensures Valid()
      ensures c.stackKey in stack ==> View() == old(View()).(stacks :=
                old(View()).stacks[c.stackKey := Joined(old(View()).stacks[c.stackKey], c)])
      ensures c.stackKey !in stack ==> View() == old(View())
    {
      if c.stackKey in stack {
        stack[c.stackKey].HandleRegister(c);
      }
    }

    method Unregister(c: Client)
      requires Valid()
      modifies nodes
      ensures Valid()
      ensures View() == Step(old(View()), WebsocketHub.Unregister(c.stackKey, c.clientKey))
    {
      if c.stackKey in stack {
        stack[c.stackKey].HandleUnregister(c);
      }
    }

    // Deliver to one address text; at most one write, and never a broadcast.
    method Send(text: string, written: bool) returns (attempts: seq<(u64, u64)>)
      requires Valid()
      modifies nodes
      ensures Valid()
      ensures var target := SendTarget(old(View()), text);
        && (target.None? ==> attempts == [] && View() == old(View()))
        && (target.Some? ==> var (s, k) := target.value;
              && k != 0 && attempts == (if k in old(View()).stacks[s].clients then [(s, k)] else [])
              && View() == Step(old(View()), SendOne(s, k, written)))
    {
      attempts := [];
      if SendTarget(View(), text).Some? {
        SendNeverBroadcasts(View(), text);
      }
      match Address.Parse("ws", text) {
        case Some((wsKey, stackKey, clientKey)) =>
          if wsKey > 0 && stackKey > 0 && clientKey > 0 && key == wsKey {
            if stackKey in stack {
              if stack[stackKey].count > 0 {
                var keys := stack[stackKey].HandleBroadcast(clientKey, if written then {} else {clientKey});
                attempts := if keys == [] then [] else [(stackKey, keys[0])];
              }
            }
          }
        case None =>
      }
    }

    // Broadcast to every stack with a positive Count.
    method SendAll(failing: set<(u64, u64)>) returns (attempts: seq<(u64, u64)>)
      requires Valid()
      modifies nodes
      ensures Valid() && View() == AfterSendAll(old(View()), failing)
      ensures OneWriteEach(attempts, old(View()), {})
    {
      ghost var before := View();
      MixNone(before, failing);
      attempts := SendToStacks(failing, before);
      assert View().stacks == Mix(before, failing, {});
    }

    // The loop of SendAll: the stacks in any order.
    method SendToStacks(failing: set<(u64, u64)>, ghost before: Hub) returns (attempts: seq<(u64, u64)>)
      requires Valid() && StacksAre(before.stacks)
      modifies nodes
      ensures Valid() && StacksAre(Mix(before, failing, {}))
      ensures OneWriteEach(attempts, before, {})
    {
      attempts := [];
      var todo := stack.Keys;
      MixAll(before, failing);
      while todo != {}
        invariant Valid() && StacksAre(Mix(before, failing, todo))
        invariant todo <= before.stacks.Keys
        invariant OneWriteEach(attempts, before, todo)
        decreases todo
      {
        var s :| s in todo;
        MixOneLess(before, failing, todo, s);
        var sent := SendAllTo(s, FailingIn(failing, s), Mix(before, failing, todo));
        OneMoreStack(before, todo, s, attempts, sent);
        attempts := attempts + sent;
        todo := todo - {s};
      }
    }

    ghost predicate ViewIs(st: WebsocketStack, v: Stack)
      reads st
    {
      st.View() == v && v.WellKeyed()
    }

    ghost predicate StacksAre(m: map<u64, Stack>)
      requires Wired()
      reads this, nodes
    {
      m.Keys == stack.Keys && forall s :: s in stack ==> ViewIs(stack[s], m[s])
    }

    method SendAllTo(s: u64, failing: set<u64>, ghost m: map<u64, Stack>) returns (sent: seq<(u64, u64)>)
      requires Valid() && StacksAre(m) && s in m
      modifies stack[s]
      ensures Valid() && StacksAre(m[s := AfterVisit(m[s], failing)])
      ensures WritesTo(sent, s, m[s])
    {
      var st := stack[s];
      assert ViewIs(st, m[s]) && forall j :: j in stack && j != s ==> stack[j] != st && ViewIs(stack[j], m[j]);
      sent := st.HandleSendAll(failing);
      ghost var after := m[s := AfterVisit(m[s], failing)];
      assert ViewIs(st, after[s]);
      assert forall j :: j in stack && j != s ==> ViewIs(stack[j], after[j]);
    }
  }

  // The stacks in `todo` have not yet handled the broadcast, the others have.
  ghost function Mix(before: Hub, failing: set<(u64, u64)>, todo: set<u64>): map<u64, Stack> {
    map s | s in before.stacks ::
      if s in todo then before.stacks[s] else AfterVisit(before.stacks[s], FailingIn(failing, s))
  }

  lemma MixAll(before: Hub, failing: set<(u64, u64)>)
    ensures Mix(before, failing, before.stacks.Keys) == before.stacks
  {
  }

  lemma MixNone(before: Hub, failing: set<(u64, u64)>)
    ensures Mix(before, failing, {}) == AfterSendAll(before, failing).stacks
  {
  }

  lemma MixOneLess(before: Hub, failing: set<(u64, u64)>, todo: set<u64>, s: u64)
    requires s in before.stacks && s in todo
    ensures var m := Mix(before, failing, todo);
      && s in m && m[s] == before.stacks[s]
      && m[s := AfterVisit(m[s], FailingIn(failing, s))] == Mix(before, failing, todo - {s})
  {
    var m, m' := Mix(before, failing, todo), Mix(before, failing, todo - {s});
    var st := AfterVisit(before.stacks[s], FailingIn(failing, s));
    assert m[s] == before.stacks[s] && m'[s] == st;
    assert m[s := st] == m';
  }

  // One write to every client of stack s unless it is skipped, none to anybody else.
  ghost predicate WritesTo(attempts: seq<(u64, u64)>, s: u64, st: Stack) {
    forall a :: multiset(attempts)[a] == if a.0 == s && st.count > 0 && a.1 in st.clients then 1 else 0
  }

  // The same for every stack except those in `todo`.
  ghost predicate OneWriteEach(attempts: seq<(u64, u64)>, h: Hub, todo: set<u64>) {
    forall a :: multiset(attempts)[a] == WritesDue(h, todo, a)
  }

  ghost function WritesDue(h: Hub, todo: set<u64>, a: (u64, u64)): nat {
    if a.0 !in todo && a.0 in h.stacks && h.stacks[a.0].count > 0 && a.1 in h.stacks[a.0].clients then 1 else 0
  }

  // After any run SendAll attempts exactly one write to each connected client of any stack, and
  // no other.
  lemma SendAllWritesToEveryone(key: u64, n: u64, run: seq<Event>, attempts: seq<(u64, u64)>)
    requires ValidRun(n, run) && OneWriteEach(attempts, Exec(key, n, run), {})
    ensures forall s, k :: multiset(attempts)[(s, k)] == if Live(run, s, k) then 1 else 0
  {
    EveryRunKeepsCount(key, n, run);
    ExactCountsReachAll(attempts, Exec(key, n, run));
    forall s, k ensures multiset(attempts)[(s, k)] == if Live(run, s, k) then 1 else 0 {
      if Live(run, s, k) { LiveWasRegistered(n, run, s, k); }
    }
  }

  // Where every Count is the size of its table, that is one write per entry of any table.
  lemma ExactCountsReachAll(attempts: seq<(u64, u64)>, h: Hub)
    requires OneWriteEach(attempts, h, {})
    requires forall s :: s in h.stacks ==> h.stacks[s].CountIsSize()
    ensures forall s, k :: multiset(attempts)[(s, k)] == if s in h.stacks && k in h.stacks[s].clients then 1 else 0
  {
    forall s, k ensures multiset(attempts)[(s, k)] == if s in h.stacks && k in h.stacks[s].clients then 1 else 0 {
      assert multiset(attempts)[(s, k)] == WritesDue(h, {}, (s, k));
      if s in h.stacks && k in h.stacks[s].clients {
        assert h.stacks[s].clients.Keys != {};
      }
    }
  }

  lemma OneMoreStack(h: Hub, todo: set<u64>, s: u64, attempts: seq<(u64, u64)>, sent: seq<(u64, u64)>)
    requires s in h.stacks && s in todo
    requires OneWriteEach(attempts, h, todo)
    requires WritesTo(sent, s, h.stacks[s])
    ensures OneWriteEach(attempts + sent, h, todo - {s})
  {
  }

  method Tag(s: u64, keys: seq<u64>) returns (tagged: seq<(u64, u64)>)
    ensures forall a :: multiset(tagged)[a] == if a.0 == s then multiset(keys)[a.1] else 0
  {
    tagged := [];
    for n := 0 to |keys|
      invariant forall a :: multiset(tagged)[a] == if a.0 == s then multiset(keys[..n])[a.1] else 0
    {
      tagged := tagged + [(s, keys[n])];
      assert keys[..n + 1] == keys[..n] + [keys[n]];
    }
    assert keys[..|keys|] == keys;
  }
}
