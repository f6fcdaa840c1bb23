// The connection tables of one hub's items over whole runs: ids are issued by the hub's
// counter, entered in one item's table, and leave it only by being closed.
module WebrtcConnections {
  import opened Base
  import Address

  // tables[i] is the connection table of item i, its entries true once the peer has opened
  // its data channel; `closed` the ids whose peer connection was closed by delConn.
  datatype Tables = Tables(connI: u64, tables: seq<map<u64, bool>>, closed: set<u64>)

  datatype Event =
    | NewItem
    | NewConnection(item: nat)
    | OpenChannel(item: nat, conn: u64)
    | DelConn(item: nat, conn: u64)
    | CompleteItem(item: nat)

  function Entered(table: map<u64, bool>, c: u64, open: bool): map<u64, bool> {
    table[c := open]
  }

  function Step(t: Tables, e: Event): Tables {
    match e
    case NewItem => t.(tables := t.tables + [map[]])
    case NewConnection(i) =>
      if i < |t.tables|
      then t.(connI := Increment(t.connI), tables := t.tables[i := Entered(t.tables[i], Increment(t.connI), false)])
      else t
    case OpenChannel(i, c) =>
      if i < |t.tables| && c in t.tables[i] then t.(tables := t.tables[i := Entered(t.tables[i], c, true)]) else t
    case DelConn(i, c) =>
      if i < |t.tables| && c in t.tables[i]
      then t.(tables := t.tables[i := t.tables[i] - {c}], closed := t.closed + {c})
      else t
    case CompleteItem(i) =>
      if i < |t.tables|
      then t.(tables := t.tables[i := map[]], closed := t.closed + t.tables[i].Keys)
      else t
  }

  function Exec(run: seq<Event>): Tables {
    if run == [] then Tables(0, [], {}) else Step(Exec(run[..|run| - 1]), run[|run| - 1])
  }

  lemma ExecSnoc(run: seq<Event>, e: Event)
    ensures Exec(run + [e]) == Step(Exec(run), e)
  {
    assert (run + [e])[..|run|] == run;
  }

  // The item whose table holds c, or nobody.
  ghost predicate HeldBy(t: Tables, i: nat, c: u64) {
    i < |t.tables| && c in t.tables[i]
  }

  ghost predicate Held(t: Tables, c: u64) {
    exists i: nat :: HeldBy(t, i, c)
  }

  // Each issued id is in exactly one place: one item's table, or among the closed.
  ghost predicate Accounted(t: Tables) {
    && (forall c: u64 :: Held(t, c) || c in t.closed <==> 1 <= c <= t.connI)
    && (forall c: u64 :: !(Held(t, c) && c in t.closed))
    && (forall i: nat, j: nat, c: u64 :: HeldBy(t, i, c) && HeldBy(t, j, c) ==> i == j)
  }

  // Whatever the items of a hub do, in any order (even after they completed): ids are unique
  // across all tables, and no connection is dropped without having been closed.
  lemma {:induction false} EveryConnectionAccounted(run: seq<Event>)
    requires |run| < TWO_64
    ensures Accounted(Exec(run)) && Exec(run).connI <= |run|
  {
    if run == [] {
    } else {
      EveryConnectionAccounted(run[..|run| - 1]);
      StepAccounts(Exec(run[..|run| - 1]), run[|run| - 1]);
    }
  }

  ghost predicate HeldAfter(t: Tables, e: Event, c: u64) {
    match e
    case NewItem => Held(t, c)
    case OpenChannel(_, _) => Held(t, c)
    case NewConnection(i) => Held(t, c) || (i < |t.tables| && c == t.connI + 1)
    case DelConn(i, d) => Held(t, c) && !(HeldBy(t, i, d) && c == d)
    case CompleteItem(i) => Held(t, c) && !HeldBy(t, i, c)
  }

  lemma StepAccounts(t: Tables, e: Event)
    requires Accounted(t) && t.connI < TWO_64 - 1
    ensures Accounted(Step(t, e)) && Step(t, e).connI <= t.connI + 1
  {
    var t' := Step(t, e);
    forall c: u64 ensures Held(t', c) <==> HeldAfter(t, e, c) {
      if Held(t, c) {
        var j: nat :| HeldBy(t, j, c);
        assert HeldBy(t', j, c) <==> !(e == DelConn(j, c) || e == CompleteItem(j));
      }
      if e.NewConnection? && e.item < |t.tables| {
        assert HeldBy(t', e.item, t.connI + 1);
      }
      if Held(t', c) {
        var j: nat :| HeldBy(t', j, c);
        assert HeldBy(t, j, c) || (e == NewConnection(j) && c == t.connI + 1);
      }
    }
    forall c: u64 ensures Held(t', c) || c in t'.closed <==> 1 <= c <= t'.connI {
      assert Held(t, c) || c in t.closed <==> 1 <= c <= t.connI;
      if c in t'.closed && c !in t.closed {
        assert HeldBy(t, e.item, c);
      }
    }
    forall i: nat, j: nat, c: u64 | HeldBy(t', i, c) && HeldBy(t', j, c) ensures i == j {
      assert HeldBy(t, i, c) || (e == NewConnection(i) && c == t.connI + 1);
      assert HeldBy(t, j, c) || (e == NewConnection(j) && c == t.connI + 1);
      assert Held(t, c) ==> c <= t.connI;
      if HeldBy(t, i, c) || HeldBy(t, j, c) {
        assert Held(t, c);
      }
    }
  }

  // So two connections of a hub that print the same address are the same entry of the same item.
  lemma PrintedAddressesDistinct(run: seq<Event>, hubKey: u64, i: nat, j: nat, itemI: u64, itemJ: u64, c: u64, d: u64)
    requires |run| < TWO_64 && HeldBy(Exec(run), i, c) && HeldBy(Exec(run), j, d)
    requires Address.Print("webrtc", hubKey, itemI, c) == Address.Print("webrtc", hubKey, itemJ, d)
    ensures i == j && c == d
  {
    EveryConnectionAccounted(run);
    Address.PrintIsInjective("webrtc", hubKey, itemI, c, hubKey, itemJ, d);
  }
}
