// A WebRTC request's reply channel: ICE callbacks, failures, disconnects and the HTTP handler's
// ten-second timeout race to reply on or close one unbuffered channel.
module ReplyChannel {

  // What the HTTP handler waiting in `select` ends with.
  datatype Handler = Waiting | Replied(reply: nat) | SawClosed | TimedOut

  // `sent` counts replies handed over, `blocked` senders stuck in the unbuffered channel;
  // closing it under a blocked sender panics in Go.
  datatype Reply = Reply(open: bool, closes: nat, sent: nat, blocked: nat, panicked: bool, handler: Handler)

  // Each method call is one atomic step, interleaved in any order.
  datatype Event =
    | Close            // CloseChanSource(), whoever calls it
    | Send(reply: nat) // SendChanSource(reply)
    | Observe          // the handler's receive sees the closed channel
    | Timeout          // the handler's ten seconds are over

  const FRESH := Reply(true, 0, 0, 0, false, Waiting)

  function Closed(r: Reply): Reply {
    if r.open
    then r.(open := false, closes := r.closes + 1, panicked := r.panicked || r.blocked > 0)
    else r
  }

  function Sent(r: Reply, reply: nat): Reply {
    if !r.open then r
    else if r.handler == Waiting then r.(sent := r.sent + 1, handler := Replied(reply))
    else r.(blocked := r.blocked + 1)
  }

  function Step(r: Reply, e: Event): Reply {
    match e
    case Close => Closed(r)
    case Send(reply) => Sent(r, reply)
    case Observe => if r.handler == Waiting && !r.open then r.(handler := SawClosed) else r
    case Timeout => if r.handler == Waiting then r.(handler := TimedOut) else r
  }

  function Exec(run: seq<Event>): Reply {
    if run == [] then FRESH else Step(Exec(run[..|run| - 1]), run[|run| - 1])
  }

  // Some events after a given state.
  function After(r: Reply, run: seq<Event>): Reply {
    if run == [] then r else Step(After(r, run[..|run| - 1]), run[|run| - 1])
  }

  lemma {:induction false} AfterARun(run: seq<Event>, later: seq<Event>)
    ensures After(Exec(run), later) == Exec(run + later)
  {
    if later == [] {
      assert run + later == run;
    } else {
      AfterARun(run, later[..|later| - 1]);
      assert (run + later)[..|run + later| - 1] == run + later[..|later| - 1];
    }
  }

  // Over every run: the channel is closed at most once, exactly when somebody called Close; at
  // most one reply is delivered, exactly when the handler got one.
  lemma {:induction false} OneShot(run: seq<Event>)
    ensures var r := Exec(run);
      && r.closes == (if r.open then 0 else 1)
      && r.sent == (if r.handler.Replied? then 1 else 0)
      && (r.open <==> Close !in run)
      && (r.handler == SawClosed ==> !r.open)
  {
    if run == [] {
    } else {
      OneShot(run[..|run| - 1]);
    }
  }

  // Nothing before position n has decided what the handler gets.
  predicate Undecided(run: seq<Event>, n: nat)
    requires n <= |run|
  {
    forall m :: 0 <= m < n ==> run[m].Observe?
  }

  // While nothing was closed, the handler waits exactly until the first send or timeout.
  lemma {:induction false} WaitsUntilDecided(run: seq<Event>)
    requires Close !in run
    ensures Exec(run).handler == Waiting <==> Undecided(run, |run|)
  {
    if run == [] {
    } else {
      var before := run[..|run| - 1];
      OneShot(before);
      assert Close !in before;
      WaitsUntilDecided(before);
      assert Undecided(run, |run|) <==> Undecided(before, |before|) && run[|run| - 1].Observe?;
    }
  }

  // The reply delivered is the first one sent, and it is delivered exactly when no close and no
  // timeout came before it.
  lemma {:induction false} FirstSendWins(run: seq<Event>, x: nat)
    ensures Exec(run).handler == Replied(x) <==> exists n: nat :: n < |run| && run[n] == Send(x) && Undecided(run, n)
  {
    if run == [] {
    } else {
      var n := |run| - 1;
      var before := run[..n];
      FirstSendWins(before, x);
      OneShot(before);
      forall m: nat | m <= n ensures Undecided(run, m) <==> Undecided(before, m) {
      }
      if Close !in before {
        WaitsUntilDecided(before);
      } else {
        ClosedIsDecided(before);
      }
    }
  }

  lemma ClosedIsDecided(run: seq<Event>)
    requires Close in run
    ensures !Undecided(run, |run|)
  {
    var n :| 0 <= n < |run| && run[n] == Close;
    assert !run[n].Observe?;
  }

  // Position c closes the channel while the handler still waits.
  predicate ClosesFirst(run: seq<Event>, c: nat) {
    c < |run| && run[c] == Close && Undecided(run, c)
  }

  // From then on only the handler's own two events count, and the first of them.
  predicate Sees(run: seq<Event>, c: nat, n: nat) {
    ClosesFirst(run, c) && c < n < |run| && run[n] == Observe && forall m :: c < m < n ==> !run[m].Timeout?
  }

  predicate MissesTheClose(run: seq<Event>, c: nat, n: nat) {
    ClosesFirst(run, c) && c < n < |run| && run[n] == Timeout && forall m :: c < m < n ==> !run[m].Observe?
  }

  predicate Undisturbed(run: seq<Event>, c: nat) {
    ClosesFirst(run, c) && forall m :: c < m < |run| ==> !run[m].Observe? && !run[m].Timeout?
  }

  predicate TimesOut(run: seq<Event>, n: nat) {
    n < |run| && run[n] == Timeout && Undecided(run, n)
  }

  ghost predicate SawByHistory(run: seq<Event>) {
    exists c: nat, n: nat :: Sees(run, c, n)
  }

  ghost predicate MissedByHistory(run: seq<Event>) {
    exists c: nat, n: nat :: MissesTheClose(run, c, n)
  }

  ghost predicate QuietByHistory(run: seq<Event>) {
    exists c: nat :: Undisturbed(run, c)
  }

  ghost predicate TimedOutByHistory(run: seq<Event>) {
    exists n: nat :: TimesOut(run, n)
  }

  // A waiting handler that looks at the channel after a close ends with that, unless its ten
  // seconds were over in between; it times out when they are over before any reply and before
  // it saw a close; and it waits while neither has happened.
  lemma {:induction false} HandlerByHistory(run: seq<Event>)
    ensures Exec(run).handler == SawClosed <==> SawByHistory(run)
    ensures Exec(run).handler == TimedOut <==> TimedOutByHistory(run) || MissedByHistory(run)
    ensures Exec(run).handler == Waiting <==> Undecided(run, |run|) || QuietByHistory(run)
  {
    if run == [] {
    } else {
      var before := run[..|run| - 1];
      HandlerByHistory(before);
      OneShot(before);
      if QuietByHistory(before) { assert Close in before; }
      if Undecided(before, |before|) && Close in before { ClosedIsDecided(before); }
      Exclusive(before);
      HistoryStep(run);
    }
  }

  // At most one of them holds.
  lemma Exclusive(run: seq<Event>)
    ensures !(SawByHistory(run) && (MissedByHistory(run) || QuietByHistory(run) || TimedOutByHistory(run)))
    ensures !(QuietByHistory(run) && (MissedByHistory(run) || TimedOutByHistory(run)))
    ensures Undecided(run, |run|) ==>
      !SawByHistory(run) && !MissedByHistory(run) && !QuietByHistory(run) && !TimedOutByHistory(run)
  {
    assert forall c: nat, d: nat :: ClosesFirst(run, c) && ClosesFirst(run, d) ==> c == d;
    assert forall c: nat, n: nat :: ClosesFirst(run, c) && TimesOut(run, n) ==> false;
  }

  // What one more event makes of each.
  lemma HistoryStep(run: seq<Event>)
    requires run != []
    ensures var before, e := run[..|run| - 1], run[|run| - 1];
      && (SawByHistory(run) <==> SawByHistory(before) || (e == Observe && QuietByHistory(before)))
      && (MissedByHistory(run) <==> MissedByHistory(before) || (e == Timeout && QuietByHistory(before)))
      && (TimedOutByHistory(run) <==> TimedOutByHistory(before) || (e == Timeout && Undecided(before, |before|)))
      && (QuietByHistory(run) <==>
            || (QuietByHistory(before) && e != Observe && e != Timeout)
            || (e == Close && Undecided(before, |before|)))
      && (Undecided(run, |run|) <==> Undecided(before, |before|) && e == Observe)
  {
    var k := |run| - 1;
    var before, e := run[..k], run[k];
    BeforeAgrees(run);
    LastDecides(run);
    if c: nat, n: nat :| Sees(before, c, n) { assert Sees(run, c, n); }
    if c: nat, n: nat :| MissesTheClose(before, c, n) { assert MissesTheClose(run, c, n); }
    if n: nat :| TimesOut(before, n) { assert TimesOut(run, n); }
    if e == Timeout && Undecided(before, k) { assert TimesOut(run, k); }
    if e == Close && Undecided(before, k) { assert Undisturbed(run, k); }
    if c: nat :| Undisturbed(before, c) {
      assert ClosesFirst(run, c);
      if e == Observe { assert Sees(run, c, k); }
      else if e == Timeout { assert MissesTheClose(run, c, k); }
      else { assert Undisturbed(run, c); }
    }
  }

  // When the last event is what makes one of them hold.
  lemma LastDecides(run: seq<Event>)
    requires run != []
    ensures var k := |run| - 1; var before := run[..k];
      && (forall c: nat :: Sees(run, c, k) ==> Undisturbed(before, c) || SawByHistory(before))
      && (forall c: nat :: MissesTheClose(run, c, k) ==> Undisturbed(before, c) || MissedByHistory(before))
  {
    var k := |run| - 1;
    var before := run[..k];
    BeforeAgrees(run);
    forall c: nat | Sees(run, c, k) && !Undisturbed(before, c) ensures SawByHistory(before) {
      var m :| c < m < k && (before[m].Observe? || before[m].Timeout?);
      assert run[m] == before[m];
      assert Sees(before, c, m);
    }
    forall c: nat | MissesTheClose(run, c, k) && !Undisturbed(before, c) ensures MissedByHistory(before) {
      var m :| c < m < k && (before[m].Observe? || before[m].Timeout?);
      assert run[m] == before[m];
      assert MissesTheClose(before, c, m);
    }
  }

  lemma BeforeAgrees(run: seq<Event>)
    requires run != []
    ensures var k := |run| - 1; var before := run[..k];
      && (forall n: nat :: n <= k ==> (Undecided(run, n) <==> Undecided(before, n)))
      && (forall c: nat :: c < k ==> (ClosesFirst(run, c) <==> ClosesFirst(before, c)))
      && (forall c: nat, n: nat :: n < k ==> (Sees(run, c, n) <==> Sees(before, c, n)))
      && (forall c: nat, n: nat :: n < k ==> (MissesTheClose(run, c, n) <==> MissesTheClose(before, c, n)))
      && (forall n: nat :: n < k ==> (TimesOut(run, n) <==> TimesOut(before, n)))
      && (forall c: nat :: c < k ==> (Undisturbed(run, c) <==> Undisturbed(before, c) && !run[k].Observe? && !run[k].Timeout?))
  {
    var before := run[..|run| - 1];
    assert forall m: nat :: m < |before| ==> before[m] == run[m];
  }

  // Nothing is sent once the channel is closed: no event of any continuation delivers a reply,
  // blocks a new sender, or closes it again.
  lemma {:induction false} NothingAfterClose(run: seq<Event>, later: seq<Event>)
    requires Close in run
    ensures var r, r' := Exec(run), Exec(run + later);
      r'.sent == r.sent && r'.blocked == r.blocked && r'.closes == r.closes == 1 && r'.panicked == r.panicked
  {
    OneShot(run);
    OneShot(run + later);
    if later == [] {
      assert run + later == run;
    } else {
      NothingAfterClose(run, later[..|later| - 1]);
      assert (run + later)[..|run + later| - 1] == run + later[..|later| - 1];
    }
  }

  // A send after the handler stopped listening: some reply or the timeout came before it, and
  // no close.
  ghost predicate LateSend(run: seq<Event>, n: nat) {
    n < |run| && run[n].Send? && Close !in run[..n] && exists m :: 0 <= m < n && (run[m].Send? || run[m].Timeout?)
  }

  // That is what finds the channel open with nobody receiving.
  lemma LateSendFindsNobody(run: seq<Event>, n: nat)
    requires n < |run| && run[n].Send?
    ensures LateSend(run, n) <==> Exec(run[..n]).open && Exec(run[..n]).handler != Waiting
  {
    var before := run[..n];
    OneShot(before);
    if Close !in before {
      WaitsUntilDecided(before);
      assert forall m :: 0 <= m < n ==> before[m] == run[m];
      if !Undecided(before, n) {
        var m :| 0 <= m < n && !before[m].Observe?;
        assert before[m] != Close;
        assert run[m].Send? || run[m].Timeout?;
      }
    }
  }

  ghost function LateSends(run: seq<Event>): set<nat> {
    set n: nat | n < |run| && LateSend(run, n)
  }

  lemma LateSendStep(run: seq<Event>)
    requires run != []
    ensures var k := |run| - 1; var before := run[..k];
      && (forall n: nat :: n < k ==> (LateSend(run, n) <==> LateSend(before, n)))
      && LateSends(run) == LateSends(before) + if LateSend(run, k) then {k} else {}
  {
    var k := |run| - 1;
    var before := run[..k];
    forall n: nat | n < k ensures LateSend(run, n) <==> LateSend(before, n) {
      assert run[..n] == before[..n];
    }
  }

  // Every late send blocks one sender for ever.
  lemma {:induction false} EachLateSendBlocksOne(run: seq<Event>)
    ensures Exec(run).blocked == |LateSends(run)|
  {
    if run == [] {
    } else {
      var k := |run| - 1;
      EachLateSendBlocksOne(run[..k]);
      LateSendStep(run);
      if run[k].Send? {
        LateSendFindsNobody(run, k);
      }
    }
  }

  // A sender is blocked for ever exactly when there was a late send, and closing the channel
  // panics exactly when it is closed after one.
  lemma {:induction false} BlockedByLateSend(run: seq<Event>)
    ensures Exec(run).blocked > 0 <==> exists n: nat :: LateSend(run, n)
    ensures Exec(run).panicked <==> Close in run && exists n: nat :: LateSend(run, n)
  {
    if run == [] {
    } else {
      var before := run[..|run| - 1];
      BlockedByLateSend(before);
      OneShot(before);
      LateSendStep(run);
      if run[|before|].Send? {
        LateSendFindsNobody(run, |before|);
      }
      if exists n: nat :: LateSend(before, n) {
        var n: nat :| LateSend(before, n);
        assert LateSend(run, n);
      }
    }
  }

  // The shortest inputs: the timeout or another reply, then a send, then the close that the
  // handler or the callback still makes.
  lemma CloseAfterLateSendPanics(x: nat, y: nat)
    ensures Exec([Timeout, Send(x), Close]).panicked && Exec([Send(y), Send(x), Close]).panicked
  {
    Decided(Timeout, x);
    Decided(Send(y), x);
  }

  lemma Decided(first: Event, x: nat)
    requires first.Timeout? || first.Send?
    ensures Exec([first, Send(x), Close]).panicked
  {
    var run := [first, Send(x), Close];
    assert run[0].Timeout? || run[0].Send?;
    assert LateSend(run, 1);
    assert run[2] == Close;
    BlockedByLateSend(run);
  }

  /* ---- in place ---- */

  // A Go channel without a buffer, as its one receiver and its senders leave it.
  class Channel {
    var closed: bool
    var closes: nat
    var sent: nat
    var blocked: nat
    var panicked: bool
    var receiver: Handler

    constructor ()
      ensures !closed && closes == 0 && sent == 0 && blocked == 0 && !panicked && receiver == Waiting
    {
      closed, closes, sent, blocked, panicked, receiver := false, 0, 0, 0, false, Waiting;
    }

    // close(ch): panics on a closed channel, and makes blocked senders panic.
    method Close()
      modifies this`closed, this`closes, this`panicked
      ensures closed && closes == old(closes) + 1
      ensures panicked == (old(panicked) || old(closed) || blocked > 0)
    {
      panicked := panicked || closed || blocked > 0;
      closed, closes := true, closes + 1;
    }

    // ch <- reply: panics on a closed channel, blocks when nobody receives.
    method Send(reply: nat)
      modifies this`sent, this`blocked, this`panicked, this`receiver
      ensures panicked == (old(panicked) || closed)
      ensures !closed && old(receiver) == Waiting ==>
        sent == old(sent) + 1 && receiver == Replied(reply) && blocked == old(blocked)
      ensures closed || old(receiver) != Waiting ==> sent == old(sent) && receiver == old(receiver)
      ensures !closed && old(receiver) != Waiting ==> blocked == old(blocked) + 1
      ensures closed ==> blocked == old(blocked)
    {
      if closed {
        panicked := true;
      } else if receiver == Waiting {
        sent, receiver := sent + 1, Replied(reply);
      } else {
        blocked := blocked + 1;
      }
    }

    // The receiver finds the channel closed.
    method Observe()
      modifies this`receiver
      ensures receiver == if closed && old(receiver) == Waiting then SawClosed else old(receiver)
    {
      if closed && receiver == Waiting {
        receiver := SawClosed;
      }
    }
  }

  class WebrtObj {
    var openChanSource: bool
    const chanSource: Channel

    // The flag says whether the channel is open, so no call closes it twice or sends on it closed.
    ghost predicate Valid()
      reads this, chanSource
    {
      openChanSource == !chanSource.closed
    }

    ghost function View(): Reply
      reads this, chanSource
    {
      Reply(!chanSource.closed, chanSource.closes, chanSource.sent, chanSource.blocked, chanSource.panicked, chanSource.receiver)
    }

    constructor ()
      ensures Valid() && View() == FRESH && fresh(chanSource)
    {
      openChanSource := true;
      chanSource := new Channel();
    }

    method CloseChanSource()
      requires Valid()
      modifies this, chanSource
      ensures Valid() && View() == Step(old(View()), Close)
    {
      if openChanSource {
        openChanSource := false;
        chanSource.Close();
      }
    }

    method SendChanSource(reply: nat)
      requires Valid()
      modifies chanSource
      ensures Valid() && View() == Step(old(View()), Send(reply))
    {
      if openChanSource {
        chanSource.Send(reply);
      }
    }

    // The timer branch of the handler's `select`, taken only while it waits, and the branch
    // that finds the channel closed.
    method Expire()
      requires Valid()
      modifies chanSource
      ensures Valid() && View() == Step(old(View()), Timeout)
    {
      if chanSource.receiver == Waiting {
        chanSource.receiver := TimedOut;
      }
    }

    method FindClosed()
      requires Valid()
      modifies chanSource
      ensures Valid() && View() == Step(old(View()), Observe)
    {
      chanSource.Observe();
    }

    // What other goroutines do to the channel meanwhile.
    method Others(events: seq<Event>)
      requires Valid()
      modifies this, chanSource
      ensures Valid() && View() == After(old(View()), events)
    {
      for n := 0 to |events|
        invariant Valid() && View() == After(old(View()), events[..n])
      {
        match events[n] {
          case Close => CloseChanSource();
          case Send(reply) => SendChanSource(reply);
          case Observe => FindClosed();
          case Timeout => Expire();
        }
        assert events[..n + 1][..n] == events[..n];
      }
      assert events[..|events|] == events;
    }

    // OnICECandidate: a candidate answers, if the channel is open and the connection still in
    // its table when it looks. Anything may happen before it sends, and again before it closes.
    method OnICECandidate(reply: nat, connected: bool, before: seq<Event>, between: seq<Event>)
      requires Valid()
      modifies this, chanSource
      ensures Valid()
      ensures View() == if old(View()).open && connected
                        then Step(After(Step(After(old(View()), before), Send(reply)), between), Close) else old(View())
    {
      if openChanSource {
        if connected {
          Others(before);
          SendChanSource(reply);
          Others(between);
          CloseChanSource();
        }
      }
    }

    // The hub refuses a viewer with an error reply, without looking first.
    method RefuseViewer(reply: nat, between: seq<Event>)
      requires Valid()
      modifies this, chanSource
      ensures Valid() && View() == Step(After(Step(old(View()), Send(reply)), between), Close)
    {
      SendChanSource(reply);
      Others(between);
      CloseChanSource();
    }

    // The handler's ten seconds are over; anything may happen before it closes.
    method HandlerTimesOut(between: seq<Event>)
      requires Valid() && View().handler == Waiting
      modifies this, chanSource
      ensures Valid() && View() == Step(After(Step(old(View()), Timeout), between), Close)
    {
      Expire();
      Others(between);
      CloseChanSource();
    }
  }
}
