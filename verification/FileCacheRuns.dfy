// Whole runs of cache operations: the tree refines a map with expiry.
module FileCacheRuns {
  import opened Base
  import opened FileTree
  import opened CacheKeys
  import opened FileCache

  function Hash(md5: Md5, key: Key): string {
    md5(KeyText(key))
  }

  // Every operation with the time it reads from the clock.
  datatype Op =
    | Set(key: Key, value: Value, interval: i64, at: i64)
    | Get(key: Key, at: i64)
    | Del(key: Key, at: i64)
    | Clear(at: i64)
    | ClearTrash(at: i64)

  function Step(md5: Md5, root: Tree, op: Op): Tree {
    match op
    case Set(key, v, interval, at) => Stored(root, Hash(md5, key), at, v, interval)
    case Get(key, at) => Fetched(root, Hash(md5, key), at)
    case Del(key, _) => Deleted(root, Hash(md5, key))
    case Clear(_) => Cleared(root)
    case ClearTrash(at) => TrashCleared(root, at)
  }

  // From an empty cache directory.
  function Exec(md5: Md5, run: seq<Op>): Tree {
    if run == [] then Dir(map[]) else Step(md5, Exec(md5, run[..|run| - 1]), run[|run| - 1])
  }

  lemma ExecSnoc(md5: Md5, run: seq<Op>, op: Op)
    ensures Exec(md5, run + [op]) == Step(md5, Exec(md5, run), op)
  {
    assert (run + [op])[..|run|] == run;
  }

  predicate ClockOrder(run: seq<Op>) {
    forall i, j :: 0 <= i < j < |run| ==> run[i].at <= run[j].at
  }

  // The history's own notion of what a key's slot was last given: no tree, no sweeping, no
  // pruning, and reads do not count.
  function LastWrite(md5: Md5, run: seq<Op>, hash: string): Option<Content> {
    if run == [] then None
    else WriteAfter(md5, run[|run| - 1], hash, LastWrite(md5, run[..|run| - 1], hash))
  }

  function WriteAfter(md5: Md5, op: Op, hash: string, w: Option<Content>): Option<Content> {
    match op
    case Set(key, v, interval, at) => if Hash(md5, key) == hash then Some(Written(at, v, interval)) else w
    case Del(key, _) => if Hash(md5, key) == hash then None else w
    case Clear(_) => None
    case _ => w
  }

  function Readable(c: Option<Content>, now: i64): Option<Value> {
    match c case Some(x) => Visible(x, now) case None => None
  }

  // A slot's file is what was last written there, or there is none because nothing readable was.
  predicate Agrees(o: Option<Tree>, written: Option<Content>, now: i64) {
    match o
    case None => Readable(written, now) == None
    case Some(n) => n.File? && n.body.readable && written == Some(n.body.content)
  }

  ghost predicate SlotAgrees(md5: Md5, root: Tree, run: seq<Op>, now: i64, hash: string) {
    Agrees(Lookup(root, SlotPath(hash)), LastWrite(md5, run, hash), now)
  }

  ghost predicate Refines(md5: Md5, root: Tree, run: seq<Op>, now: i64) {
    Hygienic(root) && forall hash: string :: |hash| == HASH_LENGTH ==> SlotAgrees(md5, root, run, now, hash)
  }

  lemma ReadsWhatAgrees(o: Option<Tree>, written: Option<Content>, now: i64)
    requires Agrees(o, written, now)
    ensures ValueOf(o, now) == Readable(written, now)
  {
  }

  lemma SlotsDiffer(h: string, h': string)
    requires |h| == HASH_LENGTH && |h'| == HASH_LENGTH && h != h'
    ensures !(SlotPath(h) <= SlotPath(h')) && !(SlotPath(h') <= SlotPath(h))
  {
    SlotPathOf(h);
    SlotPathOf(h');
    assert SlotPath(h) != SlotPath(h');
  }

  lemma SetAgrees(root: Tree, hash: string, at: i64, v: Value, interval: i64, h: string)
    requires Hygienic(root) && |hash| == HASH_LENGTH && |h| == HASH_LENGTH
    ensures Lookup(Stored(root, hash, at, v, interval), SlotPath(h))
      == if h == hash then Some(File(Body(Written(at, v, interval), true))) else Lookup(root, SlotPath(h))
  {
    SlotsAreWritable(root, hash);
    LookupPut(root, SlotPath(hash), File(Body(Written(at, v, interval), true)), SlotPath(h));
    if h != hash {
      SlotsDiffer(hash, h);
    }
  }

  lemma DelAgrees(root: Tree, hash: string, h: string)
    requires Hygienic(root) && |hash| == HASH_LENGTH && |h| == HASH_LENGTH
    ensures Lookup(Deleted(root, hash), SlotPath(h)) == if h == hash then None else Lookup(root, SlotPath(h))
  {
    DelLookup(root, hash, SlotPath(h));
    if h != hash {
      SlotsDiffer(hash, h);
    }
  }

  lemma ClearTrashAgrees(root: Tree, at: i64, h: string)
    requires Hygienic(root) && |h| == HASH_LENGTH
    ensures var o := Lookup(root, SlotPath(h));
      Lookup(TrashCleared(root, at), SlotPath(h))
        == if o.Some? && o.value.File? && Kept(o.value.body, at) then o else None
  {
    var p := SlotPath(h);
    var o, o' := Lookup(root, p), Lookup(TrashCleared(root, at), p);
    ClearTrashKeepsHygiene(root, at);
    if o.Some? {
      assert WellPlaced(o.value, p);
      TrashKeepsFiles(root, at, p, o.value.body);
    }
    if o'.Some? {
      assert WellPlaced(o'.value, p);
      TrashKeepsFiles(root, at, p, o'.value.body);
    }
  }

  lemma LaterStillAgrees(o: Option<Tree>, written: Option<Content>, now: i64, later: i64)
    requires now <= later && Agrees(o, written, now)
    ensures Agrees(o, written, later)
    ensures FindsExpired(o, later) ==> Readable(written, later) == None
    ensures o.Some? && !Kept(o.value.body, later) ==> Readable(written, later) == None
  {
  }

  // One operation, on one slot.
  lemma StepAgrees(md5: Md5, root: Tree, run: seq<Op>, op: Op, now: i64, h: string)
    requires Hygienic(root) && SlotAgrees(md5, root, run, now, h) && now <= op.at && |h| == HASH_LENGTH
    ensures SlotAgrees(md5, Step(md5, root, op), run + [op], op.at, h)
  {
    var o, w := Lookup(root, SlotPath(h)), LastWrite(md5, run, h);
    LaterStillAgrees(o, w, now, op.at);
    StepLastWrite(md5, run, op, h);
    StepLookup(md5, root, op, h);
  }

  // What one operation leaves at one slot.
  function AfterAt(md5: Md5, op: Op, h: string, o: Option<Tree>): Option<Tree> {
    match op
    case Set(key, v, interval, at) =>
      if Hash(md5, key) == h then Some(File(Body(Written(at, v, interval), true))) else o
    case Get(key, at) => if Hash(md5, key) == h && FindsExpired(o, at) then None else o
    case Del(key, _) => if Hash(md5, key) == h then None else o
    case Clear(_) => None
    case ClearTrash(at) => if o.Some? && o.value.File? && Kept(o.value.body, at) then o else None
  }

  lemma StepLastWrite(md5: Md5, run: seq<Op>, op: Op, h: string)
    ensures LastWrite(md5, run + [op], h) == WriteAfter(md5, op, h, LastWrite(md5, run, h))
  {
    assert (run + [op])[..|run|] == run;
  }

  lemma StepLookup(md5: Md5, root: Tree, op: Op, h: string)
    requires Hygienic(root) && |h| == HASH_LENGTH
    ensures Lookup(Step(md5, root, op), SlotPath(h)) == AfterAt(md5, op, h, Lookup(root, SlotPath(h)))
  {
    match op
    case Set(key, v, interval, at) => SetAgrees(root, Hash(md5, key), at, v, interval, h);
    case Get(key, at) => DelAgrees(root, Hash(md5, key), h);
    case Del(key, _) => DelAgrees(root, Hash(md5, key), h);
    case Clear(_) =>
    case ClearTrash(at) => ClearTrashAgrees(root, at, h);
  }

  lemma StepKeepsHygiene(md5: Md5, root: Tree, op: Op)
    requires Hygienic(root)
    ensures Hygienic(Step(md5, root, op))
  {
    match op
    case Set(key, v, interval, at) => SetKeepsHygiene(root, Hash(md5, key), at, v, interval);
    case Get(key, at) => DelKeepsHygiene(root, Hash(md5, key));
    case Del(key, _) => DelKeepsHygiene(root, Hash(md5, key));
    case Clear(_) => ClearKeepsHygiene(root);
    case ClearTrash(at) => ClearTrashKeepsHygiene(root, at);
  }

  // The clock reading of the last operation, or any earlier moment.
  predicate ReadyAt(run: seq<Op>, now: i64) {
    ClockOrder(run) && (run != [] ==> run[|run| - 1].at <= now)
  }

  // Over any sequence of operations under a clock that never goes back, the tree stays
  // hygienic and agrees, slot by slot, with what was last written.
  lemma {:induction false} EveryRunRefines(md5: Md5, run: seq<Op>, now: i64)
    requires ReadyAt(run, now)
    ensures Refines(md5, Exec(md5, run), run, now)
  {
    if run == [] {
      assert forall q: Path :: Lookup(Exec(md5, run), q).Some? ==> q == [];
    } else {
      var before, op := run[..|run| - 1], run[|run| - 1];
      EveryRunRefines(md5, before, op.at);
      assert before + [op] == run;
      StepKeepsHygiene(md5, Exec(md5, before), op);
      forall h: string | |h| == HASH_LENGTH ensures SlotAgrees(md5, Exec(md5, run), run, now, h) {
        StepAgrees(md5, Exec(md5, before), before, op, op.at, h);
        LaterStillAgrees(Lookup(Exec(md5, run), SlotPath(h)), LastWrite(md5, run, h), op.at, now);
      }
    }
  }

  // Get returns the last value set, exactly when it was not deleted or cleared since and its
  // Remove is 0 or not before now.
  lemma GetReadsLastWrite(md5: Md5, run: seq<Op>, key: Key, now: i64)
    requires ReadyAt(run, now)
    ensures FetchedValue(Exec(md5, run), Hash(md5, key), now) == Readable(LastWrite(md5, run, Hash(md5, key)), now)
  {
    EveryRunRefines(md5, run, now);
    assert SlotAgrees(md5, Exec(md5, run), run, now, Hash(md5, key));
    ReadsWhatAgrees(Lookup(Exec(md5, run), SlotPath(Hash(md5, key))), LastWrite(md5, run, Hash(md5, key)), now);
  }

  // ClearTrash, and any Get with the deletion inside it, never change whether or with what
  // value any later Get succeeds, however the run goes on.
  lemma MaintenanceIsInvisible(md5: Md5, run: seq<Op>, m: Op, later: seq<Op>, key: Key, now: i64)
    requires m.ClearTrash? || m.Get?
    requires ReadyAt(run + [m] + later, now)
    ensures FetchedValue(Exec(md5, run + [m] + later), Hash(md5, key), now)
         == FetchedValue(Exec(md5, run + later), Hash(md5, key), now)
  {
    WithoutOne(run, m, later, now);
    GetReadsLastWrite(md5, run + [m] + later, key, now);
    GetReadsLastWrite(md5, run + later, key, now);
    LastWriteSkips(md5, run, m, later, Hash(md5, key));
  }

  lemma WithoutOne(run: seq<Op>, m: Op, later: seq<Op>, now: i64)
    requires ReadyAt(run + [m] + later, now)
    ensures ReadyAt(run + later, now)
  {
    var with, without := run + [m] + later, run + later;
    assert forall i :: 0 <= i < |without| ==> without[i] == with[if i < |run| then i else i + 1];
  }

  lemma LastWriteSkips(md5: Md5, run: seq<Op>, m: Op, later: seq<Op>, hash: string)
    requires m.ClearTrash? || m.Get?
    ensures LastWrite(md5, run + [m] + later, hash) == LastWrite(md5, run + later, hash)
  {
    StepLastWrite(md5, run, m, hash);
    SameFromHere(md5, run + [m], run, later, hash);
  }

  lemma LastApart(run: seq<Op>, later: seq<Op>)
    requires later != []
    ensures run + later == run + later[..|later| - 1] + [later[|later| - 1]]
  {
  }

  lemma SameStep(md5: Md5, run: seq<Op>, run': seq<Op>, op: Op, hash: string)
    requires LastWrite(md5, run, hash) == LastWrite(md5, run', hash)
    ensures LastWrite(md5, run + [op], hash) == LastWrite(md5, run' + [op], hash)
  {
    StepLastWrite(md5, run, op, hash);
    StepLastWrite(md5, run', op, hash);
  }

  lemma {:induction false} SameFromHere(md5: Md5, run: seq<Op>, run': seq<Op>, later: seq<Op>, hash: string)
    requires LastWrite(md5, run, hash) == LastWrite(md5, run', hash)
    ensures LastWrite(md5, run + later, hash) == LastWrite(md5, run' + later, hash)
  {
    if later == [] {
      assert run + later == run && run' + later == run';
    } else {
      var before, op := later[..|later| - 1], later[|later| - 1];
      SameFromHere(md5, run, run', before, hash);
      SameStep(md5, run + before, run' + before, op, hash);
      LastApart(run, later);
      LastApart(run', later);
    }
  }

  // Two keys share a slot exactly when their gob encodings agree or both fail, provided MD5
  // does not collide on the two texts.
  lemma SharedSlots(md5: Md5, k: Key, k': Key)
    requires md5(KeyText(k)) == md5(KeyText(k')) ==> KeyText(k) == KeyText(k')
    ensures SlotPath(Hash(md5, k)) == SlotPath(Hash(md5, k')) <==> k.gob == k'.gob
  {
    SlotPathOf(Hash(md5, k));
    SlotPathOf(Hash(md5, k'));
    SameTextIffSameGob(k, k');
  }

  // Del never removes cachedir or another slot's file.
  lemma DelTouchesOneSlot(md5: Md5, run: seq<Op>, key: Key, q: Path, b: Body)
    requires ClockOrder(run)
    ensures Deleted(Exec(md5, run), Hash(md5, key)).Dir?
    ensures q != SlotPath(Hash(md5, key)) ==>
      (Lookup(Exec(md5, run), q) == Some(File(b)) <==> Lookup(Deleted(Exec(md5, run), Hash(md5, key)), q) == Some(File(b)))
  {
    var root, hash := Exec(md5, run), Hash(md5, key);
    assert Hygienic(root) by {
      EveryRunRefines(md5, run, if run == [] then 0 else run[|run| - 1].at);
    }
    DelLookup(root, hash, []);
    DelLookup(root, hash, q);
    if Lookup(root, q) == Some(File(b)) {
      assert WellPlaced(File(b), q);
    }
  }

  // A value stored at `at` for n seconds can be read at t: through second at + n, and for ever
  // when n is not positive or the int64 sum wraps.
  predicate Lives(at: i64, n: i64, t: i64) {
    n <= 0 || at + n <= 0 || t <= at + n || at + n >= 0x8000_0000_0000_0000
  }

  lemma TimeToLive(at: i64, n: i64, v: Value, now: i64)
    ensures Visible(Written(at, v, n), now) ==
      if (v.Opaque? ==> v.encodable) && Lives(at, n, now) then Some(v) else None
  {
  }

  // The operation neither writes nor deletes in the key's slot, nor clears everything.
  predicate LeavesAlone(md5: Md5, op: Op, key: Key) {
    match op
    case Set(k, _, _, _) => Hash(md5, k) != Hash(md5, key)
    case Del(k, _) => Hash(md5, k) != Hash(md5, key)
    case Clear(_) => false
    case _ => true
  }

  predicate AllLeaveAlone(md5: Md5, ops: seq<Op>, key: Key) {
    forall i :: 0 <= i < |ops| ==> LeavesAlone(md5, ops[i], key)
  }

  // Reads, sweeps, and Set and Del on any other key do, unless MD5 collides.
  lemma OtherKeysLeaveAlone(md5: Md5, op: Op, key: Key)
    requires (op.Set? || op.Del?) && op.key != key
    requires md5(KeyText(op.key)) == md5(KeyText(key)) ==> KeyText(op.key) == KeyText(key)
    ensures LeavesAlone(md5, op, key)
  {
    SameTextIffSameGob(op.key, key);
  }

  lemma AloneWritesNothing(md5: Md5, op: Op, key: Key, w: Option<Content>)
    requires LeavesAlone(md5, op, key)
    ensures WriteAfter(md5, op, Hash(md5, key), w) == w
  {
  }

  lemma {:induction false} UntouchedKeepsLastWrite(md5: Md5, run: seq<Op>, later: seq<Op>, key: Key)
    requires AllLeaveAlone(md5, later, key)
    ensures LastWrite(md5, run + later, Hash(md5, key))
         == LastWrite(md5, run, Hash(md5, key))
  {
    if later == [] {
      assert run + later == run;
    } else {
      var before, op := later[..|later| - 1], later[|later| - 1];
      UntouchedKeepsLastWrite(md5, run, before, key);
      StepLastWrite(md5, run + before, op, Hash(md5, key));
      AloneWritesNothing(md5, op, key, LastWrite(md5, run + before, Hash(md5, key)));
      LastApart(run, later);
    }
  }

  // The last Set or Del of a key decides what a later Get of it reads.
  lemma LastTouchDecides(md5: Md5, run: seq<Op>, op: Op, later: seq<Op>, key: Key, t: i64)
    requires (op.Set? || op.Del?) && op.key == key && ReadyAt(run + [op] + later, t)
    requires AllLeaveAlone(md5, later, key)
    ensures FetchedValue(Exec(md5, run + [op] + later), Hash(md5, key), t) ==
      if op.Set? && (op.value.Opaque? ==> op.value.encodable) && Lives(op.at, op.interval, t) then Some(op.value) else None
  {
    GetReadsLastWrite(md5, run + [op] + later, key, t);
    UntouchedKeepsLastWrite(md5, run + [op], later, key);
    StepLastWrite(md5, run, op, Hash(md5, key));
    if op.Set? {
      TimeToLive(op.at, op.interval, op.value, t);
    }
  }

  // After a Clear, or in a new cache, a key that nobody wrote reads nothing.
  lemma UnwrittenReadsNothing(md5: Md5, run: seq<Op>, clear: Op, later: seq<Op>, key: Key, t: i64)
    requires clear.Clear? && AllLeaveAlone(md5, later, key)
    ensures ReadyAt(later, t) ==> FetchedValue(Exec(md5, later), Hash(md5, key), t) == None
    ensures ReadyAt(run + [clear] + later, t) ==>
      FetchedValue(Exec(md5, run + [clear] + later), Hash(md5, key), t) == None
  {
    if ReadyAt(later, t) {
      GetReadsLastWrite(md5, later, key, t);
      UntouchedKeepsLastWrite(md5, [], later, key);
      assert [] + later == later;
    }
    if ReadyAt(run + [clear] + later, t) {
      GetReadsLastWrite(md5, run + [clear] + later, key, t);
      UntouchedKeepsLastWrite(md5, run + [clear], later, key);
      StepLastWrite(md5, run, clear, Hash(md5, key));
    }
  }

  // Clear leaves cachedir and nothing in it.
  lemma ClearLeavesNothing(md5: Md5, run: seq<Op>, at: i64, q: Path)
    requires ClockOrder(run)
    ensures Lookup(Exec(md5, run + [Clear(at)]), q).Some? <==> q == []
  {
    ExecSnoc(md5, run, Clear(at));
    assert Hygienic(Exec(md5, run)) by {
      EveryRunRefines(md5, run, if run == [] then 0 else run[|run| - 1].at);
    }
    ClearedLookup(Exec(md5, run), q);
  }

  lemma ClearedLookup(root: Tree, q: Path)
    requires root.Dir?
    ensures Lookup(Cleared(root), q).Some? <==> q == []
  {
  }

  // After a sweep a slot holds a file exactly when what was last written there can be read.
  lemma SweepLeavesTheReadable(md5: Md5, run: seq<Op>, at: i64, h: string)
    requires ReadyAt(run, at) && |h| == HASH_LENGTH
    ensures Lookup(Exec(md5, run + [ClearTrash(at)]), SlotPath(h)).Some? <==> Readable(LastWrite(md5, run, h), at).Some?
  {
    AfterOneMore(md5, run, ClearTrash(at), h);
    StaysWhenReadable(Lookup(Exec(md5, run), SlotPath(h)), LastWrite(md5, run, h), at);
  }

  // A Get deletes the entry it finds expired, and no other: afterwards the key's slot holds a
  // file exactly when it did before and that file cannot be decoded or is still alive.
  lemma GetDeletesTheExpired(md5: Md5, run: seq<Op>, key: Key, at: i64)
    requires ReadyAt(run, at)
    ensures var h := Hash(md5, key);
      Lookup(Exec(md5, run + [Get(key, at)]), SlotPath(h)).Some? <==>
        && Lookup(Exec(md5, run), SlotPath(h)).Some?
        && (LastWrite(md5, run, h) == Some(Garbage) || Readable(LastWrite(md5, run, h), at).Some?)
  {
    AfterOneMore(md5, run, Get(key, at), Hash(md5, key));
    StaysWhenReadable(Lookup(Exec(md5, run), SlotPath(Hash(md5, key))), LastWrite(md5, run, Hash(md5, key)), at);
  }

  lemma AfterOneMore(md5: Md5, run: seq<Op>, op: Op, h: string)
    requires ReadyAt(run, op.at) && |h| == HASH_LENGTH
    ensures Agrees(Lookup(Exec(md5, run), SlotPath(h)), LastWrite(md5, run, h), op.at)
    ensures Lookup(Exec(md5, run + [op]), SlotPath(h)) == AfterAt(md5, op, h, Lookup(Exec(md5, run), SlotPath(h)))
  {
    EveryRunRefines(md5, run, op.at);
    assert SlotAgrees(md5, Exec(md5, run), run, op.at, h);
    ExecSnoc(md5, run, op);
    StepLookup(md5, Exec(md5, run), op, h);
  }

  lemma StaysWhenReadable(o: Option<Tree>, w: Option<Content>, at: i64)
    requires Agrees(o, w, at)
    ensures o.Some? && o.value.File? && Kept(o.value.body, at) <==> Readable(w, at).Some?
    ensures o.Some? && !FindsExpired(o, at) <==> o.Some? && (w == Some(Garbage) || Readable(w, at).Some?)
  {
  }
}
