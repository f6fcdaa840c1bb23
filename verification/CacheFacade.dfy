// The Cache(...) helper in front of the file cache: how its third argument becomes a number of
// seconds, and which of its forms never expire.
module CacheFacade {
  import opened Base
  import opened CacheKeys
  import opened FileCache
  import FileCacheRuns
  import FileCacheServer

  const SECOND: int := 1_000_000_000

  // A time.Duration in nanoseconds, an integer of any Go type, or something else.
  datatype Ttl = Duration(ns: i64) | Seconds(n: int) | Unrecognised

  // time.Duration(value) * time.Second in int64 arithmetic; the default is an hour.
  function TtlOf(t: Ttl): i64 {
    match t
    case Duration(ns) => ns
    case Seconds(n) => WrapI64(WrapI64(n) * SECOND)
    case Unrecognised => 3600 * SECOND
  }

  // int64(ttl.Seconds()), the float64 taken as an exact quotient.
  function IntervalOf(ttl: i64): i64 {
    if ttl > SECOND then ttl / SECOND else 0
  }

  // The seconds asked for are the seconds the entry lives exactly from 2 to 9223372036 (0
  // meaning no expiry): one second means no expiry either, and more wraps around.
  lemma WholeSecondsSurvive(n: int)
    requires -0x8000_0000_0000_0000 <= n < TWO_64
    ensures IntervalOf(TtlOf(Seconds(n))) == n <==> n == 0 || 2 <= n <= 9223372036
  {
    if 0 <= n <= 9223372036 {
      assert WrapI64(n) == n && WrapI64(n * SECOND) == n * SECOND;
      assert n * SECOND / SECOND == n;
    }
  }

  lemma IntervalFor(n: int)
    requires -9223372036 <= n <= 9223372036
    ensures IntervalOf(TtlOf(Seconds(n))) == if n <= 1 then 0 else n
  {
    assert WrapI64(n) == n && WrapI64(n * SECOND) == n * SECOND;
    if n >= 2 {
      WholeSecondsSurvive(n);
    }
  }

  // A duration is cut to whole seconds, and not kept at all up to one second; anything that is
  // no duration or integer stands for an hour.
  lemma OtherIntervals(ns: i64)
    ensures ns <= 1_000_000_000 ==> IntervalOf(TtlOf(Duration(ns))) == 0
    ensures ns > 1_000_000_000 ==>
      var n := IntervalOf(TtlOf(Duration(ns))); n * 1_000_000_000 <= ns < (n + 1) * 1_000_000_000
    ensures IntervalOf(TtlOf(Unrecognised)) == 3600
  {
    assert ns > 1_000_000_000 ==> ns / 1_000_000_000 * 1_000_000_000 + ns % 1_000_000_000 == ns;
  }

  // The operation that Cache(key, v, n) asks for.
  function Asked(key: Key, v: Value, n: int, at: i64): FileCacheRuns.Op {
    FileCacheRuns.Set(key, v, IntervalOf(TtlOf(Seconds(n))), at)
  }

  // The entry it makes, however the run goes on as long as nothing writes or deletes it: read
  // for n seconds and no longer, or for ever when n is at most one.
  lemma LivesAsLongAsAsked(md5: Md5, run: seq<FileCacheRuns.Op>, key: Key, v: Value, n: int, at: i64,
                           later: seq<FileCacheRuns.Op>, t: i64)
    requires -9223372036 <= n <= 9223372036 && at >= 0 && at + n < 0x8000_0000_0000_0000
    requires FileCacheRuns.ReadyAt(run + [Asked(key, v, n, at)] + later, t)
    requires FileCacheRuns.AllLeaveAlone(md5, later, key)
    ensures FetchedValue(FileCacheRuns.Exec(md5, run + [Asked(key, v, n, at)] + later), FileCacheRuns.Hash(md5, key), t)
         == if (v.Opaque? ==> v.encodable) && (n <= 1 || t <= at + n) then Some(v) else None
  {
    var op := Asked(key, v, n, at);
    IntervalFor(n);
    FileCacheRuns.LastTouchDecides(md5, run, op, later, key, t);
    LivesFor(at, n, op.interval, t);
  }

  lemma LivesFor(at: i64, n: int, interval: i64, t: i64)
    requires at >= 0 && at + n < 0x8000_0000_0000_0000 && interval == if n <= 1 then 0 else n
    ensures FileCacheRuns.Lives(at, interval, t) <==> n <= 1 || t <= at + n
  {
  }

  // Cache's arguments after the key; a value of None is nil.
  datatype Args = Read | Write(given: Option<Value>) | WriteFor(value: Value, ttl: Ttl)

  datatype Answer = Found(value: Option<Value>) | Stored(ok: bool)

  // Two arguments store with a Duration of one nanosecond; nil deletes.
  method Cache(store: FileCacheServer.CacheFile, key: Key, args: Args, now: i64) returns (answer: Answer)
    modifies store
    ensures args.Read? ==>
      && answer == Found(FetchedValue(old(store.root), store.Slot(key), now))
      && store.root == FileCacheRuns.Step(store.md5, old(store.root), FileCacheRuns.Get(key, now))
    ensures args == Write(None) ==>
      answer == Found(None) && store.root == FileCacheRuns.Step(store.md5, old(store.root), FileCacheRuns.Del(key, now))
    ensures args.Write? && args.given.Some? ==>
      store.root == FileCacheRuns.Step(store.md5, old(store.root), FileCacheRuns.Set(key, args.given.value, 0, now))
    ensures args.WriteFor? ==>
      store.root == FileCacheRuns.Step(store.md5, old(store.root),
                                       FileCacheRuns.Set(key, args.value, IntervalOf(TtlOf(args.ttl)), now))
    ensures args.WriteFor? || (args.Write? && args.given.Some?) ==>
      answer == Stored(Writable(old(store.root), store.Slot(key))
                       && Encodable(if args.Write? then args.given.value else args.value))
  {
    match args {
      case Read =>
        var value := store.Get(key, now);
        answer := Found(value);
      case Write(None) =>
        store.Del(key);
        answer := Found(None);
      case Write(Some(v)) =>
        var ok := Set(store, key, v, 1, now);
        answer := Stored(ok);
      case WriteFor(v, ttl) =>
        var ok := Set(store, key, v, TtlOf(ttl), now);
        answer := Stored(ok);
    }
  }

  // filecacheStruct.Set.
  method Set(store: FileCacheServer.CacheFile, key: Key, v: Value, ttl: i64, now: i64) returns (ok: bool)
    modifies store
    ensures store.root == FileCacheRuns.Step(store.md5, old(store.root), FileCacheRuns.Set(key, v, IntervalOf(ttl), now))
    ensures ok <==> Writable(old(store.root), store.Slot(key)) && Encodable(v)
  {
    var interval: i64 := 0;
    if ttl > SECOND {
      interval := ttl / SECOND;
    }
    ok := store.Set(key, v, interval, now);
  }
}
