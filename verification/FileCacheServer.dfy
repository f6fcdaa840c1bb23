// The cache as the server runs it: an object that changes its directory tree step by step.
module FileCacheServer {
  import opened Base
  import opened FileTree
  import opened CacheKeys
  import opened FileCache
  import FileCacheRuns

  class CacheFile {
    const md5: Md5
    var root: Tree

    constructor (md5: Md5)
      ensures this.md5 == md5 && root == FileCacheRuns.Exec(md5, [])
    {
      this.md5, root := md5, Dir(map[]);
    }

    function Slot(key: Key): string {
      FileCacheRuns.Hash(md5, key)
    }

    method Get(key: Key, now: i64) returns (value: Option<Value>)
      modifies this
      ensures value == FetchedValue(old(root), Slot(key), now)
      ensures root == FileCacheRuns.Step(md5, old(root), FileCacheRuns.Get(key, now))
    {
      value := None;
      var found := Lookup(root, SlotPath(Slot(key)));
      if found.Some? && found.value.File? && found.value.body.readable {
        match found.value.body.content {
          case Encoded(remove, v) =>
            if remove > 0 && remove < now {
              Del(key);
            } else {
              value := Some(v);
            }
          case Garbage =>
        }
      }
    }

    // Make the directories, open the file (truncating it), then write if gob can encode.
    method Set(key: Key, v: Value, interval: i64, now: i64) returns (ok: bool)
      modifies this
      ensures root == FileCacheRuns.Step(md5, old(root), FileCacheRuns.Set(key, v, interval, now))
      ensures ok <==> Writable(old(root), Slot(key)) && Encodable(v)
    {
      var path := SlotPath(Slot(key));
      if !Reachable(root, path) {
        return false;
      }
      var there := Lookup(root, path);
      if there.Some? && there.value.Dir? {
        return false;
      }
      var remove: i64 := 0;
      if interval > 0 {
        remove := WrapI64(now + interval);
      }
      if Encodable(v) {
        root := Put(root, path, File(Body(Encoded(remove, v), true)));
        return true;
      }
      root := Put(root, path, File(Body(Garbage, true)));
      return false;
    }

    method Del(key: Key)
      modifies this
      ensures root == Deleted(old(root), Slot(key))
    {
      var path := SlotPath(Slot(key));
      root := Remove(root, path);
      var dir := path[..2];
      if IsEmptyDir(Lookup(root, dir)) {
        root := Remove(root, dir);
        dir := dir[..1];
        assert dir == path[..1];
        if IsEmptyDir(Lookup(root, dir)) {
          root := Remove(root, dir);
        }
      }
    }

    // os.RemoveAll on every name in cachedir.
    method Clear()
      modifies this
      ensures root == Cleared(old(root))
    {
      if root.Dir? {
        var todo := root.entries.Keys;
        while todo != {}
          invariant root.Dir? && root.entries.Keys == todo
          decreases todo
        {
          var name :| name in todo;
          root := Cut(root, [name]);
          todo := todo - {name};
        }
      }
    }

    method ClearTrash(now: i64)
      modifies this
      ensures root == TrashCleared(old(root), now)
    {
      if root.Dir? {
        ghost var before := root;
        var todo := root.entries.Keys;
        assert SweptEntries(before, todo, now) == before.entries;
        while todo != {}
          invariant todo <= before.entries.Keys
          invariant root == Dir(SweptEntries(before, todo, now))
          decreases todo
        {
          var name :| name in todo;
          SweepOneMore(before, todo, name, now);
          RecursiveTrash([name], now);
          todo := todo - {name};
        }
      }
    }

    // Sweep what is at `path`, in place.
    method RecursiveTrash(path: Path, now: i64)
      requires path != [] && Lookup(root, path).Some?
      modifies this
      ensures Reachable(old(root), path)
      ensures root == Replace(old(root), path, Swept(Lookup(old(root), path).value, now))
      decreases Lookup(root, path).value
    {
      FoundIsReachable(root, path);
      PutBack(root, path);
      ghost var before := root;
      var n := Lookup(root, path).value;
      if n.Dir? {
        var todo := n.entries.Keys;
        assert SweptEntries(n, todo, now) == n.entries;
        while todo != {}
          invariant todo <= n.entries.Keys
          invariant root == Put(before, path, Dir(SweptEntries(n, todo, now)))
          decreases todo
        {
          var name :| name in todo;
          var part := Dir(SweptEntries(n, todo, now));
          PutThenLookup(before, path, part, [name]);
          PutPut(before, path, part, [name], n.entries[name]);
          RecursiveTrash(path + [name], now);
          SweepInside(before, path, n, todo, name, now);
          todo := todo - {name};
        }
        PutThenLookup(before, path, Dir(SweptEntries(n, {}, now)), []);
        assert path + [] == path;
        if IsEmptyDir(Lookup(root, path)) {
          CutPut(before, path, Dir(SweptEntries(n, {}, now)));
          root := Remove(root, path);
        }
      } else {
        if n.body.readable {
          if n.body.content.Encoded? {
            if n.body.content.remove > 0 && n.body.content.remove < now {
              root := Remove(root, path);
            }
          } else {
            root := Remove(root, path);
          }
        }
      }
    }
  }

  // Any operations, one after the other.
  method Perform(cache: CacheFile, ops: seq<FileCacheRuns.Op>, ghost run: seq<FileCacheRuns.Op>)
    requires cache.root == FileCacheRuns.Exec(cache.md5, run)
    modifies cache
    ensures cache.root == FileCacheRuns.Exec(cache.md5, run + ops)
  {
    assert run + ops[..0] == run;
    for n := 0 to |ops|
      invariant cache.root == FileCacheRuns.Exec(cache.md5, run + ops[..n])
    {
      FileCacheRuns.ExecSnoc(cache.md5, run + ops[..n], ops[n]);
      LongerByOne(run, ops, n);
      PerformOne(cache, ops[n]);
    }
    assert ops[..|ops|] == ops;
  }

  lemma LongerByOne(run: seq<FileCacheRuns.Op>, ops: seq<FileCacheRuns.Op>, n: nat)
    requires n < |ops|
    ensures run + ops[..n] + [ops[n]] == run + ops[..n + 1]
  {
  }

  method PerformOne(cache: CacheFile, op: FileCacheRuns.Op)
    modifies cache
    ensures cache.root == FileCacheRuns.Step(cache.md5, old(cache.root), op)
  {
    match op {
      case Set(key, value, interval, at) => var _ := cache.Set(key, value, interval, at);
      case Get(key, at) => var _ := cache.Get(key, at);
      case Del(key, _) => cache.Del(key);
      case Clear(_) => cache.Clear();
      case ClearTrash(at) => cache.ClearTrash(at);
    }
  }

  lemma PutThenLookup(n: Tree, p: Path, x: Tree, q: Path)
    requires Reachable(n, p)
    ensures Lookup(Put(n, p, x), p + q) == Lookup(x, q)
  {
    LookupPut(n, p, x, p + q);
    assert (p + q)[|p|..] == q;
  }

  // One more name of a directory swept.
  lemma SweepOneMore(n: Tree, todo: set<string>, name: string, now: i64)
    requires n.Dir? && name in todo && name in n.entries
    ensures var part := Dir(SweptEntries(n, todo, now));
      && Lookup(part, [name]) == Some(n.entries[name]) && Reachable(part, [name])
      && Replace(part, [name], Swept(n.entries[name], now)) == Dir(SweptEntries(n, todo - {name}, now))
  {
    var part := Dir(SweptEntries(n, todo, now));
    EntriesOneMore(n, todo, name, now);
    assert [name][1..] == [] && part.entries[name] == n.entries[name];
    match Swept(n.entries[name], now)
    case Some(x) => assert Put(part, [name], x) == Dir(part.entries[name := x]);
    case None =>
  }

  lemma EntriesOneMore(n: Tree, todo: set<string>, name: string, now: i64)
    requires n.Dir? && name in todo && name in n.entries
    ensures name in SweptEntries(n, todo, now)
    ensures SweptEntries(n, todo - {name}, now) ==
      match Swept(n.entries[name], now)
      case Some(x) => SweptEntries(n, todo, now)[name := x]
      case None => SweptEntries(n, todo, now) - {name}
  {
    var entries, entries' := SweptEntries(n, todo, now), SweptEntries(n, todo - {name}, now);
    assert forall k :: k != name ==> (k in entries' <==> k in entries);
  }

  lemma SweepInside(root: Tree, path: Path, n: Tree, todo: set<string>, name: string, now: i64)
    requires Reachable(root, path) && n.Dir? && name in todo && name in n.entries
    ensures var part := Dir(SweptEntries(n, todo, now));
      && Reachable(Put(root, path, part), path + [name])
      && Replace(Put(root, path, part), path + [name], Swept(n.entries[name], now))
         == Put(root, path, Dir(SweptEntries(n, todo - {name}, now)))
  {
    var part := Dir(SweptEntries(n, todo, now));
    SweepOneMore(n, todo, name, now);
    match Swept(n.entries[name], now)
    case Some(x) => PutPut(root, path, part, [name], x);
    case None => PutPut(root, path, part, [name], n); PutCut(root, path, part, [name]);
  }
}
