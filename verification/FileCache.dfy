// The file cache: a two-level hashed directory tree with expiry, pruning and a sweeper.
// Operations on the tree as functions, and what each keeps of it.
module FileCache {
  import opened Base
  import opened FileTree

  // What gob can encode, it decodes back to the same value; a value it refuses leaves the
  // truncated file behind.
  datatype Value = Bytes(data: seq<int>) | Text(data: seq<int>) | Opaque(id: int, encodable: bool)

  predicate Encodable(v: Value) {
    !v.Opaque? || v.encodable
  }

  datatype Content = Encoded(remove: i64, value: Value) | Garbage

  datatype Body = Body(content: Content, readable: bool)

  type Tree = Node<Body>

  type Md5 = f: string -> string | (forall s :: |f(s)| == 32)
    ghost witness (s: string) => "00000000000000000000000000000000"

  const HASH_LENGTH := 32

  /* ---- slots ---- */

  // substr on runes: clipped at the end of the input.
  function Substr(input: string, start: nat, length: nat): string {
    if start >= |input| then ""
    else if start + length > |input| then input[start..]
    else input[start..start + length]
  }

  // getPath below cachedir: .h[0..2]/.h[2..4]/.h
  function SlotPath(hash: string): Path {
    ["." + Substr(hash, 0, 2), "." + Substr(hash, 2, 2), "." + hash]
  }

  // The paths a 32-character hash can have.
  predicate IsSlotPath(p: Path) {
    |p| == 3 && |p[2]| == HASH_LENGTH + 1 && p == SlotPath(p[2][1..])
  }

  lemma SlotPathOf(hash: string)
    requires |hash| == HASH_LENGTH
    ensures IsSlotPath(SlotPath(hash)) && SlotPath(hash)[2][1..] == hash
  {
  }

  // The first two characters, the next two, and all of them, each behind a dot.
  lemma SlotPathParts(hash: string)
    requires |hash| == HASH_LENGTH
    ensures |SlotPath(hash)| == 3 && SlotPath(hash)[0] == ['.', hash[0], hash[1]]
    ensures SlotPath(hash)[1] == ['.', hash[2], hash[3]] && SlotPath(hash)[2] == "." + hash
  {
    assert hash[0..2] == [hash[0], hash[1]] && hash[2..4] == [hash[2], hash[3]];
  }

  /* ---- contents over time ---- */

  predicate Expired(remove: i64, now: i64) {
    remove > 0 && remove < now
  }

  // Set's expiry; the int64 sum may wrap.
  function Expiry(now: i64, interval: i64): i64 {
    if interval > 0 then WrapI64(now + interval) else 0
  }

  function Written(now: i64, v: Value, interval: i64): Content {
    if Encodable(v) then Encoded(Expiry(now, interval), v) else Garbage
  }

  // The value a content still gives at time now, if any.
  function Visible(c: Content, now: i64): Option<Value> {
    if c.Encoded? && !Expired(c.remove, now) then Some(c.value) else None
  }

  // The sweeper removes what it can read and finds expired or undecodable.
  predicate Kept(b: Body, now: i64) {
    !b.readable || (b.content.Encoded? && !Expired(b.content.remove, now))
  }

  /* ---- the operations on the tree ---- */

  // Del: remove the file, then each of its two directories if that left it empty.
  function Deleted(root: Tree, hash: string): Tree {
    var p := SlotPath(hash);
    var r1 := Remove(root, p);
    if !IsEmptyDir(Lookup(r1, p[..2])) then r1
    else
      var r2 := Remove(r1, p[..2]);
      if !IsEmptyDir(Lookup(r2, p[..1])) then r2 else Remove(r2, p[..1])
  }

  // Can MkdirAll and OpenFile succeed at the slot?
  predicate Writable(root: Tree, hash: string) {
    Reachable(root, SlotPath(hash)) &&
    match Lookup(root, SlotPath(hash)) case Some(n) => n.File? case None => true
  }

  function Stored(root: Tree, hash: string, now: i64, v: Value, interval: i64): Tree {
    if Writable(root, hash) then Put(root, SlotPath(hash), File(Body(Written(now, v, interval), true))) else root
  }

  // Get: the value returned, and the tree it leaves (an expired entry is deleted).
  function FetchedValue(root: Tree, hash: string, now: i64): Option<Value> {
    ValueOf(Lookup(root, SlotPath(hash)), now)
  }

  function ValueOf(o: Option<Tree>, now: i64): Option<Value> {
    if o.Some? && o.value.File? && o.value.body.readable then Visible(o.value.body.content, now) else None
  }

  predicate FindsExpired(o: Option<Tree>, now: i64) {
    o.Some? && o.value.File? && o.value.body.readable
    && o.value.body.content.Encoded? && Expired(o.value.body.content.remove, now)
  }

  function Fetched(root: Tree, hash: string, now: i64): Tree {
    if FindsExpired(Lookup(root, SlotPath(hash)), now) then Deleted(root, hash) else root
  }

  function Cleared(root: Tree): Tree {
    if root.Dir? then Dir(map[]) else root
  }

  // recursiveTrash on any tree.
  function Swept(n: Tree, now: i64): Option<Tree>
    decreases n, 1
  {
    if n.File? then
      if Kept(n.body, now) then Some(n) else None
    else
      var kept := SweptEntries(n, {}, now);
      if kept.Keys == {} then None else Some(Dir(kept))
  }

  // A directory part-way through its sweep: the names in `todo` are still untouched.
  function SweptEntries(n: Tree, todo: set<string>, now: i64): map<string, Tree>
    requires n.Dir?
    decreases n, 0
  {
    map k | k in n.entries && (k in todo || Swept(n.entries[k], now).Some?) ::
      if k in todo then n.entries[k] else Swept(n.entries[k], now).value
  }

  function TrashCleared(root: Tree, now: i64): Tree {
    if root.Dir? then Dir(SweptEntries(root, {}, now)) else root
  }

  /* ---- the sweeper on arbitrary trees ---- */

  // A file survives, at its own path with its own content, exactly when it cannot be read or
  // holds a value that has no Remove or one not before now.
  lemma {:induction false} SweepKeepsFiles(n: Tree, now: i64, q: Path, b: Body)
    ensures LookupOpt(Swept(n, now), q) == Some(File(b)) <==>
      && Lookup(n, q) == Some(File(b))
      && (b.readable ==> b.content.Encoded? && (b.content.remove <= 0 || now <= b.content.remove))
    decreases |q|
  {
    if q == [] || n.File? {
    } else {
      var kept := SweptEntries(n, {}, now);
      if q[0] in n.entries {
        SweepKeepsFiles(n.entries[q[0]], now, q[1..], b);
      }
      if q[0] in kept {
        assert Swept(n, now) == Some(Dir(kept));
      }
    }
  }

  // No empty directory remains anywhere in the swept subtree, and no new directory appears.
  lemma {:induction false} SweepLeavesNoEmptyDir(n: Tree, now: i64, q: Path)
    requires LookupOpt(Swept(n, now), q).Some? && LookupOpt(Swept(n, now), q).value.Dir?
    ensures LookupOpt(Swept(n, now), q).value.entries.Keys != {}
    ensures Lookup(n, q).Some? && Lookup(n, q).value.Dir?
    decreases |q|
  {
    if q == [] {
    } else {
      SweepLeavesNoEmptyDir(n.entries[q[0]], now, q[1..]);
    }
  }

  /* ---- directory hygiene ---- */

  // Below cachedir every directory is non-empty and at most two deep, and every file is at the
  // slot of the hash it is named after.
  ghost predicate Hygienic(root: Tree) {
    root.Dir? && forall q :: Lookup(root, q).Some? ==> WellPlaced(Lookup(root, q).value, q)
  }

  predicate WellPlaced(n: Tree, q: Path) {
    match n
    case File(_) => IsSlotPath(q)
    case Dir(entries) => |q| <= 2 && (q != [] ==> entries.Keys != {})
  }

  lemma {:induction false} NoFileOnTheWay(n: Tree, p: Path)
    requires forall i :: 0 <= i < |p| && Lookup(n, p[..i]).Some? ==> Lookup(n, p[..i]).value.Dir?
    ensures Reachable(n, p)
    decreases |p|
  {
    if p == [] {
    } else {
      assert Lookup(n, p[..0]) == Some(n);
      if p[0] in n.entries {
        forall i | 0 <= i < |p| - 1 ensures Lookup(n.entries[p[0]], p[1..][..i]) == Lookup(n, p[..i + 1]) {
          assert p[..i + 1][1..] == p[1..][..i];
        }
        NoFileOnTheWay(n.entries[p[0]], p[1..]);
      }
    }
  }

  // A slot can be written exactly when every name on the way to it is a directory or free, and
  // the slot itself a file or free.
  lemma WritableIff(root: Tree, hash: string)
    ensures Writable(root, hash) <==>
      && (forall i :: 0 <= i < 3 && Lookup(root, SlotPath(hash)[..i]).Some? ==> Lookup(root, SlotPath(hash)[..i]).value.Dir?)
      && (Lookup(root, SlotPath(hash)).Some? ==> Lookup(root, SlotPath(hash)).value.File?)
  {
    var p := SlotPath(hash);
    if Reachable(root, p) {
      forall i | 0 <= i < 3 && Lookup(root, p[..i]).Some? ensures Lookup(root, p[..i]).value.Dir? {
        DirOnTheWay(root, p, i);
      }
    }
    if forall i :: 0 <= i < |p| && Lookup(root, p[..i]).Some? ==> Lookup(root, p[..i]).value.Dir? {
      NoFileOnTheWay(root, p);
    }
  }

  lemma {:induction false} DirOnTheWay(n: Tree, p: Path, i: nat)
    requires Reachable(n, p) && i < |p| && Lookup(n, p[..i]).Some?
    ensures Lookup(n, p[..i]).value.Dir?
    decreases |p|
  {
    if i > 0 {
      assert p[..i][1..] == p[1..][..i - 1];
      DirOnTheWay(n.entries[p[0]], p[1..], i - 1);
    }
  }

  // In a hygienic cache nothing stands in the way of any slot.
  lemma SlotsAreWritable(root: Tree, hash: string)
    requires Hygienic(root) && |hash| == HASH_LENGTH
    ensures Writable(root, hash)
  {
    var p := SlotPath(hash);
    forall i | 0 <= i < |p| && Lookup(root, p[..i]).Some? ensures Lookup(root, p[..i]).value.Dir? {
      assert WellPlaced(Lookup(root, p[..i]).value, p[..i]);
    }
    NoFileOnTheWay(root, p);
    if Lookup(root, p).Some? {
      assert WellPlaced(Lookup(root, p).value, p);
    }
  }

  lemma SetKeepsHygiene(root: Tree, hash: string, now: i64, v: Value, interval: i64)
    requires Hygienic(root) && |hash| == HASH_LENGTH
    ensures Writable(root, hash) && Hygienic(Stored(root, hash, now, v, interval))
  {
    SlotsAreWritable(root, hash);
    SlotPathOf(hash);
    var p, x := SlotPath(hash), File(Body(Written(now, v, interval), true));
    var root' := Put(root, p, x);
    forall q | Lookup(root', q).Some? ensures WellPlaced(Lookup(root', q).value, q) {
      LookupPut(root, p, x, q);
      if p <= q {
        assert q == p;
      }
    }
    LookupPut(root, p, x, []);
  }

  lemma DelKeepsHygiene(root: Tree, hash: string)
    requires Hygienic(root) && |hash| == HASH_LENGTH
    ensures Hygienic(Deleted(root, hash))
  {
    forall q | Lookup(Deleted(root, hash), q).Some? ensures WellPlaced(Lookup(Deleted(root, hash), q).value, q) {
      DelLookup(root, hash, q);
    }
    DelLookup(root, hash, []);
  }

  // Removing an empty directory: it is gone, and every path not leading to it is as before.
  lemma RemoveEmptyDirLookup(n: Tree, d: Path, q: Path)
    requires d != [] && IsEmptyDir(Lookup(n, d))
    ensures q == d ==> Lookup(Remove(n, d), q) == None
    ensures !(q <= d) ==> Lookup(Remove(n, d), q) == Lookup(n, q)
    ensures q < d ==>
      var o, o' := Lookup(n, q), Lookup(Remove(n, d), q);
      && o.Some? && o'.Some? && o.value.Dir? && o'.value.Dir?
      && (|q| < |d| - 1 ==> o'.value.entries.Keys == o.value.entries.Keys)
  {
    LookupCut(n, d, q);
    if d < q {
      LookupConcat(n, d, q[|d|..]);
      assert d + q[|d|..] == q;
    }
  }

  // Del on a hygienic cache: the slot is empty, a directory survives only if non-empty, and
  // every other path keeps what it had; cachedir itself stays.
  lemma DelLookup(root: Tree, hash: string, q: Path)
    requires Hygienic(root) && |hash| == HASH_LENGTH
    ensures var p, o, o' := SlotPath(hash), Lookup(root, q), Lookup(Deleted(root, hash), q);
      && (q == p ==> o' == None)
      && (!(q <= p) ==> o' == o)
      && (q < p && o'.Some? ==> o'.value.Dir? && (q != [] ==> o'.value.entries.Keys != {}))
      && (q == [] ==> o'.Some?)
  {
    var p := SlotPath(hash);
    var r1 := Remove(root, p);
    forall d | d < p && d != [] && Lookup(root, d).Some? ensures Lookup(root, d).value.Dir? && !IsEmptyDir(Lookup(root, d)) {
      assert WellPlaced(Lookup(root, d).value, d);
    }
    if Lookup(root, p).Some? {
      assert WellPlaced(Lookup(root, p).value, p);
      LookupCut(root, p, q); LookupCut(root, p, p[..1]); LookupCut(root, p, p[..2]);
      if IsEmptyDir(Lookup(r1, p[..2])) {
        RemoveEmptyDirLookup(r1, p[..2], q);
        RemoveEmptyDirLookup(r1, p[..2], p[..1]);
        var r2 := Remove(r1, p[..2]);
        if IsEmptyDir(Lookup(r2, p[..1])) {
          RemoveEmptyDirLookup(r2, p[..1], q);
        }
      }
      assert q < p ==> q == [] || q == p[..1] || q == p[..2];
    } else {
      assert q < p ==> q == [] || q == p[..1] || q == p[..2];
    }
  }

  lemma TrashKeepsFiles(root: Tree, now: i64, q: Path, b: Body)
    requires root.Dir?
    ensures Lookup(TrashCleared(root, now), q) == Some(File(b)) <==>
      && Lookup(root, q) == Some(File(b))
      && (b.readable ==> b.content.Encoded? && (b.content.remove <= 0 || now <= b.content.remove))
  {
    if q != [] && q[0] in root.entries {
      SweepKeepsFiles(root.entries[q[0]], now, q[1..], b);
    }
  }

  lemma ClearTrashKeepsHygiene(root: Tree, now: i64)
    requires Hygienic(root)
    ensures Hygienic(TrashCleared(root, now))
  {
    var root' := TrashCleared(root, now);
    forall q | Lookup(root', q).Some? ensures WellPlaced(Lookup(root', q).value, q) {
      var n := Lookup(root', q).value;
      if n.File? {
        TrashKeepsFiles(root, now, q, n.body);
        assert WellPlaced(Lookup(root, q).value, q);
      } else if q != [] {
        SweepLeavesNoEmptyDir(root.entries[q[0]], now, q[1..]);
        assert Lookup(root, q) == Lookup(root.entries[q[0]], q[1..]);
        assert WellPlaced(Lookup(root, q).value, q);
      }
    }
  }

  lemma ClearKeepsHygiene(root: Tree)
    requires Hygienic(root)
    ensures Hygienic(Cleared(root))
  {
  }
}
