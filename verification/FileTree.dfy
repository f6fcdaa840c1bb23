// A directory tree and the os calls the cache makes on it, as functions; paths are sequences
// of names below the root.
module FileTree {
  import opened Base

  datatype Node<F> = File(body: F) | Dir(entries: map<string, Node<F>>)

  type Path = seq<string>

  function Lookup<F>(n: Node<F>, p: Path): Option<Node<F>>
    decreases |p|
  {
    if p == [] then Some(n)
    else if n.Dir? && p[0] in n.entries then Lookup(n.entries[p[0]], p[1..])
    else None
  }

  function LookupOpt<F>(o: Option<Node<F>>, p: Path): Option<Node<F>> {
    match o case Some(n) => Lookup(n, p) case None => None
  }

  // No file stands where a directory on the way to p is needed.
  predicate Reachable<F>(n: Node<F>, p: Path)
    decreases |p|
  {
    p == [] || (n.Dir? && (p[0] in n.entries ==> Reachable(n.entries[p[0]], p[1..])))
  }

  // Make x the node at p, creating the directories on the way (os.MkdirAll, then the file).
  function Put<F>(n: Node<F>, p: Path, x: Node<F>): Node<F>
    requires Reachable(n, p)
    decreases |p|
  {
    if p == [] then x
    else
      var child := if p[0] in n.entries then n.entries[p[0]] else Dir(map[]);
      assert p[0] !in n.entries ==> Reachable(child, p[1..]);
      Dir(n.entries[p[0] := Put(child, p[1..], x)])
  }

  // Take the entry at p out of its directory.
  function Cut<F>(n: Node<F>, p: Path): Node<F>
    requires p != []
    decreases |p|
  {
    if !(n.Dir? && p[0] in n.entries) then n
    else if |p| == 1 then Dir(n.entries - {p[0]})
    else Dir(n.entries[p[0] := Cut(n.entries[p[0]], p[1..])])
  }

  predicate IsEmptyDir<F>(o: Option<Node<F>>) {
    o.Some? && o.value.Dir? && o.value.entries.Keys == {}
  }

  // os.Remove: a file or an empty directory; anything else is an error the cache ignores.
  function Remove<F>(n: Node<F>, p: Path): Node<F>
    requires p != []
  {
    var o := Lookup(n, p);
    if o.Some? && (o.value.File? || IsEmptyDir(o)) then Cut(n, p) else n
  }

  // What replaces a swept node: another node, or nothing.
  function Replace<F>(n: Node<F>, p: Path, o: Option<Node<F>>): Node<F>
    requires p != [] && Reachable(n, p)
  {
    match o case Some(x) => Put(n, p, x) case None => Cut(n, p)
  }

  /* ---- what is where afterwards ---- */

  lemma {:induction false} FoundIsReachable<F>(n: Node<F>, p: Path)
    requires Lookup(n, p).Some?
    ensures Reachable(n, p)
    decreases |p|
  {
    if p == [] {
    } else {
      FoundIsReachable(n.entries[p[0]], p[1..]);
    }
  }

  lemma {:induction false} LookupConcat<F>(n: Node<F>, p: Path, q: Path)
    ensures Lookup(n, p + q) == LookupOpt(Lookup(n, p), q)
    decreases |p|
  {
    if p == [] {
      assert p + q == q;
    } else {
      assert (p + q)[1..] == p[1..] + q;
      if n.Dir? && p[0] in n.entries {
        LookupConcat(n.entries[p[0]], p[1..], q);
      }
    }
  }

  // Put changes nothing off the path, and leaves non-empty directories along it.
  lemma {:induction false} LookupPut<F>(n: Node<F>, p: Path, x: Node<F>, q: Path)
    requires Reachable(n, p)
    ensures p <= q ==> Lookup(Put(n, p, x), q) == Lookup(x, q[|p|..])
    ensures q < p ==> var o := Lookup(Put(n, p, x), q); o.Some? && o.value.Dir? && o.value.entries.Keys != {}
    ensures !(p <= q) && !(q <= p) ==> Lookup(Put(n, p, x), q) == Lookup(n, q)
    decreases |p|
  {
    if p != [] && q != [] && p[0] == q[0] {
      var child := if p[0] in n.entries then n.entries[p[0]] else Dir(map[]);
      assert p == [p[0]] + p[1..] && q == [q[0]] + q[1..];
      assert p <= q <==> p[1..] <= q[1..];
      assert q <= p <==> q[1..] <= p[1..];
      LookupPut(child, p[1..], x, q[1..]);
      if p <= q {
        assert q[|p|..] == q[1..][|p[1..]|..];
      }
    } else if p != [] && q == [] {
      assert p[0] in Put(n, p, x).entries;
    }
  }

  // Cut removes what is at or below p and nothing else.
  lemma {:induction false} LookupCut<F>(n: Node<F>, p: Path, q: Path)
    requires p != [] && Lookup(n, p).Some?
    ensures p <= q ==> Lookup(Cut(n, p), q) == None
    ensures !(p <= q) && !(q <= p) ==> Lookup(Cut(n, p), q) == Lookup(n, q)
    ensures q < p ==>
      var o, o' := Lookup(n, q), Lookup(Cut(n, p), q);
      && o.Some? && o'.Some? && o.value.Dir? && o'.value.Dir?
      && o'.value.entries.Keys == o.value.entries.Keys - if |q| == |p| - 1 then {p[|q|]} else {}
    decreases |p|
  {
    if q == [] || p[0] != q[0] {
    } else {
      assert p == [p[0]] + p[1..] && q == [q[0]] + q[1..];
      assert p <= q <==> p[1..] <= q[1..];
      assert q <= p <==> q[1..] <= p[1..];
      if |p| > 1 {
        LookupCut(n.entries[p[0]], p[1..], q[1..]);
      }
    }
  }

  /* ---- replacing inside what was put ---- */

  lemma {:induction false} PutPut<F>(n: Node<F>, p: Path, x: Node<F>, q: Path, y: Node<F>)
    requires Reachable(n, p) && Reachable(x, q)
    ensures Reachable(Put(n, p, x), p + q)
    ensures Put(Put(n, p, x), p + q, y) == Put(n, p, Put(x, q, y))
    decreases |p|
  {
    if p == [] {
      assert p + q == q;
    } else {
      var child := if p[0] in n.entries then n.entries[p[0]] else Dir(map[]);
      PutPut(child, p[1..], x, q, y);
      var inner := Put(child, p[1..], x);
      assert (p + q)[0] == p[0] && (p + q)[1..] == p[1..] + q;
      assert Put(n, p, x) == Dir(n.entries[p[0] := inner]);
      assert n.entries[p[0] := inner][p[0] := Put(inner, p[1..] + q, y)] == n.entries[p[0] := Put(inner, p[1..] + q, y)];
    }
  }

  lemma {:induction false} PutCut<F>(n: Node<F>, p: Path, x: Node<F>, q: Path)
    requires Reachable(n, p) && q != []
    ensures Cut(Put(n, p, x), p + q) == Put(n, p, Cut(x, q))
    decreases |p|
  {
    if p == [] {
      assert p + q == q;
    } else {
      var child := if p[0] in n.entries then n.entries[p[0]] else Dir(map[]);
      assert (p + q)[1..] == p[1..] + q;
      PutCut(child, p[1..], x, q);
    }
  }

  lemma {:induction false} PutBack<F>(n: Node<F>, p: Path)
    requires Lookup(n, p).Some?
    ensures Reachable(n, p) && Put(n, p, Lookup(n, p).value) == n
    decreases |p|
  {
    if p == [] {
    } else {
      PutBack(n.entries[p[0]], p[1..]);
      assert n.entries[p[0] := n.entries[p[0]]] == n.entries;
    }
  }

  // Cutting a node that was put is cutting what was there before.
  lemma {:induction false} CutPut<F>(n: Node<F>, p: Path, x: Node<F>)
    requires p != [] && Lookup(n, p).Some? && Reachable(n, p)
    ensures Cut(Put(n, p, x), p) == Cut(n, p)
    decreases |p|
  {
    if |p| > 1 {
      CutPut(n.entries[p[0]], p[1..], x);
    } else {
      assert Put(n, p, x).entries - {p[0]} == n.entries - {p[0]};
    }
  }
}
