// The session store on a shared file cache.
module SessionStore {
  import opened Base
  import opened CacheKeys
  import opened FileCache
  import FileCacheRuns
  import FileCacheServer

  type Values = map<string, string>

  // The foreign codecs, as pairs that undo each other: gob for the session values and for
  // string keys. gob may refuse some values.
  datatype Codecs = Codecs(encode: Values -> Option<seq<int>>, decode: seq<int> -> Option<Values>,
                           gobString: string -> seq<byte>, codecMaxAge: nat) {
    ghost predicate Inverse() {
      && (forall v :: encode(v).Some? ==> decode(encode(v).value) == Some(v))
      && (forall s, t :: gobString(s) == gobString(t) ==> s == t)
    }

    function SessionKey(id: string): Key {
      Key(Some(gobString("session_" + id)))
    }

    // securecookie.DecodeMulti: the cookie's own name and age are checked too.
    function DecodeCookie(name: string, c: Cookie, now: i64): Option<string> {
      if c.name == name && (codecMaxAge == 0 || now <= c.issued + codecMaxAge) then Some(c.id) else None
    }
  }

  // What EncodeMulti puts into a cookie.
  datatype Cookie = Cookie(name: string, id: string, issued: i64)

  // What a Save puts into the response: a cookie, one that deletes the browser's, or neither.
  datatype SetCookie = Nothing | Issued(cookie: Cookie) | Removed(name: string)

  // The session values a cache gives for an id: bytes or text are decoded, nothing else is.
  function Loaded(codecs: Codecs, v: Option<Value>): Option<Values> {
    match v
    case Some(Bytes(data)) => codecs.decode(data)
    case Some(Text(data)) => codecs.decode(data)
    case _ => None
  }

  lemma BytesAndTextLoadAlike(codecs: Codecs, data: seq<int>, o: int, encodable: bool)
    ensures Loaded(codecs, Some(Text(data))) == Loaded(codecs, Some(Bytes(data))) == codecs.decode(data)
    ensures Loaded(codecs, Some(Opaque(o, encodable))) == Loaded(codecs, None) == None
  {
  }

  // The values have an encoding within the limit.
  predicate Fits(codecs: Codecs, maxLength: nat, values: Values) {
    codecs.encode(values).Some? && (maxLength == 0 || |codecs.encode(values).value| <= maxLength)
  }

  // What a Save of these values asks of the cache.
  function Saving(codecs: Codecs, id: string, values: Values, age: i64, now: i64): FileCacheRuns.Op
    requires codecs.encode(values).Some?
  {
    FileCacheRuns.Set(codecs.SessionKey(id), Bytes(codecs.encode(values).value), age, now)
  }

  class Session {
    const name: string
    var id: string
    var maxAge: i64
    var isNew: bool
    var values: Values

    constructor (name: string, maxAge: i64)
      ensures this.name == name && id == "" && this.maxAge == maxAge && isNew && values == map[]
    {
      this.name, id, this.maxAge, isNew, values := name, "", maxAge, true, map[];
    }
  }

  class FileCacheStore {
    const cache: FileCacheServer.CacheFile
    const codecs: Codecs
    const maxLength: nat
    const maxAge: i64

    constructor (cache: FileCacheServer.CacheFile, codecs: Codecs)
      ensures this.cache == cache && this.codecs == codecs && maxLength == 10485760 && maxAge == 86400 * 30
    {
      this.cache, this.codecs, maxLength, maxAge := cache, codecs, 10485760, 86400 * 30;
    }

    // New: a session that is not new exactly when the cookie is under the session's own name and
    // young enough and its values load.
    method New(name: string, cookie: Option<Cookie>, now: i64) returns (s: Session)
      modifies cache
      ensures fresh(s) && s.name == name && s.maxAge == maxAge
      ensures cookie.None? || cookie.value.name != name ==> cache.root == old(cache.root) && s.id == "" && s.isNew && s.values == map[]
      ensures cookie.Some? && codecs.codecMaxAge != 0 && cookie.value.issued + codecs.codecMaxAge < now ==>
        cache.root == old(cache.root) && s.id == "" && s.isNew && s.values == map[]
      ensures cookie.Some? && cookie.value.name == name && (codecs.codecMaxAge == 0 || now <= cookie.value.issued + codecs.codecMaxAge) ==>
        && s.id == cookie.value.id
        && cache.root == FileCacheRuns.Step(cache.md5, old(cache.root), FileCacheRuns.Get(codecs.SessionKey(s.id), now))
        && Holds(s, FetchedValue(old(cache.root), cache.Slot(codecs.SessionKey(s.id)), now))
    {
      s := new Session(name, maxAge);
      if cookie.Some? {
        var id := codecs.DecodeCookie(name, cookie.value, now);
        if id.Some? {
          s.id := id.value;
          var ok := Load(s, now);
          s.isNew := !ok;
        }
      }
    }

    // The values stored under the session's id, if there are any that decode.
    method Load(s: Session, now: i64) returns (ok: bool)
      modifies cache, s`values
      ensures cache.root == FileCacheRuns.Step(cache.md5, old(cache.root), FileCacheRuns.Get(codecs.SessionKey(s.id), now))
      ensures var values := Loaded(codecs, FetchedValue(old(cache.root), cache.Slot(codecs.SessionKey(s.id)), now));
        ok == values.Some? && s.values == if ok then values.value else old(s.values)
    {
      var data := cache.Get(codecs.SessionKey(s.id), now);
      if data.None? || data.value.Opaque? {
        return false;
      }
      var values := codecs.decode(data.value.data);
      if values.Some? {
        s.values := values.value;
      }
      ok := values.Some?;
    }

    // The session has the values that what the cache gave decodes to, and is new when there are none.
    predicate Holds(s: Session, got: Option<Value>)
      reads s
    {
      var values := Loaded(codecs, got);
      s.isNew == values.None? && s.values == if values.Some? then values.value else map[]
    }

    // Save. `randomId` is the fresh base32 id, `signed` whether EncodeMulti succeeds. `ok`
    // says that no error is returned.
    method Save(s: Session, randomId: string, signed: bool, now: i64) returns (response: SetCookie, ok: bool)
      modifies cache, s`id
      ensures s.maxAge <= 0 ==> ok && response == Removed(s.name) && s.id == old(s.id)
      ensures s.maxAge <= 0 ==>
        cache.root == FileCacheRuns.Step(cache.md5, old(cache.root), FileCacheRuns.Del(codecs.SessionKey(s.id), now))
      ensures s.maxAge > 0 ==> s.id == if old(s.id) == "" then randomId else old(s.id)
      ensures s.maxAge > 0 && !Fits(codecs, maxLength, s.values) ==> !ok && response == Nothing && cache.root == old(cache.root)
      ensures s.maxAge > 0 && Fits(codecs, maxLength, s.values) ==>
        && cache.root == FileCacheRuns.Step(cache.md5, old(cache.root), Saving(codecs, s.id, s.values, s.maxAge, now))
        && (ok <==> signed && Writable(old(cache.root), cache.Slot(codecs.SessionKey(s.id))))
        && response == if ok then Issued(Cookie(s.name, s.id, now)) else Nothing
    {
      if s.maxAge <= 0 {
        cache.Del(codecs.SessionKey(s.id));
        return Removed(s.name), true;
      }
      if s.id == "" {
        s.id := randomId;
      }
      var encoded := codecs.encode(s.values);
      if encoded.None? {
        return Nothing, false;
      }
      if maxLength != 0 && |encoded.value| > maxLength {
        return Nothing, false;
      }
      var stored := cache.Set(codecs.SessionKey(s.id), Bytes(encoded.value), s.maxAge, now);
      if !stored || !signed {
        return Nothing, false;
      }
      return Issued(Cookie(s.name, s.id, now)), true;
    }
  }

  /* ---- over whole runs of the shared cache ---- */

  // Until when a session saved at `now` can be loaded; for ever when the int64 sum wraps.
  predicate Alive(now: i64, age: i64, t: i64) {
    t <= now + age || now + age >= 0x8000_0000_0000_0000
  }

  // Operations on other keys, saves of other sessions, reads and sweeps never affect a saved
  // session: while it is alive its id loads the same values, and never any others.
  lemma SavedSessionLoads(md5: Md5, codecs: Codecs, run: seq<FileCacheRuns.Op>, id: string, values: Values, age: i64, now: i64,
                          later: seq<FileCacheRuns.Op>, t: i64)
    requires codecs.Inverse() && age > 0 && now >= 0 && codecs.encode(values).Some?
    requires FileCacheRuns.ReadyAt(run + [Saving(codecs, id, values, age, now)] + later, t)
    requires FileCacheRuns.AllLeaveAlone(md5, later, codecs.SessionKey(id))
    ensures var key, op := codecs.SessionKey(id), Saving(codecs, id, values, age, now);
      Loaded(codecs, FetchedValue(FileCacheRuns.Exec(md5, run + [op] + later), FileCacheRuns.Hash(md5, key), t))
      == if Alive(now, age, t) then Some(values) else None
  {
    FileCacheRuns.LastTouchDecides(md5, run, Saving(codecs, id, values, age, now), later, codecs.SessionKey(id), t);
  }

  // After a Save with MaxAge at or below 0 the session is new again, until it is saved anew.
  lemma DeletedSessionIsNew(md5: Md5, codecs: Codecs, run: seq<FileCacheRuns.Op>, id: string, now: i64,
                            later: seq<FileCacheRuns.Op>, t: i64)
    requires FileCacheRuns.ReadyAt(run + [FileCacheRuns.Del(codecs.SessionKey(id), now)] + later, t)
    requires FileCacheRuns.AllLeaveAlone(md5, later, codecs.SessionKey(id))
    ensures var key := codecs.SessionKey(id);
      FetchedValue(FileCacheRuns.Exec(md5, run + [FileCacheRuns.Del(key, now)] + later), FileCacheRuns.Hash(md5, key), t) == None
  {
    FileCacheRuns.LastTouchDecides(md5, run, FileCacheRuns.Del(codecs.SessionKey(id), now), later, codecs.SessionKey(id), t);
  }

  // Sessions with different ids have different cache keys, and share no slot unless MD5 collides.
  lemma SessionsAreSeparate(md5: Md5, codecs: Codecs, id: string, id': string)
    requires codecs.Inverse() && id != id'
    requires md5(KeyText(codecs.SessionKey(id))) == md5(KeyText(codecs.SessionKey(id')))
         ==> KeyText(codecs.SessionKey(id)) == KeyText(codecs.SessionKey(id'))
    ensures codecs.SessionKey(id) == Key(Some(codecs.gobString("session_" + id))) != codecs.SessionKey(id')
    ensures SlotPath(FileCacheRuns.Hash(md5, codecs.SessionKey(id))) != SlotPath(FileCacheRuns.Hash(md5, codecs.SessionKey(id')))
  {
    assert ("session_" + id)[8..] == id && ("session_" + id')[8..] == id';
    FileCacheRuns.SharedSlots(md5, codecs.SessionKey(id), codecs.SessionKey(id'));
  }

  // Saving on a reachable cache succeeds, and what loads from it later, whatever else happened.
  lemma SaveThenLoad(md5: Md5, codecs: Codecs, run: seq<FileCacheRuns.Op>, id: string, values: Values, age: i64, now: i64,
                     later: seq<FileCacheRuns.Op>, t: i64)
    requires codecs.Inverse() && age > 0 && now >= 0 && codecs.encode(values).Some?
    requires FileCacheRuns.ReadyAt(run, now)
    requires FileCacheRuns.ReadyAt(run + [Saving(codecs, id, values, age, now)] + later, t)
    requires FileCacheRuns.AllLeaveAlone(md5, later, codecs.SessionKey(id))
    ensures var hash, op := FileCacheRuns.Hash(md5, codecs.SessionKey(id)), Saving(codecs, id, values, age, now);
      && Writable(FileCacheRuns.Exec(md5, run), hash)
      && Loaded(codecs, FetchedValue(FileCacheRuns.Exec(md5, run + [op] + later), hash, t))
         == if Alive(now, age, t) then Some(values) else None
  {
    FileCacheRuns.EveryRunRefines(md5, run, now);
    SlotsAreWritable(FileCacheRuns.Exec(md5, run), FileCacheRuns.Hash(md5, codecs.SessionKey(id)));
    SavedSessionLoads(md5, codecs, run, id, values, age, now, later, t);
  }

  // What may happen on the cache between a Save and a visit with its cookie.
  predicate Between(md5: Md5, codecs: Codecs, run: seq<FileCacheRuns.Op>, id: string, values: Values, age: i64, now: i64,
                    later: seq<FileCacheRuns.Op>, t: i64) {
    codecs.encode(values).Some? ==>
      && FileCacheRuns.ReadyAt(run + [Saving(codecs, id, values, age, now)] + later, t)
      && FileCacheRuns.AllLeaveAlone(md5, later, codecs.SessionKey(id))
  }

  // Save, then the rest of the server goes on: a cookie is issued exactly when the values have
  // an encoding within the limit; and what the cache then gives for the session's id.
  method SaveAndGoOn(store: FileCacheStore, s: Session, randomId: string, now: i64, ghost t: i64,
                     later: seq<FileCacheRuns.Op>, ghost run: seq<FileCacheRuns.Op>)
    returns (cookie: Option<Cookie>)
    requires store.codecs.Inverse() && store.cache.root == FileCacheRuns.Exec(store.cache.md5, run)
    requires FileCacheRuns.ReadyAt(run, now) && now >= 0 && s.maxAge > 0
    requires Between(store.cache.md5, store.codecs, run,
                     if s.id == "" then randomId else s.id, s.values, s.maxAge, now, later, t)
    modifies store.cache, s`id
    ensures var b := store.codecs.encode(s.values);
      cookie.Some? <==> b.Some? && (store.maxLength == 0 || |b.value| <= store.maxLength)
    ensures cookie.Some? ==> cookie.value == Cookie(s.name, s.id, now)
    ensures cookie.Some? ==>
      Loaded(store.codecs, FetchedValue(store.cache.root, store.cache.Slot(store.codecs.SessionKey(s.id)), t))
        == if Alive(now, s.maxAge, t) then Some(s.values) else None
  {
    var response, ok := store.Save(s, randomId, true, now);
    cookie := if response.Issued? then Some(response.cookie) else None;
    ghost var saved := run;
    if Fits(store.codecs, store.maxLength, s.values) {
      ghost var op := Saving(store.codecs, s.id, s.values, s.maxAge, now);
      SaveThenLoad(store.cache.md5, store.codecs, run, s.id, s.values, s.maxAge, now, later, t);
      FileCacheRuns.ExecSnoc(store.cache.md5, run, op);
      saved := run + [op];
    }
    FileCacheServer.Perform(store.cache, later, saved);
  }

  // The round trip as a visitor sees it: Save on any reachable cache, any operations on other
  // keys, saves of other sessions, reads and sweeps, then New with the issued cookie. Same
  // values and not new, exactly while neither the entry nor the cookie has expired.
  method RoundTrip(store: FileCacheStore, s: Session, randomId: string, now: i64, t: i64,
                   later: seq<FileCacheRuns.Op>, ghost run: seq<FileCacheRuns.Op>)
    returns (cookie: Option<Cookie>, back: Session)
    requires store.codecs.Inverse() && store.cache.root == FileCacheRuns.Exec(store.cache.md5, run)
    requires FileCacheRuns.ReadyAt(run, now) && now >= 0 && s.maxAge > 0
    requires Between(store.cache.md5, store.codecs, run,
                     if s.id == "" then randomId else s.id, s.values, s.maxAge, now, later, t)
    modifies store.cache, s`id
    ensures var b := store.codecs.encode(s.values);
      cookie.Some? <==> b.Some? && (store.maxLength == 0 || |b.value| <= store.maxLength)
    ensures cookie.None? ==> back.isNew
    ensures cookie.Some? ==>
      var alive := Alive(now, s.maxAge, t) && (store.codecs.codecMaxAge == 0 || t <= now + store.codecs.codecMaxAge);
      back.isNew == !alive && (alive ==> back.values == s.values && back.id == s.id)
  {
    cookie := SaveAndGoOn(store, s, randomId, now, t, later, run);
    back := store.New(s.name, cookie, t);
  }
}
