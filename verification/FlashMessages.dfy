// Flash messages over a session's requests, on values: what each call does, whole runs of
// requests, and what the history alone says must be in the session.
module FlashMessages {
  import opened Base

  datatype Message = Message(text: string, valid: bool, isRead: bool) {
    predicate IsSave() {
      valid && !isRead
    }

    function Get(): string {
      if valid then text else ""
    }
  }

  // An argument as СonvertAssign sees a *string destination: nil, something it can turn into
  // text, or something it refuses.
  datatype Arg = Nil | Text(s: string) | Refused

  datatype Kind = Messages | Errors | Olds

  type Flash = map<string, Message>

  datatype Flashes = Flashes(messages: Flash, errors: Flash, olds: Flash) {
    function Of(kind: Kind): Flash {
      match kind
      case Messages => messages
      case Errors => errors
      case Olds => olds
    }

    function With(kind: Kind, f: Flash): Flashes {
      match kind
      case Messages => this.(messages := f)
      case Errors => this.(errors := f)
      case Olds => this.(olds := f)
    }
  }

  const EMPTY := Flashes(map[], map[], map[])

  // The cookie a request comes with: one whose session loads, one whose session does not, or
  // none (or an empty one). The last two begin a new, empty session.
  datatype Cookie = Current | Stale | Missing

  // One visitor's session and current request. In the session store: the flash maps and the
  // application's own values. In the request: its three maps; which of them the session in
  // memory shares (the same Go map, so later changes show there too); the application's own
  // values in memory; Request.Valid, ValidSession and Sess.Update; and whether the first
  // Session() call has still to save because there was no cookie.
  datatype State = State(stored: map<Kind, Flash>, storedOwn: map<string, string>,
                         flashes: Flashes, shared: set<Kind>, own: map<string, string>,
                         valid: bool, session: bool, update: bool, greets: bool)

  /* ---- one call ---- */

  function Scanned(m: Message, a: Arg): Message {
    match a
    case Nil => Message("", false, false)
    case Text(s) => Message(s, true, false)
    case Refused => m.(valid := true, isRead := false)
  }

  // A new message scanning every argument in turn.
  function Composed(args: seq<Arg>): Message {
    if args == [] then Message("", false, false)
    else Scanned(Composed(args[..|args| - 1]), args[|args| - 1])
  }

  predicate OnlyRefused(args: seq<Arg>, i: nat)
    requires i <= |args|
  {
    forall j :: i <= j < |args| ==> args[j] == Refused
  }

  // The last argument that is not refused decides: text is the message's text, nil leaves it
  // empty, and invalid when nothing comes after; refused arguments alone leave an empty message
  // that counts as written. None of it is read.
  lemma {:induction false} LastArgumentDecides(args: seq<Arg>, i: nat)
    requires i < |args| && OnlyRefused(args, i + 1)
    ensures args[i].Text? ==> Composed(args) == Message(args[i].s, true, false)
    ensures args[i].Nil? ==> Composed(args) == Message("", i < |args| - 1, false)
    ensures i == 0 && args[0] == Refused ==> Composed(args) == Message("", true, false)
    ensures Composed([]) == Message("", false, false)
  {
    if i < |args| - 1 {
      LastArgumentDecides(args[..|args| - 1], i);
    } else if i == 0 {
      assert args[..0] == [];
    }
  }

  function FlashIn(stored: map<Kind, Flash>, kind: Kind): Flash {
    if kind in stored then stored[kind] else map[]
  }

  function Loaded(stored: map<Kind, Flash>): Flashes {
    Flashes(FlashIn(stored, Messages), FlashIn(stored, Errors), FlashIn(stored, Olds))
  }

  function Savable(f: Flash): Flash {
    map k | k in f && f[k].IsSave() :: f[k]
  }

  function AllSavable(fs: Flashes): Flashes {
    Flashes(Savable(fs.messages), Savable(fs.errors), Savable(fs.olds))
  }

  // Empty maps are not stored at all.
  function Packed(fs: Flashes): map<Kind, Flash> {
    map kind | kind in {Messages, Errors, Olds} && fs.Of(kind) != map[] :: fs.Of(kind)
  }

  function MarkRead(f: Flash, key: string): Flash {
    if key in f then f[key := f[key].(isRead := true)] else f
  }

  // Message.String() on the entry itself: an invalid one is left as it is.
  function MarkShown(f: Flash, key: string): Flash {
    if key in f && f[key].valid then f[key := f[key].(isRead := true)] else f
  }

  // What a read returns: "" for a missing or invalid entry.
  function TextAt(f: Flash, key: string): string {
    if key in f then f[key].Get() else ""
  }

  function FirstText(args: seq<Arg>): string {
    if args == [] then ""
    else if args[0].Text? && args[0].s != "" then args[0].s
    else FirstText(args[1..])
  }

  predicate NoText(args: seq<Arg>, i: nat)
    requires i <= |args|
  {
    forall j :: 0 <= j < i ==> !args[j].Text? || args[j].s == ""
  }

  lemma {:induction false} FirstTextIs(args: seq<Arg>, i: nat)
    requires i <= |args| && NoText(args, i) && (i < |args| ==> args[i].Text? && args[i].s != "")
    ensures FirstText(args) == if i < |args| then args[i].s else ""
  {
    if i > 0 {
      FirstTextIs(args[1..], i - 1);
    }
  }

  // What Session() does with its key after the greeting: one argument reads, a nil value
  // deletes, any other value is put.
  datatype Own = Get | Delete | Put(value: string)

  // The key of the greeting.
  const INIT := "__init__"

  datatype Event =
    | Begin(db: bool, session: bool, cookie: Cookie) // NewRequest
    | Deny                                           // Auth() or Admin() refuses
    | Call(kind: Kind, key: string, args: seq<Arg>)  // Message, Error, Old
    | OldOrValue(key: string)
    | Show(kind: Kind, key: string)                  // a view prints an entry of the map itself
    | Session(key: string, op: Own, saved: bool)     // `saved`: is a greeting's save accepted?
    | Store(saved: bool)                             // does the session store accept the save?

  function Begun(s: State, db: bool, session: bool, cookie: Cookie): State {
    if !session then
      s.(flashes := EMPTY, shared := {}, own := map[], valid := false, session := false, update := false, greets := false)
    else
      var (stored, own) := if cookie == Current then (s.stored, s.storedOwn) else (map[], map[]);
      State(stored, own, Loaded(stored), stored.Keys, own, db, true, false, cookie == Missing)
  }

  // The greeting: set a key, save everything the session has in memory, delete the key.
  function Greeted(s: State, saved: bool): State {
    if !s.greets then s
    else
      s.(greets := false, update := true, own := s.own - {INIT},
         stored := if saved then map kind | kind in s.shared :: s.flashes.Of(kind) else s.stored,
         storedOwn := if saved then s.own[INIT := "1"] else s.storedOwn)
  }

  function OwnDone(s: State, key: string, op: Own): State {
    match op
    case Get => s
    case Delete => s.(own := s.own - {key}, update := s.update || key in s.own)
    case Put(v) => s.(own := s.own[key := v], update := true)
  }

  // Only Error does not set Update when it writes. Session() does not ask whether the request
  // is valid; without a session it panics, and a request without one stores nothing anyway.
  function Step(s: State, e: Event): State {
    match e
    case Begin(db, session, cookie) => Begun(s, db, session, cookie)
    case Deny => s.(valid := false)
    case Call(kind, key, args) =>
      var f := s.flashes.Of(kind);
      if !s.valid then s
      else if args != [] then
        s.(flashes := s.flashes.With(kind, f[key := Composed(args)]), update := s.update || kind != Errors)
      else
        s.(flashes := s.flashes.With(kind, MarkRead(f, key)), update := s.update || key in f)
    case OldOrValue(key) =>
      if s.valid then s.(flashes := s.flashes.With(Olds, MarkRead(s.flashes.olds, key))) else s
    case Show(kind, key) => s.(flashes := s.flashes.With(kind, MarkShown(s.flashes.Of(kind), key)))
    case Session(key, op, saved) =>
      if s.session then OwnDone(Greeted(s, saved), key, op) else s
    case Store(saved) =>
      if s.valid && s.update then
        var kept := AllSavable(s.flashes);
        s.(flashes := kept, shared := Packed(kept).Keys, stored := if saved then Packed(kept) else s.stored,
           storedOwn := if saved then s.own else s.storedOwn)
      else s
  }

  function Exec(run: seq<Event>): State {
    if run == []
    then State(map[], map[], EMPTY, {}, map[], false, false, false, false)
    else Step(Exec(run[..|run| - 1]), run[|run| - 1])
  }

  /* ---- the history's own account: no maps, no flags ---- */

  // The current request is valid.
  function ValidIn(run: seq<Event>): bool {
    run != [] &&
    match run[|run| - 1]
    case Begin(db, session, _) => db && session
    case Deny => false
    case _ => ValidIn(run[..|run| - 1])
  }

  // The current request has a session.
  function HasSession(run: seq<Event>): bool {
    run != [] &&
    match run[|run| - 1]
    case Begin(_, session, _) => session
    case _ => HasSession(run[..|run| - 1])
  }

  // It came without a cookie and has not called Session() yet.
  function Greets(run: seq<Event>): bool {
    run != [] &&
    match run[|run| - 1]
    case Begin(_, session, cookie) => session && cookie == Missing
    case Session(_, _, _) => false
    case _ => Greets(run[..|run| - 1])
  }

  // The call reads or writes this entry.
  predicate Touches(e: Event, kind: Kind, key: string) {
    match e
    case Call(k, x, _) => k == kind && x == key
    case OldOrValue(x) => kind == Olds && x == key
    case Show(k, x) => k == kind && x == key
    case _ => false
  }

  predicate Writes(e: Event, kind: Kind, key: string) {
    e.Call? && e.args != [] && Touches(e, kind, key)
  }

  function TextOf(m: Message): Option<string> {
    if m.valid then Some(m.text) else None
  }

  // A greeting that is saved.
  predicate SavesGreeting(before: seq<Event>, e: Event) {
    e.Session? && Greets(before) && e.saved
  }

  // A request that begins a new session, and one that brings the old one.
  predicate Renews(e: Event) {
    e.Begin? && e.session && e.cookie != Current
  }

  predicate Resumes(e: Event) {
    e.Begin? && e.session && e.cookie == Current
  }

  // The entry's text while nobody has read it: written in this request or brought from the
  // session, and not touched since.
  ghost function Fresh(run: seq<Event>, kind: Kind, key: string): Option<string>
    decreases |run|
  {
    if run == [] then None
    else
      var before, e := run[..|run| - 1], run[|run| - 1];
      if e.Begin? then if Resumes(e) then Kept(before, kind, key) else None
      else if ValidIn(before) && Writes(e, kind, key) then TextOf(Composed(e.args))
      else if (ValidIn(before) || e.Show?) && Touches(e, kind, key) then None
      else Fresh(before, kind, key)
  }

  // The unread text the session store keeps for the next request: what was fresh at the last
  // saved Store, or at a saved greeting if the session then shared the request's map.
  ghost function Kept(run: seq<Event>, kind: Kind, key: string): Option<string>
    decreases |run|
  {
    if run == [] then None
    else
      var before, e := run[..|run| - 1], run[|run| - 1];
      if Renews(e) then None
      else if e == Store(true) && ValidIn(before) && Updated(before) then Fresh(before, kind, key)
      else if SavesGreeting(before, e) then if Shares(before, kind) then Fresh(before, kind, key) else None
      else Kept(before, kind, key)
  }

  // The session store has the entry, read or not.
  ghost predicate Held(run: seq<Event>, kind: Kind, key: string)
    decreases |run|
  {
    run != [] &&
    var before, e := run[..|run| - 1], run[|run| - 1];
    if Renews(e) then false
    else if e == Store(true) && ValidIn(before) && Updated(before) then Fresh(before, kind, key).Some?
    else if SavesGreeting(before, e) then Shares(before, kind) && Known(before, kind, key)
    else Held(before, kind, key)
  }

  // The request has the entry, read or not: it wrote it or the session brought it, and no
  // Store has dropped it since.
  ghost predicate Known(run: seq<Event>, kind: Kind, key: string)
    decreases |run|
  {
    run != [] &&
    var before, e := run[..|run| - 1], run[|run| - 1];
    if e.Begin? then Resumes(e) && Held(before, kind, key)
    else if e.Store? && ValidIn(before) && Updated(before) then Fresh(before, kind, key).Some?
    else Known(before, kind, key) || (ValidIn(before) && Writes(e, kind, key))
  }

  // The session in memory has the request's own map: it was loaded from there, or the last
  // Store put it there.
  ghost predicate Shares(run: seq<Event>, kind: Kind)
    decreases |run|
  {
    run != [] &&
    var before, e := run[..|run| - 1], run[|run| - 1];
    if e.Begin? then Resumes(e) && exists key :: Held(before, kind, key)
    else if e.Store? && ValidIn(before) && Updated(before) then exists key :: Fresh(before, kind, key).Some?
    else Shares(before, kind)
  }

  // This request wrote a message or an old value, read an entry it had, or changed the session.
  ghost predicate Updated(run: seq<Event>)
    decreases |run|
  {
    run != [] &&
    var before, e := run[..|run| - 1], run[|run| - 1];
    match e
    case Begin(_, _, _) => false
    case Call(kind, key, args) =>
      Updated(before) || (ValidIn(before) && if args != [] then kind != Errors else Known(before, kind, key))
    case Session(key, op, _) =>
      Updated(before) || (HasSession(before) && (Greets(before) || op.Put? || (op.Delete? && OwnValue(before, key).Some?)))
    case _ => Updated(before)
  }

  // What Session(key) gives in this request, and what the session store has under the key.
  ghost function OwnValue(run: seq<Event>, key: string): Option<string>
    decreases |run|
  {
    if run == [] then None
    else
      var before, e := run[..|run| - 1], run[|run| - 1];
      if e.Begin? then if Resumes(e) then OwnStored(before, key) else None
      else if e.Session? && HasSession(before) then
        if e.op.Put? && e.key == key then Some(e.op.value)
        else if (e.op.Delete? && e.key == key) || (Greets(before) && key == INIT) then None
        else OwnValue(before, key)
      else OwnValue(before, key)
  }

  ghost function OwnStored(run: seq<Event>, key: string): Option<string>
    decreases |run|
  {
    if run == [] then None
    else
      var before, e := run[..|run| - 1], run[|run| - 1];
      if Renews(e) then None
      else if e == Store(true) && ValidIn(before) && Updated(before) then OwnValue(before, key)
      else if SavesGreeting(before, e) then if key == INIT then Some("1") else OwnValue(before, key)
      else OwnStored(before, key)
  }

  /* ---- the request's state agrees with the history ---- */

  function Unread(f: Flash, key: string): Option<string> {
    if key in f && f[key].IsSave() then Some(f[key].text) else None
  }

  function At(m: map<string, string>, key: string): Option<string> {
    if key in m then Some(m[key]) else None
  }

  ghost predicate EntryAgrees(run: seq<Event>, s: State, kind: Kind, key: string) {
    && (key in FlashIn(s.stored, kind) <==> Held(run, kind, key))
    && Unread(FlashIn(s.stored, kind), key) == Kept(run, kind, key)
    && (key in s.flashes.Of(kind) <==> Known(run, kind, key))
    && Unread(s.flashes.Of(kind), key) == Fresh(run, kind, key)
  }

  ghost predicate OwnAgrees(run: seq<Event>, s: State, key: string) {
    At(s.own, key) == OwnValue(run, key) && At(s.storedOwn, key) == OwnStored(run, key)
  }

  ghost predicate KindAgrees(run: seq<Event>, s: State, kind: Kind) {
    && (kind in s.stored ==> s.stored[kind] != map[])
    && (kind in s.shared <==> Shares(run, kind))
    && (kind in s.shared ==> s.flashes.Of(kind) != map[])
  }

  ghost predicate FlagsAgree(run: seq<Event>, s: State) {
    && s.valid == ValidIn(run) && s.session == HasSession(run) && s.greets == Greets(run) && s.update == Updated(run)
    && (s.greets ==> s.session)
  }

  ghost predicate Agrees(run: seq<Event>, s: State) {
    && FlagsAgree(run, s)
    && (forall kind :: KindAgrees(run, s, kind))
    && (forall kind, key :: EntryAgrees(run, s, kind, key))
    && (forall key :: OwnAgrees(run, s, key))
  }

  lemma Snoc(run: seq<Event>, e: Event)
    ensures (run + [e])[..|run|] == run && (run + [e])[|run|] == e
  {
  }

  lemma StoredAfterPacking(fs: Flashes, kind: Kind)
    ensures FlashIn(Packed(fs), kind) == fs.Of(kind)
  {
  }

  lemma LoadedOf(stored: map<Kind, Flash>, kind: Kind)
    ensures Loaded(stored).Of(kind) == FlashIn(stored, kind)
  {
  }

  lemma OtherEntryUntouched(fs: Flashes, kind: Kind, f: Flash, kind': Kind)
    ensures fs.With(kind, f).Of(kind') == if kind' == kind then f else fs.Of(kind')
  {
  }

  // What a call leaves under one kind.
  function Called(f: Flash, kind: Kind, e: Event): Flash
    requires e.Call? || e.OldOrValue? || e.Show?
  {
    match e
    case Show(k, key) => if k == kind then MarkShown(f, key) else f
    case Call(k, key, args) => if k != kind then f else if args != [] then f[key := Composed(args)] else MarkRead(f, key)
    case OldOrValue(key) => if kind == Olds then MarkRead(f, key) else f
  }

  lemma FlashesAfterCall(s: State, e: Event, kind: Kind)
    requires e.Call? || e.OldOrValue? || e.Show?
    ensures Step(s, e).flashes.Of(kind) == if s.valid || e.Show? then Called(s.flashes.Of(kind), kind, e) else s.flashes.Of(kind)
    ensures Step(s, e).stored == s.stored && Step(s, e).shared == s.shared
  {
    if s.valid || e.Show? {
      var k := if e.OldOrValue? then Olds else e.kind;
      var f := Called(s.flashes.Of(k), k, e);
      assert Step(s, e).flashes == s.flashes.With(k, f);
      assert Step(s, e) == s.(flashes := s.flashes.With(k, f), update := Step(s, e).update);
      OtherEntryUntouched(s.flashes, k, f, kind);
    }
  }

  lemma WriteAgrees(run: seq<Event>, s: State, e: Event, kind: Kind, key: string)
    requires Agrees(run, s) && e.Call? && e.args != []
    ensures EntryAgrees(run + [e], Step(s, e), kind, key)
  {
    Snoc(run, e);
    assert EntryAgrees(run, s, kind, key);
    FlashesAfterCall(s, e, kind);
    assert !Composed(e.args).isRead;
  }

  lemma ReadAgrees(run: seq<Event>, s: State, e: Event, kind: Kind, key: string)
    requires Agrees(run, s) && e.Call? && e.args == []
    ensures EntryAgrees(run + [e], Step(s, e), kind, key)
  {
    Snoc(run, e);
    assert EntryAgrees(run, s, kind, key);
    FlashesAfterCall(s, e, kind);
  }

  lemma OldOrValueAgrees(run: seq<Event>, s: State, e: Event, kind: Kind, key: string)
    requires Agrees(run, s) && e.OldOrValue?
    ensures EntryAgrees(run + [e], Step(s, e), kind, key)
  {
    Snoc(run, e);
    assert EntryAgrees(run, s, kind, key);
    FlashesAfterCall(s, e, kind);
  }

  lemma ShowAgrees(run: seq<Event>, s: State, e: Event, kind: Kind, key: string)
    requires Agrees(run, s) && e.Show?
    ensures EntryAgrees(run + [e], Step(s, e), kind, key)
  {
    Snoc(run, e);
    assert EntryAgrees(run, s, kind, key);
    FlashesAfterCall(s, e, kind);
  }

  lemma StoreAgrees(run: seq<Event>, s: State, e: Event, kind: Kind, key: string)
    requires Agrees(run, s) && e.Store?
    ensures EntryAgrees(run + [e], Step(s, e), kind, key)
  {
    Snoc(run, e);
    assert EntryAgrees(run, s, kind, key);
    StoredAfterPacking(AllSavable(s.flashes), kind);
  }

  lemma BeginAgrees(run: seq<Event>, s: State, e: Event, kind: Kind, key: string)
    requires Agrees(run, s) && (e.Begin? || e.Deny?)
    ensures EntryAgrees(run + [e], Step(s, e), kind, key)
  {
    Snoc(run, e);
    assert EntryAgrees(run, s, kind, key);
    LoadedOf(s.stored, kind);
  }

  // What a greeting stores of one kind.
  lemma GreetedStores(s: State, saved: bool, kind: Kind)
    ensures var s' := Greeted(s, saved);
      && s'.flashes == s.flashes && s'.shared == s.shared
      && FlashIn(s'.stored, kind)
         == (if s.greets && saved then if kind in s.shared then s.flashes.Of(kind) else map[] else FlashIn(s.stored, kind))
      && (kind in s'.stored <==> if s.greets && saved then kind in s.shared else kind in s.stored)
  {
  }

  lemma FlashesAfterSession(s: State, e: Event, kind: Kind)
    requires e.Session? && s.session
    ensures var s' := Step(s, e);
      && s'.flashes == s.flashes && s'.shared == s.shared
      && FlashIn(s'.stored, kind)
         == (if s.greets && e.saved then if kind in s.shared then s.flashes.Of(kind) else map[] else FlashIn(s.stored, kind))
      && (kind in s'.stored <==> if s.greets && e.saved then kind in s.shared else kind in s.stored)
  {
    GreetedStores(s, e.saved, kind);
    var g := Greeted(s, e.saved);
    assert Step(s, e) == g.(own := Step(s, e).own, update := Step(s, e).update);
  }

  lemma SessionAgrees(run: seq<Event>, s: State, e: Event, kind: Kind, key: string)
    requires Agrees(run, s) && e.Session?
    ensures EntryAgrees(run + [e], Step(s, e), kind, key)
  {
    Snoc(run, e);
    assert EntryAgrees(run, s, kind, key) && KindAgrees(run, s, kind);
    if s.session {
      FlashesAfterSession(s, e, kind);
    }
  }

  lemma EntryStepAgrees(run: seq<Event>, s: State, e: Event, kind: Kind, key: string)
    requires Agrees(run, s)
    ensures EntryAgrees(run + [e], Step(s, e), kind, key)
  {
    if e.Call? && e.args != [] {
      WriteAgrees(run, s, e, kind, key);
    } else if e.Call? {
      ReadAgrees(run, s, e, kind, key);
    } else if e.OldOrValue? {
      OldOrValueAgrees(run, s, e, kind, key);
    } else if e.Show? {
      ShowAgrees(run, s, e, kind, key);
    } else if e.Session? {
      SessionAgrees(run, s, e, kind, key);
    } else if e.Store? {
      StoreAgrees(run, s, e, kind, key);
    } else {
      BeginAgrees(run, s, e, kind, key);
    }
  }

  lemma OwnStepAgrees(run: seq<Event>, s: State, e: Event, key: string)
    requires Agrees(run, s)
    ensures OwnAgrees(run + [e], Step(s, e), key)
  {
    Snoc(run, e);
    assert OwnAgrees(run, s, key);
    if e.Session? && s.session {
      OwnAfterSession(s, e, key);
    }
  }

  lemma OwnAfterSession(s: State, e: Event, key: string)
    requires e.Session? && s.session
    ensures At(Step(s, e).own, key) ==
      if e.op.Put? && e.key == key then Some(e.op.value)
      else if (e.op.Delete? && e.key == key) || (s.greets && key == INIT) then None
      else At(s.own, key)
    ensures At(Step(s, e).storedOwn, key) ==
      if s.greets && e.saved then if key == INIT then Some("1") else At(s.own, key) else At(s.storedOwn, key)
  {
  }

  lemma UpdateStepAgrees(run: seq<Event>, s: State, e: Event)
    requires Agrees(run, s)
    ensures Step(s, e).update == Updated(run + [e])
  {
    Snoc(run, e);
    match e
    case Call(kind, key, _) => assert EntryAgrees(run, s, kind, key);
    case Session(key, _, _) => assert OwnAgrees(run, s, key);
    case _ =>
  }

  lemma FlagsStepAgree(run: seq<Event>, s: State, e: Event)
    requires Agrees(run, s)
    ensures FlagsAgree(run + [e], Step(s, e))
  {
    UpdateStepAgrees(run, s, e);
    Snoc(run, e);
  }

  // A map is not empty when it has a key.
  lemma EmptyMeansNone(f: Flash)
    ensures f != map[] <==> exists key :: key in f
  {
    if f != map[] {
      assert f.Keys != {};
      var key :| key in f.Keys;
      assert key in f;
    }
  }

  lemma KindAfterBegin(run: seq<Event>, s: State, e: Event, kind: Kind)
    requires Agrees(run, s) && e.Begin?
    ensures KindAgrees(run + [e], Step(s, e), kind)
  {
    Snoc(run, e);
    assert KindAgrees(run, s, kind);
    LoadedOf(s.stored, kind);
    assert kind in s.stored <==> exists key :: Held(run, kind, key) by {
      EmptyMeansNone(FlashIn(s.stored, kind));
      forall key ensures key in FlashIn(s.stored, kind) <==> Held(run, kind, key) {
        assert EntryAgrees(run, s, kind, key);
      }
    }
  }

  lemma KindAfterStore(run: seq<Event>, s: State, e: Event, kind: Kind)
    requires Agrees(run, s) && e.Store?
    ensures KindAgrees(run + [e], Step(s, e), kind)
  {
    Snoc(run, e);
    assert KindAgrees(run, s, kind);
    StoredAfterPacking(AllSavable(s.flashes), kind);
    assert Savable(s.flashes.Of(kind)) != map[] <==> exists key :: Fresh(run, kind, key).Some? by {
      EmptyMeansNone(Savable(s.flashes.Of(kind)));
      forall key ensures key in Savable(s.flashes.Of(kind)) <==> Fresh(run, kind, key).Some? {
        assert EntryAgrees(run, s, kind, key);
      }
    }
  }

  lemma KindAfterSession(run: seq<Event>, s: State, e: Event, kind: Kind)
    requires Agrees(run, s) && e.Session?
    ensures KindAgrees(run + [e], Step(s, e), kind)
  {
    Snoc(run, e);
    assert KindAgrees(run, s, kind);
    if s.session {
      FlashesAfterSession(s, e, kind);
    }
  }

  // No call empties a map.
  lemma CallKeepsMaps(s: State, e: Event, kind: Kind)
    requires e.Call? || e.OldOrValue? || e.Show? || e.Deny?
    ensures Step(s, e).stored == s.stored && Step(s, e).shared == s.shared
    ensures s.flashes.Of(kind) != map[] ==> Step(s, e).flashes.Of(kind) != map[]
  {
    if !e.Deny? {
      FlashesAfterCall(s, e, kind);
      EmptyMeansNone(s.flashes.Of(kind));
      EmptyMeansNone(Step(s, e).flashes.Of(kind));
    }
  }

  lemma KindAfterCall(run: seq<Event>, s: State, e: Event, kind: Kind)
    requires Agrees(run, s) && (e.Call? || e.OldOrValue? || e.Show? || e.Deny?)
    ensures KindAgrees(run + [e], Step(s, e), kind)
  {
    Snoc(run, e);
    assert KindAgrees(run, s, kind);
    CallKeepsMaps(s, e, kind);
  }

  lemma KindStepAgrees(run: seq<Event>, s: State, e: Event, kind: Kind)
    requires Agrees(run, s)
    ensures KindAgrees(run + [e], Step(s, e), kind)
  {
    if e.Begin? {
      KindAfterBegin(run, s, e, kind);
    } else if e.Store? {
      KindAfterStore(run, s, e, kind);
    } else if e.Session? {
      KindAfterSession(run, s, e, kind);
    } else {
      KindAfterCall(run, s, e, kind);
    }
  }

  lemma StepAgrees(run: seq<Event>, s: State, e: Event)
    requires Agrees(run, s)
    ensures Agrees(run + [e], Step(s, e))
  {
    FlagsStepAgree(run, s, e);
    forall kind ensures KindAgrees(run + [e], Step(s, e), kind) {
      KindStepAgrees(run, s, e, kind);
    }
    forall kind, key ensures EntryAgrees(run + [e], Step(s, e), kind, key) {
      EntryStepAgrees(run, s, e, kind, key);
    }
    forall key ensures OwnAgrees(run + [e], Step(s, e), key) {
      OwnStepAgrees(run, s, e, key);
    }
  }

  // Over any run of requests, of any calls in any order: the session store and the request
  // hold exactly the entries the history says, their unread texts are the kept and the fresh
  // ones, empty maps are not stored, the application's own values are those last put, and
  // Update says exactly what the history says.
  lemma {:induction false} EveryRunAgrees(run: seq<Event>)
    ensures Agrees(run, Exec(run))
  {
    if run == [] {
      forall kind, key ensures EntryAgrees(run, Exec(run), kind, key) {}
    } else {
      var before, e := run[..|run| - 1], run[|run| - 1];
      EveryRunAgrees(before);
      StepAgrees(before, Exec(before), e);
      assert run == before + [e];
    }
  }

  /* ---- what it means for a visitor ---- */

  // The session store keeps this text and so does the current request, and a greeting's save
  // would not lose it.
  ghost predicate InStep(run: seq<Event>, kind: Kind, key: string, text: Option<string>) {
    && Kept(run, kind, key) == text
    && (HasSession(run) ==> Fresh(run, kind, key) == text)
    && (Greets(run) && text.Some? ==> Shares(run, kind))
  }

  // The beginning of a request that has a session, or a Store that is saved.
  ghost predicate Settles(run: seq<Event>, e: Event) {
    (e.Begin? && e.session) || (e == Store(true) && ValidIn(run) && Updated(run))
  }

  lemma InStepAfter(run: seq<Event>, e: Event, kind: Kind, key: string)
    requires Settles(run, e)
    ensures InStep(run + [e], kind, key, Kept(run + [e], kind, key))
  {
    Snoc(run, e);
    ValidHasSession(run);
  }

  lemma {:induction false} ValidHasSession(run: seq<Event>)
    ensures ValidIn(run) ==> HasSession(run)
    ensures Greets(run) ==> HasSession(run)
  {
    if run == [] {
    } else {
      ValidHasSession(run[..|run| - 1]);
    }
  }

  lemma InStepStays(run: seq<Event>, e: Event, kind: Kind, key: string, text: Option<string>)
    requires InStep(run, kind, key, text) && !Touches(e, kind, key) && !Renews(e)
    ensures InStep(run + [e], kind, key, text)
  {
    Snoc(run, e);
    ValidHasSession(run);
  }

  // Unread entries are never lost, and read ones never come back: from the beginning of a
  // request or a saved Store on, an entry that no call touches stays as it is, through any
  // number of requests with the visitor's cookie, refusals, Session() calls and Stores.
  lemma {:induction false} UntouchedEntryStays(run: seq<Event>, e: Event, later: seq<Event>, kind: Kind, key: string)
    requires Settles(run, e)
    requires forall i :: 0 <= i < |later| ==> !Touches(later[i], kind, key) && !Renews(later[i])
    ensures InStep(run + [e] + later, kind, key, Kept(run + [e], kind, key))
  {
    if later == [] {
      InStepAfter(run, e, kind, key);
      assert run + [e] + later == run + [e];
    } else {
      var before, last := later[..|later| - 1], later[|later| - 1];
      UntouchedEntryStays(run, e, before, kind, key);
      InStepStays(run + [e] + before, last, kind, key, Kept(run + [e], kind, key));
      assert run + [e] + later == run + [e] + before + [last];
    }
  }

  // Neither the session nor the request has the entry: every read of it returns "".
  predicate Absent(s: State, kind: Kind, key: string) {
    key !in FlashIn(s.stored, kind) && key !in s.flashes.Of(kind)
  }

  lemma AbsentStays(s: State, e: Event, kind: Kind, key: string)
    requires Absent(s, kind, key) && !Writes(e, kind, key)
    ensures Absent(Step(s, e), kind, key)
  {
    match e
    case Call(_, _, _) => FlashesAfterCall(s, e, kind);
    case OldOrValue(_) => FlashesAfterCall(s, e, kind);
    case Show(_, _) => FlashesAfterCall(s, e, kind);
    case Store(_) => StoredAfterPacking(AllSavable(s.flashes), kind);
    case Session(_, _, _) => if s.session { FlashesAfterSession(s, e, kind); }
    case Begin(_, _, _) => LoadedOf(s.stored, kind);
    case Deny =>
  }

  // An absent entry stays absent, and reads as no text, until somebody writes it again.
  lemma {:induction false} AbsentUntilWritten(run: seq<Event>, later: seq<Event>, kind: Kind, key: string)
    requires Absent(Exec(run), kind, key)
    requires forall i :: 0 <= i < |later| ==> !Writes(later[i], kind, key)
    ensures Absent(Exec(run + later), kind, key) && TextAt(Exec(run + later).flashes.Of(kind), key) == ""
  {
    if later == [] {
      assert run + later == run;
    } else {
      var before, e := later[..|later| - 1], later[|later| - 1];
      AbsentUntilWritten(run, before, kind, key);
      AbsentStays(Exec(run + before), e, kind, key);
      Snoc(run + before, e);
      assert run + later == run + before + [e];
    }
  }

  // The rest of a request, in which nobody touches the entry.
  predicate Elsewhere(mid: seq<Event>, kind: Kind, key: string) {
    forall i :: 0 <= i < |mid| ==> !Touches(mid[i], kind, key) && !mid[i].Begin?
  }

  lemma ElsewhereOne(run: seq<Event>, e: Event, kind: Kind, key: string)
    requires !Touches(e, kind, key) && !e.Begin?
    ensures Fresh(run + [e], kind, key) == Fresh(run, kind, key)
    ensures Updated(run) ==> Updated(run + [e])
    ensures ValidIn(run + [e]) ==> ValidIn(run)
    ensures !Updated(run + [e]) ==> Kept(run + [e], kind, key) == Kept(run, kind, key)
  {
    Snoc(run, e);
    ValidHasSession(run);
  }

  lemma {:induction false} ElsewhereKeepsFresh(run: seq<Event>, mid: seq<Event>, kind: Kind, key: string)
    requires Elsewhere(mid, kind, key)
    ensures Fresh(run + mid, kind, key) == Fresh(run, kind, key)
    ensures Updated(run) ==> Updated(run + mid)
    ensures ValidIn(run + mid) ==> ValidIn(run)
    ensures !Updated(run + mid) ==> Kept(run + mid, kind, key) == Kept(run, kind, key)
  {
    if mid == [] {
      assert run + mid == run;
    } else {
      var before, e := mid[..|mid| - 1], mid[|mid| - 1];
      ElsewhereKeepsFresh(run, before, kind, key);
      ElsewhereOne(run + before, e, kind, key);
      assert run + mid == run + before + [e];
    }
  }

  // What a Store that is saved makes of an entry last touched at the end of `run`.
  lemma StoreCommits(run: seq<Event>, mid: seq<Event>, kind: Kind, key: string)
    requires Elsewhere(mid, kind, key) && ValidIn(run + mid)
    ensures Kept(run + mid + [Store(true)], kind, key)
         == if Updated(run + mid) then Fresh(run, kind, key) else Kept(run, kind, key)
  {
    ElsewhereKeepsFresh(run, mid, kind, key);
    Snoc(run + mid, Store(true));
  }

  // A message written and not read before the Store is in the session afterwards; an error
  // exactly when something in the request set Update, and otherwise the session keeps what it had.
  lemma WrittenThenStored(run: seq<Event>, kind: Kind, key: string, args: seq<Arg>, mid: seq<Event>)
    requires args != [] && Elsewhere(mid, kind, key)
    requires ValidIn(run + [Call(kind, key, args)] + mid)
    ensures var done := run + [Call(kind, key, args)] + mid;
      Kept(done + [Store(true)], kind, key)
        == if kind != Errors || Updated(done) then TextOf(Composed(args)) else Kept(run, kind, key)
  {
    var w := Call(kind, key, args);
    Snoc(run, w);
    ElsewhereKeepsFresh(run + [w], mid, kind, key);
    StoreCommits(run + [w], mid, kind, key);
  }

  // An error that is the request's only change never reaches the session, whatever the cookie.
  lemma LoneErrorIsLost(run: seq<Event>, cookie: Cookie, key: string, text: string)
    ensures var begun := run + [Begin(true, true, cookie)];
      Exec(begun + [Call(Errors, key, [Text(text)])] + [Store(true)]).stored == Exec(begun).stored
  {
    var begun := run + [Begin(true, true, cookie)];
    Snoc(run, Begin(true, true, cookie));
    Snoc(begun, Call(Errors, key, [Text(text)]));
    Snoc(begun + [Call(Errors, key, [Text(text)])], Store(true));
    assert !Exec(begun + [Call(Errors, key, [Text(text)])]).update;
  }

  // It does reach the session when the handler puts anything into it, or, if there was no
  // cookie, so much as reads it.
  lemma SessionCallSavesTheError(run: seq<Event>, cookie: Cookie, key: string, text: string, own: string, op: Own, saved: bool)
    requires op.Put? || cookie == Missing
    ensures Kept(run + [Begin(true, true, cookie)] + [Call(Errors, key, [Text(text)])] + [Session(own, op, saved)] + [Store(true)],
                 Errors, key) == Some(text)
  {
    var begun, w, c := run + [Begin(true, true, cookie)], Call(Errors, key, [Text(text)]), Session(own, op, saved);
    Snoc(run, Begin(true, true, cookie));
    Snoc(begun, w);
    Snoc(begun + [w], c);
    assert HasSession(begun + [w]) && ValidIn(begun + [w]) && (cookie == Missing ==> Greets(begun + [w]));
    assert Composed([Text(text)]) == Message(text, true, false);
    assert Updated(begun + [w] + [c]) && ValidIn(begun + [w] + [c]);
    WrittenThenStored(begun, Errors, key, [Text(text)], [c]);
  }

  lemma StoreDropsRead(run: seq<Event>, kind: Kind, key: string)
    requires ValidIn(run) && Updated(run) && Fresh(run, kind, key) == None
    ensures Absent(Exec(run + [Store(true)]), kind, key)
  {
    EveryRunAgrees(run);
    assert EntryAgrees(run, Exec(run), kind, key);
    Snoc(run, Store(true));
    StoredAfterPacking(AllSavable(Exec(run).flashes), kind);
  }

  // An entry the request has and reads through Error, Message or Old, before a Store, is seen
  // by no later request, however the run goes on, unless it is rewritten.
  lemma ReadOnce(run: seq<Event>, kind: Kind, key: string, mid: seq<Event>, later: seq<Event>)
    requires key in Exec(run).flashes.Of(kind) && Elsewhere(mid, kind, key)
    requires ValidIn(run + [Call(kind, key, [])] + mid)
    requires forall i :: 0 <= i < |later| ==> !Writes(later[i], kind, key)
    ensures Absent(Exec(run + [Call(kind, key, [])] + mid + [Store(true)] + later), kind, key)
  {
    var r := Call(kind, key, []);
    Snoc(run, r);
    ElsewhereKeepsFresh(run + [r], mid, kind, key);
    assert Updated(run + [r]) by {
      EveryRunAgrees(run);
      assert EntryAgrees(run, Exec(run), kind, key);
    }
    var done := run + [r] + mid;
    StoreDropsRead(done, kind, key);
    AbsentUntilWritten(done + [Store(true)], later, kind, key);
  }

  // A fresh entry is what a read returns.
  lemma FreshIsRead(run: seq<Event>, kind: Kind, key: string)
    requires Fresh(run, kind, key).Some?
    ensures TextAt(Exec(run).flashes.Of(kind), key) == Fresh(run, kind, key).value
  {
    EveryRunAgrees(run);
    assert EntryAgrees(run, Exec(run), kind, key);
  }

  // The request goes on, and nobody writes the entry.
  predicate ReadsOnly(mid: seq<Event>, kind: Kind, key: string) {
    forall i :: 0 <= i < |mid| ==> !Writes(mid[i], kind, key) && !mid[i].Begin? && !mid[i].Store?
  }

  lemma ReadKeepsText(s: State, e: Event, kind: Kind, key: string)
    requires !Writes(e, kind, key) && !e.Begin? && !e.Store?
    ensures TextAt(Step(s, e).flashes.Of(kind), key) == TextAt(s.flashes.Of(kind), key)
  {
    match e
    case Call(_, _, _) => FlashesAfterCall(s, e, kind);
    case OldOrValue(_) => FlashesAfterCall(s, e, kind);
    case Show(_, _) => FlashesAfterCall(s, e, kind);
    case Session(_, _, _) => if s.session { FlashesAfterSession(s, e, kind); }
    case Deny =>
  }

  // However often it is read, an entry gives the text last written to it until the Store.
  lemma {:induction false} ReadAgainIsTheSame(run: seq<Event>, kind: Kind, key: string, args: seq<Arg>, mid: seq<Event>)
    requires args != [] && ValidIn(run) && ReadsOnly(mid, kind, key)
    ensures TextAt(Exec(run + [Call(kind, key, args)] + mid).flashes.Of(kind), key)
         == if Composed(args).valid then Composed(args).text else ""
  {
    var w := Call(kind, key, args);
    if mid == [] {
      Snoc(run, w);
      EveryRunAgrees(run);
      FlashesAfterCall(Exec(run), w, kind);
      assert run + [w] + mid == run + [w];
    } else {
      var before, e := mid[..|mid| - 1], mid[|mid| - 1];
      ReadAgainIsTheSame(run, kind, key, args, before);
      Snoc(run + [w] + before, e);
      ReadKeepsText(Exec(run + [w] + before), e, kind, key);
      assert run + [w] + mid == run + [w] + before + [e];
    }
  }

  // OldOrValue, and a view printing the entry itself, mark it read without setting Update: a
  // saved Store drops the entry exactly when something in the request set Update, and the
  // session keeps what it had otherwise.
  lemma PeekedThenStored(run: seq<Event>, e: Event, kind: Kind, key: string, mid: seq<Event>)
    requires (e.OldOrValue? || e.Show?) && Touches(e, kind, key)
    requires Elsewhere(mid, kind, key) && ValidIn(run + [e] + mid)
    ensures var done := run + [e] + mid;
      Kept(done + [Store(true)], kind, key) == if Updated(done) then None else Kept(run, kind, key)
  {
    Snoc(run, e);
    ElsewhereKeepsFresh(run + [e], mid, kind, key);
    StoreCommits(run + [e], mid, kind, key);
  }

  // Why Update is set: an event of the current request wrote a message or an old value, read an
  // entry the request had, or called Session() so as to change it.
  ghost predicate Updates(before: seq<Event>, e: Event) {
    match e
    case Call(kind, key, args) => ValidIn(before) && if args != [] then kind != Errors else Known(before, kind, key)
    case Session(key, op, _) =>
      HasSession(before) && (Greets(before) || op.Put? || (op.Delete? && OwnValue(before, key).Some?))
    case _ => false
  }

  ghost predicate Cause(run: seq<Event>, i: nat) {
    i < |run| && Updates(run[..i], run[i]) && forall j :: i < j < |run| ==> !run[j].Begin?
  }

  lemma {:induction false} UpdatedIffCaused(run: seq<Event>)
    ensures Updated(run) <==> exists i: nat :: Cause(run, i)
  {
    if run == [] {
    } else {
      var before, e := run[..|run| - 1], run[|run| - 1];
      UpdatedIffCaused(before);
      forall i: nat | i < |before| ensures Cause(run, i) <==> Cause(before, i) && !e.Begin? {
        assert run[..i] == before[..i];
        assert run[|before|] == e;
        if Cause(run, i) { assert forall j :: i < j < |before| ==> before[j] == run[j]; }
        if Cause(before, i) { assert forall j :: i < j < |before| ==> run[j] == before[j]; }
      }
      assert Cause(run, |before|) <==> Updates(before, e);
    }
  }

  // A view that prints entries of one kind, one after the other.
  function AfterShowing(s: State, kind: Kind, keys: seq<string>): State {
    if keys == [] then s else Step(AfterShowing(s, kind, keys[..|keys| - 1]), Show(kind, keys[|keys| - 1]))
  }

  function AllShown(f: Flash, keys: seq<string>): Flash {
    if keys == [] then f else MarkShown(AllShown(f, keys[..|keys| - 1]), keys[|keys| - 1])
  }

  lemma {:induction false} ShowingOneKind(s: State, kind: Kind, keys: seq<string>)
    ensures AfterShowing(s, kind, keys) == s.(flashes := s.flashes.With(kind, AllShown(s.flashes.Of(kind), keys)))
  {
    if keys == [] {
    } else {
      ShowingOneKind(s, kind, keys[..|keys| - 1]);
    }
  }

  // Storing twice is storing once.
  lemma StoreIsIdempotent(s: State, saved: bool)
    ensures Step(Step(s, Store(saved)), Store(saved)) == Step(s, Store(saved))
  {
    var f := AllSavable(s.flashes);
    assert Savable(f.messages) == f.messages && Savable(f.errors) == f.errors && Savable(f.olds) == f.olds;
  }

  // What a handler puts under a key of its own is what Session(key) gives until it is put or
  // deleted again, and what every later request with the visitor's cookie gets once a valid
  // request's Store was saved after it.
  lemma {:induction false} OwnValueStays(run: seq<Event>, e: Event, later: seq<Event>, key: string)
    requires Settles(run, e) && key != INIT
    requires forall i :: 0 <= i < |later| ==>
      !(later[i].Session? && !later[i].op.Get? && later[i].key == key) && !Renews(later[i])
    ensures var r, text := run + [e] + later, OwnStored(run + [e], key);
      OwnStored(r, key) == text && (HasSession(r) ==> OwnValue(r, key) == text)
  {
    if later == [] {
      Snoc(run, e);
      assert run + [e] + later == run + [e];
    } else {
      var before, last := later[..|later| - 1], later[|later| - 1];
      OwnValueStays(run, e, before, key);
      Snoc(run + [e] + before, last);
      ValidHasSession(run + [e] + before);
      assert run + [e] + later == run + [e] + before + [last];
    }
  }

  // The greeting of a visitor without a cookie stays in the saved session only.
  lemma GreetingIsSaved(run: seq<Event>, key: string)
    ensures var s := Exec(run + [Begin(true, true, Missing)] + [Session(key, Get, true)]);
      && s.storedOwn == map["__init__" := "1"] && s.own == map[] && s.stored == map[] && s.update
  {
    Snoc(run, Begin(true, true, Missing));
    Snoc(run + [Begin(true, true, Missing)], Session(key, Get, true));
  }
}
