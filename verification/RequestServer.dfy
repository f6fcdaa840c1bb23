// The request object as a handler uses it: maps and flags changed in place, the session
// sharing the request's maps, each method tied to its event on values.
module RequestServer {
  import opened Base
  import opened FlashMessages

  // A MessagesMap: the session in memory and the request may hold the same one.
  class MessagesMap {
    var entries: Flash

    constructor (entries: Flash)
      ensures this.entries == entries
    {
      this.entries := entries;
    }

    method Put(key: string, m: FlashMessages.Message)
      modifies this
      ensures entries == old(entries)[key := m]
    {
      entries := entries[key := m];
    }

    // Mark the entry under the key read; its text.
    method Read(key: string) returns (text: string)
      modifies this
      ensures entries == MarkRead(old(entries), key) && text == TextAt(old(entries), key)
    {
      text := "";
      if key in entries {
        entries := entries[key := entries[key].(isRead := true)];
        text := entries[key].Get();
      }
    }

    // Message.String() of one entry.
    method Print(key: string) returns (text: string)
      modifies this
      ensures entries == MarkShown(old(entries), key) && text == TextAt(old(entries), key)
    {
      text := "";
      if key in entries && entries[key].valid {
        entries := entries[key := entries[key].(isRead := true)];
        text := entries[key].text;
      }
    }

    // The loop of a view that prints what is unread, keys in any order.
    method PrintUnread() returns (texts: seq<string>, ghost keys: seq<string>)
      modifies this
      ensures entries == AllShown(old(entries), keys) && EachUnreadOnce(old(entries), {}, keys, texts)
    {
      texts, keys := [], [];
      var todo := entries.Keys;
      while todo != {}
        invariant entries == AllShown(old(entries), keys)
        invariant todo <= entries.Keys == old(entries).Keys
        invariant forall key :: key in todo ==> entries[key] == old(entries)[key]
        invariant EachUnreadOnce(old(entries), todo, keys, texts)
        decreases todo
      {
        var key :| key in todo;
        OneMoreKey(old(entries), todo, keys, texts, key);
        if entries[key].valid && !entries[key].isRead {
          var text := Print(key);
          assert (keys + [key])[..|keys|] == keys;
          texts, keys := texts + [text], keys + [key];
        }
        todo := todo - {key};
      }
    }

    // The loop of Store: delete while ranging, keys in any order.
    method DropUnsaved()
      modifies this
      ensures entries == Savable(old(entries))
    {
      var todo := entries.Keys;
      while todo != {}
        invariant todo <= old(entries).Keys && todo <= entries.Keys
        invariant entries == map k | k in old(entries) && (k in todo || old(entries)[k].IsSave()) :: old(entries)[k]
        decreases todo
      {
        var key :| key in todo;
        if !entries[key].IsSave() {
          entries := entries - {key};
        }
        todo := todo - {key};
      }
    }
  }

  // The keys and texts of all unread entries but those in `todo`, each once.
  ghost predicate EachUnreadOnce(f: Flash, todo: set<string>, keys: seq<string>, texts: seq<string>) {
    && (forall key :: multiset(keys)[key] == if key !in todo && Unread(f, key).Some? then 1 else 0)
    && |texts| == |keys| && forall n :: 0 <= n < |keys| ==> Unread(f, keys[n]) == Some(texts[n])
  }

  lemma OneMoreKey(f: Flash, todo: set<string>, keys: seq<string>, texts: seq<string>, key: string)
    requires EachUnreadOnce(f, todo, keys, texts) && key in todo
    ensures match Unread(f, key)
      case Some(text) => EachUnreadOnce(f, todo - {key}, keys + [key], texts + [text])
      case None => EachUnreadOnce(f, todo - {key}, keys, texts)
  {
  }

  // What the session store holds for this visitor.
  class SessionFile {
    var saved: map<Kind, Flash>
    var own: map<string, string>

    constructor ()
      ensures saved == map[] && own == map[]
    {
      saved, own := map[], map[];
    }
  }

  // The session in memory. Saving writes out its maps as they are by then.
  class Sess {
    const file: SessionFile
    var values: map<Kind, MessagesMap>
    var own: map<string, string>
    var update: bool
    var init: bool

    constructor (file: SessionFile)
      ensures this.file == file && own == file.own && !update && !init
      ensures values.Keys == file.saved.Keys
      ensures forall kind :: kind in values ==> fresh(values[kind]) && values[kind].entries == file.saved[kind]
      ensures forall kind, kind' :: kind in values && kind' in values && kind != kind' ==> values[kind] != values[kind']
    {
      var loaded: map<Kind, MessagesMap> := map[];
      var todo := file.saved.Keys;
      while todo != {}
        invariant todo <= file.saved.Keys && loaded.Keys == file.saved.Keys - todo
        invariant forall kind :: kind in loaded ==> fresh(loaded[kind]) && loaded[kind].entries == file.saved[kind]
        invariant forall kind, kind' :: kind in loaded && kind' in loaded && kind != kind' ==> loaded[kind] != loaded[kind']
        decreases todo
      {
        var kind :| kind in todo;
        var m := new MessagesMap(file.saved[kind]);
        loaded := loaded[kind := m];
        todo := todo - {kind};
      }
      this.file, values, own, update, init := file, loaded, file.own, false, false;
    }

    method Set(kind: Kind, m: MessagesMap)
      modifies this`values, this`update
      ensures values == old(values)[kind := m] && update
    {
      values := values[kind := m];
      update := true;
    }

    // Update is left alone when there was nothing to delete.
    method Delete(kind: Kind)
      modifies this`values, this`update
      ensures values == old(values) - {kind} && update == (old(update) || kind in old(values))
    {
      if kind in values {
        values := values - {kind};
        update := true;
      }
    }

    // The same two for the application's own keys.
    method SetOwn(key: string, value: string)
      modifies this`own, this`update
      ensures own == old(own)[key := value] && update
    {
      own := own[key := value];
      update := true;
    }

    method DeleteOwn(key: string)
      modifies this`own, this`update
      ensures own == old(own) - {key} && update == (old(update) || key in old(own))
    {
      if key in own {
        own := own - {key};
        update := true;
      }
    }

    ghost function Written(): map<Kind, Flash>
      reads this, set kind | kind in values :: values[kind]
    {
      map kind | kind in values :: values[kind].entries
    }

    method Save(accepted: bool)
      modifies file
      ensures file.saved == if accepted then Written() else old(file.saved)
      ensures file.own == if accepted then own else old(file.own)
    {
      if accepted {
        file.saved, file.own := map kind | kind in values :: values[kind].entries, own;
      }
    }
  }

  class Request {
    const file: SessionFile
    const sess: Sess?
    var valid: bool
    const validSession: bool
    const hasCookie: bool
    const messages: MessagesMap
    const errors: MessagesMap
    const olds: MessagesMap

    function MapOf(kind: Kind): MessagesMap {
      match kind
      case Messages => messages
      case Errors => errors
      case Olds => olds
    }

    // The session in memory holds no map but the request's own.
    ghost predicate Valid()
      reads this, sess
    {
      && (valid ==> validSession) && (validSession <==> sess != null)
      && messages != errors && errors != olds && messages != olds
      && (sess != null ==> sess.file == file && forall kind :: kind in sess.values ==> sess.values[kind] == MapOf(kind))
    }

    ghost function View(): State
      reads this, sess, file, messages, errors, olds
    {
      var fs := Flashes(messages.entries, errors.entries, olds.entries);
      if sess == null
      then State(file.saved, file.own, fs, {}, map[], valid, false, false, false)
      else State(file.saved, file.own, fs, sess.values.Keys, sess.own, valid, true, sess.update, !hasCookie && !sess.init)
    }

    // NewRequest; `db` and `session` say whether the two connections could be made. Without a
    // cookie whose session loads, the visitor's session is a new one.
    constructor (given: SessionFile, db: bool, session: bool, cookie: Cookie)
      ensures Valid() && file == (if session && cookie != Current then file else given)
      ensures file != given ==> fresh(file)
      ensures sess != null ==> fresh(sess)
      ensures fresh(messages) && fresh(errors) && fresh(olds)
      ensures forall before: State :: before.stored == given.saved && before.storedOwn == given.own ==>
        View() == Step(before, Begin(db, session, cookie))
    {
      var f := given;
      if session && cookie != Current {
        f := new SessionFile();
      }
      var m := new MessagesMap(map[]);
      var e := new MessagesMap(map[]);
      var o := new MessagesMap(map[]);
      var s: Sess? := null;
      if session {
        s := new Sess(f);
        if Errors in s.values { e := s.values[Errors]; }
        if Messages in s.values { m := s.values[Messages]; }
        if Olds in s.values { o := s.values[Olds]; }
      }
      file, sess, hasCookie := f, s, cookie != Missing;
      messages, errors, olds := m, e, o;
      valid, validSession := db && session, session;
    }

    // Auth() or Admin() found no such user.
    method Refuse()
      requires Valid()
      modifies this`valid
      ensures Valid() && View() == Step(old(View()), Deny)
    {
      valid := false;
    }

    method Error(key: string, values: seq<Arg>) returns (text: string)
      requires Valid()
      modifies errors, if sess == null then {} else {sess}
      ensures Valid() && View() == Step(old(View()), Call(Errors, key, values))
      ensures text == if valid && values == [] then TextAt(old(errors.entries), key) else ""
    {
      text := "";
      if valid {
        if |values| > 0 {
          var m := Scan(values);
          errors.Put(key, m);
        } else if key in errors.entries {
          text := errors.Read(key);
          sess.update := true;
        }
      }
    }

    method Message(key: string, values: seq<Arg>) returns (text: string)
      requires Valid()
      modifies messages, if sess == null then {} else {sess}
      ensures Valid() && View() == Step(old(View()), Call(Messages, key, values))
      ensures text == if valid && values == [] then TextAt(old(messages.entries), key) else ""
    {
      text := "";
      if valid {
        if |values| > 0 {
          var m := Scan(values);
          messages.Put(key, m);
          sess.update := true;
        } else if key in messages.entries {
          text := messages.Read(key);
          sess.update := true;
        }
      }
    }

    method Old(key: string, values: seq<Arg>) returns (text: string)
      requires Valid()
      modifies olds, if sess == null then {} else {sess}
      ensures Valid() && View() == Step(old(View()), Call(Olds, key, values))
      ensures text == if valid && values == [] then TextAt(old(olds.entries), key) else ""
    {
      text := "";
      if valid {
        if |values| > 0 {
          var m := Scan(values);
          olds.Put(key, m);
          sess.update := true;
        } else if key in olds.entries {
          text := olds.Read(key);
          sess.update := true;
        }
      }
    }

    // The old value, or the first of the given values that is not empty text.
    method OldOrValue(key: string, values: seq<Arg>) returns (text: string)
      requires Valid()
      modifies olds
      ensures Valid() && View() == Step(old(View()), FlashMessages.OldOrValue(key))
      ensures !valid ==> text == ""
      ensures valid ==> var held := TextAt(old(olds.entries), key); text == if held != "" then held else FirstText(values)
    {
      text := "";
      if valid {
        text := olds.Read(key);
        if text == "" && |values| > 0 {
          text := First(values);
        }
      }
    }

    // A view's listing asks neither whether the request is valid nor for Update.
    method PrintUnread(kind: Kind) returns (texts: seq<string>, ghost keys: seq<string>)
      requires Valid()
      modifies MapOf(kind)
      ensures Valid() && View() == AfterShowing(old(View()), kind, keys)
      ensures EachUnreadOnce(old(MapOf(kind).entries), {}, keys, texts)
    {
      var m := MapOf(kind);
      texts, keys := m.PrintUnread();
      ShowingOneKind(old(View()), kind, keys);
    }

    // Session(key), Session(key, nil), Session(key, value). It dereferences the session
    // without asking; the first call without a cookie saves before doing anything else.
    method Session(key: string, op: Own, accepted: bool) returns (value: Option<string>)
      requires Valid() && sess != null
      modifies sess, file
      ensures Valid() && View() == Step(old(View()), FlashMessages.Session(key, op, accepted))
      ensures value == if op.Get? then At(sess.own, key) else None
    {
      Greet(accepted);
      match op {
        case Get => return if key in sess.own then Some(sess.own[key]) else None;
        case Delete => sess.DeleteOwn(key);
        case Put(v) => sess.SetOwn(key, v);
      }
      return None;
    }

    method Greet(accepted: bool)
      requires Valid() && sess != null
      modifies sess, file
      ensures Valid() && View() == Greeted(old(View()), accepted)
    {
      if !sess.init {
        sess.init := true;
        if !hasCookie {
          GreetWithout(accepted);
        }
      }
    }

    // Set, save, delete: the session's maps are saved as they are now.
    method GreetWithout(accepted: bool)
      requires Valid() && sess != null
      modifies sess`own, sess`update, file
      ensures Valid() && sess.update && sess.own == old(sess.own) - {INIT}
      ensures file.saved == if accepted then map kind | kind in sess.values :: View().flashes.Of(kind) else old(file.saved)
      ensures file.own == if accepted then old(sess.own)[INIT := "1"] else old(file.own)
    {
      sess.SetOwn(INIT, "1");
      assert forall kind :: kind in sess.values ==> sess.values[kind].entries == View().flashes.Of(kind);
      sess.Save(accepted);
      sess.DeleteOwn(INIT);
    }

    method Store(accepted: bool)
      requires Valid()
      modifies messages, errors, olds, file, if sess == null then {} else {sess}
      ensures Valid() && View() == Step(old(View()), FlashMessages.Store(accepted))
    {
      if valid && sess.update {
        KeepAll();
        sess.Save(accepted);
      }
    }

    method KeepAll()
      requires Valid() && sess != null && sess.update
      modifies messages, errors, olds, sess`values, sess`update
      ensures Valid() && sess.update
      ensures var kept := AllSavable(old(View()).flashes);
        View().flashes == kept && sess.Written() == Packed(kept)
    {
      Keep(Messages);
      Keep(Errors);
      Keep(Olds);
      WrittenIsPacked();
    }

    lemma WrittenIsPacked()
      requires Valid() && sess != null
      requires forall kind :: kind in sess.values <==> MapOf(kind).entries != map[]
      ensures sess.Written() == Packed(View().flashes)
    {
      assert forall kind :: View().flashes.Of(kind) == MapOf(kind).entries;
      assert forall kind :: kind in sess.values ==> sess.values[kind].entries == View().flashes.Of(kind);
    }

    // What is left of a map goes into the session; nothing left takes it out.
    method Keep(kind: Kind)
      requires Valid() && sess != null && sess.update
      modifies MapOf(kind), sess`values, sess`update
      ensures Valid() && sess.update
      ensures MapOf(kind).entries == Savable(old(MapOf(kind).entries))
      ensures kind in sess.values <==> MapOf(kind).entries != map[]
      ensures forall k :: k != kind ==> (k in sess.values <==> k in old(sess.values))
    {
      var m := MapOf(kind);
      m.DropUnsaved();
      if m.entries != map[] {
        sess.Set(kind, m);
      } else {
        sess.Delete(kind);
      }
    }
  }

  // The loop that scans every value given for one entry.
  method Scan(values: seq<Arg>) returns (m: FlashMessages.Message)
    ensures m == Composed(values)
  {
    m := FlashMessages.Message("", false, false);
    for i := 0 to |values|
      invariant m == Composed(values[..i])
    {
      m := Scanned(m, values[i]);
      assert values[..i + 1][..i] == values[..i];
    }
    assert values[..|values|] == values;
  }

  // The loop of OldOrValue over the values given.
  method First(values: seq<Arg>) returns (text: string)
    ensures text == FirstText(values)
  {
    text := "";
    var i := 0;
    while i < |values|
      invariant 0 <= i <= |values| && text == ""
      invariant FirstText(values[i..]) == FirstText(values)
    {
      if values[i].Text? {
        text := values[i].s;
      }
      if text != "" {
        break;
      }
      i := i + 1;
    }
  }
}
