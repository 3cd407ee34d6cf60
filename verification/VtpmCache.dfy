/** The write-back key cache over a directory whose writes and deletions may fail. */
module VtpmCache {
  import opened Wrappers
  import opened Bytes
  import opened Sequences
  import opened WireTypes
  import opened VtpmPolicyList
  import opened VtpmStore
  import opened VtpmNames
  import opened VtpmLinks

  /**
    The cache directory: one file per handle, replaced whole or not at all. Any
    write or deletion may fail, unless the directory is reliable.
   */
  class Disk {
    const reliable: bool
    var files: map<u32, seq<byte>>

    constructor (reliable: bool, files: map<u32, seq<byte>>)
      ensures this.reliable == reliable && this.files == files
    {
      this.reliable := reliable;
      this.files := files;
    }

    method Replace(h: u32, bytes: seq<byte>) returns (ok: bool)
      modifies this
      ensures files == if ok then old(files)[h := bytes] else old(files)
      ensures reliable ==> ok
    {
      ok := *;
      ok := ok || reliable;
      if ok {
        files := files[h := bytes];
      }
    }

    /** Removing a file that is not there succeeds. */
    method Delete(h: u32) returns (ok: bool)
      modifies this
      ensures files == if ok then old(files) - {h} else old(files)
      ensures reliable ==> ok
    {
      ok := *;
      ok := ok || reliable;
      if ok {
        files := files - {h};
      }
    }
  }

  /** The contexts that a directory loads to. */
  ghost function LoadedContexts<A, C, S>(env: Env<A, C, S>, files: map<u32, seq<byte>>,
      seen: set<u32>): map<u32, Key<A, C, S>> {
    map h | h in files && h in seen && Cached(h) && env.load(files[h], h).Ok? :: env.load(files[h], h).value
  }

  /** Loading and saving are inverse: a loaded key belongs to its handle and would be saved as it was read. */
  ghost predicate Lawful<A, C, S>(env: Env<A, C, S>) {
    forall bytes, h: u32 | env.load(bytes, h).Ok? ::
      var k := env.load(bytes, h).value; k.handle == h && k.version == VERSION && env.record(k) == Ok(bytes)
  }

  const HT_HMAC_SESSION: nat := 0x02
  const HT_POLICY_SESSION: nat := 0x03

  /** The cursor stands behind the largest handle loaded, or at the start. */
  ghost predicate CursorPast<A, C, S>(contexts: map<u32, Key<A, C, S>>, next: u32) {
    && InRange(next)
    && if contexts.Keys == {} then next == TRANSIENT_START
       else exists max <- contexts :: (forall h <- contexts :: h <= max)
                                      && next == if max + 1 > TRANSIENT_END then TRANSIENT_START else max + 1
  }

  /** An empty cache that knows only persistent handles. */
  ghost predicate Fresh<A, C, S>(s: Store<A, C, S>) {
    && s.contexts == map[] && s.names == map[] && s.dirty == {} && s.unreadable == {} && s.next == TRANSIENT_START
    && AllPersistent(s.handles)
  }

  ghost predicate AllPersistent(handles: map<Name, u32>) {
    forall n <- handles :: HandleType(handles[n]) == HT_PERSISTENT
  }

  /** One directory entry was dealt with. */
  ghost predicate LoadedOne<A, C, S>(env: Env<A, C, S>, s: Store<A, C, S>, t: Store<A, C, S>, h: u32)
    requires h in s.files
  {
    var key := env.load(s.files[h], h);
    if Cached(h) && key.Ok? then
      && env.name(key.value.public).Some?
      && t == Publish(s.(contexts := s.contexts[h := key.value]), h, env.name(key.value.public).value)
    else if Cached(h) then
      t == s.(files := s.files - {h}) || t == s.(unreadable := s.unreadable + {h})
    else
      t == s || (IsSession(h) && t == s.(files := s.files - {h}))
  }

  predicate IsSession(h: u32) {
    HandleType(h) == HT_HMAC_SESSION || HandleType(h) == HT_POLICY_SESSION
  }

  /** Loading removes no file but records that fail to load and session files, and changes none. */
  ghost predicate OnlyUnusableGone<A, C, S>(
    env: Env<A, C, S>, before: map<u32, seq<byte>>, after: map<u32, seq<byte>>)
  {
    && (forall h <- after :: h in before && after[h] == before[h])
    && forall h <- before :: h in after || (if Cached(h) then env.load(before[h], h).Err? else IsSession(h))
  }

  /** Every key in the directory has a name. */
  ghost predicate AllNamed<A, C, S>(env: Env<A, C, S>, files: map<u32, seq<byte>>) {
    forall h <- files | Cached(h) && env.load(files[h], h).Ok? :: env.name(env.load(files[h], h).value.public).Some?
  }

  /** Everything outside `todo` has been loaded or dealt with. */
  ghost predicate Loading<A, C, S>(env: Env<A, C, S>, files: map<u32, seq<byte>>, s: Store<A, C, S>, todo: set<u32>) {
    && NamesLive(env, s) && IndexLive(s) && s.dirty == {} && s.next == TRANSIENT_START
    && todo <= files.Keys
    && s.contexts == LoadedContexts(env, files, files.Keys - todo)
    && OnlyUnusableGone(env, files, s.files)
    && (forall h <- files :: h in todo || h in s.contexts ==> h in s.files)
    && (forall h <- s.files :: Cached(h) && h !in todo && h !in s.contexts ==>
          h in s.unreadable && env.load(s.files[h], h).Err?)
  }

  lemma LoadStarts<A, C, S>(env: Env<A, C, S>, s: Store<A, C, S>)
    requires Fresh(s)
    ensures Loading(env, s.files, s, s.files.Keys)
  {
  }

  lemma LoadStep<A, C, S>(
      env: Env<A, C, S>, files: map<u32, seq<byte>>, s: Store<A, C, S>, t: Store<A, C, S>, todo: set<u32>, h: u32)
    requires Lawful(env) && Loading(env, files, s, todo) && h in todo && h in s.files && LoadedOne(env, s, t, h)
    ensures Loading(env, files, t, todo - {h})
  {
    if Cached(h) && env.load(files[h], h).Ok? {
      LoadKey(env, files, s, t, todo, h);
    } else {
      LoadNone(env, files, s, t, todo, h);
    }
  }

  lemma LoadNone<A, C, S>(
      env: Env<A, C, S>, files: map<u32, seq<byte>>, s: Store<A, C, S>, t: Store<A, C, S>, todo: set<u32>, h: u32)
    requires Loading(env, files, s, todo) && h in todo && h in s.files && LoadedOne(env, s, t, h)
    requires !(Cached(h) && env.load(files[h], h).Ok?)
    ensures Loading(env, files, t, todo - {h})
  {
    LoadedNoMore(env, files, todo, h);
    assert t.contexts == s.contexts && t.names == s.names && t.handles == s.handles;
  }

  lemma LoadedNoMore<A, C, S>(env: Env<A, C, S>, files: map<u32, seq<byte>>, todo: set<u32>, h: u32)
    requires h in files && !(Cached(h) && env.load(files[h], h).Ok?)
    ensures LoadedContexts(env, files, files.Keys - (todo - {h})) == LoadedContexts(env, files, files.Keys - todo)
  {
  }

  lemma LoadKey<A, C, S>(
      env: Env<A, C, S>, files: map<u32, seq<byte>>, s: Store<A, C, S>, t: Store<A, C, S>, todo: set<u32>, h: u32)
    requires Lawful(env) && Loading(env, files, s, todo) && h in todo && h in s.files && LoadedOne(env, s, t, h)
    requires Cached(h) && env.load(files[h], h).Ok?
    ensures Loading(env, files, t, todo - {h})
  {
    var key := env.load(files[h], h).value;
    var c := s.(contexts := s.contexts[h := key]);
    PublishIndex(c, h, env.name(key.public).value);
    PublishLive(env, s, h, key, env.name(key.public).value);
    LoadedMore(env, files, todo, h);
    assert t == Publish(c, h, env.name(key.public).value) && t.contexts == c.contexts;
  }

  lemma PublishLive<A, C, S>(env: Env<A, C, S>, s: Store<A, C, S>, h: u32, k: Key<A, C, S>, n: Name)
    requires NamesLive(env, s) && env.name(k.public) == Some(n)
    ensures NamesLive(env, Publish(s.(contexts := s.contexts[h := k]), h, n))
  {
    assert Publish(s.(contexts := s.contexts[h := k]), h, n).names == s.names[h := n];
  }

  lemma LoadedMore<A, C, S>(env: Env<A, C, S>, files: map<u32, seq<byte>>, todo: set<u32>, h: u32)
    requires h in todo && h in files && Cached(h) && env.load(files[h], h).Ok?
    ensures LoadedContexts(env, files, files.Keys - (todo - {h}))
            == LoadedContexts(env, files, files.Keys - todo)[h := env.load(files[h], h).value]
  {
  }

  /** The index of names stays as it is, or gains the name of the key loaded. */
  lemma LoadIndex<A, C, S>(env: Env<A, C, S>, supplied: map<Name, u32>, s: Store<A, C, S>, t: Store<A, C, S>, h: u32)
    requires Indexed(supplied, s) && h in s.files && h !in s.names && LoadedOne(env, s, t, h)
    ensures Indexed(supplied, t)
  {
    var key := env.load(s.files[h], h);
    if Cached(h) && key.Ok? {
      var c := s.(contexts := s.contexts[h := key.value]);
      IndexedSame(supplied, s, c);
      IndexedPublish(supplied, c, h, env.name(key.value.public).value);
    } else {
      IndexedSame(supplied, s, t);
    }
  }

  lemma LoadEnds<A, C, S>(env: Env<A, C, S>, files: map<u32, seq<byte>>, s: Store<A, C, S>)
    requires Lawful(env) && Loading(env, files, s, {})
    ensures Inv(env, s) && s.contexts == LoadedContexts(env, files, files.Keys)
    ensures AllNamed(env, files)
  {
    assert files.Keys - {} == files.Keys;
    forall h <- files | Cached(h) && env.load(files[h], h).Ok?
      ensures env.name(env.load(files[h], h).value.public).Some?
    {
      assert h in s.contexts && s.contexts[h] == env.load(files[h], h).value;
    }
  }

  /** What a flush that has written out `done` leaves. */
  ghost predicate FlushedBy<A, C, S>(env: Env<A, C, S>, s: Store<A, C, S>, t: Store<A, C, S>, done: set<u32>) {
    && done <= s.dirty && t == s.(files := t.files, dirty := s.dirty - done)
    && forall h: u32 ::
         if h in done && h in s.contexts then h in t.files && env.record(s.contexts[h]) == Ok(t.files[h])
         else (h in t.files <==> h in s.files) && (h in s.files ==> t.files[h] == s.files[h])
  }

  /** The keys among `hs` have records. */
  ghost predicate AllMarshal<A, C, S>(env: Env<A, C, S>, contexts: map<u32, Key<A, C, S>>, hs: set<u32>) {
    forall h <- hs | h in contexts :: env.record(contexts[h]).Ok?
  }

  /** A mark is gone, and with it the key written out if there is one. */
  ghost predicate FlushedOne<A, C, S>(env: Env<A, C, S>, s: Store<A, C, S>, t: Store<A, C, S>, h: u32) {
    if h in s.contexts then env.record(s.contexts[h]).Ok? && t == WriteOut(s, h, env.record(s.contexts[h]).value)
    else t == s.(dirty := s.dirty - {h})
  }

  lemma FlushedStep<A, C, S>(
      env: Env<A, C, S>, s: Store<A, C, S>, before: Store<A, C, S>, t: Store<A, C, S>, todo: set<u32>, h: u32)
    requires todo <= s.dirty && FlushedBy(env, s, before, s.dirty - todo) && h in todo && FlushedOne(env, before, t, h)
    ensures FlushedBy(env, s, t, s.dirty - (todo - {h}))
  {
    assert s.dirty - (s.dirty - todo) - {h} == s.dirty - (s.dirty - (todo - {h}));
  }

  lemma FlushedKeeps<A, C, S>(env: Env<A, C, S>, s: Store<A, C, S>, t: Store<A, C, S>, done: set<u32>)
    requires Inv(env, s) && FlushedBy(env, s, t, done)
    ensures Inv(env, t)
  {
  }

  type ChildIndex<A> = map<seq<byte>, seq<Entry<A>>>

  type Entry<A> = (u32, A)

  /** The entry is a context that names `b` as its parent. */
  ghost predicate EntryOf<A, C, S>(env: Env<A, C, S>, contexts: map<u32, Key<A, C, S>>, b: seq<byte>, e: Entry<A>) {
    e.0 in contexts && e.1 == contexts[e.0].public && env.link(contexts[e.0].parent) == Ok(b)
  }

  ghost predicate AllEntries<A, C, S>(env: Env<A, C, S>, contexts: map<u32, Key<A, C, S>>, b: seq<byte>,
      entries: seq<Entry<A>>) {
    entries == []
    || (AllEntries(env, contexts, b, entries[..|entries| - 1]) && EntryOf(env, contexts, b, entries[|entries| - 1]))
  }

  lemma {:induction false} EntryAmong<A, C, S>(env: Env<A, C, S>, contexts: map<u32, Key<A, C, S>>, b: seq<byte>,
      entries: seq<Entry<A>>, e: Entry<A>)
    requires AllEntries(env, contexts, b, entries) && e in entries
    ensures EntryOf(env, contexts, b, e)
  {
    if e != entries[|entries| - 1] {
      EntryAmong(env, contexts, b, entries[..|entries| - 1], e);
    }
  }

  /** The context is listed under its marshalled parent. */
  ghost predicate Filed<A, C, S>(env: Env<A, C, S>, contexts: map<u32, Key<A, C, S>>, index: ChildIndex<A>, c: u32)
    requires c in contexts
  {
    var b := env.link(contexts[c].parent);
    b.Ok? && b.value in index && (c, contexts[c].public) in index[b.value]
  }

  /** The index lists every context but `todo` under its marshalled parent, and nothing else. */
  ghost predicate Indexes<A, C, S>(env: Env<A, C, S>, contexts: map<u32, Key<A, C, S>>, todo: set<u32>,
      index: ChildIndex<A>) {
    && (forall c <- contexts | c !in todo :: Filed(env, contexts, index, c))
    && (forall b <- index :: AllEntries(env, contexts, b, index[b]))
  }

  class Cache<A(==), C, S> {
    const env: Env<A, C, S>
    const disk: Disk
    var contexts: map<u32, Key<A, C, S>>
    var handles: map<Name, u32>
    var names: map<u32, Name>
    var dirty: set<u32>
    var next: u32
    ghost var unreadable: set<u32>

    ghost function Snapshot(): Store<A, C, S>
      reads this, disk
    {
      Store(contexts, handles, names, dirty, next, disk.files, unreadable)
    }

    constructor (env: Env<A, C, S>, disk: Disk, handles: map<Name, u32>)
      ensures this.env == env && this.disk == disk
      ensures Snapshot() == Store(map[], handles, map[], {}, TRANSIENT_START, disk.files, {})
    {
      this.env, this.disk, this.handles := env, disk, handles;
      contexts, names, dirty, next := map[], map[], {}, TRANSIENT_START;
      unreadable := {};
    }

    // ----- names -----

    method UnpublishName(h: u32)
      modifies this`names, this`handles
      ensures Snapshot() == Unpublish(old(Snapshot()), h)
    {
      if h in names {
        var n := names[h];
        names := names - {h};
        if n in handles && handles[n] == h {
          handles := handles - {n};
        }
      }
    }

    method PublishName(h: u32, n: Name)
      modifies this`names, this`handles
      ensures Snapshot() == Publish(old(Snapshot()), h, n)
    {
      UnpublishName(h);
      handles := handles[n := h];
      names := names[h := n];
    }

    /**
      Looks a key up by name. The name of a live key finds a key of that name exactly
      when it is in the index; any other name finds nothing, unless a handle supplied
      from outside was given a name its cached key does not have.
     */
    method FindByName(n: Name) returns (r: Option<Key<A, C, S>>)
      requires Inv(env, Snapshot())
      ensures r == if n in handles && handles[n] in contexts then Some(contexts[handles[n]]) else None
      ensures r.Some? && (SuppliedAgree(Snapshot()) || HandleType(handles[n]) == HT_TRANSIENT) ==>
                env.name(r.value.public) == Some(n)
      ensures (exists h <- contexts :: env.name(contexts[h].public) == Some(n)) ==>
                (r.Some? <==> n in handles) && (r.Some? ==> env.name(r.value.public) == Some(n))
      ensures Findable(Snapshot()) && (exists h <- contexts :: env.name(contexts[h].public) == Some(n)) ==> r.Some?
    {
      assert forall h <- contexts :: env.name(contexts[h].public) == Some(names[h]);
      if n in handles && handles[n] in contexts {
        return Some(contexts[handles[n]]);
      }
      return None;
    }

    // ----- saving -----

    method SaveTransient(context: C, public: A, parent: A, policy: seq<S>)
      returns (r: Result<u32, VtpmError>)
      requires Inv(env, Snapshot())
      modifies this
      ensures Outcome(r, Snapshot()) == VtpmStore.SaveTransient(env, old(Snapshot()), context, public, parent, policy)
      ensures Inv(env, Snapshot())
      ensures r == Err(NoHandles) <==> forall h: u32 :: 0x8000_0000 <= h <= 0x80FF_FFFF ==> h in old(contexts)
      ensures r.Ok? || r == Err(NoHandles) || (r == Err(OperationFailed) && env.name(public).None?)
      ensures r.Err? ==> Snapshot() == old(Snapshot())
      ensures r.Ok? ==> env.name(public).Some?
                        && Saved(old(Snapshot()), Snapshot(),
                                 Key(2, r.value, public, parent, context, policy), env.name(public).value)
      ensures r.Ok? ==> NearestFree(old(contexts), old(next), r.value)
      ensures r.Ok? ==> next == if r.value == 0x80FF_FFFF then 0x8000_0000 else r.value + 1
    {
      TransientSaved(env, Snapshot(), context, public, parent, policy);
      var free := FindFree();
      if free.None? {
        return Err(NoHandles);
      }
      var h := free.value;
      var key := Key(VERSION, h, public, parent, context, policy);
      var name := env.name(key.public);
      if name.None? {
        return Err(OperationFailed);
      }
      InsertKey(key, name.value);
      next := if h + 1 > TRANSIENT_END then TRANSIENT_START else h + 1;
      assert Snapshot() == VtpmStore.SaveTransient(env, old(Snapshot()), context, public, parent, policy).store;
      return Ok(h);
    }

    /** Looks for a vacant slot, round from the cursor. */
    method FindFree() returns (free: Option<u32>)
      requires InRange(next)
      ensures free == FreeSlot(contexts, next, 0)
    {
      var i := 0;
      while i < TRANSIENT_COUNT
        invariant i <= TRANSIENT_COUNT && FreeSlot(contexts, next, 0) == FreeSlot(contexts, next, i)
      {
        var h := next + i;
        if h > TRANSIENT_END {
          h := TRANSIENT_START + (h - TRANSIENT_END - 1);
        }
        if h !in contexts {
          return Some(h);
        }
        i := i + 1;
      }
      return None;
    }

    method InsertKey(key: Key<A, C, S>, name: Name)
      modifies this`contexts, this`names, this`handles, this`dirty
      ensures Snapshot() == Insert(old(Snapshot()), key, name)
    {
      contexts := contexts[key.handle := key];
      PublishName(key.handle, name);
      dirty := dirty + {key.handle};
    }

    method SavePersistent(h: u32, public: A, parent: A, policy: seq<S>)
      returns (r: Result<(), VtpmError>)
      requires Inv(env, Snapshot())
      modifies this
      ensures Outcome(r, Snapshot()) == VtpmStore.SavePersistent(env, old(Snapshot()), h, public, parent, policy)
      ensures Inv(env, Snapshot())
      ensures r == if !(0x8100_0000 <= h <= 0x81FF_FFFF) then Err(InvalidHandleType(h / 0x100_0000))
                   else if env.name(public).None? then Err(OperationFailed) else Ok(())
      ensures r.Err? ==> Snapshot() == old(Snapshot())
      ensures r.Ok? ==> next == old(next)
                        && Saved(old(Snapshot()), Snapshot(),
                                 Key(2, h, public, parent, env.noContext, policy), env.name(public).value)
    {
      if HandleType(h) != HT_PERSISTENT {
        return Err(InvalidHandleType(HandleType(h)));
      }
      var key := Key(VERSION, h, public, parent, env.noContext, policy);
      var name := env.name(key.public);
      if name.None? {
        return Err(OperationFailed);
      }
      InsertKeeps(env, Snapshot(), key, name.value);
      InsertSaved(Snapshot(), key, name.value);
      InsertKey(key, name.value);
      return Ok(());
    }

    method MarkDirty(h: u32)
      requires Inv(env, Snapshot())
      modifies this`dirty
      ensures Snapshot() == old(Snapshot()).(dirty := old(dirty) + {h}) && Inv(env, Snapshot())
    {
      dirty := dirty + {h};
    }

    /** Writes out every dirty context; a failure stops it with the rest still dirty. */
    method Flush() returns (r: Result<(), VtpmError>, ghost done: set<u32>)
      requires Inv(env, Snapshot())
      modifies this`dirty, disk
      ensures Inv(env, Snapshot()) && FlushedBy(env, old(Snapshot()), Snapshot(), done)
      ensures r.Ok? ==> done == old(dirty)
      ensures disk.reliable && AllMarshal(env, contexts, old(dirty)) ==> r.Ok?
    {
      r, done := SaveAll();
      FlushedKeeps(env, old(Snapshot()), Snapshot(), done);
    }

    method SaveAll() returns (r: Result<(), VtpmError>, ghost done: set<u32>)
      modifies this`dirty, disk
      ensures FlushedBy(env, old(Snapshot()), Snapshot(), done)
      ensures r.Ok? ==> done == old(dirty)
      ensures disk.reliable && AllMarshal(env, contexts, old(dirty)) ==> r.Ok?
    {
      ghost var start, now := Snapshot(), Snapshot();
      var todo := dirty;
      while todo != {}
        invariant now == Snapshot() && todo <= start.dirty && FlushedBy(env, start, now, start.dirty - todo)
        decreases |todo|
      {
        var h :| h in todo;
        var one := SaveOne(h);
        if one.Err? {
          return one, start.dirty - todo;
        }
        FlushedStep(env, start, now, Snapshot(), todo, h);
        now := Snapshot();
        todo := todo - {h};
      }
      return Ok(()), start.dirty;
    }

    method SaveOne(h: u32) returns (r: Result<(), VtpmError>)
      modifies this`dirty, disk
      ensures r.Err? ==> Snapshot() == old(Snapshot())
      ensures r.Ok? ==> FlushedOne(env, old(Snapshot()), Snapshot(), h)
      ensures r.Err? ==> h in contexts
      ensures r.Err? ==> r.error == match env.record(contexts[h]) case Err(e) => e case Ok(_) => Io
      ensures disk.reliable && AllMarshal(env, contexts, {h}) ==> r.Ok?
    {
      if h in contexts {
        var bytes := env.record(contexts[h]);
        if bytes.Err? {
          return Err(bytes.error);
        }
        var ok := disk.Replace(h, bytes.value);
        if !ok {
          return Err(Io);
        }
      }
      dirty := dirty - {h};
      return Ok(());
    }

    // ----- loading -----

    /**
      A new cache over a directory. It holds exactly the records that load; unusable
      records and stale session files are removed if they can be.
     */
    static method Open(env: Env<A, C, S>, disk: Disk, handles: map<Name, u32>)
      returns (r: Result<Cache<A, C, S>, VtpmError>)
      requires Lawful(env)
      modifies disk
      ensures !AllPersistent(handles) ==> r.Err? && r.error.InvalidHandleType? && disk.files == old(disk.files)
      ensures AllPersistent(handles) ==>
                (r.Err? <==> !AllNamed(env, old(disk.files))) && (r.Err? ==> r.error == OperationFailed)
      ensures OnlyUnusableGone(env, old(disk.files), disk.files)
      ensures r.Ok? && disk.reliable ==> forall h <- disk.files :: Cached(h) ==> h in r.value.contexts
      ensures r.Ok? && disk.reliable ==> forall h <- disk.files :: h / 0x100_0000 !in {0x02, 0x03}
      ensures r.Ok? ==> fresh(r.value) && r.value.env == env && r.value.disk == disk && r.value.dirty == {}
      ensures r.Ok? ==> Inv(env, r.value.Snapshot())
      ensures r.Ok? ==> r.value.contexts == LoadedContexts(env, old(disk.files), old(disk.files).Keys)
      ensures r.Ok? ==> CursorPast(r.value.contexts, r.value.next)
      ensures r.Ok? ==> Indexed(handles, r.value.Snapshot()) && Findable(r.value.Snapshot())
      ensures r.Ok? ==> (SuppliedAgree(r.value.Snapshot()) <==> SuppliedFits(handles, r.value.Snapshot()))
    {
      var checked := CheckPersistent(handles);
      if checked.Err? {
        return Err(checked.error);
      }
      var cache := new Cache<A, C, S>(env, disk, handles);
      var loaded := cache.Load();
      if loaded.Err? {
        return Err(loaded.error);
      }
      cache.Settle(handles);
      return Ok(cache);
    }

    static method CheckPersistent(handles: map<Name, u32>) returns (r: Result<(), VtpmError>)
      ensures r.Ok? <==> AllPersistent(handles)
      ensures r.Err? ==> exists n <- handles :: HandleType(handles[n]) != HT_PERSISTENT
                                                && r.error == InvalidHandleType(HandleType(handles[n]))
    {
      var todo := handles.Keys;
      while todo != {}
        invariant forall n <- handles | n !in todo :: HandleType(handles[n]) == HT_PERSISTENT
        invariant todo <= handles.Keys
        decreases |todo|
      {
        var n :| n in todo;
        if HandleType(handles[n]) != HT_PERSISTENT {
          return Err(InvalidHandleType(HandleType(handles[n])));
        }
        todo := todo - {n};
      }
      return Ok(());
    }

    /** The last step of opening. */
    method Settle(ghost supplied: map<Name, u32>)
      requires Inv(env, Snapshot()) && Indexed(supplied, Snapshot()) && next == TRANSIENT_START
      modifies this`next
      ensures Inv(env, Snapshot()) && CursorPast(contexts, next)
      ensures Indexed(supplied, Snapshot()) && Findable(Snapshot())
      ensures SuppliedAgree(Snapshot()) <==> SuppliedFits(supplied, Snapshot())
    {
      ghost var loaded := Snapshot();
      PlaceCursor();
      CursorMoves(env, loaded, next);
      IndexedSame(supplied, loaded, Snapshot());
      IndexedFinds(supplied, Snapshot());
    }

    method PlaceCursor()
      requires KeysInPlace(Snapshot()) && next == TRANSIENT_START
      modifies this`next
      ensures Snapshot() == old(Snapshot()).(next := next) && CursorPast(contexts, next)
    {
      if contexts.Keys == {} {
        return;
      }
      var max: u32 :| max in contexts;
      var todo := contexts.Keys - {max};
      while todo != {}
        invariant max in contexts && todo <= contexts.Keys
        invariant forall h <- contexts :: h in todo || h <= max
        decreases |todo|
      {
        var h :| h in todo;
        if h > max {
          max := h;
        }
        todo := todo - {h};
      }
      assert Cached(max);
      if max >= next {
        next := if max + 1 > TRANSIENT_END then TRANSIENT_START else max + 1;
      }
    }

    /** Goes through the directory in any order. */
    method Load() returns (r: Result<(), VtpmError>)
      requires Lawful(env) && Fresh(Snapshot())
      modifies this`contexts, this`names, this`handles, this`unreadable, disk
      ensures r.Err? ==> r.error == OperationFailed
      ensures r.Err? <==> !AllNamed(env, old(disk.files))
      ensures OnlyUnusableGone(env, old(disk.files), disk.files)
      ensures disk.reliable ==> unreadable == {}
      ensures r.Ok? && disk.reliable ==> forall h <- disk.files :: h / 0x100_0000 !in {0x02, 0x03}
      ensures dirty == {} && next == TRANSIENT_START
      ensures r.Ok? ==> Inv(env, Snapshot())
      ensures r.Ok? ==> contexts == LoadedContexts(env, old(disk.files), old(disk.files).Keys)
      ensures Indexed(old(handles), Snapshot())
    {
      ghost var files, now := disk.files, Snapshot();
      var todo := disk.files.Keys;
      LoadStarts(env, now);
      while todo != {}
        invariant now == Snapshot() && Loading(env, files, now, todo)
        invariant disk.reliable ==> unreadable == {}
        invariant disk.reliable ==> forall h <- disk.files | h !in todo :: h / 0x100_0000 !in {0x02, 0x03}
        invariant Indexed(old(handles), now)
        decreases |todo|
      {
        var h :| h in todo;
        var one := LoadOne(h);
        if one.Err? {
          return one;
        }
        LoadStep(env, files, now, Snapshot(), todo, h);
        LoadIndex(env, old(handles), now, Snapshot(), h);
        now := Snapshot();
        todo := todo - {h};
      }
      LoadEnds(env, files, now);
      return Ok(());
    }

    method LoadOne(h: u32) returns (r: Result<(), VtpmError>)
      requires h in disk.files
      modifies this`contexts, this`names, this`handles, this`unreadable, disk
      ensures dirty == old(dirty) && next == old(next)
      ensures r.Err? ==> r.error == OperationFailed && Snapshot() == old(Snapshot())
      ensures r.Err? <==> Cached(h) && !AllNamed(env, map[h := old(disk.files)[h]])
      ensures disk.reliable ==> unreadable == old(unreadable)
      ensures disk.reliable && h / 0x100_0000 in {0x02, 0x03} ==> h !in disk.files
      ensures r.Ok? ==> LoadedOne(env, old(Snapshot()), Snapshot(), h)
    {
      if Cached(h) {
        var key := env.load(disk.files[h], h);
        if key.Err? {
          var ok := disk.Delete(h);
          if !ok {
            unreadable := unreadable + {h};
          }
        } else {
          var name := env.name(key.value.public);
          if name.None? {
            return Err(OperationFailed);
          }
          contexts := contexts[h := key.value];
          PublishName(h, name.value);
        }
      } else if IsSession(h) {
        var ok := disk.Delete(h);
      }
      return Ok(());
    }

    // ----- ancestors -----

    /**
      The handles to load, root first, to make `target` available. Whichever parent
      is picked among several with the same public area, this ends if no way up from
      `target` goes round in a cycle.
     */
    method FetchAncestors(target: u32) returns (r: Result<seq<u32>, VtpmError>)
      requires Supplied(Snapshot(), target) || ClimbsEnd(env, Snapshot(), target)
      ensures 0x8100_0000 <= target <= 0x81FF_FFFF && target in handles.Values ==> r == Ok([target])
      ensures !Supplied(Snapshot(), target) && target !in contexts ==> r == Err(HandleNotFound(target))
      ensures r.Ok? ==> RootedPath(env, Snapshot(), r.value, target)
      ensures r.Err? && target in contexts ==>
                exists path :: Climb(env, Snapshot(), path, target) && Stuck(env, Snapshot(), path[0], r.error)
      ensures target in contexts && Resolvable(env, Snapshot(), target) ==> r.Ok?
      ensures OneParentEach(Snapshot()) ==>
                (r.Ok? <==> Supplied(Snapshot(), target)
                            || (target in contexts && Resolvable(env, Snapshot(), target)))
    {
      if HandleType(target) == HT_PERSISTENT && target in handles.Values {
        assert Supplied(Snapshot(), target);
        return Ok([target]);
      }
      if target !in contexts {
        return Err(HandleNotFound(target));
      }
      ClimbStarts(env, Snapshot(), target);
      var current, below := target, [];
      ghost var s := Snapshot();
      while true
        invariant current in contexts && Climb(env, s, [current] + below, target)
        invariant |below| < |contexts.Keys|
        decreases |contexts.Keys| - |below|
      {
        var key := contexts[current];
        if NullParent(env, key) {
          OneRootFound(env, s, [current] + below, target);
          return Ok([current] + below);
        }
        if parent :| parent in contexts && contexts[parent].public == key.parent {
          assert ParentCached(s, parent, current);
          PathGrows(env, s, parent, current, below);
          ClimbSize(env, s, [parent] + ([current] + below));
          below := [current] + below;
          current := parent;
        } else {
          assert forall p: u32 :: !ParentCached(s, p, current);
          var name := env.name(key.parent);
          if name.None? {
            assert Stuck(env, s, ([current] + below)[0], OperationFailed);
            return Err(OperationFailed);
          }
          if name.value !in handles {
            assert Stuck(env, s, ([current] + below)[0], ParentNotFound);
            return Err(ParentNotFound);
          }
          var root := handles[name.value];
          NamedRoot(env, s, root, [current] + below, target);
          OneRootFound(env, s, [current] + below, target);
          return Ok([root] + ([current] + below));
        }
      }
    }

    // ----- removal -----

    /** Takes one context out of the cache, once its file is gone. */
    method EvictOne(h: u32) returns (ok: bool)
      requires h in contexts
      modifies this, disk
      ensures ok ==> Snapshot() == Evict(old(Snapshot()), h) && contexts.Keys == old(contexts).Keys - {h}
      ensures !ok ==> Snapshot() == old(Snapshot())
      ensures disk.reliable ==> ok
    {
      ok := disk.Delete(h);
      if ok {
        contexts := contexts - {h};
        UnpublishName(h);
        dirty := dirty - {h};
      }
    }

    method IndexChildren() returns (r: Result<ChildIndex<A>, VtpmError>)
      ensures r.Ok? ==> Indexes(env, contexts, {}, r.value)
      ensures r.Err? ==> r.error.Marshal? && !Linkable(env, contexts)
    {
      var index: ChildIndex<A>, todo := map[], contexts.Keys;
      while todo != {}
        invariant todo <= contexts.Keys && Indexes(env, contexts, todo, index)
        decreases |todo|
      {
        var c :| c in todo;
        var b := env.link(contexts[c].parent);
        if b.Err? {
          return Err(Marshal(b.error));
        }
        IndexGrows(env, contexts, todo, index, c, b.value);
        var siblings := if b.value in index then index[b.value] else [];
        index := index[b.value := siblings + [(c, contexts[c].public)]];
        todo := todo - {c};
      }
      return Ok(index);
    }

    /** Evicts those of the listed children that are still cached. */
    method RemoveChildren(children: seq<Entry<A>>)
      returns (ok: bool, removed: seq<u32>, publics: seq<A>)
      modifies this, disk
      ensures Snapshot() == EvictAll(old(Snapshot()), removed)
      ensures EvictRun(old(Snapshot()), children, removed, publics)
      ensures ok ==> forall e <- children :: e.0 !in contexts
      ensures disk.reliable ==> ok
    {
      ghost var start := Snapshot();
      removed, publics := [], [];
      var i := 0;
      while i < |children|
        invariant i <= |children| && Snapshot() == EvictAll(start, removed)
        invariant EvictRun(start, children, removed, publics)
        invariant forall k | 0 <= k < i :: children[k].0 !in contexts
      {
        var child := children[i];
        if child.0 in contexts {
          var done := EvictOne(child.0);
          if !done {
            return false, removed, publics;
          }
          EvictAllOne(start, removed, child.0);
          EvictRunOne(start, children, removed, publics, child);
          removed, publics := removed + [child.0], publics + [child.1];
        }
        i := i + 1;
      }
      return true, removed, publics;
    }

    /**
      Removes a context and everything that descends from it, each once. When a
      deletion or marshalling fails, part of the subtree is gone and the rest is
      untouched.
     */
    method Remove(h: u32) returns (r: Result<seq<u32>, VtpmError>, ghost removed: seq<u32>)
      requires Inv(env, Snapshot())
      modifies this, disk
      ensures Inv(env, Snapshot()) && Snapshot() == EvictAll(old(Snapshot()), removed)
      ensures Partial(env, old(contexts), h, removed)
      ensures r.Ok? ==> r.value == removed
      ensures r.Ok? && h !in old(contexts) ==> removed == []
      ensures r.Ok? && h in old(contexts) ==> IsSubtree(env, old(contexts), h, removed)
      ensures r.Err? ==> if r.error == Io then !disk.reliable
                         else !Linkable(env, old(contexts)) && r.error.Marshal? && [h] <= removed
    {
      removed := [];
      if h !in contexts {
        return Ok([]), removed;
      }
      ghost var start := Snapshot();
      var first := contexts[h].public;
      var ok := EvictOne(h);
      if !ok {
        return Err(Io), removed;
      }
      RootEvicted(env, start, h);
      removed := [h];
      r, removed := RemoveSubtree(first, h, start);
      SubtreeMembers(env, start.contexts, h, removed);
      EvictAllKeeps(env, start, removed);
      if r.Ok? {
        r := Ok([h] + r.value);
      }
    }

    /** Works through the descendants of an evicted root, level by level. */
    method RemoveSubtree(first: A, ghost root: u32, ghost start: Store<A, C, S>)
      returns (r: Result<seq<u32>, VtpmError>, ghost removed: seq<u32>)
      requires root in start.contexts && first == start.contexts[root].public
      requires Snapshot() == EvictAll(start, [root])
      modifies this, disk
      ensures Snapshot() == EvictAll(start, removed) && Partial(env, start.contexts, root, removed)
      ensures r.Ok? ==> removed == [root] + r.value && IsSubtree(env, start.contexts, root, removed)
      ensures r.Err? ==> if r.error == Io then !disk.reliable else !Linkable(env, start.contexts) && r.error.Marshal?
      ensures [root] <= removed
    {
      removed := [root];
      SubtreeStarts(env, start, root);
      var built := IndexChildren();
      if built.Err? {
        return Err(built.error), removed;
      }
      r, removed := RemoveLevels(first, built.value, root, start);
    }

    method RemoveLevels(first: A, index: ChildIndex<A>, ghost root: u32, ghost start: Store<A, C, S>)
      returns (r: Result<seq<u32>, VtpmError>, ghost removed: seq<u32>)
      requires root in start.contexts && first == start.contexts[root].public
      requires Snapshot() == EvictAll(start, [root]) && Indexes(env, start.contexts - {root}, {}, index)
      modifies this, disk
      ensures Snapshot() == EvictAll(start, removed) && Partial(env, start.contexts, root, removed)
      ensures r.Ok? ==> removed == [root] + r.value && IsSubtree(env, start.contexts, root, removed)
      ensures r.Err? ==> if r.error == Io then !disk.reliable else !Linkable(env, start.contexts) && r.error.Marshal?
      ensures [root] <= removed
    {
      SubtreeStarts(env, start, root);
      var queue, deleted := [first], [];
      ghost var pending := [root];
      removed := [root];
      while queue != []
        invariant Snapshot() == EvictAll(start, removed) && removed == [root] + deleted
        invariant Awaiting(env, start, root, removed, pending, queue)
        invariant ParentsFirst(env, start.contexts, root, removed)
        decreases |contexts.Keys| + |queue|
      {
        var failed: Option<VtpmError>;
        HeadLinkable(env, start, root, removed, pending, queue);
        failed, queue, deleted, removed, pending := RemoveRound(queue, deleted, index, root, start, removed, pending);
        if failed.Some? {
          return Err(failed.value), removed;
        }
      }
      WholeSubtree(env, start.contexts, root, removed);
      return Ok(deleted), removed;
    }

    /** One round: evicts the cached children of the parent at the head of the worklist and queues them. */
    method RemoveRound(
      queue: seq<A>, deleted: seq<u32>, index: ChildIndex<A>, ghost root: u32, ghost start: Store<A, C, S>,
      ghost removed: seq<u32>, ghost pending: seq<u32>)
      returns (failed: Option<VtpmError>, longer: seq<A>, gone: seq<u32>, ghost evicted: seq<u32>, ghost left: seq<u32>)
      requires Snapshot() == EvictAll(start, removed) && removed == [root] + deleted
      requires Indexes(env, start.contexts - {root}, {}, index)
      requires queue != [] && Awaiting(env, start, root, removed, pending, queue)
      requires ParentsFirst(env, start.contexts, root, removed)
      modifies this, disk
      ensures Snapshot() == EvictAll(start, evicted) && Partial(env, start.contexts, root, evicted)
      ensures evicted == [root] + gone
      ensures failed.None? ==> Awaiting(env, start, root, evicted, left, longer)
      ensures failed.None? ==> |contexts.Keys| + |longer| < |old(contexts).Keys| + |queue|
      ensures failed.Some? ==> if failed.value == Io then !disk.reliable
                               else failed.value.Marshal? && env.link(queue[0]).Err?
    {
      longer, gone, evicted, left := queue, deleted, removed, pending;
      var b := env.link(queue[0]);
      if b.Err? {
        return Some(Marshal(b.error)), longer, gone, evicted, left;
      }
      var children := if b.value in index then index[b.value] else [];
      var ok, list, publics := RemoveChildren(children);
      RoundStops(env, start, root, removed, pending, queue, index, b.value, children, list, publics);
      gone, evicted := deleted + list, removed + list;
      Associate([root], deleted, list);
      if !ok {
        return Some(Io), longer, gone, evicted, left;
      }
      RoundEnds(env, start, root, removed, pending, queue, index, b.value, children, list, publics);
      longer, left := queue[1..] + publics, pending[1..] + list;
      failed := None;
    }
  }

  /** Every cached key's public areas can be marshalled. */
  ghost predicate Linkable<A, C, S>(env: Env<A, C, S>, contexts: map<u32, Key<A, C, S>>) {
    forall c <- contexts :: env.link(contexts[c].public).Ok? && env.link(contexts[c].parent).Ok?
  }

  lemma HeadLinkable<A, C, S>(
      env: Env<A, C, S>, start: Store<A, C, S>, root: u32, removed: seq<u32>, pending: seq<u32>, queue: seq<A>)
    requires queue != [] && Awaiting(env, start, root, removed, pending, queue)
    ensures Linkable(env, start.contexts) ==> env.link(queue[0]).Ok?
  {
    HeadPending(start.contexts, pending);
  }

  /** All children of `x` are in the set. */
  ghost predicate Settled<A, C, S>(env: Env<A, C, S>, contexts: map<u32, Key<A, C, S>>, x: u32, removed: set<u32>) {
    forall c: u32 | Child(env, contexts, x, c) :: c in removed
  }

  /**
    Where the worklist stands: everything evicted descends from the root, and what
    is no longer pending has all its children evicted.
   */
  ghost predicate Progress<A, C, S>(env: Env<A, C, S>, contexts: map<u32, Key<A, C, S>>, root: u32, removed: set<u32>,
      pending: set<u32>) {
    && root in removed && (forall x <- pending :: x in removed)
    && (forall x <- removed :: Descends(env, contexts, root, x) && (x in pending || Settled(env, contexts, x, removed)))
  }

  /** Part of a subtree, or all of it, each key once, the root first and the others behind a parent. */
  ghost predicate Partial<A, C, S>(env: Env<A, C, S>, contexts: map<u32, Key<A, C, S>>, root: u32, removed: seq<u32>) {
    && Distinct(removed) && (forall x <- Members(removed) :: Descends(env, contexts, root, x))
    && ParentsFirst(env, contexts, root, removed)
  }

  ghost predicate ParentsFirst<A, C, S>(env: Env<A, C, S>, contexts: map<u32, Key<A, C, S>>, root: u32, hs: seq<u32>) {
    hs != [] ==>
      var front, last := hs[..|hs| - 1], hs[|hs| - 1];
      && ParentsFirst(env, contexts, root, front)
      && if front == [] then last == root else exists p <- Members(front) :: Child(env, contexts, p, last)
  }

  lemma {:induction false} ChildrenFollow<A, C, S>(
      env: Env<A, C, S>, contexts: map<u32, Key<A, C, S>>, root: u32, head: u32, hs: seq<u32>, gone: seq<u32>)
    requires ParentsFirst(env, contexts, root, hs) && head in Members(hs)
    requires forall x <- Members(gone) :: Child(env, contexts, head, x)
    ensures ParentsFirst(env, contexts, root, hs + gone)
  {
    if gone == [] {
      assert hs + gone == hs;
    } else {
      var front := gone[..|gone| - 1];
      ChildrenFollow(env, contexts, root, head, hs, front);
      assert (hs + gone)[..|hs + gone| - 1] == hs + front;
      MembersJoin(hs, front);
    }
  }

  ghost predicate Working<A, C, S>(env: Env<A, C, S>, contexts: map<u32, Key<A, C, S>>, root: u32, removed: seq<u32>,
      pending: seq<u32>) {
    Distinct(removed) && Progress(env, contexts, root, Members(removed), Members(pending))
  }

  /** The worklist holds the public areas of the pending keys. */
  ghost predicate Awaiting<A, C, S>(
    env: Env<A, C, S>, start: Store<A, C, S>, root: u32, removed: seq<u32>, pending: seq<u32>, queue: seq<A>)
  {
    && Members(pending) <= start.contexts.Keys && queue == PublicsOf(start.contexts, pending)
    && Working(env, start.contexts, root, removed, pending)
  }

  lemma ProgressStep<A, C, S>(
      env: Env<A, C, S>, contexts: map<u32, Key<A, C, S>>, root: u32, removed: set<u32>, pending: set<u32>, head: u32,
      gone: set<u32>, left: set<u32>)
    requires Progress(env, contexts, root, removed, pending)
    requires forall x <- gone :: Descends(env, contexts, root, x)
    requires Settled(env, contexts, head, removed + gone)
    requires forall x :: x in gone || (x in pending && x != head) ==> x in left
    requires forall x <- left :: x in removed || x in gone
    ensures Progress(env, contexts, root, removed + gone, left)
  {
    forall x <- removed + gone
      ensures x in left || Settled(env, contexts, x, removed + gone)
    {
      if x != head && x !in left {
        assert Settled(env, contexts, x, removed);
      }
    }
  }

  function PublicsOf<A, C, S>(contexts: map<u32, Key<A, C, S>>, hs: seq<u32>): (r: seq<A>)
    requires Members(hs) <= contexts.Keys
    ensures |r| == |hs|
  {
    if hs == [] then [] else PublicsOf(contexts, hs[..|hs| - 1]) + [contexts[hs[|hs| - 1]].public]
  }

  lemma {:induction false} PublicsJoin<A, C, S>(contexts: map<u32, Key<A, C, S>>, a: seq<u32>, b: seq<u32>)
    requires Members(a) <= contexts.Keys && Members(b) <= contexts.Keys
    ensures Members(a + b) == Members(a) + Members(b)
    ensures PublicsOf(contexts, a + b) == PublicsOf(contexts, a) + PublicsOf(contexts, b)
  {
    MembersJoin(a, b);
    if b == [] {
      assert a + b == a;
    } else {
      var front := b[..|b| - 1];
      PublicsJoin(contexts, a, front);
      assert (a + b)[..|a + b| - 1] == a + front;
    }
  }

  lemma HeadPending<A, C, S>(contexts: map<u32, Key<A, C, S>>, pending: seq<u32>)
    requires pending != [] && Members(pending) <= contexts.Keys
    ensures Members(pending) == {pending[0]} + Members(pending[1..])
    ensures PublicsOf(contexts, pending)[0] == contexts[pending[0]].public
    ensures PublicsOf(contexts, pending)[1..] == PublicsOf(contexts, pending[1..])
  {
    var head, tail := [pending[0]], pending[1..];
    assert head + tail == pending && Members(head) == {pending[0]};
    MembersJoin(head, tail);
    PublicsJoin(contexts, head, tail);
    assert PublicsOf(contexts, head) == [contexts[pending[0]].public];
  }

  lemma {:induction false} EvictAllAppend<A, C, S>(s: Store<A, C, S>, a: seq<u32>, b: seq<u32>)
    ensures EvictAll(EvictAll(s, a), b) == EvictAll(s, a + b)
  {
    if b == [] {
      assert a + b == a;
    } else {
      var front := b[..|b| - 1];
      EvictAllAppend(s, a, front);
      assert (a + b)[..|a + b| - 1] == a + front;
    }
  }

  /** Going through `children`, the listed ones were found cached and evicted in turn. */
  ghost predicate EvictRun<A, C, S>(
    s: Store<A, C, S>, children: seq<Entry<A>>, removed: seq<u32>, publics: seq<A>)
  {
    && |publics| == |removed|
    && (removed != [] ==>
          var n := |removed| - 1;
          && EvictRun(s, children, removed[..n], publics[..n])
          && removed[n] in EvictAll(s, removed[..n]).contexts && (removed[n], publics[n]) in children)
  }

  lemma EvictRunOne<A, C, S>(
      s: Store<A, C, S>, children: seq<Entry<A>>, removed: seq<u32>, publics: seq<A>,
      child: Entry<A>)
    requires EvictRun(s, children, removed, publics)
    requires child in children && child.0 in EvictAll(s, removed).contexts
    ensures EvictRun(s, children, removed + [child.0], publics + [child.1])
  {
    assert (removed + [child.0])[..|removed|] == removed && (publics + [child.1])[..|removed|] == publics;
  }

  lemma {:induction false} EvictRunFacts<A, C, S>(
      s: Store<A, C, S>, children: seq<Entry<A>>, removed: seq<u32>, publics: seq<A>)
    requires EvictRun(s, children, removed, publics)
    ensures Distinct(removed) && Members(removed) <= s.contexts.Keys
    ensures |EvictAll(s, removed).contexts.Keys| + |removed| == |s.contexts.Keys|
  {
    if removed != [] {
      var n := |removed| - 1;
      var front := EvictAll(s, removed[..n]);
      EvictRunFacts(s, children, removed[..n], publics[..n]);
      EvictAllShape(s, removed[..n]);
      EvictShape(front, removed[n]);
      assert (front.contexts - {removed[n]}).Keys == front.contexts.Keys - {removed[n]};
    }
  }

  lemma RootEvicted<A, C, S>(env: Env<A, C, S>, start: Store<A, C, S>, root: u32)
    requires root in start.contexts
    ensures EvictAll(start, [root]) == Evict(start, root) && Partial(env, start.contexts, root, [root])
  {
    assert EvictAll(start, []) == start && [root][..0] == [];
    DescendsSelf(env, start.contexts, root);
  }

  lemma SubtreeStarts<A, C, S>(env: Env<A, C, S>, start: Store<A, C, S>, root: u32)
    requires root in start.contexts
    ensures EvictAll(start, [root]).contexts == start.contexts - {root}
    ensures Members([root]) == {root} && Distinct([root])
    ensures PublicsOf(start.contexts, [root]) == [start.contexts[root].public]
    ensures Progress(env, start.contexts, root, {root}, {root})
  {
    EvictAllShape(start, [root]);
    DescendsSelf(env, start.contexts, root);
  }

  /**
    Entries filed under a key's public area are its children, so what is evicted
    through them descends from the root.
   */
  lemma {:induction false} GoneDescend<A, C, S>(
      env: Env<A, C, S>, contexts: map<u32, Key<A, C, S>>, root: u32, head: u32, children: seq<Entry<A>>, b: seq<byte>,
      now: Store<A, C, S>, gone: seq<u32>, publics: seq<A>)
    requires AllEntries(env, contexts - {root}, b, children) && EvictRun(now, children, gone, publics)
    requires head in contexts && env.link(contexts[head].public) == Ok(b) && Descends(env, contexts, root, head)
    ensures Members(gone) <= contexts.Keys && publics == PublicsOf(contexts, gone)
    ensures forall x <- Members(gone) :: Descends(env, contexts, root, x) && Child(env, contexts, head, x)
  {
    if gone != [] {
      var n := |gone| - 1;
      GoneDescend(env, contexts, root, head, children, b, now, gone[..n], publics[..n]);
      EntryDescends(env, contexts, root, head, children, b, (gone[n], publics[n]));
      assert publics == publics[..n] + [publics[n]];
    }
  }

  lemma EntryDescends<A, C, S>(
      env: Env<A, C, S>, contexts: map<u32, Key<A, C, S>>, root: u32, head: u32,
      children: seq<Entry<A>>, b: seq<byte>, e: Entry<A>)
    requires AllEntries(env, contexts - {root}, b, children) && e in children
    requires head in contexts && env.link(contexts[head].public) == Ok(b) && Descends(env, contexts, root, head)
    ensures e.0 in contexts && e.1 == contexts[e.0].public && Descends(env, contexts, root, e.0)
    ensures Child(env, contexts, head, e.0)
  {
    EntryAmong(env, contexts - {root}, b, children, e);
    assert Child(env, contexts, head, e.0);
    DescendsChild(env, contexts, root, head, e.0);
  }

  lemma {:induction false} DistinctJoin(a: seq<u32>, b: seq<u32>)
    requires Distinct(a) && Distinct(b) && Members(a) !! Members(b)
    ensures Distinct(a + b)
  {
    if b == [] {
      assert a + b == a;
    } else {
      var front := b[..|b| - 1];
      DistinctJoin(a, front);
      MembersJoin(a, front);
      assert a + b == a + front + [b[|b| - 1]];
      MembersAppend(a + front, b[|b| - 1]);
    }
  }

  /** What one round of the worklist evicts was not evicted before, and the cache shrinks by as much. */
  lemma RoundShrinks<A, C, S>(start: Store<A, C, S>, removed: seq<u32>, children: seq<Entry<A>>, gone: seq<u32>,
      publics: seq<A>)
    requires Distinct(removed) && EvictRun(EvictAll(start, removed), children, gone, publics)
    ensures Distinct(removed + gone) && |publics| == |gone|
    ensures Members(removed + gone) == Members(removed) + Members(gone)
    ensures EvictAll(EvictAll(start, removed), gone) == EvictAll(start, removed + gone)
    ensures |EvictAll(start, removed + gone).contexts.Keys| + |gone| == |EvictAll(start, removed).contexts.Keys|
  {
    EvictAllAppend(start, removed, gone);
    EvictRunFacts(EvictAll(start, removed), children, gone, publics);
    EvictAllShape(start, removed);
    MembersJoin(removed, gone);
    DistinctJoin(removed, gone);
  }

  lemma RoundStops<A, C, S>(
      env: Env<A, C, S>, start: Store<A, C, S>, root: u32, removed: seq<u32>, pending: seq<u32>, queue: seq<A>,
      index: ChildIndex<A>, b: seq<byte>, children: seq<Entry<A>>, gone: seq<u32>, publics: seq<A>)
    requires Indexes(env, start.contexts - {root}, {}, index)
    requires queue != [] && Awaiting(env, start, root, removed, pending, queue) && env.link(queue[0]) == Ok(b)
    requires children == if b in index then index[b] else []
    requires EvictRun(EvictAll(start, removed), children, gone, publics)
    requires ParentsFirst(env, start.contexts, root, removed)
    ensures Members(gone) <= start.contexts.Keys && publics == PublicsOf(start.contexts, gone)
    ensures EvictAll(EvictAll(start, removed), gone) == EvictAll(start, removed + gone)
    ensures Partial(env, start.contexts, root, removed + gone)
  {
    HeadPending(start.contexts, pending);
    RoundShrinks(start, removed, children, gone, publics);
    GoneDescend(env, start.contexts, root, pending[0], children, b, EvictAll(start, removed), gone, publics);
    ChildrenFollow(env, start.contexts, root, pending[0], removed, gone);
    forall x <- Members(removed + gone)
      ensures Descends(env, start.contexts, root, x)
    {
    }
  }

  /** After a round, the head of the worklist has no child left. */
  lemma RoundEnds<A, C, S>(
      env: Env<A, C, S>, start: Store<A, C, S>, root: u32, removed: seq<u32>, pending: seq<u32>, queue: seq<A>,
      index: ChildIndex<A>, b: seq<byte>, children: seq<Entry<A>>, gone: seq<u32>, publics: seq<A>)
    requires Indexes(env, start.contexts - {root}, {}, index)
    requires queue != [] && Awaiting(env, start, root, removed, pending, queue) && env.link(queue[0]) == Ok(b)
    requires children == if b in index then index[b] else []
    requires EvictRun(EvictAll(start, removed), children, gone, publics)
    requires Members(gone) <= start.contexts.Keys && publics == PublicsOf(start.contexts, gone)
    requires Partial(env, start.contexts, root, removed + gone)
    requires forall e <- children :: e.0 !in EvictAll(start, removed + gone).contexts
    ensures pending != [] && Awaiting(env, start, root, removed + gone, pending[1..] + gone, queue[1..] + publics)
    ensures |EvictAll(start, removed + gone).contexts.Keys| + |publics| == |EvictAll(start, removed).contexts.Keys|
  {
    RoundShrinks(start, removed, children, gone, publics);
    HeadPending(start.contexts, pending);
    PublicsJoin(start.contexts, pending[1..], gone);
    EvictAllShape(start, removed + gone);
    HeadSettled(env, start.contexts, root, Members(removed + gone), pending[0], index, b);
    ProgressStep(env, start.contexts, root, Members(removed), Members(pending), pending[0], Members(gone),
                 Members(pending[1..] + gone));
  }

  /** A processed key has no child left in the cache. */
  lemma HeadSettled<A, C, S>(
      env: Env<A, C, S>, contexts: map<u32, Key<A, C, S>>, root: u32, removed: set<u32>, head: u32,
      index: ChildIndex<A>, b: seq<byte>)
    requires Indexes(env, contexts - {root}, {}, index) && root in removed
    requires head in contexts && env.link(contexts[head].public) == Ok(b)
    requires b in index ==> forall e <- index[b] :: e.0 !in contexts.Keys - removed
    ensures Settled(env, contexts, head, removed)
  {
    forall c: u32 | Child(env, contexts, head, c)
      ensures c in removed
    {
      if c != root {
        assert c in contexts - {root};
        assert Filed(env, contexts - {root}, index, c);
        assert (c, contexts[c].public) in index[b];
      }
    }
  }

  lemma WholeSubtree<A, C, S>(env: Env<A, C, S>, contexts: map<u32, Key<A, C, S>>, root: u32, removed: seq<u32>)
    requires removed != [] && removed[0] == root && Working(env, contexts, root, removed, [])
    ensures IsSubtree(env, contexts, root, removed)
  {
    forall p: u32, c: u32 | p in Members(removed) && Child(env, contexts, p, c)
      ensures c in Members(removed)
    {
      assert Settled(env, contexts, p, Members(removed));
    }
    forall h: u32 | Descends(env, contexts, root, h)
      ensures h in Members(removed)
    {
      ClosedHoldsDescendants(env, contexts, Members(removed), root, h);
    }
  }

  lemma SubtreeMembers<A, C, S>(env: Env<A, C, S>, contexts: map<u32, Key<A, C, S>>, root: u32, removed: seq<u32>)
    requires Partial(env, contexts, root, removed)
    ensures Members(removed) <= contexts.Keys
  {
    forall x <- Members(removed)
      ensures x in contexts
    {
      var path :| DescentPath(env, contexts, path) && path[0] == root && path[|path| - 1] == x;
      assert |path| > 1 ==> Child(env, contexts, path[|path| - 2], path[|path| - 1]);
    }
  }

  lemma ClimbStarts<A, C, S>(env: Env<A, C, S>, s: Store<A, C, S>, target: u32)
    requires target in s.contexts
    ensures Climb(env, s, [target], target) && [target] + [] == [target] && |s.contexts.Keys| > 0
  {
  }

  lemma PathGrows<A, C, S>(env: Env<A, C, S>, s: Store<A, C, S>, parent: u32, current: u32, below: seq<u32>)
    requires CachedPath(env, s, [current] + below)
    requires ParentCached(s, parent, current) && !NullParent(env, s.contexts[current])
    ensures CachedPath(env, s, [parent] + ([current] + below))
  {
    var path, longer := [current] + below, [parent] + ([current] + below);
    forall i | 0 < i < |longer|
      ensures ParentCached(s, longer[i - 1], longer[i]) && !NullParent(env, s.contexts[longer[i]])
    {
      if i > 1 {
        assert ParentCached(s, path[i - 2], path[i - 1]);
      }
    }
  }

  lemma NamedRoot<A, C, S>(env: Env<A, C, S>, s: Store<A, C, S>, root: u32, path: seq<u32>, target: u32)
    requires CachedPath(env, s, path) && path[|path| - 1] == target && NamedParent(env, s, root, path[0])
    ensures RootedPath(env, s, [root] + path, target)
  {
    assert ([root] + path)[1..] == path;
  }

  lemma IndexGrows<A, C, S>(env: Env<A, C, S>, contexts: map<u32, Key<A, C, S>>, todo: set<u32>, index: ChildIndex<A>,
      c: u32, b: seq<byte>)
    requires Indexes(env, contexts, todo, index) && c in contexts && env.link(contexts[c].parent) == Ok(b)
    ensures var siblings := if b in index then index[b] else [];
            Indexes(env, contexts, todo - {c}, index[b := siblings + [(c, contexts[c].public)]])
  {
    var siblings := if b in index then index[b] else [];
    var entries := siblings + [(c, contexts[c].public)];
    var grown := index[b := entries];
    assert entries[..|siblings|] == siblings;
    assert AllEntries(env, contexts, b, siblings) && AllEntries(env, contexts, b, entries);
    forall x <- contexts | x !in todo - {c}
      ensures Filed(env, contexts, grown, x)
    {
      if x != c {
        assert Filed(env, contexts, index, x);
      } else {
        assert entries[|siblings|] == (c, contexts[c].public);
      }
    }
  }
}
