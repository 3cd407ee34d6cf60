/**
  The state of the key cache together with its directory, what each operation
  does to it, and the invariant that every operation keeps.
 */
module VtpmStore {
  import opened Wrappers
  import opened Bytes
  import opened WireSchema
  import opened WireTypes
  import opened VtpmPolicyList

  const TRANSIENT_START: u32 := 0x8000_0000
  const TRANSIENT_END: u32 := 0x80FF_FFFF
  const TRANSIENT_COUNT: nat := 0x0100_0000

  const VERSION: u32 := 2

  /** A cached key: public areas of type A, a saved context of type C, policy steps of type S. */
  datatype Key<A, C, S> = Key(version: u32, handle: u32, public: A, parent: A, context: C, policy: seq<S>)

  /** What the cache uses of keys: their names, their marshalled public areas and their records. */
  datatype Env<!A, !C, !S> = Env(
    name: A -> Option<Name>,
    isNull: A -> bool,
    noContext: C,
    link: A -> Result<seq<byte>, TpmError>,
    record: Key<A, C, S> -> Result<seq<byte>, VtpmError>,
    load: (seq<byte>, u32) -> Result<Key<A, C, S>, VtpmError>)

  /**
    `files` holds the directory, by handle. `unreadable` lists the records that
    failed to load and could not be removed either.
   */
  datatype Store<A, C, S> = Store(
    contexts: map<u32, Key<A, C, S>>,
    handles: map<Name, u32>,
    names: map<u32, Name>,
    dirty: set<u32>,
    next: u32,
    files: map<u32, seq<byte>>,
    unreadable: set<u32>)

  /** Handles that the cache keeps records for. */
  predicate Cached(h: u32) {
    HandleType(h) == HT_TRANSIENT || HandleType(h) == HT_PERSISTENT
  }

  predicate InRange(h: u32) {
    TRANSIENT_START <= h <= TRANSIENT_END
  }

  // ----- transitions -----

  function Unpublish<A, C, S>(s: Store<A, C, S>, h: u32): Store<A, C, S> {
    if h !in s.names then s
    else
      var n := s.names[h];
      s.(names := s.names - {h},
         handles := if n in s.handles && s.handles[n] == h then s.handles - {n} else s.handles)
  }

  function Publish<A, C, S>(s: Store<A, C, S>, h: u32, n: Name): Store<A, C, S> {
    var u := Unpublish(s, h);
    u.(handles := u.handles[n := h], names := u.names[h := n])
  }

  /** A key enters the cache under its own handle and name, to be written later. */
  function Insert<A, C, S>(s: Store<A, C, S>, k: Key<A, C, S>, n: Name): Store<A, C, S> {
    var p := Publish(s.(contexts := s.contexts[k.handle := k]), k.handle, n);
    p.(dirty := p.dirty + {k.handle})
  }

  /** A key leaves the cache: context, mark, name and file. */
  function Evict<A, C, S>(s: Store<A, C, S>, h: u32): Store<A, C, S> {
    var u := Unpublish(s.(contexts := s.contexts - {h}, files := s.files - {h}), h);
    u.(dirty := u.dirty - {h})
  }

  function EvictAll<A, C, S>(s: Store<A, C, S>, hs: seq<u32>): Store<A, C, S> {
    if hs == [] then s else Evict(EvictAll(s, hs[..|hs| - 1]), hs[|hs| - 1])
  }

  lemma EvictAllOne<A, C, S>(s: Store<A, C, S>, hs: seq<u32>, h: u32)
    ensures EvictAll(s, hs + [h]) == Evict(EvictAll(s, hs), h)
  {
    assert (hs + [h])[..|hs|] == hs;
  }

  /** A dirty key is written out. */
  function WriteOut<A, C, S>(s: Store<A, C, S>, h: u32, bytes: seq<byte>): Store<A, C, S> {
    s.(files := s.files[h := bytes], dirty := s.dirty - {h})
  }

  // ----- the handle allocator -----

  function After(h: u32): u32
    requires InRange(h)
  {
    if h + 1 > TRANSIENT_END then TRANSIENT_START else h + 1
  }

  /** The `i`-th slot from the cursor, in circular order. */
  function Slot(next: u32, i: nat): (h: u32)
    requires InRange(next) && i < TRANSIENT_COUNT
    ensures InRange(h)
  {
    var h := next + i;
    if h > TRANSIENT_END then TRANSIENT_START + (h - TRANSIENT_END - 1) else h
  }

  /** The first slot from the `i`-th on that holds no context. */
  function FreeSlot<A, C, S>(contexts: map<u32, Key<A, C, S>>, next: u32, i: nat): (r: Option<u32>)
    requires InRange(next) && i <= TRANSIENT_COUNT
    ensures r.Some? ==> InRange(r.value) && r.value !in contexts
    decreases TRANSIENT_COUNT - i
  {
    if i == TRANSIENT_COUNT then None
    else if Slot(next, i) !in contexts then Some(Slot(next, i))
    else FreeSlot(contexts, next, i + 1)
  }

  /** The distance of a slot from the cursor. */
  function Distance(next: u32, h: u32): (i: nat)
    requires InRange(next) && InRange(h)
    ensures i < TRANSIENT_COUNT && Slot(next, i) == h
  {
    if h >= next then h - next else h + TRANSIENT_COUNT - next
  }

  /** The slot found is the nearest free one; none is found exactly when all are taken. */
  lemma {:induction false} FreeSlotNearest<A, C, S>(contexts: map<u32, Key<A, C, S>>, next: u32, i: nat)
    requires InRange(next) && i <= TRANSIENT_COUNT
    ensures var r := FreeSlot(contexts, next, i);
            forall h: u32 | InRange(h) && h !in contexts && Distance(next, h) >= i ::
              r.Some? && Distance(next, r.value) <= Distance(next, h)
    ensures var r := FreeSlot(contexts, next, i); r.Some? ==> Distance(next, r.value) >= i
    decreases TRANSIENT_COUNT - i
  {
    if i < TRANSIENT_COUNT {
      var slot := Slot(next, i);
      assert Distance(next, slot) == i;
      FreeSlotNearest(contexts, next, i + 1);
      forall h: u32 | InRange(h) && h !in contexts && Distance(next, h) >= i
        ensures var r := FreeSlot(contexts, next, i); r.Some? && Distance(next, r.value) <= Distance(next, h)
      {
        if Distance(next, h) == i {
          assert h == slot;
        }
      }
    }
  }

  /** `save_transient` reports NoHandles exactly when every transient slot is taken. */
  lemma NoFreeSlot<A, C, S>(contexts: map<u32, Key<A, C, S>>, next: u32)
    requires InRange(next)
    ensures FreeSlot(contexts, next, 0).None? <==> forall h: u32 :: InRange(h) ==> h in contexts
  {
    FreeSlotNearest(contexts, next, 0);
    if FreeSlot(contexts, next, 0).None? {
      forall h: u32 | InRange(h)
        ensures h in contexts
      {
        var i := Distance(next, h);
      }
    }
  }

  // ----- the two saving operations -----

  datatype Outcome<T, A, C, S> = Outcome(result: Result<T, VtpmError>, store: Store<A, C, S>)

  function SaveTransient<A, C, S>(
    env: Env<A, C, S>, s: Store<A, C, S>, context: C, public: A, parent: A, policy: seq<S>)
    : Outcome<u32, A, C, S>
    requires InRange(s.next)
  {
    match FreeSlot(s.contexts, s.next, 0)
    case None => Outcome(Err(NoHandles), s)
    case Some(h) =>
      match env.name(public)
      case None => Outcome(Err(OperationFailed), s)
      case Some(n) =>
        Outcome(Ok(h), Insert(s, Key(VERSION, h, public, parent, context, policy), n).(next := After(h)))
  }

  function SavePersistent<A, C, S>(
    env: Env<A, C, S>, s: Store<A, C, S>, h: u32, public: A, parent: A, policy: seq<S>): Outcome<(), A, C, S>
  {
    if HandleType(h) != HT_PERSISTENT then Outcome(Err(InvalidHandleType(HandleType(h))), s)
    else
      match env.name(public)
      case None => Outcome(Err(OperationFailed), s)
      case Some(n) => Outcome(Ok(()), Insert(s, Key(VERSION, h, public, parent, env.noContext, policy), n))
  }

  // ----- what saving must have done -----

  /**
    `k` is cached under its handle, to be written, and its name `n` leads to it. The name the
    handle had before leads to it no more; every other context, name, mark and file is as before.
   */
  ghost predicate Saved<A, C, S>(s: Store<A, C, S>, t: Store<A, C, S>, k: Key<A, C, S>, n: Name) {
    && t.contexts == s.contexts[k.handle := k]
    && t.names == s.names[k.handle := n]
    && t.dirty == s.dirty + {k.handle}
    && t.files == s.files && t.unreadable == s.unreadable
    && n in t.handles && t.handles[n] == k.handle
    && forall m: Name | m != n ::
         && (m in t.handles <==> m in s.handles
                                 && !(k.handle in s.names && s.names[k.handle] == m && s.handles[m] == k.handle))
         && (m in t.handles ==> t.handles[m] == s.handles[m])
  }

  lemma InsertSaved<A, C, S>(s: Store<A, C, S>, k: Key<A, C, S>, n: Name)
    ensures Saved(s, Insert(s, k, n), k, n) && Insert(s, k, n).next == s.next
  {
    assert Insert(s, k, n).names == s.names[k.handle := n];
  }

  /** How many steps round the transient range `h` is from the cursor. */
  function StepsFrom(next: u32, h: u32): nat {
    (h - next) % 0x100_0000
  }

  /** No slot is both free and nearer to the cursor than `h`, which is free. */
  ghost predicate NearestFree<A, C, S>(contexts: map<u32, Key<A, C, S>>, next: u32, h: u32) {
    && 0x8000_0000 <= h <= 0x80FF_FFFF && h !in contexts
    && forall x: u32 | 0x8000_0000 <= x <= 0x80FF_FFFF && x !in contexts :: StepsFrom(next, h) <= StepsFrom(next, x)
  }

  lemma FreeSlotIsNearest<A, C, S>(contexts: map<u32, Key<A, C, S>>, next: u32)
    requires InRange(next)
    ensures FreeSlot(contexts, next, 0).None?
            <==> forall h: u32 :: 0x8000_0000 <= h <= 0x80FF_FFFF ==> h in contexts
    ensures FreeSlot(contexts, next, 0).Some? ==> NearestFree(contexts, next, FreeSlot(contexts, next, 0).value)
  {
    NoFreeSlot(contexts, next);
    FreeSlotNearest(contexts, next, 0);
    forall h: u32 | InRange(h)
      ensures StepsFrom(next, h) == Distance(next, h)
    {
    }
  }

  // ----- the invariant -----

  /** The reverse index has exactly the live contexts as keys, with their computed names. */
  ghost predicate NamesLive<A, C, S>(env: Env<A, C, S>, s: Store<A, C, S>) {
    s.names.Keys == s.contexts.Keys && forall h <- s.contexts :: env.name(s.contexts[h].public) == Some(s.names[h])
  }

  /** Contexts sit under their own handles. */
  ghost predicate KeysInPlace<A, C, S>(s: Store<A, C, S>) {
    forall h <- s.contexts :: Cached(h) && s.contexts[h].handle == h && s.contexts[h].version == VERSION
  }

  /**
    A name that leads to a transient handle leads to a live context that published
    it, and so does every name of a live context, if it leads anywhere.
   */
  ghost predicate IndexLive<A, C, S>(s: Store<A, C, S>) {
    && (forall n <- s.handles ::
          && Cached(s.handles[n])
          && (HandleType(s.handles[n]) == HT_TRANSIENT ==> Published(s, n)))
    && forall h <- s.names :: s.names[h] in s.handles ==> Published(s, s.names[h])
  }

  /** The name leads to a live context of that name. */
  predicate Published<A, C, S>(s: Store<A, C, S>, n: Name) {
    n in s.handles && s.handles[n] in s.names && s.names[s.handles[n]] == n
  }

  /** Every context not marked dirty has its exact record on disk. */
  ghost predicate CleanOnDisk<A, C, S>(env: Env<A, C, S>, s: Store<A, C, S>) {
    forall h <- s.contexts :: h !in s.dirty ==> h in s.files && env.record(s.contexts[h]) == Ok(s.files[h])
  }

  /** Every record without a context failed to load and could not be removed. */
  ghost predicate NoStrayRecords<A, C, S>(env: Env<A, C, S>, s: Store<A, C, S>) {
    forall h <- s.files :: Cached(h) && h !in s.contexts ==> h in s.unreadable && env.load(s.files[h], h).Err?
  }

  ghost predicate Inv<A, C, S>(env: Env<A, C, S>, s: Store<A, C, S>) {
    && NamesLive(env, s) && KeysInPlace(s) && IndexLive(s) && CleanOnDisk(env, s) && NoStrayRecords(env, s)
    && InRange(s.next)
  }

  /** Entries for persistent handles agree with the contexts cached under them. */
  ghost predicate SuppliedAgree<A, C, S>(s: Store<A, C, S>) {
    forall n <- s.handles :: s.handles[n] in s.names ==> s.names[s.handles[n]] == n
  }

  lemma PublishIndex<A, C, S>(s: Store<A, C, S>, h: u32, n: Name)
    requires IndexLive(s) && Cached(h)
    ensures IndexLive(Publish(s, h, n)) && Publish(s, h, n).names == s.names[h := n]
  {
    assert Publish(s, h, n).names == s.names[h := n];
  }

  lemma InsertIndexLive<A, C, S>(s: Store<A, C, S>, k: Key<A, C, S>, n: Name)
    requires IndexLive(s) && Cached(k.handle)
    ensures IndexLive(Insert(s, k, n)) && Insert(s, k, n).names == s.names[k.handle := n]
  {
    var c := s.(contexts := s.contexts[k.handle := k]);
    PublishIndex(c, k.handle, n);
    var p, t := Publish(c, k.handle, n), Insert(s, k, n);
    assert t.handles == p.handles && t.names == p.names;
  }

  lemma InsertKeeps<A, C, S>(env: Env<A, C, S>, s: Store<A, C, S>, k: Key<A, C, S>, n: Name)
    requires Inv(env, s) && Cached(k.handle) && k.version == VERSION && env.name(k.public) == Some(n)
    ensures Inv(env, Insert(s, k, n))
  {
    InsertIndexLive(s, k, n);
    var t := Insert(s, k, n);
    assert t.contexts == s.contexts[k.handle := k] && t.files == s.files && t.dirty == s.dirty + {k.handle};
    assert NamesLive(env, t);
  }

  lemma UnpublishIndex<A, C, S>(s: Store<A, C, S>, h: u32)
    requires IndexLive(s)
    ensures IndexLive(Unpublish(s, h)) && Unpublish(s, h).names == s.names - {h}
  {
    assert Unpublish(s, h).names == s.names - {h};
  }

  lemma EvictShape<A, C, S>(s: Store<A, C, S>, h: u32)
    ensures var t := Evict(s, h);
            && t.contexts == s.contexts - {h} && t.names == s.names - {h}
            && t.files == s.files - {h} && t.dirty == s.dirty - {h}
            && t.next == s.next && t.unreadable == s.unreadable
  {
    assert Unpublish(s, h).names == s.names - {h};
  }

  lemma EvictKeeps<A, C, S>(env: Env<A, C, S>, s: Store<A, C, S>, h: u32)
    requires Inv(env, s) && h in s.contexts
    ensures Inv(env, Evict(s, h))
  {
    EvictShape(s, h);
    UnpublishIndex(s.(contexts := s.contexts - {h}, files := s.files - {h}), h);
  }

  lemma WriteOutKeeps<A, C, S>(env: Env<A, C, S>, s: Store<A, C, S>, h: u32, bytes: seq<byte>)
    requires Inv(env, s) && h in s.contexts && env.record(s.contexts[h]) == Ok(bytes)
    ensures Inv(env, WriteOut(s, h, bytes))
  {
  }

  lemma DropMarkKeeps<A, C, S>(env: Env<A, C, S>, s: Store<A, C, S>, h: u32)
    requires Inv(env, s) && h !in s.contexts
    ensures Inv(env, s.(dirty := s.dirty - {h}))
  {
  }

  lemma CursorMoves<A, C, S>(env: Env<A, C, S>, s: Store<A, C, S>, next: u32)
    requires Inv(env, s) && InRange(next)
    ensures Inv(env, s.(next := next))
  {
  }

  lemma TransientSaved<A, C, S>(
      env: Env<A, C, S>, s: Store<A, C, S>, context: C, public: A, parent: A, policy: seq<S>)
    requires Inv(env, s)
    ensures var Outcome(r, t) := SaveTransient(env, s, context, public, parent, policy);
            && Inv(env, t)
            && (r == Err(NoHandles) <==> forall h: u32 :: 0x8000_0000 <= h <= 0x80FF_FFFF ==> h in s.contexts)
            && (r.Ok? || r == Err(NoHandles) || (r == Err(OperationFailed) && env.name(public).None?))
            && (r.Err? ==> t == s)
            && (r.Ok? ==>
                  && env.name(public).Some?
                  && Saved(s, t, Key(2, r.value, public, parent, context, policy), env.name(public).value)
                  && NearestFree(s.contexts, s.next, r.value)
                  && t.next == if r.value == 0x80FF_FFFF then 0x8000_0000 else r.value + 1)
  {
    var slot, name := FreeSlot(s.contexts, s.next, 0), env.name(public);
    FreeSlotIsNearest(s.contexts, s.next);
    if slot.Some? && name.Some? {
      var key := Key(VERSION, slot.value, public, parent, context, policy);
      InsertKeeps(env, s, key, name.value);
      InsertSaved(s, key, name.value);
      CursorMoves(env, Insert(s, key, name.value), After(slot.value));
    }
  }

  /** No handle is listed twice. */
  predicate Distinct(hs: seq<u32>) {
    hs == [] || (Distinct(hs[..|hs| - 1]) && hs[|hs| - 1] !in Members(hs[..|hs| - 1]))
  }

  function Members(hs: seq<u32>): set<u32> {
    if hs == [] then {} else Members(hs[..|hs| - 1]) + {hs[|hs| - 1]}
  }

  lemma {:induction false} MembersIn(hs: seq<u32>, h: u32)
    ensures h in Members(hs) <==> h in hs
  {
    if hs != [] {
      MembersIn(hs[..|hs| - 1], h);
      assert hs == hs[..|hs| - 1] + [hs[|hs| - 1]];
    }
  }

  lemma MembersAppend(hs: seq<u32>, h: u32)
    ensures Members(hs + [h]) == Members(hs) + {h}
    ensures Distinct(hs + [h]) <==> Distinct(hs) && h !in Members(hs)
  {
    assert (hs + [h])[..|hs|] == hs;
  }

  lemma {:induction false} MembersJoin(a: seq<u32>, b: seq<u32>)
    ensures Members(a + b) == Members(a) + Members(b)
  {
    if b == [] {
      assert a + b == a;
    } else {
      var front := b[..|b| - 1];
      MembersJoin(a, front);
      assert a + b == a + front + [b[|b| - 1]];
      MembersAppend(a + front, b[|b| - 1]);
    }
  }

  /** Position by position, a distinct list has no repetition. */
  lemma {:induction false} DistinctPositions(hs: seq<u32>, i: nat, j: nat)
    requires Distinct(hs) && i < j < |hs|
    ensures hs[i] != hs[j]
  {
    var front := hs[..|hs| - 1];
    if j == |hs| - 1 {
      MembersIn(front, hs[j]);
      assert front[i] in front;
    } else {
      DistinctPositions(front, i, j);
    }
  }

  /** Evicting a list removes its members from every part of the cache, and nothing else. */
  lemma {:induction false} EvictAllShape<A, C, S>(s: Store<A, C, S>, hs: seq<u32>)
    ensures var t := EvictAll(s, hs);
            && t.contexts == s.contexts - Members(hs) && t.names == s.names - Members(hs)
            && t.files == s.files - Members(hs) && t.dirty == s.dirty - Members(hs)
            && t.next == s.next && t.unreadable == s.unreadable
  {
    if hs == [] {
      assert Members(hs) == {};
      assert s.contexts - {} == s.contexts && s.names - {} == s.names && s.files - {} == s.files;
    } else {
      var rest, last := hs[..|hs| - 1], hs[|hs| - 1];
      EvictAllShape(s, rest);
      EvictShape(EvictAll(s, rest), last);
      assert s.contexts - Members(rest) - {last} == s.contexts - Members(hs);
      assert s.names - Members(rest) - {last} == s.names - Members(hs);
      assert s.files - Members(rest) - {last} == s.files - Members(hs);
    }
  }

  /** A name entry survives exactly when its handle stays, or was a supplied handle of another name. */
  lemma {:induction false} EvictAllIndex<A, C, S>(s: Store<A, C, S>, hs: seq<u32>, n: Name)
    requires Distinct(hs)
    ensures var t := EvictAll(s, hs);
            n in t.handles <==> n in s.handles
                                && !(s.handles[n] in Members(hs) && s.handles[n] in s.names
                                     && s.names[s.handles[n]] == n)
    ensures n in EvictAll(s, hs).handles ==> EvictAll(s, hs).handles[n] == s.handles[n]
  {
    if hs != [] {
      var rest, last := hs[..|hs| - 1], hs[|hs| - 1];
      EvictAllIndex(s, rest, n);
      EvictAllShape(s, rest);
    }
  }

  lemma {:induction false} EvictAllKeeps<A, C, S>(env: Env<A, C, S>, s: Store<A, C, S>, hs: seq<u32>)
    requires Inv(env, s) && Distinct(hs) && Members(hs) <= s.contexts.Keys
    ensures Inv(env, EvictAll(s, hs))
  {
    if hs != [] {
      var rest, last := hs[..|hs| - 1], hs[|hs| - 1];
      EvictAllKeeps(env, s, rest);
      EvictAllShape(s, rest);
      EvictKeeps(env, EvictAll(s, rest), last);
    }
  }
}
