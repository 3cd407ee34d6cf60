/** Whole runs of the cache, and what survives a restart. */
module VtpmRuns {
  import opened Wrappers
  import opened Bytes
  import opened WireTypes
  import opened VtpmStore
  import opened VtpmNames
  import opened VtpmCache

  datatype Op<A, C, S> =
    | DoSaveTransient(context: C, public: A, parent: A, policy: seq<S>)
    | DoSavePersistent(handle: u32, public: A, parent: A, policy: seq<S>)
    | DoRemove(handle: u32)
    | DoMarkDirty(handle: u32)
    | DoFlush

  /** What an operation can do to the cache and its directory, whether or not it fails part way. */
  ghost predicate Step<A, C, S>(env: Env<A, C, S>, s: Store<A, C, S>, op: Op<A, C, S>, t: Store<A, C, S>) {
    match op
    case DoSaveTransient(context, public, parent, policy) =>
      InRange(s.next) && t == SaveTransient(env, s, context, public, parent, policy).store
    case DoSavePersistent(h, public, parent, policy) => t == SavePersistent(env, s, h, public, parent, policy).store
    case DoRemove(h) => exists hs :: Partial(env, s.contexts, h, hs) && t == EvictAll(s, hs)
    case DoMarkDirty(h) => t == s.(dirty := s.dirty + {h})
    case DoFlush => exists done :: FlushedBy(env, s, t, done)
  }

  /** Every operation keeps the invariant, on its failure paths too. */
  lemma StepKeeps<A, C, S>(env: Env<A, C, S>, s: Store<A, C, S>, op: Op<A, C, S>, t: Store<A, C, S>)
    requires Inv(env, s) && Step(env, s, op, t)
    ensures Inv(env, t)
  {
    match op
    case DoSaveTransient(context, public, parent, policy) =>
      var slot, name := FreeSlot(s.contexts, s.next, 0), env.name(public);
      if slot.Some? && name.Some? {
        var key := Key(VERSION, slot.value, public, parent, context, policy);
        InsertKeeps(env, s, key, name.value);
        CursorMoves(env, Insert(s, key, name.value), After(slot.value));
      }
    case DoSavePersistent(h, public, parent, policy) =>
      if HandleType(h) == HT_PERSISTENT && env.name(public).Some? {
        InsertKeeps(env, s, Key(VERSION, h, public, parent, env.noContext, policy), env.name(public).value);
      }
    case DoRemove(h) =>
      var hs :| Partial(env, s.contexts, h, hs) && t == EvictAll(s, hs);
      SubtreeMembers(env, s.contexts, h, hs);
      EvictAllKeeps(env, s, hs);
    case DoMarkDirty(_) =>
    case DoFlush =>
      var done :| FlushedBy(env, s, t, done);
      FlushedKeeps(env, s, t, done);
  }

  /** `states` are the states a sequence of operations goes through. */
  ghost predicate Run<A, C, S>(env: Env<A, C, S>, states: seq<Store<A, C, S>>, ops: seq<Op<A, C, S>>) {
    && |states| == |ops| + 1
    && forall i | 0 <= i < |ops| :: Step(env, states[i], ops[i], states[i + 1])
  }

  /** The invariant holds in every state of every run from a freshly opened cache. */
  lemma {:induction false} RunKeeps<A, C, S>(
      env: Env<A, C, S>, states: seq<Store<A, C, S>>, ops: seq<Op<A, C, S>>, i: nat)
    requires Run(env, states, ops) && Inv(env, states[0]) && i < |states|
    ensures Inv(env, states[i])
  {
    if i > 0 {
      RunKeeps(env, states, ops, i - 1);
      StepKeeps(env, states[i - 1], ops[i - 1], states[i]);
    }
  }

  /** Neither a failed operation nor another context with the same name takes a live context's name entry away. */
  lemma RemoveSparesOthers<A, C, S>(env: Env<A, C, S>, s: Store<A, C, S>, root: u32, hs: seq<u32>, n: Name)
    requires Inv(env, s) && Partial(env, s.contexts, root, hs)
    requires n in s.handles && s.handles[n] !in Members(hs)
    ensures n in EvictAll(s, hs).handles && EvictAll(s, hs).handles[n] == s.handles[n]
  {
    EvictAllIndex(s, hs, n);
  }

  // ----- the name index over runs -----

  /**
    An operation hides no live key: a key saved over another under a new name does
    not shadow a third, and the names of what a removal leaves lead to what it leaves.
   */
  ghost predicate HidesNone<A, C, S>(env: Env<A, C, S>, s: Store<A, C, S>, op: Op<A, C, S>, t: Store<A, C, S>) {
    match op
    case DoSavePersistent(h, public, _, _) =>
      HandleType(h) == HT_PERSISTENT && env.name(public).Some? ==>
        !(Shadows(s, h) && s.names[h] != env.name(public).value)
    case DoRemove(_) => LeadToSurvivors(s, t)
    case _ => true
  }

  /** The names of the keys that are left led to keys that are left. */
  ghost predicate LeadToSurvivors<A, C, S>(s: Store<A, C, S>, t: Store<A, C, S>) {
    forall g <- t.names :: g in s.names && s.names[g] in s.handles && s.handles[s.names[g]] in t.names
  }

  lemma RemoveFindable<A, C, S>(env: Env<A, C, S>, s: Store<A, C, S>, hs: seq<u32>)
    requires Inv(env, s) && Findable(s) && Distinct(hs) && Members(hs) <= s.contexts.Keys
    ensures Findable(EvictAll(s, hs)) <==> LeadToSurvivors(s, EvictAll(s, hs))
  {
    EvictAllShape(s, hs);
    FindableEvictAll(env, s, hs);
    forall g <- s.names
      ensures s.handles[s.names[g]] in s.names
    {
      assert Published(s, s.names[g]);
    }
  }

  /** After an operation every live key is still found exactly when the operation hides none. */
  lemma StepFindable<A, C, S>(env: Env<A, C, S>, s: Store<A, C, S>, op: Op<A, C, S>, t: Store<A, C, S>)
    requires Inv(env, s) && Findable(s) && Step(env, s, op, t)
    ensures Findable(t) <==> HidesNone(env, s, op, t)
  {
    match op
    case DoSaveTransient(context, public, parent, policy) =>
      var slot, name := FreeSlot(s.contexts, s.next, 0), env.name(public);
      if slot.Some? && name.Some? {
        FindableInsert(env, s, Key(VERSION, slot.value, public, parent, context, policy), name.value);
      }
    case DoSavePersistent(h, public, parent, policy) =>
      if HandleType(h) == HT_PERSISTENT && env.name(public).Some? {
        FindableInsert(env, s, Key(VERSION, h, public, parent, env.noContext, policy), env.name(public).value);
      }
    case DoRemove(h) =>
      var hs :| Partial(env, s.contexts, h, hs) && t == EvictAll(s, hs);
      SubtreeMembers(env, s.contexts, h, hs);
      RemoveFindable(env, s, hs);
    case DoMarkDirty(_) =>
    case DoFlush =>
  }

  /** Every live key is found in every state of a run exactly when no operation of the run hides one. */
  lemma {:induction false} RunFindable<A, C, S>(env: Env<A, C, S>, states: seq<Store<A, C, S>>, ops: seq<Op<A, C, S>>,
      n: nat)
    requires Run(env, states, ops) && Inv(env, states[0]) && Findable(states[0]) && n <= |ops|
    ensures (forall i | 0 <= i <= n :: Findable(states[i]))
            <==> forall i | 0 <= i < n :: HidesNone(env, states[i], ops[i], states[i + 1])
  {
    if n > 0 {
      RunFindable(env, states, ops, n - 1);
      FindableAt(env, states, ops, n - 1);
    }
  }

  lemma FindableAt<A, C, S>(env: Env<A, C, S>, states: seq<Store<A, C, S>>, ops: seq<Op<A, C, S>>, i: nat)
    requires Run(env, states, ops) && Inv(env, states[0]) && i < |ops|
    ensures Findable(states[i]) ==> (Findable(states[i + 1]) <==> HidesNone(env, states[i], ops[i], states[i + 1]))
  {
    RunKeeps(env, states, ops, i);
    if Findable(states[i]) {
      StepFindable(env, states[i], ops[i], states[i + 1]);
    }
  }

  /** An operation saves no key at a handle to which a supplied entry gives another name. */
  ghost predicate SavesTruly<A, C, S>(env: Env<A, C, S>, s: Store<A, C, S>, op: Op<A, C, S>) {
    op.DoSavePersistent? && HandleType(op.handle) == HT_PERSISTENT && env.name(op.public).Some? ==>
      OwnNameOnly(s, op.handle, env.name(op.public).value)
  }

  /** After an operation the name entries still agree with the live keys exactly when it saves truly. */
  lemma StepAgrees<A, C, S>(env: Env<A, C, S>, s: Store<A, C, S>, op: Op<A, C, S>, t: Store<A, C, S>)
    requires Inv(env, s) && SuppliedAgree(s) && Step(env, s, op, t)
    ensures SuppliedAgree(t) <==> SavesTruly(env, s, op)
  {
    match op
    case DoSaveTransient(context, public, parent, policy) =>
      var slot, name := FreeSlot(s.contexts, s.next, 0), env.name(public);
      if slot.Some? && name.Some? {
        AgreesInsert(env, s, Key(VERSION, slot.value, public, parent, context, policy), name.value);
      }
    case DoSavePersistent(h, public, parent, policy) =>
      if HandleType(h) == HT_PERSISTENT && env.name(public).Some? {
        AgreesInsert(env, s, Key(VERSION, h, public, parent, env.noContext, policy), env.name(public).value);
      }
    case DoRemove(h) =>
      var hs :| Partial(env, s.contexts, h, hs) && t == EvictAll(s, hs);
      AgreesEvictAll(s, hs);
    case DoMarkDirty(_) =>
    case DoFlush =>
  }

  /** The entries agree in every state of a run exactly when every operation of the run saves truly. */
  lemma {:induction false} RunAgrees<A, C, S>(env: Env<A, C, S>, states: seq<Store<A, C, S>>, ops: seq<Op<A, C, S>>,
      n: nat)
    requires Run(env, states, ops) && Inv(env, states[0]) && SuppliedAgree(states[0]) && n <= |ops|
    ensures (forall i | 0 <= i <= n :: SuppliedAgree(states[i]))
            <==> forall i | 0 <= i < n :: SavesTruly(env, states[i], ops[i])
  {
    if n > 0 {
      RunAgrees(env, states, ops, n - 1);
      AgreesAt(env, states, ops, n - 1);
    }
  }

  lemma AgreesAt<A, C, S>(env: Env<A, C, S>, states: seq<Store<A, C, S>>, ops: seq<Op<A, C, S>>, i: nat)
    requires Run(env, states, ops) && Inv(env, states[0]) && i < |ops|
    ensures SuppliedAgree(states[i]) ==> (SuppliedAgree(states[i + 1]) <==> SavesTruly(env, states[i], ops[i]))
  {
    RunKeeps(env, states, ops, i);
    if SuppliedAgree(states[i]) {
      StepAgrees(env, states[i], ops[i], states[i + 1]);
    }
  }

  // ----- restart -----

  /** Every context can be read back from its own record. */
  ghost predicate AllReload<A, C, S>(env: Env<A, C, S>, s: Store<A, C, S>) {
    forall h <- s.contexts :: env.record(s.contexts[h]).Ok? && env.load(env.record(s.contexts[h]).value, h).Ok?
  }

  /**
    A cache opened on the directory of a clean cache has exactly the contexts whose
    records load, each as its record says.
   */
  lemma RestartLoads<A, C, S>(env: Env<A, C, S>, s: Store<A, C, S>, h: u32)
    requires Inv(env, s) && s.dirty !! s.contexts.Keys
    ensures var loaded := LoadedContexts(env, s.files, s.files.Keys);
            && (h in loaded <==> h in s.contexts && env.load(env.record(s.contexts[h]).value, h).Ok?)
            && (h in loaded ==> loaded[h] == env.load(env.record(s.contexts[h]).value, h).value)
  {
    if h in s.contexts {
      assert h in s.files && env.record(s.contexts[h]) == Ok(s.files[h]);
    }
  }

  /** The contexts survive a restart exactly when every record is one the loader accepts. */
  lemma RestartComplete<A, C, S>(env: Env<A, C, S>, s: Store<A, C, S>)
    requires Inv(env, s) && s.dirty !! s.contexts.Keys
    ensures LoadedContexts(env, s.files, s.files.Keys).Keys == s.contexts.Keys <==> AllReload(env, s)
  {
    var loaded := LoadedContexts(env, s.files, s.files.Keys);
    forall h: u32
      ensures h in loaded <==> h in s.contexts && env.load(env.record(s.contexts[h]).value, h).Ok?
    {
      RestartLoads(env, s, h);
    }
    if AllReload(env, s) {
      assert forall h: u32 :: h in loaded <==> h in s.contexts;
    } else {
      var h: u32 :| h in s.contexts
                    && !(env.record(s.contexts[h]).Ok? && env.load(env.record(s.contexts[h]).value, h).Ok?);
      assert h !in loaded;
    }
  }
}
