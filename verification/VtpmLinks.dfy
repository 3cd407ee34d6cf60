/** Parent links between cached keys: what descends from a key, and what a key hangs from. */
module VtpmLinks {
  import opened Wrappers
  import opened Bytes
  import opened WireTypes
  import opened VtpmPolicyList
  import opened VtpmStore

  // ----- descendants -----

  /** `c` names `p` as its parent: the marshalled parent and public areas are the same bytes. */
  predicate Child<A, C, S>(env: Env<A, C, S>, contexts: map<u32, Key<A, C, S>>, p: u32, c: u32) {
    && p in contexts && c in contexts
    && env.link(contexts[p].public).Ok? && env.link(contexts[c].parent).Ok?
    && env.link(contexts[c].parent).value == env.link(contexts[p].public).value
  }

  ghost predicate DescentPath<A, C, S>(env: Env<A, C, S>, contexts: map<u32, Key<A, C, S>>, path: seq<u32>) {
    path != [] && path[0] in contexts && forall i | 0 < i < |path| :: Child(env, contexts, path[i - 1], path[i])
  }

  /** `h` is `root`, or is reached from it by parent links. */
  ghost predicate Descends<A, C, S>(env: Env<A, C, S>, contexts: map<u32, Key<A, C, S>>, root: u32, h: u32) {
    exists path :: DescentPath(env, contexts, path) && path[0] == root && path[|path| - 1] == h
  }

  lemma DescendsSelf<A, C, S>(env: Env<A, C, S>, contexts: map<u32, Key<A, C, S>>, root: u32)
    requires root in contexts
    ensures Descends(env, contexts, root, root)
  {
    assert DescentPath(env, contexts, [root]) && [root][0] == root;
  }

  lemma DescendsChild<A, C, S>(env: Env<A, C, S>, contexts: map<u32, Key<A, C, S>>, root: u32, p: u32, c: u32)
    requires Descends(env, contexts, root, p) && Child(env, contexts, p, c)
    ensures Descends(env, contexts, root, c)
  {
    var path :| DescentPath(env, contexts, path) && path[0] == root && path[|path| - 1] == p;
    var longer := path + [c];
    forall i | 0 < i < |longer|
      ensures Child(env, contexts, longer[i - 1], longer[i])
    {
      if i < |path| {
        assert Child(env, contexts, path[i - 1], path[i]);
      }
    }
    assert DescentPath(env, contexts, longer) && longer[0] == root && longer[|longer| - 1] == c;
  }

  /** No member has a child outside the set. */
  ghost predicate ClosedUnderChild<A, C, S>(env: Env<A, C, S>, contexts: map<u32, Key<A, C, S>>, hs: set<u32>) {
    forall p, c | p in hs && Child(env, contexts, p, c) :: c in hs
  }

  lemma {:induction false} PathStays<A, C, S>(env: Env<A, C, S>, contexts: map<u32, Key<A, C, S>>, hs: set<u32>,
      path: seq<u32>)
    requires ClosedUnderChild(env, contexts, hs) && DescentPath(env, contexts, path) && path[0] in hs
    ensures path[|path| - 1] in hs
  {
    if |path| > 1 {
      var front := path[..|path| - 1];
      assert DescentPath(env, contexts, front);
      PathStays(env, contexts, hs, front);
      assert Child(env, contexts, path[|path| - 2], path[|path| - 1]);
    }
  }

  /** A closed set holding the root holds all its descendants. */
  lemma ClosedHoldsDescendants<A, C, S>(env: Env<A, C, S>, contexts: map<u32, Key<A, C, S>>, hs: set<u32>, root: u32,
      h: u32)
    requires ClosedUnderChild(env, contexts, hs) && root in hs && Descends(env, contexts, root, h)
    ensures h in hs
  {
    var path :| DescentPath(env, contexts, path) && path[0] == root && path[|path| - 1] == h;
    PathStays(env, contexts, hs, path);
  }

  /** `hs` lists the descendants of `root`, each once, `root` first. */
  ghost predicate IsSubtree<A, C, S>(env: Env<A, C, S>, contexts: map<u32, Key<A, C, S>>, root: u32, hs: seq<u32>) {
    && hs != [] && hs[0] == root && Distinct(hs)
    && forall h: u32 :: h in Members(hs) <==> Descends(env, contexts, root, h)
  }

  // ----- ancestors -----

  predicate NullParent<A, C, S>(env: Env<A, C, S>, k: Key<A, C, S>) {
    env.isNull(k.parent)
  }

  /** `p` is cached with exactly the public area that `c` names as its parent. */
  ghost predicate ParentCached<A, C, S>(s: Store<A, C, S>, p: u32, c: u32) {
    p in s.contexts && c in s.contexts && s.contexts[p].public == s.contexts[c].parent
  }

  /** `c` needs no parent, or its parent is cached or published under its name. */
  ghost predicate HasParent<A, C, S>(env: Env<A, C, S>, s: Store<A, C, S>, c: u32)
    requires c in s.contexts
  {
    var k := s.contexts[c];
    || NullParent(env, k)
    || (exists p: u32 :: ParentCached(s, p, c))
    || (env.name(k.parent).Some? && env.name(k.parent).value in s.handles)
  }

  /** Every key can be followed up to a root. */
  ghost predicate AllResolve<A, C, S>(env: Env<A, C, S>, s: Store<A, C, S>) {
    forall c <- s.contexts :: HasParent(env, s, c)
  }

  /** The root of `c` is not cached but published under the name of its parent area. */
  ghost predicate NamedParent<A, C, S>(env: Env<A, C, S>, s: Store<A, C, S>, root: u32, c: u32) {
    && c in s.contexts && !NullParent(env, s.contexts[c]) && (forall p: u32 :: !ParentCached(s, p, c))
    && env.name(s.contexts[c].parent).Some?
    && env.name(s.contexts[c].parent).value in s.handles
    && s.handles[env.name(s.contexts[c].parent).value] == root
  }

  /** `target` is a persistent handle that some name leads to. */
  ghost predicate Supplied<A, C, S>(s: Store<A, C, S>, target: u32) {
    HandleType(target) == HT_PERSISTENT && target in s.handles.Values
  }

  /** `c` hangs from a parent that is neither cached nor published, or has no name to be published under. */
  ghost predicate Stuck<A, C, S>(env: Env<A, C, S>, s: Store<A, C, S>, c: u32, error: VtpmError) {
    && c in s.contexts && !HasParent(env, s, c)
    && error == if env.name(s.contexts[c].parent).None? then OperationFailed else ParentNotFound
  }

  /** Cached keys, each the cached parent of the next. */
  ghost predicate CachedPath<A, C, S>(env: Env<A, C, S>, s: Store<A, C, S>, path: seq<u32>) {
    && path != [] && (forall i | 0 <= i < |path| :: path[i] in s.contexts)
    && forall i | 0 < i < |path| :: ParentCached(s, path[i - 1], path[i]) && !NullParent(env, s.contexts[path[i]])
  }

  /** A way up from `target` through cached parents. */
  ghost predicate Climb<A, C, S>(env: Env<A, C, S>, s: Store<A, C, S>, path: seq<u32>, target: u32) {
    CachedPath(env, s, path) && path[|path| - 1] == target
  }

  /** No way up from `target` meets a key twice. */
  ghost predicate ClimbsEnd<A, C, S>(env: Env<A, C, S>, s: Store<A, C, S>, target: u32) {
    forall path | Climb(env, s, path, target) :: Distinct(path)
  }

  /** Every way up from `target` ends at a key that needs no further parent, or one that is published. */
  ghost predicate Resolvable<A, C, S>(env: Env<A, C, S>, s: Store<A, C, S>, target: u32) {
    forall path | Climb(env, s, path, target) :: Distinct(path) && HasParent(env, s, path[0])
  }

  /**
    A loadable path to `target`: cached keys from a parentless key down, or from
    a published parent down, or a supplied persistent handle by itself.
   */
  ghost predicate RootedPath<A, C, S>(env: Env<A, C, S>, s: Store<A, C, S>, path: seq<u32>, target: u32) {
    && path != [] && path[|path| - 1] == target
    && (|| (CachedPath(env, s, path) && NullParent(env, s.contexts[path[0]]))
        || (|path| > 1 && CachedPath(env, s, path[1..]) && NamedParent(env, s, path[0], path[1]))
        || (path == [target] && Supplied(s, target)))
  }

  /** No two cached keys have the public area that one key names as its parent. */
  ghost predicate OneParentEach<A, C, S>(s: Store<A, C, S>) {
    forall p: u32, q: u32, c: u32 | ParentCached(s, p, c) && ParentCached(s, q, c) :: p == q
  }

  /** Then the shorter of two ways up is the end of the longer. */
  lemma {:induction false} OneWayUp<A, C, S>(
      env: Env<A, C, S>, s: Store<A, C, S>, short: seq<u32>, long: seq<u32>, target: u32)
    requires OneParentEach(s) && Climb(env, s, short, target) && Climb(env, s, long, target) && |short| <= |long|
    ensures short == long[|long| - |short|..]
  {
    if |short| > 1 {
      var rest := short[1..];
      OneWayUp(env, s, rest, long, target);
      var i := |long| - |rest|;
      assert long[i] == rest[0];
      assert ParentCached(s, short[0], short[1]) && ParentCached(s, long[i - 1], long[i]);
      assert long[i - 1..] == [long[i - 1]] + long[i..];
    }
  }

  /** And one way up that ends at a root is as good as all of them. */
  lemma OneRootEnough<A, C, S>(env: Env<A, C, S>, s: Store<A, C, S>, up: seq<u32>, target: u32)
    requires OneParentEach(s) && ClimbsEnd(env, s, target) && Climb(env, s, up, target) && HasParent(env, s, up[0])
    requires NullParent(env, s.contexts[up[0]]) || forall p: u32 :: !ParentCached(s, p, up[0])
    ensures Resolvable(env, s, target)
  {
    forall path | Climb(env, s, path, target)
      ensures Distinct(path) && HasParent(env, s, path[0])
    {
      if |path| <= |up| {
        OneWayUp(env, s, path, up, target);
        var i := |up| - |path|;
        assert path[0] == up[i] && (i > 0 ==> ParentCached(s, up[i - 1], up[i]));
      } else {
        LongerWayUp(env, s, up, path, target);
        assert false;
      }
    }
  }

  lemma LongerWayUp<A, C, S>(env: Env<A, C, S>, s: Store<A, C, S>, up: seq<u32>, path: seq<u32>, target: u32)
    requires OneParentEach(s) && Climb(env, s, up, target) && Climb(env, s, path, target) && |up| < |path|
    ensures up[0] in s.contexts && !NullParent(env, s.contexts[up[0]]) && exists p: u32 :: ParentCached(s, p, up[0])
  {
    OneWayUp(env, s, up, path, target);
    var i := |path| - |up|;
    assert path[i] == up[0] && ParentCached(s, path[i - 1], path[i]);
  }

  lemma OneRootFound<A, C, S>(env: Env<A, C, S>, s: Store<A, C, S>, up: seq<u32>, target: u32)
    requires ClimbsEnd(env, s, target) && Climb(env, s, up, target) && HasParent(env, s, up[0])
    requires NullParent(env, s.contexts[up[0]]) || forall p: u32 :: !ParentCached(s, p, up[0])
    ensures OneParentEach(s) ==> Resolvable(env, s, target)
  {
    if OneParentEach(s) {
      OneRootEnough(env, s, up, target);
    }
  }

  // ----- what a removal does to those that stay -----

  /** The name of `n` goes with the keys in `gone`: it leads to one of them, which published it. */
  ghost predicate NameGoes<A, C, S>(s: Store<A, C, S>, gone: set<u32>, n: Name) {
    n in s.handles && s.handles[n] in gone && Published(s, n)
  }

  /** `c` loses its parent with `gone`: no cached one stays, and no name that leads to one. */
  ghost predicate Orphaned<A, C, S>(env: Env<A, C, S>, s: Store<A, C, S>, gone: set<u32>, c: u32)
    requires c in s.contexts
  {
    var k := s.contexts[c];
    && !NullParent(env, k)
    && (forall p: u32 | ParentCached(s, p, c) :: p in gone)
    && match env.name(k.parent)
       case None => true
       case Some(n) => n !in s.handles || NameGoes(s, gone, n)
  }

  /** A key that stays has a parent after a removal, whole or part, exactly when it is not orphaned by it. */
  lemma StayingHasParent<A, C, S>(env: Env<A, C, S>, s: Store<A, C, S>, hs: seq<u32>, c: u32)
    requires Distinct(hs) && c in s.contexts && c !in Members(hs)
    ensures c in EvictAll(s, hs).contexts
    ensures HasParent(env, EvictAll(s, hs), c) <==> !Orphaned(env, s, Members(hs), c)
  {
    var t, gone := EvictAll(s, hs), Members(hs);
    EvictAllShape(s, hs);
    assert t.contexts == s.contexts - gone;
    if p: u32 :| ParentCached(s, p, c) && p !in gone {
      assert ParentCached(t, p, c);
    } else {
      assert forall p: u32 :: ParentCached(t, p, c) ==> ParentCached(s, p, c);
    }
    if env.name(s.contexts[c].parent).Some? {
      EvictAllIndex(s, hs, env.name(s.contexts[c].parent).value);
    }
  }

  /**
    After a removal, whole or part, every key can be followed up to a root exactly when
    none that stays is orphaned.
   */
  lemma RemovalResolves<A, C, S>(env: Env<A, C, S>, s: Store<A, C, S>, hs: seq<u32>)
    requires Distinct(hs)
    ensures AllResolve(env, EvictAll(s, hs))
            <==> forall c <- s.contexts | c !in Members(hs) :: !Orphaned(env, s, Members(hs), c)
  {
    EvictAllShape(s, hs);
    forall c <- s.contexts | c !in Members(hs)
      ensures c in EvictAll(s, hs).contexts
      ensures HasParent(env, EvictAll(s, hs), c) <==> !Orphaned(env, s, Members(hs), c)
    {
      StayingHasParent(env, s, hs, c);
    }
  }

  /** A public area with a name can be marshalled. */
  ghost predicate NamedMarshal<A(!new), C, S>(env: Env<A, C, S>) {
    forall a: A :: env.name(a).Some? ==> env.link(a).Ok?
  }

  /**
    `c` hangs from the cache by a name alone, and the name goes: its parent is not
    cached, and the key its parent's name leads to is removed.
   */
  ghost predicate HangsBy<A, C, S>(env: Env<A, C, S>, s: Store<A, C, S>, gone: set<u32>, c: u32)
    requires c in s.contexts
  {
    var k := s.contexts[c];
    && !NullParent(env, k) && (forall p: u32 :: !ParentCached(s, p, c))
    && env.name(k.parent).Some? && NameGoes(s, gone, env.name(k.parent).value)
  }

  lemma ChildFollows<A, C, S>(env: Env<A, C, S>, s: Store<A, C, S>, root: u32, hs: seq<u32>, p: u32, c: u32)
    requires IsSubtree(env, s.contexts, root, hs) && p in Members(hs) && Child(env, s.contexts, p, c)
    ensures c in Members(hs)
  {
    DescendsChild(env, s.contexts, root, p, c);
  }

  /** The cached parent of a key that is not in the subtree is not in it either. */
  lemma ParentStays<A(!new), C, S>(
      env: Env<A, C, S>, s: Store<A, C, S>, root: u32, hs: seq<u32>, p: u32, c: u32)
    requires NamesLive(env, s) && NamedMarshal(env) && IsSubtree(env, s.contexts, root, hs)
    requires ParentCached(s, p, c) && c !in Members(hs)
    ensures p !in Members(hs)
  {
    assert env.name(s.contexts[p].public) == Some(s.names[p]);
    if p in Members(hs) {
      assert Child(env, s.contexts, p, c);
      ChildFollows(env, s, root, hs, p, c);
    }
  }

  /** Removing a whole subtree orphans no key but those that hang from it by a name alone. */
  lemma SubtreeOrphans<A(!new), C, S>(env: Env<A, C, S>, s: Store<A, C, S>, root: u32, hs: seq<u32>, c: u32)
    requires NamesLive(env, s) && NamedMarshal(env) && IsSubtree(env, s.contexts, root, hs)
    requires c in s.contexts && c !in Members(hs) && HasParent(env, s, c)
    ensures Orphaned(env, s, Members(hs), c) <==> HangsBy(env, s, Members(hs), c)
  {
    if p: u32 :| ParentCached(s, p, c) {
      ParentStays(env, s, root, hs, p, c);
    }
  }

  /** A key hangs by a name alone only where two different public areas have one name. */
  lemma HangingCollides<A(!new), C, S>(
      env: Env<A, C, S>, s: Store<A, C, S>, root: u32, hs: seq<u32>, c: u32) returns (x: u32)
    requires NamesLive(env, s) && NamedMarshal(env) && IsSubtree(env, s.contexts, root, hs)
    requires c in s.contexts && c !in Members(hs) && HangsBy(env, s, Members(hs), c)
    ensures x in Members(hs) && x in s.contexts && env.name(s.contexts[x].public) == env.name(s.contexts[c].parent)
    ensures env.link(s.contexts[x].public) != env.link(s.contexts[c].parent)
  {
    x := s.handles[env.name(s.contexts[c].parent).value];
    assert env.name(s.contexts[x].public) == Some(s.names[x]);
    if env.link(s.contexts[x].public) == env.link(s.contexts[c].parent) {
      assert Child(env, s.contexts, x, c);
      ChildFollows(env, s, root, hs, x, c);
    }
  }

  /** Among the cached keys, a parent area and a public area with one name are the same bytes. */
  ghost predicate CollisionFree<A, C, S>(env: Env<A, C, S>, s: Store<A, C, S>) {
    forall x <- s.contexts, c <- s.contexts ::
      env.name(s.contexts[c].parent).Some? && env.name(s.contexts[c].parent) == env.name(s.contexts[x].public) ==>
        env.link(s.contexts[c].parent) == env.link(s.contexts[x].public)
  }

  /**
    If every key could be followed to a root before a subtree was removed, every
    surviving key still can exactly when none hangs from it by a name alone. That
    takes two cached areas with one name, so none does where names do not collide.
   */
  lemma RemovalKeepsParents<A(!new), C, S>(env: Env<A, C, S>, s: Store<A, C, S>, root: u32, hs: seq<u32>)
    requires Inv(env, s) && NamedMarshal(env) && AllResolve(env, s) && IsSubtree(env, s.contexts, root, hs)
    ensures AllResolve(env, EvictAll(s, hs))
            <==> forall c <- s.contexts | c !in Members(hs) :: !HangsBy(env, s, Members(hs), c)
    ensures CollisionFree(env, s) ==> AllResolve(env, EvictAll(s, hs))
  {
    RemovalResolves(env, s, hs);
    forall c <- s.contexts | c !in Members(hs)
      ensures Orphaned(env, s, Members(hs), c) <==> HangsBy(env, s, Members(hs), c)
      ensures CollisionFree(env, s) ==> !HangsBy(env, s, Members(hs), c)
    {
      SubtreeOrphans(env, s, root, hs, c);
      if HangsBy(env, s, Members(hs), c) {
        var x := HangingCollides(env, s, root, hs, c);
      }
    }
  }

  /** The ways up from a key that stays, after a removal, are those that met no removed key. */
  lemma ClimbAfter<A, C, S>(env: Env<A, C, S>, s: Store<A, C, S>, hs: seq<u32>, path: seq<u32>, target: u32)
    ensures Climb(env, EvictAll(s, hs), path, target)
            <==> Climb(env, s, path, target) && forall h <- path :: h !in Members(hs)
  {
    var t := EvictAll(s, hs);
    EvictAllShape(s, hs);
    assert t.contexts == s.contexts - Members(hs);
    if Climb(env, t, path, target) {
      forall i | 0 < i < |path|
        ensures ParentCached(s, path[i - 1], path[i]) && !NullParent(env, s.contexts[path[i]])
      {
        assert ParentCached(t, path[i - 1], path[i]);
      }
    }
    if Climb(env, s, path, target) && forall h <- path :: h !in Members(hs) {
      forall i | 0 <= i < |path|
        ensures path[i] in t.contexts
      {
        assert path[i] in path;
      }
      forall i | 0 < i < |path|
        ensures ParentCached(t, path[i - 1], path[i]) && !NullParent(env, t.contexts[path[i]])
      {
        assert ParentCached(s, path[i - 1], path[i]);
      }
    }
  }

  /** The whole way up from a key that survives the removal of a subtree survives it. */
  lemma {:induction false} ClimbSurvives<A(!new), C, S>(
      env: Env<A, C, S>, s: Store<A, C, S>, root: u32, hs: seq<u32>, path: seq<u32>, target: u32)
    requires NamesLive(env, s) && NamedMarshal(env) && IsSubtree(env, s.contexts, root, hs)
    requires Climb(env, s, path, target) && target !in Members(hs)
    ensures forall h <- path :: h !in Members(hs)
    decreases |path|
  {
    if |path| > 1 {
      var last := |path| - 1;
      assert ParentCached(s, path[last - 1], path[last]);
      ParentStays(env, s, root, hs, path[last - 1], target);
      assert Climb(env, s, path[..last], path[last - 1]) by {
        forall i | 0 < i < last
          ensures ParentCached(s, path[..last][i - 1], path[..last][i])
        {
          assert ParentCached(s, path[i - 1], path[i]);
        }
      }
      ClimbSurvives(env, s, root, hs, path[..last], path[last - 1]);
      assert path == path[..last] + [target];
    }
  }

  /**
    A surviving key whose own ancestors could be followed to a root still has such
    ancestors exactly when none of its topmost ones hangs from what went by a name alone.
   */
  lemma RemovalKeepsResolvable<A(!new), C, S>(
      env: Env<A, C, S>, s: Store<A, C, S>, root: u32, hs: seq<u32>, target: u32)
    requires Inv(env, s) && NamedMarshal(env) && IsSubtree(env, s.contexts, root, hs)
    requires target !in Members(hs) && Resolvable(env, s, target)
    ensures Resolvable(env, EvictAll(s, hs), target)
            <==> forall path | Climb(env, s, path, target) :: !HangsBy(env, s, Members(hs), path[0])
    ensures CollisionFree(env, s) ==> Resolvable(env, EvictAll(s, hs), target)
  {
    forall path: seq<u32>
      ensures Climb(env, EvictAll(s, hs), path, target) <==> Climb(env, s, path, target)
      ensures Climb(env, s, path, target) ==>
                (HasParent(env, EvictAll(s, hs), path[0]) <==> !HangsBy(env, s, Members(hs), path[0]))
      ensures Climb(env, s, path, target) && CollisionFree(env, s) ==> !HangsBy(env, s, Members(hs), path[0])
    {
      ClimbAfter(env, s, hs, path, target);
      if Climb(env, s, path, target) {
        ClimbSurvives(env, s, root, hs, path, target);
        TopAfter(env, s, root, hs, path[0]);
      }
    }
  }

  /**
    The same for any removal, whole or part, and whatever the links: what matters are
    the ways up that met no removed key; they must end, and not at an orphan.
   */
  lemma PartialKeepsResolvable<A, C, S>(env: Env<A, C, S>, s: Store<A, C, S>, hs: seq<u32>, target: u32)
    requires Distinct(hs)
    ensures Resolvable(env, EvictAll(s, hs), target)
            <==> forall path | Climb(env, s, path, target) && (forall h <- path :: h !in Members(hs)) ::
                   Distinct(path) && !Orphaned(env, s, Members(hs), path[0])
  {
    forall path: seq<u32>
      ensures Climb(env, EvictAll(s, hs), path, target)
              <==> Climb(env, s, path, target) && forall h <- path :: h !in Members(hs)
      ensures Climb(env, EvictAll(s, hs), path, target) ==>
                (HasParent(env, EvictAll(s, hs), path[0]) <==> !Orphaned(env, s, Members(hs), path[0]))
    {
      ClimbAfter(env, s, hs, path, target);
      if Climb(env, EvictAll(s, hs), path, target) {
        assert path[0] in path;
        StayingHasParent(env, s, hs, path[0]);
      }
    }
  }

  lemma TopAfter<A(!new), C, S>(env: Env<A, C, S>, s: Store<A, C, S>, root: u32, hs: seq<u32>, c: u32)
    requires Inv(env, s) && NamedMarshal(env) && IsSubtree(env, s.contexts, root, hs)
    requires c in s.contexts && c !in Members(hs) && HasParent(env, s, c)
    ensures c in EvictAll(s, hs).contexts
    ensures HasParent(env, EvictAll(s, hs), c) <==> !HangsBy(env, s, Members(hs), c)
    ensures CollisionFree(env, s) ==> !HangsBy(env, s, Members(hs), c)
  {
    StayingHasParent(env, s, hs, c);
    SubtreeOrphans(env, s, root, hs, c);
    if HangsBy(env, s, Members(hs), c) {
      var x := HangingCollides(env, s, root, hs, c);
    }
  }

  // ----- climbing ends exactly when no key repeats -----

  lemma {:induction false} DistinctSize(hs: seq<u32>, among: set<u32>)
    requires Distinct(hs) && Members(hs) <= among
    ensures |hs| <= |among|
  {
    if hs != [] {
      var last := hs[|hs| - 1];
      DistinctSize(hs[..|hs| - 1], among - {last});
    }
  }

  /** Cached keys that do not repeat are no more than the cache holds. */
  lemma ClimbSize<A, C, S>(env: Env<A, C, S>, s: Store<A, C, S>, path: seq<u32>)
    requires CachedPath(env, s, path) && Distinct(path)
    ensures |path| <= |s.contexts.Keys|
  {
    forall h <- Members(path)
      ensures h in s.contexts
    {
      MembersIn(path, h);
    }
    DistinctSize(path, s.contexts.Keys);
  }

  lemma {:induction false} Repeats(hs: seq<u32>) returns (i: nat, j: nat)
    requires !Distinct(hs)
    ensures i < j < |hs| && hs[i] == hs[j]
  {
    var front, last := hs[..|hs| - 1], hs[|hs| - 1];
    if Distinct(front) {
      MembersIn(front, last);
      i :| 0 <= i < |front| && front[i] == last;
      j := |hs| - 1;
    } else {
      i, j := Repeats(front);
    }
  }

  /** Going round a cycle once more gives a longer way up. */
  lemma {:induction false} GoRound<A, C, S>(
      env: Env<A, C, S>, s: Store<A, C, S>, path: seq<u32>, target: u32, i: nat, j: nat, n: nat)
      returns (longer: seq<u32>)
    requires Climb(env, s, path, target) && i < j < |path| && path[i] == path[j]
    ensures Climb(env, s, longer, target) && longer[0] == path[i] && |longer| > n
    decreases n
  {
    if n == 0 {
      longer := path[i..];
      forall k | 0 < k < |longer|
        ensures ParentCached(s, longer[k - 1], longer[k]) && !NullParent(env, s.contexts[longer[k]])
      {
        assert longer[k - 1] == path[i + k - 1] && longer[k] == path[i + k];
      }
    } else {
      var rest := GoRound(env, s, path, target, i, j, n - 1);
      longer := path[i..j] + rest;
      forall k | 0 < k < |longer|
        ensures ParentCached(s, longer[k - 1], longer[k]) && !NullParent(env, s.contexts[longer[k]])
      {
        if k <= j - i {
          assert longer[k - 1] == path[i + k - 1] && longer[k] == path[i + k];
        } else {
          assert longer[k - 1] == rest[k - 1 - (j - i)] && longer[k] == rest[k - (j - i)];
        }
      }
    }
  }

  /** The ways up are bounded in length exactly when none meets a key twice. */
  lemma ClimbsBounded<A, C, S>(env: Env<A, C, S>, s: Store<A, C, S>, target: u32)
    ensures (exists n: nat :: NoLonger(env, s, target, n)) <==> ClimbsEnd(env, s, target)
  {
    if ClimbsEnd(env, s, target) {
      forall path | Climb(env, s, path, target)
        ensures |path| <= |s.contexts.Keys|
      {
        ClimbSize(env, s, path);
      }
      assert NoLonger(env, s, target, |s.contexts.Keys|);
    } else {
      var path :| Climb(env, s, path, target) && !Distinct(path);
      var i, j := Repeats(path);
      forall n: nat
        ensures !NoLonger(env, s, target, n)
      {
        var longer := GoRound(env, s, path, target, i, j, n);
      }
    }
  }

  ghost predicate NoLonger<A, C, S>(env: Env<A, C, S>, s: Store<A, C, S>, target: u32, n: nat) {
    forall path | Climb(env, s, path, target) :: |path| <= n
  }
}
