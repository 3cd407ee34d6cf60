/** The name index: when a live key is found by its name, and when names tell the truth. */
module VtpmNames {
  import opened Bytes
  import opened WireTypes
  import opened VtpmStore

  // ----- live keys are found -----

  /** Every live key's name leads somewhere. */
  ghost predicate Findable<A, C, S>(s: Store<A, C, S>) {
    forall h <- s.names :: s.names[h] in s.handles
  }

  /** Another live key has the name of `h`, but the name leads to `h`. */
  ghost predicate Shadows<A, C, S>(s: Store<A, C, S>, h: u32) {
    && h in s.names && s.names[h] in s.handles && s.handles[s.names[h]] == h
    && exists g <- s.names :: g != h && s.names[g] == s.names[h]
  }

  /** Removing a key hides another one exactly when it shadows one. */
  lemma FindableEvict<A, C, S>(env: Env<A, C, S>, s: Store<A, C, S>, h: u32)
    requires Inv(env, s) && Findable(s) && h in s.contexts
    ensures Findable(Evict(s, h)) <==> !Shadows(s, h)
  {
    EvictShape(s, h);
    var t := Evict(s, h);
    if g: u32 :| g in s.names && g != h && s.names[g] == s.names[h] {
      assert g in t.names && t.names[g] == s.names[h];
    }
  }

  /** Removing several keys hides none exactly when each survivor's name leads to a survivor. */
  lemma FindableEvictAll<A, C, S>(env: Env<A, C, S>, s: Store<A, C, S>, hs: seq<u32>)
    requires Inv(env, s) && Findable(s) && Distinct(hs) && Members(hs) <= s.contexts.Keys
    ensures Findable(EvictAll(s, hs)) <==>
            forall g <- s.names :: g !in Members(hs) ==> s.handles[s.names[g]] !in Members(hs)
  {
    EvictAllShape(s, hs);
    forall g <- s.names
      ensures s.names[g] in EvictAll(s, hs).handles <==> s.handles[s.names[g]] !in Members(hs)
    {
      EvictAllIndex(s, hs, s.names[g]);
    }
    FindableAfter(s, EvictAll(s, hs), Members(hs));
  }

  lemma FindableAfter<A, C, S>(s: Store<A, C, S>, t: Store<A, C, S>, gone: set<u32>)
    requires Findable(s) && t.names == s.names - gone
    requires forall g <- s.names :: s.names[g] in t.handles <==> s.handles[s.names[g]] !in gone
    ensures Findable(t) <==> forall g <- s.names :: g !in gone ==> s.handles[s.names[g]] !in gone
  {
    if g: u32 :| g in s.names && g !in gone && s.handles[s.names[g]] in gone {
      assert g in t.names && t.names[g] == s.names[g];
    }
  }

  /** Saving a key hides another one exactly when it gives a handle that shadows one a new name. */
  lemma FindableInsert<A, C, S>(env: Env<A, C, S>, s: Store<A, C, S>, k: Key<A, C, S>, n: Name)
    requires Inv(env, s) && Findable(s)
    ensures Findable(Insert(s, k, n)) <==> !(Shadows(s, k.handle) && s.names[k.handle] != n)
  {
    InsertIndex(s, k, n);
    if Shadows(s, k.handle) && s.names[k.handle] != n {
      InsertHides(s, Insert(s, k, n), k.handle, n);
    } else {
      InsertSpares(s, Insert(s, k, n), k.handle, n);
    }
  }

  lemma InsertHides<A, C, S>(s: Store<A, C, S>, t: Store<A, C, S>, h: u32, n: Name)
    requires Shadows(s, h) && s.names[h] != n
    requires t.names == s.names[h := n] && t.handles == (s.handles - {s.names[h]})[n := h]
    ensures !Findable(t)
  {
    var g: u32 :| g in s.names && g != h && s.names[g] == s.names[h];
    assert g in t.names && t.names[g] !in t.handles;
  }

  lemma InsertSpares<A, C, S>(s: Store<A, C, S>, t: Store<A, C, S>, h: u32, n: Name)
    requires Findable(s) && !(Shadows(s, h) && s.names[h] != n)
    requires t.names == s.names[h := n]
    requires t.handles == (if h in s.names && s.names[h] in s.handles && s.handles[s.names[h]] == h
                           then s.handles - {s.names[h]} else s.handles)[n := h]
    ensures Findable(t)
  {
    forall g <- t.names
      ensures t.names[g] in t.handles
    {
      assert g == h || t.names[g] == s.names[g];
    }
  }

  /** What saving does to the index: the new name is added, the handle's old one goes if it leads there. */
  lemma InsertIndex<A, C, S>(s: Store<A, C, S>, k: Key<A, C, S>, n: Name)
    ensures var t, h := Insert(s, k, n), k.handle;
            && t.names == s.names[h := n]
            && t.handles == (if h in s.names && s.names[h] in s.handles && s.handles[s.names[h]] == h
                             then s.handles - {s.names[h]} else s.handles)[n := h]
  {
    assert Insert(s, k, n).names == s.names[k.handle := n];
  }

  // ----- names tell the truth -----

  /** No name but its own leads to the handle. */
  ghost predicate OwnNameOnly<A, C, S>(s: Store<A, C, S>, h: u32, n: Name) {
    forall m <- s.handles :: s.handles[m] == h && h !in s.names ==> m == n
  }

  /** Saving a key keeps the index truthful exactly when no supplied entry gives its handle another name. */
  lemma AgreesInsert<A, C, S>(env: Env<A, C, S>, s: Store<A, C, S>, k: Key<A, C, S>, n: Name)
    requires Inv(env, s) && SuppliedAgree(s)
    ensures SuppliedAgree(Insert(s, k, n)) <==> OwnNameOnly(s, k.handle, n)
  {
    var t := Insert(s, k, n);
    InsertIndex(s, k, n);
    if m: Name :| m in s.handles && s.handles[m] == k.handle && k.handle !in s.names && m != n {
      assert m in t.handles && t.handles[m] == k.handle;
    }
  }

  lemma AgreesEvictAll<A, C, S>(s: Store<A, C, S>, hs: seq<u32>)
    requires SuppliedAgree(s) && Distinct(hs)
    ensures SuppliedAgree(EvictAll(s, hs))
  {
    var t := EvictAll(s, hs);
    EvictAllShape(s, hs);
    forall n <- t.handles
      ensures t.handles[n] in t.names ==> t.names[t.handles[n]] == n
    {
      EvictAllIndex(s, hs, n);
    }
  }

  // ----- the index of a newly opened cache -----

  /** Some live key has the name. */
  ghost predicate Taken<A, C, S>(s: Store<A, C, S>, n: Name) {
    exists h <- s.names :: s.names[h] == n
  }

  /** Live names lead to live keys, and the others where they were supplied to lead. */
  ghost predicate Indexed<A, C, S>(supplied: map<Name, u32>, s: Store<A, C, S>) {
    forall n: Name ::
      if Taken(s, n) then Published(s, n)
      else (n in s.handles <==> n in supplied) && (n in supplied ==> s.handles[n] == supplied[n])
  }

  lemma IndexedSame<A, C, S>(supplied: map<Name, u32>, s: Store<A, C, S>, t: Store<A, C, S>)
    requires Indexed(supplied, s) && t.names == s.names && t.handles == s.handles
    ensures Indexed(supplied, t)
  {
    assert forall n: Name :: Taken(t, n) <==> Taken(s, n);
    assert forall n: Name :: Published(t, n) <==> Published(s, n);
  }

  lemma IndexedPublish<A, C, S>(supplied: map<Name, u32>, s: Store<A, C, S>, h: u32, n: Name)
    requires Indexed(supplied, s) && h !in s.names
    ensures Indexed(supplied, Publish(s, h, n))
  {
    var t := Publish(s, h, n);
    assert t.names == s.names[h := n];
    forall m: Name
      ensures if Taken(t, m) then Published(t, m)
              else (m in t.handles <==> m in supplied) && (m in supplied ==> t.handles[m] == supplied[m])
    {
      if Taken(s, m) {
        var g: u32 :| g in s.names && s.names[g] == m;
        assert t.names[g] == m;
      } else if m == n {
        assert t.names[h] == m;
      } else {
        assert t.handles == s.handles[n := h];
        assert forall g <- t.names :: t.names[g] == m ==> g in s.names;
      }
    }
  }

  /** Each supplied entry whose handle has a live key leads to a key of that name. */
  ghost predicate SuppliedFits<A, C, S>(supplied: map<Name, u32>, s: Store<A, C, S>) {
    forall n <- supplied :: supplied[n] in s.names ==> Taken(s, n)
  }

  /** A new cache finds every key, and its index is truthful exactly when the supplied entries fit the keys. */
  lemma IndexedFinds<A, C, S>(supplied: map<Name, u32>, s: Store<A, C, S>)
    requires Indexed(supplied, s)
    ensures Findable(s)
    ensures SuppliedAgree(s) <==> SuppliedFits(supplied, s)
  {
    forall h <- s.names
      ensures s.names[h] in s.handles
    {
      assert Taken(s, s.names[h]);
    }
    forall n: Name | n in s.handles && s.handles[n] in s.names
      ensures s.names[s.handles[n]] == n <==> Taken(s, n)
    {
      if Taken(s, n) {
        assert Published(s, n);
      }
    }
    if SuppliedAgree(s) {
      forall n <- supplied | supplied[n] in s.names
        ensures Taken(s, n)
      {
        if n in s.handles && s.handles[n] == supplied[n] {
          assert s.names[s.handles[n]] == n;
        }
      }
    }
  }
}
