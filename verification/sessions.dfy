/** A process's life as a sequence of calls into the key cache, and what
    holds across such sequences: the capability flag only ever degrades,
    unavailability is absorbing, Available is only ever reached through a
    successful probe, and every wrapped key comes from a successful store. */
module Sessions {
  import opened Platform
  import opened WindowsHello

  /** One call into the key cache, with the platform's answers for it. */
  datatype Call =
    | IsAvailableCall(probe: Probe)
    | StoreKeyCall(path: string, key: seq<byte>, oracle: Oracle)
    | GetKeyCall(path: string, out: seq<byte>, oracle: Oracle)
    | HasKeyCall(path: string)
    | ResetCall(path: string)
  {
    /** The calls that consult the capability flag before answering. */
    predicate Gated()
    {
      IsAvailableCall? || StoreKeyCall? || GetKeyCall?
    }

    /** Made in state `s`, this call actually runs a probe that gets through:
        the gate probe of `isAvailable` while the flag is undefined, or the
        session probe a store or fetch runs once its own guards have passed. */
    predicate RunsSuccessfulProbe(s: State)
    {
      var gateProbed := s.avail == Undefined;
      match this
      case IsAvailableCall(p) => gateProbed && RunProbe(p).ok
      case StoreKeyCall(path, key, o) =>
        && path != [] && key != []
        && (|| (gateProbed && RunProbe(o.gate).ok)
            || (IsAvailable(s, o.gate).ok && path !in s.keys && RunProbe(o.session).ok))
      case GetKeyCall(path, _, o) =>
        && path != [] && path in s.keys
        && (|| (gateProbed && RunProbe(o.gate).ok)
            || (IsAvailable(s, o.gate).ok && RunProbe(o.session).ok))
      case HasKeyCall(_) => false
      case ResetCall(_) => false
    }

    /** This call is a store of a non-empty key for the non-empty `path`,
        whose encryption produced `cipher`. */
    predicate Wraps(path: string, cipher: seq<byte>)
    {
      && StoreKeyCall?
      && this.path == path && path != [] && key != []
      && oracle.encrypt(key) == Encrypted(cipher)
    }
  }

  /** The flag may go from Undefined to anything and from Available to
      NotAvailable, and nowhere else. */
  predicate Degrades(a: Tri, b: Tri)
  {
    a == b || a == Undefined || (a == Available && b == NotAvailable)
  }

  /** One call; `reset` returns nothing and is reported as a success. */
  function Apply(s: State, c: Call): (r: Answer)
    ensures Degrades(s.avail, r.next.avail)
    ensures s.avail == NotAvailable && c.Gated() ==> !r.ok
    ensures s.avail != Available && r.next.avail == Available ==> c.RunsSuccessfulProbe(s)
    ensures s.avail == Undefined && r.next.avail == Undefined ==> r.next.keys.Keys <= s.keys.Keys
    // A call that fails leaves the map alone, and only a successful store adds keys.
    ensures !r.ok ==> r.next.keys == s.keys
    ensures !(r.ok && c.StoreKeyCall?) ==> r.next.keys.Keys <= s.keys.Keys
    ensures forall p :: p in r.next.keys ==>
      || (p in s.keys && r.next.keys[p] == s.keys[p])
      || (r.ok && p !in s.keys && c.Wraps(p, r.next.keys[p]))
  {
    match c
    case IsAvailableCall(p) => IsAvailable(s, p)
    case StoreKeyCall(path, key, o) => StoreKey(s, path, key, o)
    case GetKeyCall(path, out, o) => var u := GetKey(s, path, out, o); Answer(u.next, u.ok)
    case HasKeyCall(path) => Answer(s, HasKey(s, path))
    case ResetCall(path) => Answer(Reset(s, path), true)
  }

  /** The final state of a sequence of calls and the boolean each returned. */
  datatype Transcript = Transcript(final: State, replies: seq<bool>)

  function Run(s: State, calls: seq<Call>): (t: Transcript)
    ensures |t.replies| == |calls|
    decreases |calls|
  {
    if calls == [] then Transcript(s, [])
    else
      var a := Apply(s, calls[0]);
      var rest := Run(a.next, calls[1..]);
      Transcript(rest.final, [a.ok] + rest.replies)
  }

  /** However many calls follow, the flag never returns to Undefined and
      never goes from NotAvailable back to Available. */
  lemma {:induction false} CapabilityOnlyDegrades(s: State, calls: seq<Call>)
    ensures Degrades(s.avail, Run(s, calls).final.avail)
    decreases |calls|
  {
    if calls != [] {
      CapabilityOnlyDegrades(Apply(s, calls[0]).next, calls[1..]);
    }
  }

  /** Once the capability is lost, every later `isAvailable`, `storeKey` and
      `getKey` returns false, and the capability stays lost. */
  lemma {:induction false} NotAvailableIsAbsorbing(s: State, calls: seq<Call>)
    requires s.avail == NotAvailable
    ensures Run(s, calls).final.avail == NotAvailable
    ensures forall i :: 0 <= i < |calls| && calls[i].Gated() ==> !Run(s, calls).replies[i]
    decreases |calls|
  {
    if calls != [] {
      var a := Apply(s, calls[0]);
      NotAvailableIsAbsorbing(a.next, calls[1..]);
      var t := Run(s, calls);
      forall i | 0 <= i < |calls| && calls[i].Gated()
        ensures !t.replies[i]
      {
        if i > 0 {
          assert calls[i] == calls[1..][i - 1];
        }
      }
    }
  }

  /** Call `c`, made in state `s`, is the one that turns the flag Available,
      and it does so by running a probe that gets through. */
  predicate TurnsAvailable(s: State, c: Call)
  {
    s.avail != Available && Apply(s, c).next.avail == Available && c.RunsSuccessfulProbe(s)
  }

  /** A state that is not Available becomes Available only at a call that
      itself runs a successful probe: `getNCryptHandles` is the only code that
      sets the flag to Available. */
  lemma {:induction false} AvailableNeedsSuccessfulProbe(s: State, calls: seq<Call>)
    requires s.avail != Available && Run(s, calls).final.avail == Available
    ensures exists i :: 0 <= i < |calls| && TurnsAvailable(Run(s, calls[..i]).final, calls[i])
    decreases |calls|
  {
    if calls == [] {
      assert false;
    } else {
      var a := Apply(s, calls[0]);
      if a.next.avail == Available {
        assert calls[..0] == [];
        assert TurnsAvailable(Run(s, calls[..0]).final, calls[0]);
      } else {
        AvailableNeedsSuccessfulProbe(a.next, calls[1..]);
        var j :| 0 <= j < |calls[1..]| && TurnsAvailable(Run(a.next, calls[1..][..j]).final, calls[1..][j]);
        assert calls[..j + 1][1..] == calls[1..][..j];
        assert Run(s, calls[..j + 1]).final == Run(a.next, calls[1..][..j]).final;
        assert TurnsAvailable(Run(s, calls[..j + 1]).final, calls[j + 1]);
      }
    }
  }

  /** Call `c`, made in state `s`, succeeds and inserts the fresh entry
      `p` bound to `cipher`, which it wrapped itself. */
  predicate Inserts(s: State, c: Call, p: string, cipher: seq<byte>)
  {
    && p !in s.keys
    && Apply(s, c).ok
    && p in Apply(s, c).next.keys && Apply(s, c).next.keys[p] == cipher
    && c.Wraps(p, cipher)
  }

  /** Every wrapped key in the cache was there from the start, unchanged, or
      was inserted by a store that succeeded, for its own non-empty path,
      encrypting a non-empty key to exactly that ciphertext. */
  lemma {:induction false} EntryProvenance(s: State, calls: seq<Call>, p: string)
    requires p in Run(s, calls).final.keys
    ensures var c := Run(s, calls).final.keys[p];
      || (p in s.keys && c == s.keys[p])
      || exists i :: 0 <= i < |calls| && Inserts(Run(s, calls[..i]).final, calls[i], p, c)
    decreases |calls|
  {
    if calls != [] {
      var a := Apply(s, calls[0]);
      var c := Run(s, calls).final.keys[p];
      EntryProvenance(a.next, calls[1..], p);
      if p in a.next.keys && c == a.next.keys[p] {
        if !(p in s.keys && c == s.keys[p]) {
          assert calls[..0] == [];
          assert Inserts(Run(s, calls[..0]).final, calls[0], p, c);
        }
      } else {
        var j :| 0 <= j < |calls[1..]| && Inserts(Run(a.next, calls[1..][..j]).final, calls[1..][j], p, c);
        assert calls[..j + 1][1..] == calls[1..][..j];
        assert Run(s, calls[..j + 1]).final == Run(a.next, calls[1..][..j]).final;
        assert Inserts(Run(s, calls[..j + 1]).final, calls[j + 1], p, c);
      }
    }
  }

  /** Once the capability is lost, the cache can only shrink: every store is
      refused, so `reset` is the only call that still changes the map. */
  lemma {:induction false} NotAvailableNeverGrows(s: State, calls: seq<Call>)
    requires s.avail == NotAvailable
    ensures Run(s, calls).final.keys.Keys <= s.keys.Keys
    decreases |calls|
  {
    if calls != [] {
      var a := Apply(s, calls[0]);
      NotAvailableNeverGrows(a.next, calls[1..]);
    }
  }

  /** The empty path never gets a wrapped key, since `storeKey` refuses it. */
  lemma NoKeyForEmptyPath(s: State, calls: seq<Call>)
    requires "" !in s.keys
    ensures "" !in Run(s, calls).final.keys
  {
    if "" in Run(s, calls).final.keys {
      EntryProvenance(s, calls, "");
    }
  }

  /** What every state reachable from process start satisfies: a wrapped key
      exists only once the capability has been decided, and never for the
      empty path. */
  predicate Reachable(s: State)
  {
    (s.avail == Undefined ==> s.keys == map[]) && "" !in s.keys
  }

  lemma {:induction false} ReachablePreserved(s: State, calls: seq<Call>)
    requires Reachable(s)
    ensures Reachable(Run(s, calls).final)
    decreases |calls|
  {
    NoKeyForEmptyPath(s, calls);
    if calls != [] {
      var a := Apply(s, calls[0]);
      if s.avail == Undefined && a.next.avail == Undefined {
        assert a.next.keys == map[];
      }
      ReachablePreserved(a.next, calls[1..]);
    }
  }

  /** From the initial state, whatever calls are made, a non-empty cache means
      the capability was decided, and the empty path has no key. */
  lemma InitOnlyReachesDecidedCaches(calls: seq<Call>)
    ensures var f := Run(Init, calls).final;
      (f.keys != map[] ==> f.avail != Undefined) && "" !in f.keys
  {
    ReachablePreserved(Init, calls);
  }
}
