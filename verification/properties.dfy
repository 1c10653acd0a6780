/** Facts about short call sequences: round trips, idempotent stores,
    caching of the capability probe, and what `reset` removes. */
module Properties {
  import opened Platform
  import opened WindowsHello

  /** Once `isAvailable` has answered, later calls answer the same way, run
      no probe, and change nothing, whatever the platform would say now. */
  lemma ProbeIsCached(s: State, p1: Probe, p2: Probe)
    ensures IsAvailable(IsAvailable(s, p1).next, p2) == IsAvailable(s, p1)
  {
  }

  /** A wrap followed by an unwrap returns the key that was wrapped, provided
      the platform's decryption inverts its encryption on that key. The
      unwrap succeeds exactly when its session probe gets through. */
  lemma StoreThenGetRoundTrip(s: State, path: string, key: seq<byte>, out: seq<byte>,
                              enc: Oracle, dec: Oracle)
    requires StoreKey(s, path, key, enc).ok && path !in s.keys
    requires DecryptInverts(enc, dec, key)
    ensures var g := GetKey(StoreKey(s, path, key, enc).next, path, out, dec);
      && (g.ok <==> RunProbe(dec.session).ok)
      && g.key == (if g.ok then key else out)
  {
  }

  /** Storing a second key for a path that already has one succeeds without
      changing anything, so the first key is the one that comes back. */
  lemma FirstStoredKeyWins(s: State, path: string, k1: seq<byte>, k2: seq<byte>, out: seq<byte>,
                           o1: Oracle, o2: Oracle, dec: Oracle)
    requires StoreKey(s, path, k1, o1).ok && path !in s.keys
    requires k2 != []
    requires DecryptInverts(o1, dec, k1)
    ensures var first := StoreKey(s, path, k1, o1).next;
      && StoreKey(first, path, k2, o2) == Answer(first, true)
      && (GetKey(first, path, out, dec).ok ==> GetKey(first, path, out, dec).key == k1)
  {
  }

  /** A stored key is present until it is reset, singly or by the reset of
      everything; a single reset leaves every other entry where it was. */
  lemma HasKeyAfterStoreAndReset(s: State, path: string, key: seq<byte>, o: Oracle)
    requires StoreKey(s, path, key, o).ok
    ensures var t := StoreKey(s, path, key, o).next;
      && HasKey(t, path)
      && !HasKey(Reset(t, path), path)
      && (forall q :: HasKey(t, q) && q != path ==> HasKey(Reset(t, path), q))
      && (forall q :: !HasKey(Reset(t, ""), q))
  {
  }

  /** Two databases are stored, the first is reset: the first has no key any
      more and the second still round-trips. */
  lemma ResetOneKeepsOther(s: State, a: string, b: string, ka: seq<byte>, kb: seq<byte>,
                           out: seq<byte>, oa: Oracle, ob: Oracle, dec: Oracle)
    requires a != b && b !in s.keys
    requires StoreKey(s, a, ka, oa).ok
    requires StoreKey(StoreKey(s, a, ka, oa).next, b, kb, ob).ok
    requires DecryptInverts(ob, dec, kb)
    ensures var t := Reset(StoreKey(StoreKey(s, a, ka, oa).next, b, kb, ob).next, a);
      && !HasKey(t, a)
      && (GetKey(t, b, out, dec).ok <==> RunProbe(dec.session).ok)
      && (GetKey(t, b, out, dec).ok ==> GetKey(t, b, out, dec).key == kb)
  {
  }
}
