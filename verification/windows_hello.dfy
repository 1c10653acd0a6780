/** The Windows Hello key cache: a process-wide capability flag and a map from
    database path to the master key wrapped under the Windows Hello credential.
    The two globals of the implementation become one immutable `State`, and
    every entry point becomes a pure function of it. The calls that reach the
    platform are told how it answers: `isAvailable` by a `Probe`, `storeKey`
    and `getKey` by an `Oracle`. */
module WindowsHello {
  import opened Platform

  /** The tri-state capability flag. */
  datatype Tri = Undefined | Available | NotAvailable

  datatype State = State(avail: Tri, keys: map<string, seq<byte>>)

  /** The state a process starts in: nothing probed, nothing wrapped. */
  const Init := State(Undefined, map[])

  /** The new state and the boolean an entry point returns. */
  datatype Answer = Answer(next: State, ok: bool)

  /** The same for `getKey`, which also hands back its out-parameter. */
  datatype Unwrapped = Unwrapped(next: State, ok: bool, key: seq<byte>)

  /** The platform steps one probe issued, and whether it got through all of them. */
  datatype ProbeRun = ProbeRun(attempted: seq<ProbeStep>, ok: bool)

  /** The step sequence of `getNCryptHandles`: each step is issued only when
      every earlier one succeeded, the first failure ends the probe, and a
      missing active window skips the window step without failing. */
  function RunProbe(p: Probe): (r: ProbeRun)
    ensures r.ok <==>
      && p.opensProvider && p.findsKey && p.opensKey && p.setsPrompt
      && (p.hasActiveWindow ==> p.setsWindow)
      && p.setsGesture
    ensures 0 < |r.attempted| <= |Plan(p)| && r.attempted == Plan(p)[..|r.attempted|]
    ensures forall i :: 0 <= i < |r.attempted| - 1 ==> Succeeds(p, r.attempted[i])
    ensures r.ok <==> r.attempted == Plan(p) && Succeeds(p, r.attempted[|r.attempted| - 1])
    ensures !r.ok ==> !Succeeds(p, r.attempted[|r.attempted| - 1])
    ensures SetWindow in r.attempted <==>
      p.hasActiveWindow && p.opensProvider && p.findsKey && p.opensKey && p.setsPrompt
  {
    var first := [OpenProvider, EnumerateKeys, OpenKey, SetPrompt];
    if !p.opensProvider then ProbeRun(first[..1], false)
    else if !p.findsKey then ProbeRun(first[..2], false)
    else if !p.opensKey then ProbeRun(first[..3], false)
    else if !p.setsPrompt then ProbeRun(first, false)
    else if p.hasActiveWindow && !p.setsWindow then ProbeRun(first + [SetWindow], false)
    else ProbeRun(Plan(p), p.setsGesture)
  }

  /** `getNCryptHandles`: runs the probe whatever the flag says, and records
      its outcome in the flag. The wrapped keys are not touched. */
  function GetHandles(s: State, p: Probe): (r: Answer)
    ensures r.next.keys == s.keys
    ensures r.ok <==> RunProbe(p).ok
    ensures r.next.avail != Undefined
    ensures r.next.avail == Available <==> r.ok
  {
    if RunProbe(p).ok then Answer(s.(avail := Available), true)
    else Answer(s.(avail := NotAvailable), false)
  }

  /** `isAvailable`: probes only while the flag is undecided; afterwards the
      cached flag answers and nothing changes. */
  function IsAvailable(s: State, p: Probe): (r: Answer)
    ensures r.next.keys == s.keys
    ensures r.next.avail != Undefined
    ensures r.ok <==> r.next.avail == Available
    ensures s.avail != Undefined ==> r.next == s
    ensures s.avail == Undefined ==> (r.ok <==> RunProbe(p).ok)
  {
    var probed := if s.avail == Undefined then GetHandles(s, p).next else s;
    Answer(probed, probed.avail == Available)
  }

  /** `storeKey`: wraps `key` for `path` unless the path or key is empty or
      the capability is missing. An existing entry is kept as it is, even for
      a different key. The map changes only by gaining `path`, bound to the
      ciphertext of `key`; a failure leaves it as it was. */
  function StoreKey(s: State, path: string, key: seq<byte>, o: Oracle): (r: Answer)
    // Input guards are checked before the platform is consulted at all.
    ensures path == [] || key == [] ==> r == Answer(s, false)
    // Once unavailable, always refused, and nothing changes.
    ensures s.avail == NotAvailable ==> r == Answer(s, false)
    // Idempotence: a path already present is a success that changes nothing.
    ensures path != [] && key != [] && s.avail == Available && path in s.keys ==> r == Answer(s, true)
    ensures r.ok <==>
      && path != [] && key != [] && IsAvailable(s, o.gate).ok
      && (path in s.keys || (RunProbe(o.session).ok && o.encrypt(key).Encrypted?))
    ensures !r.ok ==> r.next.keys == s.keys
    ensures r.ok ==> r.next.avail == Available && path in r.next.keys
    ensures r.ok && path in s.keys ==> r.next.keys == s.keys
    ensures r.ok && path !in s.keys ==>
      && o.encrypt(key) == Encrypted(r.next.keys[path])
      && r.next.keys == s.keys[path := r.next.keys[path]]
    // A failing gate probe leaves the capability lost, as `isAvailable` recorded it.
    ensures (path != [] && key != [] && !IsAvailable(s, o.gate).ok)
            ==> r == Answer(IsAvailable(s, o.gate).next, false)
    // A failing session probe marks the capability lost.
    ensures (path != [] && key != [] && IsAvailable(s, o.gate).ok && path !in s.keys
             && !RunProbe(o.session).ok)
            ==> r == Answer(s.(avail := NotAvailable), false)
    // A failing encryption leaves the capability Available.
    ensures (path != [] && key != [] && IsAvailable(s, o.gate).ok && path !in s.keys
             && RunProbe(o.session).ok && !o.encrypt(key).Encrypted?)
            ==> r == Answer(s.(avail := Available), false)
  {
    if path == [] || key == [] then Answer(s, false)
    else
      var gate := IsAvailable(s, o.gate);
      if !gate.ok then Answer(gate.next, false)
      else if path in gate.next.keys then Answer(gate.next, true)
      else
        var session := GetHandles(gate.next, o.session);
        if !session.ok then Answer(session.next, false)
        else match o.encrypt(key)
          case SizeQueryFailed => Answer(session.next, false)
          case FillFailed => Answer(session.next, false)
          case Encrypted(cipher) =>
            Answer(session.next.(keys := session.next.keys[path := cipher]), true)
  }

  /** `getKey`: unwraps the key stored for `path`. The map is never changed;
      the out-parameter `out` comes back untouched on every failure. The
      plaintext is decrypted in place, into a buffer as long as the
      ciphertext, so a longer plaintext is the platform's buffer-too-small
      failure. */
  function GetKey(s: State, path: string, out: seq<byte>, o: Oracle): (r: Unwrapped)
    ensures r.next.keys == s.keys
    ensures !r.ok ==> r.key == out
    ensures path == [] || path !in s.keys ==> r == Unwrapped(s, false, out)
    ensures s.avail == NotAvailable ==> r == Unwrapped(s, false, out)
    ensures r.ok <==>
      && path != [] && path in s.keys && IsAvailable(s, o.gate).ok && RunProbe(o.session).ok
      && o.decrypt(s.keys[path]).Decrypted?
      && |o.decrypt(s.keys[path]).plain| <= |s.keys[path]|
    ensures r.ok ==>
      && r.next.avail == Available
      && o.decrypt(s.keys[path]) == Decrypted(r.key)
      && |r.key| <= |s.keys[path]|
    // Only a failing probe changes the flag; a failed decrypt does not.
    ensures r.next.avail == NotAvailable ==>
      s.avail == NotAvailable || !RunProbe(o.gate).ok || !RunProbe(o.session).ok
    // A failing gate probe leaves the capability lost, as `isAvailable` recorded it.
    ensures (path != [] && path in s.keys && !IsAvailable(s, o.gate).ok)
            ==> r == Unwrapped(IsAvailable(s, o.gate).next, false, out)
    // A failing session probe marks the capability lost.
    ensures (path != [] && path in s.keys && IsAvailable(s, o.gate).ok && !RunProbe(o.session).ok)
            ==> r == Unwrapped(s.(avail := NotAvailable), false, out)
    // A failed or oversized decryption keeps the flag Available, as the probes left it.
    ensures (path != [] && path in s.keys && IsAvailable(s, o.gate).ok && RunProbe(o.session).ok
             && !r.ok)
            ==> r == Unwrapped(s.(avail := Available), false, out)
  {
    if path == [] || !HasKey(s, path) then Unwrapped(s, false, out)
    else
      var gate := IsAvailable(s, o.gate);
      if !gate.ok then Unwrapped(gate.next, false, out)
      else
        var session := GetHandles(gate.next, o.session);
        if !session.ok then Unwrapped(session.next, false, out)
        else
          var cipher := session.next.keys[path];
          match o.decrypt(cipher)
          case DecryptFailed => Unwrapped(session.next, false, out)
          case Decrypted(plain) =>
            if |plain| <= |cipher| then Unwrapped(session.next, true, plain)
            else Unwrapped(session.next, false, out)
  }

  /** `hasKey`: membership only, with no capability check. */
  function HasKey(s: State, path: string): bool
  {
    path in s.keys
  }

  /** `reset`: the empty path (the default argument) drops every wrapped key;
      any other path drops that entry alone. The flag is never touched. */
  function Reset(s: State, path: string): (r: State)
    ensures r.avail == s.avail
    ensures path == [] ==> r.keys == map[]
    ensures path != [] ==> r.keys.Keys == s.keys.Keys - {path}
    ensures forall q :: q in r.keys ==> q in s.keys && r.keys[q] == s.keys[q]
  {
    if path == [] then s.(keys := map[])
    else s.(keys := s.keys - {path})
  }
}
