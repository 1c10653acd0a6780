# Windows Hello key cache

A model of KeePassXC's Windows Hello quick-unlock component. After a database
has been unlocked once with its password, its master key is wrapped with the
RSA key of the user's Windows Hello credential and kept in memory. Later
unlocks ask Windows Hello to unwrap it, which requires a fingerprint, face or
PIN gesture.

The implementation keeps two process-wide globals:
- a tri-state capability flag, with the values undefined (-1), available (1)
  and not available (0);
- a hash from database path to ciphertext.

Here both globals are one immutable `WindowsHello.State`, and every entry
point is a pure function of it. Each function's result mirrors the C++
signature:
- `isAvailable` and `storeKey` return the new state and the boolean.
- `getKey` also returns its out-parameter.
- `hasKey` returns only the boolean, and `reset` returns only the new state.

`Sessions.Apply` gives every call the same (state, boolean) shape, so that
calls can be chained.

The operating system's answers are passed in as parameters:
- `isAvailable` takes a `Probe`: which probe steps succeed, and whether the
  application has an active window.
- `storeKey` and `getKey` take a full `Oracle`. It holds a probe for the
  availability check, a probe for the session, and what encryption and
  decryption produce.
- `hasKey` and `reset` take none, since they never reach the platform.

There is no real cryptography and no Win32 call.

Files:
- `platform.dfy`, module `Platform`: the oracle. It holds the six probe
  steps and the order they are planned in, the two-phase encryption outcome,
  and the decryption outcome.
- `windows_hello.dfy`, module `WindowsHello`: the state record and the
  entry points. `RunProbe` is the step sequence of `getNCryptHandles` and
  `GetHandles` is its effect on the flag.
- `sessions.dfy`, module `Sessions`: sequences of calls and the invariants
  that hold across them.
- `properties.dfy`, module `Properties`: round trips and other facts about
  two or three consecutive calls.

A probe issues its steps in order. The first step that fails sets the flag to
not available and ends the probe; full success sets it to available.
`isAvailable` probes only while the flag is undefined. `storeKey` and
`getKey` consult `isAvailable` and then probe again to open the handles for
their own encryption or decryption. The second probe runs only when the
call's own guards pass: for a store, the gate answered available and the
path has no key yet; for a fetch, the path has a key and the gate answered
available. A call that starts with the flag undefined can therefore run two
probes, and the oracle carries one answer for each (`gate` and `session`).

## Model

| member | source | states |
|---|---|---|
| `WindowsHello.RunProbe` | src/winhello/WindowsHello.cpp:43-113 | The probe succeeds exactly when provider open, key enumeration, key open, the prompt property and the gesture-required property succeed, plus the window property when there is an active window. The steps attempted are a prefix of the planned order, and each attempted step before the last one succeeded. A failed probe ends at its first failing step: the last attempted step is the one that failed. The window property is attempted exactly when there is an active window and the earlier steps succeeded. |
| `WindowsHello.GetHandles` | src/winhello/WindowsHello.cpp:43-113 | Every run of the probe leaves the flag defined. The flag is Available exactly when the probe succeeded, and the wrapped-key map is never touched. |
| `WindowsHello.IsAvailable` | src/winhello/WindowsHello.cpp:122-133 | Once the flag is defined, the cached flag answers and the state is returned unchanged. While it is undefined, the answer is the probe's outcome. Afterwards the flag is never undefined, the answer is true exactly when the flag is Available, and the map is unchanged. |
| `WindowsHello.StoreKey` | src/winhello/WindowsHello.cpp:135-182 | An empty path or key gives false with no change at all. A lost capability gives false with no change. A path already present gives true and nothing changes, whatever the new key is. Success holds exactly when the guards pass and either the path is present or both the session probe and both encryption phases succeed. A failure leaves the map unchanged. A fresh success adds exactly `path` bound to the key's ciphertext and keeps every other entry. A failed gate probe leaves the flag as `isAvailable` recorded it, that is not available. A failed session probe marks the capability lost. A failed encryption leaves it Available. |
| `WindowsHello.GetKey` | src/winhello/WindowsHello.cpp:184-219 | The map is never changed. Every failure returns the caller's out-parameter untouched. An empty or absent path fails with no state change, and so does a lost capability. Success holds exactly when the path is present, both probes succeed and the stored ciphertext decrypts into a plaintext no longer than itself. That plaintext is what is returned. A failed gate probe leaves the flag as `isAvailable` recorded it, and a failed session probe marks the capability lost. A failed or oversized decryption leaves the flag Available, as the probes set it. Only a failing probe can mark the capability lost. |
| `WindowsHello.HasKey` | src/winhello/WindowsHello.cpp:221-224 | A bare membership test with no capability check and no state change. It carries no contract of its own, since any would repeat its body; its meaning is fixed by `Properties.HasKeyAfterStoreAndReset`. |
| `WindowsHello.Reset` | src/winhello/WindowsHello.cpp:226-233 | The empty path (the default argument) empties the map. Any other path removes exactly that key. Surviving entries keep their ciphertext and the flag is untouched. |
| `Sessions.Apply` | src/winhello/WindowsHello.cpp:122-233 | Any single call moves the flag only from undefined to a defined value, or from Available to NotAvailable. When the flag is NotAvailable, every gated call returns false. The flag becomes Available only in a call that itself runs a probe that gets through: the gate probe while the flag is undefined, or a session probe after the call's own input guards passed. If the flag starts undefined and stays undefined, no key is added. A call that returns false leaves the map unchanged, and only a successful store adds keys. Every entry afterwards was either already there with the same ciphertext, or is a fresh entry this call wrapped and stored while returning true. |
| `Sessions.CapabilityOnlyDegrades` | src/winhello/WindowsHello.cpp:41-133 | Across any sequence of calls, the flag never returns to undefined and never goes from not available back to available. |
| `Sessions.NotAvailableIsAbsorbing` | src/winhello/WindowsHello.cpp:122-193 | From a not-available state, every later `isAvailable`, `storeKey` and `getKey` in any sequence of calls returns false, and the flag stays not available. |
| `Sessions.AvailableNeedsSuccessfulProbe` | src/winhello/WindowsHello.cpp:111-133 | If a state that was not available ends available, then some call in the sequence is the one that turned the flag available, and that call ran a probe that got through. The state it was made in is given by the calls before it. |
| `Sessions.EntryProvenance` | src/winhello/WindowsHello.cpp:135-182 | After any sequence of calls, every wrapped key has one of two origins. Either it was present from the start with the same ciphertext, or it was inserted by a store call that returned true. That call was made when the path had no key, was for that same non-empty path with a non-empty key, and encrypted the key to exactly that ciphertext. |
| `Sessions.NotAvailableNeverGrows` | src/winhello/WindowsHello.cpp:135-143 | From a not-available state, no sequence of calls adds a path to the cache: every store is refused, and only `reset` still changes the map. |
| `Sessions.NoKeyForEmptyPath` | src/winhello/WindowsHello.cpp:137-139 | The empty path never acquires a wrapped key, whatever calls are made. |
| `Sessions.ReachablePreserved` | src/winhello/WindowsHello.cpp:135-182 | Two facts hold in a state and stay true over any sequence of calls. While the flag is undefined, the cache is empty. The empty path has no key. |
| `Sessions.InitOnlyReachesDecidedCaches` | src/winhello/WindowsHello.cpp:39-41 | From process start, with the flag undefined and no keys, every call sequence ends in a state with no key for the empty path. If that state has any key, the flag is decided. |
| `Properties.ProbeIsCached` | src/winhello/WindowsHello.cpp:122-133 | A second `isAvailable` returns the first one's answer and state, whatever the platform would answer now. |
| `Properties.StoreThenGetRoundTrip` | src/winhello/WindowsHello.cpp:156-215 | Suppose a fresh store is followed by a fetch, and the platform's decryption inverts its encryption on that key. Then the fetch succeeds exactly when its session probe does, and it returns the stored key. |
| `Properties.FirstStoredKeyWins` | src/winhello/WindowsHello.cpp:141-143 | After a fresh store of `k1`, storing `k2` for the same path returns true and changes nothing. A later fetch can only return `k1`. |
| `Properties.HasKeyAfterStoreAndReset` | src/winhello/WindowsHello.cpp:221-233 | After a successful store, `hasKey` is true for that path. Resetting that path makes it false and keeps every other path. Resetting the empty path makes it false everywhere. |
| `Properties.ResetOneKeepsOther` | src/winhello/WindowsHello.cpp:226-233 | Store two different databases and reset the first. The first has no key any more, and the second still round-trips to its own key. |

## Left out

- Handle release (`freeNCryptHandles`, lines 115-119) is left out because it has no effect on the flag or the map. The same goes for freeing handles that were never opened on failure paths.
- The leaks of the prompt buffer and the ciphertext buffer are left out for the same reason. So is the missing terminator of the prompt string.
- The prompt text is left out. Its translation and its `wchar_t` conversion are not modelled; only whether the platform accepts the property is.
- Retrieving the window handle from Qt is left out. Only whether an active window exists is modelled.
- The RSA encryption itself is not modelled. It is PKCS #1 v1.5 padding (RSAES-PKCS1-v1_5, section 7.2 of RFC 8017). Encryption and decryption are oracle functions that may fail, and round trips are proved only under the explicit assumption `DecryptInverts`.
- The two-phase encryption buffer sizing is collapsed into one outcome. The first call queries the size and the second fills the buffer. The model keeps only which phase failed, or the final ciphertext.
- The in-place decryption buffer is modelled only by its length. A plaintext longer than the ciphertext counts as a decryption failure, because the platform reports a too-small output buffer as an error.
- Blocking on the user's gesture and any threading are left out. Calls are modelled as atomic and sequential.
- The integer encoding of the flag (-1, 1 and 0 in `WindowsHello.h`) is left out. The model compares enumeration values, which the implementation does through those constants.

Two behaviours of the code are easy to miss, and the model follows them. First, every failing probe step sets the flag to not available. That includes a failed property set, and it includes the probe that `storeKey` and `getKey` run to open their session. Second, a failed `getKey` leaves the out-parameter exactly as the caller passed it.
