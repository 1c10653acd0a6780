/** The platform side of Windows Hello, reduced to the outcomes the key cache
    observes. Every NCrypt call becomes a success/failure answer, and the
    RSA encryption under the Windows Hello credential becomes a pair of
    possibly-failing functions. Nothing here computes real cryptography. */
module Platform {

  newtype byte = b: int | 0 <= b < 256

  /** The platform calls `getNCryptHandles` issues, in the order it issues them. */
  datatype ProbeStep =
    | OpenProvider        // NCryptOpenStorageProvider on the Passport provider
    | EnumerateKeys       // NCryptEnumKeys, taking the first (only) credential
    | OpenKey             // NCryptOpenKey on that credential
    | SetPrompt           // the use-context (prompt text) property
    | SetWindow           // the owning-window property, only with an active window
    | SetGestureRequired  // the "PIN cache is gesture required" property

  /** How the platform answers one run of the probe. `hasActiveWindow` is not
      a platform call: it says whether the application has an active window,
      and only then is the window property set at all. */
  datatype Probe = Probe(
    opensProvider: bool,
    findsKey: bool,
    opensKey: bool,
    setsPrompt: bool,
    hasActiveWindow: bool,
    setsWindow: bool,
    setsGesture: bool)

  /** Whether the platform accepts `step` in this run. */
  function Succeeds(p: Probe, step: ProbeStep): bool
  {
    match step
    case OpenProvider => p.opensProvider
    case EnumerateKeys => p.findsKey
    case OpenKey => p.opensKey
    case SetPrompt => p.setsPrompt
    case SetWindow => p.setsWindow
    case SetGestureRequired => p.setsGesture
  }

  /** The steps a probe issues when none of them fails: the window step is
      part of the plan only when there is an active window. */
  function Plan(p: Probe): seq<ProbeStep>
  {
    [OpenProvider, EnumerateKeys, OpenKey, SetPrompt]
    + (if p.hasActiveWindow then [SetWindow] else [])
    + [SetGestureRequired]
  }

  /** The two-phase NCryptEncrypt: a size query with no output buffer, then
      the call that fills the buffer. Either may fail. */
  datatype Encryption = SizeQueryFailed | FillFailed | Encrypted(cipher: seq<byte>)

  /** NCryptDecrypt: fails (a cancelled gesture, a re-enrolled credential) or
      yields the recovered plaintext. */
  datatype Decryption = DecryptFailed | Decrypted(plain: seq<byte>)

  /** Everything the platform answers during one API call. `gate` is the probe
      `isAvailable` runs while the capability is undecided; `session` is the
      probe `getNCryptHandles` runs again to open the handles for the wrap or
      unwrap itself. */
  datatype Oracle = Oracle(
    gate: Probe,
    session: Probe,
    encrypt: seq<byte> -> Encryption,
    decrypt: seq<byte> -> Decryption)

  /** The assumption under which a wrapped key round-trips: decrypting what
      `enc` made of `key` with `dec` gives `key` back, and the plaintext fits in
      the ciphertext-sized buffer it is decrypted into. */
  predicate DecryptInverts(enc: Oracle, dec: Oracle, key: seq<byte>)
  {
    enc.encrypt(key).Encrypted? ==>
      && dec.decrypt(enc.encrypt(key).cipher) == Decrypted(key)
      && |key| <= |enc.encrypt(key).cipher|
  }
}
