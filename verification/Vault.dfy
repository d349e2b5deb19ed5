// Stored message records. Encryption is reduced to the one law it is used for: a record opens to what was
// sealed in it, under the key it was sealed with, for as long as its wrapped key exists.
module Vault {
  import opened Wrappers

  datatype Kind = Duration | BurnOnRead | UntilRevoked

  // The wrapped per-message key together with what it protects.
  datatype Sealed = Sealed(key: nat, plaintext: string)

  // Times are milliseconds.
  datatype Record = Record(messageId: string, conversationId: string, outgoing: bool, kind: Kind,
                           expiresAt: Option<int>, durationSeconds: Option<int>, storedAt: int, read: bool,
                           ownAuthored: bool, body: Option<Sealed>)

  datatype Meta = Meta(messageId: string, conversationId: string, outgoing: bool, kind: Kind, seconds: int,
                       ownAuthored: bool)

  function ExpiryMs(kind: Kind, seconds: int, now: int): Option<int> {
    if kind == Duration then Some(now + seconds * 1000) else None
  }

  function Seal(key: nat, meta: Meta, plaintext: string, now: int, arm: bool): Record {
    Record(meta.messageId, meta.conversationId, meta.outgoing, meta.kind,
           if arm then ExpiryMs(meta.kind, meta.seconds, now) else None,
           if meta.kind == Duration then Some(meta.seconds) else None,
           now, false, meta.outgoing || meta.ownAuthored, Some(Sealed(key, plaintext)))
  }

  function ArmRecord(r: Record, now: int): Record {
    if r.kind != Duration || r.expiresAt.Some? || r.durationSeconds.None? then r
    else r.(expiresAt := Some(now + r.durationSeconds.value * 1000))
  }

  // None where the decryption throws: the wrapped key is gone, or belongs to another account's store key.
  function Open(key: nat, r: Record): Option<string> {
    if r.body.Some? && r.body.value.key == key then Some(r.body.value.plaintext) else None
  }

  // A read burn message keeps its row and loses its key.
  function Tombstone(r: Record): Record {
    r.(read := true, body := None)
  }

  // A record waiting for its expiry.
  predicate Armed(r: Record) {
    r.kind == Duration && r.expiresAt.Some?
  }

  predicate Overdue(r: Record, now: int) {
    Armed(r) && r.expiresAt.value <= now
  }

  // Sealing then viewing starts the same countdown that sealing armed would have started then.
  lemma ArmingLater(key: nat, meta: Meta, plaintext: string, stored: int, viewed: int)
    ensures var r := ArmRecord(Seal(key, meta, plaintext, stored, false), viewed);
      && r.expiresAt == Seal(key, meta, plaintext, viewed, true).expiresAt
      && Open(key, r) == Some(plaintext)
      && ArmRecord(r, viewed + 1) == r
  {
  }
}
