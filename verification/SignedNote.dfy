/** Checkpoints and signed notes as the witness protocol sees them.

  A signed body fixes the checkpoint it parses to; `spelling` separates bodies that differ
  only in text (an alternative base64 ending, say). Signed messages are free constructors,
  and a `Crypto` value supplies the key identifiers and the signature check.
 */
module SignedNote {
  import opened Prelude
  import opened Merkle

  type Byte = n: nat | n < 256
  type Key = string

  datatype Checkpoint = Checkpoint(origin: string, treeSize: nat, rootHash: Digest, extensions: seq<string>)

  datatype Body = Body(checkpoint: Checkpoint, spelling: string)

  datatype NoteSignature = NoteSignature(name: string, keyId: nat, signature: seq<Byte>)

  datatype ParsedNote = ParsedNote(body: Body, signatures: seq<NoteSignature>)

  /** Note text: unreadable, or a body with signature lines. */
  datatype NoteText = Unreadable(text: string) | Readable(body: Body, signatures: seq<NoteSignature>)

  datatype Message =
    | LogBody(body: Body)
    | Cosigned(timestamp: nat, body: Body)
    | SubtreeSigned(cosigner: string, timestamp: nat, origin: string, treeSize: nat, rootHash: Digest)

  datatype Crypto = Crypto(
    keyId: (string, nat, Key) -> nat,
    verify: (Key, Message, seq<Byte>) -> bool)

  const SIG_TYPE_ED25519: nat := 1
  const SIG_TYPE_COSIGNATURE_V1: nat := 4
  const SIG_TYPE_COSIGNATURE_MLDSA44: nat := 6

  /** What the parser guarantees of every body it returns. */
  predicate WellFormed(b: Body) {
    && b.checkpoint.origin != ""
    && b.checkpoint.treeSize <= MAX_SAFE_INTEGER
    && (b.checkpoint.treeSize == 0 ==> b.checkpoint.rootHash == EmptyTree)
  }

  function Parse(note: NoteText): (r: Option<ParsedNote>)
    ensures r.Some? ==> WellFormed(r.value.body)
  {
    if note.Readable? && WellFormed(note.body) then Some(ParsedNote(note.body, note.signatures)) else None
  }

  // ---------- The log's own signature ----------

  predicate LogSignatureOn(crypto: Crypto, parsed: ParsedNote, name: string, key: Key, i: nat)
    requires i < |parsed.signatures|
  {
    var sig := parsed.signatures[i];
    && sig.name == name && sig.keyId == crypto.keyId(name, SIG_TYPE_ED25519, key)
    && crypto.verify(key, LogBody(parsed.body), sig.signature)
  }

  predicate LogSigned(crypto: Crypto, parsed: ParsedNote, name: string, key: Key) {
    exists i :: 0 <= i < |parsed.signatures| && LogSignatureOn(crypto, parsed, name, key, i)
  }

  method VerifyNoteSignature(crypto: Crypto, parsed: ParsedNote, name: string, key: Key) returns (ok: bool)
    ensures ok == LogSigned(crypto, parsed, name, key)
  {
    var expectedId := crypto.keyId(name, SIG_TYPE_ED25519, key);
    for i := 0 to |parsed.signatures|
      invariant forall j :: 0 <= j < i ==> !LogSignatureOn(crypto, parsed, name, key, j)
    {
      var sig := parsed.signatures[i];
      if sig.name != name || sig.keyId != expectedId {
        continue;
      }
      if crypto.verify(key, LogBody(parsed.body), sig.signature) {
        assert LogSignatureOn(crypto, parsed, name, key, i);
        return true;
      }
    }
    return false;
  }
}
