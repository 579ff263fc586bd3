/**
  The key ring of crates/auth/src/crypto.rs over abstract library calls.

  Hashing, the AEAD cipher, UTF-8 checking and JSON are foreign code: they enter as function
  values, and `Lawful` states the only facts assumed about them. A `string` here is a byte string
  with one character for each byte.
*/
module Crypto {
  import opened Prelude

  /** The one-time authorization-code transaction (crates/auth/src/oidc.rs). */
  datatype OidcTransaction = OidcTransaction(state: string, nonce: string, pkceVerifier: string)

  datatype Library = Library(
    sha256: string -> string,
    seal: (string, string, string, string) -> string,         // key, nonce, context, text
    unseal: (string, string, string, string) -> Option<string>, // key, nonce, context, ciphertext
    isUtf8: string -> bool,
    toJson: OidcTransaction -> string,
    fromJson: string -> Option<OidcTransaction>)

  /** Authenticated decryption returns what was encrypted, and JSON decoding what was encoded. */
  ghost predicate Lawful(lib: Library) {
    && (forall key, nonce, context, text ::
          lib.unseal(key, nonce, context, lib.seal(key, nonce, context, text)) == Some(text))
    && (forall tx :: lib.fromJson(lib.toJson(tx)) == Some(tx))
  }

  const NONCE_LENGTH := 12

  type Nonce = n: string | |n| == NONCE_LENGTH witness "000000000000"

  datatype EncryptedValue = EncryptedValue(keyId: string, payload: string)

  datatype KeyRing = KeyRing(activeKeyId: string, keys: map<string, string>)

  datatype CryptoError = ActiveKeyMissing | UnknownKey | InvalidCiphertext | AuthenticationFailed

  function Encrypt(lib: Library, ring: KeyRing, nonce: Nonce, text: string, context: string)
    : Result<EncryptedValue, CryptoError>
  {
    if ring.activeKeyId !in ring.keys then Err(ActiveKeyMissing)
    else Ok(EncryptedValue(ring.activeKeyId,
                           nonce + lib.seal(ring.keys[ring.activeKeyId], nonce, context, text)))
  }

  function Decrypt(lib: Library, ring: KeyRing, value: EncryptedValue, context: string)
    : Result<string, CryptoError>
  {
    if value.keyId !in ring.keys then Err(UnknownKey)
    else if |value.payload| < NONCE_LENGTH then Err(InvalidCiphertext)
    else
      match lib.unseal(ring.keys[value.keyId], value.payload[..NONCE_LENGTH], context,
                       value.payload[NONCE_LENGTH..])
      case Some(text) => Ok(text)
      case None => Err(AuthenticationFailed)
  }

  /** A ring that still holds, under the same identifier, the key another ring encrypts with. */
  predicate Keeps(reader: KeyRing, writer: KeyRing) {
    && writer.activeKeyId in writer.keys
    && writer.activeKeyId in reader.keys
    && reader.keys[writer.activeKeyId] == writer.keys[writer.activeKeyId]
  }

  /** Key rotation keeps old records readable exactly as long as the ring keeps the old key. */
  lemma DecryptInvertsEncrypt(lib: Library, writer: KeyRing, reader: KeyRing, nonce: Nonce, text: string, context: string)
    requires Lawful(lib) && Keeps(reader, writer)
    ensures Encrypt(lib, writer, nonce, text, context).Ok?
    ensures Decrypt(lib, reader, Encrypt(lib, writer, nonce, text, context).value, context) == Ok(text)
  {
    var sealed := lib.seal(writer.keys[writer.activeKeyId], nonce, context, text);
    assert (nonce + sealed)[..NONCE_LENGTH] == nonce;
    assert (nonce + sealed)[NONCE_LENGTH..] == sealed;
  }
}
