/** Sealing a password for the state file. AES-GCM is an ideal box: a symbol that
    opens under the key and nonce it was sealed with and under no other. */
module Secrets {
  import opened Tasks

  type Key = nat

  const NONCE_SIZE := 12

  datatype Symbol = Octet(value: int) | Box(key: Key, nonce: seq<Symbol>, text: string)

  type Nonce = n: seq<Symbol> | |n| == NONCE_SIZE witness seq(NONCE_SIZE, i => Octet(0))

  /** The encrypted field of a stored task: empty, not base64, or base64 text. */
  datatype Encoded = Absent | Malformed(text: string) | Base64(data: seq<Symbol>)

  function Seal(key: Key, nonce: seq<Symbol>, text: string): seq<Symbol> { [Box(key, nonce, text)] }

  function Open(key: Key, nonce: seq<Symbol>, ciphertext: seq<Symbol>): Option<string> {
    if |ciphertext| == 1 && ciphertext[0].Box? && ciphertext[0].key == key && ciphertext[0].nonce == nonce
    then Some(ciphertext[0].text)
    else None
  }

  /** encryptSecret: the nonce, followed by the sealed text. */
  function Encrypt(key: Key, nonce: Nonce, text: string): Encoded { Base64(nonce + Seal(key, nonce, text)) }

  /** decryptSecret. */
  function Decrypt(key: Key, encoded: Encoded): Option<string> {
    match encoded
    case Base64(data) =>
      if |data| < NONCE_SIZE then None else Open(key, data[..NONCE_SIZE], data[NONCE_SIZE..])
    case _ => None
  }

  /** Decryption finds exactly what encryption under the same key produced. */
  lemma DecryptsExactlyEncryptions(key: Key, encoded: Encoded, text: string)
    ensures Decrypt(key, encoded) == Some(text) <==> exists nonce: Nonce :: encoded == Encrypt(key, nonce, text)
  {
    if Decrypt(key, encoded) == Some(text) {
      var nonce: Nonce := encoded.data[..NONCE_SIZE];
      assert encoded.data == nonce + encoded.data[NONCE_SIZE..];
      assert encoded.data[NONCE_SIZE..] == Seal(key, nonce, text);
      assert encoded == Encrypt(key, nonce, text);
    } else {
      forall nonce: Nonce ensures encoded != Encrypt(key, nonce, text) {
        RoundTrip(key, nonce, text);
      }
    }
  }

  lemma RoundTrip(key: Key, nonce: Nonce, text: string)
    ensures Decrypt(key, Encrypt(key, nonce, text)) == Some(text)
    ensures Encrypt(key, nonce, text) != Absent
  {
    var data := nonce + Seal(key, nonce, text);
    assert data[..NONCE_SIZE] == nonce && data[NONCE_SIZE..] == Seal(key, nonce, text);
  }

  /** Nothing opens under two keys. */
  lemma OneKeyOpens(k1: Key, k2: Key, encoded: Encoded)
    requires Decrypt(k1, encoded).Some? && Decrypt(k2, encoded).Some?
    ensures k1 == k2
  {
  }
}
