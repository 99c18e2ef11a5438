/**
 * The MAPPINGS section of gpglib/content_parsers/crypt.py: closed tables from
 * the numeric codes of RFC 4880 (section 9) to algorithms, and from ciphers to
 * key sizes. Every lookup of a key a table does not hold fails.
 */
module Mappings {
  import opened Wrappers
  import opened Errors

  /** The PyCrypto classes the tables name, as tags. */
  datatype Algorithm = RSA | ElGamal | DSA | CAST | SHA1 | SHA256

  /** A decompression routine; `windowBits` is the value passed to `zlib.decompress`. */
  datatype Decompressor = Zlib(windowBits: int)

  /** `Mapping(typ, map)`: a named, closed table. */
  datatype Mapping<K(==), V> = Mapping(kind: string, entries: map<K, V>) {

    /** `__getitem__`: the mapped value, or `NotImplementedError` naming the table. */
    function Get(key: K): (r: Result<V, Error>)
      ensures r.Ok? <==> key in entries
      ensures r.Ok? ==> r.value == entries[key]
      ensures r.Err? ==> r.error == NotImplemented(kind)
    {
      if key !in entries then Err(NotImplemented(kind)) else Ok(entries[key])
    }
  }

  /** Symmetric-key algorithms (RFC 4880 section 9.2). */
  const Encryption: Mapping<int, Algorithm> :=
    Mapping("Symmetric encryption algorithm", map[3 := CAST])

  /** Hash algorithms (RFC 4880 section 9.4). */
  const Hashes: Mapping<int, Algorithm> :=
    Mapping("Hash Algorithm", map[2 := SHA1, 8 := SHA256])

  /** Public-key algorithms (RFC 4880 section 9.1). */
  const Keys: Mapping<int, Algorithm> :=
    Mapping("Key algorithm", map[1 := RSA, 2 := RSA, 3 := RSA, 16 := ElGamal, 17 := DSA])

  /** Key size in bytes of each supported symmetric cipher. */
  const KeySizes: Mapping<Algorithm, nat> :=
    Mapping("Cipher key size", map[CAST := 16])

  /**
   * Compression algorithms (RFC 4880 section 9.3). Code 1 (ZIP) is a raw
   * deflate stream: the negative window size tells zlib there is no header.
   */
  const Decompression: Mapping<int, Decompressor> :=
    Mapping("Decompressor", map[1 := Zlib(-15)])

  /** Codes 1, 2, 3 are RSA, 16 is ElGamal, 17 is DSA; every other code fails. */
  lemma KeyAlgorithmCodes(code: int)
    ensures Keys.Get(code) ==
      if code in {1, 2, 3} then Ok(RSA)
      else if code == 16 then Ok(ElGamal)
      else if code == 17 then Ok(DSA)
      else Err(NotImplemented("Key algorithm"))
  {
  }

  /** Symmetric code 3 is CAST5, whose key is 16 bytes; no other code resolves. */
  lemma SymmetricCodes(code: int)
    ensures Encryption.Get(code).Ok? <==> code == 3
    ensures Encryption.Get(3) == Ok(CAST) && KeySizes.Get(CAST) == Ok(16)
  {
  }

  /** Only CAST has a registered key size. */
  lemma KeySizeCoverage(cipher: Algorithm)
    ensures KeySizes.Get(cipher).Ok? <==> cipher == CAST
  {
  }

  /** Hash code 2 is SHA-1, 8 is SHA-256, and nothing else resolves. */
  lemma HashCodes(code: int)
    ensures Hashes.Get(code).Ok? <==> code == 2 || code == 8
    ensures Hashes.Get(2) == Ok(SHA1) && Hashes.Get(8) == Ok(SHA256)
  {
  }

  /** Compression code 1 is the only decompressor, a raw (headerless) deflate. */
  lemma DecompressionCodes(code: int)
    ensures Decompression.Get(code).Ok? <==> code == 1
    ensures Decompression.Get(1) == Ok(Zlib(-15))
  {
  }
}
