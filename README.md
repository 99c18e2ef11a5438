# gpglib packet-content engine in Dafny

This project models the packet-content core of gpglib, a Python 2 OpenPGP
reader (RFC 4880). It covers these parts:

- **Algorithm registry** (`gpglib/content_parsers/crypt.py`). A `Mapping` is a
  closed table. Looking up a key it does not hold raises
  `NotImplementedError`. The tables map RFC 4880 codes to public-key,
  symmetric, hash and compression algorithms, and ciphers to key sizes.
- **MPI reads**. An RFC 4880 section 3.2 multi-precision integer is a
  16-bit big-endian bit count followed by `ceil(bits / 8)` bytes. It is read
  from a region: an immutable byte buffer with a cursor. Reads only move the
  cursor forward; `find` moves it to the first match counted from the start
  of the buffer.
- **Key-material layouts**. Each public-key algorithm stores a fixed number
  of MPIs, in a fixed order, in three contexts:
  - session-key ciphertexts (section 5.1);
  - public keys (section 5.5.2);
  - secret keys (section 5.5.3).
- **`PKCS.consume`**. It reads the session-key ciphertext MPIs, decrypts
  them, and removes EME-PKCS1-v1_5 padding (section 13.1.2 of RFC 4880).
  Malformed padding never raises; the result is then a random 19-byte
  fallback, and the decrypted block is read to its end in every branch.
- **`gpglib/utils.py`**:
  - `bytes_to_long`, a big-endian decoder;
  - `dump`, a hex formatter;
  - `ValueTracker`, which records started and finished items as a tree with
    a pointer to the open item.

Module layout:

| file | module | contents |
|---|---|---|
| `wrappers.dfy` | `Wrappers` | `Option`, `Result` |
| `errors.dfy` | `Errors` | the exceptions the core raises, as values |
| `utils.dfy` | `Utils` | `byte`, `BytesToLong`, `Hex2`, `Join`, `Dump` |
| `region.dfy` | `Regions` | the `Region` class (a `ConstBitStream` used byte-wise) |
| `mappings.dfy` | `Mappings` | `Mapping`, the algorithm tables |
| `mpi.dfy` | `Mpis` | `Parse`, the MPI layouts, the `consume_*` methods |
| `pkcs.dfy` | `Pkcs` | padding removal and `PKCS.consume` |
| `tracker.dfy` | `ValueTracking` | the `ValueTracker` class and `consumed()` |

The stateful parts are classes:
- `Region` keeps its cursor in a `pos` field. `Parse`, the six layout
  helpers and the `consume_*` methods move it.
- `ValueTracker` keeps the tree of items and the current-item pointer as
  fields. `StartItem` and `EndItem` update them.

Each method is proved against a specification function:
- `MpiAt`/`ReadMpis` for the reads;
- `Unpadded` for the padding removal;
- `AppendAt`, `Up` and `Items` for the tracker.

The lemmas then state the properties of those functions. Examples are the
round trips, the bounds and the error cases.

The source is Python 2. So `(raw + 7) / 8` is floor division on
non-negative numbers, and `read("bytes:1") == '\x02'` compares one byte.
`bytes_to_long` is modelled as its Python 3 branch, `int.from_bytes(s,
"big")`, which computes the same value as the Python 2 import.

Three behaviours of the code are modelled as the code has them:

- `find` in the bitstring library searches from the start of the stream, not
  from the cursor. `Region.Find` does the same. In `PKCS.consume` byte 0 is
  `0x02` at that point, so the first zero byte it finds is at index 1 or
  later, and "padding length" is that index minus 1.
- An empty decrypted block makes `read("bytes:1")` raise. `Unpadded` and
  `Pkcs.Consume` return `Err(ReadError)` for it; this is the only failure of
  the unpadding step.
- After a top-level item is closed, `ValueTracker._current` is the root
  dictionary. Calling `end_item` again raises `KeyError` (`MissingParent`).
  Calling `start_item` instead attaches to the root.

## Model

| member | source | states |
|---|---|---|
| Mappings.Mapping.Get | gpglib/content_parsers/crypt.py:24-28 | succeeds iff the key is in the table, with exactly the mapped value; otherwise fails with `NotImplemented` naming the table |
| Mappings.KeyAlgorithmCodes | gpglib/content_parsers/crypt.py:42-49 | codes 1, 2, 3 give RSA, 16 gives ElGamal, 17 gives DSA, every other code fails |
| Mappings.SymmetricCodes | gpglib/content_parsers/crypt.py:31-34 | only symmetric code 3 resolves, to CAST, and CAST's key size is 16 bytes |
| Mappings.KeySizeCoverage | gpglib/content_parsers/crypt.py:51-55 | only CAST has a key size |
| Mappings.HashCodes | gpglib/content_parsers/crypt.py:36-40 | only hash codes 2 (SHA-1) and 8 (SHA-256) resolve |
| Mappings.DecompressionCodes | gpglib/content_parsers/crypt.py:57-67 | code 1 is the only decompressor, a raw deflate with window size -15 |
| Utils.BytesToLong | gpglib/utils.py:9-10 | the big-endian value of the bytes is below 256^n for n bytes, so the empty input gives 0 |
| Utils.BytesToLongAppend | gpglib/utils.py:9-10 | appending byte x to s gives 256 * value(s) + x |
| Utils.BytesToLongLeadingZeros | gpglib/utils.py:9-10 | leading zero bytes do not change the value |
| Utils.BytesToLongInjective | gpglib/utils.py:9-10 | two byte strings of equal length with equal values are equal |
| Utils.Hex2 | gpglib/utils.py:22 | two lower-case hex digits that decode back to the byte |
| Utils.JoinPairs | gpglib/utils.py:23 | joining two-character words with single spaces puts word i at offset 3i and spaces exactly at offsets 2 mod 3; the length is 3n-1, or 0 |
| Utils.Dump | gpglib/utils.py:18-23 | the result has length 3n-1 (0 for no bytes), holds byte i as two hex digits at offset 3i, and has spaces exactly at offsets 2 mod 3 |
| Regions.FirstIndex | gpglib/content_parsers/crypt.py:94 | the index of the first occurrence of the byte, or none when the byte does not occur |
| Regions.Region.constructor | gpglib/content_parsers/crypt.py:84 | a region over the given bytes with the cursor at 0 |
| Regions.Region.ReadUInt16 | gpglib/content_parsers/crypt.py:121 | the next two bytes as a big-endian value and the cursor moved by 2; `ReadError` and no move when fewer than two bytes remain |
| Regions.Region.ReadBytes | gpglib/content_parsers/crypt.py:125 | the next n bytes and the cursor moved by n; `ReadError` and no move when fewer remain |
| Regions.Region.ReadRest | gpglib/content_parsers/crypt.py:103-106 | everything after the cursor; the cursor ends at the end of the buffer |
| Regions.Region.Find | gpglib/content_parsers/crypt.py:93-95 | found iff the byte occurs anywhere in the buffer; the cursor moves to its first occurrence, or stays put |
| Mpis.MpiLength | gpglib/content_parsers/crypt.py:124 | the bit count rounded up to whole bytes: bits <= 8n < bits + 8 |
| Mpis.U16 | gpglib/content_parsers/crypt.py:121 | a two-byte prefix whose big-endian value is the bit count |
| Mpis.MpiDecodes | gpglib/content_parsers/crypt.py:121-125 | behind a prefix holding bit count b, a read returns exactly the ceil(b/8) bytes that follow and advances by 2 + ceil(b/8) |
| Mpis.MpiRoundTrip | gpglib/content_parsers/crypt.py:121-125 | encoding v with bit count 8 * len(v) and reading it back gives v, with the cursor just past it |
| Mpis.MpiZeroBits | gpglib/content_parsers/crypt.py:121-125 | a bit count of 0 is legal and gives the empty value |
| Mpis.MpiNoPrefix | gpglib/content_parsers/crypt.py:121 | fewer than two bytes left fails with `ReadError` |
| Mpis.MpiTruncated | gpglib/content_parsers/crypt.py:124-125 | fewer value bytes than the prefix announces fails with `ReadError` |
| Mpis.ReadMpisAdvance | gpglib/content_parsers/crypt.py:184-198 | a successful read of k MPIs yields k values and advances by the sum of their encoded sizes, within the buffer |
| Mpis.ReadMpisRoundTrip | gpglib/content_parsers/crypt.py:184-198 | MPIs encoded back to back are read back in order, and the cursor ends just after the last |
| Mpis.LayoutCoverage | gpglib/content_parsers/crypt.py:131-178 | RSA, ElGamal and DSA have public and secret layouts; only RSA and ElGamal have a session-key layout |
| Mpis.Parse | gpglib/content_parsers/crypt.py:118-125 | the MPI at the cursor and the cursor after it; on failure `ReadError`, with the cursor past the prefix when only the value was short |
| Mpis.RsaMpisPublic | gpglib/content_parsers/crypt.py:184-189 | n and e: exactly two consecutive MPIs from the cursor, or the read error |
| Mpis.RsaMpisPrivate | gpglib/content_parsers/crypt.py:191-198 | d, p, q and r: exactly four consecutive MPIs, or the read error |
| Mpis.ElGamalMpisPublic | gpglib/content_parsers/crypt.py:204-210 | p, g and y: exactly three consecutive MPIs, or the read error |
| Mpis.ElGamalMpisPrivate | gpglib/content_parsers/crypt.py:212-216 | x: exactly one MPI, or the read error |
| Mpis.DsaMpisPublic | gpglib/content_parsers/crypt.py:222-229 | p, q, g and y: exactly four consecutive MPIs, or the read error |
| Mpis.DsaMpisPrivate | gpglib/content_parsers/crypt.py:231-235 | x: exactly one MPI, or the read error |
| Mpis.ConsumeEncryption | gpglib/content_parsers/crypt.py:131-144 | RSA reads 1 MPI and ElGamal 2, in wire order; any other algorithm fails with no read |
| Mpis.ConsumePublic | gpglib/content_parsers/crypt.py:150-163 | RSA reads 2, ElGamal 3, DSA 4 MPIs; any other algorithm fails with no read |
| Mpis.ConsumePrivate | gpglib/content_parsers/crypt.py:165-178 | RSA reads 4, ElGamal 1, DSA 1 MPIs; any other algorithm fails with no read |
| Pkcs.UnpadWellFormed | gpglib/content_parsers/crypt.py:90-103 | a block starting 0x02 whose first zero byte is at k >= 9 yields everything after that byte |
| Pkcs.UnpadMalformed | gpglib/content_parsers/crypt.py:86-98 | a wrong first byte, no zero byte, or fewer than eight padding bytes yields the fallback |
| Pkcs.UnpadNeverFails | gpglib/content_parsers/crypt.py:86-106 | a non-empty block never makes the unpadding fail; the result is the fallback or the tail after a separator at k >= 9 |
| Pkcs.UnpadRoundTrip | gpglib/content_parsers/crypt.py:88-103 | 0x02, at least eight non-zero padding bytes, 0x00, m unpads to m |
| Pkcs.UnpadShortPadding | gpglib/content_parsers/crypt.py:97-98 | with fewer than eight padding bytes the result is the fallback, although the block is well formed |
| Pkcs.Unpad | gpglib/content_parsers/crypt.py:84-106 | the result is `Unpadded` of the block, and the cursor over the block ends at its end in every branch |
| Pkcs.Consume | gpglib/content_parsers/crypt.py:80-109 | a fresh region at offset 0 over the payload that the session MPIs decrypt and unpad to, or that step's error; the outer cursor ends after the MPIs whenever they were read |
| Pkcs.RsaSessionKeyRecovered | gpglib/content_parsers/crypt.py:83-103 | an RSA ciphertext MPI that decrypts to a well-formed block around p yields exactly p |
| Pkcs.WrongFirstByteGivesFallback | gpglib/content_parsers/crypt.py:88-91 | a decrypted block whose first byte is not 0x02 yields the 19 random bytes |
| Pkcs.DsaHasNoSessionKey | gpglib/content_parsers/crypt.py:143-144 | DSA has no session-key layout, so the payload is an unknown-algorithm error |
| ValueTracking.AppendAtSpec | gpglib/utils.py:41-44 | appending at a path adds exactly one last child there; removing it gives back the original tree |
| ValueTracking.Items | gpglib/utils.py:51-61 | one pair per item, in insertion order, with that item's info and as many children as the item has |
| ValueTracking.ItemsMirror | gpglib/utils.py:51-61 | the `(info, children)` pairs mirror the tree exactly, in insertion order |
| ValueTracking.ValueTracker.constructor | gpglib/utils.py:27-29 | an empty root and no current item |
| ValueTracking.ValueTracker.StartItem | gpglib/utils.py:35-44 | the new item becomes the last child of the current item (or of the root) and becomes current; nothing else in the tree changes |
| ValueTracking.ValueTracker.EndItem | gpglib/utils.py:46-49 | a no-op before any start; otherwise the parent becomes current; at the root it fails with `MissingParent` |
| ValueTracking.ValueTracker.Consumed | gpglib/utils.py:31-33 | a list of pairs from which the whole tree is rebuilt exactly |
| ValueTracking.CloseAtRoot | gpglib/utils.py:46-49 | on a fresh tracker: after `a` is opened, `b` is opened inside it and both are closed, a further `end_item` fails and a further `start_item` of `c` lands at the top level next to `a` |

## Left out

- Bit-granular addressing of the bitstring library. The region is addressed in whole bytes, and MPI values are returned as their bytes rather than as bitstreams.
- `key.decrypt` and the RSA, ElGamal and DSA maths. Decryption is a function parameter of `Pkcs.Consume`. The algorithms, CAST and the SHA hashes are enum tags.
- `Random.new().read(19)`. The 19 fallback bytes are a parameter of `Pkcs.Consume`.
- Timing and side-channel behaviour. The model states only that malformed padding is not reported and that the whole block is read.
- `Compression.decompress_zlib` calls zlib, which is not part of this model. Only its table entry and its window size of -15 are modelled.
- The `Mapped` aggregator class. It only groups the tables.
- `ValueTracker.values_from` and the `keys`/`modifiers` arguments of `consumed` and `items`. They depend on dynamic attribute access and arbitrary callables. Only the no-keys case is modelled.
- Exception messages. A lookup failure carries the table's name but not the key. The unknown-algorithm errors are one `UnknownMpiAlgorithm` value per context. (Their `%d` formatting is applied to a PyCrypto module, so the call would itself raise a `TypeError` instead.)
- gpglib/gpglib.py is not part of this model. It is a driver doing file I/O and printing.
- Mpis.RsaMpisPublic: on a failed read, the cursor position is stated only as lying between the start and the end of the buffer, not exactly (the same holds for the other five layout methods and the `consume_*` methods).
- Mpis.ReadMpisRoundTrip: covers MPIs shorter than 8192 bytes, the largest whose bit count fits the 16-bit prefix as `8 * length`.
- ValueTracking.ValueTracker.StartItem: the Python dictionaries share structure through their `'parent'` links. The model keeps the tree as a value with a path to the current item, so aliasing of those dictionaries is not modelled.
