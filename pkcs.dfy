/**
 * The PKCS section of gpglib/content_parsers/crypt.py: recovering the
 * session-key payload of a public-key encrypted session key packet by removing
 * EME-PKCS1-v1_5 padding (RFC 4880 section 13.1.2). Bad padding is never
 * reported: the payload silently becomes a random fallback, and the whole
 * decrypted block is read either way.
 */
module Pkcs {
  import opened Wrappers
  import opened Utils
  import opened Errors
  import opened Mappings
  import opened Regions
  import opened Mpis

  /** Bytes drawn from the random source before the padding is looked at. */
  const FallbackLength: nat := 19

  /**
   * `k` is where the padding string ends: the first zero byte after the
   * leading `0x02`.
   */
  predicate SeparatorAt(padded: seq<byte>, k: nat)
  {
    1 <= k < |padded| && padded[k] == 0 && forall j :: 1 <= j < k ==> padded[j] != 0
  }

  /**
   * What the unpadding yields for the decrypted block `padded`: everything
   * after the separator when the block starts with `0x02` and the separator
   * comes after at least eight padding bytes, otherwise `fallback`. An empty
   * block cannot even supply its first byte.
   */
  function Unpadded(padded: seq<byte>, fallback: seq<byte>): Result<seq<byte>, Error>
  {
    if |padded| == 0 then Err(ReadError)
    else if padded[0] != 2 then Ok(fallback)
    else
      match FirstIndex(padded, 0)
      case None => Ok(fallback)
      case Some(k) => if k - 1 >= 8 then Ok(padded[k + 1..]) else Ok(fallback)
  }

  /** Well-formed padding: the payload is everything after the separator. */
  lemma UnpadWellFormed(padded: seq<byte>, k: nat, fallback: seq<byte>)
    requires |padded| > 0 && padded[0] == 2
    requires SeparatorAt(padded, k) && k >= 9
    ensures Unpadded(padded, fallback) == Ok(padded[k + 1..])
  {
    assert FirstIndex(padded, 0) == Some(k);
  }

  /**
   * Malformed padding (a wrong first byte, no separator, or fewer than eight
   * padding bytes before it): the payload is the fallback.
   */
  lemma UnpadMalformed(padded: seq<byte>, fallback: seq<byte>)
    requires |padded| > 0
    requires padded[0] != 2 || forall k :: SeparatorAt(padded, k) ==> k < 9
    ensures Unpadded(padded, fallback) == Ok(fallback)
  {
    if padded[0] == 2 {
      var f := FirstIndex(padded, 0);
      if f.Some? {
        assert SeparatorAt(padded, f.value);
      }
    }
  }

  /**
   * No padding oracle: whatever the block holds, a non-empty block never
   * makes the unpadding fail, and what it yields is either the fallback or a
   * tail of the block.
   */
  lemma UnpadNeverFails(padded: seq<byte>, fallback: seq<byte>)
    requires |padded| > 0
    ensures Unpadded(padded, fallback).Ok?
    ensures Unpadded(padded, fallback).value == fallback
      || exists k :: SeparatorAt(padded, k) && k >= 9 && Unpadded(padded, fallback).value == padded[k + 1..]
  {
    if padded[0] == 2 && FirstIndex(padded, 0).Some? {
      var k := FirstIndex(padded, 0).value;
      if k >= 9 {
        assert SeparatorAt(padded, k);
        assert Unpadded(padded, fallback).value == padded[k + 1..];
      }
    }
  }

  /** The block `0x02 || PS || 0x00 || m` that EME-PKCS1-v1_5 encoding produces. */
  function EmeBlock(ps: seq<byte>, m: seq<byte>): seq<byte>
  {
    [2] + ps + [0] + m
  }

  /** Round trip: a block built with at least eight non-zero padding bytes unpads to `m`. */
  lemma UnpadRoundTrip(ps: seq<byte>, m: seq<byte>, fallback: seq<byte>)
    requires |ps| >= 8 && forall i :: 0 <= i < |ps| ==> ps[i] != 0
    ensures Unpadded(EmeBlock(ps, m), fallback) == Ok(m)
  {
    var b := EmeBlock(ps, m);
    var k := |ps| + 1;
    forall j | 1 <= j < k
      ensures b[j] != 0
    {
      assert b[j] == ps[j - 1];
    }
    UnpadWellFormed(b, k, fallback);
    assert b[k + 1..] == m;
  }

  /** Fewer than eight padding bytes: the payload is the fallback even though the block decodes. */
  lemma UnpadShortPadding(ps: seq<byte>, m: seq<byte>, fallback: seq<byte>)
    requires |ps| < 8 && forall i :: 0 <= i < |ps| ==> ps[i] != 0
    ensures Unpadded(EmeBlock(ps, m), fallback) == Ok(fallback)
  {
    var b := EmeBlock(ps, m);
    forall k: nat | SeparatorAt(b, k)
      ensures k < 9
    {
      assert b[|ps| + 1] == 0;
      assert forall j :: 1 <= j <= |ps| ==> b[j] == ps[j - 1];
    }
    UnpadMalformed(b, fallback);
  }

  /**
   * The padding removal of `PKCS.consume`, on the decrypted block `plain`:
   * returns the payload and how far the block's cursor got, which is always
   * its end.
   */
  method Unpad(plain: seq<byte>, fallback: seq<byte>) returns (decrypted: Result<seq<byte>, Error>, consumed: nat)
    ensures decrypted == Unpadded(plain, fallback)
    ensures consumed == |plain|
  {
    var padded := new Region(plain);
    decrypted := Ok(fallback);
    var first := padded.ReadBytes(1);
    if first.Err? {
      return Err(first.error), padded.pos;
    }
    if first.value == [2] {
      var before := padded.pos;
      var found := padded.Find(0);
      var after := padded.pos;
      if after - before >= 8 {
        var separator := padded.ReadBytes(1);
        var payload := padded.ReadRest();
        decrypted := Ok(payload);
      }
    }
    var discarded := padded.ReadRest();
    consumed := padded.pos;
  }

  /** The session-key ciphertext MPIs at `pos`, and the offset after them. */
  function SessionMpis(data: seq<byte>, pos: nat, algorithm: Algorithm): Result<(seq<Mpi>, nat), Error>
  {
    match Layout(Encryption, algorithm)
    case None => Err(UnknownMpiAlgorithm(Encryption))
    case Some(names) => ReadMpis(data, pos, |names|)
  }

  /** The payload `PKCS.consume` recovers: read the MPIs, decrypt them, unpad. */
  function SessionKeyPayload(data: seq<byte>, pos: nat, algorithm: Algorithm,
                             decrypt: seq<Mpi> -> seq<byte>, random: seq<byte>): Result<seq<byte>, Error>
  {
    match SessionMpis(data, pos, algorithm)
    case Err(e) => Err(e)
    case Ok((ms, _)) => Unpadded(decrypt(ms), random)
  }

  /**
   * `PKCS.consume(region, key_algorithm, key)`: `decrypt` stands for
   * `key.decrypt` and `random` for the 19 bytes of `Random.new().read(19)`.
   * Returns a fresh region over the payload.
   */
  method Consume(region: Region, keyAlgorithm: Algorithm, decrypt: seq<Mpi> -> seq<byte>, random: seq<byte>)
    returns (r: Result<Region, Error>)
    requires region.Valid() && |random| == FallbackLength
    modifies region
    ensures region.Valid()
    ensures var expected := SessionKeyPayload(region.data, old(region.pos), keyAlgorithm, decrypt, random);
      && (r.Ok? <==> expected.Ok?)
      && (r.Ok? ==> fresh(r.value) && r.value.Valid() && r.value.data == expected.value && r.value.pos == 0)
      && (r.Err? ==> r.error == expected.error)
    ensures SessionMpis(region.data, old(region.pos), keyAlgorithm).Ok? ==>
      region.pos == SessionMpis(region.data, old(region.pos), keyAlgorithm).value.1
  {
    var mpis :- ConsumeEncryption(region, keyAlgorithm);
    var decrypted, consumed := Unpad(decrypt(mpis), random);
    var payload :- decrypted;
    var stream := new Region(payload);
    r := Ok(stream);
  }

  /**
   * End to end, RSA: a ciphertext MPI whose decryption is a well-formed block
   * around `payload` yields exactly `payload`.
   */
  lemma RsaSessionKeyRecovered(c: Mpi, after: seq<byte>, decrypt: seq<Mpi> -> seq<byte>,
                               ps: seq<byte>, payload: seq<byte>, random: seq<byte>)
    requires |c| < 8192
    requires |ps| >= 8 && forall i :: 0 <= i < |ps| ==> ps[i] != 0
    requires decrypt([c]) == EmeBlock(ps, payload)
    ensures SessionKeyPayload(EncodeMpi(c) + after, 0, RSA, decrypt, random) == Ok(payload)
  {
    var data := EncodeMpi(c) + after;
    MpiRoundTrip(c, after);
    ReadMpisStep(data, 0, 1);
    assert [c] + [] == [c];
    UnpadRoundTrip(ps, payload, random);
  }

  /**
   * End to end, wrong first byte: the 19 random bytes come back and nothing
   * fails.
   */
  lemma WrongFirstByteGivesFallback(c: Mpi, after: seq<byte>, decrypt: seq<Mpi> -> seq<byte>, random: seq<byte>)
    requires |c| < 8192
    requires |decrypt([c])| > 0 && decrypt([c])[0] != 2
    requires |random| == FallbackLength
    ensures SessionKeyPayload(EncodeMpi(c) + after, 0, RSA, decrypt, random) == Ok(random)
  {
    var data := EncodeMpi(c) + after;
    MpiRoundTrip(c, after);
    ReadMpisStep(data, 0, 1);
    assert [c] + [] == [c];
    UnpadMalformed(decrypt([c]), random);
  }

  /** DSA cannot encrypt: no session key is read for it. */
  lemma DsaHasNoSessionKey(data: seq<byte>, pos: nat, decrypt: seq<Mpi> -> seq<byte>, random: seq<byte>)
    ensures SessionKeyPayload(data, pos, DSA, decrypt, random) == Err(UnknownMpiAlgorithm(Encryption))
  {
  }
}
