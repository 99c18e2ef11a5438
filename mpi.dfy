/**
 * The MPI VALUES section of gpglib/content_parsers/crypt.py: reading
 * multi-precision integers (RFC 4880 section 3.2) from a region, and the
 * per-algorithm sequences of MPIs of session-key ciphertexts (section 5.1),
 * public keys (section 5.5.2) and secret keys (section 5.5.3).
 */
module Mpis {
  import opened Wrappers
  import opened Utils
  import opened Errors
  import opened Mappings
  import opened Regions

  /** An MPI as `Mpi.parse` returns it: the value bytes, without the length prefix. */
  type Mpi = seq<byte>

  /** Bytes of value after a bit count: `(bits + 7) / 8`, the bit count rounded up to bytes. */
  function MpiLength(bits: nat): (n: nat)
    ensures bits <= 8 * n < bits + 8
  {
    (bits + 7) / 8
  }

  /** A bit count as the two-byte big-endian prefix of an MPI. */
  function U16(n: nat): (r: seq<byte>)
    requires n < 65536
    ensures |r| == 2 && BytesToLong(r) == n
  {
    var r: seq<byte> := [n / 256, n % 256];
    assert BytesToLong(r[1..]) == n % 256;
    r
  }

  // ---------------------------------------------------------------------------
  // Specification of the reads
  // ---------------------------------------------------------------------------

  /**
   * The MPI at offset `pos` of `data` and the offset just after it, or
   * `ReadError` when the prefix or the value runs past the end.
   */
  function MpiAt(data: seq<byte>, pos: nat): Result<(Mpi, nat), Error>
  {
    if |data| < pos + 2 then Err(ReadError)
    else
      var len := MpiLength(BytesToLong(data[pos..pos + 2]));
      if |data| < pos + 2 + len then Err(ReadError)
      else Ok((data[pos + 2..pos + 2 + len], pos + 2 + len))
  }

  /** `count` MPIs read back to back from offset `pos`, and the offset after the last. */
  function ReadMpis(data: seq<byte>, pos: nat, count: nat): Result<(seq<Mpi>, nat), Error>
    decreases count
  {
    if count == 0 then Ok(([], pos))
    else
      match MpiAt(data, pos)
      case Err(e) => Err(e)
      case Ok((m, next)) => Prepend(m, ReadMpis(data, next, count - 1))
  }

  /** `m` in front of the values of a successful read; a failure stays a failure. */
  function Prepend(m: Mpi, r: Result<(seq<Mpi>, nat), Error>): Result<(seq<Mpi>, nat), Error>
  {
    match r
    case Err(e) => Err(e)
    case Ok((ms, end)) => Ok(([m] + ms, end))
  }

  /** Reading `count > 0` MPIs reads one, then `count - 1` more from where it ended. */
  lemma ReadMpisStep(data: seq<byte>, pos: nat, count: nat)
    requires count > 0 && MpiAt(data, pos).Ok?
    ensures ReadMpis(data, pos, count)
      == Prepend(MpiAt(data, pos).value.0, ReadMpis(data, MpiAt(data, pos).value.1, count - 1))
  {
  }

  /** Bytes the MPIs `ms` occupy on the wire: a two-byte prefix plus the value, each. */
  function EncodedSize(ms: seq<Mpi>): nat
  {
    if |ms| == 0 then 0 else 2 + |ms[0]| + EncodedSize(ms[1..])
  }

  /** The wire form of `v` with the bit count `8 * |v|`. */
  function EncodeMpi(v: Mpi): (r: seq<byte>)
    requires |v| < 8192
  {
    U16(8 * |v|) + v
  }

  function EncodeMpis(ms: seq<Mpi>): (r: seq<byte>)
    requires forall i :: 0 <= i < |ms| ==> |ms[i]| < 8192
  {
    if |ms| == 0 then [] else EncodeMpi(ms[0]) + EncodeMpis(ms[1..])
  }

  // ---------------------------------------------------------------------------
  // Properties of the reads
  // ---------------------------------------------------------------------------

  /**
   * Behind a prefix holding the bit count `bits`, an MPI read returns exactly
   * the `ceil(bits / 8)` bytes that follow and moves past them; whatever lies
   * before or after is irrelevant.
   */
  lemma MpiDecodes(before: seq<byte>, bits: nat, v: seq<byte>, after: seq<byte>)
    requires bits < 65536 && |v| == MpiLength(bits)
    ensures MpiAt(before + U16(bits) + v + after, |before|) == Ok((v, |before| + 2 + |v|))
  {
    var data := before + U16(bits) + v + after;
    var p := |before|;
    assert data[p..p + 2] == U16(bits);
    assert data[p + 2..p + 2 + |v|] == v;
  }

  /** Round trip: encoding `v` with the bit count `8 * |v|` and reading it back gives `v`. */
  lemma MpiRoundTrip(v: Mpi, after: seq<byte>)
    requires |v| < 8192
    ensures MpiAt(EncodeMpi(v) + after, 0) == Ok((v, 2 + |v|))
  {
    MpiDecodes([], 8 * |v|, v, after);
    assert [] + U16(8 * |v|) + v + after == EncodeMpi(v) + after;
  }

  /** A bit count of zero is legal and gives the empty value. */
  lemma MpiZeroBits(before: seq<byte>, after: seq<byte>)
    ensures MpiAt(before + [0, 0] + after, |before|) == Ok(([], |before| + 2))
  {
    MpiDecodes(before, 0, [], after);
    assert U16(0) == [0, 0];
    assert before + [0, 0] + [] + after == before + [0, 0] + after;
  }

  /** Fewer than two bytes left: the prefix itself cannot be read. */
  lemma MpiNoPrefix(data: seq<byte>, pos: nat)
    requires pos <= |data| < pos + 2
    ensures MpiAt(data, pos) == Err(ReadError)
  {
  }

  /** Fewer value bytes than the prefix announces: the read fails. */
  lemma MpiTruncated(before: seq<byte>, bits: nat, short: seq<byte>)
    requires bits < 65536 && |short| < MpiLength(bits)
    ensures MpiAt(before + U16(bits) + short, |before|) == Err(ReadError)
  {
    var data := before + U16(bits) + short;
    assert data[|before|..|before| + 2] == U16(bits);
  }

  /**
   * A successful read of `count` MPIs yields exactly `count` values and
   * advances by the sum of their encoded sizes; the bytes it moved over are the
   * MPIs' wire form.
   */
  lemma {:induction false} ReadMpisAdvance(data: seq<byte>, pos: nat, count: nat)
    requires pos <= |data| && ReadMpis(data, pos, count).Ok?
    ensures |ReadMpis(data, pos, count).value.0| == count
    ensures ReadMpis(data, pos, count).value.1 == pos + EncodedSize(ReadMpis(data, pos, count).value.0)
    ensures ReadMpis(data, pos, count).value.1 <= |data|
    decreases count
  {
    if count > 0 {
      var m := MpiAt(data, pos).value.0;
      var next := MpiAt(data, pos).value.1;
      assert next == pos + 2 + |m| && next <= |data|;
      ReadMpisStep(data, pos, count);
      ReadMpisAdvance(data, next, count - 1);
      var ms := ReadMpis(data, next, count - 1).value.0;
      assert ReadMpis(data, pos, count).value.0 == [m] + ms;
      assert ([m] + ms)[1..] == ms;
    }
  }

  /**
   * Round trip for a sequence: MPIs encoded back to back are read back, in
   * order, and the cursor ends just after the last one.
   */
  lemma {:induction false} ReadMpisRoundTrip(before: seq<byte>, ms: seq<Mpi>, after: seq<byte>)
    requires forall i :: 0 <= i < |ms| ==> |ms[i]| < 8192
    ensures ReadMpis(before + EncodeMpis(ms) + after, |before|, |ms|)
      == Ok((ms, |before| + |EncodeMpis(ms)|))
    decreases |ms|
  {
    if |ms| > 0 {
      var m := ms[0];
      var u := U16(8 * |m|);
      var tail := EncodeMpis(ms[1..]);
      var data := before + EncodeMpis(ms) + after;
      assert EncodeMpis(ms) == u + m + tail;
      Regroup(before, u, m, tail, after);
      MpiDecodes(before, 8 * |m|, m, tail + after);
      assert MpiAt(data, |before|) == Ok((m, |before + u + m|));
      ReadMpisRoundTrip(before + u + m, ms[1..], after);
      ReadMpisCons(data, |before|, |ms| - 1, m, |before + u + m|, ms[1..], |before| + |EncodeMpis(ms)|);
      assert [m] + ms[1..] == ms;
    } else {
      assert before + EncodeMpis(ms) + after == before + after;
    }
  }

  /** One MPI in front of `count` more read from where it ended. */
  lemma ReadMpisCons(data: seq<byte>, pos: nat, count: nat, m: Mpi, next: nat, ms: seq<Mpi>, end: nat)
    requires MpiAt(data, pos) == Ok((m, next))
    requires ReadMpis(data, next, count) == Ok((ms, end))
    ensures ReadMpis(data, pos, count + 1) == Ok(([m] + ms, end))
  {
  }

  lemma Regroup(a: seq<byte>, b: seq<byte>, c: seq<byte>, d: seq<byte>, e: seq<byte>)
    ensures a + (b + c + d) + e == a + b + c + (d + e)
    ensures a + (b + c + d) + e == (a + b + c) + d + e
  {
  }

  // ---------------------------------------------------------------------------
  // Layouts
  // ---------------------------------------------------------------------------

  /**
   * The MPIs an algorithm stores in each context, by name and in wire order;
   * `None` when it has no layout there (DSA cannot encrypt; hashes and
   * ciphers have no key material).
   */
  function Layout(context: Context, algorithm: Algorithm): Option<seq<string>>
  {
    match (context, algorithm)
    case (Encryption, RSA) => Some(["m^e mod n"])
    case (Encryption, ElGamal) => Some(["g^k mod p", "m * y^k mod p"])
    case (Public, RSA) => Some(["n", "e"])
    case (Public, ElGamal) => Some(["p", "g", "y"])
    case (Public, DSA) => Some(["p", "q", "g", "y"])
    case (Secret, RSA) => Some(["d", "p", "q", "r"])
    case (Secret, ElGamal) => Some(["x"])
    case (Secret, DSA) => Some(["x"])
    case _ => None
  }

  /** RSA, ElGamal and DSA have public and secret layouts; only RSA and ElGamal can encrypt. */
  lemma LayoutCoverage(algorithm: Algorithm)
    ensures Layout(Public, algorithm).Some? <==> algorithm in {RSA, ElGamal, DSA}
    ensures Layout(Secret, algorithm).Some? <==> algorithm in {RSA, ElGamal, DSA}
    ensures Layout(Encryption, algorithm).Some? <==> algorithm in {RSA, ElGamal}
  {
  }

  /**
   * A read of `count` MPIs that moved the cursor from `start` to `end` and
   * produced `r`: on success exactly `ReadMpis`, on failure a `ReadError`
   * with the cursor somewhere in between.
   */
  ghost predicate ReadAs(data: seq<byte>, start: nat, end: nat, count: nat, r: Result<seq<Mpi>, Error>)
  {
    match ReadMpis(data, start, count)
    case Ok((ms, next)) => r == Ok(ms) && end == next
    case Err(e) => r == Err(e) && start <= end <= |data|
  }

  /** What a `consume_*` call for `context` leaves behind. */
  ghost predicate LaidOut(data: seq<byte>, start: nat, end: nat, context: Context,
                          algorithm: Algorithm, r: Result<seq<Mpi>, Error>)
  {
    match Layout(context, algorithm)
    case None => r == Err(UnknownMpiAlgorithm(context)) && end == start
    case Some(names) => ReadAs(data, start, end, |names|, r)
  }

  // ---------------------------------------------------------------------------
  // The reads, on a region
  // ---------------------------------------------------------------------------

  /** `Mpi.parse`: one MPI from the region's cursor. */
  method Parse(region: Region) returns (r: Result<Mpi, Error>)
    requires region.Valid()
    modifies region
    ensures region.Valid()
    ensures match MpiAt(region.data, old(region.pos))
      case Ok((v, next)) => r == Ok(v) && region.pos == next
      case Err(e) =>
        r == Err(e) &&
        region.pos == (if old(region.pos) + 2 <= |region.data| then old(region.pos) + 2 else old(region.pos))
  {
    var rawLength :- region.ReadUInt16();
    var length := (rawLength + 7) / 8;
    r := region.ReadBytes(length);
  }

  /** `rsa_mpis_public`: n and e. */
  method RsaMpisPublic(region: Region) returns (r: Result<seq<Mpi>, Error>)
    requires region.Valid()
    modifies region
    ensures region.Valid()
    ensures ReadAs(region.data, old(region.pos), region.pos, 2, r)
  {
    ghost var data, at := region.data, region.pos;
    var n :- Parse(region);
    ReadMpisStep(data, at, 2);
    at := region.pos;
    var e :- Parse(region);
    ReadMpisStep(data, at, 1);
    assert [n, e] == [n] + ([e] + []);
    return Ok([n, e]);
  }

  /** `rsa_mpis_private`: d, p, q and r. */
  method RsaMpisPrivate(region: Region) returns (r: Result<seq<Mpi>, Error>)
    requires region.Valid()
    modifies region
    ensures region.Valid()
    ensures ReadAs(region.data, old(region.pos), region.pos, 4, r)
  {
    ghost var data, at := region.data, region.pos;
    var d :- Parse(region);
    ReadMpisStep(data, at, 4);
    at := region.pos;
    var p :- Parse(region);
    ReadMpisStep(data, at, 3);
    at := region.pos;
    var q :- Parse(region);
    ReadMpisStep(data, at, 2);
    at := region.pos;
    var u :- Parse(region);
    ReadMpisStep(data, at, 1);
    assert [d, p, q, u] == [d] + ([p] + ([q] + ([u] + [])));
    return Ok([d, p, q, u]);
  }

  /** `elgamal_mpis_public`: p, g and y. */
  method ElGamalMpisPublic(region: Region) returns (r: Result<seq<Mpi>, Error>)
    requires region.Valid()
    modifies region
    ensures region.Valid()
    ensures ReadAs(region.data, old(region.pos), region.pos, 3, r)
  {
    ghost var data, at := region.data, region.pos;
    var p :- Parse(region);
    ReadMpisStep(data, at, 3);
    at := region.pos;
    var g :- Parse(region);
    ReadMpisStep(data, at, 2);
    at := region.pos;
    var y :- Parse(region);
    ReadMpisStep(data, at, 1);
    assert [p, g, y] == [p] + ([g] + ([y] + []));
    return Ok([p, g, y]);
  }

  /** `elgamal_mpis_private`: x. */
  method ElGamalMpisPrivate(region: Region) returns (r: Result<seq<Mpi>, Error>)
    requires region.Valid()
    modifies region
    ensures region.Valid()
    ensures ReadAs(region.data, old(region.pos), region.pos, 1, r)
  {
    ghost var data, at := region.data, region.pos;
    var x :- Parse(region);
    ReadMpisStep(data, at, 1);
    assert [x] == [x] + [];
    return Ok([x]);
  }

  /** `dsa_mpis_public`: p, q, g and y. */
  method DsaMpisPublic(region: Region) returns (r: Result<seq<Mpi>, Error>)
    requires region.Valid()
    modifies region
    ensures region.Valid()
    ensures ReadAs(region.data, old(region.pos), region.pos, 4, r)
  {
    ghost var data, at := region.data, region.pos;
    var p :- Parse(region);
    ReadMpisStep(data, at, 4);
    at := region.pos;
    var q :- Parse(region);
    ReadMpisStep(data, at, 3);
    at := region.pos;
    var g :- Parse(region);
    ReadMpisStep(data, at, 2);
    at := region.pos;
    var y :- Parse(region);
    ReadMpisStep(data, at, 1);
    assert [p, q, g, y] == [p] + ([q] + ([g] + ([y] + [])));
    return Ok([p, q, g, y]);
  }

  /** `dsa_mpis_private`: x. */
  method DsaMpisPrivate(region: Region) returns (r: Result<seq<Mpi>, Error>)
    requires region.Valid()
    modifies region
    ensures region.Valid()
    ensures ReadAs(region.data, old(region.pos), region.pos, 1, r)
  {
    ghost var data, at := region.data, region.pos;
    var x :- Parse(region);
    ReadMpisStep(data, at, 1);
    assert [x] == [x] + [];
    return Ok([x]);
  }

  /** `consume_encryption`: the session-key ciphertext MPIs of a public-key encrypted session key. */
  method ConsumeEncryption(region: Region, algorithm: Algorithm) returns (r: Result<seq<Mpi>, Error>)
    requires region.Valid()
    modifies region
    ensures region.Valid()
    ensures LaidOut(region.data, old(region.pos), region.pos, Encryption, algorithm, r)
  {
    ghost var data, at := region.data, region.pos;
    if algorithm == RSA {
      var c :- Parse(region);
      ReadMpisStep(data, at, 1);
      assert [c] == [c] + [];
      r := Ok([c]);
    } else if algorithm == ElGamal {
      var a :- Parse(region);
      ReadMpisStep(data, at, 2);
      at := region.pos;
      var b :- Parse(region);
      ReadMpisStep(data, at, 1);
      assert [a, b] == [a] + ([b] + []);
      r := Ok([a, b]);
    } else {
      r := Err(UnknownMpiAlgorithm(Encryption));
    }
  }

  /** `consume_public`: the MPIs of a public key. */
  method ConsumePublic(region: Region, algorithm: Algorithm) returns (r: Result<seq<Mpi>, Error>)
    requires region.Valid()
    modifies region
    ensures region.Valid()
    ensures LaidOut(region.data, old(region.pos), region.pos, Public, algorithm, r)
  {
    if algorithm == RSA {
      r := RsaMpisPublic(region);
    } else if algorithm == ElGamal {
      r := ElGamalMpisPublic(region);
    } else if algorithm == DSA {
      r := DsaMpisPublic(region);
    } else {
      r := Err(UnknownMpiAlgorithm(Public));
    }
  }

  /** `consume_private`: the MPIs of a secret key. */
  method ConsumePrivate(region: Region, algorithm: Algorithm) returns (r: Result<seq<Mpi>, Error>)
    requires region.Valid()
    modifies region
    ensures region.Valid()
    ensures LaidOut(region.data, old(region.pos), region.pos, Secret, algorithm, r)
  {
    if algorithm == RSA {
      r := RsaMpisPrivate(region);
    } else if algorithm == ElGamal {
      r := ElGamalMpisPrivate(region);
    } else if algorithm == DSA {
      r := DsaMpisPrivate(region);
    } else {
      r := Err(UnknownMpiAlgorithm(Secret));
    }
  }
}
