/**
 * The byte helpers of gpglib/utils.py: the big-endian decoder `bytes_to_long`
 * and the hex formatter `dump`.
 */
module Utils {

  type byte = b: int | 0 <= b < 256

  function Pow256(n: nat): (r: nat)
    ensures r > 0
  {
    if n == 0 then 1 else 256 * Pow256(n - 1)
  }

  /**
   * `bytes_to_long(s)`, that is `int.from_bytes(s, "big")`: byte `i` of `s`
   * carries the weight 256^(|s| - 1 - i), so an `n`-byte value is below
   * 256^n (and the empty input gives 0).
   */
  function BytesToLong(s: seq<byte>): (r: nat)
    ensures r < Pow256(|s|)
  {
    if |s| == 0 then 0
    else
      var p := Pow256(|s| - 1);
      MulMonotone(s[0], 255, p);
      s[0] * p + BytesToLong(s[1..])
  }

  lemma MulMonotone(a: nat, b: nat, p: nat)
    requires a <= b
    ensures a * p <= b * p
  {
  }

  /** Appending byte `x` shifts the value one byte to the left and adds `x`. */
  lemma {:induction false} BytesToLongAppend(s: seq<byte>, x: byte)
    ensures BytesToLong(s + [x]) == 256 * BytesToLong(s) + x
  {
    if |s| == 0 {
      assert s + [x] == [x];
      assert [x][1..] == [];
    } else {
      var p := Pow256(|s| - 1);
      assert (s + [x])[1..] == s[1..] + [x];
      BytesToLongAppend(s[1..], x);
      calc {
        BytesToLong(s + [x]);
        s[0] * Pow256(|s|) + BytesToLong(s[1..] + [x]);
        s[0] * (256 * p) + 256 * BytesToLong(s[1..]) + x;
        { assert s[0] * (256 * p) == 256 * (s[0] * p); }
        256 * (s[0] * p + BytesToLong(s[1..])) + x;
        256 * BytesToLong(s) + x;
      }
    }
  }

  /** Leading zero bytes do not change the value. */
  lemma {:induction false} BytesToLongLeadingZeros(zeros: seq<byte>, s: seq<byte>)
    requires forall i :: 0 <= i < |zeros| ==> zeros[i] == 0
    ensures BytesToLong(zeros + s) == BytesToLong(s)
  {
    if |zeros| > 0 {
      var zs := zeros + s;
      assert zs[0] == 0;
      assert zs[1..] == zeros[1..] + s;
      BytesToLongLeadingZeros(zeros[1..], s);
    } else {
      assert zeros + s == s;
    }
  }

  /** Equal-length byte strings with the same value are equal: the decoding is injective. */
  lemma {:induction false} BytesToLongInjective(s: seq<byte>, t: seq<byte>)
    requires |s| == |t| && BytesToLong(s) == BytesToLong(t)
    ensures s == t
  {
    if |s| > 0 {
      var p := Pow256(|s| - 1);
      assert BytesToLong(s) == s[0] * p + BytesToLong(s[1..]);
      assert BytesToLong(t) == t[0] * p + BytesToLong(t[1..]);
      if s[0] < t[0] {
        LeadingByteDominates(s[0], t[0], p, BytesToLong(s[1..]), BytesToLong(t[1..]));
      } else if t[0] < s[0] {
        LeadingByteDominates(t[0], s[0], p, BytesToLong(t[1..]), BytesToLong(s[1..]));
      }
      BytesToLongInjective(s[1..], t[1..]);
      assert s == [s[0]] + s[1..];
      assert t == [t[0]] + t[1..];
    }
  }

  /** A larger leading digit outweighs any difference in the lower digits. */
  lemma LeadingByteDominates(a: nat, b: nat, p: nat, ra: nat, rb: nat)
    requires a < b && ra < p
    ensures a * p + ra < b * p + rb
  {
    MulMonotone(a + 1, b, p);
    assert (a + 1) * p == a * p + p;
  }

  /** The characters `"%02x"` produces. */
  const LowerHex: string := "0123456789abcdef"

  function HexDigit(d: nat): (c: char)
    requires d < 16
  {
    if d < 10 then ('0' as int + d) as char else ('a' as int + d - 10) as char
  }

  /** The value of a lower-case hexadecimal digit. */
  function HexValue(c: char): nat
  {
    if '0' <= c <= '9' then c as int - '0' as int
    else if 'a' <= c <= 'f' then c as int - 'a' as int + 10
    else 0
  }

  /** `"%02x" % b`: two lower-case hex digits, high nibble first, that decode back to `b`. */
  function Hex2(b: byte): (h: string)
    ensures |h| == 2 && h[0] in LowerHex && h[1] in LowerHex
    ensures 16 * HexValue(h[0]) + HexValue(h[1]) == b
  {
    [HexDigit(b / 16), HexDigit(b % 16)]
  }

  /** Python's `sep.join(parts)`. */
  function Join(sep: string, parts: seq<string>): string
  {
    if |parts| == 0 then ""
    else if |parts| == 1 then parts[0]
    else Join(sep, parts[..|parts| - 1]) + sep + parts[|parts| - 1]
  }

  /**
   * Joining two-character words that hold no space with single spaces puts
   * word `i` at offset `3 * i`, and spaces exactly at the offsets `2 (mod 3)`.
   */
  lemma {:induction false} JoinPairs(parts: seq<string>)
    requires forall i :: 0 <= i < |parts| ==> |parts[i]| == 2 && ' ' !in parts[i]
    ensures |Join(" ", parts)| == if |parts| == 0 then 0 else 3 * |parts| - 1
    ensures forall i :: 0 <= i < |parts| ==> Join(" ", parts)[3 * i..3 * i + 2] == parts[i]
    ensures forall k :: 0 <= k < |Join(" ", parts)| ==> (Join(" ", parts)[k] == ' ' <==> k % 3 == 2)
  {
    var n := |parts|;
    if n >= 2 {
      var front := parts[..n - 1];
      var last := parts[n - 1];
      JoinPairs(front);
      var j := Join(" ", front);
      var s := Join(" ", parts);
      assert s == j + " " + last;
      assert |j| == 3 * n - 4;
      forall i | 0 <= i < n
        ensures s[3 * i..3 * i + 2] == parts[i]
      {
        if i < n - 1 {
          assert front[i] == parts[i];
          assert s[3 * i..3 * i + 2] == j[3 * i..3 * i + 2];
        } else {
          assert s[3 * i..3 * i + 2] == last;
        }
      }
      forall k | 0 <= k < |s|
        ensures s[k] == ' ' <==> k % 3 == 2
      {
        if k < |j| {
          assert s[k] == j[k];
        } else if k == |j| {
          assert s[k] == ' ';
        } else {
          assert s[k] == last[k - |j| - 1];
          assert last[k - |j| - 1] in last;
        }
      }
    } else if n == 1 {
      assert Join(" ", parts) == parts[0];
      forall k | 0 <= k < 2
        ensures parts[0][k] != ' '
      {
        assert parts[0][k] in parts[0];
      }
    }
  }

  /**
   * `dump(bytes)`: every byte as two lower-case hex digits, in order, with a
   * single space between neighbours; the empty input gives the empty string.
   */
  method Dump(bytes: seq<byte>) returns (s: string)
    ensures |s| == if |bytes| == 0 then 0 else 3 * |bytes| - 1
    ensures forall i :: 0 <= i < |bytes| ==> s[3 * i..3 * i + 2] == Hex2(bytes[i])
    ensures forall k :: 0 <= k < |s| ==> (s[k] == ' ' <==> k % 3 == 2)
  {
    var r: seq<string> := [];
    for i := 0 to |bytes|
      invariant |r| == i
      invariant forall j :: 0 <= j < i ==> r[j] == Hex2(bytes[j])
    {
      r := r + [Hex2(bytes[i])];
    }
    forall i | 0 <= i < |r|
      ensures |r[i]| == 2 && ' ' !in r[i]
    {
      assert ' ' !in LowerHex;
    }
    JoinPairs(r);
    s := Join(" ", r);
  }
}
