/** Numbers in compact form on a byte stream: one byte, or a marker and two, four or eight bytes. */
module CompactSize {
  import opened Prelude
  import Limbs

  /** The largest number the reader lets through. The writer has no such limit. */
  const MAX_SIZE: nat := 0x0200_0000

  const TWO64: nat := 0x1_0000_0000_0000_0000

  type Stream = seq<byte>

  // ----- little-endian numbers

  function LE(n: nat, k: nat): (s: Stream)
    ensures |s| == k
  {
    if k == 0 then [] else [n % 256] + LE(n / 256, k - 1)
  }

  function FromLE(s: Stream): nat {
    if s == [] then 0 else s[0] as nat + 256 * FromLE(s[1..])
  }

  function Pow256(k: nat): (p: nat)
    ensures p > 0
  {
    if k == 0 then 1 else 256 * Pow256(k - 1)
  }

  lemma {:induction false} FromLEBack(n: nat, k: nat)
    requires n < Pow256(k)
    ensures FromLE(LE(n, k)) == n
  {
    if k > 0 {
      FromLEBack(n / 256, k - 1);
      assert LE(n, k)[1..] == LE(n / 256, k - 1);
    }
  }

  /** Byte i counts for 256^i. */
  lemma {:induction false} LEByte(n: nat, k: nat, i: nat)
    requires i < k
    ensures LE(n, k)[i] == n / Pow256(i) % 256
    decreases k
  {
    if i > 0 {
      LEByte(n / 256, k - 1, i - 1);
      Limbs.DivDiv(n, 256, Pow256(i - 1));
    }
  }

  /** The form of a number: one byte below 253, else a marker and two, four or eight bytes. */
  lemma WriteForm(n: nat)
    requires n < TWO64
    ensures |Write(n)| == if n < 253 then 1 else if n <= 0xFFFF then 3 else if n <= 0xFFFF_FFFF then 5 else 9
    ensures Write(n)[0] == if n < 253 then n else if n <= 0xFFFF then 253 else if n <= 0xFFFF_FFFF then 254 else 255
    ensures forall i | 1 <= i < |Write(n)| :: Write(n)[i] == n / Pow256(i - 1) % 256
  {
    if n >= 253 {
      var k := |Write(n)| - 1;
      forall i | 1 <= i < |Write(n)|
        ensures Write(n)[i] == n / Pow256(i - 1) % 256
      {
        LEByte(n, k, i - 1);
      }
    }
  }

  lemma LowByte(b: byte, n: nat)
    ensures (b as nat + 256 * n) % 256 == b as nat && (b as nat + 256 * n) / 256 == n
  {}

  lemma {:induction false} LEBack(s: Stream)
    ensures FromLE(s) < Pow256(|s|) && LE(FromLE(s), |s|) == s
  {
    if s != [] {
      LEBack(s[1..]);
      LowByte(s[0], FromLE(s[1..]));
      assert s == [s[0]] + s[1..];
    }
  }

  lemma Powers()
    ensures Pow256(0) == 1 && Pow256(2) == 0x1_0000 && Pow256(4) == 0x1_0000_0000 && Pow256(8) == TWO64
  {
    assert Pow256(3) == 0x100_0000;
    assert Pow256(4) == 0x1_0000_0000;
    assert Pow256(6) == 0x1_0000_0000_0000;
  }

  // ----- the two operations

  function Write(n: nat): Stream
    requires n < TWO64
  {
    if n < 253 then [n]
    else if n <= 0xFFFF then [253] + LE(n, 2)
    else if n <= 0xFFFF_FFFF then [254] + LE(n, 4)
    else [255] + LE(n, 8)
  }

  /** The number of bytes after the first one. */
  function Extra(first: byte): nat {
    if first < 253 then 0 else if first == 253 then 2 else if first == 254 then 4 else 8
  }

  /** The smallest number that needs this form. */
  function Least(first: byte): nat {
    if first < 253 then 0 else if first == 253 then 253 else if first == 254 then 0x1_0000 else 0x1_0000_0000
  }

  /** None stands for the exceptions: the end of the stream, a form longer than needed, a number above
      the limit. */
  function Read(s: Stream): Option<(nat, Stream)> {
    if s == [] || |s| < 1 + Extra(s[0]) then None
    else
      var n := if s[0] < 253 then s[0] as nat else FromLE(s[1..1 + Extra(s[0])]);
      if n < Least(s[0]) || n > MAX_SIZE then None else Some((n, s[1 + Extra(s[0])..]))
  }

  /** What is written reads back, and leaves the rest of the stream, exactly when it is within the limit. */
  lemma ReadWritten(n: nat, tail: Stream)
    requires n < TWO64
    ensures n <= MAX_SIZE ==> Read(Write(n) + tail) == Some((n, tail))
    ensures n > MAX_SIZE ==> Read(Write(n) + tail) == None
  {
    var s := Write(n) + tail;
    var k := Extra(s[0]);
    Powers();
    assert s[1 + k..] == tail;
    if n >= 253 {
      FromLEBack(n, k);
      assert s[1..1 + k] == LE(n, k);
    }
  }

  /** Nothing but the written form of a number reads as that number. */
  lemma WriteRead(s: Stream)
    requires Read(s).Some?
    ensures var (n, rest) := Read(s).value; n <= MAX_SIZE && s == Write(n) + rest
  {
    var (n, rest) := Read(s).value;
    var k := Extra(s[0]);
    Powers();
    assert s == [s[0]] + s[1..1 + k] + rest;
    if s[0] >= 253 {
      LEBack(s[1..1 + k]);
    } else {
      assert s[1..1] == [];
    }
  }
}
