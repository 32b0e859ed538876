/** Variable length numbers, as section 8.1.2 of the WAP Wireless Session Protocol writes them:
    seven bits a byte, highest first, the top bit set on all bytes but the last. */
module Uintvar {
  import opened Errors
  import opened FileHandle
  import opened DrmHeader

  datatype Outcome = Read(value: int, numBytes: nat) | Leave(err: int) | Panic

  predicate Continues(b: byte) {
    b >= 128
  }

  /** How many bytes say that another one follows, before the first that does not. */
  function Leading(s: seq<byte>): (n: nat)
    ensures n <= |s|
    ensures forall i | 0 <= i < n :: Continues(s[i])
    ensures n < |s| ==> !Continues(s[n])
  {
    if s == [] || !Continues(s[0]) then 0 else 1 + Leading(s[1..])
  }

  /** The number that the low seven bits of the bytes make. */
  function Number(groups: seq<byte>): nat {
    if groups == [] then 0
    else Number(groups[..|groups|-1]) * 128 + groups[|groups|-1] as int % 128
  }

  /** What reading at an offset comes to, in a 32-bit signed number. */
  function Decoded(buffer: seq<byte>, offset: int): Outcome {
    if offset < 0 || offset > |buffer| then Outcome.Panic
    else
      var n := Leading(buffer[offset..]);
      if offset + n == |buffer| then Leave(KErrOverflow)
      else Read(Signed(Number(buffer[offset..offset + n + 1]) % 0x1_0000_0000), n + 1)
  }

  lemma NumberStep(value: int, number: nat, b: byte)
    requires value == number % 0x1_0000_0000
    ensures (value * 128 % 0x1_0000_0000 + b as int % 128) % 0x1_0000_0000
      == (number * 128 + b as int % 128) % 0x1_0000_0000
  {
    var k := number / 0x1_0000_0000;
    assert number == k * 0x1_0000_0000 + value;
    assert number * 128 + b as int % 128 == 128 * k * 0x1_0000_0000 + (value * 128 + b as int % 128);
    var j := value * 128 / 0x1_0000_0000;
    assert value * 128 == j * 0x1_0000_0000 + value * 128 % 0x1_0000_0000;
    var r := value * 128 % 0x1_0000_0000 + b as int % 128;
    assert number * 128 + b as int % 128 == (128 * k + j) * 0x1_0000_0000 + r;
    ModOfSum(128 * k + j, r);
  }

  lemma ModOfSum(k: int, r: int)
    ensures (k * 0x1_0000_0000 + r) % 0x1_0000_0000 == r % 0x1_0000_0000
  {
  }

  lemma LeadingAt(s: seq<byte>, n: nat)
    requires n <= |s| && forall i | 0 <= i < n :: Continues(s[i])
    requires n < |s| ==> !Continues(s[n])
    ensures Leading(s) == n
  {
  }

  /** One turn of the loop: the number shifted, the byte's seven bits added. */
  lemma ReadStep(buffer: seq<byte>, offset: nat, n: nat, value: int)
    requires offset + n < |buffer| && value == Number(buffer[offset..offset + n]) % 0x1_0000_0000
    ensures (value * 128 % 0x1_0000_0000 + buffer[offset + n] as int % 128) % 0x1_0000_0000
      == Number(buffer[offset..offset + n + 1]) % 0x1_0000_0000
  {
    NumberSnoc(buffer, offset, n);
    NumberStep(value, Number(buffer[offset..offset + n]), buffer[offset + n]);
    hide Number;
  }

  method ReadTUintvarL(buffer: seq<byte>, offset: int) returns (r: Outcome)
    ensures r == Decoded(buffer, offset)
  {
    hide Number, Leading, Signed, Decoded;
    if offset < 0 || offset > |buffer| {
      OutsideStops(buffer, offset);
      return Outcome.Panic;
    }
    ghost var here := buffer[offset..];
    var value, numBytes, more := 0, 0, true;
    NumberOfNone();
    assert buffer[offset..offset + numBytes] == [];
    while more
      invariant 0 <= numBytes && offset + numBytes <= |buffer|
      invariant 0 <= value == Number(buffer[offset..offset + numBytes]) % 0x1_0000_0000
      invariant forall i | 0 <= i < numBytes - (if more then 0 else 1) :: Continues(here[i])
      invariant !more ==> numBytes > 0 && !Continues(here[numBytes - 1])
      decreases |buffer| - offset - numBytes, more
    {
      ghost var before := value;
      value := value * 128 % 0x1_0000_0000;
      if offset + numBytes == |buffer| {
        DecodedAt(buffer, offset, numBytes);
        return Leave(KErrOverflow);
      }
      var b: int := buffer[offset + numBytes];
      assert here[numBytes] == b;
      ReadStep(buffer, offset, numBytes, before);
      if b < 128 {
        more := false;
      } else {
        b := b % 128;
      }
      assert b == buffer[offset + numBytes] as int % 128;
      value := (value + b) % 0x1_0000_0000;
      numBytes := numBytes + 1;
    }
    DecodedAt(buffer, offset, numBytes - 1);
    return Read(Signed(value), numBytes);
  }

  lemma OutsideStops(buffer: seq<byte>, offset: int)
    requires offset < 0 || offset > |buffer|
    ensures Decoded(buffer, offset) == Outcome.Panic
  {
  }

  lemma DecodedAt(buffer: seq<byte>, offset: nat, n: nat)
    requires offset + n <= |buffer|
    requires forall i | 0 <= i < n :: Continues(buffer[offset..][i])
    requires offset + n < |buffer| ==> !Continues(buffer[offset..][n])
    ensures Decoded(buffer, offset)
      == if offset + n == |buffer| then Leave(KErrOverflow)
         else Read(Signed(Number(buffer[offset..offset + n + 1]) % 0x1_0000_0000), n + 1)
  {
    LeadingAt(buffer[offset..], n);
    hide Number, Leading, Signed;
  }

  lemma NumberOfNone()
    ensures Number([]) == 0
  {
  }

  lemma NumberSnoc(buffer: seq<byte>, offset: nat, n: nat)
    requires offset + n < |buffer|
    ensures Number(buffer[offset..offset + n + 1])
      == Number(buffer[offset..offset + n]) * 128 + buffer[offset + n] as int % 128
  {
    var groups := buffer[offset..offset + n + 1];
    assert groups[..|groups|-1] == buffer[offset..offset + n];
  }

  // ---------- the encoding ----------

  function EncodeHigh(v: nat): (s: seq<byte>)
    ensures forall i | 0 <= i < |s| :: Continues(s[i])
    ensures Number(s) == v
  {
    if v == 0 then []
    else
      var s := EncodeHigh(v / 128) + [v % 128 + 128];
      assert s[..|s|-1] == EncodeHigh(v / 128);
      s
  }

  function Encode(v: nat): seq<byte> {
    EncodeHigh(v / 128) + [v % 128]
  }

  lemma NumberOfEncode(v: nat)
    ensures Number(Encode(v)) == v
  {
    var high, low: seq<byte> := EncodeHigh(v / 128), [v % 128];
    NumberSnoc(high + low, 0, |high|);
    assert (high + low)[0..|high| + 1] == high + low && (high + low)[0..|high|] == high;
    hide Number, EncodeHigh;
  }

  lemma EncodeLeading(v: nat, after: seq<byte>)
    ensures Encode(v) != [] && Leading(Encode(v) + after) == |Encode(v)| - 1
  {
    hide Number, EncodeHigh, Leading;
    LeadingAt(Encode(v) + after, |Encode(v)| - 1);
  }

  /** Reading inverts writing at any place in any buffer and counts the bytes exactly; numbers from
      2^31 on come back as what a signed 32-bit number keeps of them. */
  lemma DecodeEncode(before: seq<byte>, v: nat, after: seq<byte>)
    ensures Decoded(before + Encode(v) + after, |before|) == Read(Signed(v % 0x1_0000_0000), |Encode(v)|)
    ensures v < 0x8000_0000 ==> Decoded(before + Encode(v) + after, |before|) == Read(v, |Encode(v)|)
  {
    hide Leading, Number, Encode;
    EncodeLeading(v, after);
    NumberOfEncode(v);
    var buffer := before + Encode(v) + after;
    assert buffer[|before|..] == Encode(v) + after;
    assert buffer[|before|..|before| + |Encode(v)|] == Encode(v);
  }

  /** Reading leaves with an overflow exactly on a number whose last byte is missing. */
  lemma OverflowExactly(buffer: seq<byte>, offset: int)
    requires 0 <= offset <= |buffer|
    ensures Decoded(buffer, offset) == Leave(KErrOverflow)
      <==> forall i | offset <= i < |buffer| :: Continues(buffer[i])
  {
    var here := buffer[offset..];
    var n := Leading(here);
    if offset + n < |buffer| {
      assert !Continues(buffer[offset + n]);
    } else {
      forall i | offset <= i < |buffer| ensures Continues(buffer[i]) {
        assert buffer[i] == here[i - offset];
      }
    }
  }

  /** Cutting a written number short at any point makes it one of those. */
  lemma TruncatedOverflows(before: seq<byte>, v: nat, kept: nat)
    requires kept < |Encode(v)|
    ensures Decoded(before + Encode(v)[..kept], |before|) == Leave(KErrOverflow)
  {
    var buffer := before + Encode(v)[..kept];
    assert buffer[|before|..] == EncodeHigh(v / 128)[..kept];
    OverflowExactly(buffer, |before|);
  }
}
