/** The DMX driver: a shadow of the 512-slot universe, and the FPGA module that is written
    through a 32-bit data word, an address and a size. */
module Dmx {

  const SLOTS := 513   // slot 0 is the start code

  predicate IsByte(v: int) { 0 <= v <= 255 }

  predicate AllBytes(s: seq<int>) { forall i | 0 <= i < |s| :: IsByte(s[i]) }

  /** `s` with `values` written from `address` on. */
  function Patch(s: seq<int>, address: nat, values: seq<int>): (r: seq<int>)
    requires address + |values| <= |s|
    ensures |r| == |s|
    ensures forall i | 0 <= i < |s| :: r[i] == if address <= i < address + |values| then values[i - address] else s[i]
  {
    s[..address] + values + s[address + |values|..]
  }

  /** Three neighbouring slots written at once are the three slots written one by one. */
  lemma PatchThree(s: seq<int>, address: nat, x: int, y: int, z: int)
    requires address + 3 <= |s|
    ensures Patch(s, address, [x, y, z]) == s[address := x][address + 1 := y][address + 2 := z]
  {
  }

  function Shl8(i: nat): nat
    requires i < 4
  {
    if i == 0 then 1 else if i == 1 then 0x100 else if i == 2 then 0x1_0000 else 0x100_0000
  }

  /** Up to four bytes packed into one word, the first one lowest. */
  function Pack(v: seq<int>): nat
    requires |v| <= 4 && AllBytes(v)
  {
    (if |v| > 0 then v[0] else 0) + (if |v| > 1 then 0x100 * v[1] else 0)
    + (if |v| > 2 then 0x1_0000 * v[2] else 0) + (if |v| > 3 then 0x100_0000 * v[3] else 0)
  }

  /** Byte lane i of the data word (bits 8i to 8i + 7), as the FPGA wires it. */
  function Lane(data: nat, i: nat): int
    requires i < 4
  {
    if i == 0 then data % 0x100 else Lane(data / 0x100, i - 1)
  }

  lemma LowByte(low: int, high: nat)
    requires IsByte(low)
    ensures (low + 0x100 * high) % 0x100 == low && (low + 0x100 * high) / 0x100 == high
  {
  }

  /** The word fits 32 bits and its lanes are the packed bytes. */
  lemma PackRoundTrip(v: seq<int>)
    requires |v| <= 4 && AllBytes(v)
    ensures Pack(v) < 0x1_0000_0000
    ensures forall i | 0 <= i < |v| :: Lane(Pack(v), i) == v[i]
  {
    var a := if |v| > 0 then v[0] else 0;
    var b := if |v| > 1 then v[1] else 0;
    var c := if |v| > 2 then v[2] else 0;
    var d := if |v| > 3 then v[3] else 0;
    FourLanes(a, b, c, d);
    assert Pack(v) == a + 0x100 * b + 0x1_0000 * c + 0x100_0000 * d;
    forall i | 0 <= i < |v| ensures Lane(Pack(v), i) == v[i] {
      assert i == 0 || i == 1 || i == 2 || i == 3;
    }
  }

  lemma FourLanes(a: int, b: int, c: int, d: int)
    requires IsByte(a) && IsByte(b) && IsByte(c) && IsByte(d)
    ensures var w := a + 0x100 * b + 0x1_0000 * c + 0x100_0000 * d;
            && w < 0x1_0000_0000
            && Lane(w, 0) == a && Lane(w, 1) == b && Lane(w, 2) == c && Lane(w, 3) == d
  {
    var w := a + 0x100 * b + 0x1_0000 * c + 0x100_0000 * d;
    var w1 := b + 0x100 * c + 0x1_0000 * d;
    var w2 := c + 0x100 * d;
    LowByte(a, w1);
    LowByte(b, w2);
    LowByte(c, d);
    assert w / 0x100 == w1 && w1 / 0x100 == w2 && w2 / 0x100 == d;
    assert Lane(w, 3) == Lane(w1, 2) == Lane(w2, 1) == Lane(d, 0);
    assert Lane(w, 2) == Lane(w1, 1) == Lane(w2, 0);
  }

  /** One lane of the FPGA's write: slot `addr + i` takes the byte if the size covers it and
      the slot exists. */
  function WriteLane(wire: seq<int>, addr: nat, data: nat, size: nat, i: nat): (r: seq<int>)
    requires |wire| == SLOTS && i < 4
    ensures |r| == SLOTS
  {
    if i + 1 <= size && 0 < addr <= 512 - i then wire[addr + i := Lane(data, i)] else wire
  }

  /** The FPGA module's reaction to the start bit. */
  function FpgaWrite(wire: seq<int>, addr: nat, data: nat, size: nat): (r: seq<int>)
    requires |wire| == SLOTS
    ensures |r| == SLOTS
  {
    if size > 4 then wire
    else
      var first := WriteLane(WriteLane(wire, addr, data, size, 0), addr, data, size, 1);
      WriteLane(WriteLane(first, addr, data, size, 2), addr, data, size, 3)
  }

  /** Written through the packed word, the FPGA buffer changes exactly like the shadow. */
  lemma FpgaPatches(wire: seq<int>, addr: nat, v: seq<int>)
    requires |wire| == SLOTS && 0 < addr && 0 < |v| <= 4 && addr + |v| <= SLOTS && AllBytes(v)
    ensures FpgaWrite(wire, addr, Pack(v), |v|) == Patch(wire, addr, v)
  {
    PackRoundTrip(v);
  }

  /** How a call ends: normally, with an argument exception before anything is written, or
      with an index exception after the shadow's last slots have been written. */
  datatype Outcome = Done | IllegalArgument | OutOfBounds

  function Classify(address: int, values: seq<int>): Outcome {
    if address <= 0 || address > 512 || |values| == 0 || |values| > 4 || !AllBytes(values) then IllegalArgument
    else if address + |values| > SLOTS then OutOfBounds
    else Done
  }

  lemma NotAllBytes(values: seq<int>, i: nat)
    requires 1 <= i <= |values| - 4 && !AllBytes(values[i..i + 4])
    ensures !AllBytes(values[1..])
  {
    var k :| 0 <= k < 4 && !IsByte(values[i..i + 4][k]);
    assert values[1..][i + k - 1] == values[i + k];
  }

  lemma Spliced(now: seq<int>, was: seq<int>, values: seq<int>, end: nat)
    requires |now| == |was| == |values| == SLOTS && 1 <= end <= SLOTS
    requires forall a | 0 <= a < SLOTS :: now[a] == if 1 <= a < end then values[a] else was[a]
    ensures now == was[..1] + values[1..end] + was[end..] && (end == 1 ==> now == was)
  {
  }

  lemma MoreBytes(values: seq<int>, i: nat, j: nat)
    requires 1 <= i <= j <= |values| && AllBytes(values[1..i]) && AllBytes(values[i..j])
    ensures AllBytes(values[1..j])
  {
    forall k | 0 <= k < j - 1 ensures IsByte(values[1..j][k]) {
      if k < i - 1 {
        assert values[1..j][k] == values[1..i][k];
      } else {
        assert values[1..j][k] == values[i..j][k - (i - 1)];
      }
    }
  }

  class DefaultDMX {
    var shadow: seq<int>
    var wire: seq<int>        // the FPGA's buffer
    var regData: nat
    var regAddr: nat
    var regSize: nat
    ghost var hits: seq<nat>  // how often each slot of the FPGA buffer was written

    ghost predicate Valid() reads this {
      && |shadow| == |wire| == |hits| == SLOTS && AllBytes(shadow) && AllBytes(wire)
      && shadow[1..] == wire[1..]
    }

    /** Start the FPGA on the three registers. */
    method Start()
      requires |wire| == |hits| == SLOTS && regSize <= 4
      modifies this`wire, this`hits
      ensures wire == FpgaWrite(old(wire), regAddr, regData, regSize)
      ensures |hits| == SLOTS && forall a | 0 <= a < SLOTS ::
                hits[a] == old(hits[a]) + (if regAddr <= a < regAddr + regSize then 1 else 0)
    {
      wire := FpgaWrite(wire, regAddr, regData, regSize);
      ghost var h, lo, n := hits, regAddr, regSize;
      hits := seq(SLOTS, a requires 0 <= a < SLOTS => h[a] + (if lo <= a < lo + n then 1 else 0));
    }

    /** Pack the values and copy them to the shadow. */
    method PackAndShadow(address: nat, values: seq<int>) returns (data: nat)
      requires |shadow| == SLOTS && 0 < address && 0 < |values| <= 4 && AllBytes(values)
      requires address + |values| <= SLOTS
      modifies this`shadow
      ensures shadow == Patch(old(shadow), address, values) && data == Pack(values)
    {
      data := 0;
      for i := 0 to |values|
        invariant data == Pack(values[..i])
        invariant shadow == Patch(old(shadow), address, values[..i])
      {
        assert values[..i + 1] == values[..i] + [values[i]];
        data := data + values[i] * Shl8(i);
        shadow := shadow[address + i := values[i]];
      }
      assert values[..|values|] == values;
    }

    /** Up to four neighbouring slots at once. */
    method SetDMX(address: int, values: seq<int>) returns (o: Outcome)
      requires Valid()
      modifies this
      ensures o == Classify(address, values)
      ensures o.Done? ==> Valid() && shadow == Patch(old(shadow), address, values)
      ensures o.Done? ==> forall a | 0 <= a < SLOTS ::
                hits[a] == old(hits[a]) + (if address <= a < address + |values| then 1 else 0)
      ensures o.IllegalArgument? ==> Valid() && shadow == old(shadow) && hits == old(hits)
      ensures o.OutOfBounds? ==> wire == old(wire) && shadow == Patch(old(shadow), address, values[..SLOTS - address])
    {
      if address <= 0 || address > 512 || |values| == 0 || |values| > 4 || !AllBytes(values) {
        return IllegalArgument;
      }
      if address + |values| > SLOTS {
        var _ := PackAndShadow(address, values[..SLOTS - address]);
        return OutOfBounds;
      }
      regData := PackAndShadow(address, values);
      regAddr := address;
      regSize := |values|;
      FpgaPatches(wire, address, values);
      Start();
      return Done;
    }

    /** All 512 slots, four at a time: each is written exactly once.  A value out of range
        stops the call at its group of four, `end`. */
    method SetAll(values: seq<int>) returns (o: Outcome, ghost end: nat)
      requires Valid()
      modifies this
      ensures Valid() && 1 <= end <= SLOTS
      ensures o == if |values| == SLOTS && AllBytes(values[1..]) then Done else IllegalArgument
      ensures |values| != SLOTS ==> end == 1
      ensures |values| == SLOTS ==> shadow == old(shadow[..1]) + values[1..end] + old(shadow)[end..]
      ensures o.Done? ==> end == SLOTS
      ensures forall a | 0 <= a < SLOTS :: hits[a] == old(hits[a]) + (if 1 <= a < end then 1 else 0)
      ensures end == 1 ==> shadow == old(shadow)
    {
      end := 1;
      if |values| != SLOTS {
        return IllegalArgument, 1;
      }
      var i := 1;
      while i < 512
        invariant 1 <= i <= 513 && i % 4 == 1 && Valid() && end == i && AllBytes(values[1..i])
        invariant forall a | 0 <= a < SLOTS :: shadow[a] == if 1 <= a < i then values[a] else old(shadow)[a]
        invariant forall a | 0 <= a < SLOTS :: hits[a] == old(hits[a]) + (if 1 <= a < i then 1 else 0)
      {
        var r := SetDMX(i, values[i..i + 4]);
        if r != Done {
          NotAllBytes(values, i);
          Spliced(shadow, old(shadow), values, i);
          return r, i;
        }
        MoreBytes(values, i, i + 4);
        i, end := i + 4, i + 4;
      }
      Spliced(shadow, old(shadow), values, end);
      return Done, end;
    }

    method ClearDMX()
      requires Valid()
      modifies this
      ensures Valid() && shadow[0] == old(shadow[0]) && forall a | 1 <= a < SLOTS :: shadow[a] == 0
    {
      var i := 1;
      while i < 512
        invariant 1 <= i <= 513 && i % 4 == 1 && Valid()
        invariant shadow[0] == old(shadow[0]) && forall a | 1 <= a < i :: shadow[a] == 0
      {
        var _ := SetDMX(i, [0, 0, 0, 0]);
        i := i + 4;
      }
    }

    method GetDMX(address: int) returns (o: Outcome, v: int)
      requires Valid()
      ensures o == (if 0 < address <= 512 then Done else IllegalArgument) && (o.Done? ==> v == shadow[address])
    {
      if address <= 0 || address > 512 {
        return IllegalArgument, 0;
      }
      return Done, shadow[address];
    }
  }
}
