/** Bloom filters: exactly the bits that the keys probe are set, so a key that went into a filter
  * always matches it. */
module Bloom {
  import opened Crc32c
  import opened ByteNumbers

  // ---------------------------------------------------------------- the hash

  const SEED: bv32 := 0xbc9f_1d34
  const FACTOR: bv32 := 0xc6a4_a793

  /** Four bytes at a time, then what remains. */
  function HashFrom(h: bv32, data: Bytes): bv32
    decreases |data|
  {
    if |data| >= 4 then HashFrom(MixWord(h, DecodeFixed32(data[..4]).bits), data[4..])
    else if |data| == 0 then h
    else MixTail(if |data| >= 2 then Beside(if |data| == 3 then Beside(h, data[2], 16) else h, data[1], 8) else h, data[0])
  }

  function MixWord(h: bv32, w: bv32): bv32 {
    var g := Times(h + w);
    g ^ (g >> 16)
  }

  function Beside(h: bv32, b: Byte, shift: bv6): bv32
    requires shift <= 32
  {
    h + ((b as bv32) << shift)
  }

  function MixTail(h: bv32, b: Byte): bv32 {
    var g := Times(h + (b as bv32));
    g ^ (g >> 24)
  }

  function Times(x: bv32): bv32 {
    x * FACTOR
  }

  function Length(key: Bytes): bv32 {
    (|key| % 0x1_0000_0000) as bv32
  }

  function BloomHash(key: Bytes): bv32 {
    HashFrom(SEED ^ Times(Length(key)), key)
  }

  /** The j-th of the probed positions, by double hashing. */
  function Probe(h: bv32, j: nat): bv32 {
    if j == 0 then h else Advance(Probe(h, j - 1), Delta(h))
  }

  /** Wraps around at 32 bits. */
  function Advance(h: bv32, delta: bv32): bv32 {
    h + delta
  }

  function Delta(h: bv32): bv32 {
    (h >> 17) | (h << 15)
  }

  function Position(key: Bytes, j: nat, bits: nat): (pos: nat)
    requires bits > 0
    ensures pos < bits
  {
    Probe(BloomHash(key), j) as nat % bits
  }

  // ---------------------------------------------------------------- bits

  function Bit(k: nat): Byte
    requires k < 8
  {
    if k == 0 then 1 else if k == 1 then 2 else if k == 2 then 4 else if k == 3 then 8
    else if k == 4 then 16 else if k == 5 then 32 else if k == 6 then 64 else 128
  }

  predicate HasBit(bits: Bytes, pos: nat)
    requires pos < 8 * |bits|
  {
    bits[pos / 8] & Bit(pos % 8) != 0
  }

  lemma OrBits(x: Byte, b: Byte, c: Byte)
    ensures (x | b) & c != 0 <==> x & c != 0 || b & c != 0
  {
  }

  /** Different bits have nothing in common. */
  lemma BitsDiffer(i: nat, k: nat)
    requires i < 8 && k < 8
    ensures Bit(i) & Bit(k) != 0 <==> i == k
  {
  }

  function SetBit(bits: Bytes, pos: nat): Bytes
    requires pos < 8 * |bits|
  {
    bits[pos / 8 := bits[pos / 8] | Bit(pos % 8)]
  }

  lemma SetBitSets(bits: Bytes, pos: nat, q: nat)
    requires pos < 8 * |bits| && q < 8 * |bits|
    ensures HasBit(SetBit(bits, pos), q) <==> q == pos || HasBit(bits, q)
  {
    hide Bit;
    if q / 8 == pos / 8 {
      OrBits(bits[pos / 8], Bit(pos % 8), Bit(q % 8));
      BitsDiffer(pos % 8, q % 8);
      assert q % 8 == pos % 8 <==> q == pos;
    }
  }

  // ---------------------------------------------------------------- filters

  /** A filter is its bits followed by the number of probes. */
  predicate Matches(filter: Bytes, key: Bytes) {
    |filter| >= 2 &&
    var probes := filter[|filter| - 1] as nat;
    // larger numbers are reserved for other encodings
    probes > 30 || AllBits(filter[..|filter| - 1], key, probes)
  }

  predicate AllBits(bits: Bytes, key: Bytes, probes: nat)
    requires bits != []
  {
    forall j :: 0 <= j < probes ==> HasBit(bits, Position(key, j, 8 * |bits|))
  }

  /** The positions that keys probe. */
  ghost function Probes(keys: seq<Bytes>, k: nat, bits: nat): set<nat>
    requires bits > 0
  {
    set x, j | 0 <= x < |keys| && 0 <= j < k :: Position(keys[x], j, bits)
  }

  ghost predicate ExactlyBits(bits: Bytes, positions: set<nat>) {
    forall pos :: 0 <= pos < 8 * |bits| ==> (HasBit(bits, pos) <==> pos in positions)
  }

  /** Whole bytes for the bits the keys are worth, at least 64 of them. */
  predicate SizedFor(bytes: nat, bits: nat) {
    var wanted := if bits < 64 then 64 else bits;
    8 * bytes - 8 < wanted <= 8 * bytes
  }

  /** The filter of these keys: exactly the bits they probe, then the number of probes. */
  ghost predicate FilterOf(filter: Bytes, keys: seq<Bytes>, bitsPerKey: nat, k: nat) {
    && |filter| >= 2
    && SizedFor(|filter| - 1, |keys| * bitsPerKey)
    && filter[|filter| - 1] as nat == k
    && ExactlyBits(filter[..|filter| - 1], Probes(keys, k, 8 * (|filter| - 1)))
  }

  /** A key that went in matches. */
  lemma FilterOfMatches(filter: Bytes, keys: seq<Bytes>, bitsPerKey: nat, k: nat, key: Bytes)
    requires FilterOf(filter, keys, bitsPerKey, k) && key in keys
    ensures Matches(filter, key)
  {
    hide HasBit, Position;
    var bits := filter[..|filter| - 1];
    var x :| 0 <= x < |keys| && keys[x] == key;
    forall j | 0 <= j < k ensures HasBit(bits, Position(key, j, 8 * |bits|)) {
      assert Position(keys[x], j, 8 * |bits|) in Probes(keys, k, 8 * |bits|);
    }
  }

  /** A key of which some probe is no probe of a key that went in does not match. */
  lemma FilterOfExcludes(filter: Bytes, keys: seq<Bytes>, bitsPerKey: nat, k: nat, key: Bytes, j: nat)
    requires FilterOf(filter, keys, bitsPerKey, k) && k <= 30 && j < k
    requires Position(key, j, 8 * (|filter| - 1)) !in Probes(keys, k, 8 * (|filter| - 1))
    ensures !Matches(filter, key)
  {
    hide HasBit, Position, Probes;
    assert !HasBit(filter[..|filter| - 1], Position(key, j, 8 * (|filter| - 1)));
  }

  class BloomFilterPolicy {
    const bitsPerKey: nat
    const k: nat

    ghost predicate Ok() {
      1 <= k <= 30
    }

    /** As many probes as 0.69 times the bits of a key, from 1 to 30. */
    constructor (bitsPerKey: nat)
      ensures Ok() && this.bitsPerKey == bitsPerKey
      ensures k > 1 ==> k as real <= bitsPerKey as real * 0.69
      ensures k < 30 ==> bitsPerKey as real * 0.69 < k as real + 1.0
    {
      this.bitsPerKey := bitsPerKey;
      var probes := (bitsPerKey as real * 0.69).Floor;
      k := if probes < 1 then 1 else if probes > 30 then 30 else probes;
    }

    /** Appends the filter of the keys. */
    method CreateFilter(keys: seq<Bytes>, dst: Bytes) returns (r: Bytes)
      requires Ok()
      ensures dst <= r && FilterOf(r[|dst|..], keys, bitsPerKey, k)
    {
      hide HasBit, Position, ExactlyBits, Probes;
      var bits := |keys| * bitsPerKey;
      if bits < 64 {
        bits := 64;
      }
      var bytes := (bits + 7) / 8;
      bits := bytes * 8;
      var slots := new Byte[bytes](_ => 0);
      NoBitsYet(slots[..], keys, k);
      for i := 0 to |keys|
        invariant ExactlyBits(slots[..], Probes(keys[..i], k, bits))
      {
        SetProbes(slots, keys[i], Probes(keys[..i], k, bits));
        OneMoreKey(keys, i, k, bits);
      }
      assert keys[..|keys|] == keys;
      ByteRoundTrip(k);
      r := dst + slots[..] + [k as Byte];
      assert r[|dst|..] == slots[..] + [k as Byte];
      assert r[|dst|..][..bytes] == slots[..];
    }

    /** Sets the bits one key probes. */
    method SetProbes(slots: array<Byte>, key: Bytes, ghost earlier: set<nat>)
      requires slots.Length > 0 && ExactlyBits(slots[..], earlier)
      modifies slots
      ensures ExactlyBits(slots[..], earlier + Probes([key], k, 8 * slots.Length))
    {
      hide HasBit, Position, Advance, Delta, BloomHash, Bit, ExactlyBits, Probes;
      var bits := 8 * slots.Length;
      var h := BloomHash(key);
      var delta := Delta(h);
      NoProbesYet(key, bits, earlier);
      for j := 0 to k
        invariant h == Probe(BloomHash(key), j)
        invariant ExactlyBits(slots[..], earlier + Probes([key], j, bits))
      {
        var bitpos := h as nat % bits;
        ghost var before := slots[..];
        slots[bitpos / 8] := slots[bitpos / 8] | Bit(bitpos % 8);
        BitIsSet(before, slots[..], bitpos, key, j, earlier);
        h := Advance(h, delta);
      }
    }

    /** May the key have been among those the filter was created from? */
    method KeyMayMatch(key: Bytes, filter: Bytes) returns (r: bool)
      ensures r == Matches(filter, key)
    {
      hide HasBit, Position, Advance, Delta, BloomHash;
      var len := |filter|;
      if len < 2 {
        return false;
      }
      var slots := filter[..len - 1];
      var bits := (len - 1) * 8;
      var probes := filter[len - 1] as nat;
      if probes > 30 {
        return true;
      }
      var h := BloomHash(key);
      var delta := Delta(h);
      for j := 0 to probes
        invariant h == Probe(BloomHash(key), j)
        invariant forall x :: 0 <= x < j ==> HasBit(slots, Position(key, x, bits))
      {
        var bitpos := h as nat % bits;
        Probed(key, j, bits, h);
        if !HasBit(slots, bitpos) {
          return false;
        }
        h := Advance(h, delta);
      }
      return true;
    }
  }

  lemma Probed(key: Bytes, j: nat, bits: nat, h: bv32)
    requires bits > 0 && h == Probe(BloomHash(key), j)
    ensures Position(key, j, bits) == h as nat % bits
  {
  }

  lemma NoBitsYet(bits: Bytes, keys: seq<Bytes>, k: nat)
    requires bits != [] && forall i :: 0 <= i < |bits| ==> bits[i] == 0
    ensures ExactlyBits(bits, Probes(keys[..0], k, 8 * |bits|))
  {
    hide Bit;
    forall pos | 0 <= pos < 8 * |bits| ensures !HasBit(bits, pos) {
      NothingSet(Bit(pos % 8));
    }
  }

  lemma NothingSet(c: Byte)
    ensures 0 & c == 0
  {
  }

  lemma NoProbesYet(key: Bytes, bits: nat, earlier: set<nat>)
    requires bits > 0
    ensures earlier + Probes([key], 0, bits) == earlier
  {
  }

  lemma BitIsSet(before: Bytes, after: Bytes, pos: nat, key: Bytes, j: nat, earlier: set<nat>)
    requires pos < 8 * |before| && after == before[pos / 8 := before[pos / 8] | Bit(pos % 8)]
    requires pos == Probe(BloomHash(key), j) as nat % (8 * |before|)
    requires ExactlyBits(before, earlier + Probes([key], j, 8 * |before|))
    ensures ExactlyBits(after, earlier + Probes([key], j + 1, 8 * |before|))
  {
    hide HasBit, Bit, Probe, BloomHash, Probes;
    OneMoreProbe(key, j, 8 * |before|);
    assert Position(key, j, 8 * |before|) == pos;
    forall q | 0 <= q < 8 * |after| ensures HasBit(after, q) <==> q in earlier + Probes([key], j + 1, 8 * |before|) {
      SetBitSets(before, pos, q);
    }
  }

  lemma OneMoreProbe(key: Bytes, j: nat, bits: nat)
    requires bits > 0
    ensures Probes([key], j + 1, bits) == Probes([key], j, bits) + {Position(key, j, bits)}
  {
    hide Position;
    assert [key][0] == key;
  }

  lemma OneMoreKey(keys: seq<Bytes>, i: nat, k: nat, bits: nat)
    requires i < |keys| && bits > 0
    ensures Probes(keys[..i + 1], k, bits) == Probes(keys[..i], k, bits) + Probes([keys[i]], k, bits)
  {
    hide Position;
    assert [keys[i]][0] == keys[i] == keys[..i + 1][i];
    forall p | p in Probes(keys[..i], k, bits) ensures p in Probes(keys[..i + 1], k, bits) {
      var x, j :| 0 <= x < i && 0 <= j < k && Position(keys[..i][x], j, bits) == p;
      assert keys[..i + 1][x] == keys[..i][x];
    }
    forall p | p in Probes(keys[..i + 1], k, bits) ensures p in Probes(keys[..i], k, bits) || p in Probes([keys[i]], k, bits) {
      var x, j :| 0 <= x < i + 1 && 0 <= j < k && Position(keys[..i + 1][x], j, bits) == p;
      assert x < i ==> keys[..i + 1][x] == keys[..i][x];
    }
  }
}
