/**
 MurmurHash3 x86_32 over the bytes of a key.

 Every step permutes the 32-bit state: the scrambling of a word, the step of a block, the tail with the length,
 and the finaliser, each with its inverse. So keys of one length that differ inside one four-byte block, or
 only in the tail, never collide, whatever blocks follow and under every seed.
 */
module Murmur3 {

  // ----- The 32-bit operations, each with the operation that undoes it -----

  function MulC1(x: bv32): bv32 { x * 0xcc9e_2d51 }
  function DivC1(x: bv32): bv32 { x * 0xdee1_3bb1 }
  function MulC2(x: bv32): bv32 { x * 0x1b87_3593 }
  function DivC2(x: bv32): bv32 { x * 0x56ed_309b }
  function Rotl15(x: bv32): bv32 { (x << 15) | (x >> 17) }
  function Rotr15(x: bv32): bv32 { (x >> 15) | (x << 17) }
  function Rotl13(x: bv32): bv32 { (x << 13) | (x >> 19) }
  function Rotr13(x: bv32): bv32 { (x >> 13) | (x << 19) }
  function Step5(x: bv32): bv32 { x * 5 + 0xe654_6b64 }
  function Unstep5(x: bv32): bv32 { (x - 0xe654_6b64) * 0xcccc_cccd }
  function Fold16(x: bv32): bv32 { x ^ (x >> 16) }
  function Fold13(x: bv32): bv32 { x ^ (x >> 13) }
  function Unfold13(x: bv32): bv32 { x ^ (x >> 13) ^ (x >> 26) }
  function MulF1(x: bv32): bv32 { x * 0x85eb_ca6b }
  function DivF1(x: bv32): bv32 { x * 0xa5cb_9243 }
  function MulF2(x: bv32): bv32 { x * 0xc2b2_ae35 }
  function DivF2(x: bv32): bv32 { x * 0x7ed1_b41d }
  function Xor(x: bv32, y: bv32): bv32 { x ^ y }

  lemma OddFactorsCancel(x: bv32)
    ensures DivC1(x * 0xcc9e_2d51) == x && MulC1(x * 0xdee1_3bb1) == x
    ensures DivC2(x * 0x1b87_3593) == x && MulC2(x * 0x56ed_309b) == x
    ensures DivF1(x * 0x85eb_ca6b) == x && MulF1(x * 0xa5cb_9243) == x
    ensures DivF2(x * 0xc2b2_ae35) == x && MulF2(x * 0x7ed1_b41d) == x
    ensures Unstep5(x * 5 + 0xe654_6b64) == x && Step5((x - 0xe654_6b64) * 0xcccc_cccd) == x
  {
  }

  lemma MultipliersUndo(x: bv32)
    ensures DivC1(MulC1(x)) == x && MulC1(DivC1(x)) == x
    ensures DivC2(MulC2(x)) == x && MulC2(DivC2(x)) == x
    ensures DivF1(MulF1(x)) == x && MulF1(DivF1(x)) == x
    ensures DivF2(MulF2(x)) == x && MulF2(DivF2(x)) == x
    ensures Unstep5(Step5(x)) == x && Step5(Unstep5(x)) == x
  {
    OddFactorsCancel(x);
  }

  lemma RotationsUndo(x: bv32)
    ensures Rotr15(Rotl15(x)) == x && Rotl15(Rotr15(x)) == x
    ensures Rotr13(Rotl13(x)) == x && Rotl13(Rotr13(x)) == x
  {
  }

  lemma Fold13Undo(x: bv32)
    ensures Unfold13(x ^ (x >> 13)) == x && Fold13(x ^ (x >> 13) ^ (x >> 26)) == x
  {
  }

  lemma FoldsUndo(x: bv32)
    ensures Fold16(Fold16(x)) == x
    ensures Unfold13(Fold13(x)) == x && Fold13(Unfold13(x)) == x
  {
    Fold13Undo(x);
  }

  lemma XorUndo(x: bv32, y: bv32)
    ensures Xor(Xor(x, y), y) == x && Xor(x, Xor(x, y)) == y
  {
  }

  // ----- The steps of the hash -----

  /** What four message bytes (or the tail) go through before they meet the state. */
  function Scramble(k: bv32): bv32 {
    MulC2(Rotl15(MulC1(k)))
  }

  function Unscramble(k: bv32): bv32 {
    DivC1(Rotr15(DivC2(k)))
  }

  /** One block step: the state takes in one word. */
  function Mix(hash: bv32, k: bv32): bv32 {
    Step5(Rotl13(Xor(hash, Scramble(k))))
  }

  /** The finaliser. */
  function Avalanche(hash: bv32): bv32 {
    Fold16(MulF2(Fold13(MulF1(Fold16(hash)))))
  }

  function Unavalanche(hash: bv32): bv32 {
    Fold16(DivF1(Unfold13(DivF2(Fold16(hash)))))
  }

  lemma ScramblePermutes(k: bv32)
    ensures Unscramble(Scramble(k)) == k && Scramble(Unscramble(k)) == k
  {
    MultipliersUndo(k);
    RotationsUndo(MulC1(k));
    MultipliersUndo(Rotl15(MulC1(k)));
    RotationsUndo(DivC2(k));
    MultipliersUndo(Rotr15(DivC2(k)));
  }

  lemma AvalanchePermutes(hash: bv32)
    ensures Unavalanche(Avalanche(hash)) == hash && Avalanche(Unavalanche(hash)) == hash
  {
    var a := Fold16(hash);
    FoldsUndo(hash);
    MultipliersUndo(a);
    FoldsUndo(MulF1(a));
    MultipliersUndo(Fold13(MulF1(a)));
    FoldsUndo(MulF2(Fold13(MulF1(a))));
    FoldsUndo(DivF2(a));
    MultipliersUndo(Unfold13(DivF2(a)));
    FoldsUndo(DivF1(Unfold13(DivF2(a))));
  }

  /** The state a block step started from. */
  function Unmix(hash: bv32, k: bv32): bv32 {
    Xor(Rotr13(Unstep5(hash)), Scramble(k))
  }

  /** The word that takes one state to another. */
  function WordBetween(before: bv32, after: bv32): bv32 {
    Unscramble(Xor(before, Rotr13(Unstep5(after))))
  }

  /** A block step permutes the state for each word, and permutes the words for each state. */
  lemma MixPermutes(hash: bv32, k: bv32)
    ensures Unmix(Mix(hash, k), k) == hash && Mix(Unmix(hash, k), k) == hash
    ensures WordBetween(hash, Mix(hash, k)) == k
  {
    var x := Xor(hash, Scramble(k));
    XorUndo(hash, Scramble(k));
    RotationsUndo(x);
    MultipliersUndo(Rotl13(x));
    ScramblePermutes(k);
    var u := Rotr13(Unstep5(hash));
    XorUndo(u, Scramble(k));
    MultipliersUndo(hash);
    RotationsUndo(Unstep5(hash));
  }

  lemma WordBetweenJoins(before: bv32, after: bv32)
    ensures Mix(before, WordBetween(before, after)) == after
  {
    var u := Rotr13(Unstep5(after));
    ScramblePermutes(Xor(before, u));
    XorUndo(before, u);
    RotationsUndo(Unstep5(after));
    MultipliersUndo(after);
  }

  // ----- Bytes to words -----

  /** Four bytes as a little-endian word. */
  function Pack(a: bv8, b: bv8, c: bv8, d: bv8): bv32 {
    (a as bv32) | ((b as bv32) << 8) | ((c as bv32) << 16) | ((d as bv32) << 24)
  }

  function Unpack(w: bv32): (bytes: seq<bv8>)
    ensures |bytes| == 4
  {
    [(w & 0xff) as bv8, ((w >> 8) & 0xff) as bv8, ((w >> 16) & 0xff) as bv8, (w >> 24) as bv8]
  }

  lemma PackInjective(a: bv8, b: bv8, c: bv8, d: bv8, a': bv8, b': bv8, c': bv8, d': bv8)
    requires Pack(a, b, c, d) == Pack(a', b', c', d')
    ensures a == a' && b == b' && c == c' && d == d'
  {
  }

  lemma UnpackPacks(w: bv32)
    ensures var bytes := Unpack(w); Pack(bytes[0], bytes[1], bytes[2], bytes[3]) == w
  {
  }

  type Key = seq<bv8>

  /** A length as the 32-bit word JavaScript's bitwise operators turn it into: counting wraps at 2^32. */
  function Length32(n: nat): bv32 {
    if n == 0 then 0 else Length32(n - 1) + 1
  }

  function BlockCount(key: Key): (n: nat)
    ensures 4 * n + |key| % 4 <= |key|
  {
    |key| % 0x1_0000_0000 / 4
  }

  function Word(key: Key, i: nat): bv32
    requires 4 * i + 4 <= |key|
  {
    Pack(key[4 * i], key[4 * i + 1], key[4 * i + 2], key[4 * i + 3])
  }

  /** The state after the blocks from `i` up to `n`. */
  function MixFrom(key: Key, i: nat, n: nat, hash: bv32): bv32
    requires i <= n && 4 * n <= |key|
    decreases n - i
  {
    if i == n then hash else MixFrom(key, i + 1, n, Mix(hash, Word(key, i)))
  }

  /** Byte `k` of the one to three after the last block, or 0. */
  function TailByte(key: Key, k: nat): bv8
    requires k < 4
  {
    if k < |key| % 4 then key[4 * BlockCount(key) + k] else 0
  }

  function TailWord(key: Key): bv32 {
    Pack(TailByte(key, 0), TailByte(key, 1), TailByte(key, 2), 0)
  }

  /** Everything after the blocks: the tail, the length and the finaliser. */
  function Finish(key: Key, hash: bv32): bv32 {
    var h := if |key| % 4 >= 1 then Xor(hash, Scramble(TailWord(key))) else hash;
    Avalanche(Xor(h, Length32(|key|)))
  }

  /** The hash of a key, as a composition of the steps above. */
  function Hash(key: Key, seed: bv32): bv32 {
    Finish(key, MixFrom(key, 0, BlockCount(key), seed))
  }

  function ByteAt(b: bv8, shift: nat): bv32
    requires shift <= 24
  {
    (b as bv32) << shift
  }

  lemma XorPacksOne(a: bv8)
    ensures Xor(0, ByteAt(a, 0)) == Pack(a, 0, 0, 0)
  {
  }

  lemma XorPacksTwo(a: bv8, b: bv8)
    ensures Xor(Xor(0, ByteAt(b, 8)), ByteAt(a, 0)) == Pack(a, b, 0, 0)
  {
  }

  lemma XorAddsSecond(b: bv8, c: bv8)
    ensures Xor(0, ByteAt(c, 16)) == Pack(0, 0, c, 0)
    ensures Xor(Pack(0, 0, c, 0), ByteAt(b, 8)) == Pack(0, b, c, 0)
  {
  }

  lemma XorAddsFirst(a: bv8, b: bv8, c: bv8)
    ensures Xor(Pack(0, b, c, 0), ByteAt(a, 0)) == Pack(a, b, c, 0)
  {
  }

  lemma XorPacksThree(a: bv8, b: bv8, c: bv8)
    ensures Xor(Xor(Xor(0, ByteAt(c, 16)), ByteAt(b, 8)), ByteAt(a, 0)) == Pack(a, b, c, 0)
  {
    hide *;
    XorAddsSecond(b, c);
    XorAddsFirst(a, b, c);
  }

  /** The hash as it is computed: one loop over the blocks, then the tail and the finaliser, all in place. */
  method Murmur3(bytes: Key, seed: bv32) returns (hash: bv32)
    ensures hash == Hash(bytes, seed)
  {
    var blocks := |bytes| % 0x1_0000_0000 / 4;
    hash := seed;
    for index := 0 to blocks
      invariant MixFrom(bytes, 0, blocks, seed) == MixFrom(bytes, index, blocks, hash)
    {
      var offset := index * 4;
      var k := Pack(bytes[offset], bytes[offset + 1], bytes[offset + 2], bytes[offset + 3]);
      k := MulC1(k);
      k := Rotl15(k);
      k := MulC2(k);
      hash := Xor(hash, k);
      hash := Rotl13(hash);
      hash := Step5(hash);
    }

    hash := MixTail(bytes, blocks, hash);
    hash := Xor(hash, Length32(|bytes|));
    hash := Fold16(hash);
    hash := MulF1(hash);
    hash := Fold13(hash);
    hash := MulF2(hash);
    hash := Fold16(hash);
  }

  /** The one to three bytes after the last block. */
  method MixTail(bytes: Key, blocks: nat, state: bv32) returns (hash: bv32)
    requires blocks == BlockCount(bytes)
    ensures hash == if |bytes| % 4 >= 1 then Xor(state, Scramble(TailWord(bytes))) else state
  {
    hash := state;
    var tail := blocks * 4;
    var remaining := |bytes| % 4;
    var k: bv32 := 0;
    if remaining == 3 {
      k := Xor(k, ByteAt(bytes[tail + 2], 16));
    }
    if remaining >= 2 {
      k := Xor(k, ByteAt(bytes[tail + 1], 8));
    }
    if remaining >= 1 {
      k := Xor(k, ByteAt(bytes[tail], 0));
      XorPacksOne(TailByte(bytes, 0));
      XorPacksTwo(TailByte(bytes, 0), TailByte(bytes, 1));
      XorPacksThree(TailByte(bytes, 0), TailByte(bytes, 1), TailByte(bytes, 2));
      k := MulC1(k);
      k := Rotl15(k);
      k := MulC2(k);
      hash := Xor(hash, k);
    }
  }

  // ----- Collisions -----

  lemma {:induction false} MixFromSplit(key: Key, i: nat, m: nat, n: nat, hash: bv32)
    requires i <= m <= n && 4 * n <= |key|
    ensures MixFrom(key, i, n, hash) == MixFrom(key, m, n, MixFrom(key, i, m, hash))
    decreases m - i
  {
    if i < m {
      MixFromSplit(key, i + 1, m, n, Mix(hash, Word(key, i)));
    }
  }

  ghost predicate SameBlocks(x: Key, y: Key, i: nat, n: nat)
    requires 4 * n <= |x| && 4 * n <= |y|
  {
    forall k :: 4 * i <= k < 4 * n ==> x[k] == y[k]
  }

  lemma {:induction false} SameBlocksMixAlike(x: Key, y: Key, i: nat, n: nat, hash: bv32)
    requires i <= n && 4 * n <= |x| && 4 * n <= |y| && SameBlocks(x, y, i, n)
    ensures MixFrom(x, i, n, hash) == MixFrom(y, i, n, hash)
    decreases n - i
  {
    if i < n {
      SameBlocksMixAlike(x, y, i + 1, n, Mix(hash, Word(x, i)));
    }
  }

  /** The state the blocks from `i` up to `n` started from. */
  function Rewind(key: Key, i: nat, n: nat, hash: bv32): bv32
    requires i <= n && 4 * n <= |key|
    decreases n - i
  {
    if i == n then hash else Unmix(Rewind(key, i + 1, n, hash), Word(key, i))
  }

  /** Any number of blocks permutes the state. */
  lemma {:induction false} BlocksPermute(key: Key, i: nat, n: nat, hash: bv32)
    requires i <= n && 4 * n <= |key|
    ensures Rewind(key, i, n, MixFrom(key, i, n, hash)) == hash
    ensures MixFrom(key, i, n, Rewind(key, i, n, hash)) == hash
    decreases n - i
  {
    if i < n {
      var k := Word(key, i);
      BlocksPermute(key, i + 1, n, Mix(hash, k));
      MixPermutes(hash, k);
      BlocksPermute(key, i + 1, n, hash);
      MixPermutes(Rewind(key, i + 1, n, hash), k);
    }
  }

  /** The state the tail and the finaliser started from. */
  function Unfinish(key: Key, hash: bv32): bv32 {
    var h := Xor(Unavalanche(hash), Length32(|key|));
    if |key| % 4 >= 1 then Xor(h, Scramble(TailWord(key))) else h
  }

  lemma {:induction false} FinishPermutes(key: Key, hash: bv32)
    ensures Unfinish(key, Finish(key, hash)) == hash && Finish(key, Unfinish(key, hash)) == hash
  {
    var len, t := Length32(|key|), Scramble(TailWord(key));
    var h := if |key| % 4 >= 1 then Xor(hash, t) else hash;
    AvalanchePermutes(Xor(h, len));
    XorUndo(h, len);
    XorUndo(hash, t);
    var u := Unavalanche(hash);
    AvalanchePermutes(hash);
    XorUndo(u, len);
    XorUndo(Xor(u, len), t);
  }

  /** For every key the hash permutes the seeds. */
  lemma {:induction false} SeedsNeverCollide(key: Key, seed: bv32, seed': bv32)
    ensures Hash(key, seed) == Hash(key, seed') <==> seed == seed'
  {
    var n := BlockCount(key);
    FinishPermutes(key, MixFrom(key, 0, n, seed));
    FinishPermutes(key, MixFrom(key, 0, n, seed'));
    BlocksPermute(key, 0, n, seed);
    BlocksPermute(key, 0, n, seed');
  }

  /** `y` is `x` outside the bytes from `lo` up to `hi`. */
  ghost predicate DifferOnlyIn(x: Key, y: Key, lo: nat, hi: nat) {
    |x| == |y| && forall k :: 0 <= k < |x| && !(lo <= k < hi) ==> x[k] == y[k]
  }

  lemma {:induction false} EqualHashesEqualWords(x: Key, y: Key, i: nat, seed: bv32)
    requires i < BlockCount(x) && DifferOnlyIn(x, y, 4 * i, 4 * i + 4)
    requires Hash(x, seed) == Hash(y, seed)
    ensures Word(x, i) == Word(y, i)
  {
    var n := BlockCount(x);
    var h := MixFrom(x, 0, i, seed);
    SameBlocksMixAlike(x, y, 0, i, seed);
    MixFromSplit(x, 0, i, n, seed);
    MixFromSplit(y, 0, i, n, seed);
    var hx, hy := Mix(h, Word(x, i)), Mix(h, Word(y, i));
    SameTails(x, y);
    FinishPermutes(x, MixFrom(x, i + 1, n, hx));
    FinishPermutes(y, MixFrom(y, i + 1, n, hy));
    SameBlocksMixAlike(x, y, i + 1, n, hy);
    BlocksPermute(x, i + 1, n, hx);
    BlocksPermute(x, i + 1, n, hy);
    MixPermutes(h, Word(x, i));
    MixPermutes(h, Word(y, i));
  }

  lemma {:induction false} SameTails(x: Key, y: Key)
    requires |x| == |y| && forall k :: 4 * BlockCount(x) <= k < |x| ==> x[k] == y[k]
    ensures TailWord(x) == TailWord(y)
    ensures forall hash :: Finish(x, hash) == Finish(y, hash) && Unfinish(x, hash) == Unfinish(y, hash)
  {
    assert TailByte(x, 0) == TailByte(y, 0) && TailByte(x, 1) == TailByte(y, 1) && TailByte(x, 2) == TailByte(y, 2);
  }

  lemma {:induction false} EqualWordsEqualBytes(x: Key, y: Key, i: nat)
    requires 4 * i + 4 <= |x| && DifferOnlyIn(x, y, 4 * i, 4 * i + 4)
    requires Word(x, i) == Word(y, i)
    ensures x == y
  {
    var o := 4 * i;
    PackInjective(x[o], x[o + 1], x[o + 2], x[o + 3], y[o], y[o + 1], y[o + 2], y[o + 3]);
    assert forall k :: 0 <= k < |x| ==> x[k] == y[k];
  }

  /** Keys of one length that differ only inside block `i` have equal hashes only if they are equal. */
  lemma {:induction false} BlockNeverCollides(x: Key, y: Key, i: nat, seed: bv32)
    requires i < BlockCount(x) && DifferOnlyIn(x, y, 4 * i, 4 * i + 4)
    ensures Hash(x, seed) == Hash(y, seed) <==> x == y
  {
    if Hash(x, seed) == Hash(y, seed) {
      EqualHashesEqualWords(x, y, i, seed);
      EqualWordsEqualBytes(x, y, i);
    }
  }

  /** Keys of one length that differ only in the tail have equal hashes only if they are equal. */
  lemma {:induction false} TailNeverCollides(x: Key, y: Key, seed: bv32)
    requires DifferOnlyIn(x, y, 4 * BlockCount(x), 4 * BlockCount(x) + |x| % 4)
    ensures Hash(x, seed) == Hash(y, seed) <==> x == y
  {
    var n, r := BlockCount(x), |x| % 4;
    if Hash(x, seed) == Hash(y, seed) && r >= 1 {
      SameBlocksMixAlike(x, y, 0, n, seed);
      var h, len := MixFrom(x, 0, n, seed), Length32(|x|);
      var tx, ty := TailWord(x), TailWord(y);
      AvalanchePermutes(Xor(Xor(h, Scramble(tx)), len));
      AvalanchePermutes(Xor(Xor(h, Scramble(ty)), len));
      XorUndo(Xor(h, Scramble(tx)), len);
      XorUndo(Xor(h, Scramble(ty)), len);
      XorUndo(h, Scramble(tx));
      XorUndo(h, Scramble(ty));
      ScramblePermutes(tx);
      ScramblePermutes(ty);
      TailsEqual(x, y);
    }
    assert r == 0 ==> forall k :: 0 <= k < |x| ==> x[k] == y[k];
  }

  lemma {:induction false} TailsEqual(x: Key, y: Key)
    requires DifferOnlyIn(x, y, 4 * BlockCount(x), 4 * BlockCount(x) + |x| % 4)
    requires TailWord(x) == TailWord(y)
    ensures x == y
  {
    var t, r := 4 * BlockCount(x), |x| % 4;
    PackInjective(TailByte(x, 0), TailByte(x, 1), TailByte(x, 2), 0, TailByte(y, 0), TailByte(y, 1), TailByte(y, 2), 0);
    forall k | 0 <= k < |x| ensures x[k] == y[k] {
      if t <= k < t + r {
        assert TailByte(x, k - t) == TailByte(y, k - t);
      }
    }
  }

  /** `key` with block `i` replaced. */
  function WithBlock(key: Key, i: nat, block: seq<bv8>): (r: Key)
    requires i < BlockCount(key) && |block| == 4
    ensures DifferOnlyIn(key, r, 4 * i, 4 * i + 4)
  {
    key[..4 * i] + block + key[4 * i + 4..]
  }

  /** Each 32-bit hash is reached by exactly one content of block `i`, whatever the rest of the key: the bytes of a block spread evenly over the hash space. */
  lemma {:induction false} BlockReachesEachHashOnce(key: Key, i: nat, seed: bv32, target: bv32) returns (block: seq<bv8>)
    requires i < BlockCount(key)
    ensures |block| == 4 && Hash(WithBlock(key, i, block), seed) == target
    ensures forall other: seq<bv8> :: |other| == 4 && Hash(WithBlock(key, i, other), seed) == target ==> other == block
  {
    var n := BlockCount(key);
    var before := MixFrom(key, 0, i, seed);
    var after := Rewind(key, i + 1, n, Unfinish(key, target));
    var word := WordBetween(before, after);
    block := Unpack(word);
    UnpackPacks(word);
    var found := WithBlock(key, i, block);
    SameTails(key, found);
    SameBlocksMixAlike(key, found, 0, i, seed);
    MixFromSplit(found, 0, i, n, seed);
    WordBetweenJoins(before, after);
    assert Word(found, i) == word;
    SameBlocksMixAlike(key, found, i + 1, n, after);
    BlocksPermute(key, i + 1, n, Unfinish(key, target));
    FinishPermutes(key, target);
    forall other: seq<bv8> | |other| == 4 && Hash(WithBlock(key, i, other), seed) == target ensures other == block {
      BlocksCompete(key, i, seed, block, other);
    }
  }

  lemma {:induction false} BlocksCompete(key: Key, i: nat, seed: bv32, block: seq<bv8>, other: seq<bv8>)
    requires i < BlockCount(key) && |block| == |other| == 4
    requires Hash(WithBlock(key, i, block), seed) == Hash(WithBlock(key, i, other), seed)
    ensures block == other
  {
    var b, o := WithBlock(key, i, block), WithBlock(key, i, other);
    BlockNeverCollides(b, o, i, seed);
    assert b[4 * i..4 * i + 4] == block && o[4 * i..4 * i + 4] == other;
  }

  /** The reference vector of MurmurHash3 x86_32 for "abc": the tail, the length and the finaliser. */
  lemma ReferenceVectorTail()
    ensures Hash([0x61, 0x62, 0x63], 0x9747_b28c) == 0xc84a_62dd
  {
    var key: Key := [0x61, 0x62, 0x63];
    assert Length32(1) == 1 && Length32(2) == 2 && Length32(3) == 3;
    assert TailByte(key, 0) == 0x61 && TailByte(key, 1) == 0x62 && TailByte(key, 2) == 0x63;
    assert Pack(0x61, 0x62, 0x63, 0) == 0x63_6261;
    assert MulC1(0x0063_6261) == 0x9b9b_2db1;
    assert Rotl15(0x9b9b_2db1) == 0x96d8_cdcd;
    assert MulC2(0x96d8_cdcd) == 0xa734_9db7;
    assert Xor(0x9747_b28c, 0xa734_9db7) == 0x3073_2f3b;
    assert Xor(0x3073_2f3b, 0x0000_0003) == 0x3073_2f38;
    assert Fold16(0x3073_2f38) == 0x3073_1f4b;
    assert MulF1(0x3073_1f4b) == 0xc7a8_4259;
    assert Fold13(0xc7a8_4259) == 0xc7ae_7f1b;
    assert MulF2(0xc7ae_7f1b) == 0xc84a_aa97;
    assert Fold16(0xc84a_aa97) == 0xc84a_62dd;
  }

  /** The reference vector of MurmurHash3 x86_32 for "abcd": one block, the length and the finaliser. */
  lemma ReferenceVectorBlock()
    ensures Hash([0x61, 0x62, 0x63, 0x64], 0x9747_b28c) == 0xf047_8627
  {
    var key: Key := [0x61, 0x62, 0x63, 0x64];
    assert Length32(1) == 1 && Length32(2) == 2 && Length32(3) == 3 && Length32(4) == 4;
    assert Pack(0x61, 0x62, 0x63, 0x64) == 0x6463_6261;
    assert MixFrom(key, 0, 1, 0x9747_b28c) == MixFrom(key, 1, 1, Mix(0x9747_b28c, 0x6463_6261));
    assert MulC1(0x6463_6261) == 0x3f9b_2db1;
    assert Rotl15(0x3f9b_2db1) == 0x96d8_9fcd;
    assert MulC2(0x96d8_9fcd) == 0x5b94_33b7;
    assert Xor(0x9747_b28c, 0x5b94_33b7) == 0xccd3_813b;
    assert Rotl13(0xccd3_813b) == 0x7027_799a;
    assert Step5(0x7027_799a) == 0x1719_cb66;
    assert Xor(0x1719_cb66, 0x0000_0004) == 0x1719_cb62;
    assert Fold16(0x1719_cb62) == 0x1719_dc7b;
    assert MulF1(0x1719_dc7b) == 0x5bb1_3569;
    assert Fold13(0x5bb1_3569) == 0x5bb3_e8e0;
    assert MulF2(0x5bb3_e8e0) == 0xf047_7660;
    assert Fold16(0xf047_7660) == 0xf047_8627;
  }

  lemma OneByteTail(a: bv8)
    ensures TailWord([a]) == a as bv32
  {
    assert TailByte([a], 0) == a;
  }

  /** The unseeded hash of the one byte of "a". */
  lemma HashOfA()
    ensures Hash([0x61], 0) == 0x3c25_69b2
  {
    OneByteTail(0x61);
    hide TailWord, Pack, TailByte;
    assert Length32(1) == 1;
    assert 0x61 as bv8 as bv32 == 0x61;
    assert MulC1(0x61) == 0x87ef_2bb1;
    assert Rotl15(0x87ef_2bb1) == 0x95d8_c3f7;
    assert MulC2(0x95d8_c3f7) == 0x504b_a9d5;
    assert Xor(0, 0x504b_a9d5) == 0x504b_a9d5;
    assert Xor(0x504b_a9d5, 0x0000_0001) == 0x504b_a9d4;
    assert Fold16(0x504b_a9d4) == 0x504b_f99f;
    assert MulF1(0x504b_f99f) == 0x42ad_cb75;
    assert Fold13(0x42ad_cb75) == 0x42af_de1b;
    assert MulF2(0x42af_de1b) == 0x3c25_5597;
    assert Fold16(0x3c25_5597) == 0x3c25_69b2;
  }
}
