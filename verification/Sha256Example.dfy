/** The digest of "abc", step by step: the one-block example that comes with the standard. */
module Sha256Example {
  import opened Sha256Spec

  /** Word t of the schedule. */
  predicate IsWord(block: seq<Octet>, t: nat, w: Word) {
    |block| == 64 && t < 64 && Schedule(block, t) == w
  }

  predicate IsConstant(t: nat, k: Word) {
    t < 64 && K[t] == k
  }

  /** The working variables before round t. */
  predicate IsState(
      block: seq<Octet>, t: nat, a: Word, b: Word, c: Word, d: Word, e: Word, f: Word, g: Word, h: Word) {
    |block| == 64 && t <= 64 && Rounds(INITIAL, block, t) == [a, b, c, d, e, f, g, h]
  }

  lemma {:induction false} FirstWord(block: seq<Octet>, t: nat, b0: Octet, b1: Octet, b2: Octet, b3: Octet, w: Word)
    requires |block| == 64 && t < 16
    requires block[4 * t..4 * t + 4] == [b0, b1, b2, b3] && Pack([b0, b1, b2, b3]) == w
    ensures IsWord(block, t, w)
  {
  }

  lemma {:induction false} NextWord(
      block: seq<Octet>, t: nat, w2: Word, w7: Word, w15: Word, w16: Word, w: Word)
    requires 16 <= t < 64 && IsWord(block, t - 2, w2) && IsWord(block, t - 7, w7)
    requires IsWord(block, t - 15, w15) && IsWord(block, t - 16, w16) && Expanded(w2, w7, w15, w16) == w
    ensures IsWord(block, t, w)
  {
    hide Expanded;
  }

  lemma {:induction false} NextState(
      block: seq<Octet>, t: nat, a: Word, b: Word, c: Word, d: Word, e: Word, f: Word, g: Word, h: Word,
      w: Word, k: Word, a': Word, e': Word)
    requires IsState(block, t, a, b, c, d, e, f, g, h) && t < 64 && IsWord(block, t, w) && IsConstant(t, k)
    requires Plus(T1(e, f, g, h, k, w), T2(a, b, c)) == a' && Plus(d, T1(e, f, g, h, k, w)) == e'
    ensures IsState(block, t + 1, a', a, b, c, e', e, f, g)
  {
    hide Schedule, K, T1, T2, Plus;
  }

  lemma {:induction false} Words16(block: seq<Octet>)
    requires IsWord(block, 0, 0x61626380) && IsWord(block, 1, 0x00000000) && IsWord(block, 2, 0x00000000)
    requires IsWord(block, 3, 0x00000000) && IsWord(block, 4, 0x00000000) && IsWord(block, 5, 0x00000000)
    requires IsWord(block, 6, 0x00000000) && IsWord(block, 7, 0x00000000) && IsWord(block, 8, 0x00000000)
    requires IsWord(block, 9, 0x00000000) && IsWord(block, 10, 0x00000000) && IsWord(block, 11, 0x00000000)
    requires IsWord(block, 12, 0x00000000) && IsWord(block, 13, 0x00000000) && IsWord(block, 14, 0x00000000)
    requires IsWord(block, 15, 0x00000018)
    ensures IsWord(block, 16, 0x61626380) && IsWord(block, 17, 0x000f0000) && IsWord(block, 18, 0x7da86405)
    ensures IsWord(block, 19, 0x600003c6) && IsWord(block, 20, 0x3e9d7b78) && IsWord(block, 21, 0x0183fc00)
    ensures IsWord(block, 22, 0x12dcbfdb) && IsWord(block, 23, 0xe2e2c38e) && IsWord(block, 24, 0xc8215c1a)
    ensures IsWord(block, 25, 0xb73679a2) && IsWord(block, 26, 0xe5bc3909) && IsWord(block, 27, 0x32663c5b)
    ensures IsWord(block, 28, 0x9d209d67) && IsWord(block, 29, 0xec8726cb) && IsWord(block, 30, 0x702138a4)
    ensures IsWord(block, 31, 0xd3b7973b)
  {
    hide IsWord;
    NextWord(block, 16, 0x00000000, 0x00000000, 0x00000000, 0x61626380, 0x61626380);
    NextWord(block, 17, 0x00000018, 0x00000000, 0x00000000, 0x00000000, 0x000f0000);
    NextWord(block, 18, 0x61626380, 0x00000000, 0x00000000, 0x00000000, 0x7da86405);
    NextWord(block, 19, 0x000f0000, 0x00000000, 0x00000000, 0x00000000, 0x600003c6);
    NextWord(block, 20, 0x7da86405, 0x00000000, 0x00000000, 0x00000000, 0x3e9d7b78);
    NextWord(block, 21, 0x600003c6, 0x00000000, 0x00000000, 0x00000000, 0x0183fc00);
    NextWord(block, 22, 0x3e9d7b78, 0x00000018, 0x00000000, 0x00000000, 0x12dcbfdb);
    NextWord(block, 23, 0x0183fc00, 0x61626380, 0x00000000, 0x00000000, 0xe2e2c38e);
    NextWord(block, 24, 0x12dcbfdb, 0x000f0000, 0x00000000, 0x00000000, 0xc8215c1a);
    NextWord(block, 25, 0xe2e2c38e, 0x7da86405, 0x00000000, 0x00000000, 0xb73679a2);
    NextWord(block, 26, 0xc8215c1a, 0x600003c6, 0x00000000, 0x00000000, 0xe5bc3909);
    NextWord(block, 27, 0xb73679a2, 0x3e9d7b78, 0x00000000, 0x00000000, 0x32663c5b);
    NextWord(block, 28, 0xe5bc3909, 0x0183fc00, 0x00000000, 0x00000000, 0x9d209d67);
    NextWord(block, 29, 0x32663c5b, 0x12dcbfdb, 0x00000000, 0x00000000, 0xec8726cb);
    NextWord(block, 30, 0x9d209d67, 0xe2e2c38e, 0x00000018, 0x00000000, 0x702138a4);
    NextWord(block, 31, 0xec8726cb, 0xc8215c1a, 0x61626380, 0x00000018, 0xd3b7973b);
  }

  lemma {:induction false} Words32(block: seq<Octet>)
    requires IsWord(block, 16, 0x61626380) && IsWord(block, 17, 0x000f0000) && IsWord(block, 18, 0x7da86405)
    requires IsWord(block, 19, 0x600003c6) && IsWord(block, 20, 0x3e9d7b78) && IsWord(block, 21, 0x0183fc00)
    requires IsWord(block, 22, 0x12dcbfdb) && IsWord(block, 23, 0xe2e2c38e) && IsWord(block, 24, 0xc8215c1a)
    requires IsWord(block, 25, 0xb73679a2) && IsWord(block, 26, 0xe5bc3909) && IsWord(block, 27, 0x32663c5b)
    requires IsWord(block, 28, 0x9d209d67) && IsWord(block, 29, 0xec8726cb) && IsWord(block, 30, 0x702138a4)
    requires IsWord(block, 31, 0xd3b7973b)
    ensures IsWord(block, 32, 0x93f5997f) && IsWord(block, 33, 0x3b68ba73) && IsWord(block, 34, 0xaff4ffc1)
    ensures IsWord(block, 35, 0xf10a5c62) && IsWord(block, 36, 0x0a8b3996) && IsWord(block, 37, 0x72af830a)
    ensures IsWord(block, 38, 0x9409e33e) && IsWord(block, 39, 0x24641522) && IsWord(block, 40, 0x9f47bf94)
    ensures IsWord(block, 41, 0xf0a64f5a) && IsWord(block, 42, 0x3e246a79) && IsWord(block, 43, 0x27333ba3)
    ensures IsWord(block, 44, 0x0c4763f2) && IsWord(block, 45, 0x840abf27) && IsWord(block, 46, 0x7a290d5d)
    ensures IsWord(block, 47, 0x065c43da)
  {
    hide IsWord;
    NextWord(block, 32, 0x702138a4, 0xb73679a2, 0x000f0000, 0x61626380, 0x93f5997f);
    NextWord(block, 33, 0xd3b7973b, 0xe5bc3909, 0x7da86405, 0x000f0000, 0x3b68ba73);
    NextWord(block, 34, 0x93f5997f, 0x32663c5b, 0x600003c6, 0x7da86405, 0xaff4ffc1);
    NextWord(block, 35, 0x3b68ba73, 0x9d209d67, 0x3e9d7b78, 0x600003c6, 0xf10a5c62);
    NextWord(block, 36, 0xaff4ffc1, 0xec8726cb, 0x0183fc00, 0x3e9d7b78, 0x0a8b3996);
    NextWord(block, 37, 0xf10a5c62, 0x702138a4, 0x12dcbfdb, 0x0183fc00, 0x72af830a);
    NextWord(block, 38, 0x0a8b3996, 0xd3b7973b, 0xe2e2c38e, 0x12dcbfdb, 0x9409e33e);
    NextWord(block, 39, 0x72af830a, 0x93f5997f, 0xc8215c1a, 0xe2e2c38e, 0x24641522);
    NextWord(block, 40, 0x9409e33e, 0x3b68ba73, 0xb73679a2, 0xc8215c1a, 0x9f47bf94);
    NextWord(block, 41, 0x24641522, 0xaff4ffc1, 0xe5bc3909, 0xb73679a2, 0xf0a64f5a);
    NextWord(block, 42, 0x9f47bf94, 0xf10a5c62, 0x32663c5b, 0xe5bc3909, 0x3e246a79);
    NextWord(block, 43, 0xf0a64f5a, 0x0a8b3996, 0x9d209d67, 0x32663c5b, 0x27333ba3);
    NextWord(block, 44, 0x3e246a79, 0x72af830a, 0xec8726cb, 0x9d209d67, 0x0c4763f2);
    NextWord(block, 45, 0x27333ba3, 0x9409e33e, 0x702138a4, 0xec8726cb, 0x840abf27);
    NextWord(block, 46, 0x0c4763f2, 0x24641522, 0xd3b7973b, 0x702138a4, 0x7a290d5d);
    NextWord(block, 47, 0x840abf27, 0x9f47bf94, 0x93f5997f, 0xd3b7973b, 0x065c43da);
  }

  lemma {:induction false} Words48(block: seq<Octet>)
    requires IsWord(block, 32, 0x93f5997f) && IsWord(block, 33, 0x3b68ba73) && IsWord(block, 34, 0xaff4ffc1)
    requires IsWord(block, 35, 0xf10a5c62) && IsWord(block, 36, 0x0a8b3996) && IsWord(block, 37, 0x72af830a)
    requires IsWord(block, 38, 0x9409e33e) && IsWord(block, 39, 0x24641522) && IsWord(block, 40, 0x9f47bf94)
    requires IsWord(block, 41, 0xf0a64f5a) && IsWord(block, 42, 0x3e246a79) && IsWord(block, 43, 0x27333ba3)
    requires IsWord(block, 44, 0x0c4763f2) && IsWord(block, 45, 0x840abf27) && IsWord(block, 46, 0x7a290d5d)
    requires IsWord(block, 47, 0x065c43da)
    ensures IsWord(block, 48, 0xfb3e89cb) && IsWord(block, 49, 0xcc7617db) && IsWord(block, 50, 0xb9e66c34)
    ensures IsWord(block, 51, 0xa9993667) && IsWord(block, 52, 0x84badedd) && IsWord(block, 53, 0xc21462bc)
    ensures IsWord(block, 54, 0x1487472c) && IsWord(block, 55, 0xb20f7a99) && IsWord(block, 56, 0xef57b9cd)
    ensures IsWord(block, 57, 0xebe6b238) && IsWord(block, 58, 0x9fe3095e) && IsWord(block, 59, 0x78bc8d4b)
    ensures IsWord(block, 60, 0xa43fcf15) && IsWord(block, 61, 0x668b2ff8) && IsWord(block, 62, 0xeeaba2cc)
    ensures IsWord(block, 63, 0x12b1edeb)
  {
    hide IsWord;
    NextWord(block, 48, 0x7a290d5d, 0xf0a64f5a, 0x3b68ba73, 0x93f5997f, 0xfb3e89cb);
    NextWord(block, 49, 0x065c43da, 0x3e246a79, 0xaff4ffc1, 0x3b68ba73, 0xcc7617db);
    NextWord(block, 50, 0xfb3e89cb, 0x27333ba3, 0xf10a5c62, 0xaff4ffc1, 0xb9e66c34);
    NextWord(block, 51, 0xcc7617db, 0x0c4763f2, 0x0a8b3996, 0xf10a5c62, 0xa9993667);
    NextWord(block, 52, 0xb9e66c34, 0x840abf27, 0x72af830a, 0x0a8b3996, 0x84badedd);
    NextWord(block, 53, 0xa9993667, 0x7a290d5d, 0x9409e33e, 0x72af830a, 0xc21462bc);
    NextWord(block, 54, 0x84badedd, 0x065c43da, 0x24641522, 0x9409e33e, 0x1487472c);
    NextWord(block, 55, 0xc21462bc, 0xfb3e89cb, 0x9f47bf94, 0x24641522, 0xb20f7a99);
    NextWord(block, 56, 0x1487472c, 0xcc7617db, 0xf0a64f5a, 0x9f47bf94, 0xef57b9cd);
    NextWord(block, 57, 0xb20f7a99, 0xb9e66c34, 0x3e246a79, 0xf0a64f5a, 0xebe6b238);
    NextWord(block, 58, 0xef57b9cd, 0xa9993667, 0x27333ba3, 0x3e246a79, 0x9fe3095e);
    NextWord(block, 59, 0xebe6b238, 0x84badedd, 0x0c4763f2, 0x27333ba3, 0x78bc8d4b);
    NextWord(block, 60, 0x9fe3095e, 0xc21462bc, 0x840abf27, 0x0c4763f2, 0xa43fcf15);
    NextWord(block, 61, 0x78bc8d4b, 0x1487472c, 0x7a290d5d, 0x840abf27, 0x668b2ff8);
    NextWord(block, 62, 0xa43fcf15, 0xb20f7a99, 0x065c43da, 0x7a290d5d, 0xeeaba2cc);
    NextWord(block, 63, 0x668b2ff8, 0xef57b9cd, 0xfb3e89cb, 0x065c43da, 0x12b1edeb);
  }

  lemma {:induction false} Constants0()
    ensures IsConstant(0, 0x428a2f98) && IsConstant(1, 0x71374491) && IsConstant(2, 0xb5c0fbcf) && IsConstant(3, 0xe9b5dba5)
    ensures IsConstant(4, 0x3956c25b) && IsConstant(5, 0x59f111f1) && IsConstant(6, 0x923f82a4) && IsConstant(7, 0xab1c5ed5)
  {
  }

  lemma {:induction false} Constants8()
    ensures IsConstant(8, 0xd807aa98) && IsConstant(9, 0x12835b01) && IsConstant(10, 0x243185be) && IsConstant(11, 0x550c7dc3)
    ensures IsConstant(12, 0x72be5d74) && IsConstant(13, 0x80deb1fe) && IsConstant(14, 0x9bdc06a7) && IsConstant(15, 0xc19bf174)
  {
  }

  lemma {:induction false} Constants16()
    ensures IsConstant(16, 0xe49b69c1) && IsConstant(17, 0xefbe4786) && IsConstant(18, 0x0fc19dc6) && IsConstant(19, 0x240ca1cc)
    ensures IsConstant(20, 0x2de92c6f) && IsConstant(21, 0x4a7484aa) && IsConstant(22, 0x5cb0a9dc) && IsConstant(23, 0x76f988da)
  {
  }

  lemma {:induction false} Constants24()
    ensures IsConstant(24, 0x983e5152) && IsConstant(25, 0xa831c66d) && IsConstant(26, 0xb00327c8) && IsConstant(27, 0xbf597fc7)
    ensures IsConstant(28, 0xc6e00bf3) && IsConstant(29, 0xd5a79147) && IsConstant(30, 0x06ca6351) && IsConstant(31, 0x14292967)
  {
  }

  lemma {:induction false} Constants32()
    ensures IsConstant(32, 0x27b70a85) && IsConstant(33, 0x2e1b2138) && IsConstant(34, 0x4d2c6dfc) && IsConstant(35, 0x53380d13)
    ensures IsConstant(36, 0x650a7354) && IsConstant(37, 0x766a0abb) && IsConstant(38, 0x81c2c92e) && IsConstant(39, 0x92722c85)
  {
  }

  lemma {:induction false} Constants40()
    ensures IsConstant(40, 0xa2bfe8a1) && IsConstant(41, 0xa81a664b) && IsConstant(42, 0xc24b8b70) && IsConstant(43, 0xc76c51a3)
    ensures IsConstant(44, 0xd192e819) && IsConstant(45, 0xd6990624) && IsConstant(46, 0xf40e3585) && IsConstant(47, 0x106aa070)
  {
  }

  lemma {:induction false} Constants48()
    ensures IsConstant(48, 0x19a4c116) && IsConstant(49, 0x1e376c08) && IsConstant(50, 0x2748774c) && IsConstant(51, 0x34b0bcb5)
    ensures IsConstant(52, 0x391c0cb3) && IsConstant(53, 0x4ed8aa4a) && IsConstant(54, 0x5b9cca4f) && IsConstant(55, 0x682e6ff3)
  {
  }

  lemma {:induction false} Constants56()
    ensures IsConstant(56, 0x748f82ee) && IsConstant(57, 0x78a5636f) && IsConstant(58, 0x84c87814) && IsConstant(59, 0x8cc70208)
    ensures IsConstant(60, 0x90befffa) && IsConstant(61, 0xa4506ceb) && IsConstant(62, 0xbef9a3f7) && IsConstant(63, 0xc67178f2)
  {
  }

  lemma {:induction false} Rounds0(block: seq<Octet>)
    requires IsState(
               block, 0, 0x6a09e667, 0xbb67ae85, 0x3c6ef372, 0xa54ff53a, 0x510e527f, 0x9b05688c, 0x1f83d9ab, 0x5be0cd19)
    requires IsWord(block, 0, 0x61626380) && IsWord(block, 1, 0x00000000) && IsWord(block, 2, 0x00000000)
    requires IsWord(block, 3, 0x00000000) && IsWord(block, 4, 0x00000000) && IsWord(block, 5, 0x00000000)
    requires IsWord(block, 6, 0x00000000) && IsWord(block, 7, 0x00000000) && IsWord(block, 8, 0x00000000)
    requires IsWord(block, 9, 0x00000000) && IsWord(block, 10, 0x00000000) && IsWord(block, 11, 0x00000000)
    requires IsWord(block, 12, 0x00000000) && IsWord(block, 13, 0x00000000) && IsWord(block, 14, 0x00000000)
    requires IsWord(block, 15, 0x00000018)
    ensures IsState(
              block, 16, 0xb0fa238e, 0xc0645fde, 0xd932eb16, 0x87912990, 0x07590dcd, 0x0b92f20c, 0x745a48de, 0x1e578218)
  {
    hide IsWord, IsState, IsConstant;
    Constants0();
    Constants8();
    NextState(block, 0, 0x6a09e667, 0xbb67ae85, 0x3c6ef372, 0xa54ff53a, 0x510e527f, 0x9b05688c, 0x1f83d9ab, 0x5be0cd19,
              0x61626380, 0x428a2f98, 0x5d6aebcd, 0xfa2a4622);
    NextState(block, 1, 0x5d6aebcd, 0x6a09e667, 0xbb67ae85, 0x3c6ef372, 0xfa2a4622, 0x510e527f, 0x9b05688c, 0x1f83d9ab,
              0x00000000, 0x71374491, 0x5a6ad9ad, 0x78ce7989);
    NextState(block, 2, 0x5a6ad9ad, 0x5d6aebcd, 0x6a09e667, 0xbb67ae85, 0x78ce7989, 0xfa2a4622, 0x510e527f, 0x9b05688c,
              0x00000000, 0xb5c0fbcf, 0xc8c347a7, 0xf92939eb);
    NextState(block, 3, 0xc8c347a7, 0x5a6ad9ad, 0x5d6aebcd, 0x6a09e667, 0xf92939eb, 0x78ce7989, 0xfa2a4622, 0x510e527f,
              0x00000000, 0xe9b5dba5, 0xd550f666, 0x24e00850);
    NextState(block, 4, 0xd550f666, 0xc8c347a7, 0x5a6ad9ad, 0x5d6aebcd, 0x24e00850, 0xf92939eb, 0x78ce7989, 0xfa2a4622,
              0x00000000, 0x3956c25b, 0x04409a6a, 0x43ada245);
    NextState(block, 5, 0x04409a6a, 0xd550f666, 0xc8c347a7, 0x5a6ad9ad, 0x43ada245, 0x24e00850, 0xf92939eb, 0x78ce7989,
              0x00000000, 0x59f111f1, 0x2b4209f5, 0x714260ad);
    NextState(block, 6, 0x2b4209f5, 0x04409a6a, 0xd550f666, 0xc8c347a7, 0x714260ad, 0x43ada245, 0x24e00850, 0xf92939eb,
              0x00000000, 0x923f82a4, 0xe5030380, 0x9b27a401);
    NextState(block, 7, 0xe5030380, 0x2b4209f5, 0x04409a6a, 0xd550f666, 0x9b27a401, 0x714260ad, 0x43ada245, 0x24e00850,
              0x00000000, 0xab1c5ed5, 0x85a07b5f, 0x0c657a79);
    NextState(block, 8, 0x85a07b5f, 0xe5030380, 0x2b4209f5, 0x04409a6a, 0x0c657a79, 0x9b27a401, 0x714260ad, 0x43ada245,
              0x00000000, 0xd807aa98, 0x8e04ecb9, 0x32ca2d8c);
    NextState(block, 9, 0x8e04ecb9, 0x85a07b5f, 0xe5030380, 0x2b4209f5, 0x32ca2d8c, 0x0c657a79, 0x9b27a401, 0x714260ad,
              0x00000000, 0x12835b01, 0x8c87346b, 0x1cc92596);
    NextState(block, 10, 0x8c87346b, 0x8e04ecb9, 0x85a07b5f, 0xe5030380, 0x1cc92596, 0x32ca2d8c, 0x0c657a79, 0x9b27a401,
              0x00000000, 0x243185be, 0x4798a3f4, 0x436b23e8);
    NextState(block, 11, 0x4798a3f4, 0x8c87346b, 0x8e04ecb9, 0x85a07b5f, 0x436b23e8, 0x1cc92596, 0x32ca2d8c, 0x0c657a79,
              0x00000000, 0x550c7dc3, 0xf71fc5a9, 0x816fd6e9);
    NextState(block, 12, 0xf71fc5a9, 0x4798a3f4, 0x8c87346b, 0x8e04ecb9, 0x816fd6e9, 0x436b23e8, 0x1cc92596, 0x32ca2d8c,
              0x00000000, 0x72be5d74, 0x87912990, 0x1e578218);
    NextState(block, 13, 0x87912990, 0xf71fc5a9, 0x4798a3f4, 0x8c87346b, 0x1e578218, 0x816fd6e9, 0x436b23e8, 0x1cc92596,
              0x00000000, 0x80deb1fe, 0xd932eb16, 0x745a48de);
    NextState(block, 14, 0xd932eb16, 0x87912990, 0xf71fc5a9, 0x4798a3f4, 0x745a48de, 0x1e578218, 0x816fd6e9, 0x436b23e8,
              0x00000000, 0x9bdc06a7, 0xc0645fde, 0x0b92f20c);
    NextState(block, 15, 0xc0645fde, 0xd932eb16, 0x87912990, 0xf71fc5a9, 0x0b92f20c, 0x745a48de, 0x1e578218, 0x816fd6e9,
              0x00000018, 0xc19bf174, 0xb0fa238e, 0x07590dcd);
  }

  lemma {:induction false} Rounds16(block: seq<Octet>)
    requires IsState(
               block, 16, 0xb0fa238e, 0xc0645fde, 0xd932eb16, 0x87912990, 0x07590dcd, 0x0b92f20c, 0x745a48de, 0x1e578218)
    requires IsWord(block, 16, 0x61626380) && IsWord(block, 17, 0x000f0000) && IsWord(block, 18, 0x7da86405)
    requires IsWord(block, 19, 0x600003c6) && IsWord(block, 20, 0x3e9d7b78) && IsWord(block, 21, 0x0183fc00)
    requires IsWord(block, 22, 0x12dcbfdb) && IsWord(block, 23, 0xe2e2c38e) && IsWord(block, 24, 0xc8215c1a)
    requires IsWord(block, 25, 0xb73679a2) && IsWord(block, 26, 0xe5bc3909) && IsWord(block, 27, 0x32663c5b)
    requires IsWord(block, 28, 0x9d209d67) && IsWord(block, 29, 0xec8726cb) && IsWord(block, 30, 0x702138a4)
    requires IsWord(block, 31, 0xd3b7973b)
    ensures IsState(
              block, 32, 0x73b33bf5, 0xea992a22, 0xa0060b30, 0x363482c9, 0xba591112, 0x0109ab3a, 0xade79437, 0x6112a3b7)
  {
    hide IsWord, IsState, IsConstant;
    Constants16();
    Constants24();
    NextState(block, 16, 0xb0fa238e, 0xc0645fde, 0xd932eb16, 0x87912990, 0x07590dcd, 0x0b92f20c, 0x745a48de, 0x1e578218,
              0x61626380, 0xe49b69c1, 0x21da9a9b, 0x8034229c);
    NextState(block, 17, 0x21da9a9b, 0xb0fa238e, 0xc0645fde, 0xd932eb16, 0x8034229c, 0x07590dcd, 0x0b92f20c, 0x745a48de,
              0x000f0000, 0xefbe4786, 0xc2fbd9d1, 0x846ee454);
    NextState(block, 18, 0xc2fbd9d1, 0x21da9a9b, 0xb0fa238e, 0xc0645fde, 0x846ee454, 0x8034229c, 0x07590dcd, 0x0b92f20c,
              0x7da86405, 0x0fc19dc6, 0xfe777bbf, 0xcc899961);
    NextState(block, 19, 0xfe777bbf, 0xc2fbd9d1, 0x21da9a9b, 0xb0fa238e, 0xcc899961, 0x846ee454, 0x8034229c, 0x07590dcd,
              0x600003c6, 0x240ca1cc, 0xe1f20c33, 0xb0638179);
    NextState(block, 20, 0xe1f20c33, 0xfe777bbf, 0xc2fbd9d1, 0x21da9a9b, 0xb0638179, 0xcc899961, 0x846ee454, 0x8034229c,
              0x3e9d7b78, 0x2de92c6f, 0x9dc68b63, 0x8ada8930);
    NextState(block, 21, 0x9dc68b63, 0xe1f20c33, 0xfe777bbf, 0xc2fbd9d1, 0x8ada8930, 0xb0638179, 0xcc899961, 0x846ee454,
              0x0183fc00, 0x4a7484aa, 0xc2606d6d, 0xe1257970);
    NextState(block, 22, 0xc2606d6d, 0x9dc68b63, 0xe1f20c33, 0xfe777bbf, 0xe1257970, 0x8ada8930, 0xb0638179, 0xcc899961,
              0x12dcbfdb, 0x5cb0a9dc, 0xa7a3623f, 0x49f5114a);
    NextState(block, 23, 0xa7a3623f, 0xc2606d6d, 0x9dc68b63, 0xe1f20c33, 0x49f5114a, 0xe1257970, 0x8ada8930, 0xb0638179,
              0xe2e2c38e, 0x76f988da, 0xc5d53d8d, 0xaa47c347);
    NextState(block, 24, 0xc5d53d8d, 0xa7a3623f, 0xc2606d6d, 0x9dc68b63, 0xaa47c347, 0x49f5114a, 0xe1257970, 0x8ada8930,
              0xc8215c1a, 0x983e5152, 0x1c2c2838, 0x2823ef91);
    NextState(block, 25, 0x1c2c2838, 0xc5d53d8d, 0xa7a3623f, 0xc2606d6d, 0x2823ef91, 0xaa47c347, 0x49f5114a, 0xe1257970,
              0xb73679a2, 0xa831c66d, 0xcde8037d, 0x14383d8e);
    NextState(block, 26, 0xcde8037d, 0x1c2c2838, 0xc5d53d8d, 0xa7a3623f, 0x14383d8e, 0x2823ef91, 0xaa47c347, 0x49f5114a,
              0xe5bc3909, 0xb00327c8, 0xb62ec4bc, 0xc74c6516);
    NextState(block, 27, 0xb62ec4bc, 0xcde8037d, 0x1c2c2838, 0xc5d53d8d, 0xc74c6516, 0x14383d8e, 0x2823ef91, 0xaa47c347,
              0x32663c5b, 0xbf597fc7, 0x77d37528, 0xedffbff8);
    NextState(block, 28, 0x77d37528, 0xb62ec4bc, 0xcde8037d, 0x1c2c2838, 0xedffbff8, 0xc74c6516, 0x14383d8e, 0x2823ef91,
              0x9d209d67, 0xc6e00bf3, 0x363482c9, 0x6112a3b7);
    NextState(block, 29, 0x363482c9, 0x77d37528, 0xb62ec4bc, 0xcde8037d, 0x6112a3b7, 0xedffbff8, 0xc74c6516, 0x14383d8e,
              0xec8726cb, 0xd5a79147, 0xa0060b30, 0xade79437);
    NextState(block, 30, 0xa0060b30, 0x363482c9, 0x77d37528, 0xb62ec4bc, 0xade79437, 0x6112a3b7, 0xedffbff8, 0xc74c6516,
              0x702138a4, 0x06ca6351, 0xea992a22, 0x0109ab3a);
    NextState(block, 31, 0xea992a22, 0xa0060b30, 0x363482c9, 0x77d37528, 0x0109ab3a, 0xade79437, 0x6112a3b7, 0xedffbff8,
              0xd3b7973b, 0x14292967, 0x73b33bf5, 0xba591112);
  }

  lemma {:induction false} Rounds32(block: seq<Octet>)
    requires IsState(
               block, 32, 0x73b33bf5, 0xea992a22, 0xa0060b30, 0x363482c9, 0xba591112, 0x0109ab3a, 0xade79437, 0x6112a3b7)
    requires IsWord(block, 32, 0x93f5997f) && IsWord(block, 33, 0x3b68ba73) && IsWord(block, 34, 0xaff4ffc1)
    requires IsWord(block, 35, 0xf10a5c62) && IsWord(block, 36, 0x0a8b3996) && IsWord(block, 37, 0x72af830a)
    requires IsWord(block, 38, 0x9409e33e) && IsWord(block, 39, 0x24641522) && IsWord(block, 40, 0x9f47bf94)
    requires IsWord(block, 41, 0xf0a64f5a) && IsWord(block, 42, 0x3e246a79) && IsWord(block, 43, 0x27333ba3)
    requires IsWord(block, 44, 0x0c4763f2) && IsWord(block, 45, 0x840abf27) && IsWord(block, 46, 0x7a290d5d)
    requires IsWord(block, 47, 0x065c43da)
    ensures IsState(
              block, 48, 0x4172328d, 0xa14c14b0, 0x72ab4b91, 0x26628815, 0xfecf0bc6, 0xd57b94a9, 0xb7755da1, 0xa80f11f0)
  {
    hide IsWord, IsState, IsConstant;
    Constants32();
    Constants40();
    NextState(block, 32, 0x73b33bf5, 0xea992a22, 0xa0060b30, 0x363482c9, 0xba591112, 0x0109ab3a, 0xade79437, 0x6112a3b7,
              0x93f5997f, 0x27b70a85, 0x98e12507, 0x9cd9f5f6);
    NextState(block, 33, 0x98e12507, 0x73b33bf5, 0xea992a22, 0xa0060b30, 0x9cd9f5f6, 0xba591112, 0x0109ab3a, 0xade79437,
              0x3b68ba73, 0x2e1b2138, 0xfe604df5, 0x59249dd3);
    NextState(block, 34, 0xfe604df5, 0x98e12507, 0x73b33bf5, 0xea992a22, 0x59249dd3, 0x9cd9f5f6, 0xba591112, 0x0109ab3a,
              0xaff4ffc1, 0x4d2c6dfc, 0xa9a7738c, 0x085f3833);
    NextState(block, 35, 0xa9a7738c, 0xfe604df5, 0x98e12507, 0x73b33bf5, 0x085f3833, 0x59249dd3, 0x9cd9f5f6, 0xba591112,
              0xf10a5c62, 0x53380d13, 0x65a0cfe4, 0xf4b002d6);
    NextState(block, 36, 0x65a0cfe4, 0xa9a7738c, 0xfe604df5, 0x98e12507, 0xf4b002d6, 0x085f3833, 0x59249dd3, 0x9cd9f5f6,
              0x0a8b3996, 0x650a7354, 0x41a65cb1, 0x0772a26b);
    NextState(block, 37, 0x41a65cb1, 0x65a0cfe4, 0xa9a7738c, 0xfe604df5, 0x0772a26b, 0xf4b002d6, 0x085f3833, 0x59249dd3,
              0x72af830a, 0x766a0abb, 0x34df1604, 0xa507a53d);
    NextState(block, 38, 0x34df1604, 0x41a65cb1, 0x65a0cfe4, 0xa9a7738c, 0xa507a53d, 0x0772a26b, 0xf4b002d6, 0x085f3833,
              0x9409e33e, 0x81c2c92e, 0x6dc57a8a, 0xf0781bc8);
    NextState(block, 39, 0x6dc57a8a, 0x34df1604, 0x41a65cb1, 0x65a0cfe4, 0xf0781bc8, 0xa507a53d, 0x0772a26b, 0xf4b002d6,
              0x24641522, 0x92722c85, 0x79ea687a, 0x1efbc0a0);
    NextState(block, 40, 0x79ea687a, 0x6dc57a8a, 0x34df1604, 0x41a65cb1, 0x1efbc0a0, 0xf0781bc8, 0xa507a53d, 0x0772a26b,
              0x9f47bf94, 0xa2bfe8a1, 0xd6670766, 0x26352d63);
    NextState(block, 41, 0xd6670766, 0x79ea687a, 0x6dc57a8a, 0x34df1604, 0x26352d63, 0x1efbc0a0, 0xf0781bc8, 0xa507a53d,
              0xf0a64f5a, 0xa81a664b, 0xdf46652f, 0x838b2711);
    NextState(block, 42, 0xdf46652f, 0xd6670766, 0x79ea687a, 0x6dc57a8a, 0x838b2711, 0x26352d63, 0x1efbc0a0, 0xf0781bc8,
              0x3e246a79, 0xc24b8b70, 0x17aa0dfe, 0xdecd4715);
    NextState(block, 43, 0x17aa0dfe, 0xdf46652f, 0xd6670766, 0x79ea687a, 0xdecd4715, 0x838b2711, 0x26352d63, 0x1efbc0a0,
              0x27333ba3, 0xc76c51a3, 0x9d4baf93, 0xfda24c2e);
    NextState(block, 44, 0x9d4baf93, 0x17aa0dfe, 0xdf46652f, 0xd6670766, 0xfda24c2e, 0xdecd4715, 0x838b2711, 0x26352d63,
              0x0c4763f2, 0xd192e819, 0x26628815, 0xa80f11f0);
    NextState(block, 45, 0x26628815, 0x9d4baf93, 0x17aa0dfe, 0xdf46652f, 0xa80f11f0, 0xfda24c2e, 0xdecd4715, 0x838b2711,
              0x840abf27, 0xd6990624, 0x72ab4b91, 0xb7755da1);
    NextState(block, 46, 0x72ab4b91, 0x26628815, 0x9d4baf93, 0x17aa0dfe, 0xb7755da1, 0xa80f11f0, 0xfda24c2e, 0xdecd4715,
              0x7a290d5d, 0xf40e3585, 0xa14c14b0, 0xd57b94a9);
    NextState(block, 47, 0xa14c14b0, 0x72ab4b91, 0x26628815, 0x9d4baf93, 0xd57b94a9, 0xb7755da1, 0xa80f11f0, 0xfda24c2e,
              0x065c43da, 0x106aa070, 0x4172328d, 0xfecf0bc6);
  }

  lemma {:induction false} Rounds48(block: seq<Octet>)
    requires IsState(
               block, 48, 0x4172328d, 0xa14c14b0, 0x72ab4b91, 0x26628815, 0xfecf0bc6, 0xd57b94a9, 0xb7755da1, 0xa80f11f0)
    requires IsWord(block, 48, 0xfb3e89cb) && IsWord(block, 49, 0xcc7617db) && IsWord(block, 50, 0xb9e66c34)
    requires IsWord(block, 51, 0xa9993667) && IsWord(block, 52, 0x84badedd) && IsWord(block, 53, 0xc21462bc)
    requires IsWord(block, 54, 0x1487472c) && IsWord(block, 55, 0xb20f7a99) && IsWord(block, 56, 0xef57b9cd)
    requires IsWord(block, 57, 0xebe6b238) && IsWord(block, 58, 0x9fe3095e) && IsWord(block, 59, 0x78bc8d4b)
    requires IsWord(block, 60, 0xa43fcf15) && IsWord(block, 61, 0x668b2ff8) && IsWord(block, 62, 0xeeaba2cc)
    requires IsWord(block, 63, 0x12b1edeb)
    ensures IsState(
              block, 64, 0x506e3058, 0xd39a2165, 0x04d24d6c, 0xb85e2ce9, 0x5ef50f24, 0xfb121210, 0x948d25b6, 0x961f4894)
  {
    hide IsWord, IsState, IsConstant;
    Constants48();
    Constants56();
    NextState(block, 48, 0x4172328d, 0xa14c14b0, 0x72ab4b91, 0x26628815, 0xfecf0bc6, 0xd57b94a9, 0xb7755da1, 0xa80f11f0,
              0xfb3e89cb, 0x19a4c116, 0x05757ceb, 0xbd714038);
    NextState(block, 49, 0x05757ceb, 0x4172328d, 0xa14c14b0, 0x72ab4b91, 0xbd714038, 0xfecf0bc6, 0xd57b94a9, 0xb7755da1,
              0xcc7617db, 0x1e376c08, 0xf11bfaa8, 0x6e5c390c);
    NextState(block, 50, 0xf11bfaa8, 0x05757ceb, 0x4172328d, 0xa14c14b0, 0x6e5c390c, 0xbd714038, 0xfecf0bc6, 0xd57b94a9,
              0xb9e66c34, 0x2748774c, 0x7a0508a1, 0x52f1ccf7);
    NextState(block, 51, 0x7a0508a1, 0xf11bfaa8, 0x05757ceb, 0x4172328d, 0x52f1ccf7, 0x6e5c390c, 0xbd714038, 0xfecf0bc6,
              0xa9993667, 0x34b0bcb5, 0x886e7a22, 0x49231c1e);
    NextState(block, 52, 0x886e7a22, 0x7a0508a1, 0xf11bfaa8, 0x05757ceb, 0x49231c1e, 0x52f1ccf7, 0x6e5c390c, 0xbd714038,
              0x84badedd, 0x391c0cb3, 0x101fd28f, 0x529e7d00);
    NextState(block, 53, 0x101fd28f, 0x886e7a22, 0x7a0508a1, 0xf11bfaa8, 0x529e7d00, 0x49231c1e, 0x52f1ccf7, 0x6e5c390c,
              0xc21462bc, 0x4ed8aa4a, 0xf5702fdb, 0x9f4787c3);
    NextState(block, 54, 0xf5702fdb, 0x101fd28f, 0x886e7a22, 0x7a0508a1, 0x9f4787c3, 0x529e7d00, 0x49231c1e, 0x52f1ccf7,
              0x1487472c, 0x5b9cca4f, 0x3ec45cdb, 0xe50e1b4f);
    NextState(block, 55, 0x3ec45cdb, 0xf5702fdb, 0x101fd28f, 0x886e7a22, 0xe50e1b4f, 0x9f4787c3, 0x529e7d00, 0x49231c1e,
              0xb20f7a99, 0x682e6ff3, 0x38cc9913, 0x54cb266b);
    NextState(block, 56, 0x38cc9913, 0x3ec45cdb, 0xf5702fdb, 0x101fd28f, 0x54cb266b, 0xe50e1b4f, 0x9f4787c3, 0x529e7d00,
              0xef57b9cd, 0x748f82ee, 0xfcd1887b, 0x9b5e906c);
    NextState(block, 57, 0xfcd1887b, 0x38cc9913, 0x3ec45cdb, 0xf5702fdb, 0x9b5e906c, 0x54cb266b, 0xe50e1b4f, 0x9f4787c3,
              0xebe6b238, 0x78a5636f, 0xc062d46f, 0x7e44008e);
    NextState(block, 58, 0xc062d46f, 0xfcd1887b, 0x38cc9913, 0x3ec45cdb, 0x7e44008e, 0x9b5e906c, 0x54cb266b, 0xe50e1b4f,
              0x9fe3095e, 0x84c87814, 0xffb70472, 0x6d83bfc6);
    NextState(block, 59, 0xffb70472, 0xc062d46f, 0xfcd1887b, 0x38cc9913, 0x6d83bfc6, 0x7e44008e, 0x9b5e906c, 0x54cb266b,
              0x78bc8d4b, 0x8cc70208, 0xb6ae8fff, 0xb21bad3d);
    NextState(block, 60, 0xb6ae8fff, 0xffb70472, 0xc062d46f, 0xfcd1887b, 0xb21bad3d, 0x6d83bfc6, 0x7e44008e, 0x9b5e906c,
              0xa43fcf15, 0x90befffa, 0xb85e2ce9, 0x961f4894);
    NextState(block, 61, 0xb85e2ce9, 0xb6ae8fff, 0xffb70472, 0xc062d46f, 0x961f4894, 0xb21bad3d, 0x6d83bfc6, 0x7e44008e,
              0x668b2ff8, 0xa4506ceb, 0x04d24d6c, 0x948d25b6);
    NextState(block, 62, 0x04d24d6c, 0xb85e2ce9, 0xb6ae8fff, 0xffb70472, 0x948d25b6, 0x961f4894, 0xb21bad3d, 0x6d83bfc6,
              0xeeaba2cc, 0xbef9a3f7, 0xd39a2165, 0xfb121210);
    NextState(block, 63, 0xd39a2165, 0x04d24d6c, 0xb85e2ce9, 0xb6ae8fff, 0xfb121210, 0x948d25b6, 0x961f4894, 0xb21bad3d,
              0x12b1edeb, 0xc67178f2, 0x506e3058, 0x5ef50f24);
  }

  function Abc(): seq<Octet> {
    [0x61, 0x62, 0x63]
  }

  /** The message with its padding: one block. */
  predicate IsPadded(block: seq<Octet>) {
    && |block| == 64
    && block[0] == 0x61 && block[1] == 0x62 && block[2] == 0x63 && block[3] == 0x80 && block[63] == 24
    && forall i :: 4 <= i < 63 ==> block[i] == 0
  }

  lemma {:induction false} ZeroDigits(width: nat)
    ensures forall i :: 0 <= i < width ==> BigEndian(0, width)[i] == 0
  {
    if width > 0 {
      ZeroDigits(width - 1);
    }
  }

  lemma {:induction false} Padded()
    ensures IsPadded(Abc() + Padding(3))
  {
    hide BigEndian;
    ZeroDigits(7);
    LastDigit();
    var zeros: seq<Octet> := seq(52, _ => 0);
    assert Zeros(3) == 52;
    assert Padding(3) == [0x80] + zeros + (BigEndian(0, 7) + [24]);
  }

  lemma LastDigit()
    ensures BigEndian(24, 8) == BigEndian(0, 7) + [24]
  {
    hide BigEndian;
    NextDigit(24, 8);
  }

  lemma NextDigit(n: nat, width: nat)
    requires width > 0
    ensures BigEndian(n, width) == BigEndian(n / 256, width - 1) + [(n % 256) as Octet]
  {
  }

  lemma {:induction false} ZeroWord(block: seq<Octet>, t: nat)
    requires IsPadded(block) && 1 <= t < 15
    ensures IsWord(block, t, 0)
  {
    assert block[4 * t..4 * t + 4] == [0, 0, 0, 0];
    assert Pack([0, 0, 0, 0]) == 0;
  }

  lemma {:induction false} Words0(block: seq<Octet>)
    requires IsPadded(block)
    ensures IsWord(block, 0, 0x61626380) && IsWord(block, 1, 0x00000000) && IsWord(block, 2, 0x00000000)
    ensures IsWord(block, 3, 0x00000000) && IsWord(block, 4, 0x00000000) && IsWord(block, 5, 0x00000000)
    ensures IsWord(block, 6, 0x00000000) && IsWord(block, 7, 0x00000000) && IsWord(block, 8, 0x00000000)
    ensures IsWord(block, 9, 0x00000000) && IsWord(block, 10, 0x00000000) && IsWord(block, 11, 0x00000000)
    ensures IsWord(block, 12, 0x00000000) && IsWord(block, 13, 0x00000000) && IsWord(block, 14, 0x00000000)
    ensures IsWord(block, 15, 0x00000018)
  {
    hide IsWord;
    assert block[0..4] == [0x61, 0x62, 0x63, 0x80] && block[60..64] == [0, 0, 0, 24];
    FirstWord(block, 0, 0x61, 0x62, 0x63, 0x80, 0x61626380);
    FirstWord(block, 15, 0, 0, 0, 24, 0x00000018);
    forall t | 1 <= t < 15
      ensures IsWord(block, t, 0)
    {
      ZeroWord(block, t);
    }
  }

  /** The variables at the end are added to the initial ones. */
  lemma {:induction false} Compressed(block: seq<Octet>)
    requires IsPadded(block)
    ensures Compress(INITIAL, block) == [
              0xba7816bf, 0x8f01cfea, 0x414140de, 0x5dae2223, 0xb00361a3, 0x96177a9c, 0xb410ff61, 0xf20015ad]
  {
    hide IsPadded, IsWord, IsState, Compress;
    Begin(block);
    Words0(block);
    Words16(block);
    Words32(block);
    Words48(block);
    Rounds0(block);
    Rounds16(block);
    Rounds32(block);
    Rounds48(block);
    Added(block);
  }

  lemma Begin(block: seq<Octet>)
    requires IsPadded(block)
    ensures |block| == 64
    ensures IsState(
              block, 0, 0x6a09e667, 0xbb67ae85, 0x3c6ef372, 0xa54ff53a, 0x510e527f, 0x9b05688c, 0x1f83d9ab, 0x5be0cd19)
  {
  }

  lemma {:induction false} Added(block: seq<Octet>)
    requires IsState(
               block, 64, 0x506e3058, 0xd39a2165, 0x04d24d6c, 0xb85e2ce9, 0x5ef50f24, 0xfb121210, 0x948d25b6, 0x961f4894)
    ensures Compress(INITIAL, block) == [
              0xba7816bf, 0x8f01cfea, 0x414140de, 0x5dae2223, 0xb00361a3, 0x96177a9c, 0xb410ff61, 0xf20015ad]
  {
    hide Rounds;
  }

  /** The digest of "abc" is the one that was published. */
  lemma {:induction false} DigestOfAbc()
    ensures Digest([0x61, 0x62, 0x63]) == [
              0xba, 0x78, 0x16, 0xbf, 0x8f, 0x01, 0xcf, 0xea, 0x41, 0x41, 0x40, 0xde, 0x5d, 0xae, 0x22, 0x23,
              0xb0, 0x03, 0x61, 0xa3, 0x96, 0x17, 0x7a, 0x9c, 0xb4, 0x10, 0xff, 0x61, 0xf2, 0x00, 0x15, 0xad]
  {
    hide Compress, Padding, IsPadded, Serialize, Absorb;
    var block := Abc() + Padding(3);
    Padded();
    PaddedLength(block);
    Compressed(block);
    OneBlock(block);
    Serialized(0xba7816bf, 0x8f01cfea, 0x414140de, 0x5dae2223, 0xb00361a3, 0x96177a9c, 0xb410ff61, 0xf20015ad);
    Unpacked();
  }

  lemma OneBlock(block: seq<Octet>)
    requires |block| == 64
    ensures Absorb(INITIAL, block) == Compress(INITIAL, block)
  {
    hide Compress;
    assert block[..0] == [] && block[0..] == block;
  }

  lemma {:induction false} Unpacked()
    ensures Unpack(0xba7816bf) + Unpack(0x8f01cfea) + Unpack(0x414140de) + Unpack(0x5dae2223)
            + Unpack(0xb00361a3) + Unpack(0x96177a9c) + Unpack(0xb410ff61) + Unpack(0xf20015ad)
            == [0xba, 0x78, 0x16, 0xbf, 0x8f, 0x01, 0xcf, 0xea, 0x41, 0x41, 0x40, 0xde, 0x5d, 0xae, 0x22, 0x23,
                0xb0, 0x03, 0x61, 0xa3, 0x96, 0x17, 0x7a, 0x9c, 0xb4, 0x10, 0xff, 0x61, 0xf2, 0x00, 0x15, 0xad]
  {
    hide Unpack;
    UnpackedWords();
  }

  lemma UnpackedWords()
    ensures Unpack(0xba7816bf) == [0xba, 0x78, 0x16, 0xbf]
    ensures Unpack(0x8f01cfea) == [0x8f, 0x01, 0xcf, 0xea]
    ensures Unpack(0x414140de) == [0x41, 0x41, 0x40, 0xde]
    ensures Unpack(0x5dae2223) == [0x5d, 0xae, 0x22, 0x23]
    ensures Unpack(0xb00361a3) == [0xb0, 0x03, 0x61, 0xa3]
    ensures Unpack(0x96177a9c) == [0x96, 0x17, 0x7a, 0x9c]
    ensures Unpack(0xb410ff61) == [0xb4, 0x10, 0xff, 0x61]
    ensures Unpack(0xf20015ad) == [0xf2, 0x00, 0x15, 0xad]
  {
  }

  lemma PaddedLength(block: seq<Octet>)
    requires IsPadded(block)
    ensures |block| == 64
  {
  }

  lemma {:induction false} Serialized(
      a: Word, b: Word, c: Word, d: Word, e: Word, f: Word, g: Word, h: Word)
    ensures Serialize([a, b, c, d, e, f, g, h])
            == Unpack(a) + Unpack(b) + Unpack(c) + Unpack(d) + Unpack(e) + Unpack(f) + Unpack(g) + Unpack(h)
  {
    hide Unpack;
    assert Serialize([a]) == [] + Unpack(a) == Unpack(a);
    var two := [a] + [b];
    OneMore([a], b);
    var three := two + [c];
    OneMore(two, c);
    var four := three + [d];
    OneMore(three, d);
    var five := four + [e];
    OneMore(four, e);
    var six := five + [f];
    OneMore(five, f);
    var seven := six + [g];
    OneMore(six, g);
    OneMore(seven, h);
    hide Serialize;
    assert seven + [h] == [a, b, c, d, e, f, g, h];
  }

  lemma OneMore(words: seq<Word>, w: Word)
    ensures Serialize(words + [w]) == Serialize(words) + Unpack(w)
  {
    assert (words + [w])[..|words|] == words;
  }
}
