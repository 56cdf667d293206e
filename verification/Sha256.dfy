/** `SHA256`: a message is taken in pieces; what does not fill a block waits for the next piece. */
module Sha256 {
  import opened Sha256Spec

  const MODULUS: nat := 0x1_0000_0000

  function Overwritten(b: seq<Octet>, offset: nat, data: seq<Octet>): (r: seq<Octet>)
    requires offset + |data| <= |b|
    ensures |r| == |b|
  {
    b[..offset] + data + b[offset + |data|..]
  }

  lemma CopiedAfter(b: seq<Octet>, offset: nat, data: seq<Octet>)
    requires offset + |data| <= |b|
    ensures Overwritten(b, offset, data)[..offset + |data|] == b[..offset] + data
  {
  }

  lemma CopiedFront(b: seq<Octet>, data: seq<Octet>)
    requires |data| <= |b|
    ensures Overwritten(b, 0, data)[..|data|] == data
  {
  }

  /** A hash in the making: the state after all full blocks, and the bytes that do not fill one yet. */
  class Sha256State {
    var totLen: nat
    var len: nat
    const h: array<Word>
    const block: array<Octet>
    ghost var message: seq<Octet>

    /** The blocks that have been absorbed. */
    ghost function Done(): seq<Octet>
      requires len <= |message|
      reads this
    {
      message[..|message| - len]
    }

    ghost predicate Valid()
      reads this, h, block
    {
      && h.Length == 8 && block.Length == 128 && h != block as object
      && len < 64 && len <= |message| && |Done()| % 64 == 0
      && totLen == |Done()| % MODULUS
      && block[..len] == message[|message| - len..]
      && h[..] == Absorb(INITIAL, Done())
    }

    constructor ()
      ensures Valid() && message == [] && fresh(h) && fresh(block)
    {
      totLen, len := 0, 0;
      h := new Word[8](i requires 0 <= i < 8 => INITIAL[i]);
      block := new Octet[128](_ => 0);
      message := [];
      new;
      assert h[..] == INITIAL;
    }

    /** `transform`: absorbs that many blocks. */
    method Transform(data: seq<Octet>, count: nat)
      requires h.Length == 8 && 64 * count <= |data|
      modifies h
      ensures h[..] == Absorb(old(h[..]), data[..64 * count])
    {
      hide Compress, Schedule, Rounds, Absorb;
      var i := 0;
      AbsorbNext(h[..], data, 0);
      while i < count
        invariant 0 <= i <= count && h[..] == Absorb(old(h[..]), data[..64 * i])
      {
        AbsorbNext(old(h[..]), data, i + 1);
        TransformBlock(data[64 * i..64 * i + 64]);
        i := i + 1;
      }
    }

    /** One block. */
    method TransformBlock(data: seq<Octet>)
      requires h.Length == 8 && |data| == 64
      modifies h
      ensures h[..] == Compress(old(h[..]), data)
    {
      hide Schedule, Rounds, Round, Plus;
      var w := Expand(data);
      var wv := new Word[8](i requires 0 <= i < 8 reads h => h[i]);
      assert wv[..] == h[..];
      RoundsNext(h[..], data, 0);
      for j := 0 to 64
        invariant wv[..] == Rounds(h[..], data, j) && h[..] == old(h[..])
        invariant forall t :: 0 <= t < 64 ==> w[t] == Schedule(data, t)
      {
        RoundsNext(h[..], data, j + 1);
        OneRound(wv, K[j], w[j]);
      }
      for j := 0 to 8
        invariant forall k :: 0 <= k < 8 ==> h[k] == if k < j then Plus(old(h[k]), wv[k]) else old(h[k])
        invariant wv[..] == Rounds(old(h[..]), data, 64)
      {
        h[j] := Plus(h[j], wv[j]);
      }
    }

    method OneRound(wv: array<Word>, k: Word, w: Word)
      requires wv.Length == 8
      modifies wv
      ensures wv[..] == Round(old(wv[..]), k, w)
    {
      hide T1, T2, Plus, Round;
      ghost var was := wv[..];
      var t1 := T1(wv[4], wv[5], wv[6], wv[7], k, w);
      var t2 := T2(wv[0], wv[1], wv[2]);
      wv[7] := wv[6];
      wv[6] := wv[5];
      wv[5] := wv[4];
      wv[4] := Plus(wv[3], t1);
      wv[3] := wv[2];
      wv[2] := wv[1];
      wv[1] := wv[0];
      wv[0] := Plus(t1, t2);
      assert wv[0] == Plus(t1, t2) && wv[1] == was[0] && wv[2] == was[1] && wv[3] == was[2];
      assert wv[4] == Plus(was[3], t1) && wv[5] == was[4] && wv[6] == was[5] && wv[7] == was[6];
      RoundIs(was, k, w, wv[..]);
    }

    /** The message schedule of a block. */
    method Expand(data: seq<Octet>) returns (w: array<Word>)
      requires |data| == 64
      ensures fresh(w) && w.Length == 64 && forall t :: 0 <= t < 64 ==> w[t] == Schedule(data, t)
    {
      hide Schedule, Pack, Expanded;
      w := new Word[64](_ => 0);
      for t := 0 to 16
        invariant forall k :: 0 <= k < t ==> w[k] == Schedule(data, k)
      {
        ScheduleNext(data, t);
        w[t] := Pack(data[4 * t..4 * t + 4]);
      }
      for t := 16 to 64
        invariant forall k :: 0 <= k < t ==> w[k] == Schedule(data, k)
      {
        ScheduleNext(data, t);
        w[t] := Expanded(w[t - 2], w[t - 7], w[t - 15], w[t - 16]);
      }
    }

    /** `memcpy` and `memset` into the block. */
    method CopyInto(offset: nat, data: seq<Octet>)
      requires offset + |data| <= block.Length
      modifies block
      ensures block[..] == Overwritten(old(block[..]), offset, data)
    {
      for i := 0 to |data|
        invariant forall k :: 0 <= k < block.Length ==>
                    block[k] == if offset <= k < offset + i then data[k - offset] else old(block[k])
      {
        block[offset + i] := data[i];
      }
    }

    /**
     `update`, with its 32-bit lengths: it takes the whole piece unless the sum of waiting and new bytes
     wraps around. Then the piece is lost, and the end of what was waiting with it.
     */
    method Update(input: seq<Octet>)
      requires Valid() && |input| < MODULUS
      modifies this`totLen, this`len, this`message, h, block
      ensures Valid()
      ensures message == Kept(old(message), input, old(len))
    {
      hide Absorb, Overwritten;
      var room := 64 - len;
      var rem := if |input| < room then |input| else room;
      ghost var tail := block[..len];
      CopiedAfter(block[..], len, input[..rem]);
      CopyInto(len, input[..rem]);
      assert block[..|tail| + rem] == block[..][..|tail| + rem] == tail + input[..rem];
      if (len + |input|) % MODULUS < 64 {
        KeepPiece(input, rem);
      } else {
        AbsorbPiece(input, rem);
      }
    }

    /** The piece fits into the waiting block, or seems to because the sum wrapped around. */
    method KeepPiece(input: seq<Octet>, rem: nat)
      requires h.Length == 8 && block.Length == 128 && h != block as object
      requires len < 64 && len <= |message| && |Done()| % 64 == 0 && totLen == |Done()| % MODULUS
      requires h[..] == Absorb(INITIAL, Done()) && |input| < MODULUS && (len + |input|) % MODULUS < 64
      requires rem == (if |input| < 64 - len then |input| else 64 - len)
      requires block[..len + rem] == message[|message| - len..] + input[..rem]
      modifies this`len, this`message
      ensures Valid()
      ensures message == Kept(old(message), input, old(len))
    {
      hide Absorb;
      KeptMessage(message, input, len, rem);
      ghost var waiting, kept := block[..len + rem], KeptLength(len, |input|);
      assert block[..kept] == waiting[..kept];
      message := Kept(message, input, len);
      len := (len + |input|) % MODULUS;
    }

    /** The piece fills the waiting block: that block, all full ones after it, and the rest. */
    method AbsorbPiece(input: seq<Octet>, room: nat)
      requires h.Length == 8 && block.Length == 128 && h != block as object
      requires room == 64 - len && room <= |input| && len <= |message| && |Done()| % 64 == 0
      requires totLen == |Done()| % MODULUS && h[..] == Absorb(INITIAL, Done())
      requires block[..64] == message[|message| - len..] + input[..room]
      modifies this`totLen, this`len, this`message, h, block
      ensures Valid() && message == old(message) + input
    {
      hide Absorb, Overwritten;
      var newLen := |input| - room;
      var count := newLen / 64;
      var shifted := input[room..];
      ghost var done, first := Done(), block[..64];
      Transform(block[..64], 1);
      Transform(shifted, count);
      AbsorbTwice(INITIAL, done, first, shifted, count);
      var rem := newLen % 64;
      CopyInto(0, shifted[64 * count..64 * count + rem]);
      CopiedFront(old(block[..]), shifted[64 * count..64 * count + rem]);
      assert block[..rem] == block[..][..rem];
      AbsorbedMessage(message, input, len, room, count, rem);
      len := rem;
      totLen := (totLen + (count + 1) * 64) % MODULUS;
      message := message + input;
    }

    /**
     `finalize`: pads in place and absorbs the one or two last blocks. The length is written as a
     32-bit number of bits.
     */
    method Finalize() returns (digest: seq<Octet>)
      requires Valid()
      modifies h, block
      ensures digest == Serialize(Absorb(INITIAL, message + ShortPadding(|message|)))
      ensures |message| < 0x2000_0000 ==> digest == Digest(message)
    {
      hide Absorb, Serialize, BigEndian, ShortPadding;
      var count := if 55 < len % 64 then 2 else 1;
      var lenBits := (totLen + len) % MODULUS * 8 % MODULUS;
      var size := 64 * count;
      PaddingSize(|message|, len, |Done()|, totLen);
      ghost var done, tail := Done(), block[..len];
      assert message == done + tail;
      Pad(size, lenBits);
      assert message + ShortPadding(|message|) == done + block[..size];
      AbsorbAppend(INITIAL, done, block[..size]);
      assert block[..size][..64 * count] == block[..size];
      Transform(block[..size], count);
      digest := Output();
      if |message| < 0x2000_0000 {
        ShortPaddingIsPadding(|message|);
      }
    }

    /** The padding, in place. */
    method Pad(size: nat, lenBits: nat)
      requires block.Length == 128 && len < 64 && size == len + 9 + Zeros(|message|) && size <= 128
      requires lenBits == 8 * |message| % MODULUS
      modifies block
      ensures block[..size] == old(block[..len]) + ShortPadding(|message|)
    {
      hide BigEndian, Overwritten, ShortPadding, Zeros;
      ghost var was := block[..];
      CopyInto(len, seq(size - len, _ => 0));
      CopyInto(len, [0x80]);
      CopyInto(size - 4, BigEndian(lenBits, 4));
      PaddedBlock(was, len, size, |message|);
    }

    /** The state as bytes. */
    method Output() returns (digest: seq<Octet>)
      requires h.Length == 8
      ensures digest == Serialize(h[..])
    {
      hide Serialize;
      digest := [];
      var i := 0;
      SerializeNext(h[..], 0);
      while i < 8
        invariant 0 <= i <= 8 && digest == Serialize(h[..][..i])
      {
        SerializeNext(h[..], i + 1);
        digest := digest + Unpack(h[i]);
        i := i + 1;
      }
      assert h[..][..8] == h[..];
    }
  }

  /** The padding with a 32-bit length, as it is written. */
  function ShortPadding(length: nat): (p: seq<Octet>)
    ensures |p| == 9 + Zeros(length) && (length + |p|) % 64 == 0
  {
    [0x80] + seq(Zeros(length) + 4, _ => 0) + BigEndian(8 * length % MODULUS, 4)
  }

  lemma PaddingSize(length: nat, len: nat, done: nat, totLen: nat)
    requires length == done + len && done % 64 == 0 && len < 64 && totLen == done % MODULUS
    ensures len + 9 + Zeros(length) == if 55 < len % 64 then 128 else 64
    ensures (totLen + len) % MODULUS * 8 % MODULUS == 8 * length % MODULUS
  {
    assert length % 64 == len;
    SumModulus(done, len);
    TimesEight(length);
  }

  lemma SumModulus(a: nat, b: nat)
    ensures (a % MODULUS + b) % MODULUS == (a + b) % MODULUS
  {
  }

  lemma TimesEight(n: nat)
    ensures n % MODULUS * 8 % MODULUS == 8 * n % MODULUS
  {
    var q, r := n / MODULUS, n % MODULUS;
    assert 8 * n == MODULUS * (8 * q) + 8 * r;
  }

  lemma PaddedBlock(b: seq<Octet>, len: nat, size: nat, length: nat)
    requires size == len + 9 + Zeros(length) && size <= |b|
    ensures var zeroed := Overwritten(b, len, seq(size - len, _ => 0));
            var marked := Overwritten(zeroed, len, [0x80]);
            Overwritten(marked, size - 4, BigEndian(8 * length % MODULUS, 4))[..size] == b[..len] + ShortPadding(length)
  {
    hide BigEndian, Zeros;
    var zeros := seq(size - len, _ => 0 as Octet);
    var zeroed := Overwritten(b, len, zeros);
    var marked := Overwritten(zeroed, len, [0x80]);
    assert marked[..size - 4] == b[..len] + [0x80] + seq(Zeros(length) + 4, _ => 0);
  }

  lemma {:induction false} BigEndianParts(n: nat)
    ensures BigEndian(n, 8) == BigEndian(n / MODULUS, 4) + BigEndian(n % MODULUS, 4)
  {
    BigEndianFour(n % MODULUS);
    BigEndianEight(n);
    hide BigEndian;
    LowDigits(n);
  }

  lemma LowDigits(n: nat)
    ensures var m := n % MODULUS;
            && n / 256 / 256 / 256 / 256 == n / MODULUS
            && m % 256 == n % 256 && m / 256 % 256 == n / 256 % 256
            && m / 256 / 256 % 256 == n / 256 / 256 % 256 && m / 256 / 256 / 256 % 256 == n / 256 / 256 / 256 % 256
  {
    var q, m := n / MODULUS, n % MODULUS;
    assert n == MODULUS * q + m;
    assert n / 256 == 0x100_0000 * q + m / 256;
    assert n / 256 / 256 == 0x1_0000 * q + m / 256 / 256;
    assert n / 256 / 256 / 256 == 0x100 * q + m / 256 / 256 / 256;
  }

  lemma BigEndianFour(m: nat)
    ensures BigEndian(m, 4) ==
              [(m / 256 / 256 / 256 % 256) as Octet, (m / 256 / 256 % 256) as Octet,
               (m / 256 % 256) as Octet, (m % 256) as Octet]
  {
    assert BigEndian(m / 256 / 256 / 256 / 256, 0) == [];
    assert BigEndian(m / 256 / 256 / 256, 1) == [(m / 256 / 256 / 256 % 256) as Octet];
    assert BigEndian(m / 256 / 256, 2) == [(m / 256 / 256 / 256 % 256) as Octet, (m / 256 / 256 % 256) as Octet];
  }

  lemma BigEndianEight(n: nat)
    ensures BigEndian(n, 8) ==
              BigEndian(n / 256 / 256 / 256 / 256, 4)
              + [(n / 256 / 256 / 256 % 256) as Octet, (n / 256 / 256 % 256) as Octet,
                 (n / 256 % 256) as Octet, (n % 256) as Octet]
  {
    assert BigEndian(n / 256 / 256 / 256, 5)
        == BigEndian(n / 256 / 256 / 256 / 256, 4) + [(n / 256 / 256 / 256 % 256) as Octet];
    assert BigEndian(n / 256 / 256, 6) == BigEndian(n / 256 / 256 / 256, 5) + [(n / 256 / 256 % 256) as Octet];
    assert BigEndian(n / 256, 7) == BigEndian(n / 256 / 256, 6) + [(n / 256 % 256) as Octet];
  }

  lemma {:induction false} BigEndianZero(m: nat)
    requires m < MODULUS
    ensures BigEndian(m, 4) == [0, 0, 0, 0] <==> m == 0
  {
    BigEndianFour(m);
    hide BigEndian;
    var a, b, c, d := (m / 256 / 256 / 256 % 256) as Octet, (m / 256 / 256 % 256) as Octet,
      (m / 256 % 256) as Octet, (m % 256) as Octet;
    assert [a, b, c, d] == [0, 0, 0, 0] <==> a == 0 && b == 0 && c == 0 && d == 0;
    AllDigitsZero(m);
  }

  lemma AllDigitsZero(m: nat)
    requires m < MODULUS
    ensures m % 256 == 0 && m / 256 % 256 == 0 && m / 256 / 256 % 256 == 0 && m / 256 / 256 / 256 % 256 == 0
            <==> m == 0
  {
    var a := m / 256;
    var b := a / 256;
    var c := b / 256;
    assert m == 256 * a + m % 256 && a == 256 * b + a % 256 && b == 256 * c + b % 256 && c < 256;
  }

  /** For messages FIPS 180-4 allows, the padding is right exactly below 2^29 bytes. */
  lemma {:induction false} ShortPaddingIsPadding(length: nat)
    requires 8 * length < MODULUS * MODULUS
    ensures ShortPadding(length) == Padding(length) <==> length < 0x2000_0000
  {
    var n, z := 8 * length, Zeros(length);
    var high, low := BigEndian(n / MODULUS, 4), BigEndian(n % MODULUS, 4);
    BigEndianParts(n);
    hide BigEndian;
    var front := [0x80 as Octet] + seq(z, _ => 0);
    assert Padding(length) == front + high + low;
    assert seq(z + 4, _ => 0 as Octet) == seq(z, _ => 0) + [0, 0, 0, 0];
    assert ShortPadding(length) == front + [0, 0, 0, 0] + low;
    BigEndianZero(n / MODULUS);
    if ShortPadding(length) == Padding(length) {
      assert Padding(length)[1 + z..5 + z] == high;
      assert ShortPadding(length)[1 + z..5 + z] == [0, 0, 0, 0];
    }
  }

  lemma SerializeNext(words: seq<Word>, i: nat)
    requires i <= |words|
    ensures Serialize(words[..i]) == if i == 0 then [] else Serialize(words[..i - 1]) + Unpack(words[i - 1])
  {
    hide Unpack;
    if i > 0 {
      assert words[..i][..i - 1] == words[..i - 1];
    }
  }

  lemma {:induction false} AbsorbTwice(
      h: seq<Word>, done: seq<Octet>, first: seq<Octet>, shifted: seq<Octet>, count: nat)
    requires |h| == 8 && |done| % 64 == 0 && |first| == 64 && 64 * count <= |shifted|
    ensures Absorb(Absorb(Absorb(h, done), first[..64 * 1]), shifted[..64 * count])
            == Absorb(h, done + first + shifted[..64 * count])
  {
    hide Absorb;
    assert first[..64 * 1] == first;
    AbsorbAppend(h, done, first);
    AbsorbAppend(h, done + first, shifted[..64 * count]);
  }

  lemma TotalOf(done: nat, count: nat)
    requires done % 64 == 0
    ensures (done + 64 + 64 * count) % MODULUS == (done % MODULUS + (count + 1) * 64) % MODULUS
    ensures (done + 64 + 64 * count) % 64 == 0
  {
  }

  lemma SplitMessage(message: seq<Octet>, input: seq<Octet>, len: nat, rem: nat)
    requires len <= |message| && rem <= |input|
    ensures rem == |input| ==>
              && (message + input)[..|message + input| - (len + rem)] == message[..|message| - len]
              && (message + input)[|message + input| - (len + rem)..] == message[|message| - len..] + input[..rem]
  {
  }

  function KeptLength(len: nat, size: nat): nat
    requires len < 64 && size < MODULUS
  {
    if len + size < MODULUS then len + size else len + size - MODULUS
  }

  /** The message after an update; if the 32-bit sum wraps around, the end of what was waiting is lost. */
  function Kept(message: seq<Octet>, input: seq<Octet>, len: nat): seq<Octet>
    requires len < 64 && len <= |message| && |input| < MODULUS
  {
    if len + |input| < MODULUS then message + input else message[..|message| + |input| - MODULUS]
  }

  lemma {:induction false} KeptMessage(message: seq<Octet>, input: seq<Octet>, len: nat, rem: nat)
    requires len < 64 && len <= |message| && |input| < MODULUS && (len + |input|) % MODULUS < 64
    requires rem == if |input| < 64 - len then |input| else 64 - len
    ensures var kept, after := KeptLength(len, |input|), Kept(message, input, len);
            && kept == (len + |input|) % MODULUS < 64 && kept <= |after| && kept <= len + rem
            && after[..|after| - kept] == message[..|message| - len]
            && after[|after| - kept..] == (message[|message| - len..] + input[..rem])[..kept]
  {
    if len + |input| < MODULUS {
      SplitMessage(message, input, len, rem);
    } else {
      ShortMessage(message, len, len + |input| - MODULUS);
    }
  }

  /** The message without the end of what is waiting. */
  lemma ShortMessage(message: seq<Octet>, len: nat, less: nat)
    requires less <= len <= |message|
    ensures var short := message[..|message| - len + less];
            && short[..|short| - less] == message[..|message| - len]
            && short[|short| - less..] == message[|message| - len..][..less]
  {
  }

  lemma SplitBlocks(message: seq<Octet>, input: seq<Octet>, len: nat, room: nat, count: nat, rem: nat)
    requires len <= |message| && room <= |input| && |input| - room == 64 * count + rem && len + room == 64
    ensures var all, shifted := message + input, input[room..];
            && all[..|all| - rem] ==
                 message[..|message| - len] + (message[|message| - len..] + input[..room]) + shifted[..64 * count]
            && all[|all| - rem..] == shifted[64 * count..64 * count + rem]
  {
  }

  /** The message once a piece has filled the waiting block and `count` more. */
  lemma {:induction false} AbsorbedMessage(
      message: seq<Octet>, input: seq<Octet>, len: nat, room: nat, count: nat, rem: nat)
    requires len <= |message| && room <= |input| && |input| - room == 64 * count + rem && len + room == 64
    requires rem < 64 && (|message| - len) % 64 == 0
    ensures var all, done, shifted := message + input, |message| - len, input[room..];
            && rem <= |all| && (|all| - rem) % 64 == 0
            && (|all| - rem) % MODULUS == (done % MODULUS + (count + 1) * 64) % MODULUS
            && all[..|all| - rem] ==
                 message[..done] + (message[done..] + input[..room]) + shifted[..64 * count]
            && all[|all| - rem..] == shifted[64 * count..64 * count + rem]
  {
    SplitBlocks(message, input, len, room, count, rem);
    TotalOf(|message| - len, count);
  }

  lemma RoundIs(s: seq<Word>, k: Word, w: Word, r: seq<Word>)
    requires |s| == |r| == 8
    requires var t1, t2 := T1(s[4], s[5], s[6], s[7], k, w), T2(s[0], s[1], s[2]);
             && r[0] == Plus(t1, t2) && r[1] == s[0] && r[2] == s[1] && r[3] == s[2]
             && r[4] == Plus(s[3], t1) && r[5] == s[4] && r[6] == s[5] && r[7] == s[6]
    ensures r == Round(s, k, w)
  {
    hide T1, T2, Plus;
  }

  lemma ScheduleNext(block: seq<Octet>, t: nat)
    requires |block| == 64 && t < 64
    ensures Schedule(block, t) ==
              if t < 16 then Pack(block[4 * t..4 * t + 4])
              else
                Expanded(Schedule(block, t - 2), Schedule(block, t - 7), Schedule(block, t - 15), Schedule(block, t - 16))
  {
    hide Expanded, Pack;
  }

  lemma RoundsNext(s: seq<Word>, block: seq<Octet>, n: nat)
    requires |s| == 8 && |block| == 64 && n <= 64
    ensures Rounds(s, block, n) ==
              if n == 0 then s else Round(Rounds(s, block, n - 1), K[n - 1], Schedule(block, n - 1))
  {
    hide Round, Schedule;
  }

  lemma {:induction false} AbsorbNext(h: seq<Word>, data: seq<Octet>, i: nat)
    requires |h| == 8 && 64 * i <= |data|
    ensures Absorb(h, data[..64 * i]) ==
              if i == 0 then h else Compress(Absorb(h, data[..64 * (i - 1)]), data[64 * (i - 1)..64 * i])
  {
    hide Compress;
    if i > 0 {
      assert data[..64 * i][..64 * i - 64] == data[..64 * (i - 1)];
      assert data[..64 * i][64 * i - 64..] == data[64 * (i - 1)..64 * i];
    }
  }

  function Joined(pieces: seq<seq<Octet>>): seq<Octet> {
    if pieces == [] then [] else Joined(pieces[..|pieces| - 1]) + pieces[|pieces| - 1]
  }

  lemma {:induction false} JoinedGrows(pieces: seq<seq<Octet>>, n: nat)
    requires n <= |pieces|
    ensures |Joined(pieces[..n])| <= |Joined(pieces)|
    ensures n < |pieces| ==> Joined(pieces[..n + 1]) == Joined(pieces[..n]) + pieces[n]
    decreases |pieces|
  {
    if n < |pieces| {
      assert pieces[..n + 1][..n] == pieces[..n];
      var front := pieces[..|pieces| - 1];
      JoinedGrows(front, n);
      assert front[..n] == pieces[..n];
    } else {
      assert pieces[..n] == pieces;
    }
  }

  /** However a message below 2^29 bytes is cut into pieces, its digest is that of the whole message. */
  method HashPieces(pieces: seq<seq<Octet>>) returns (digest: seq<Octet>)
    requires |Joined(pieces)| < 0x2000_0000
    ensures digest == Digest(Joined(pieces))
  {
    hide Joined, Digest, Absorb;
    var state := new Sha256State();
    var i := 0;
    JoinedGrows(pieces, 0);
    NoPieces(pieces);
    while i < |pieces|
      invariant 0 <= i <= |pieces| && state.Valid() && state.message == Joined(pieces[..i])
      invariant fresh(state) && fresh(state.h) && fresh(state.block)
    {
      JoinedGrows(pieces, i);
      JoinedGrows(pieces, i + 1);
      state.Update(pieces[i]);
      i := i + 1;
    }
    assert pieces[..i] == pieces;
    digest := state.Finalize();
  }

  lemma NoPieces(pieces: seq<seq<Octet>>)
    ensures Joined(pieces[..0]) == []
  {
  }
}
