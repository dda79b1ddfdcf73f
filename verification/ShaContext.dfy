/** SHA-256 as the code computes it: a message comes in pieces, and the words are 64 bits wide. */
module ShaContexts {
  import opened Radix
  import opened Bits
  import opened Sha256s

  /** The low halves of the working variables */
  function LowRegs(a: Long, b: Long, c: Long, d: Long, e: Long, f: Long, g: Long, h: Long): Regs {
    Regs(Low(a), Low(b), Low(c), Low(d), Low(e), Low(f), Low(g), Low(h))
  }

  ghost predicate Scheduled(w: seq<Long>, block: seq<Byte>, n: nat) {
    |block| == 64 && |w| == 64 && n <= 64 && forall j: nat :: j < n ==> Low(w[j]) == Schedule(block, j)
  }

  /** R(t), without storing it */
  function NextWord(w: seq<Long>, t: nat): Long
    requires 16 <= t < 64 == |w|
  {
    Add(Add(Add(S1(w[t - 2]), w[t - 7]), S0(w[t - 15])), w[t - 16])
  }

  lemma NextScheduled(w: seq<Long>, block: seq<Byte>, t: nat)
    requires 16 <= t < 64 && Scheduled(w, block, t)
    ensures Scheduled(w[t := NextWord(w, t)], block, t + 1)
  {
    hide Add, Low, S0, S1, Sigma0, Sigma1, Plus;
    var x, y, z, v := w[t - 2], w[t - 7], w[t - 15], w[t - 16];
    LowSigmas(x);
    LowSigmas(z);
    LowAdd(S1(x), y);
    LowAdd(Add(S1(x), y), S0(z));
    LowAdd(Add(Add(S1(x), y), S0(z)), v);
  }

  /** The sums of one round, P */
  function Temp1(e: Long, f: Long, g: Long, h: Long, k: Word, w: Long): Long {
    Add(Add(Add(Add(h, S3(e)), F1(e, f, g)), k), w)
  }

  function Temp2(a: Long, b: Long, c: Long): Long {
    Add(S2(a), F0(a, b, c))
  }

  lemma RoundLow(a: Long, b: Long, c: Long, d: Long, e: Long, f: Long, g: Long, h: Long, k: Word, w: Long)
    ensures var t1, t2 := Temp1(e, f, g, h, k, w), Temp2(a, b, c);
      LowRegs(Add(t1, t2), a, b, c, Add(d, t1), e, f, g) == Round(LowRegs(a, b, c, d, e, f, g, h), k, Low(w))
  {
    hide Add, S2, S3, F0, F1, BigSigma0, BigSigma1, Ch, Maj, Plus;
    LowSigmas(e);
    LowSigmas(a);
    LowF1(e, f, g);
    LowF0(a, b, c);
    LowAdd(h, S3(e));
    LowAdd(Add(h, S3(e)), F1(e, f, g));
    LowAdd(Add(Add(h, S3(e)), F1(e, f, g)), k);
    LowAdd(Add(Add(Add(h, S3(e)), F1(e, f, g)), k), w);
    LowAdd(S2(a), F0(a, b, c));
    LowAdd(Temp1(e, f, g, h, k, w), Temp2(a, b, c));
    LowAdd(d, Temp1(e, f, g, h, k, w));
    hide Low;
    LowOfWord(k);
  }

  lemma LowOfWord(k: Word)
    ensures Low(k) == k
  {
  }

  /** Message bytes i to i + 3 as a word, GET_UINT32 */
  function GetWord(data: seq<Byte>, i: nat): Long
    requires i + 4 <= |data|
  {
    FromBytes(data[i], data[i + 1], data[i + 2], data[i + 3])
  }

  /** r is the hash value of all of s but the last left bytes, which are in the buffer. */
  ghost predicate Absorbed(r: Regs, buffer: seq<Byte>, s: seq<Byte>, left: nat) {
    && |buffer| == 64 && left < 64 && left <= |s| && (|s| - left) % 64 == 0
    && r == Hash(s[..|s| - left]) && buffer[..left] == s[|s| - left..]
  }

  lemma BufferFull(r: Regs, buffer: seq<Byte>, s: seq<Byte>, left: nat, x: seq<Byte>, full: seq<Byte>)
    requires Absorbed(r, buffer, s, left) && |x| == 64 - left && full == buffer[..left] + x
    ensures |full| == 64 && Absorbed(Compress(r, full), full, s + x, 0)
  {
    hide Hash, Compress;
    HashMore(s[..|s| - left], full);
    assert s[..|s| - left] + full == s + x;
    assert (s + x)[..|s + x|] == s + x;
  }

  lemma BlockAbsorbed(r: Regs, buffer: seq<Byte>, s: seq<Byte>, block: seq<Byte>)
    requires Absorbed(r, buffer, s, 0) && |block| == 64
    ensures Absorbed(Compress(r, block), buffer, s + block, 0)
  {
    hide Hash, Compress;
    HashMore(s, block);
    assert s[..|s|] == s && (s + block)[..|s + block|] == s + block;
  }

  lemma RestBuffered(r: Regs, buffer: seq<Byte>, s: seq<Byte>, left: nat, x: seq<Byte>, buffer': seq<Byte>)
    requires Absorbed(r, buffer, s, left) && left + |x| < 64 && |buffer'| == 64
    requires buffer'[..left + |x|] == buffer[..left] + x
    ensures Absorbed(r, buffer', s + x, left + |x|) && |s + x| % 64 == left + |x|
  {
    hide Hash;
    assert (s + x)[..|s| - left] == s[..|s| - left];
    assert (s + x)[|s| - left..] == s[|s| - left..] + x;
  }

  /** A piece of 2^32 bytes or more carries into the upper count once only: what that count then lacks. */
  function MissedBy(n: nat, length: nat): (k: nat)
    ensures k == 0 <==> length < TWO32 || n % TWO32 + length < 2 * TWO32
  {
    var sum := n % TWO32 + length;
    assert sum == TWO32 * (sum / TWO32) + sum % TWO32;
    if length < TWO32 then 0 else sum / TWO32 - 1
  }

  /** missed is what the upper count lacks. */
  class Context {
    var total0: Word
    var total1: Long
    const state: array<Long>
    const buffer: array<Byte>
    ghost var message: seq<Byte>
    ghost var missed: nat

    ghost function LowState(): Regs
      reads this, state
      requires state.Length == 8
    {
      LowRegs(state[0], state[1], state[2], state[3], state[4], state[5], state[6], state[7])
    }

    /** The state is that after all whole blocks of the message so far; the buffer holds the rest. */
    ghost predicate Valid()
      reads this, state, buffer
    {
      && state.Length == 8 && buffer.Length == 64
      && missed <= |message| / TWO32
      && total0 == |message| % TWO32 && total1 == (|message| / TWO32 - missed) % TWO64
      && Absorbed(LowState(), buffer[..], message, |message| % 64)
    }

    /** sha256_starts */
    constructor ()
      ensures Valid() && message == [] && missed == 0 && fresh(state) && fresh(buffer)
    {
      total0, total1, message, missed := 0, 0, [], 0;
      state := new Long[8] [0x6a09e667, 0xbb67ae85, 0x3c6ef372, 0xa54ff53a, 0x510e527f, 0x9b05688c, 0x1f83d9ab, 0x5be0cd19];
      buffer := new Byte[64](_ => 0);
      new;
    }

    /** P, and R before it from round 16 on: of the registers, d and h change. */
    static method Step(w: array<Long>, ghost r: Regs, ghost data: seq<Byte>, t: nat, a: Long, b: Long, c: Long, d: Long, e: Long, f: Long, g: Long, h: Long)
      returns (d': Long, h': Long)
      requires w.Length == 64 && t < 64 && Scheduled(w[..], data, if t < 16 then 16 else t)
      requires LowRegs(a, b, c, d, e, f, g, h) == Rounds(r, data, t)
      modifies w
      ensures Scheduled(w[..], data, if t + 1 < 16 then 16 else t + 1)
      ensures LowRegs(h', a, b, c, d', e, f, g) == Rounds(r, data, t + 1)
    {
      hide Scheduled, Schedule, LowRegs, Rounds, Round, Add, Temp1, Temp2, NextWord, Constant, S0, S1, Low;
      if t >= 16 {
        NextScheduled(w[..], data, t);
        NextWordIs(w[..], t);
        ghost var was := w[..];
        w[t] := Add(Add(Add(S1(w[t - 2]), w[t - 7]), S0(w[t - 15])), w[t - 16]);
        assert w[..] == was[t := NextWord(was, t)];
      }
      ScheduledAt(w[..], data, t);
      var k := Constant(t);
      RoundLow(a, b, c, d, e, f, g, h, k, w[t]);
      OneMoreRound(r, data, t);
      var t1, t2 := Temp1(e, f, g, h, k, w[t]), Temp2(a, b, c);
      d', h' := Add(d, t1), Add(t1, t2);
    }

    /** sha256_process: 64 rounds, in which the registers change roles */
    method Process(data: seq<Byte>)
      requires state.Length == 8 && |data| == 64
      modifies state
      ensures LowState() == Compress(old(LowState()), data)
    {
      hide Scheduled, Schedule, LowRegs, Rounds, Round, Add, Low, Plus, GetWord, FromBytes;
      var w := new Long[64](_ => 0);
      var i := 0;
      NoneScheduled(w[..], data);
      while i < 16
        invariant i <= 16 && Scheduled(w[..], data, i) && state[..] == old(state[..])
      {
        ghost var was := w[..];
        WordScheduled(was, data, i);
        w[i] := GetWord(data, 4 * i);
        assert w[..] == was[i := GetWord(data, 4 * i)];
        i := i + 1;
      }
      var a, b, c, d, e, f, g, h := state[0], state[1], state[2], state[3], state[4], state[5], state[6], state[7];
      ghost var r := LowState();
      NoRounds(r, data);
      var t := 0;
      while t < 64
        invariant t <= 64 && t % 8 == 0 && Scheduled(w[..], data, if t < 16 then 16 else t)
        invariant state[..] == old(state[..])
        invariant LowRegs(a, b, c, d, e, f, g, h) == Rounds(r, data, t)
      {
        d, h := Step(w, r, data, t, a, b, c, d, e, f, g, h);
        c, g := Step(w, r, data, t + 1, h, a, b, c, d, e, f, g);
        b, f := Step(w, r, data, t + 2, g, h, a, b, c, d, e, f);
        a, e := Step(w, r, data, t + 3, f, g, h, a, b, c, d, e);
        h, d := Step(w, r, data, t + 4, e, f, g, h, a, b, c, d);
        g, c := Step(w, r, data, t + 5, d, e, f, g, h, a, b, c);
        f, b := Step(w, r, data, t + 6, c, d, e, f, g, h, a, b);
        e, a := Step(w, r, data, t + 7, b, c, d, e, f, g, h, a);
        t := t + 8;
      }
      AddedUp(r, data, state[..], a, b, c, d, e, f, g, h);
      state[0] := Add(state[0], a);
      state[1] := Add(state[1], b);
      state[2] := Add(state[2], c);
      state[3] := Add(state[3], d);
      state[4] := Add(state[4], e);
      state[5] := Add(state[5], f);
      state[6] := Add(state[6], g);
      state[7] := Add(state[7], h);
    }

    /** sha256_update: input comes after all that came before. */
    method Update(input: seq<Byte>)
      requires Valid() && |input| < TWO64
      modifies this, state, buffer
      ensures Valid() && message == old(message) + input
      ensures missed == old(missed) + MissedBy(|old(message)|, |input|)
    {
      hide Hash, Compress, LowRegs, Absorbed, MissedBy;
      if input == [] {
        assert message + input == message;
        return;
      }
      var left := total0 % 64;
      LeftIs(|message|);
      Counted(|message|, |input|, missed);
      missed := missed + MissedBy(|message|, |input|);
      total0 := (total0 + |input|) % TWO32;
      if total0 < |input| { total1 := (total1 + 1) % TWO64; }
      Absorb(input, left);
      message := message + input;
    }

    /** memcpy into the buffer */
    method CopyIn(at: nat, x: seq<Byte>)
      requires buffer.Length == 64 && at + |x| <= 64
      modifies buffer
      ensures buffer[..at + |x|] == old(buffer[..at]) + x
    {
      forall i | 0 <= i < |x| { buffer[at + i] := x[i]; }
    }

    /** The rest of sha256_update: the buffer is filled up and whole blocks are processed; what is
        left over goes to the buffer. */
    method Absorb(input: seq<Byte>, left0: nat)
      requires state.Length == 8 && buffer.Length == 64 && Absorbed(LowState(), buffer[..], message, left0)
      modifies state, buffer
      ensures Absorbed(LowState(), buffer[..], message + input, |message + input| % 64)
    {
      hide Hash, Compress, LowRegs, Absorbed;
      LeftSmall(LowState(), buffer[..], message, left0);
      var length: nat, left: nat, k: nat := |input|, left0, 0;
      var fill := 64 - left;
      assert message + input[..0] == message;
      if left > 0 && length >= fill {
        ghost var buffer0 := buffer[..];
        CopyIn(left, input[..fill]);
        assert buffer[..] == buffer[..64] == buffer0[..left] + input[..fill];
        BufferFull(LowState(), buffer0, message, left, input[..fill], buffer[..]);
        Process(buffer[..]);
        k, left := fill, 0;
      }
      while length - k >= 64
        invariant 0 <= k <= length && left < 64 && (left == 0 || length - k < 64 - left)
        invariant Absorbed(LowState(), buffer[..], message + input[..k], left)
      {
        ghost var r := LowState();
        assert message + input[..k + 64] == message + input[..k] + input[k..k + 64];
        BlockAbsorbed(r, buffer[..], message + input[..k], input[k..k + 64]);
        Process(input[k..k + 64]);
        k := k + 64;
      }
      ghost var buffer1 := buffer[..];
      CopyIn(left, input[k..]);
      RestBuffered(LowState(), buffer1, message + input[..k], left, input[k..], buffer[..]);
      assert message + input == message + input[..k] + input[k..];
    }

    /** sha256_finish: the padding and the length, and then the state in bytes */
    method Finish() returns (digest: seq<Byte>)
      requires Valid()
      modifies this, state, buffer
      ensures TWO32 * old(missed) <= |old(message)|
      ensures digest == Digest(Hash(PaddedAs(old(message), |old(message)| - TWO32 * old(missed))))
    {
      hide Hash, Compress, LowRegs, Absorbed, Or, BytesOf;
      ghost var m := message;
      ghost var n := CountOf(|m|, missed);
      var high := LongOr(total0 / 0x2000_0000, (total1 * 8) % TWO64);
      var low := (total0 * 8) % TWO64;
      var msglen := PutBytes(high) + PutBytes(low);
      LengthIs(n, total0, total1);
      LeftIs(|m|);
      var last := total0 % 64;
      var padn := if last < 56 then 56 - last else 120 - last;
      Update([0x80] + Zeros(padn - 1));
      Update(msglen);
      assert message == PaddedAs(m, n);
      WholeBlocks(LowState(), buffer[..], message);
      digest := PutBytes(state[0]) + PutBytes(state[1]) + PutBytes(state[2]) + PutBytes(state[3])
              + PutBytes(state[4]) + PutBytes(state[5]) + PutBytes(state[6]) + PutBytes(state[7]);
      DigestIs(state[0], state[1], state[2], state[3], state[4], state[5], state[6], state[7]);
    }
  }

  /** The low four bytes of a word, PUT_UINT32 */
  function PutBytes(n: Long): (s: seq<Byte>)
    ensures |s| == 4
  {
    [n / 0x100_0000 % 0x100, n / 0x1_0000 % 0x100, n / 0x100 % 0x100, n % 0x100]
  }

  lemma PutLow(n: Long)
    ensures PutBytes(n) == BytesOf(Low(n))
  {
    var q, r := n / TWO32, n % TWO32;
    assert n == TWO32 * q + r;
    ByteKept(n, q, r, 0x100_0000, 0x100);
    ByteKept(n, q, r, 0x1_0000, 0x1_0000);
    ByteKept(n, q, r, 0x100, 0x100_0000);
    ByteKept(n, q, r, 1, TWO32);
    QuotientUnique(r / 0x100_0000, 0x100, 0, r / 0x100_0000);
  }

  /** What is above the low half does not reach the low four bytes. */
  lemma ByteKept(n: nat, q: nat, r: nat, d: nat, e: nat)
    requires d > 0 && d * e == TWO32 && e % 0x100 == 0 && n == TWO32 * q + r
    ensures n / d % 0x100 == r / d % 0x100
  {
    var a, b := r / d, r % d;
    assert r == d * a + b;
    assert n == d * (e * q + a) + b;
    QuotientUnique(n, d, e * q + a, b);
    var f := e / 0x100;
    assert e == 0x100 * f;
    assert a == 0x100 * (a / 0x100) + a % 0x100;
    assert e * q == 0x100 * (f * q);
    QuotientUnique(e * q + a, 0x100, f * q + a / 0x100, a % 0x100);
  }

  lemma DigestIs(a: Long, b: Long, c: Long, d: Long, e: Long, f: Long, g: Long, h: Long)
    ensures PutBytes(a) + PutBytes(b) + PutBytes(c) + PutBytes(d) + PutBytes(e) + PutBytes(f) + PutBytes(g) + PutBytes(h)
            == Digest(LowRegs(a, b, c, d, e, f, g, h))
  {
    hide PutBytes, BytesOf, Low;
    PutLow(a);
    PutLow(b);
    PutLow(c);
    PutLow(d);
    PutLow(e);
    PutLow(f);
    PutLow(g);
    PutLow(h);
  }

  /** The length in bits, from the two-word count of bytes */
  lemma LengthIs(n: nat, t0: Word, t1: Long)
    requires t0 == n % TWO32 && t1 == n / TWO32 % TWO64
    ensures PutBytes(LongOr(t0 / 0x2000_0000, (t1 * 8) % TWO64)) + PutBytes((t0 * 8) % TWO64) == LengthBytes(n)
  {
    hide PutBytes, BytesOf, Or;
    var high, low := LongOr(t0 / 0x2000_0000, (t1 * 8) % TWO64), (t0 * 8) % TWO64;
    HighBits(n, t0, t1);
    PutLow(high);
    PutLow(low);
  }

  lemma HighBits(n: nat, t0: Word, t1: Long)
    requires t0 == n % TWO32 && t1 == n / TWO32 % TWO64
    ensures Low(LongOr(t0 / 0x2000_0000, (t1 * 8) % TWO64)) == 8 * n / TWO32 % TWO32
    ensures Low((t0 * 8) % TWO64) == 8 * n % TWO32
  {
    hide Or;
    var q, c := n / TWO32, t0 / 0x2000_0000;
    var w := t0 % 0x2000_0000;
    assert n == TWO32 * q + t0 && t0 == 0x2000_0000 * c + w && c < 8;
    QuotientUnique(8 * n, TWO32, 8 * q + c, 8 * w);
    QuotientUnique(t0 * 8, TWO32, c, 8 * w);
    QuotientUnique(t0 * 8, TWO64, 0, t0 * 8);
    var u, v := q / TWO64, t1 * 8 / TWO64;
    assert q == TWO64 * u + t1 && t1 * 8 == TWO64 * v + (t1 * 8) % TWO64;
    var h := (t1 * 8) % TWO64;
    assert h % 8 == 0;
    OrOfThree(c, h / 8);
    OrCommutes(c, h);
    assert 8 * q + c == TWO64 * (8 * u + v) + (h + c);
    LowOfSum(8 * u + v, h + c);
  }

  lemma LowOfSum(a: nat, b: nat)
    ensures Low(TWO64 * a + b) == Low(b)
  {
    assert b == TWO32 * (b / TWO32) + b % TWO32;
    QuotientUnique(TWO64 * a + b, TWO32, TWO32 * a + b / TWO32, b % TWO32);
  }

  lemma OrOfThree(c: nat, x: nat)
    requires c < 8
    ensures Or(8 * x, c) == 8 * x + c
  {
    assert Pow(2, 3) == 8;
    OrDisjoint(x, 3, c);
  }

  lemma WholeBlocks(r: Regs, buffer: seq<Byte>, s: seq<Byte>)
    requires Absorbed(r, buffer, s, |s| % 64) && |s| % 64 == 0
    ensures r == Hash(s)
  {
    assert s[..|s|] == s;
  }

  lemma LeftSmall(r: Regs, buffer: seq<Byte>, s: seq<Byte>, left: nat)
    requires Absorbed(r, buffer, s, left)
    ensures left < 64
  {
  }

  lemma NoneScheduled(w: seq<Long>, data: seq<Byte>)
    requires |w| == 64 == |data|
    ensures Scheduled(w, data, 0)
  {
  }

  lemma WordScheduled(w: seq<Long>, data: seq<Byte>, i: nat)
    requires i < 16 && Scheduled(w, data, i)
    ensures Scheduled(w[i := GetWord(data, 4 * i)], data, i + 1)
  {
    LowOfWord(GetWord(data, 4 * i));
  }

  lemma NoRounds(r: Regs, data: seq<Byte>)
    requires |data| == 64
    ensures Rounds(r, data, 0) == r
  {
  }

  lemma AddedUp(r: Regs, data: seq<Byte>, s: seq<Long>, a: Long, b: Long, c: Long, d: Long, e: Long, f: Long,
          g: Long, h: Long)
    requires |data| == 64 && |s| == 8 && r == LowRegs(s[0], s[1], s[2], s[3], s[4], s[5], s[6], s[7])
    requires LowRegs(a, b, c, d, e, f, g, h) == Rounds(r, data, 64)
    ensures LowRegs(Add(s[0], a), Add(s[1], b), Add(s[2], c), Add(s[3], d), Add(s[4], e), Add(s[5], f), Add(s[6], g), Add(s[7], h))
            == Compress(r, data)
  {
    hide Rounds, Add, Low, Plus;
    LowAdd(s[0], a);
    LowAdd(s[1], b);
    LowAdd(s[2], c);
    LowAdd(s[3], d);
    LowAdd(s[4], e);
    LowAdd(s[5], f);
    LowAdd(s[6], g);
    LowAdd(s[7], h);
  }

  lemma OneMoreRound(r: Regs, data: seq<Byte>, t: nat)
    requires |data| == 64 && t < 64
    ensures Rounds(r, data, t + 1) == Round(Rounds(r, data, t), Constant(t), Schedule(data, t))
  {
  }

  lemma NextWordIs(w: seq<Long>, t: nat)
    requires 16 <= t < 64 == |w|
    ensures NextWord(w, t) == Add(Add(Add(S1(w[t - 2]), w[t - 7]), S0(w[t - 15])), w[t - 16])
  {
  }

  lemma ScheduledAt(w: seq<Long>, block: seq<Byte>, t: nat)
    requires t < 64 && Scheduled(w, block, if t < 16 then 16 else t + 1)
    ensures |w| == 64 && |block| == 64 && Low(w[t]) == Schedule(block, t)
    ensures Scheduled(w, block, if t + 1 < 16 then 16 else t + 1)
  {
  }

  lemma LeftIs(n: nat)
    ensures n % TWO32 % 64 == n % 64 == n - n / 64 * 64
  {
    assert n == TWO32 * (n / TWO32) + n % TWO32;
    var r := n % TWO32;
    assert r == 64 * (r / 64) + r % 64;
    QuotientUnique(n, 64, 0x400_0000 * (n / TWO32) + r / 64, r % 64);
  }

  /** The two-word count of bytes */
  lemma Counted(n: nat, length: Long, missed: nat)
    requires missed <= n / TWO32
    ensures var t0, k, q := (n % TWO32 + length) % TWO32, missed + MissedBy(n, length), n / TWO32 - missed;
      && (n + length) % TWO32 == t0 && k <= (n + length) / TWO32
      && ((n + length) / TWO32 - k) % TWO64 == (if t0 < length then (q % TWO64 + 1) % TWO64 else q % TWO64)
  {
    var q, sum := n / TWO32, n % TWO32 + length;
    assert n == TWO32 * q + n % TWO32;
    assert sum == TWO32 * (sum / TWO32) + sum % TWO32;
    QuotientUnique(n + length, TWO32, q + sum / TWO32, sum % TWO32);
    NextMod(q - missed, TWO64);
  }

  /** What the two counts amount to */
  ghost function CountOf(n: nat, missed: nat): (c: nat)
    requires missed <= n / TWO32
    ensures c == n - TWO32 * missed && c % TWO32 == n % TWO32 && c / TWO32 == n / TWO32 - missed
  {
    var c := n - TWO32 * missed;
    assert c == TWO32 * (n / TWO32 - missed) + n % TWO32;
    QuotientUnique(c, TWO32, n / TWO32 - missed, n % TWO32);
    c
  }

  lemma NextMod(q: nat, m: nat)
    requires m > 0
    ensures (q + 1) % m == (q % m + 1) % m
  {
    assert q == m * (q / m) + q % m;
    if q % m + 1 == m {
      QuotientUnique(q + 1, m, q / m + 1, 0);
      QuotientUnique(m, m, 1, 0);
    } else {
      QuotientUnique(q + 1, m, q / m, q % m + 1);
      QuotientUnique(q % m + 1, m, 0, q % m + 1);
    }
  }

  lemma HashMore(s: seq<Byte>, block: seq<Byte>)
    requires |s| % 64 == 0 && |block| == 64
    ensures |s + block| % 64 == 0 && Hash(s + block) == Compress(Hash(s), block)
  {
    assert (s + block)[..|s|] == s && (s + block)[|s|..] == block;
  }

  // ---- any pieces ----

  function Joined(pieces: seq<seq<Byte>>): seq<Byte> {
    if pieces == [] then [] else Joined(pieces[..|pieces| - 1]) + pieces[|pieces| - 1]
  }

  /** What the upper count lacks after these pieces */
  function Missed(pieces: seq<seq<Byte>>): nat {
    if pieces == [] then 0
    else
      var most := pieces[..|pieces| - 1];
      Missed(most) + MissedBy(|Joined(most)|, |pieces[|pieces| - 1]|)
  }

  lemma {:induction false} NoneMissed(pieces: seq<seq<Byte>>)
    requires forall i :: 0 <= i < |pieces| ==> |pieces[i]| < TWO32
    ensures Missed(pieces) == 0
  {
    if pieces != [] { NoneMissed(pieces[..|pieces| - 1]); }
  }

  /** The padding is that of the standard if and only if the lack is a multiple of 2^29, whose bits the length
      does not show. */
  lemma LengthRight(m: seq<Byte>, missed: nat)
    requires TWO32 * missed <= |m|
    ensures PaddedAs(m, |m| - TWO32 * missed) == Padded(m) <==> missed % 0x2000_0000 == 0
  {
    hide BytesOf;
    var n := |m|;
    var c := n - TWO32 * missed;
    var a, b, r := 8 * c / TWO32, 8 * n / TWO32, 8 * c % TWO32;
    assert 8 * c == TWO32 * a + r;
    QuotientUnique(8 * n, TWO32, a + 8 * missed, r);
    SameLow(a, missed);
    SameWord(a % TWO32, b % TWO32);
    var head := m + [0x80] + Zeros(Filler(n));
    assert PaddedAs(m, c)[|head|..] == LengthBytes(c) && Padded(m)[|head|..] == LengthBytes(n);
    FirstBytes(c);
    FirstBytes(n);
  }

  lemma FirstBytes(n: nat)
    ensures LengthBytes(n)[..4] == BytesOf(8 * n / TWO32 % TWO32)
  {
  }

  lemma SameLow(a: nat, k: nat)
    ensures (a + 8 * k) % TWO32 == a % TWO32 <==> k % 0x2000_0000 == 0
  {
    var q, j := k / 0x2000_0000, k % 0x2000_0000;
    assert k == 0x2000_0000 * q + j;
    assert a == TWO32 * (a / TWO32) + a % TWO32;
    var t := a % TWO32 + 8 * j;
    if t < TWO32 {
      QuotientUnique(a + 8 * k, TWO32, a / TWO32 + q, t);
    } else {
      QuotientUnique(a + 8 * k, TWO32, a / TWO32 + q + 1, t - TWO32);
    }
  }

  lemma FromBytesOf(w: Word)
    ensures var s := BytesOf(w); |s| == 4 && FromBytes(s[0], s[1], s[2], s[3]) == w
  {
    Digit(w, 0x100);
    Digit(w / 0x100, 0x100);
    Digit(w / 0x1_0000, 0x100);
    DivTwice(w, 0x100, 0x100);
    DivTwice(w, 0x1_0000, 0x100);
  }

  lemma Digit(x: nat, b: nat)
    requires b > 0
    ensures x == b * (x / b) + x % b
  {
  }

  lemma SameWord(v: Word, w: Word)
    ensures BytesOf(v) == BytesOf(w) <==> v == w
  {
    if BytesOf(v) == BytesOf(w) {
      FromBytesOf(v);
      FromBytesOf(w);
    }
  }

  /** The digest of any pieces: that of the standard, but for the length if the count lacks something, as it can
      only for pieces of 2^32 bytes or more. */
  method HashPieces(pieces: seq<seq<Byte>>) returns (digest: seq<Byte>)
    requires forall i :: 0 <= i < |pieces| ==> |pieces[i]| < TWO64
    ensures TWO32 * Missed(pieces) <= |Joined(pieces)|
    ensures digest == Digest(Hash(PaddedAs(Joined(pieces), |Joined(pieces)| - TWO32 * Missed(pieces))))
    ensures Missed(pieces) % 0x2000_0000 == 0 ==> digest == Sha256(Joined(pieces))
    ensures (forall i :: 0 <= i < |pieces| ==> |pieces[i]| < TWO32) ==> digest == Sha256(Joined(pieces))
  {
    hide Sha256, PaddedAs, Padded, Hash, Digest, MissedBy;
    var c := new Context();
    var i := 0;
    while i < |pieces|
      invariant i <= |pieces| && c.Valid() && c.message == Joined(pieces[..i]) && fresh(c) && fresh(c.state)
      invariant fresh(c.buffer) && c.missed == Missed(pieces[..i])
    {
      assert pieces[..i + 1][..i] == pieces[..i];
      c.Update(pieces[i]);
      i := i + 1;
    }
    assert pieces[..i] == pieces;
    digest := c.Finish();
    LengthRight(Joined(pieces), Missed(pieces));
    if forall i :: 0 <= i < |pieces| ==> |pieces[i]| < TWO32 { NoneMissed(pieces); }
    ShaIs(Joined(pieces));
  }

  lemma ShaIs(m: seq<Byte>)
    ensures Sha256(m) == Digest(Hash(Padded(m)))
  {
  }

  /** One piece of 2^33 bytes: what is hashed is not the message padded as the standard asks. */
  lemma LongPieceExample(m: seq<Byte>)
    requires |m| == 0x2_0000_0000
    ensures Missed([m]) == 1 && PaddedAs(m, |m| - TWO32) != Padded(m)
  {
    assert [m][..0] == [];
    LengthRight(m, 1);
  }
}
