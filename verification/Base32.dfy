/** client/src/main/ipc/crypto.ts: base32Encode and the display fingerprint built on it. */
module Base32 {
  import opened Wrappers

  const ALPHABET: string := "ABCDEFGHIJKLMNOPQRSTUVWXYZ234567"

  /** A digit of a bit string. */
  type bit = b: int | 0 <= b < 2

  type Bits = seq<bit>

  // ---- the encoding of section 6 of RFC 4648, without padding ----

  /** The low k bits of v, most significant first. */
  function BitsOf(v: nat, k: nat): (r: Bits)
    ensures |r| == k
  {
    if k == 0 then [] else BitsOf(v / 2, k - 1) + [v % 2]
  }

  function Value(bs: Bits): (v: nat)
    ensures v < Pow2(|bs|)
  {
    if bs == [] then 0 else 2 * Value(bs[..|bs| - 1]) + bs[|bs| - 1]
  }

  /** The bit string of a byte string. */
  function Stream(data: Bytes): (r: Bits)
    ensures |r| == 8 * |data|
  {
    if data == [] then [] else Stream(data[..|data| - 1]) + BitsOf(data[|data| - 1], 8)
  }

  /** 5-bit groups from the left; the last one is filled with zeros on the right. */
  function Groups(bs: Bits): (r: seq<Bits>)
    ensures |r| == (|bs| + 4) / 5
    ensures forall i :: 0 <= i < |r| ==> |r[i]| == 5
  {
    if bs == [] then []
    else if |bs| < 5 then [bs + Zeros(5 - |bs|)]
    else [bs[..5]] + Groups(bs[5..])
  }

  function Zeros(k: nat): (r: Bits)
    ensures |r| == k && forall i :: 0 <= i < k ==> r[i] == 0
  {
    seq(k, _ => 0)
  }

  function Letters(groups: seq<Bits>): (r: string)
    requires forall i :: 0 <= i < |groups| ==> |groups[i]| == 5
    ensures |r| == |groups|
    ensures forall i :: 0 <= i < |r| ==> Letter(groups[i]) == r[i]
  {
    seq(|groups|, i requires 0 <= i < |groups| => Letter(groups[i]))
  }

  function Letter(g: Bits): char
    requires |g| == 5
  {
    assert Pow2(5) == 32;
    ALPHABET[Value(g)]
  }

  function Encoding(data: Bytes): string {
    Letters(Groups(Stream(data)))
  }

  // ---- decoding ----

  function LetterIndex(c: char): (k: int)
    ensures -1 <= k < 32
    ensures k >= 0 ==> ALPHABET[k] == c
  {
    if 'A' <= c <= 'Z' then c as int - 'A' as int
    else if '2' <= c <= '7' then c as int - '2' as int + 26
    else -1
  }

  /** The bits a text stands for, with whatever the last group was filled up with. */
  function TextBits(s: string): (r: Bits)
    ensures |r| == 5 * |s|
  {
    if s == [] then []
    else BitsOf(if LetterIndex(s[0]) >= 0 then LetterIndex(s[0]) else 0, 5) + TextBits(s[1..])
  }

  function BytesOf(bs: Bits): (r: Bytes)
    ensures |r| == |bs| / 8
  {
    if |bs| < 8 then [] else [ByteOf(bs[..8])] + BytesOf(bs[8..])
  }

  function ByteOf(bs: Bits): byte
    requires |bs| == 8
  {
    assert Pow2(8) == 256;
    Value(bs)
  }

  function Decoding(s: string): Bytes {
    BytesOf(TextBits(s))
  }

  // ---- round trip ----

  lemma {:induction false} ValueBits(bs: Bits)
    ensures BitsOf(Value(bs), |bs|) == bs
  {
    if bs == [] {
    } else {
      ValueBits(bs[..|bs| - 1]);
    }
  }

  lemma {:induction false} BitsValue(v: nat, k: nat)
    requires v < Pow2(k)
    ensures Value(BitsOf(v, k)) == v
  {
    if k == 0 {
    } else {
      BitsValue(v / 2, k - 1);
      assert BitsOf(v, k)[..k - 1] == BitsOf(v / 2, k - 1);
    }
  }

  lemma LetterIndexOfLetter(g: Bits)
    requires |g| == 5
    ensures LetterIndex(Letter(g)) == Value(g)
  {
    assert Pow2(5) == 32;
    AlphabetIndex(Value(g));
  }

  lemma AlphabetIndex(v: nat)
    requires v < 32
    ensures LetterIndex(ALPHABET[v]) == v
  {
  }

  /** Reading the letters of a bit string back gives the bit string, zero-filled to whole groups. */
  lemma {:induction false} TextBitsOfLetters(bs: Bits)
    ensures |bs| <= 5 * |Groups(bs)|
    ensures TextBits(Letters(Groups(bs))) == bs + Zeros(5 * |Groups(bs)| - |bs|)
    decreases |bs|
  {
    EmptyText();
    hide TextBits, Letters, Letter;
    if bs == [] {
    } else if |bs| < 5 {
      var g := bs + Zeros(5 - |bs|);
      assert Groups(bs) == [g];
      OneLetter(g);
    } else {
      var rest := bs[5..];
      TextBitsOfLetters(rest);
      FirstLetter(bs[..5], Groups(rest));
      assert bs + Zeros(5 * |Groups(bs)| - |bs|) == bs[..5] + (rest + Zeros(5 * |Groups(rest)| - |rest|));
    }
  }

  lemma EmptyText()
    ensures TextBits(Letters([])) == []
  {
  }

  lemma FirstLetter(g: Bits, rest: seq<Bits>)
    requires |g| == 5 && forall i :: 0 <= i < |rest| ==> |rest[i]| == 5
    ensures TextBits(Letters([g] + rest)) == g + TextBits(Letters(rest))
  {
    assert Letters([g] + rest) == [Letter(g)] + Letters(rest);
    OneLetter(g);
    assert ([Letter(g)] + Letters(rest))[1..] == Letters(rest);
  }

  lemma OneLetter(g: Bits)
    requires |g| == 5
    ensures TextBits(Letters([g])) == g
    ensures BitsOf(if LetterIndex(Letter(g)) >= 0 then LetterIndex(Letter(g)) else 0, 5) == g
  {
    LetterIndexOfLetter(g);
    ValueBits(g);
    assert Letters([g]) == [Letter(g)] && [Letter(g)][1..] == [];
  }

  lemma {:induction false} StreamFromFront(data: Bytes)
    requires data != []
    ensures Stream(data) == BitsOf(data[0], 8) + Stream(data[1..])
  {
    if |data| > 1 {
      var init := data[..|data| - 1];
      StreamFromFront(init);
      assert init[1..] == data[1..][..|data| - 2];
    }
  }

  lemma {:induction false} BytesOfStream(data: Bytes, fill: nat)
    requires fill < 8
    ensures BytesOf(Stream(data) + Zeros(fill)) == data
  {
    if data == [] {
    } else {
      StreamFromFront(data);
      BytesOfStream(data[1..], fill);
      var bs := Stream(data) + Zeros(fill);
      assert bs[..8] == BitsOf(data[0], 8);
      assert bs[8..] == Stream(data[1..]) + Zeros(fill);
      assert Pow2(8) == 256;
      BitsValue(data[0], 8);
    }
  }

  /** The encoding of n bytes has ceil(8n / 5) letters, and decoding gives the bytes back. */
  lemma DecodeEncode(data: Bytes)
    ensures |Encoding(data)| == (8 * |data| + 4) / 5
    ensures Decoding(Encoding(data)) == data
  {
    var bs := Stream(data);
    TextBitsOfLetters(bs);
    BytesOfStream(data, 5 * |Groups(bs)| - |bs|);
  }

  /** No two byte strings, of equal length or not, have the same encoding. */
  lemma EncodingInjective(a: Bytes, b: Bytes)
    requires Encoding(a) == Encoding(b)
    ensures a == b
  {
    DecodeEncode(a);
    DecodeEncode(b);
  }

  // ---- the encoding letter by letter ----

  /** The i-th bit of a byte string from the left, and zeros after its end. */
  function BitAt(data: Bytes, i: nat): nat {
    if i < 8 * |data| then data[i / 8] / Pow2(7 - i % 8) % 2 else 0
  }

  lemma {:induction false} BitsAt(v: nat, k: nat, j: nat)
    requires j < k
    ensures BitsOf(v, k)[j] == v / Pow2(k - 1 - j) % 2
  {
    if j == k - 1 {
      assert Pow2(0) == 1;
    } else {
      BitsAt(v / 2, k - 1, j);
      Halves(v, Pow2(k - 2 - j));
    }
  }

  lemma Halves(v: nat, p: nat)
    requires p > 0
    ensures v / 2 / p == v / (2 * p)
  {
    var q := v / (2 * p);
    var r := v % (2 * p);
    assert v == 2 * p * q + r && 0 <= r < 2 * p;
    assert v / 2 == p * q + r / 2;
    Remainder(v / 2, p, q, r / 2);
  }

  lemma {:induction false} StreamAt(data: Bytes, i: nat)
    requires i < 8 * |data|
    ensures Stream(data)[i] == BitAt(data, i)
  {
    var n := |data| - 1;
    if i < 8 * n {
      StreamAt(data[..n], i);
    } else {
      BitsAt(data[n], 8, i - 8 * n);
      assert i / 8 == n && i % 8 == i - 8 * n;
    }
  }

  lemma {:induction false} GroupsAt(bs: Bits, k: nat, j: nat)
    requires k < |Groups(bs)| && j < 5
    ensures 5 * k + j < |bs| ==> Groups(bs)[k][j] == bs[5 * k + j]
    ensures 5 * k + j >= |bs| ==> Groups(bs)[k][j] == 0
    decreases |bs|
  {
    if |bs| >= 5 && k > 0 {
      GroupsAt(bs[5..], k - 1, j);
    }
  }

  lemma FiveBits(g: Bits)
    requires |g| == 5
    ensures Value(g) == 16 * g[0] as int + 8 * g[1] as int + 4 * g[2] as int + 2 * g[3] as int + g[4] as int
  {
    assert g[..4][..3][..2][..1][..0] == [];
    assert Value(g) == 2 * Value(g[..4]) + g[4];
    assert Value(g[..4]) == 2 * Value(g[..4][..3]) + g[3];
    assert Value(g[..4][..3]) == 2 * Value(g[..4][..3][..2]) + g[2];
    assert Value(g[..4][..3][..2]) == 2 * Value(g[..4][..3][..2][..1]) + g[1];
  }

  /** As section 6 of RFC 4648 has it: the k-th letter is that of the k-th five bits, the first the most significant. */
  lemma LettersFollowRfc(data: Bytes, k: nat)
    requires k < (8 * |data| + 4) / 5
    ensures var v := 16 * BitAt(data, 5 * k) + 8 * BitAt(data, 5 * k + 1) + 4 * BitAt(data, 5 * k + 2)
                     + 2 * BitAt(data, 5 * k + 3) + BitAt(data, 5 * k + 4);
      v < 32 && k < |Encoding(data)| && Encoding(data)[k] == "ABCDEFGHIJKLMNOPQRSTUVWXYZ234567"[v]
  {
    EncodingIs(data);
    hide Value, Stream, Groups, Encoding, BitAt, Letter;
    var groups := Groups(Stream(data));
    var g := groups[k];
    GroupBit(data, groups, k, 0);
    GroupBit(data, groups, k, 1);
    GroupBit(data, groups, k, 2);
    GroupBit(data, groups, k, 3);
    GroupBit(data, groups, k, 4);
    FiveBits(g);
    LetterAt(g);
  }

  lemma GroupBit(data: Bytes, groups: seq<Bits>, k: nat, j: nat)
    requires groups == Groups(Stream(data)) && k < |groups| && j < 5
    ensures |groups[k]| == 5 && groups[k][j] == BitAt(data, 5 * k + j)
  {
    hide *;
    var bs, i := Stream(data), 5 * k + j;
    GroupsAt(bs, k, j);
    if i < |bs| {
      StreamAt(data, i);
    } else {
      NothingAfterTheEnd(data, i);
    }
  }

  lemma NothingAfterTheEnd(data: Bytes, i: nat)
    requires i >= 8 * |data|
    ensures BitAt(data, i) == 0
  {
    hide Pow2;
  }

  // ---- the loop, over JavaScript's 32-bit integers ----

  const WORD := 0x1_0000_0000

  function ToInt32(x: int): (r: int)
    ensures -0x8000_0000 <= r < 0x8000_0000 && (r - x) % WORD == 0
  {
    if x % WORD < 0x8000_0000 then x % WORD else x % WORD - WORD
  }

  /** x << k */
  function Shl(x: int, k: nat): int { ToInt32(x % WORD * Pow2(k)) }

  /** x >>> k */
  function Ushr(x: int, k: nat): int {
    var p := Pow2(k);
    (x % WORD) / p
  }

  /** x | b where the low eight bits of x are clear */
  function OrByte(x: int, b: byte): int
    requires x % 256 == 0
  {
    x + b
  }

  lemma ShlClears(x: int)
    ensures Shl(x, 8) % 256 == 0
    ensures Shl(x, 8) % WORD == x % WORD * 256 % WORD
  {
    assert Pow2(8) == 256;
  }

  /** The accumulator, of which only the low bits matter, holds the bits not yet written. */
  ghost predicate Holds(value: int, pending: Bits) {
    |pending| <= 12 && value % Pow2(|pending|) == Value(pending)
  }

  lemma {:induction false} ValueAppend(a: Bits, b: Bits)
    ensures Value(a + b) == Value(a) * Pow2(|b|) + Value(b)
  {
    if b == [] {
      assert a + b == a;
    } else {
      var c, x := b[..|b| - 1], b[|b| - 1];
      assert (a + b)[..|a + b| - 1] == a + c && (a + b)[|a + b| - 1] == x;
      ValueAppend(a, c);
      Doubled(Value(a), Pow2(|c|), Value(c), x);
    }
  }

  lemma Doubled(a: int, p: int, c: int, x: int)
    ensures 2 * (a * p + c) + x == a * (2 * p) + (2 * c + x)
  {
  }

  lemma {:induction false} Pow2Add(a: nat, b: nat)
    ensures Pow2(a + b) == Pow2(a) * Pow2(b)
  {
    if a == 0 {
    } else {
      Pow2Add(a - 1, b);
    }
  }

  lemma WordIsPow2()
    ensures Pow2(32) == WORD && Pow2(8) == 256 && Pow2(5) == 32
  {
    Pow2Add(16, 16);
    Pow2Add(8, 8);
    assert Pow2(8) == 256;
  }

  // ---- remainders ----

  /** Reducing modulo a multiple first changes nothing. */
  lemma RemainderOfRemainder(x: int, m: int, c: int)
    requires m > 0 && c > 0 && m * c > 0
    ensures x % (m * c) % m == x % m
  {
    var u := x % (m * c);
    assert x == m * (c * (x / (m * c)) + u / m) + u % m by {
      assert x == m * c * (x / (m * c)) + u;
      assert u == m * (u / m) + u % m;
    }
    Remainder(x, m, c * (x / (m * c)) + u / m, u % m);
  }

  /** Two numbers that agree modulo a multiple of m agree modulo m. */
  lemma Congruent(x: int, y: int, m: int, c: int)
    requires m > 0 && c > 0 && m * c > 0 && x % (m * c) == y % (m * c)
    ensures x % m == y % m
  {
    RemainderOfRemainder(x, m, c);
    RemainderOfRemainder(y, m, c);
  }

  lemma AddCongruent(x: int, y: int, d: int)
    requires x % WORD == y % WORD
    ensures (x + d) % WORD == (y + d) % WORD
  {
  }

  lemma PushRemainder(u: int, m: int, d: byte)
    requires m > 0
    ensures (u * 256 + d) % (256 * m) == u % m * 256 + d
  {
    Remainder(u * 256 + d, 256 * m, u / m, u % m * 256 + d);
  }

  lemma TakeRemainder(u: int, p: int, hi: int, lo: int)
    requires p > 0 && 0 <= lo < p && 0 <= hi < 32 && u % (32 * p) == hi * p + lo
    ensures u / p % 32 == hi && u % p == lo
  {
    var a := u / (32 * p);
    assert u == 32 * p * a + (hi * p + lo);
    Remainder(u, p, 32 * a + hi, lo);
  }

  lemma FillRemainder(u: int, m: int, f: int, v: int)
    requires m > 0 && f > 0 && m * f == 32 && u % m == v
    ensures u * f % 32 == v * f
  {
    var a := u / m;
    assert u == m * a + v;
    assert u * f == 32 * a + v * f;
    assert v * f <= (m - 1) * f;
    Remainder(u * f, 32, a, v * f);
  }

  // ---- what one turn of the loop does to the pending bits ----

  lemma ModuliDivideWord(k: nat)
    requires k <= 32
    ensures Pow2(k) * Pow2(32 - k) == WORD
  {
    Pow2Add(k, 32 - k);
    WordIsPow2();
  }

  /** value = (value << 8) | byte: bits above the 32nd fall off, the pending ones do not. */
  lemma PushByte(value: int, pending: Bits, d: byte)
    requires |pending| <= 4 && Holds(value, pending)
    ensures Shl(value, 8) % 256 == 0
    ensures Holds(OrByte(Shl(value, 8), d), pending + BitsOf(d, 8))
  {
    hide Value, BitsOf, Pow2;
    var k := |pending|;
    var m, u, x := Pow2(k), value % WORD, Shl(value, 8);
    ShlClears(value);
    WordIsPow2();
    Pow2Add(k, 8);
    ModuliDivideWord(k);
    ModuliDivideWord(k + 8);
    RemainderOfRemainder(value, m, Pow2(32 - k));
    AddCongruent(x, u * 256, d);
    Congruent(x + d, u * 256 + d, Pow2(k + 8), Pow2(32 - (k + 8)));
    PushRemainder(u, m, d);
    ValueAppend(pending, BitsOf(d, 8));
    BitsValue(d, 8);
  }

  /** alphabet[(value >>> (bits - 5)) & 31] is the letter of the five oldest pending bits. */
  lemma TakeFive(value: int, pending: Bits)
    requires 5 <= |pending| && Holds(value, pending)
    ensures Ushr(value, |pending| - 5) % 32 == Value(pending[..5])
    ensures Holds(value, pending[5..])
  {
    hide Value, Pow2;
    var first, rest := pending[..5], pending[5..];
    assert pending == first + rest;
    ValueAppend(first, rest);
    WordIsPow2();
    Pow2Add(5, |rest|);
    ModuliDivideWord(|pending|);
    ModuliDivideWord(|rest|);
    RemainderOfRemainder(value, Pow2(|pending|), Pow2(32 - |pending|));
    RemainderOfRemainder(value, Pow2(|rest|), Pow2(32 - |rest|));
    TakeRemainder(value % WORD, Pow2(|rest|), Value(first), Value(rest));
  }

  /** alphabet[(value << (5 - bits)) & 31] is the letter of the last, zero-filled group. */
  lemma FillUp(value: int, pending: Bits)
    requires 1 <= |pending| <= 4 && Holds(value, pending)
    ensures Shl(value, 5 - |pending|) % 32 == Value(pending + Zeros(5 - |pending|))
  {
    hide Value, Pow2;
    var k, f := |pending|, 5 - |pending|;
    WordIsPow2();
    Pow2Add(k, f);
    ModuliDivideWord(k);
    RemainderOfRemainder(value, Pow2(k), Pow2(32 - k));
    FillRemainder(value % WORD, Pow2(k), Pow2(f), Value(pending));
    var x := value % WORD * Pow2(f);
    Congruent(ToInt32(x), x, 32, 0x800_0000);
    ValueAppend(pending, Zeros(f));
    ZerosAreNought(f);
  }

  lemma {:induction false} ZerosAreNought(k: nat)
    ensures Value(Zeros(k)) == 0
  {
    if k == 0 {
    } else {
      assert Zeros(k)[..k - 1] == Zeros(k - 1);
      ZerosAreNought(k - 1);
    }
  }

  lemma {:induction false} GroupsAppend(a: Bits, b: Bits)
    requires |a| % 5 == 0
    ensures Groups(a + b) == Groups(a) + Groups(b)
    decreases |a|
  {
    if a == [] {
      assert a + b == b;
    } else {
      assert (a + b)[..5] == a[..5] && (a + b)[5..] == a[5..] + b;
      GroupsAppend(a[5..], b);
    }
  }

  /** One more whole group, one more letter. */
  lemma LetterAdded(done: Bits, g: Bits, last: Bits)
    requires |done| % 5 == 0 && |g| == 5 && 1 <= |last| <= 5 && g == last + Zeros(5 - |last|)
    ensures Letters(Groups(done + last)) == Letters(Groups(done)) + [Letter(g)]
  {
    GroupsAppend(done, last);
    assert Groups(last) == [g] by {
      if |last| == 5 {
        assert last[..5] == g && last[5..] == [];
      }
    }
  }

  lemma LetterAt(g: Bits)
    requires |g| == 5
    ensures Value(g) < 32 == |ALPHABET| && Letter(g) == ALPHABET[Value(g)]
  {
    WordIsPow2();
  }

  lemma EmptyStart()
    ensures Holds(0, []) && Stream([]) == [] && Letters(Groups([])) == ""
  {
  }

  lemma StreamGrows(data: Bytes, i: nat)
    requires i < |data|
    ensures Stream(data[..i + 1]) == Stream(data[..i]) + BitsOf(data[i], 8)
  {
    assert data[..i + 1][..i] == data[..i];
  }

  method Base32Encode(data: Bytes) returns (result: string)
    ensures result == Encoding(data)
  {
    hide *;
    result := "";
    var bits, value := 0, 0;
    ghost var done: Bits, pending: Bits := [], [];
    EmptyStart();
    assert data[..0] == [];
    for i := 0 to |data|
      invariant 0 <= bits <= 4 && bits == |pending| && Holds(value, pending)
      invariant |done| % 5 == 0 && Stream(data[..i]) == done + pending
      invariant result == Letters(Groups(done))
    {
      PushByte(value, pending, data[i]);
      StreamGrows(data, i);
      assert done + pending + BitsOf(data[i], 8) == done + (pending + BitsOf(data[i], 8));
      value := OrByte(Shl(value, 8), data[i]);
      bits := bits + 8;
      pending := pending + BitsOf(data[i], 8);
      result, bits, done, pending := Drain(result, bits, value, done, pending);
    }
    assert data[..|data|] == data;
    EncodingIs(data);
    if bits > 0 {
      var last := pending + Zeros(5 - bits);
      FillUp(value, pending);
      LetterAt(last);
      LetterAdded(done, last, pending);
      result := result + [ALPHABET[Shl(value, 5 - bits) % 32]];
    } else {
      assert done + pending == done;
    }
  }

  lemma EncodingIs(data: Bytes)
    ensures Encoding(data) == Letters(Groups(Stream(data)))
  {
  }

  /** The inner loop: write whole groups while there are any. */
  method Drain(text: string, count: nat, value: int, ghost written: Bits, ghost unwritten: Bits)
    returns (result: string, bits: nat, ghost done: Bits, ghost pending: Bits)
    requires count == |unwritten| <= 12 && Holds(value, unwritten)
    requires |written| % 5 == 0 && text == Letters(Groups(written))
    ensures bits == |pending| <= 4 && Holds(value, pending)
    ensures |done| % 5 == 0 && done + pending == written + unwritten
    ensures result == Letters(Groups(done))
  {
    hide *;
    result, bits, done, pending := text, count, written, unwritten;
    while bits >= 5
      invariant bits == |pending| <= 12 && Holds(value, pending)
      invariant |done| % 5 == 0 && done + pending == written + unwritten
      invariant result == Letters(Groups(done))
    {
      TakeFive(value, pending);
      LetterAt(pending[..5]);
      assert pending[..5] + Zeros(0) == pending[..5];
      LetterAdded(done, pending[..5], pending[..5]);
      assert done + pending[..5] + pending[5..] == done + pending;
      result := result + [ALPHABET[Ushr(value, bits - 5) % 32]];
      bits := bits - 5;
      done, pending := done + pending[..5], pending[5..];
    }
  }

  // ---- the display fingerprint ----

  const DIGEST_SIZE := 20

  /** The first 20 letters of the encoding in groups of five. */
  function Grouped(t: string): string
    requires |t| == 20
  {
    "UNITED-" + t[..5] + "-" + t[5..10] + "-" + t[10..15] + "-" + t[15..]
  }

  /** computeFingerprint on the truncated SHA-256 of a public key. */
  method ComputeFingerprint(truncated: Bytes) returns (f: string)
    requires |truncated| == DIGEST_SIZE
    ensures f == Fingerprint(truncated)
    ensures var t := Encoding(truncated);
      |t| >= 20 && f == "UNITED-" + t[0..5] + "-" + t[5..10] + "-" + t[10..15] + "-" + t[15..20]
  {
    DecodeEncode(truncated);
    GroupedIs(Encoding(truncated));
    hide Encoding;
    var base32 := Base32Encode(truncated);
    f := Grouped(base32[..20]);
  }

  function Fingerprint(truncated: Bytes): string
    requires |truncated| == DIGEST_SIZE
  {
    Grouped(Encoding(truncated)[..20])
  }

  lemma GroupedIs(t: string)
    requires |t| >= 20
    ensures Grouped(t[..20]) == "UNITED-" + t[0..5] + "-" + t[5..10] + "-" + t[10..15] + "-" + t[15..20]
  {
    assert t[..20][..5] == t[0..5] && t[..20][5..10] == t[5..10];
    assert t[..20][10..15] == t[10..15] && t[..20][15..] == t[15..20];
  }

  lemma GroupedInjective(s: string, t: string)
    requires |s| == 20 && |t| == 20 && Grouped(s) == Grouped(t)
    ensures s == t
  {
    assert forall x: string :: |x| == 20 ==>
      && Grouped(x)[7..12] == x[..5] && Grouped(x)[13..18] == x[5..10]
      && Grouped(x)[19..24] == x[10..15] && Grouped(x)[25..] == x[15..];
    assert s == s[..5] + s[5..10] + s[10..15] + s[15..];
    assert t == t[..5] + t[5..10] + t[10..15] + t[15..];
  }

  /** The letters shown depend on the first 100 bits alone, and determine them. */
  lemma ShownLetters(data: Bytes)
    requires |data| == DIGEST_SIZE
    ensures Encoding(data)[..20] == Letters(Groups(Stream(data)[..100]))
    ensures TextBits(Encoding(data)[..20]) == Stream(data)[..100]
  {
    var bs := Stream(data);
    assert bs == bs[..100] + bs[100..];
    GroupsAppend(bs[..100], bs[100..]);
    TextBitsOfLetters(bs[..100]);
    assert bs[..100] + Zeros(0) == bs[..100];
    assert Letters(Groups(bs))[..20] == Letters(Groups(bs[..100]));
  }

  /** Two keys show the same fingerprint exactly when their digests agree on the first 100 of 160 bits. */
  lemma SameFingerprintIff(a: Bytes, b: Bytes)
    requires |a| == DIGEST_SIZE && |b| == DIGEST_SIZE
    ensures Fingerprint(a) == Fingerprint(b) <==> Stream(a)[..100] == Stream(b)[..100]
  {
    ShownLetters(a);
    ShownLetters(b);
    if Fingerprint(a) == Fingerprint(b) {
      GroupedInjective(Encoding(a)[..20], Encoding(b)[..20]);
    }
  }
}
