// CID text to bytes (proofs/src/model_trace.rs).

module CidBase32 {
  import opened Text

  // ----- Bits -----

  type Bits = seq<nat>

  predicate AreBits(b: Bits)
  {
    forall i :: 0 <= i < |b| ==> b[i] < 2
  }

  function Pow2(n: nat): (p: nat)
    ensures p > 0
  {
    if n == 0 then 1 else 2 * Pow2(n - 1)
  }

  // The low `n` bits of `x`, most significant first.
  function ToBits(x: nat, n: nat): (b: Bits)
    ensures |b| == n && AreBits(b)
  {
    if n == 0 then [] else ToBits(x / 2, n - 1) + [x % 2]
  }

  function FromBits(b: Bits): nat
  {
    if b == [] then 0 else 2 * FromBits(b[..|b| - 1]) + b[|b| - 1]
  }

  lemma {:induction false} FromToBits(x: nat, n: nat)
    requires x < Pow2(n)
    ensures FromBits(ToBits(x, n)) == x
  {
    if n > 0 {
      FromToBits(x / 2, n - 1);
      assert ToBits(x, n)[..n - 1] == ToBits(x / 2, n - 1);
    }
  }

  lemma {:induction false} ToFromBits(b: Bits)
    requires AreBits(b)
    ensures FromBits(b) < Pow2(|b|) && ToBits(FromBits(b), |b|) == b
  {
    if b != [] {
      var n := |b| - 1;
      ToFromBits(b[..n]);
      PushBit(FromBits(b[..n]), n, b[n]);
      assert b == b[..n] + [b[n]];
    }
  }

  lemma {:induction false} PushBit(x: nat, n: nat, bit: nat)
    requires x < Pow2(n) && bit < 2
    ensures 2 * x + bit < Pow2(n + 1) && ToBits(2 * x + bit, n + 1) == ToBits(x, n) + [bit]
  {
    assert (2 * x + bit) / 2 == x && (2 * x + bit) % 2 == bit;
  }

  function Shl(x: nat, k: nat): nat
  {
    if k == 0 then x else 2 * Shl(x, k - 1)
  }

  lemma {:induction false} ShlIsTimes(x: nat, k: nat)
    ensures Shl(x, k) == x * Pow2(k)
  {
    if k > 0 {
      ShlIsTimes(x, k - 1);
      TimesTwo(x, Pow2(k - 1));
    }
  }

  lemma TimesTwo(x: nat, y: nat)
    ensures x * (2 * y) == 2 * (x * y)
  {
  }

  // Shifting `v` in below `x` appends its bits.
  lemma {:induction false} ShiftIn(x: nat, n: nat, v: nat, k: nat)
    requires v < Pow2(k)
    ensures ToBits(Shl(x, k) + v, n + k) == ToBits(x, n) + ToBits(v, k)
  {
    if k == 0 {
      assert ToBits(x, n) + [] == ToBits(x, n);
    } else {
      ShiftIn(x, n, v / 2, k - 1);
      assert (Shl(x, k) + v) / 2 == Shl(x, k - 1) + v / 2 && (Shl(x, k) + v) % 2 == v % 2;
      Associate(ToBits(x, n), ToBits(v / 2, k - 1), [v % 2]);
    }
  }

  lemma Associate(a: Bits, b: Bits, c: Bits)
    ensures a + b + c == a + (b + c)
  {
  }

  // ----- Bytes and symbols as bits -----

  predicate AreBytes(s: Bytes)
  {
    forall i :: 0 <= i < |s| ==> (s[i] as int) < 256
  }

  function ByteBits(s: Bytes): Bits
  {
    if s == [] then [] else ByteBits(s[..|s| - 1]) + ToBits(s[|s| - 1] as int, 8)
  }

  // The alphabet of base32, in lower case: table 3 in section 6 of RFC 4648.
  const ALPHABET := "abcdefghijklmnopqrstuvwxyz234567"

  predicate IsSymbol(c: char)
  {
    'a' <= c <= 'z' || '2' <= c <= '7'
  }

  function ValueOf(c: char): (v: nat)
    requires IsSymbol(c)
    ensures v < 32
  {
    if 'a' <= c <= 'z' then c as int - 'a' as int else c as int - '2' as int + 26
  }

  function SymbolOf(v: nat): (c: char)
    requires v < 32
    ensures IsSymbol(c) && ValueOf(c) == v
  {
    ALPHABET[v]
  }

  // The decoder's ranges and offsets read the table, and nothing else.
  lemma AlphabetIsTheTable(c: char)
    ensures IsSymbol(c) <==> c in ALPHABET
    ensures IsSymbol(c) ==> ALPHABET[ValueOf(c)] == c
  {
    if IsSymbol(c) { assert SymbolOf(ValueOf(c)) == c; }
  }

  predicate AreSymbols(s: Bytes)
  {
    forall i :: 0 <= i < |s| ==> IsSymbol(s[i])
  }

  function SymbolBits(s: Bytes): Bits
    requires AreSymbols(s)
  {
    if s == [] then [] else SymbolBits(s[..|s| - 1]) + ToBits(ValueOf(s[|s| - 1]), 5)
  }

  // ----- The reference: read off fives, cut into eights -----

  // The whole bytes of a bit string; trailing bits that fill no byte drop out.
  function WholeBytes(b: Bits): Bytes
    requires AreBits(b)
  {
    if |b| < 8 then []
    else
      ToFromBits(b[..8]);
      assert Pow2(8) == 256 by { assert Pow2(4) == 2 * (2 * (2 * (2 * Pow2(0)))); }
      [FromBits(b[..8]) as char] + WholeBytes(b[8..])
  }

  lemma {:induction false} SymbolBitsAreBits(s: Bytes)
    requires AreSymbols(s)
    ensures AreBits(SymbolBits(s)) && |SymbolBits(s)| == 5 * |s|
  {
    if s != [] { SymbolBitsAreBits(s[..|s| - 1]); }
  }

  lemma {:induction false} ByteBitsAreBits(s: Bytes)
    ensures AreBits(ByteBits(s)) && |ByteBits(s)| == 8 * |s|
  {
    if s != [] { ByteBitsAreBits(s[..|s| - 1]); }
  }

  // A CID's bytes: base32 after a leading `b`; any other text stands for itself.
  function CidBytes(cid: Bytes): Bytes
  {
    if cid != [] && cid[0] == 'b' && AreSymbols(cid[1..]) then
      SymbolBitsAreBits(cid[1..]);
      WholeBytes(SymbolBits(cid[1..]))
    else cid
  }

  // What is not base32 after a leading `b` is its own bytes.
  lemma OtherTextStands(cid: Bytes)
    ensures !("b" <= cid && forall i :: 1 <= i < |cid| ==> cid[i] in ALPHABET) ==> CidBytes(cid) == cid
  {
    if "b" <= cid && AreSymbols(cid[1..]) {
      forall i | 1 <= i < |cid| ensures cid[i] in ALPHABET {
        assert cid[i] == cid[1..][i - 1];
        AlphabetIsTheTable(cid[i]);
      }
    }
  }

  lemma ByteBitsFirst(s: Bytes)
    requires s != []
    ensures ByteBits(s) == ToBits(s[0] as int, 8) + ByteBits(s[1..])
    decreases |s|
  {
    var n := |s| - 1;
    if n == 0 {
      assert s[..0] == [] && s[1..] == [];
    } else {
      ByteBitsFirst(s[..n]);
      assert s[..n][1..] == s[1..][..n - 1] && s[1..][n - 1] == s[n];
      Associate(ToBits(s[0] as int, 8), ByteBits(s[1..][..n - 1]), ToBits(s[n] as int, 8));
    }
  }

  lemma {:induction false} WholeByteFirst(c: char, rest: Bits)
    requires c as int < 256 && AreBits(rest)
    ensures AreBits(ToBits(c as int, 8) + rest) && WholeBytes(ToBits(c as int, 8) + rest) == [c] + WholeBytes(rest)
  {
    var all := ToBits(c as int, 8) + rest;
    assert Pow2(8) == 256 by { assert Pow2(4) == 2 * (2 * (2 * (2 * Pow2(0)))); }
    FromToBits(c as int, 8);
    assert all[..8] == ToBits(c as int, 8) && all[8..] == rest;
  }

  // Bytes come back from their bits, whatever fewer than eight bits follow.
  lemma {:induction false} WholeBytesOf(s: Bytes, rest: Bits)
    requires AreBytes(s) && AreBits(rest) && |rest| < 8
    ensures AreBits(ByteBits(s) + rest) && WholeBytes(ByteBits(s) + rest) == s
  {
    ByteBitsAreBits(s);
    if s != [] {
      ByteBitsFirst(s);
      WholeBytesOf(s[1..], rest);
      Associate(ToBits(s[0] as int, 8), ByteBits(s[1..]), rest);
      WholeByteFirst(s[0], ByteBits(s[1..]) + rest);
      assert s == [s[0]] + s[1..];
    }
  }

  // ----- The decoder -----

  const U32_SIZE := 0x1_0000_0000

  // `cid_bytes`, with a 32-bit buffer. The buffer holds fewer than eight bits
  // between symbols and stays below 2^12, so neither the shift nor the cast to
  // a byte loses anything, and the result is the reference's.
  method DecodeCid(cid: Bytes) returns (bytes: Bytes)
    ensures bytes == CidBytes(cid)
    ensures !("b" <= cid && forall i :: 1 <= i < |cid| ==> cid[i] in ALPHABET) ==> bytes == cid
  {
    OtherTextStands(cid);
    if cid == [] || cid[0] != 'b' { return cid; }
    var body := cid[1..];
    bytes := [];
    var buffer: nat, bits: nat := 0, 0;
    for n := 0 to |body|
      invariant Decoding(body[..n], bytes, buffer, bits) && bits < 8
    {
      var symbol := body[n];
      if !IsSymbol(symbol) {
        assert !AreSymbols(body);
        return cid;
      }
      assert body[..n + 1] == body[..n] + [symbol];
      bytes, buffer, bits := DecodeSymbol(body[..n], bytes, buffer, bits, symbol);
    }
    assert body[..|body|] == body;
    Decoded(cid, bytes, buffer, bits);
  }

  // One turn of the loop: five bits in, and a byte out once there is one.
  method DecodeSymbol(ghost read: Bytes, bytesBefore: Bytes, bufferBefore: nat, bitsBefore: nat, symbol: char)
    returns (bytes: Bytes, buffer: nat, bits: nat)
    requires Decoding(read, bytesBefore, bufferBefore, bitsBefore) && bitsBefore < 8 && IsSymbol(symbol)
    ensures Decoding(read + [symbol], bytes, buffer, bits) && bits < 8
  {
    ShiftSymbol(read, bytesBefore, bufferBefore, bitsBefore, symbol);
    bytes := bytesBefore;
    buffer := ShiftLeft(bufferBefore, ValueOf(symbol));
    bits := bitsBefore + 5;
    if bits >= 8 {
      bits := bits - 8;
      var high, low := ShiftOut(buffer, bits);
      TakeByte(read + [symbol], bytes, buffer, bits, high, low);
      bytes := bytes + [high as char];
      buffer := low;
    }
  }

  // What is left in the buffer is too little for a byte.
  lemma {:induction false} Decoded(cid: Bytes, bytes: Bytes, buffer: nat, bits: nat)
    requires cid != [] && cid[0] == 'b' && Decoding(cid[1..], bytes, buffer, bits) && bits < 8
    ensures bytes == CidBytes(cid)
  {
    WholeBytesOf(bytes, ToBits(buffer, bits));
  }

  function Wrapped(x: nat): (r: nat)
    ensures x < U32_SIZE ==> r == x
  {
    x % U32_SIZE
  }

  // Bitwise or.
  function Or(x: nat, y: nat): nat
    decreases x + y
  {
    if x == 0 && y == 0 then 0 else 2 * Or(x / 2, y / 2) + if x % 2 == 1 || y % 2 == 1 then 1 else 0
  }

  lemma {:induction false} OrZero(x: nat)
    ensures Or(x, 0) == x
  {
    if x > 0 { OrZero(x / 2); }
  }

  // Into cleared low bits, or is addition.
  lemma {:induction false} OrIntoCleared(x: nat, k: nat, y: nat)
    requires y < Pow2(k)
    ensures Or(Shl(x, k), y) == Shl(x, k) + y
    decreases k
  {
    if k == 0 {
      OrZero(x);
    } else {
      OrIntoCleared(x, k - 1, y / 2);
      OrStep(Shl(x, k - 1), y);
    }
  }

  lemma {:induction false} OrStep(a: nat, y: nat)
    ensures Or(2 * a, y) == 2 * Or(a, y / 2) + y % 2
  {
    assert 2 * a / 2 == a && 2 * a % 2 == 0;
  }

  lemma {:induction false} OrFive(x: nat, moved: nat, y: nat)
    requires y < 32 && moved == 32 * x
    ensures Or(moved, y) == moved + y
  {
    assert Shl(x, 1) == 2 * x;
    assert Shl(x, 2) == 4 * x;
    assert Shl(x, 3) == 8 * x;
    assert Shl(x, 4) == 16 * x;
    assert Shl(x, 5) == moved;
    assert Pow2(5) == 32 by { Pow2Values(); }
    OrIntoCleared(x, 5, y);
  }

  // `(buffer << 5) | value` in 32 bits.
  method ShiftLeft(buffer: nat, value: nat) returns (shifted: nat)
    requires buffer * 32 + value < 4096 && value < 32
    ensures shifted == buffer * 32 + value
  {
    var moved := Wrapped(32 * buffer);
    OrFive(buffer, moved, value);
    shifted := Or(moved, value);
  }

  // `(buffer >> bits) as u8` and `buffer & ((1 << bits) - 1)`.
  method ShiftOut(buffer: nat, bits: nat) returns (high: nat, low: nat)
    requires buffer < Pow2(bits + 8)
    ensures high < 256 && low < Pow2(bits) && ToBits(buffer, bits + 8) == ToBits(high, 8) + ToBits(low, bits)
  {
    Pow2Byte(bits);
    high, low := CutByte(buffer, Pow2(bits));
    CutBits(buffer, bits, high, low);
  }

  lemma Pow2Byte(bits: nat)
    ensures Pow2(bits + 8) == 256 * Pow2(bits)
  {
    Pow2Values();
    Pow2Adds(bits, 8);
  }

  lemma CutBits(x: nat, bits: nat, high: nat, low: nat)
    requires high < 256 && low < Pow2(bits) && x == high * Pow2(bits) + low
    ensures ToBits(x, bits + 8) == ToBits(high, 8) + ToBits(low, bits)
  {
    ShiftIn(high, 8, low, bits);
    ShlIsTimes(high, bits);
  }

  method CutByte(x: nat, p: nat) returns (high: nat, low: nat)
    requires p > 0 && x < 256 * p
    ensures high < 256 && low < p && x == high * p + low
  {
    Divide(x, p);
    high, low := x / p, x % p;
    ByteCast(high);
    high := high % 256;
  }

  lemma ByteCast(x: nat)
    requires x < 256
    ensures x % 256 == x
  {
  }

  // The symbols read so far are the bytes written and the bits still held.
  predicate Decoding(read: Bytes, bytes: Bytes, buffer: nat, bits: nat)
  {
    && AreSymbols(read) && AreBytes(bytes) && buffer < Pow2(bits)
    && SymbolBits(read) == ByteBits(bytes) + ToBits(buffer, bits)
  }

  lemma ShiftSymbol(read: Bytes, bytes: Bytes, buffer: nat, bits: nat, symbol: char)
    requires Decoding(read, bytes, buffer, bits) && bits < 8 && IsSymbol(symbol)
    ensures buffer * 32 + ValueOf(symbol) < 4096
    ensures Decoding(read + [symbol], bytes, buffer * 32 + ValueOf(symbol), bits + 5)
  {
    var v := ValueOf(symbol);
    BufferIsSmall(buffer, bits, v);
    ShiftIn(buffer, bits, v, 5);
    ShlIsTimes(buffer, 5);
    OneMoreSymbol(read, symbol);
    Associate(ByteBits(bytes), ToBits(buffer, bits), ToBits(v, 5));
  }

  lemma OneMoreSymbol(read: Bytes, symbol: char)
    requires AreSymbols(read) && IsSymbol(symbol)
    ensures AreSymbols(read + [symbol]) && SymbolBits(read + [symbol]) == SymbolBits(read) + ToBits(ValueOf(symbol), 5)
  {
    assert (read + [symbol])[..|read|] == read;
  }

  lemma OneMoreByte(bytes: Bytes, byte: nat)
    requires byte < 256
    ensures ByteBits(bytes + [byte as char]) == ByteBits(bytes) + ToBits(byte, 8)
  {
    assert (bytes + [byte as char])[..|bytes|] == bytes;
  }

  lemma TakeByte(read: Bytes, bytes: Bytes, buffer: nat, bits: nat, high: nat, low: nat)
    requires Decoding(read, bytes, buffer, bits + 8)
    requires high < 256 && low < Pow2(bits) && ToBits(buffer, bits + 8) == ToBits(high, 8) + ToBits(low, bits)
    ensures Decoding(read, bytes + [high as char], low, bits)
  {
    OneMoreByte(bytes, high);
    Associate(ByteBits(bytes), ToBits(high, 8), ToBits(low, bits));
  }

  lemma Pow2Values()
    ensures Pow2(5) == 32 && Pow2(7) == 128 && Pow2(8) == 256 && Pow2(12) == 4096
  {
    assert Pow2(4) == 2 * (2 * (2 * (2 * Pow2(0))));
    assert Pow2(8) == 2 * (2 * (2 * (2 * Pow2(4))));
  }

  lemma {:induction false} Pow2Grows(a: nat, b: nat)
    requires a <= b
    ensures Pow2(a) <= Pow2(b)
  {
    if a < b { Pow2Grows(a, b - 1); }
  }

  lemma {:induction false} Pow2Adds(a: nat, b: nat)
    ensures Pow2(a + b) == Pow2(a) * Pow2(b)
  {
    if b > 0 {
      Pow2Adds(a, b - 1);
      TimesTwo(Pow2(a), Pow2(b - 1));
    }
  }

  lemma BufferIsSmall(buffer: nat, bits: nat, value: nat)
    requires bits < 8 && buffer < Pow2(bits) && value < 32
    ensures Pow2(5) == 32 && buffer * 32 + value < 4096 && buffer * 32 + value < Pow2(bits + 5)
  {
    Pow2Values();
    Pow2Grows(bits, 7);
    Pow2Adds(bits, 5);
    assert (buffer + 1) * 32 <= Pow2(bits) * 32;
  }

  lemma Divide(x: nat, p: nat)
    requires p > 0 && x < 256 * p
    ensures x / p < 256 && x % p < p && x == (x / p) * p + x % p
  {
  }

  // ----- Base32, encoded -----

  function Zeros(n: nat): (b: Bits)
    ensures |b| == n && AreBits(b)
  {
    seq(n, _ => 0)
  }

  // The symbols of a bit string, the last one padded with zero bits.
  function Symbols(b: Bits): (s: Bytes)
    requires AreBits(b)
  {
    if b == [] then []
    else if |b| < 5 then [Five(b + Zeros(5 - |b|))]
    else [Five(b[..5])] + Symbols(b[5..])
  }

  function Five(b: Bits): (c: char)
    requires AreBits(b) && |b| == 5
    ensures IsSymbol(c) && ToBits(ValueOf(c), 5) == b
  {
    ToFromBits(b);
    Pow2Values();
    SymbolOf(FromBits(b))
  }

  function Base32(s: Bytes): Bytes
  {
    ByteBitsAreBits(s);
    Symbols(ByteBits(s))
  }

  lemma {:induction false} SymbolBitsFirst(c: char, s: Bytes)
    requires IsSymbol(c) && AreSymbols(s)
    ensures AreSymbols([c] + s) && SymbolBits([c] + s) == ToBits(ValueOf(c), 5) + SymbolBits(s)
  {
    var t := [c] + s;
    var n := |t| - 1;
    if s == [] {
      assert t[..0] == [] && t[0] == c;
      assert SymbolBits(t) == [] + ToBits(ValueOf(c), 5);
    } else {
      SymbolBitsFirst(c, s[..|s| - 1]);
      assert t[..n] == [c] + s[..|s| - 1] && t[n] == s[|s| - 1];
      Associate(ToBits(ValueOf(c), 5), SymbolBits(s[..|s| - 1]), ToBits(ValueOf(t[n]), 5));
    }
  }

  predicate Keeps(b: Bits, pad: nat)
    requires AreBits(b)
  {
    AreSymbols(Symbols(b)) && SymbolBits(Symbols(b)) == b + Zeros(pad)
  }

  // Encoding keeps the bits and adds fewer than five zeros.
  lemma {:induction false} SymbolsKeepBits(b: Bits) returns (pad: nat)
    requires AreBits(b)
    ensures pad < 5 && AreSymbols(Symbols(b)) && SymbolBits(Symbols(b)) == b + Zeros(pad)
    decreases |b|
  {
    pad := KeptBits(b);
  }

  lemma {:induction false} KeptBits(b: Bits) returns (pad: nat)
    requires AreBits(b)
    ensures pad < 5 && Keeps(b, pad)
    decreases |b|
  {
    if b == [] {
      pad := 0;
      assert b + Zeros(0) == [];
    } else if |b| < 5 {
      pad := 5 - |b|;
      LastSymbol(b, pad);
    } else {
      pad := KeptBits(b[5..]);
      FirstSymbol(b, pad);
    }
  }

  lemma {:induction false} LastSymbol(b: Bits, pad: nat)
    requires AreBits(b) && b != [] && 0 < pad && |b| + pad == 5
    ensures Keeps(b, pad)
  {
    var c := Five(b + Zeros(pad));
    SymbolBitsFirst(c, []);
    assert [c] + [] == [c];
  }

  lemma {:induction false} FirstSymbol(b: Bits, pad: nat)
    requires AreBits(b) && |b| >= 5 && Keeps(b[5..], pad)
    ensures Keeps(b, pad)
  {
    SymbolBitsFirst(Five(b[..5]), Symbols(b[5..]));
    assert b[..5] + (b[5..] + Zeros(pad)) == b + Zeros(pad);
  }

  // The decoder inverts lower-case unpadded base32 for every byte string.
  lemma DecodeInvertsBase32(s: Bytes)
    requires AreBytes(s)
    ensures CidBytes("b" + Base32(s)) == s
  {
    ByteBitsAreBits(s);
    var pad := SymbolsKeepBits(ByteBits(s));
    assert ("b" + Base32(s))[1..] == Base32(s);
    WholeBytesOf(s, Zeros(pad));
  }

  // ----- The same as numbers -----

  // Bytes, and base32 digits, as one number, most significant first.
  function Base256Number(s: Bytes): nat
  {
    if s == [] then 0 else 256 * Base256Number(s[..|s| - 1]) + s[|s| - 1] as int
  }

  function Base32Number(digits: seq<nat>): nat
  {
    if digits == [] then 0 else 32 * Base32Number(digits[..|digits| - 1]) + digits[|digits| - 1]
  }

  predicate AreDigits(digits: seq<nat>)
  {
    forall i :: 0 <= i < |digits| ==> digits[i] < 32
  }

  // The digits, written out.
  function Written(digits: seq<nat>): (s: Bytes)
    requires AreDigits(digits)
    ensures |s| == |digits|
  {
    seq(|digits|, i requires 0 <= i < |digits| => ALPHABET[digits[i]])
  }

  lemma {:induction false} FromBitsJoin(a: Bits, b: Bits)
    ensures FromBits(a + b) == Shl(FromBits(a), |b|) + FromBits(b)
  {
    if b == [] {
      assert a + b == a;
    } else {
      var n := |b| - 1;
      FromBitsJoin(a, b[..n]);
      assert (a + b)[..|a| + n] == a + b[..n];
    }
  }

  lemma {:induction false} ShlValues(x: nat)
    ensures Shl(x, 5) == 32 * x && Shl(x, 8) == 256 * x
  {
    assert Shl(x, 2) == 2 * Shl(x, 1) && Shl(x, 1) == 2 * x;
    assert Shl(x, 4) == 2 * Shl(x, 3) && Shl(x, 3) == 2 * Shl(x, 2);
    assert Shl(x, 6) == 2 * Shl(x, 5) && Shl(x, 5) == 2 * Shl(x, 4);
    assert Shl(x, 8) == 2 * Shl(x, 7) && Shl(x, 7) == 2 * Shl(x, 6);
  }

  lemma {:induction false} JoinByte(a: Bits, byte: nat)
    requires byte < 256
    ensures FromBits(a + ToBits(byte, 8)) == 256 * FromBits(a) + byte
  {
    assert Pow2(8) == 256 by { Pow2Values(); }
    FromToBits(byte, 8);
    FromBitsJoin(a, ToBits(byte, 8));
    ShlValues(FromBits(a));
  }

  lemma {:induction false} JoinDigit(a: Bits, digit: nat)
    requires digit < 32
    ensures FromBits(a + ToBits(digit, 5)) == 32 * FromBits(a) + digit
  {
    assert Pow2(5) == 32 by { Pow2Values(); }
    FromToBits(digit, 5);
    FromBitsJoin(a, ToBits(digit, 5));
    ShlValues(FromBits(a));
  }

  lemma {:induction false} BytesAreANumber(s: Bytes)
    requires AreBytes(s)
    ensures FromBits(ByteBits(s)) == Base256Number(s)
  {
    if s != [] {
      var n := |s| - 1;
      BytesAreANumber(s[..n]);
      JoinByte(ByteBits(s[..n]), s[n] as int);
    }
  }

  lemma {:induction false} DigitsAreANumber(digits: seq<nat>)
    requires AreDigits(digits)
    ensures AreSymbols(Written(digits)) && FromBits(SymbolBits(Written(digits))) == Base32Number(digits)
  {
    if digits != [] {
      var n := |digits| - 1;
      DigitsAreANumber(digits[..n]);
      OneMoreDigit(digits);
      JoinDigit(SymbolBits(Written(digits[..n])), digits[n]);
    }
  }

  lemma {:induction false} OneMoreDigit(digits: seq<nat>)
    requires digits != [] && AreDigits(digits) && AreSymbols(Written(digits[..|digits| - 1]))
    ensures var s := Written(digits[..|digits| - 1]);
            && AreSymbols(Written(digits))
            && SymbolBits(Written(digits)) == SymbolBits(s) + ToBits(digits[|digits| - 1], 5)
  {
    var n := |digits| - 1;
    var s, c := Written(digits[..n]), SymbolOf(digits[n]);
    assert Written(digits) == s + [c];
    OneMoreSymbol(s, c);
  }

  // The bits are those of the whole bytes, then what fills no byte.
  ghost predicate Splits(b: Bits, whole: Bytes, rest: Bits)
  {
    AreBytes(whole) && AreBits(rest) && |rest| < 8 && b == ByteBits(whole) + rest
  }

  lemma {:induction false} WholeBytesThenRest(b: Bits) returns (rest: Bits)
    requires AreBits(b)
    ensures Splits(b, WholeBytes(b), rest)
    decreases |b|
  {
    if |b| < 8 {
      rest := b;
    } else {
      rest := WholeBytesThenRest(b[8..]);
      FirstByteSplits(b, WholeBytes(b[8..]), rest);
    }
  }

  lemma {:induction false} FirstByteSplits(b: Bits, whole: Bytes, rest: Bits)
    requires AreBits(b) && |b| >= 8 && Splits(b[8..], whole, rest)
    ensures FromBits(b[..8]) < 256 && Splits(b, [FromBits(b[..8]) as char] + whole, rest)
  {
    ToFromBits(b[..8]);
    assert Pow2(8) == 256 by { Pow2Values(); }
    var c := FromBits(b[..8]) as char;
    var all := [c] + whole;
    assert all[0] == c && all[1..] == whole;
    ByteBitsFirst(all);
    assert b == b[..8] + b[8..];
    Associate(b[..8], ByteBits(whole), rest);
  }

  // Read as a number in base 32, the text is the bytes read as a number in base
  // 256 followed by the low bits that fill no byte; and there are as many bytes
  // as the bits fill. This determines the bytes.
  lemma {:induction false} DecodesTheNumber(digits: seq<nat>) returns (low: nat)
    requires AreDigits(digits)
    ensures var bytes := CidBytes("b" + Written(digits));
            && AreBytes(bytes) && |bytes| == 5 * |digits| / 8
            && low < Pow2(5 * |digits| % 8)
            && Base32Number(digits) == Base256Number(bytes) * Pow2(5 * |digits| % 8) + low
  {
    var text := Written(digits);
    DigitsAreANumber(digits);
    SymbolBitsAreBits(text);
    assert ("b" + text)[1..] == text;
    var rest := WholeBytesThenRest(SymbolBits(text));
    var bytes := WholeBytes(SymbolBits(text));
    ByteBitsAreBits(bytes);
    BytesAreANumber(bytes);
    FromBitsJoin(ByteBits(bytes), rest);
    ShlIsTimes(Base256Number(bytes), |rest|);
    ToFromBits(rest);
    low := FromBits(rest);
  }
}
