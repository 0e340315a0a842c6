/** Fixed-width binary strings, their enumeration by ripple-carry counting, and Gray codes. */
module BitStrings {
  datatype Result = Ok(bits: string) | ValueError

  function Pow2(n: nat): (p: nat)
    ensures p >= 1
  {
    if n == 0 then 1 else 2 * Pow2(n - 1)
  }

  predicate IsBinary(s: string) {
    forall i :: 0 <= i < |s| ==> s[i] == '0' || s[i] == '1'
  }

  function Bit(c: char): nat {
    if c == '1' then 1 else 0
  }

  // ---------- Conversion ----------

  /** hex(i) without prefix, as digit values. */
  function HexDigits(i: nat): seq<nat> {
    if i < 16 then [i] else HexDigits(i / 16) + [i % 16]
  }

  function BitChar(b: nat): char {
    if b % 2 == 1 then '1' else '0'
  }

  /** The entries of the hex2bin table. */
  function Nibble(d: nat): string {
    [BitChar(d / 8), BitChar(d / 4), BitChar(d / 2), BitChar(d)]
  }

  function Nibbles(digits: seq<nat>): string {
    if digits == [] then "" else Nibbles(digits[..|digits| - 1]) + Nibble(digits[|digits| - 1])
  }

  /** s[:-n] and s[-n:] with Python's reading of -0. */
  function AllButLast(s: string, n: nat): string {
    if n == 0 || n >= |s| then "" else s[..|s| - n]
  }

  function LastOf(s: string, n: nat): string {
    if n == 0 || n >= |s| then s else s[|s| - n..]
  }

  function Zeros(n: nat): string {
    seq(n, _ => '0')
  }

  function Int2Bin(i: nat, n: nat): Result {
    var result := Nibbles(HexDigits(i));
    if '1' in AllButLast(result, n) then ValueError else
      var short := LastOf(result, n);
      Ok(Zeros(if n > |short| then n - |short| else 0) + short)
  }

  /** int(s, 2) for a string of binary digits. */
  function Bin2Int(s: string): nat {
    if s == "" then 0 else 2 * Bin2Int(s[..|s| - 1]) + Bit(s[|s| - 1])
  }

  lemma Double(x: nat, y: nat, z: nat)
    ensures 2 * (x * y + z) == x * (2 * y) + 2 * z
  {
  }

  lemma EmptyValue()
    ensures Bin2Int("") == 0
  {
  }

  lemma Bin2IntLast(s: string, c: char)
    ensures Bin2Int(s + [c]) == 2 * Bin2Int(s) + Bit(c)
  {
    assert (s + [c])[..|s|] == s;
  }

  lemma {:induction false} Bin2IntConcat(a: string, b: string)
    ensures Bin2Int(a + b) == Bin2Int(a) * Pow2(|b|) + Bin2Int(b)
    decreases |b|
  {
    hide Bin2Int, Bit;
    if b == "" {
      assert a + b == a;
      EmptyValue();
    } else {
      var front, c := b[..|b| - 1], b[|b| - 1];
      Bin2IntConcat(a, front);
      assert b == front + [c] && a + b == a + front + [c];
      Bin2IntLast(front, c);
      Bin2IntLast(a + front, c);
      Double(Bin2Int(a), Pow2(|front|), Bin2Int(front));
    }
  }

  lemma {:induction false} Bin2IntBound(s: string)
    ensures Bin2Int(s) < Pow2(|s|)
  {
    if s != "" { Bin2IntBound(s[..|s| - 1]); }
  }

  /** Equally long binary strings with the same value are equal. */
  lemma {:induction false} Bin2IntInjective(s: string, t: string)
    requires |s| == |t| && IsBinary(s) && IsBinary(t) && Bin2Int(s) == Bin2Int(t)
    ensures s == t
  {
    hide Bin2Int;
    if s != "" {
      var s', c, t', d := s[..|s| - 1], s[|s| - 1], t[..|t| - 1], t[|t| - 1];
      assert s == s' + [c] && t == t' + [d];
      Bin2IntLast(s', c);
      Bin2IntLast(t', d);
      Bin2IntInjective(s', t');
    }
  }

  lemma NibbleValue(d: nat)
    requires d < 16
    ensures |Nibble(d)| == 4 && IsBinary(Nibble(d)) && Bin2Int(Nibble(d)) == d
  {
    var s := Nibble(d);
    assert s[..3] == [s[0], s[1], s[2]] && s[..3][..2] == [s[0], s[1]] && s[..3][..2][..1] == [s[0]];
    assert Bin2Int([s[0]]) == Bit(s[0]);
    assert Bin2Int([s[0], s[1]]) == 2 * Bit(s[0]) + Bit(s[1]);
    assert Bin2Int([s[0], s[1], s[2]]) == 4 * Bit(s[0]) + 2 * Bit(s[1]) + Bit(s[2]);
  }

  lemma HexLast(i: nat)
    requires i >= 16
    ensures Nibbles(HexDigits(i)) == Nibbles(HexDigits(i / 16)) + Nibble(i % 16)
  {
    hide Nibble;
    assert HexDigits(i)[..|HexDigits(i)| - 1] == HexDigits(i / 16);
  }

  lemma HexOnly(i: nat)
    requires i < 16
    ensures Nibbles(HexDigits(i)) == Nibble(i)
  {
    hide Nibble;
    assert [i][..0] == [];
    assert Nibbles([i]) == "" + Nibble(i);
  }

  lemma {:induction false} HexExpansion(i: nat)
    ensures IsBinary(Nibbles(HexDigits(i))) && Bin2Int(Nibbles(HexDigits(i))) == i
    ensures |Nibbles(HexDigits(i))| >= 4
  {
    hide Nibble, Nibbles, HexDigits, Bin2Int;
    if i < 16 {
      HexOnly(i);
      NibbleValue(i);
    } else {
      HexLast(i);
      HexExpansion(i / 16);
      NibbleValue(i % 16);
      Bin2IntConcat(Nibbles(HexDigits(i / 16)), Nibble(i % 16));
      assert Pow2(4) == 16 by { assert Pow2(2) == 4; }
    }
  }

  lemma {:induction false} ZeroString(s: string)
    requires IsBinary(s)
    ensures Bin2Int(s) == 0 <==> '1' !in s
  {
    if s != "" {
      var front, c := s[..|s| - 1], s[|s| - 1];
      ZeroString(front);
      assert s == front + [c];
    }
  }

  lemma ZerosValue(n: nat, s: string)
    ensures Bin2Int(Zeros(n) + s) == Bin2Int(s) && IsBinary(Zeros(n))
  {
    ZeroString(Zeros(n));
    Bin2IntConcat(Zeros(n), s);
  }

  /** The cut and padded form of a binary string. */
  lemma FitWidth(result: string, n: nat)
    requires n > 0 && IsBinary(result)
    ensures '1' !in AllButLast(result, n) <==> Bin2Int(result) < Pow2(n)
    ensures var short := LastOf(result, n);
            var s := Zeros(if n > |short| then n - |short| else 0) + short;
            |s| == n && IsBinary(s) && ('1' !in AllButLast(result, n) ==> Bin2Int(s) == Bin2Int(result))
  {
    hide Bin2Int;
    if n >= |result| {
      Bin2IntBound(result);
      Pow2Monotone(|result|, n);
      ZerosValue(n - |result|, result);
    } else {
      var high, low := result[..|result| - n], result[|result| - n..];
      assert result == high + low;
      Bin2IntConcat(high, low);
      Bin2IntBound(low);
      ZeroString(high);
      ZerosValue(0, low);
      if Bin2Int(high) > 0 { MulAtLeast(Bin2Int(high), Pow2(n)); }
    }
  }

  /** For a positive width, exactly the values below 2^n are converted, to n digits of that value. */
  lemma Int2BinExact(i: nat, n: nat)
    requires n > 0
    ensures Int2Bin(i, n).Ok? <==> i < Pow2(n)
    ensures Int2Bin(i, n).Ok? ==>
              var s := Int2Bin(i, n).bits; |s| == n && IsBinary(s) && Bin2Int(s) == i
  {
    hide Nibbles, HexDigits, Bin2Int, AllButLast, LastOf, Zeros, IsBinary, Pow2;
    HexExpansion(i);
    FitWidth(Nibbles(HexDigits(i)), n);
  }

  lemma MulAtLeast(a: nat, b: nat)
    requires a > 0
    ensures a * b >= b
  {
  }

  lemma {:induction false} Pow2Monotone(m: nat, n: nat)
    requires m <= n
    ensures Pow2(m) <= Pow2(n)
  {
    if m < n { Pow2Monotone(m, n - 1); }
  }

  /** bin2int and int2bin undo each other on strings of a positive width. */
  lemma BinRoundTrip(s: string)
    requires s != "" && IsBinary(s)
    ensures Int2Bin(Bin2Int(s), |s|) == Ok(s)
  {
    Bin2IntBound(s);
    Int2BinExact(Bin2Int(s), |s|);
    Bin2IntInjective(s, Int2Bin(Bin2Int(s), |s|).bits);
  }

  /** Width zero checks and cuts nothing: every value comes back in full. */
  lemma ZeroWidth(i: nat)
    ensures Int2Bin(i, 0).Ok? && |Int2Bin(i, 0).bits| >= 4 && Bin2Int(Int2Bin(i, 0).bits) == i
  {
    HexExpansion(i);
    ZerosValue(0, Nibbles(HexDigits(i)));
  }

  // ---------- Counting ----------

  /** The value of a list of digits, least significant first. */
  function LowFirst(v: string): nat {
    if v == "" then 0 else Bit(v[0]) + 2 * LowFirst(v[1..])
  }

  function Reversed(v: string): string {
    if v == "" then "" else Reversed(v[1..]) + [v[0]]
  }

  lemma {:induction false} ReversedValue(v: string)
    requires IsBinary(v)
    ensures |Reversed(v)| == |v| && IsBinary(Reversed(v)) && Bin2Int(Reversed(v)) == LowFirst(v)
  {
    if v != "" {
      ReversedValue(v[1..]);
      assert Reversed(v)[..|v| - 1] == Reversed(v[1..]);
    }
  }

  lemma {:induction false} LowFirstUpdate(v: string, i: nat, c: char)
    requires i < |v|
    ensures LowFirst(v[i := c]) + Bit(v[i]) * Pow2(i) == LowFirst(v) + Bit(c) * Pow2(i)
  {
    if i > 0 {
      LowFirstUpdate(v[1..], i - 1, c);
      assert v[i := c][1..] == v[1..][i - 1 := c];
      assert Pow2(i) == 2 * Pow2(i - 1);
    } else {
      assert v[i := c][1..] == v[1..];
    }
  }

  lemma {:induction false} LowFirstBound(v: string)
    ensures LowFirst(v) < Pow2(|v|)
  {
    if v != "" { LowFirstBound(v[1..]); }
  }

  lemma {:induction false} LowFirstZeros(n: nat)
    ensures LowFirst(Zeros(n)) == 0
  {
    if n > 0 {
      assert Zeros(n)[1..] == Zeros(n - 1);
      LowFirstZeros(n - 1);
    }
  }

  /** Add one, rippling the carry upwards; the carry out of the top is returned. */
  method Increment(v0: string) returns (v: string, carry: nat)
    requires IsBinary(v0) && v0 != ""
    ensures |v| == |v0| && IsBinary(v) && carry <= 1
    ensures LowFirst(v) + carry * Pow2(|v0|) == LowFirst(v0) + 1
  {
    var bits := |v0|;
    v := v0;
    var toggle: seq<nat> := [1] + seq(bits, _ => 0);
    var i := 0;
    while i < bits && toggle[i] == 1
      invariant i <= bits && |toggle| == bits + 1 && |v| == bits && IsBinary(v)
      invariant toggle[i] <= 1
      invariant forall j :: i < j <= bits ==> toggle[j] == 0
      invariant LowFirst(v) + toggle[i] * Pow2(i) == LowFirst(v0) + 1
    {
      assert Pow2(i + 1) == 2 * Pow2(i);
      if v[i] == '0' {
        LowFirstUpdate(v, i, '1');
        v := v[i := '1'];
        toggle := toggle[i + 1 := 0];
      } else {
        LowFirstUpdate(v, i, '0');
        v := v[i := '0'];
        toggle := toggle[i + 1 := 1];
      }
      i := i + 1;
    }
    carry := toggle[bits];
  }

  /** All binary strings of the given width in counting order; nothing for width zero. */
  method BinaryRange(bits: nat) returns (l: seq<string>)
    ensures bits == 0 ==> l == []
    ensures bits > 0 ==> |l| == Pow2(bits) && forall k :: 0 <= k < |l| ==> Int2Bin(k, bits) == Ok(l[k])
  {
    hide LowFirst, Reversed, Int2Bin, Pow2, Bin2Int, IsBinary;
    l := [];
    if bits == 0 {
      return;
    }
    var v := Zeros(bits);
    var toggleTop := 0;
    CountingStart(bits);
    while toggleTop != 1
      invariant |v| == bits && IsBinary(v) && toggleTop <= 1
      invariant toggleTop == 0 ==> LowFirst(v) == |l| < Pow2(bits)
      invariant toggleTop == 1 ==> |l| == Pow2(bits)
      invariant forall k :: 0 <= k < |l| ==> Int2Bin(k, bits) == Ok(l[k])
      decreases Pow2(bits) - |l|, 1 - toggleTop
    {
      ReversedValue(v);
      BinRoundTrip(Reversed(v));
      l := l + [Reversed(v)];
      var v', carry := Increment(v);
      CountingStep(LowFirst(v), v', carry, bits);
      v, toggleTop := v', carry;
    }
  }

  lemma CountingStart(bits: nat)
    ensures LowFirst(Zeros(bits)) == 0 < Pow2(bits) && IsBinary(Zeros(bits))
  {
    LowFirstZeros(bits);
  }

  lemma CountingStep(before: nat, v: string, carry: nat, bits: nat)
    requires |v| == bits && carry <= 1 && before < Pow2(bits)
    requires LowFirst(v) + carry * Pow2(bits) == before + 1
    ensures carry == 0 ==> LowFirst(v) == before + 1 < Pow2(bits)
    ensures carry == 1 ==> before + 1 == Pow2(bits)
  {
    LowFirstBound(v);
  }

  // ---------- Gray codes ----------

  /** The exclusive or of the lowest bits. */
  function BitXor(x: nat, y: nat): (b: nat)
    ensures b < 2
  {
    if x % 2 == y % 2 then 0 else 1
  }

  /** Bitwise exclusive or. */
  function Xor(a: nat, b: nat): nat {
    if a == 0 && b == 0 then 0 else 2 * Xor(a / 2, b / 2) + BitXor(a, b)
  }

  function GrayEncode(i: nat): nat {
    Xor(i, i / 2)
  }

  /** The inverse of GrayEncode. */
  function GrayDecode(g: nat): nat {
    if g == 0 then 0 else 2 * GrayDecode(g / 2) + BitXor(g, GrayDecode(g / 2))
  }

  /** The number of binary digits in which a and b differ. */
  function Differences(a: nat, b: nat): nat {
    if a == 0 && b == 0 then 0 else Differences(a / 2, b / 2) + BitXor(a, b)
  }

  lemma Halves(a: nat, x: nat)
    requires x < 2
    ensures (2 * a + x) / 2 == a && (2 * a + x) % 2 == x
  {
  }

  lemma LowBits(a: nat, x: nat, b: nat, y: nat)
    requires x < 2 && y < 2
    ensures BitXor(2 * a + x, 2 * b + y) == BitXor(x, y) == if x == y then 0 else 1
    ensures BitXor(2 * a + x, b) == BitXor(x, b)
  {
    Halves(a, x);
    Halves(b, y);
  }

  lemma XorStep(a: nat, x: nat, b: nat, y: nat)
    requires x < 2 && y < 2
    ensures Xor(2 * a + x, 2 * b + y) == 2 * Xor(a, b) + BitXor(x, y)
  {
    hide BitXor;
    Halves(a, x);
    Halves(b, y);
    LowBits(a, x, b, y);
  }

  lemma DifferencesStep(a: nat, x: nat, b: nat, y: nat)
    requires x < 2 && y < 2
    ensures Differences(2 * a + x, 2 * b + y) == Differences(a, b) + if x == y then 0 else 1
  {
    hide BitXor;
    Halves(a, x);
    Halves(b, y);
    LowBits(a, x, b, y);
  }

  lemma DecodeStep(h: nat, x: nat)
    requires x < 2
    ensures GrayDecode(2 * h + x) == 2 * GrayDecode(h) + BitXor(x, GrayDecode(h))
  {
    hide BitXor;
    Halves(h, x);
    LowBits(h, x, GrayDecode(h), 0);
    LowBits(0, 0, 0, 0);
  }

  lemma ZeroCodes()
    ensures GrayEncode(0) == 0 && GrayDecode(0) == 0 && Differences(0, 0) == 0
  {
  }

  lemma GrayStep(m: nat, b: nat)
    requires b < 2
    ensures GrayEncode(2 * m + b) == 2 * GrayEncode(m) + BitXor(b, m)
  {
    hide Xor;
    Halves(m, b);
    XorStep(m, b, m / 2, m % 2);
    assert m == 2 * (m / 2) + m % 2;
  }

  /** Binary digit k of x. */
  function BitAt(x: nat, k: nat): (b: nat)
    ensures b < 2
  {
    if k == 0 then x % 2 else BitAt(x / 2, k - 1)
  }

  lemma BitAtStep(m: nat, b: nat, k: nat)
    requires b < 2
    ensures BitAt(2 * m + b, k) == if k == 0 then b else BitAt(m, k - 1)
  {
    Halves(m, b);
  }

  lemma BitXorBelowTwo(x: nat, m: nat)
    requires x < 2
    ensures BitXor(x, m) == BitXor(x, m % 2) && BitAt(m, 0) == m % 2
  {
  }

  /** Digit k of a code tells whether digits k and k + 1 of the number differ. */
  lemma {:induction false} GrayBits(i: nat, k: nat)
    ensures BitAt(GrayEncode(i), k) == BitXor(BitAt(i, k), BitAt(i, k + 1))
    decreases k
  {
    hide *;
    var m, b := i / 2, i % 2;
    GrayStep(m, b);
    BitAtStep(m, b, k);
    BitAtStep(m, b, k + 1);
    BitAtStep(GrayEncode(m), BitXor(b, m), k);
    assert i == 2 * m + b;
    if k == 0 {
      BitXorBelowTwo(b, m);
    } else {
      GrayBits(m, k - 1);
    }
  }

  lemma {:induction false} DifferencesSelf(a: nat)
    ensures Differences(a, a) == 0
  {
    if a > 0 { DifferencesSelf(a / 2); }
  }

  lemma XorParity(b: nat, m: nat)
    requires b < 2
    ensures BitXor(BitXor(b, m), m) == b
    ensures BitXor(0, m) != BitXor(1, m) && BitXor(1, m) == BitXor(0, m + 1)
  {
  }

  /** Successive codes differ in exactly one bit. */
  lemma {:induction false} GrayAdjacent(k: nat)
    ensures Differences(GrayEncode(k), GrayEncode(k + 1)) == 1
  {
    hide *;
    var m := k / 2;
    GrayStep(m, k % 2);
    XorParity(0, m);
    assert k == 2 * m + k % 2;
    if k % 2 == 0 {
      GrayStep(m, 1);
      DifferencesSelf(GrayEncode(m));
      DifferencesStep(GrayEncode(m), BitXor(0, m), GrayEncode(m), BitXor(1, m));
    } else {
      GrayStep(m + 1, 0);
      GrayAdjacent(m);
      DifferencesStep(GrayEncode(m), BitXor(1, m), GrayEncode(m + 1), BitXor(0, m + 1));
      assert 2 * (m + 1) + 0 == k + 1;
    }
  }

  /** Doubling: the largest value of n + 1 bits is that of n bits with a 1 appended. */
  lemma LargestValue(n: nat)
    ensures Pow2(n + 1) == 2 * Pow2(n) && Pow2(n + 1) - 1 == 2 * (Pow2(n) - 1) + 1
    ensures BitXor(1, Pow2(n) - 1) == if n == 0 then 1 else 0
  {
    if n > 0 { LowBits(0, 1, Pow2(n - 1) - 1, 1); }
  }

  /** The code of the largest value is the top bit alone. */
  lemma {:induction false} GrayTop(n: nat)
    requires n > 0
    ensures GrayEncode(Pow2(n) - 1) == Pow2(n - 1)
  {
    hide *;
    LargestValue(n - 1);
    GrayStep(Pow2(n - 1) - 1, 1);
    if n == 1 {
      PowZero();
      ZeroCodes();
    } else {
      GrayTop(n - 1);
      LargestValue(n - 2);
    }
  }

  lemma PowZero()
    ensures Pow2(0) == 1
  {
  }

  lemma {:induction false} OneBit(j: nat)
    ensures Differences(Pow2(j), 0) == 1
  {
    if j > 0 {
      OneBit(j - 1);
      DifferencesStep(Pow2(j - 1), 0, 0, 0);
    } else {
      DifferencesStep(0, 1, 0, 0);
      ZeroCodes();
    }
  }

  /** ... which is one bit away from the code of 0. */
  lemma GrayWrapsAround(n: nat)
    requires n > 0
    ensures Differences(GrayEncode(Pow2(n) - 1), GrayEncode(0)) == 1
  {
    hide *;
    GrayTop(n);
    ZeroCodes();
    OneBit(n - 1);
  }

  lemma {:induction false} DecodeEncode(i: nat)
    ensures GrayDecode(GrayEncode(i)) == i
  {
    hide *;
    ZeroCodes();
    if i > 0 {
      var m, b := i / 2, i % 2;
      DecodeEncode(m);
      GrayStep(m, b);
      DecodeStep(GrayEncode(m), BitXor(b, m));
      XorParity(b, m);
      assert i == 2 * m + b;
    }
  }

  lemma {:induction false} EncodeDecode(g: nat)
    ensures GrayEncode(GrayDecode(g)) == g
  {
    hide *;
    ZeroCodes();
    if g > 0 {
      var h, x := g / 2, g % 2;
      EncodeDecode(h);
      DecodeStep(h, x);
      var high := GrayDecode(h);
      GrayStep(high, BitXor(x, high));
      XorParity(x, high);
      assert g == 2 * h + x;
    }
  }

  lemma {:induction false} GrayRange(i: nat, n: nat)
    ensures i < Pow2(n) <==> GrayEncode(i) < Pow2(n)
    decreases n
  {
    hide GrayEncode, GrayDecode;
    ZeroCodes();
    if n > 0 {
      GrayRange(i / 2, n - 1);
      GrayStep(i / 2, i % 2);
      assert i == 2 * (i / 2) + i % 2;
    } else {
      DecodeEncode(i);
    }
  }

  /** The code of i and the cyclically next one differ in exactly one bit. */
  ghost predicate OneBitStep(i: nat, n: nat) {
    Differences(GrayEncode(i), GrayEncode(if i + 1 == Pow2(n) then 0 else i + 1)) == 1
  }

  /**
   * Encoding the values 0 .. 2^n - 1 in order permutes them, and cyclically adjacent codes differ
   * in exactly one bit.
   */
  lemma GrayCodeCycle(n: nat)
    requires n > 0
    ensures forall i :: 0 <= i < Pow2(n) ==> GrayEncode(i) < Pow2(n) && GrayDecode(GrayEncode(i)) == i
    ensures forall g :: 0 <= g < Pow2(n) ==> GrayDecode(g) < Pow2(n) && GrayEncode(GrayDecode(g)) == g
    ensures forall i :: 0 <= i < Pow2(n) ==> OneBitStep(i, n)
  {
    hide GrayEncode, GrayDecode, Pow2, Differences;
    forall i | 0 <= i < Pow2(n)
      ensures GrayEncode(i) < Pow2(n) && GrayDecode(GrayEncode(i)) == i
    {
      GrayRange(i, n);
      DecodeEncode(i);
    }
    forall g | 0 <= g < Pow2(n)
      ensures GrayDecode(g) < Pow2(n) && GrayEncode(GrayDecode(g)) == g
    {
      EncodeDecode(g);
      GrayRange(GrayDecode(g), n);
    }
    forall i | 0 <= i < Pow2(n)
      ensures OneBitStep(i, n)
    {
      GrayAdjacent(i);
      if i + 1 == Pow2(n) { GrayWrapsAround(n); }
    }
  }

  /** The Gray codes along a counting list are a permutation of its values, one bit apart. */
  lemma GrayAlongRange(l: seq<string>, bits: nat)
    requires bits > 0 && |l| == Pow2(bits)
    requires forall k :: 0 <= k < |l| ==> Int2Bin(k, bits) == Ok(l[k])
    ensures forall k :: 0 <= k < |l| ==> Bin2Int(l[k]) == k && GrayEncode(Bin2Int(l[k])) < Pow2(bits)
    ensures forall j, k :: 0 <= j < k < |l| ==> GrayEncode(Bin2Int(l[j])) != GrayEncode(Bin2Int(l[k]))
    ensures forall k :: 0 <= k < |l| ==> OneBitStep(Bin2Int(l[k]), bits)
  {
    hide GrayEncode, GrayDecode, Pow2, Bin2Int, Int2Bin, OneBitStep;
    GrayCodeCycle(bits);
    forall k | 0 <= k < |l|
      ensures Bin2Int(l[k]) == k
    {
      Int2BinExact(k, bits);
    }
    forall j, k | 0 <= j < k < |l|
      ensures GrayEncode(Bin2Int(l[j])) != GrayEncode(Bin2Int(l[k]))
    {
      assert GrayDecode(GrayEncode(j)) == j && GrayDecode(GrayEncode(k)) == k;
    }
  }
}
