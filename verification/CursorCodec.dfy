/** The list cursors of pkg/apiserver/common/encrypt.go: a 64-bit key printed in decimal, padded,
    encrypted block by block and written in hexadecimal. The block cipher is any invertible one. */
module CursorCodec {
  import opened Options

  type Byte = b: int | 0 <= b < 256 witness 0
  type Bytes = seq<Byte>

  /** Panicked is a run-time panic in the middle of decoding. */
  datatype Outcome<T> = Ok(value: T) | Error | Panicked

  const BLOCK: nat := 16

  // ---- decimal numbers ----

  const INT64_MIN: int := -0x8000_0000_0000_0000
  const INT64_MAX: int := 0x7FFF_FFFF_FFFF_FFFF

  predicate IsInt64(n: int) { INT64_MIN <= n <= INT64_MAX }

  function Digits(n: nat): (s: Bytes)
    ensures s != [] && forall i | 0 <= i < |s| :: 48 <= s[i] <= 57
  {
    if n < 10 then [48 + n] else Digits(n / 10) + [48 + n % 10]
  }

  /** strconv.FormatInt(n, 10). */
  function FormatInt(n: int): Bytes { if n < 0 then [45] + Digits(-n) else Digits(n) }

  function DigitsValue(s: Bytes): Option<nat> {
    if s == [] then Some(0)
    else
      var last := s[|s| - 1];
      match DigitsValue(s[..|s| - 1])
      case None => None
      case Some(v) => if 48 <= last <= 57 then Some(10 * v + (last - 48)) else None
  }

  /** strconv.ParseInt(s, 10, 64): a sign, at least one digit, and a value in range. */
  function ParseInt(s: Bytes): Option<int> {
    var digits := if s != [] && (s[0] == 43 || s[0] == 45) then s[1..] else s;
    if digits == [] then None
    else
      match DigitsValue(digits)
      case None => None
      case Some(v) =>
        var size: int := v;
        var n := if s[0] == 45 then -size else size;
        if IsInt64(n) then Some(n) else None
  }

  lemma {:induction false} DigitsHaveTheirValue(n: nat)
    ensures DigitsValue(Digits(n)) == Some(n)
  {
    var s := Digits(n);
    if n < 10 {
      assert s[..0] == [];
    } else {
      DigitsHaveTheirValue(n / 10);
      assert s[..|s| - 1] == Digits(n / 10);
    }
  }

  lemma PrintedIsParsed(n: int)
    requires IsInt64(n)
    ensures ParseInt(FormatInt(n)) == Some(n)
  {
    DigitsHaveTheirValue(if n < 0 then -n else n);
    var s := FormatInt(n);
    if n < 0 {
      assert s[1..] == Digits(-n);
    }
  }

  function Pow10(k: nat): (p: nat)
    ensures p > 0
  {
    if k == 0 then 1 else 10 * Pow10(k - 1)
  }

  lemma TenTimes(n: nat, p: nat)
    requires p > 0
    ensures n / (10 * p) == n / 10 / p
  {
    var q := n / 10 / p;
    assert n / 10 == q * p + n / 10 % p && n == n / 10 * 10 + n % 10;
    var r := n / 10 % p * 10 + n % 10;
    assert n == q * (10 * p) + r && 0 <= r < 10 * p;
    DivUnique(n, 10 * p, q, r);
  }

  lemma DivUnique(n: nat, d: nat, q: nat, r: nat)
    requires n == q * d + r && r < d
    ensures n / d == q
  {
    var a, b := n / d, n % d;
    assert n == a * d + b && b < d;
    if a < q {
      Monotone(a + 1, q, d);
    } else if q < a {
      Monotone(q + 1, a, d);
    }
  }

  lemma Monotone(a: nat, b: nat, d: nat)
    requires a <= b
    ensures a * d <= b * d
  {
  }

  /** The k-th digit from the right is that of the number. */
  lemma {:induction false} DigitsAreDecimal(n: nat, k: nat)
    requires k < |Digits(n)|
    ensures Digits(n)[|Digits(n)| - 1 - k] == 48 + n / Pow10(k) % 10
    decreases k
  {
    if n >= 10 && k > 0 {
      var s, t := Digits(n), Digits(n / 10);
      DigitsAreDecimal(n / 10, k - 1);
      assert s[|s| - 1 - k] == t[|t| - 1 - (k - 1)];
      TenTimes(n, Pow10(k - 1));
    }
  }

  /** There are as many as the number needs, so it begins with a zero only if it is 0. */
  lemma {:induction false} NoDigitTooMany(n: nat)
    ensures n < Pow10(|Digits(n)|) && (n > 0 ==> Digits(n)[0] != 48) && (n == 0 ==> Digits(n) == [48])
  {
    if n < 10 {
      assert Pow10(1) == 10 * Pow10(0);
    } else {
      NoDigitTooMany(n / 10);
      assert n <= 10 * (n / 10) + 9 && n / 10 + 1 <= Pow10(|Digits(n / 10)|);
    }
  }

  /** The digits of a size, after a minus sign or not: the k-th from the right is that of the size, and there
      is none in front that it does not need. */
  predicate IsWritten(size: nat, minus: bool, s: Bytes, k: nat) {
    var sign := if minus then 1 else 0;
    && sign < |s| && (s[0] == 45 <==> minus)
    && (k < |s| - sign ==> s[|s| - 1 - k] == 48 + size / Pow10(k) % 10)
    && size < Pow10(|s| - sign) && (s[sign] == 48 ==> size == 0 && |s| == sign + 1)
  }

  lemma DigitsAreWritten(size: nat, k: nat)
    ensures IsWritten(size, false, Digits(size), k)
  {
    NoDigitTooMany(size);
    if k < |Digits(size)| {
      DigitsAreDecimal(size, k);
    }
  }

  lemma SignedIsWritten(size: nat, d: Bytes, k: nat)
    requires IsWritten(size, false, d, k)
    ensures IsWritten(size, true, [45] + d, k)
  {
    var s := [45] + d;
    assert k < |d| ==> s[|s| - 1 - k] == d[|d| - 1 - k];
  }

  /** FormatInt writes the size of a number in decimal, with a minus sign exactly if it is negative. */
  lemma FormatIsDecimal(n: int, k: nat)
    ensures IsWritten(if n < 0 then -n else n, n < 0, FormatInt(n), k)
  {
    if n < 0 {
      DigitsAreWritten(-n, k);
      SignedIsWritten(-n, Digits(-n), k);
    } else {
      DigitsAreWritten(n, k);
    }
  }

  predicate IsDecimal(s: Bytes) { s != [] && forall i | 0 <= i < |s| :: 48 <= s[i] <= 57 }

  lemma {:induction false} DigitsValueIff(s: Bytes)
    ensures DigitsValue(s).Some? <==> forall i | 0 <= i < |s| :: 48 <= s[i] <= 57
  {
    if s != [] {
      DigitsValueIff(s[..|s| - 1]);
      assert s == s[..|s| - 1] + [s[|s| - 1]];
    }
  }

  /** ParseInt accepts a sequence of digits after at most one sign, and nothing else, up to the range. */
  lemma ParsedIsDecimal(s: Bytes)
    ensures ParseInt(s).Some? ==>
              IsInt64(ParseInt(s).value) && (IsDecimal(s) || (s != [] && s[0] in [43, 45] && IsDecimal(s[1..])))
    ensures IsDecimal(s) && |s| <= 18 ==> ParseInt(s).Some?
  {
    var digits := if s != [] && (s[0] == 43 || s[0] == 45) then s[1..] else s;
    DigitsValueIff(digits);
    if IsDecimal(s) && |s| <= 18 {
      assert digits == s;
      DigitsValueSmall(s);
      assert Pow10(18) == 1000000000000000000 by {
        assert Pow10(9) == 1000000000;
        PowersMultiply(9, 9);
      }
      PowersGrow(|s|, 18);
    }
  }

  lemma {:induction false} DigitsValueSmall(s: Bytes)
    requires forall i | 0 <= i < |s| :: 48 <= s[i] <= 57
    ensures DigitsValue(s).Some? && DigitsValue(s).value < Pow10(|s|)
  {
    if s != [] {
      DigitsValueSmall(s[..|s| - 1]);
    }
  }

  lemma {:induction false} PowersMultiply(a: nat, b: nat)
    ensures Pow10(a + b) == Pow10(a) * Pow10(b)
  {
    if a > 0 {
      PowersMultiply(a - 1, b);
      assert Pow10(a + b) == 10 * (Pow10(a - 1) * Pow10(b)) == (10 * Pow10(a - 1)) * Pow10(b);
    }
  }

  lemma {:induction false} PowersGrow(a: nat, b: nat)
    requires a <= b
    ensures Pow10(a) <= Pow10(b)
  {
    if a < b {
      PowersGrow(a, b - 1);
    }
  }

  // ---- hexadecimal ----

  function HexDigit(d: nat): Byte
    requires d < 16
  {
    if d < 10 then 48 + d else 87 + d
  }

  function HexValue(c: Byte): Option<nat> {
    if 48 <= c <= 57 then Some(c - 48)
    else if 97 <= c <= 102 then Some(c - 87)
    else if 65 <= c <= 70 then Some(c - 55)
    else None
  }

  function HexEncode(b: Bytes): (s: Bytes)
    ensures |s| == 2 * |b|
  {
    if b == [] then [] else [HexDigit(b[0] / 16), HexDigit(b[0] % 16)] + HexEncode(b[1..])
  }

  function HexDecode(s: Bytes): Option<Bytes> {
    if s == [] then Some([])
    else if |s| == 1 then None
    else
      match HexValue(s[0])
      case None => None
      case Some(hi) =>
        match HexValue(s[1])
        case None => None
        case Some(lo) =>
          assert 0 <= hi < 16 && 0 <= lo < 16;
          match HexDecode(s[2..])
          case None => None
          case Some(rest) => Some([16 * hi + lo] + rest)
  }

  lemma {:induction false} HexRoundTrip(b: Bytes)
    ensures HexDecode(HexEncode(b)) == Some(b)
    decreases |b|
  {
    if b != [] {
      var s := HexEncode(b);
      assert s[2..] == HexEncode(b[1..]);
      HexRoundTrip(b[1..]);
      assert [b[0]] + b[1..] == b;
    }
  }

  const LOWER: string := "0123456789abcdef"
  const UPPER: string := "0123456789ABCDEF"

  lemma HexDigitIs(d: nat)
    requires d < 16
    ensures HexDigit(d) == LOWER[d] as int
  {
  }

  /** The i-th byte is written as its two hexadecimal digits, high one first and in lower case. */
  lemma {:induction false} HexIsLowerCase(b: Bytes, i: nat)
    requires i < |b|
    ensures HexEncode(b)[2 * i] == LOWER[b[i] / 16] as int && HexEncode(b)[2 * i + 1] == LOWER[b[i] % 16] as int
    decreases |b|
  {
    var s := HexEncode(b);
    if i == 0 {
      HexDigitIs(b[0] / 16);
      HexDigitIs(b[0] % 16);
    } else {
      HexIsLowerCase(b[1..], i - 1);
      assert s[2..] == HexEncode(b[1..]);
      assert s[2 * i] == s[2..][2 * (i - 1)] && s[2 * i + 1] == s[2..][2 * (i - 1) + 1];
    }
  }

  /** The digit c is worth d. */
  predicate Worth(c: Byte, d: nat) { d < 16 && (c == LOWER[d] as int || c == UPPER[d] as int) }

  lemma HexValueIs(c: Byte)
    ensures HexValue(c).Some? ==> Worth(c, HexValue(c).value)
    ensures HexValue(c).None? ==> forall d :: !Worth(c, d)
  {
  }

  ghost predicate IsHexDigit(c: Byte) { exists d :: Worth(c, d) }

  lemma HexDigitIff(c: Byte)
    ensures IsHexDigit(c) <==> HexValue(c).Some?
  {
    HexValueIs(c);
  }

  /** Digits of both cases are read, and nothing else is. */
  lemma {:induction false} HexIsReadIff(s: Bytes)
    ensures HexDecode(s).Some? <==> |s| % 2 == 0 && forall i | 0 <= i < |s| :: IsHexDigit(s[i])
    decreases |s|
  {
    if |s| >= 2 {
      HexDigitIff(s[0]);
      HexDigitIff(s[1]);
      HexIsReadIff(s[2..]);
      assert s == [s[0], s[1]] + s[2..];
      assert forall i | 0 <= i < |s[2..]| :: s[2..][i] == s[i + 2];
    }
  }

  /** Two of them give a byte. */
  lemma {:induction false} HexIsRead(s: Bytes, i: nat)
    requires HexDecode(s).Some? && i < |HexDecode(s).value|
    ensures 2 * i + 1 < |s|
    ensures Worth(s[2 * i], HexDecode(s).value[i] / 16) && Worth(s[2 * i + 1], HexDecode(s).value[i] % 16)
    decreases |s|
  {
    FirstIsRead(s);
    if i > 0 {
      var b := HexDecode(s).value;
      HexIsRead(s[2..], i - 1);
      assert b[i] == b[1..][i - 1] && s[2 * i] == s[2..][2 * (i - 1)] && s[2 * i + 1] == s[2..][2 * (i - 1) + 1];
    }
  }

  lemma FirstIsRead(s: Bytes)
    requires HexDecode(s).Some? && HexDecode(s).value != []
    ensures |s| >= 2 && HexDecode(s[2..]) == Some(HexDecode(s).value[1..])
    ensures Worth(s[0], HexDecode(s).value[0] / 16) && Worth(s[1], HexDecode(s).value[0] % 16)
  {
    FirstIsSum(s);
    HexValueIs(s[0]);
    HexValueIs(s[1]);
  }

  lemma FirstIsSum(s: Bytes)
    requires HexDecode(s).Some? && HexDecode(s).value != []
    ensures |s| >= 2 && HexDecode(s[2..]) == Some(HexDecode(s).value[1..])
    ensures HexValue(s[0]) == Some(HexDecode(s).value[0] / 16) && HexValue(s[1]) == Some(HexDecode(s).value[0] % 16)
  {
    var b := HexDecode(s).value;
    assert b[0] == 16 * HexValue(s[0]).value + HexValue(s[1]).value && b[1..] == HexDecode(s[2..]).value;
  }

  // ---- padding, section 6.3 of RFC 5652 ----

  function Repeat(x: Byte, n: nat): (s: Bytes)
    ensures |s| == n && forall i | 0 <= i < n :: s[i] == x
  {
    seq(n, _ => x)
  }

  function Pad(data: Bytes): (padded: Bytes)
    ensures |padded| % BLOCK == 0 && |data| < |padded| <= |data| + BLOCK
  {
    var padding := BLOCK - |data| % BLOCK;
    data + Repeat(padding, padding)
  }

  /** PKCS7UnPadding looks at the last byte only, and reads before the start of empty data. */
  function UnPad(data: Bytes): Outcome<Bytes> {
    if data == [] then Panicked
    else
      var unpadding := data[|data| - 1];
      if |data| < unpadding then Error else Ok(data[..|data| - unpadding])
  }

  /** UnPad trusts the last byte: it fails only if that asks for more than there is. */
  lemma LastByteIsTrusted(data: Bytes, c: Byte)
    ensures UnPad(data + [c]) == if |data| + 1 < c then Error else Ok((data + [c])[..|data| + 1 - c])
    ensures UnPad([]) == Panicked
  {
  }

  lemma PaddedIsUnpadded(data: Bytes)
    ensures UnPad(Pad(data)) == Ok(data)
  {
    assert Pad(data)[..|data|] == data;
  }

  /** Between one and sixteen bytes are added, each of which says how many. */
  lemma PaddingSaysItsLength(data: Bytes)
    ensures var padded := Pad(data);
            var count := |padded| - |data|;
            && 1 <= count <= 16 && |padded| % 16 == 0 && padded[..|data|] == data
            && forall i | |data| <= i < |padded| :: padded[i] == count
  {
  }

  // ---- exclusive or, bit by bit ----

  function XorBits(a: nat, b: nat, bits: nat): nat {
    if bits == 0 then 0 else 2 * XorBits(a / 2, b / 2, bits - 1) + (if a % 2 == b % 2 then 0 else 1)
  }

  function Pow2(n: nat): (p: nat)
    ensures p > 0
  {
    if n == 0 then 1 else 2 * Pow2(n - 1)
  }

  lemma {:induction false} XorIsSmall(a: nat, b: nat, bits: nat)
    ensures XorBits(a, b, bits) < Pow2(bits)
  {
    if bits > 0 {
      XorIsSmall(a / 2, b / 2, bits - 1);
    }
  }

  lemma {:induction false} XorTwice(a: nat, b: nat, bits: nat)
    requires a < Pow2(bits)
    ensures XorBits(XorBits(a, b, bits), b, bits) == a
  {
    if bits > 0 {
      var x := XorBits(a, b, bits);
      assert x / 2 == XorBits(a / 2, b / 2, bits - 1);
      XorTwice(a / 2, b / 2, bits - 1);
    }
  }

  /** The i-th bit is set exactly if it is set in one of the two. */
  lemma {:induction false} XorSetsBits(a: nat, b: nat, bits: nat, i: nat)
    requires i < bits
    ensures XorBits(a, b, bits) / Pow2(i) % 2 == if a / Pow2(i) % 2 == b / Pow2(i) % 2 then 0 else 1
    decreases i
  {
    var x := XorBits(a, b, bits);
    if i > 0 {
      XorSetsBits(a / 2, b / 2, bits - 1, i - 1);
      assert x / 2 == XorBits(a / 2, b / 2, bits - 1);
      TwoTimes(x, Pow2(i - 1));
      TwoTimes(a, Pow2(i - 1));
      TwoTimes(b, Pow2(i - 1));
    }
  }

  lemma TwoTimes(n: nat, p: nat)
    requires p > 0
    ensures n / (2 * p) == n / 2 / p
  {
    var q := n / 2 / p;
    assert n / 2 == q * p + n / 2 % p && n == n / 2 * 2 + n % 2;
    var r := n / 2 % p * 2 + n % 2;
    assert n == q * (2 * p) + r && 0 <= r < 2 * p;
    DivUnique(n, 2 * p, q, r);
  }

  function Xor(a: Byte, b: Byte): Byte {
    XorIsSmall(a, b, 8);
    assert Pow2(8) == 256 by {
      assert Pow2(4) == 16;
    }
    XorBits(a, b, 8)
  }

  function XorBlock(a: Bytes, b: Bytes): (c: Bytes)
    requires |a| == |b|
    ensures |c| == |a|
  {
    seq(|a|, i requires 0 <= i < |a| => Xor(a[i], b[i]))
  }

  lemma XorBlockTwice(a: Bytes, b: Bytes)
    requires |a| == |b|
    ensures XorBlock(XorBlock(a, b), b) == a
  {
    forall i | 0 <= i < |a|
      ensures Xor(Xor(a[i], b[i]), b[i]) == a[i]
    {
      assert Pow2(4) == 16;
      assert Pow2(8) == 256;
      XorTwice(a[i], b[i], 8);
    }
  }

  // ---- cipher block chaining, section 6.2 of NIST SP 800-38A ----

  predicate IsBlock(b: Bytes) { |b| == BLOCK }

  /** What is asked of the block cipher under its key: decrypting undoes encrypting. */
  datatype Cipher = Cipher(encrypt: Bytes -> Bytes, decrypt: Bytes -> Bytes)
  {
    ghost predicate Invertible() {
      && (forall b | IsBlock(b) :: IsBlock(encrypt(b)) && decrypt(encrypt(b)) == b)
      && (forall b | IsBlock(b) :: IsBlock(decrypt(b)))
    }
  }

  ghost function CbcEncrypt(cipher: Cipher, iv: Bytes, data: Bytes): (c: Bytes)
    requires cipher.Invertible() && IsBlock(iv) && |data| % BLOCK == 0
    ensures |c| == |data|
    decreases |data|
  {
    if data == [] then []
    else
      var first := cipher.encrypt(XorBlock(data[..BLOCK], iv));
      first + CbcEncrypt(cipher, first, data[BLOCK..])
  }

  ghost function CbcDecrypt(cipher: Cipher, iv: Bytes, data: Bytes): (p: Bytes)
    requires cipher.Invertible() && IsBlock(iv) && |data| % BLOCK == 0
    ensures |p| == |data|
    decreases |data|
  {
    if data == [] then []
    else
      var first := data[..BLOCK];
      XorBlock(cipher.decrypt(first), iv) + CbcDecrypt(cipher, first, data[BLOCK..])
  }

  lemma {:induction false} ChainingUndone(cipher: Cipher, iv: Bytes, data: Bytes)
    requires cipher.Invertible() && IsBlock(iv) && |data| % BLOCK == 0
    ensures CbcDecrypt(cipher, iv, CbcEncrypt(cipher, iv, data)) == data
    decreases |data|
  {
    if data != [] {
      var head, tail := data[..BLOCK], data[BLOCK..];
      var mixed := XorBlock(head, iv);
      var first := cipher.encrypt(mixed);
      var c := CbcEncrypt(cipher, iv, data);
      assert IsBlock(mixed) && IsBlock(first) && cipher.decrypt(first) == mixed;
      assert c[..BLOCK] == first && c[BLOCK..] == CbcEncrypt(cipher, first, tail);
      XorBlockTwice(head, iv);
      ChainingUndone(cipher, first, tail);
      assert head + tail == data;
    }
  }

  function BlockAt(b: Bytes, k: nat): Bytes
    requires BLOCK * (k + 1) <= |b|
  {
    b[BLOCK * k..BLOCK * (k + 1)]
  }

  lemma BlockOfRest(first: Bytes, rest: Bytes, k: nat)
    requires |first| == BLOCK && k > 0 && BLOCK * k <= |rest|
    ensures BlockAt(first + rest, k) == BlockAt(rest, k - 1) && BlockAt(first + rest, 0) == first
  {
  }

  /** Each block of the plain text is mixed with the block of the cipher text before it, the first one with
      the initialization vector, and then encrypted. */
  lemma {:induction false} EachBlockIsChained(cipher: Cipher, iv: Bytes, data: Bytes, k: nat)
    requires cipher.Invertible() && IsBlock(iv) && |data| % BLOCK == 0 && BLOCK * (k + 1) <= |data|
    ensures var c := CbcEncrypt(cipher, iv, data);
            BlockAt(c, k) == cipher.encrypt(XorBlock(BlockAt(data, k), if k == 0 then iv else BlockAt(c, k - 1)))
    decreases k
  {
    var first, rest := cipher.encrypt(XorBlock(data[..BLOCK], iv)), data[BLOCK..];
    assert data[..BLOCK] + rest == data && IsBlock(first);
    if k == 0 {
      assert CbcEncrypt(cipher, iv, data) == first + CbcEncrypt(cipher, first, rest);
    } else {
      EachBlockIsChained(cipher, first, rest, k - 1);
      BlockOfRest(data[..BLOCK], rest, k);
      BlockOfRest(first, CbcEncrypt(cipher, first, rest), k);
      if k > 1 {
        BlockOfRest(first, CbcEncrypt(cipher, first, rest), k - 1);
      }
    }
  }

  /** Each block of the cipher text is decrypted and mixed with the one before it. */
  lemma {:induction false} EachBlockIsUnchained(cipher: Cipher, iv: Bytes, data: Bytes, k: nat)
    requires cipher.Invertible() && IsBlock(iv) && |data| % BLOCK == 0 && BLOCK * (k + 1) <= |data|
    ensures |cipher.decrypt(BlockAt(data, k))| == BLOCK
    ensures BlockAt(CbcDecrypt(cipher, iv, data), k) ==
            XorBlock(cipher.decrypt(BlockAt(data, k)), if k == 0 then iv else BlockAt(data, k - 1))
    decreases k
  {
    var first, rest := data[..BLOCK], data[BLOCK..];
    var plain := XorBlock(cipher.decrypt(first), iv);
    assert first + rest == data && IsBlock(plain);
    if k == 0 {
      assert CbcDecrypt(cipher, iv, data) == plain + CbcDecrypt(cipher, first, rest);
    } else {
      EachBlockIsUnchained(cipher, first, rest, k - 1);
      BlockOfRest(first, rest, k);
      BlockOfRest(plain, CbcDecrypt(cipher, first, rest), k);
      if k > 1 {
        BlockOfRest(first, rest, k - 1);
      }
    }
  }

  lemma AppendedBlock(done: Bytes, block: Bytes, rest: Bytes)
    ensures done + (block + rest) == (done + block) + rest
  {
  }

  lemma EncryptFirst(cipher: Cipher, iv: Bytes, data: Bytes)
    requires cipher.Invertible() && IsBlock(iv) && |data| % BLOCK == 0 && data != []
    ensures var first := cipher.encrypt(XorBlock(data[..BLOCK], iv));
            IsBlock(first) && CbcEncrypt(cipher, iv, data) == first + CbcEncrypt(cipher, first, data[BLOCK..])
  {
  }

  lemma DecryptFirst(cipher: Cipher, iv: Bytes, data: Bytes)
    requires cipher.Invertible() && IsBlock(iv) && |data| % BLOCK == 0 && data != []
    ensures var first := data[..BLOCK];
            IsBlock(cipher.decrypt(first)) &&
            CbcDecrypt(cipher, iv, data) ==
              XorBlock(cipher.decrypt(first), iv) + CbcDecrypt(cipher, first, data[BLOCK..])
  {
  }

  /** What is done and what is left make up the whole. */
  ghost predicate Encrypting(cipher: Cipher, iv: Bytes, data: Bytes, encrypted: Bytes, prev: Bytes, src: Bytes) {
    && cipher.Invertible() && IsBlock(iv) && IsBlock(prev) && |data| % BLOCK == |src| % BLOCK == 0
    && CbcEncrypt(cipher, iv, data) == encrypted + CbcEncrypt(cipher, prev, src)
  }

  ghost predicate Decrypting(cipher: Cipher, iv: Bytes, data: Bytes, orig: Bytes, prev: Bytes, src: Bytes) {
    && cipher.Invertible() && IsBlock(iv) && IsBlock(prev) && |data| % BLOCK == |src| % BLOCK == 0
    && CbcDecrypt(cipher, iv, data) == orig + CbcDecrypt(cipher, prev, src)
  }

  lemma EncryptOneMore(cipher: Cipher, iv: Bytes, data: Bytes, encrypted: Bytes, prev: Bytes, src: Bytes)
    requires Encrypting(cipher, iv, data, encrypted, prev, src) && src != []
    ensures var block := cipher.encrypt(XorBlock(src[..BLOCK], prev));
            Encrypting(cipher, iv, data, encrypted + block, block, src[BLOCK..])
  {
    EncryptFirst(cipher, prev, src);
    var block := cipher.encrypt(XorBlock(src[..BLOCK], prev));
    AppendedBlock(encrypted, block, CbcEncrypt(cipher, block, src[BLOCK..]));
  }

  lemma DecryptOneMore(cipher: Cipher, iv: Bytes, data: Bytes, orig: Bytes, prev: Bytes, src: Bytes)
    requires Decrypting(cipher, iv, data, orig, prev, src) && src != []
    ensures IsBlock(cipher.decrypt(src[..BLOCK]))
    ensures var plain := XorBlock(cipher.decrypt(src[..BLOCK]), prev);
            Decrypting(cipher, iv, data, orig + plain, src[..BLOCK], src[BLOCK..])
  {
    DecryptFirst(cipher, prev, src);
    var plain := XorBlock(cipher.decrypt(src[..BLOCK]), prev);
    AppendedBlock(orig, plain, CbcDecrypt(cipher, src[..BLOCK], src[BLOCK..]));
  }

  /** CryptBlocks of the encrypter, block after block. */
  method EncryptBlocks(cipher: Cipher, iv: Bytes, data: Bytes) returns (encrypted: Bytes)
    requires cipher.Invertible() && IsBlock(iv) && |data| % BLOCK == 0
    ensures encrypted == CbcEncrypt(cipher, iv, data)
  {
    encrypted := [];
    var prev, src := iv, data;
    while src != []
      invariant Encrypting(cipher, iv, data, encrypted, prev, src)
      decreases |src|
    {
      EncryptOneMore(cipher, iv, data, encrypted, prev, src);
      var block := cipher.encrypt(XorBlock(src[..BLOCK], prev));
      encrypted, prev, src := encrypted + block, block, src[BLOCK..];
    }
  }

  method DecryptBlocks(cipher: Cipher, iv: Bytes, data: Bytes) returns (orig: Bytes)
    requires cipher.Invertible() && IsBlock(iv) && |data| % BLOCK == 0
    ensures orig == CbcDecrypt(cipher, iv, data)
  {
    orig := [];
    var prev, src := iv, data;
    while src != []
      invariant Decrypting(cipher, iv, data, orig, prev, src)
      decreases |src|
    {
      DecryptOneMore(cipher, iv, data, orig, prev, src);
      var block := src[..BLOCK];
      orig, prev, src := orig + XorBlock(cipher.decrypt(block), prev), block, src[BLOCK..];
    }
  }

  // ---- the codec ----

  ghost function Encrypted(cipher: Cipher, iv: Bytes, orig: Bytes): Outcome<Bytes>
    requires cipher.Invertible() && IsBlock(iv)
  {
    if orig == [] then Error else Ok(HexEncode(CbcEncrypt(cipher, iv, Pad(orig))))
  }

  ghost function Decrypted(cipher: Cipher, iv: Bytes, encrypted: Bytes): Outcome<Bytes>
    requires cipher.Invertible() && IsBlock(iv)
  {
    match HexDecode(encrypted)
    case None => Error
    case Some(data) =>
      if |data| % BLOCK != 0 then Panicked else UnPad(CbcDecrypt(cipher, iv, data))
  }

  method AesEncrypt(cipher: Cipher, iv: Bytes, orig: Bytes) returns (r: Outcome<Bytes>)
    requires cipher.Invertible() && IsBlock(iv)
    ensures r == Encrypted(cipher, iv, orig)
  {
    if orig == [] {
      return Error;
    }
    var encrypted := EncryptBlocks(cipher, iv, Pad(orig));
    r := Ok(HexEncode(encrypted));
  }

  /** CryptBlocks panics unless it gets whole blocks. */
  method AesDecrypt(cipher: Cipher, iv: Bytes, encrypted: Bytes) returns (r: Outcome<Bytes>)
    requires cipher.Invertible() && IsBlock(iv)
    ensures r == Decrypted(cipher, iv, encrypted)
  {
    var data := HexDecode(encrypted);
    if data.None? {
      return Error;
    }
    if |data.value| % BLOCK != 0 {
      return Panicked;
    }
    var orig := DecryptBlocks(cipher, iv, data.value);
    r := UnPad(orig);
  }

  /** What an encrypted text stands for: the padded text, block after block chained from the
      initialization vector. */
  lemma EncryptedIsChained(cipher: Cipher, iv: Bytes, orig: Bytes, k: nat)
    requires cipher.Invertible() && IsBlock(iv) && orig != [] && BLOCK * (k + 1) <= |Pad(orig)|
    ensures var raw := HexDecode(Encrypted(cipher, iv, orig).value);
            && raw.Some? && |raw.value| == |Pad(orig)|
            && BlockAt(raw.value, k) ==
                 cipher.encrypt(XorBlock(BlockAt(Pad(orig), k), if k == 0 then iv else BlockAt(raw.value, k - 1)))
  {
    HexRoundTrip(CbcEncrypt(cipher, iv, Pad(orig)));
    EachBlockIsChained(cipher, iv, Pad(orig), k);
  }

  /** Encrypting fails on the empty text only, and decrypting undoes it. */
  lemma AesRoundTrip(cipher: Cipher, iv: Bytes, s: Bytes)
    requires cipher.Invertible() && IsBlock(iv)
    ensures Encrypted(cipher, iv, s).Ok? <==> s != []
    ensures s != [] ==> Decrypted(cipher, iv, Encrypted(cipher, iv, s).value) == Ok(s)
  {
    if s != [] {
      HexRoundTrip(CbcEncrypt(cipher, iv, Pad(s)));
      ChainingUndone(cipher, iv, Pad(s));
      PaddedIsUnpadded(s);
    }
  }

  /** Decrypting panics exactly on hexadecimal text that stands for no whole number of blocks, or for
      none at all. */
  lemma DecryptPanicsIff(cipher: Cipher, iv: Bytes, s: Bytes)
    requires cipher.Invertible() && IsBlock(iv)
    ensures Decrypted(cipher, iv, s).Panicked? <==>
            HexDecode(s).Some? && (|HexDecode(s).value| % BLOCK != 0 || s == [])
  {
    HexLength(s);
  }

  lemma {:induction false} HexLength(s: Bytes)
    ensures HexDecode(s).Some? ==> |s| == 2 * |HexDecode(s).value|
    decreases |s|
  {
    if |s| >= 2 {
      HexLength(s[2..]);
    }
  }

  ghost function PkEncrypted(cipher: Cipher, iv: Bytes, pk: int): Outcome<Bytes>
    requires cipher.Invertible() && IsBlock(iv)
  {
    Encrypted(cipher, iv, FormatInt(pk))
  }

  ghost function PkDecrypted(cipher: Cipher, iv: Bytes, data: Bytes): Outcome<int>
    requires cipher.Invertible() && IsBlock(iv)
  {
    if data == [] then Error
    else
      match Decrypted(cipher, iv, data)
      case Error => Error
      case Panicked => Panicked
      case Ok(plainText) =>
        match ParseInt(plainText)
        case None => Error
        case Some(pk) => Ok(pk)
  }

  method EncryptPk(cipher: Cipher, iv: Bytes, pk: int) returns (r: Outcome<Bytes>)
    requires cipher.Invertible() && IsBlock(iv) && IsInt64(pk)
    ensures r == PkEncrypted(cipher, iv, pk) && r == Encrypted(cipher, iv, FormatInt(pk))
  {
    r := AesEncrypt(cipher, iv, FormatInt(pk));
  }

  method DecryptPk(cipher: Cipher, iv: Bytes, data: Bytes) returns (r: Outcome<int>)
    requires cipher.Invertible() && IsBlock(iv)
    ensures r == PkDecrypted(cipher, iv, data)
    ensures forall pk :: r == Ok(pk) <==>
              data != [] && exists text :: Decrypted(cipher, iv, data) == Ok(text) && ParseInt(text) == Some(pk)
    ensures r.Panicked? <==> data != [] && Decrypted(cipher, iv, data).Panicked?
  {
    if data == [] {
      return Error;
    }
    var plainText := AesDecrypt(cipher, iv, data);
    if !plainText.Ok? {
      return if plainText.Error? then Error else Panicked;
    }
    var pk := ParseInt(plainText.value);
    r := if pk.None? then Error else Ok(pk.value);
  }

  /** Every 64-bit key comes back from its cursor. */
  lemma PkRoundTrip(cipher: Cipher, iv: Bytes, pk: int)
    requires cipher.Invertible() && IsBlock(iv) && IsInt64(pk)
    ensures PkEncrypted(cipher, iv, pk).Ok?
    ensures PkDecrypted(cipher, iv, PkEncrypted(cipher, iv, pk).value) == Ok(pk)
  {
    AesRoundTrip(cipher, iv, FormatInt(pk));
    PrintedIsParsed(pk);
    HexRoundTrip(CbcEncrypt(cipher, iv, Pad(FormatInt(pk))));
  }

  /** So different keys have different cursors. */
  lemma CursorsAreUnique(cipher: Cipher, iv: Bytes, a: int, b: int)
    requires cipher.Invertible() && IsBlock(iv) && IsInt64(a) && IsInt64(b)
    requires PkEncrypted(cipher, iv, a) == PkEncrypted(cipher, iv, b)
    ensures a == b
  {
    PkRoundTrip(cipher, iv, a);
    PkRoundTrip(cipher, iv, b);
  }
}
