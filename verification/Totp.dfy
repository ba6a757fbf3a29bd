/**
  Time-based one-time codes (RFC 4226 and RFC 6238). The base32 decoder and HMAC-SHA-1 are parameters;
  the digest has 20 bytes.
 */
module Totp {
  import opened Base
  import opened Text

  type Digest = s: seq<bv8> | |s| == 20 witness seq(20, _ => 0)

  const DIGITS := 6
  const PERIOD := 30
  const SKEW := 1

  // ----- Truncation -----

  /** Four bytes as one word, without the top bit. */
  function Word(b0: bv8, b1: bv8, b2: bv8, b3: bv8): bv32 {
    ((b0 as bv32 & 0x7f) << 24) | ((b1 as bv32 & 0xff) << 16) | ((b2 as bv32 & 0xff) << 8) | (b3 as bv32 & 0xff)
  }

  /** The last four bits of the digest. */
  function Offset(sum: Digest): (o: nat)
    ensures o == sum[19] as int % 16 && o + 3 < |sum|
  {
    OffsetBits(sum[19]);
    (sum[19] & 0x0f) as int
  }

  function Truncate(sum: Digest): bv32 {
    var o := Offset(sum);
    Word(sum[o], sum[o + 1], sum[o + 2], sum[o + 3])
  }

  lemma OffsetBits(b: bv8)
    ensures 0 <= (b & 0x0f) as int == b as int % 16
  {
  }

  lemma WordIsNumber(b0: bv8, b1: bv8, b2: bv8, b3: bv8)
    ensures Word(b0, b1, b2, b3) < 0x8000_0000
    ensures
      Word(b0, b1, b2, b3)
      == (b0 & 0x7f) as bv32 * 0x100_0000 + b1 as bv32 * 0x1_0000 + b2 as bv32 * 0x100 + b3 as bv32
  {
  }

  /**
    The truncated value is the big-endian number of the four bytes at the offset, top bit masked (section 5.3 of
    RFC 4226).
   */
  lemma TruncateIsNumber(sum: Digest)
    ensures
      var o := Offset(sum);
      && Truncate(sum) < 0x8000_0000
      && Truncate(sum)
         == (sum[o] & 0x7f) as bv32 * 0x100_0000 + sum[o + 1] as bv32 * 0x1_0000 + sum[o + 2] as bv32 * 0x100
            + sum[o + 3] as bv32
  {
    hide Word, Offset;
    var o := Offset(sum);
    WordIsNumber(sum[o], sum[o + 1], sum[o + 2], sum[o + 3]);
  }

  // ----- Printing -----

  function Pow10(digits: nat): (p: nat)
    ensures p > 0
  {
    if digits == 0 then 1 else 10 * Pow10(digits - 1)
  }

  /** `%0*d`. */
  function Padded(s: string, width: nat): string
    decreases width - |s|
  {
    if |s| >= width then s else Padded("0" + s, width)
  }

  lemma {:induction false} DecimalLength(n: nat, digits: nat)
    requires n < Pow10(digits) && digits > 0
    ensures |Decimal(n)| <= digits
  {
    if n >= 10 {
      DecimalLength(n / 10, digits - 1);
    }
  }

  lemma {:induction false} PaddedValue(s: string, width: nat)
    requires AllDigits(s)
    ensures AllDigits(Padded(s, width)) && Value(Padded(s, width)) == Value(s)
    ensures |Padded(s, width)| == if |s| >= width then |s| else width
    decreases width - |s|
  {
    if |s| < width {
      LeadingZero(s);
      PaddedValue("0" + s, width);
    }
  }

  function Code(sum: Digest, digits: nat): string {
    Padded(Decimal(Truncate(sum) as int % Pow10(digits)), digits)
  }

  /**
    The printed code has exactly the requested number of decimal digits, and they spell the truncated value
    modulo 10^digits.
   */
  lemma CodeDigits(sum: Digest, digits: nat)
    requires digits > 0
    ensures |Code(sum, digits)| == digits && AllDigits(Code(sum, digits))
    ensures Value(Code(sum, digits)) == Truncate(sum) as int % Pow10(digits)
  {
    var n := Truncate(sum) as int % Pow10(digits);
    DecimalLength(n, digits);
    PaddedValue(Decimal(n), digits);
    ValueOfDecimal(n);
  }

  // ----- Generating and verifying -----

  // The base32 decoder and HMAC-SHA-1 over the decoded secret and an eight-byte message.
  datatype Crypto = Crypto(decode: string -> Option<seq<Byte>>, hmac: (seq<Byte>, seq<Byte>) -> Digest)

  /** `binary.BigEndian.PutUint64` of a counter below 2^64. */
  function BigEndian(n: nat, size: nat): (b: seq<Byte>)
    ensures |b| == size
  {
    if size == 0 then [] else BigEndian(n / 256, size - 1) + [n % 256]
  }

  /** The number that the bytes spell, most significant first. */
  function Spelled(b: seq<Byte>): nat {
    if b == [] then 0 else Spelled(b[..|b| - 1]) * 256 + b[|b| - 1]
  }

  function Pow256(size: nat): nat {
    if size == 0 then 1 else 256 * Pow256(size - 1)
  }

  /** The message spells the counter, so different counters below 2^64 have different messages. */
  lemma {:induction false} MessageSpellsCounter(n: nat, size: nat)
    requires n < Pow256(size)
    ensures Spelled(BigEndian(n, size)) == n
  {
    if size > 0 {
      MessageSpellsCounter(n / 256, size - 1);
      var b, front := BigEndian(n, size), BigEndian(n / 256, size - 1);
      assert b == front + [n % 256];
      SpelledOn(front, n % 256);
    }
  }

  lemma SpelledOn(front: seq<Byte>, last: Byte)
    ensures Spelled(front + [last]) == Spelled(front) * 256 + last
  {
    assert (front + [last])[..|front|] == front;
  }

  lemma EightBytes()
    ensures Pow256(8) == 0x1_0000_0000_0000_0000
  {
    assert Pow256(2) == 0x1_0000;
    assert Pow256(4) == 0x1_0000_0000;
    assert Pow256(6) == 0x1_0000_0000_0000;
  }

  type Int64 = n: int | -0x8000_0000_0000_0000 <= n < 0x8000_0000_0000_0000

  function GenerateTOTP(c: Crypto, secret: string, counter: Int64, digits: int): string {
    if counter < 0 || digits <= 0 || digits > 8 then ""
    else
      match c.decode(secret)
      case None => ""
      case Some(key) => Code(c.hmac(key, BigEndian(counter, 8)), digits)
  }

  /** `strconv.Atoi` on a text short enough not to overflow: digits after an optional sign. */
  predicate IsNumber(s: string) {
    var digits := if s != "" && (s[0] == '+' || s[0] == '-') then s[1..] else s;
    digits != "" && AllDigits(digits)
  }

  /** Go's integer division, which truncates toward zero. */
  function Quotient(a: int, b: int): int
    requires b > 0
  {
    if a >= 0 then a / b else -(-a / b)
  }

  // ----- What a code means -----

  /** Texts of digits of one length are equal when they spell the same number. */
  lemma {:induction false} DigitsDetermine(a: string, b: string)
    requires |a| == |b| && AllDigits(a) && AllDigits(b) && Value(a) == Value(b)
    ensures a == b
  {
    if a != "" {
      var i := |a| - 1;
      assert IsDigit(a[i]) && IsDigit(b[i]);
      DigitsDetermine(a[..i], b[..i]);
      assert a == a[..i] + [a[i]] && b == b[..i] + [b[i]];
    }
  }

  /** Messages of one length are equal when they spell the same counter. */
  lemma {:induction false} MessagesDetermine(a: seq<Byte>, b: seq<Byte>)
    requires |a| == |b| && Spelled(a) == Spelled(b)
    ensures a == b
  {
    if a != [] {
      var i := |a| - 1;
      LastByte(Spelled(a[..i]), a[i], Spelled(b[..i]), b[i]);
      MessagesDetermine(a[..i], b[..i]);
      assert a == a[..i] + [a[i]] && b == b[..i] + [b[i]];
    }
  }

  lemma LastByte(m: nat, x: Byte, n: nat, y: Byte)
    requires m * 256 + x == n * 256 + y
    ensures m == n && x == y
  {
  }

  /** The 31-bit number that four bytes of the digest spell, from the place that its last four bits give. */
  function Truncated(sum: Digest): nat {
    var o := sum[19] as int % 16;
    ((sum[o] & 0x7f) as bv32 * 0x100_0000 + sum[o + 1] as bv32 * 0x1_0000 + sum[o + 2] as bv32 * 0x100
     + sum[o + 3] as bv32) as int
  }

  /**
    The code of a counter (section 5.3 of RFC 4226): its decimal digits, as many as asked, spell the truncated
    digest of the key and of eight bytes that spell the counter, modulo that power of ten.
   */
  ghost predicate CodeOf(c: Crypto, key: seq<Byte>, counter: nat, digits: nat, code: string) {
    && |code| == digits && AllDigits(code)
    && exists message: seq<Byte> ::
         |message| == 8 && Spelled(message) == counter
         && Value(code) == Truncated(c.hmac(key, message)) % Pow10(digits)
  }

  lemma TruncatesTo(sum: Digest)
    ensures Truncate(sum) as int == Truncated(sum)
  {
    TruncateIsNumber(sum);
    hide Truncate;
  }

  lemma PrintsCode(c: Crypto, key: seq<Byte>, counter: Int64, digits: nat)
    requires 0 <= counter && digits > 0
    ensures CodeOf(c, key, counter, digits, Code(c.hmac(key, BigEndian(counter, 8)), digits))
  {
    hide BigEndian, Code, Truncate, Truncated, Spelled, Value, Pow256, Pow10;
    var message := BigEndian(counter, 8);
    EightBytes();
    MessageSpellsCounter(counter, 8);
    CodeDigits(c.hmac(key, message), digits);
    TruncatesTo(c.hmac(key, message));
  }

  /** A counter has one code under a key. */
  lemma CodesDetermine(c: Crypto, key: seq<Byte>, counter: nat, digits: nat, a: string, b: string)
    requires CodeOf(c, key, counter, digits, a) && CodeOf(c, key, counter, digits, b)
    ensures a == b
  {
    hide Truncated, Spelled, Value, Pow10;
    var m: seq<Byte> :| |m| == 8 && Spelled(m) == counter && Value(a) == Truncated(c.hmac(key, m)) % Pow10(digits);
    var n: seq<Byte> :| |n| == 8 && Spelled(n) == counter && Value(b) == Truncated(c.hmac(key, n)) % Pow10(digits);
    MessagesDetermine(m, n);
    DigitsDetermine(a, b);
  }

  /** GenerateTOTP prints the code of the counter, and no other text is one. */
  lemma GeneratesCode(c: Crypto, secret: string, counter: Int64, digits: int, code: string)
    requires 0 <= counter && 1 <= digits <= 8 && c.decode(secret).Some?
    ensures
      GenerateTOTP(c, secret, counter, digits) == code <==> CodeOf(c, c.decode(secret).value, counter, digits, code)
  {
    hide CodeOf, Code, BigEndian;
    var key := c.decode(secret).value;
    PrintsCode(c, key, counter, digits);
    if CodeOf(c, key, counter, digits, code) {
      CodesDetermine(c, key, counter, digits, code, GenerateTOTP(c, secret, counter, digits));
    }
  }

  /** There is no code for a negative counter, without a secret, or of fewer than one or more than eight digits. */
  lemma GeneratesNothing(c: Crypto, secret: string, counter: Int64, digits: int)
    ensures GenerateTOTP(c, secret, counter, digits) == ""
      <==> counter < 0 || digits < 1 || digits > 8 || c.decode(secret).None?
  {
    if 0 <= counter && 1 <= digits <= 8 && c.decode(secret).Some? {
      PrintsCode(c, c.decode(secret).value, counter, digits);
    }
    hide Code, BigEndian;
  }

  /** The codes that should be accepted at a time: those of the non-negative counters within one step of it. */
  ghost predicate Acceptable(c: Crypto, secret: string, code: string, now: int) {
    && c.decode(secret).Some?
    && exists n: nat ::
         Quotient(now, 30) - 1 <= n <= Quotient(now, 30) + 1 && CodeOf(c, c.decode(secret).value, n, 6, code)
  }

  /** The loop looks for what the acceptable codes are, and the checks before it refuse none of them. */
  lemma AcceptableIsGenerated(c: Crypto, secret: string, code: string, now: Int64)
    requires c.decode(secret).Some?
    ensures Acceptable(c, secret, code, now) <==>
      exists n: Int64 ::
        0 <= n && Quotient(now, PERIOD) - SKEW <= n <= Quotient(now, PERIOD) + SKEW
        && GenerateTOTP(c, secret, n, DIGITS) == code
    ensures Acceptable(c, secret, code, now) ==> |code| == DIGITS && IsNumber(code)
  {
    hide GenerateTOTP;
    var key := c.decode(secret).value;
    forall n: Int64 | 0 <= n
      ensures GenerateTOTP(c, secret, n, DIGITS) == code <==> CodeOf(c, key, n, DIGITS, code)
    {
      GeneratesCode(c, secret, n, DIGITS, code);
    }
    if Acceptable(c, secret, code, now) {
      var n: nat :| Quotient(now, 30) - 1 <= n <= Quotient(now, 30) + 1 && CodeOf(c, key, n, 6, code);
      var m: Int64 := n;
      assert GenerateTOTP(c, secret, m, DIGITS) == code;
    }
  }

  method VerifyTOTP(c: Crypto, secret: string, code: string, now: Int64) returns (ok: bool)
    ensures ok <==> Acceptable(c, secret, code, now)
  {
    hide CodeOf;
    if c.decode(secret).Some? {
      AcceptableIsGenerated(c, secret, code, now);
    }
    if |code| != DIGITS {
      return false;
    }
    if !IsNumber(code) {
      return false;
    }
    var counter := Quotient(now, PERIOD);
    for skew := -SKEW to SKEW + 1
      invariant forall n: Int64 ::
        0 <= n && counter - SKEW <= n < counter + skew ==> GenerateTOTP(c, secret, n, DIGITS) != code
    {
      if GenerateTOTP(c, secret, counter + skew, DIGITS) == code {
        return true;
      }
    }
    return false;
  }

  /** A code shown at one moment is accepted for at least thirty seconds before and after it. */
  lemma AcceptedNearby(c: Crypto, secret: string, code: string, shown: nat, now: Int64)
    requires c.decode(secret).Some? && CodeOf(c, c.decode(secret).value, shown / 30, 6, code)
    requires shown - 30 <= now <= shown + 30
    ensures Acceptable(c, secret, code, now)
  {
    hide CodeOf;
    var n: nat := shown / 30;
    assert Quotient(now, 30) - 1 <= n <= Quotient(now, 30) + 1;
  }

  /** An accepted code is the one shown at some moment less than sixty seconds away. */
  lemma AcceptedOnlyNearby(c: Crypto, secret: string, code: string, now: nat)
    requires Acceptable(c, secret, code, now)
    ensures exists shown: nat ::
      now - 60 < shown < now + 60 && CodeOf(c, c.decode(secret).value, shown / 30, 6, code)
  {
    hide CodeOf;
    var counter := Quotient(now, 30);
    var n: nat :| counter - 1 <= n <= counter + 1 && CodeOf(c, c.decode(secret).value, n, 6, code);
    var shown: nat := now + (n - counter) * 30;
    assert shown / 30 == n;
  }
}
