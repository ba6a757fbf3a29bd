/**
  Splitting and cutting strings, and decimal numbers, as Go's strings, fmt and strconv packages do it.
 */
module Text {
  import opened Base

  // ----- Splitting -----

  /** `strings.Split` on a one-character separator. */
  function Split(s: string, c: char): (parts: seq<string>)
    ensures |parts| > 0
  {
    if s == "" then [""]
    else
      var rest := Split(s[1..], c);
      if s[0] == c then [""] + rest else [[s[0]] + rest[0]] + rest[1..]
  }

  function Join(parts: seq<string>, c: char): string
    requires |parts| > 0
  {
    if |parts| == 1 then parts[0] else parts[0] + [c] + Join(parts[1..], c)
  }

  lemma {:induction false} SplitOne(part: string, c: char)
    requires c !in part
    ensures Split(part, c) == [part]
  {
    if part != "" {
      SplitOne(part[1..], c);
      assert [part[0]] + part[1..] == part;
    }
  }

  lemma {:induction false} SplitFirst(part: string, rest: string, c: char)
    requires c !in part
    ensures Split(part + [c] + rest, c) == [part] + Split(rest, c)
  {
    var s := part + [c] + rest;
    if part == "" {
      assert s[1..] == rest;
    } else {
      SplitFirst(part[1..], rest, c);
      assert s[1..] == part[1..] + [c] + rest;
      assert [part[0]] + part[1..] == part;
    }
  }

  /** Splitting undoes joining. */
  lemma {:induction false} SplitJoin(parts: seq<string>, c: char)
    requires |parts| > 0 && forall p :: p in parts ==> c !in p
    ensures Split(Join(parts, c), c) == parts
  {
    if |parts| == 1 {
      SplitOne(parts[0], c);
    } else {
      SplitFirst(parts[0], Join(parts[1..], c), c);
      SplitJoin(parts[1..], c);
    }
  }

  /** Joining undoes splitting, and no part holds the separator. */
  lemma {:induction false} JoinSplit(s: string, c: char)
    ensures Join(Split(s, c), c) == s
    ensures forall p :: p in Split(s, c) ==> c !in p
  {
    if s != "" {
      JoinSplit(s[1..], c);
      var parts, rest := Split(s, c), Split(s[1..], c);
      if s[0] == c {
        assert parts[1..] == rest;
        assert Join(parts, c) == [c] + Join(rest, c);
      } else if |rest| > 1 {
        assert parts[1..] == rest[1..];
        assert Join(parts, c) == [s[0]] + (rest[0] + [c] + Join(rest[1..], c));
      }
    }
  }

  /** `strings.Cut` at the first occurrence of a one-character separator. */
  function Cut(s: string, c: char): (r: Option<(string, string)>)
    ensures r.None? <==> c !in s
    ensures r.Some? ==> c !in r.value.0 && s == r.value.0 + [c] + r.value.1
  {
    if s == "" then None
    else if s[0] == c then Some(("", s[1..]))
    else
      match Cut(s[1..], c)
      case None => None
      case Some(pair) => Some(([s[0]] + pair.0, pair.1))
  }

  lemma {:induction false} CutAt(key: string, raw: string, c: char)
    requires c !in key
    ensures Cut(key + [c] + raw, c) == Some((key, raw))
  {
    var s := key + [c] + raw;
    if key == "" {
      assert s[1..] == raw;
    } else {
      CutAt(key[1..], raw, c);
      assert s[1..] == key[1..] + [c] + raw;
      assert [key[0]] + key[1..] == key;
    }
  }

  // ----- Decimal numbers -----

  predicate IsDigit(c: char) {
    '0' <= c <= '9'
  }

  predicate AllDigits(s: string) {
    forall i :: 0 <= i < |s| ==> IsDigit(s[i])
  }

  function DigitOf(d: nat): char
    requires d < 10
  {
    '0' + d as char
  }

  /** `%d`. */
  function Decimal(n: nat): (s: string)
    ensures |s| > 0 && AllDigits(s)
  {
    if n < 10 then [DigitOf(n)] else Decimal(n / 10) + [DigitOf(n % 10)]
  }

  function Value(s: string): nat
    requires AllDigits(s)
  {
    if s == "" then 0 else Value(s[..|s| - 1]) * 10 + (s[|s| - 1] as int - '0' as int)
  }

  /** `strconv.ParseUint(s, 10, 32)`: digits only, leading zeros allowed, at most 2^32 - 1. */
  function ParseUint32(s: string): (r: Option<nat>)
    ensures r.Some? ==> r.value < 0x1_0000_0000
  {
    if s != "" && AllDigits(s) && Value(s) < 0x1_0000_0000 then Some(Value(s)) else None
  }

  lemma {:induction false} ValueOfDecimal(n: nat)
    ensures Value(Decimal(n)) == n
  {
    if n >= 10 {
      ValueOfDecimal(n / 10);
      var s := Decimal(n);
      assert s[..|s| - 1] == Decimal(n / 10);
    }
  }

  /** Parsing undoes printing. */
  lemma ParseDecimal(n: nat)
    ensures ParseUint32(Decimal(n)) == if n < 0x1_0000_0000 then Some(n) else None
  {
    ValueOfDecimal(n);
  }

  lemma {:induction false} LeadingZero(s: string)
    requires AllDigits(s)
    ensures AllDigits("0" + s) && Value("0" + s) == Value(s)
  {
    if s != "" {
      LeadingZero(s[..|s| - 1]);
      assert ("0" + s)[..|s|] == "0" + s[..|s| - 1];
    }
  }

  function Zeros(n: nat): string {
    if n == 0 then "" else "0" + Zeros(n - 1)
  }

  lemma {:induction false} ZerosInFront(zeros: nat, s: string)
    requires AllDigits(s)
    ensures AllDigits(Zeros(zeros) + s) && Value(Zeros(zeros) + s) == Value(s)
  {
    if zeros == 0 {
      assert Zeros(0) + s == s;
    } else {
      ZerosInFront(zeros - 1, s);
      LeadingZero(Zeros(zeros - 1) + s);
      assert Zeros(zeros) + s == "0" + (Zeros(zeros - 1) + s);
    }
  }

  /** Digits without a leading zero are what is printed of their value. */
  lemma {:induction false} PrintedDigits(s: string)
    requires AllDigits(s) && s != "" && (s[0] != '0' || |s| == 1)
    ensures Decimal(Value(s)) == s && (s[0] != '0' ==> Value(s) > 0)
  {
    var last := |s| - 1;
    assert IsDigit(s[last]) && IsDigit(s[0]);
    if last == 0 {
      assert s[..0] == "" && s == [s[0]];
      assert Value(s) == s[0] as int - '0' as int;
      DigitBack(s[0]);
    } else {
      PrintedDigits(s[..last]);
      DigitBack(s[last]);
      assert s == s[..last] + [s[last]];
      assert Value(s) / 10 == Value(s[..last]) && Value(s) % 10 == s[last] as int - '0' as int;
    }
  }

  lemma DigitBack(c: char)
    requires IsDigit(c)
    ensures 0 <= c as int - '0' as int < 10 && DigitOf(c as int - '0' as int) == c
    ensures c != '0' ==> c as int - '0' as int > 0
  {
  }

  lemma {:induction false} SomeZeros(s: string) returns (zeros: nat)
    requires AllDigits(s) && s != ""
    ensures s == Zeros(zeros) + Decimal(Value(s))
  {
    if s[0] != '0' || |s| == 1 {
      zeros := 0;
      PrintedDigits(s);
    } else {
      assert IsDigit(s[1]);
      assert s == "0" + s[1..];
      LeadingZero(s[1..]);
      var rest := SomeZeros(s[1..]);
      zeros := rest + 1;
      assert Zeros(zeros) == "0" + Zeros(rest);
    }
  }

  /** Exactly the printed numbers below 2^32 are parsed, with any number of zeros in front. */
  lemma ParsesPadded(s: string, n: nat)
    ensures ParseUint32(s) == Some(n) <==> n < 0x1_0000_0000 && exists zeros :: s == Zeros(zeros) + Decimal(n)
  {
    if ParseUint32(s) == Some(n) {
      var zeros := SomeZeros(s);
    }
    if zeros: nat :| s == Zeros(zeros) + Decimal(n) {
      ZerosInFront(zeros, Decimal(n));
      ValueOfDecimal(n);
    }
  }
}
