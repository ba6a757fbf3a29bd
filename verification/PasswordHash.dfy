/** Stored password hashes: `$argon2id$v=19$m=<n>,t=<n>,p=<n>$<salt>$<hash>`. */
module PasswordHash {
  import opened Base
  import opened Base64
  import opened Text

  type Uint32 = n: int | 0 <= n < 0x1_0000_0000

  datatype Params = Params(memoryKiB: Uint32, iterations: Uint32, parallelism: Byte, saltLength: Uint32,
      keyLength: Uint32)

  const CURRENT := Params(64 * 1024, 3, 1, 16, 32)

  const SALT_LENGTH := 16

  // ----- Printing and parsing -----

  function FormatParams(p: Params): string {
    "m=" + Decimal(p.memoryKiB) + ",t=" + Decimal(p.iterations) + ",p=" + Decimal(p.parallelism)
  }

  function FormatPHC(p: Params, salt: seq<Byte>, hash: seq<Byte>): string {
    "$argon2id$v=19$" + FormatParams(p) + "$" + Encode(salt) + "$" + Encode(hash)
  }

  // The loop's `params` and `seen`.
  datatype Progress = Progress(params: Params, seen: set<string>)

  const START := Progress(Params(0, 0, 0, 0, 0), {})

  /** One turn of the loop in parsePHCParams. */
  function AddItem(at: Progress, item: string): Option<Progress> {
    match Cut(item, '=')
    case None => None
    case Some((key, raw)) =>
      if key in at.seen then None
      else
        match ParseUint32(raw)
        case None => None
        case Some(n) =>
          var seen := at.seen + {key};
          if n == 0 then None
          else if key == "m" then Some(Progress(at.params.(memoryKiB := n), seen))
          else if key == "t" then Some(Progress(at.params.(iterations := n), seen))
          else if key == "p" && n <= 255 then Some(Progress(at.params.(parallelism := n), seen))
          else None
  }

  function AddItems(items: seq<string>, n: nat): Option<Progress>
    requires n <= |items|
  {
    if n == 0 then Some(START)
    else
      match AddItems(items, n - 1)
      case None => None
      case Some(at) => AddItem(at, items[n - 1])
  }

  function ParseParams(value: string): Option<Params> {
    var items := Split(value, ',');
    match AddItems(items, |items|)
    case None => None
    case Some(at) =>
      if at.params.memoryKiB == 0 || at.params.iterations == 0 || at.params.parallelism == 0 then None
      else Some(at.params)
  }

  function ParsePHC(phc: string): Option<(Params, seq<Byte>, seq<Byte>)> {
    var parts := Split(phc, '$');
    if |parts| != 6 || parts[0] != "" || parts[1] != "argon2id" || parts[2] != "v=19" then None
    else
      match ParseParams(parts[3])
      case None => None
      case Some(params) =>
        match Decode(parts[4])
        case None => None
        case Some(salt) =>
          if |salt| < SALT_LENGTH then None
          else
            match Decode(parts[5])
            case None => None
            case Some(hash) =>
              if |hash| == 0 then None
              else
                var sized := params.(saltLength := |salt| % 0x1_0000_0000, keyLength := |hash| % 0x1_0000_0000);
                Some((sized, salt, hash))
  }

  /** parsePHCParams. */
  method ParsePHCParams(value: string) returns (r: Option<Params>)
    ensures r == ParseParams(value)
  {
    hide Cut, Split, ParseUint32;
    var params := Params(0, 0, 0, 0, 0);
    var seen: map<string, bool> := map[];
    assert seen.Keys == {};
    var items := Split(value, ',');
    for i := 0 to |items|
      invariant AddItems(items, i) == Some(Progress(params, seen.Keys))
    {
      var cut := Cut(items[i], '=');
      if cut.None? || cut.value.0 in seen {
        NeverAgain(items, i + 1, |items|);
        return None;
      }
      var (key, raw) := cut.value;
      assert seen[key := true].Keys == seen.Keys + {key};
      seen := seen[key := true];
      var n := ParseUint32(raw);
      if n.None? || n.value == 0 {
        NeverAgain(items, i + 1, |items|);
        return None;
      }
      match key {
        case "m" => params := params.(memoryKiB := n.value);
        case "t" => params := params.(iterations := n.value);
        case "p" =>
          if n.value > 255 {
            NeverAgain(items, i + 1, |items|);
            return None;
          }
          params := params.(parallelism := n.value);
        case _ =>
          NeverAgain(items, i + 1, |items|);
          return None;
      }
    }
    if params.memoryKiB == 0 || params.iterations == 0 || params.parallelism == 0 {
      return None;
    }
    return Some(params);
  }

  /** Once an item is refused, the whole list is. */
  lemma {:induction false} NeverAgain(items: seq<string>, i: nat, n: nat)
    requires i <= n <= |items| && AddItems(items, i).None?
    ensures AddItems(items, n).None?
  {
    if i < n {
      NeverAgain(items, i, n - 1);
    }
  }

  // ----- What parsePHCParams accepts -----

  /** The item reads `<key>=<number>`, with a positive number of 32 bits. */
  predicate Says(item: string, key: string, n: nat) {
    && |key| < |item| && item[..|key|] == key && item[|key|] == '='
    && n > 0 && ParseUint32(item[|key| + 1..]) == Some(n)
  }

  /** The value is one m, one t and one p item, in any order. */
  ghost predicate Rearranges(value: string, p: Params) {
    var items := Split(value, ',');
    && |items| == 3 && p.saltLength == 0 && p.keyLength == 0
    && exists m, t, l | 0 <= m < 3 && 0 <= t < 3 && 0 <= l < 3 ::
         && m != t && t != l && l != m
         && Says(items[m], "m", p.memoryKiB) && Says(items[t], "t", p.iterations) && Says(items[l], "p", p.parallelism)
  }

  function Field(p: Params, key: string): nat {
    if key == "m" then p.memoryKiB else if key == "t" then p.iterations else if key == "p" then p.parallelism else 0
  }

  const KEYS := {"m", "t", "p"}

  lemma SaysCut(item: string, key: string, n: nat)
    requires Says(item, key, n) && '=' !in key
    ensures Cut(item, '=') == Some((key, item[|key| + 1..]))
  {
    CutAt(key, item[|key| + 1..], '=');
    assert item == key + ['='] + item[|key| + 1..];
  }

  lemma CutSays(item: string, key: string, raw: string, n: nat)
    requires Cut(item, '=') == Some((key, raw)) && ParseUint32(raw) == Some(n) && n > 0
    ensures Says(item, key, n)
  {
    assert item[|key| + 1..] == raw;
  }

  /** A turn adds one new key, with the number its item says. */
  lemma Turn(at: Progress, item: string, next: Progress) returns (key: string)
    requires AddItem(at, item) == Some(next)
    ensures key in KEYS && key !in at.seen && next.seen == at.seen + {key} && Says(item, key, Field(next.params, key))
    ensures forall k :: k in KEYS && k != key ==> Field(next.params, k) == Field(at.params, k)
    ensures next.params.saltLength == at.params.saltLength && next.params.keyLength == at.params.keyLength
  {
    key := Cut(item, '=').value.0;
    var raw := Cut(item, '=').value.1;
    CutSays(item, key, raw, ParseUint32(raw).value);
  }

  /** After n items: n keys seen, each with the number some item says, the others still zero. */
  lemma {:induction false} Progressed(items: seq<string>, n: nat)
    requires n <= |items| && AddItems(items, n).Some?
    ensures
      var at := AddItems(items, n).value;
      && at.seen <= KEYS && |at.seen| == n && at.params.saltLength == 0 && at.params.keyLength == 0
      && (forall k :: k in KEYS && k !in at.seen ==> Field(at.params, k) == 0)
      && (forall k :: k in at.seen ==> exists i :: 0 <= i < n && Says(items[i], k, Field(at.params, k)))
  {
    if n > 0 {
      hide Says, Field, AddItem, Split;
      Progressed(items, n - 1);
      var before, at := AddItems(items, n - 1).value, AddItems(items, n).value;
      var key := Turn(before, items[n - 1], at);
      forall k | k in at.seen ensures exists i :: 0 <= i < n && Says(items[i], k, Field(at.params, k)) {
        if k == key {
          assert Says(items[n - 1], k, Field(at.params, k));
        } else {
          var i :| 0 <= i < n - 1 && Says(items[i], k, Field(before.params, k));
          assert Says(items[i], k, Field(at.params, k));
        }
      }
    } else {
      hide Says, AddItem, Split;
    }
  }

  lemma AllKeysSeen(p: Params, seen: set<string>)
    requires seen <= KEYS && forall k :: k in KEYS && k !in seen ==> Field(p, k) == 0
    requires p.memoryKiB > 0 && p.iterations > 0 && p.parallelism > 0
    ensures seen == KEYS
  {
    assert Field(p, "m") > 0 && Field(p, "t") > 0 && Field(p, "p") > 0;
    assert "m" in seen && "t" in seen && "p" in seen;
  }

  lemma OneKeyEach(item: string, k: string, l: string, n: nat, o: nat)
    requires k in KEYS && l in KEYS && k != l && Says(item, k, n)
    ensures !Says(item, l, o)
  {
    assert item[..1][0] == k[0] && k[0] != l[0];
  }

  lemma AcceptedRearranges(value: string, p: Params)
    requires ParseParams(value) == Some(p)
    ensures Rearranges(value, p)
  {
    hide Says, AddItem, AddItems, Split;
    var items := Split(value, ',');
    Progressed(items, |items|);
    AllKeysSeen(p, AddItems(items, |items|).value.seen);
    assert |KEYS| == 3;
    var m :| 0 <= m < 3 && Says(items[m], "m", Field(p, "m"));
    var t :| 0 <= t < 3 && Says(items[t], "t", Field(p, "t"));
    var l :| 0 <= l < 3 && Says(items[l], "p", Field(p, "p"));
    OneKeyEach(items[m], "m", "t", Field(p, "m"), Field(p, "t"));
    OneKeyEach(items[m], "m", "p", Field(p, "m"), Field(p, "p"));
    OneKeyEach(items[t], "t", "p", Field(p, "t"), Field(p, "p"));
  }

  lemma Added(at: Progress, item: string, key: string, n: nat)
    requires Says(item, key, n) && key in KEYS && key !in at.seen && (key == "p" ==> n <= 255)
    ensures
      var next := AddItem(at, item);
      && next.Some? && next.value.seen == at.seen + {key} && Field(next.value.params, key) == n
      && (forall k :: k in KEYS && k != key ==> Field(next.value.params, k) == Field(at.params, k))
      && next.value.params.saltLength == at.params.saltLength && next.value.params.keyLength == at.params.keyLength
  {
    SaysCut(item, key, n);
  }

  lemma InOrder(items: seq<string>, k0: string, k1: string, k2: string, p: Params)
    requires |items| == 3 && {k0, k1, k2} == KEYS && k0 != k1 && k1 != k2 && k2 != k0
    requires Says(items[0], k0, Field(p, k0)) && Says(items[1], k1, Field(p, k1)) && Says(items[2], k2, Field(p, k2))
    requires p.saltLength == 0 && p.keyLength == 0
    ensures AddItems(items, 3) == Some(Progress(p, KEYS))
  {
    hide Says, AddItem;
    assert k0 in KEYS && k1 in KEYS && k2 in KEYS;
    Added(START, items[0], k0, Field(p, k0));
    assert AddItems(items, 1) == AddItem(START, items[0]);
    var one := AddItem(START, items[0]).value;
    Added(one, items[1], k1, Field(p, k1));
    var two := AddItem(one, items[1]).value;
    assert AddItems(items, 2) == Some(two);
    Added(two, items[2], k2, Field(p, k2));
    var at := AddItem(two, items[2]).value;
    assert forall k :: k in KEYS ==> Field(at.params, k) == Field(p, k);
    assert Field(at.params, "m") == p.memoryKiB && Field(at.params, "t") == p.iterations
      && Field(at.params, "p") == p.parallelism;
    assert at.params == p && at.seen == KEYS;
    assert AddItems(items, 3) == AddItem(two, items[2]);
  }

  lemma RearrangesAccepted(value: string, p: Params)
    requires Rearranges(value, p)
    ensures ParseParams(value) == Some(p)
  {
    hide Says, AddItems, Split;
    var items := Split(value, ',');
    var m, t, l :| 0 <= m < 3 && 0 <= t < 3 && 0 <= l < 3
      && m != t && t != l && l != m
      && Says(items[m], "m", p.memoryKiB) && Says(items[t], "t", p.iterations) && Says(items[l], "p", p.parallelism);
    if m < t < l {
      InOrder(items, "m", "t", "p", p);
    } else if m < l < t {
      InOrder(items, "m", "p", "t", p);
    } else if t < m < l {
      InOrder(items, "t", "m", "p", p);
    } else if t < l < m {
      InOrder(items, "t", "p", "m", p);
    } else if l < m < t {
      InOrder(items, "p", "m", "t", p);
    } else {
      InOrder(items, "p", "t", "m", p);
    }
    assert p.memoryKiB > 0 && p.iterations > 0 && p.parallelism > 0 by {
      SaysPositive(items[m], "m", p.memoryKiB);
      SaysPositive(items[t], "t", p.iterations);
      SaysPositive(items[l], "p", p.parallelism);
    }
  }

  lemma SaysPositive(item: string, key: string, n: nat)
    requires Says(item, key, n)
    ensures n > 0
  {
  }

  /** parsePHCParams accepts exactly the rearrangements of one m, one t and one p item in range. */
  lemma ParamsAccepted(value: string, p: Params)
    ensures ParseParams(value) == Some(p) <==> Rearranges(value, p)
  {
    if ParseParams(value) == Some(p) {
      AcceptedRearranges(value, p);
    }
    if Rearranges(value, p) {
      RearrangesAccepted(value, p);
    }
  }

  // ----- The round trip -----

  function Item(key: string, n: nat): string {
    key + "=" + Decimal(n)
  }

  lemma PrintedItems(p: Params)
    ensures Split(FormatParams(p), ',') == [Item("m", p.memoryKiB), Item("t", p.iterations), Item("p", p.parallelism)]
  {
    var items := [Item("m", p.memoryKiB), Item("t", p.iterations), Item("p", p.parallelism)];
    NoMarks(Decimal(p.memoryKiB));
    NoMarks(Decimal(p.iterations));
    NoMarks(Decimal(p.parallelism));
    SplitJoin(items, ',');
    assert Join(items[1..], ',') == items[1] + [','] + items[2];
    assert Join(items, ',') == FormatParams(p);
  }

  /** Printed parameters parse back when all three are positive. */
  lemma PrintedParams(p: Params)
    ensures
      ParseParams(FormatParams(p))
      == if p.memoryKiB > 0 && p.iterations > 0 && p.parallelism > 0 then Some(p.(saltLength := 0, keyLength := 0))
        else None
  {
    var items := [Item("m", p.memoryKiB), Item("t", p.iterations), Item("p", p.parallelism)];
    PrintedItems(p);
    SaysDecimal("m", p.memoryKiB);
    SaysDecimal("t", p.iterations);
    SaysDecimal("p", p.parallelism);
    hide Split, Says, FormatParams, Decimal, ParseParams;
    if p.memoryKiB > 0 && p.iterations > 0 && p.parallelism > 0 {
      var q := p.(saltLength := 0, keyLength := 0);
      assert Says(items[0], "m", q.memoryKiB) && Says(items[1], "t", q.iterations)
        && Says(items[2], "p", q.parallelism);
      ParamsAccepted(FormatParams(p), q);
    } else if ParseParams(FormatParams(p)).Some? {
      ParamsAccepted(FormatParams(p), ParseParams(FormatParams(p)).value);
      PositivePrinted(p, ParseParams(FormatParams(p)).value);
    }
  }

  /** A zero is printed but never accepted. */
  lemma PositivePrinted(p: Params, q: Params)
    requires Rearranges(FormatParams(p), q)
    ensures p.memoryKiB > 0 && p.iterations > 0 && p.parallelism > 0
  {
    var items := [Item("m", p.memoryKiB), Item("t", p.iterations), Item("p", p.parallelism)];
    PrintedItems(p);
    SaysDecimal("m", p.memoryKiB);
    SaysDecimal("t", p.iterations);
    SaysDecimal("p", p.parallelism);
    hide Split, Says, FormatParams, Decimal, ParseParams;
    var m, t, l :| 0 <= m < 3 && 0 <= t < 3 && 0 <= l < 3
      && Says(items[m], "m", q.memoryKiB) && Says(items[t], "t", q.iterations) && Says(items[l], "p", q.parallelism);
    KeyFirst(items[m], "m", q.memoryKiB);
    KeyFirst(items[t], "t", q.iterations);
    KeyFirst(items[l], "p", q.parallelism);
    assert m == 0 && t == 1 && l == 2;
  }

  lemma KeyFirst(item: string, key: string, n: nat)
    requires Says(item, key, n) && |key| > 0
    ensures item[0] == key[0]
  {
    assert item[..|key|][0] == item[0];
  }

  /** Digits hold none of the marks that separate the parts. */
  lemma NoMarks(s: string)
    requires AllDigits(s)
    ensures ',' !in s && '=' !in s && '$' !in s
  {
  }

  lemma SaysDecimal(key: string, n: Uint32)
    ensures forall k: nat :: Says(Item(key, n), key, k) <==> n > 0 && k == n
  {
    ParseDecimal(n);
    var item := Item(key, n);
    assert item[..|key|] == key && item[|key| + 1..] == Decimal(n);
  }

  lemma PlainText(s: string)
    requires forall i :: 0 <= i < |s| ==> IsSymbol(s[i])
    ensures '$' !in s
  {
  }

  lemma ParamsPlain(p: Params)
    ensures '$' !in FormatParams(p)
  {
    NoMarks(Decimal(p.memoryKiB));
    NoMarks(Decimal(p.iterations));
    NoMarks(Decimal(p.parallelism));
  }

  lemma SixParts(a: string, b: string, c: string, d: string, e: string, f: string)
    requires '$' !in a && '$' !in b && '$' !in c && '$' !in d && '$' !in e && '$' !in f
    ensures Split(a + "$" + b + "$" + c + "$" + d + "$" + e + "$" + f, '$') == [a, b, c, d, e, f]
  {
    hide Split;
    var r4 := e + ['$'] + f;
    var r3 := d + ['$'] + r4;
    var r2 := c + ['$'] + r3;
    var r1 := b + ['$'] + r2;
    SplitOne(f, '$');
    SplitFirst(e, f, '$');
    SplitFirst(d, r4, '$');
    SplitFirst(c, r3, '$');
    SplitFirst(b, r2, '$');
    SplitFirst(a, r1, '$');
    assert a + "$" + b + "$" + c + "$" + d + "$" + e + "$" + f == a + ['$'] + r1;
  }

  lemma PrintedParts(p: Params, salt: seq<Byte>, hash: seq<Byte>)
    ensures
      Split(FormatPHC(p, salt, hash), '$')
      == ["", "argon2id", "v=19", FormatParams(p), Encode(salt), Encode(hash)]
  {
    PlainText(Encode(salt));
    PlainText(Encode(hash));
    ParamsPlain(p);
    hide FormatParams, Encode, Split;
    var f, e, g := FormatParams(p), Encode(salt), Encode(hash);
    SixParts("", "argon2id", "v=19", f, e, g);
    assert "" + "$" + "argon2id" + "$" + "v=19" + "$" == "$argon2id$v=19$";
    assert FormatPHC(p, salt, hash) == "$argon2id$v=19$" + f + "$" + e + "$" + g;
  }

  /** What parsing makes of any printed hash. */
  lemma ParseOfFormat(p: Params, salt: seq<Byte>, hash: seq<Byte>)
    ensures
      ParsePHC(FormatPHC(p, salt, hash))
      == if p.memoryKiB > 0 && p.iterations > 0 && p.parallelism > 0 && |salt| >= SALT_LENGTH && |hash| > 0
         then Some((p.(saltLength := |salt| % 0x1_0000_0000, keyLength := |hash| % 0x1_0000_0000), salt, hash))
         else None
  {
    PrintedParts(p, salt, hash);
    PrintedParams(p);
    RoundTrip(salt);
    RoundTrip(hash);
    hide Split, FormatPHC, FormatParams, ParseParams, Decode, Encode;
  }

  /**
    Parsing undoes printing: positive parameters, a salt of at least 16 bytes, a hash, and the length fields
    that fit them.
   */
  lemma ParseUndoesFormat(p: Params, salt: seq<Byte>, hash: seq<Byte>)
    ensures
      ParsePHC(FormatPHC(p, salt, hash)) == Some((p, salt, hash))
      <==>
      && p.memoryKiB > 0 && p.iterations > 0 && p.parallelism > 0 && |salt| >= SALT_LENGTH && |hash| > 0
      && p.saltLength == |salt| % 0x1_0000_0000 && p.keyLength == |hash| % 0x1_0000_0000
  {
    ParseOfFormat(p, salt, hash);
    hide ParsePHC, FormatPHC;
  }

  /** Printing whatever was parsed gives a text with the same meaning, however the first one was written. */
  lemma Reprinted(phc: string)
    ensures
      ParsePHC(phc).Some? ==>
        var (p, salt, hash) := ParsePHC(phc).value;
        ParsePHC(FormatPHC(p, salt, hash)) == ParsePHC(phc)
  {
    if ParsePHC(phc).Some? {
      var (p, salt, hash) := ParsePHC(phc).value;
      ParseOfFormat(p, salt, hash);
      hide FormatPHC, ParseParams, Decode, Split;
    }
  }

  // ----- Hashing and verifying -----

  // Argon2id as an unknown function of password, salt, iterations, memory, parallelism and key length.
  type Kdf = (string, seq<Byte>, nat, nat, nat, nat) -> seq<Byte>

  predicate GivesLength(kdf: Kdf, password: string, salt: seq<Byte>) {
    |kdf(password, salt, CURRENT.iterations, CURRENT.memoryKiB, CURRENT.parallelism, CURRENT.keyLength)|
    == CURRENT.keyLength
  }

  /** HashPassword with its random salt. */
  function HashPassword(kdf: Kdf, password: string, salt: seq<Byte>): string {
    FormatPHC(CURRENT, salt,
      kdf(password, salt, CURRENT.iterations, CURRENT.memoryKiB, CURRENT.parallelism, CURRENT.keyLength))
  }

  /** passwordParamsWeaker. */
  predicate Weaker(p: Params) {
    || p.memoryKiB < CURRENT.memoryKiB
    || p.iterations < CURRENT.iterations
    || p.parallelism < CURRENT.parallelism
    || p.saltLength < CURRENT.saltLength
    || p.keyLength < CURRENT.keyLength
  }

  // The answer of VerifyPassword: whether the password matches and should be hashed anew.
  datatype Verdict = Verdict(matches: bool, needsRehash: bool)

  function VerifyPassword(kdf: Kdf, password: string, phc: string): Option<Verdict> {
    match ParsePHC(phc)
    case None => None
    case Some((p, salt, expected)) =>
      var actual := kdf(password, salt, p.iterations, p.memoryKiB, p.parallelism, |expected| % 0x1_0000_0000);
      if actual != expected then Some(Verdict(false, false)) else Some(Verdict(true, Weaker(p)))
  }

  lemma PrintedSame(p: Params, salt: seq<Byte>, k: seq<Byte>, l: seq<Byte>)
    ensures FormatPHC(p, salt, k) == FormatPHC(p, salt, l) <==> k == l
  {
    PrintedParts(p, salt, k);
    PrintedParts(p, salt, l);
    RoundTrip(k);
    RoundTrip(l);
    hide FormatPHC, Split, Encode, Decode;
  }

  /** A stored password verifies, without a rehash; another one only when its derived key is the same. */
  lemma HashThenVerify(kdf: Kdf, password: string, presented: string, salt: seq<Byte>)
    requires |salt| == CURRENT.saltLength && GivesLength(kdf, password, salt)
    ensures VerifyPassword(kdf, password, HashPassword(kdf, password, salt)) == Some(Verdict(true, false))
    ensures
      var stored := HashPassword(kdf, password, salt);
      VerifyPassword(kdf, presented, stored) == Some(Verdict(HashPassword(kdf, presented, salt) == stored, false))
  {
    var c := CURRENT;
    var key := kdf(password, salt, c.iterations, c.memoryKiB, c.parallelism, c.keyLength);
    var other := kdf(presented, salt, c.iterations, c.memoryKiB, c.parallelism, c.keyLength);
    ParseOfFormat(c, salt, key);
    PrintedSame(c, salt, key, other);
    hide FormatPHC, ParsePHC;
  }

  /** The text of a new hash: version 19, 64 MiB, three passes, one lane, and a key of 32 bytes. */
  lemma HashedForm(kdf: Kdf, password: string, salt: seq<Byte>)
    ensures
      HashPassword(kdf, password, salt)
      == "$argon2id$v=19$m=65536,t=3,p=1$" + Encode(salt) + "$" + Encode(kdf(password, salt, 3, 65536, 1, 32))
  {
    CurrentPrinted();
    hide FormatParams, Encode;
  }

  lemma CurrentPrinted()
    ensures FormatParams(CURRENT) == "m=65536,t=3,p=1"
  {
    assert Decimal(65) == "65";
    assert Decimal(655) == Decimal(65) + "5";
    assert Decimal(6553) == Decimal(655) + "3";
    assert Decimal(65536) == "65536";
  }

  /**
    Any stored hash: the password matches exactly when its derived key, under the stored parameters and of the
    stored length, is the stored one; it is hashed anew when any stored parameter or length is below today's.
   */
  lemma VerifiesStored(kdf: Kdf, password: string, p: Params, salt: seq<Byte>, hash: seq<Byte>)
    requires p.memoryKiB > 0 && p.iterations > 0 && p.parallelism > 0 && 16 <= |salt| < 0x1_0000_0000
    requires 0 < |hash| < 0x1_0000_0000
    ensures
      var matches := kdf(password, salt, p.iterations, p.memoryKiB, p.parallelism, |hash|) == hash;
      var weaker := p.memoryKiB < 65536 || p.iterations < 3 || p.parallelism < 1 || |salt| < 16 || |hash| < 32;
      VerifyPassword(kdf, password, FormatPHC(p, salt, hash)) == Some(Verdict(matches, matches && weaker))
  {
    ParseOfFormat(p, salt, hash);
    hide ParsePHC, FormatPHC;
  }

  /** The text has these six parts. */
  predicate Parted(phc: string, params: string, salt: string, hash: string) {
    phc == "$argon2id$v=19$" + params + "$" + salt + "$" + hash && '$' !in params && '$' !in salt && '$' !in hash
  }

  lemma PartedSplits(phc: string, params: string, salt: string, hash: string)
    ensures Parted(phc, params, salt, hash) <==> Split(phc, '$') == ["", "argon2id", "v=19", params, salt, hash]
  {
    hide Split;
    assert "" + "$" + "argon2id" + "$" + "v=19" + "$" == "$argon2id$v=19$";
    if Parted(phc, params, salt, hash) {
      SixParts("", "argon2id", "v=19", params, salt, hash);
      assert phc == "" + "$" + "argon2id" + "$" + "v=19" + "$" + params + "$" + salt + "$" + hash;
    }
    if Split(phc, '$') == ["", "argon2id", "v=19", params, salt, hash] {
      JoinSplit(phc, '$');
      JoinedSix("", "argon2id", "v=19", params, salt, hash);
      var parts := Split(phc, '$');
      assert params == parts[3] && salt == parts[4] && hash == parts[5];
    }
  }

  lemma JoinedSix(a: string, b: string, c: string, d: string, e: string, f: string)
    ensures Join([a, b, c, d, e, f], '$') == a + "$" + b + "$" + c + "$" + d + "$" + e + "$" + f
  {
    assert Join([f], '$') == f;
    assert [e, f][1..] == [f] && [d, e, f][1..] == [e, f] && [c, d, e, f][1..] == [d, e, f];
    assert [b, c, d, e, f][1..] == [c, d, e, f] && [a, b, c, d, e, f][1..] == [b, c, d, e, f];
    assert Join([e, f], '$') == e + "$" + f;
    assert Join([d, e, f], '$') == d + "$" + (e + "$" + f);
    assert Join([c, d, e, f], '$') == c + "$" + (d + "$" + (e + "$" + f));
    assert Join([b, c, d, e, f], '$') == b + "$" + (c + "$" + (d + "$" + (e + "$" + f)));
  }

  /** The three variable parts mean these values. */
  ghost predicate Means(params: string, b: string, c: string, p: Params, salt: seq<Byte>, hash: seq<Byte>) {
    && Rearranges(params, p.(saltLength := 0, keyLength := 0))
    && Decode(b) == Some(salt) && |salt| >= 16 && p.saltLength == |salt| % 0x1_0000_0000
    && Decode(c) == Some(hash) && |hash| >= 1 && p.keyLength == |hash| % 0x1_0000_0000
  }

  /** Exactly the texts of six such parts are accepted, with the values they mean. */
  lemma ParsesExactly(phc: string, p: Params, salt: seq<Byte>, hash: seq<Byte>)
    ensures
      ParsePHC(phc) == Some((p, salt, hash))
      <==> exists params, b, c :: Parted(phc, params, b, c) && Means(params, b, c, p, salt, hash)
  {
    hide Split, Rearranges, ParseParams, Decode, Parted;
    if ParsePHC(phc) == Some((p, salt, hash)) {
      var parts := Split(phc, '$');
      PartedSplits(phc, parts[3], parts[4], parts[5]);
      ParamsAccepted(parts[3], ParseParams(parts[3]).value);
      ZeroLengths(parts[3], ParseParams(parts[3]).value);
      assert Means(parts[3], parts[4], parts[5], p, salt, hash);
    }
    if params, b, c :| Parted(phc, params, b, c) && Means(params, b, c, p, salt, hash) {
      PartedSplits(phc, params, b, c);
      ParamsAccepted(params, p.(saltLength := 0, keyLength := 0));
      RearrangedPositive(params, p.(saltLength := 0, keyLength := 0));
    }
  }

  lemma ZeroLengths(value: string, p: Params)
    requires Rearranges(value, p)
    ensures p.saltLength == 0 && p.keyLength == 0
  {
  }

  lemma RearrangedPositive(value: string, p: Params)
    requires Rearranges(value, p)
    ensures p.memoryKiB > 0 && p.iterations > 0 && p.parallelism > 0
  {
  }
}
