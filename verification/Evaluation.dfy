/** Local evaluation: one FNV-1a bucket computed with two kinds of machine arithmetic over two text encodings. */
module Evaluation {
  import opened FlagModel

  const WORD := 0x1_0000_0000
  const OFFSET_BASIS := 0x811c9dc5
  const FNV_PRIME := 0x01000193

  function Bit(b: bool): int { if b then 1 else 0 }

  function Without(x: int, bit: int): int { if x >= bit then x - bit else x }

  /** Exclusive or of two hexadecimal digits, highest bit first. */
  function XorDigit(x: int, y: int): (r: int)
    requires 0 <= x < 0x10 && 0 <= y < 0x10
    ensures 0 <= r < 0x10
  {
    var x3, y3 := Without(x, 8), Without(y, 8);
    var x2, y2 := Without(x3, 4), Without(y3, 4);
    var x1, y1 := Without(x2, 2), Without(y2, 2);
    8 * Bit((x >= 8) != (y >= 8)) + 4 * Bit((x3 >= 4) != (y3 >= 4)) + 2 * Bit((x2 >= 2) != (y2 >= 2)) + Bit(x1 != y1)
  }

  lemma XorDigitIsXor(x: bv4, y: bv4)
    ensures XorDigit(x as int, y as int) == (x ^ y) as int
  {
  }

  /** Exclusive or, one hexadecimal digit at a time. */
  function Xor(a: nat, b: nat): nat
    decreases a + b
  {
    if a == 0 && b == 0 then 0 else XorDigit(a % 0x10, b % 0x10) + 0x10 * Xor(a / 0x10, b / 0x10)
  }

  function Pow16(n: nat): nat { if n == 0 then 1 else 0x10 * Pow16(n - 1) }

  lemma {:induction false} XorBound(a: nat, b: nat, n: nat)
    requires a < Pow16(n) && b < Pow16(n)
    ensures Xor(a, b) < Pow16(n)
  {
    hide XorDigit;
    if n > 0 { XorBound(a / 0x10, b / 0x10, n - 1); }
  }

  lemma WordIsPow16()
    ensures Pow16(8) == WORD
  {
    assert Pow16(2) == 0x100;
    assert Pow16(4) == 0x1_0000;
    assert Pow16(6) == 0x100_0000;
  }

  function Xor32(a: int, b: int): (r: int)
    requires 0 <= a < WORD && 0 <= b < WORD
    ensures 0 <= r < WORD
  {
    WordIsPow16();
    XorBound(a, b, 8);
    Xor(a, b)
  }

  /** A code unit or byte. */
  predicate Unit(c: int) { 0 <= c < 0x1_0000 }

  /** 32-bit FNV-1a over the first n units, in unsigned wrap-around arithmetic: Go's hash/fnv. */
  function Fnv(units: seq<int>, n: nat): (h: int)
    requires n <= |units| && forall i :: 0 <= i < |units| ==> Unit(units[i])
    ensures 0 <= h < WORD
  {
    if n == 0 then OFFSET_BASIS else (Xor32(Fnv(units, n - 1), units[n - 1]) * FNV_PRIME) % WORD
  }

  // JavaScript's integer operators: signed results, except for the unsigned shift.

  function ToUint32(x: int): (r: int) ensures 0 <= r < WORD { x % WORD }

  function ToInt32(x: int): int { if x % WORD < WORD / 2 then x % WORD else x % WORD - WORD }

  function JsXor(a: int, b: int): int { ToInt32(Xor32(ToUint32(a), ToUint32(b))) }

  function JsImul(a: int, b: int): int { ToInt32(ToUint32(a) * ToUint32(b)) }

  function JsShiftZero(a: int): int { ToUint32(a) }

  lemma Unsigned(x: int)
    requires 0 <= x < WORD
    ensures ToUint32(x) == x
  {
  }

  lemma SignedRoundTrip(x: int)
    ensures ToUint32(ToInt32(x)) == ToUint32(x) == x % WORD
  {
  }

  /** One round in signed arithmetic is one round in unsigned arithmetic. */
  lemma JsRound(h: int, c: int)
    requires 0 <= h < WORD && Unit(c)
    ensures JsShiftZero(JsImul(JsXor(h, c), FNV_PRIME)) == (Xor32(h, c) * FNV_PRIME) % WORD
  {
    hide Xor32, ToUint32, ToInt32;
    Unsigned(h);
    Unsigned(c);
    Unsigned(FNV_PRIME);
    SignedRoundTrip(Xor32(h, c));
    Unsigned(Xor32(h, c));
    SignedRoundTrip(Xor32(h, c) * FNV_PRIME);
  }

  /** The TypeScript loop computes unsigned FNV-1a on every string of code units. */
  method Fnv1a32(units: seq<int>) returns (hash: int)
    requires forall i :: 0 <= i < |units| ==> Unit(units[i])
    ensures hash == Fnv(units, |units|)
  {
    hash := OFFSET_BASIS;
    for i := 0 to |units|
      invariant hash == Fnv(units, i)
    {
      JsRound(hash, units[i]);
      hash := JsXor(hash, units[i]);
      hash := JsImul(hash, FNV_PRIME);
      hash := JsShiftZero(hash);
    }
  }

  function Utf16Char(c: char): seq<int> {
    var p := c as int;
    if p < 0x1_0000 then [p] else [0xD800 + (p - 0x1_0000) / 0x400, 0xDC00 + (p - 0x1_0000) % 0x400]
  }

  function Utf8Char(c: char): seq<int> {
    var p := c as int;
    if p < 0x80 then [p]
    else if p < 0x800 then [0xC0 + p / 0x40, 0x80 + p % 0x40]
    else if p < 0x1_0000 then [0xE0 + p / 0x1000, 0x80 + p / 0x40 % 0x40, 0x80 + p % 0x40]
    else [0xF0 + p / 0x4_0000, 0x80 + p / 0x1000 % 0x40, 0x80 + p / 0x40 % 0x40, 0x80 + p % 0x40]
  }

  /** A code unit that is no surrogate is the character; two surrogates hold ten bits each of what lies beyond. */
  lemma Utf16Decodes(c: char)
    ensures var u := Utf16Char(c);
      if c as int < 0x1_0000 then u == [c as int]
      else
        && |u| == 2 && 0xD800 <= u[0] < 0xDC00 && 0xDC00 <= u[1] < 0xE000
        && c as int == 0x1_0000 + 0x400 * (u[0] - 0xD800) + (u[1] - 0xDC00)
  {
    var over := c as int - 0x1_0000;
    assert over == 0x400 * (over / 0x400) + over % 0x400;
  }

  /** What the first b bytes say: the lead byte's marker taken off, then six bits from each of the others. */
  function Payload(bytes: seq<int>, lead: int, b: nat): int
    requires 0 < b <= |bytes|
  {
    if b == 1 then bytes[0] - lead else 0x40 * Payload(bytes, lead, b - 1) + (bytes[b - 1] - 0x80)
  }

  /** The bytes decode to the character, and their number is the shortest that can hold it. */
  lemma Utf8Decodes(c: char)
    ensures var bytes, p := Utf8Char(c), c as int;
      && |bytes| == (if p < 0x80 then 1 else if p < 0x800 then 2 else if p < 0x1_0000 then 3 else 4)
      && (forall i :: 1 <= i < |bytes| ==> 0x80 <= bytes[i] < 0xC0)
      && p == Payload(bytes, [0, 0xC0, 0xE0, 0xF0][|bytes| - 1], |bytes|)
  {
    var p, bytes := c as int, Utf8Char(c);
    if p < 0x80 {
    } else if p < 0x800 {
      assert Payload(bytes, 0xC0, 1) == p / 0x40;
    } else if p < 0x1_0000 {
      assert Payload(bytes, 0xE0, 1) == p / 0x40 / 0x40;
      assert Payload(bytes, 0xE0, 2) == p / 0x40;
    } else {
      assert Payload(bytes, 0xF0, 1) == p / 0x40 / 0x40 / 0x40;
      assert Payload(bytes, 0xF0, 2) == p / 0x40 / 0x40;
      assert Payload(bytes, 0xF0, 3) == p / 0x40;
    }
  }

  /** What TypeScript hashes. */
  function Utf16(s: string): (units: seq<int>)
    ensures forall i :: 0 <= i < |units| ==> Unit(units[i])
  {
    if s == "" then [] else Utf16(s[..|s| - 1]) + Utf16Char(s[|s| - 1])
  }

  /** What Go hashes. */
  function Utf8(s: string): (bytes: seq<int>)
    ensures forall i :: 0 <= i < |bytes| ==> Unit(bytes[i])
  {
    if s == "" then [] else Utf8(s[..|s| - 1]) + Utf8Char(s[|s| - 1])
  }

  predicate Ascii(s: string) { forall i :: 0 <= i < |s| ==> s[i] as int < 0x80 }

  /** The two languages hash the same units exactly on ASCII text; any other character makes Go's input longer. */
  lemma {:induction false} SameInputIffAscii(s: string)
    ensures |Utf8(s)| >= |Utf16(s)|
    ensures |Utf8(s)| == |Utf16(s)| <==> Ascii(s)
    ensures Utf16(s) == Utf8(s) <==> Ascii(s)
  {
    if s != "" { SameInputIffAscii(s[..|s| - 1]); }
  }

  function HashInput(key: string, user: string): string { key + ":" + user }

  function TsBucket(key: string, user: string): (b: int)
    ensures 0 <= b < 100
  {
    var units := Utf16(HashInput(key, user));
    Fnv(units, |units|) % 100
  }

  function GoBucket(key: string, user: string): (b: int)
    ensures 0 <= b < 100
  {
    var bytes := Utf8(HashInput(key, user));
    Fnv(bytes, |bytes|) % 100
  }

  /** The rollout of the Go client and of the server's hash package. */
  predicate GoInRollout(key: string, user: string, percentage: int) {
    if percentage <= 0 then false else if percentage >= 100 then true else GoBucket(key, user) < percentage
  }

  predicate TsInRollout(key: string, user: string, percentage: int) {
    if percentage <= 0 then false else if percentage >= 100 then true else TsBucket(key, user) < percentage
  }

  predicate GoIsEnabled(flags: Flags, key: string, user: string) {
    key in flags && flags[key].enabled
    && (user in flags[key].targeted || GoInRollout(key, user, flags[key].rollout))
  }

  predicate TsIsEnabled(flags: Flags, key: string, user: string) {
    if key !in flags then false
    else if !flags[key].enabled then false
    else if user in flags[key].targeted then true
    else TsInRollout(key, user, flags[key].rollout)
  }

  datatype Reason = NoFlag | Disabled | Targeted | RolloutZero | RolloutFull | InRollout | OutOfRollout

  datatype Trace = Trace(on: bool, reason: Reason, enabled: bool, targeted: bool, percentage: int,
                         bucket: Option<int>, hashInput: string)

  /** The explained evaluation of the teaching pages. */
  function Evaluate(flag: Option<Flag>, user: string): Trace {
    if flag.None? then Trace(false, NoFlag, false, false, 0, None, user)
    else
      var f := flag.value;
      var input := HashInput(f.key, user);
      var targeted := user in f.targeted;
      if !f.enabled then Trace(false, Disabled, false, targeted, f.rollout, None, input)
      else if targeted then Trace(true, Targeted, true, true, f.rollout, None, input)
      else if f.rollout <= 0 then Trace(false, RolloutZero, true, false, f.rollout, None, input)
      else if f.rollout >= 100 then Trace(true, RolloutFull, true, false, f.rollout, None, input)
      else
        var bucket := TsBucket(f.key, user);
        if bucket < f.rollout then Trace(true, InRollout, true, false, f.rollout, Some(bucket), input)
        else Trace(false, OutOfRollout, true, false, f.rollout, Some(bucket), input)
  }

  /** What a verdict means: the flag is on, and the user is targeted or falls into a bucket below the percentage. */
  predicate On(f: Flag, user: string, bucket: int) {
    f.enabled && (user in f.targeted || bucket < f.rollout)
  }

  /** Each language's verdict is that rule over its own bucket, for every user id and every stored percentage. */
  lemma VerdictMeaning(flags: Flags, key: string, user: string)
    ensures GoIsEnabled(flags, key, user) <==> key in flags && On(flags[key], user, GoBucket(key, user))
    ensures TsIsEnabled(flags, key, user) <==> key in flags && On(flags[key], user, TsBucket(key, user))
  {
  }

  lemma ValidKeyIsAscii(key: string)
    requires ValidKey(key)
    ensures Ascii(key)
  {
    forall i | 0 <= i < |key| ensures key[i] as int < 0x80 { assert KeyChar(key[i]); }
  }

  lemma SameBucket(key: string, user: string)
    requires ValidKey(key) && Ascii(user)
    ensures TsBucket(key, user) == GoBucket(key, user)
  {
    ValidKeyIsAscii(key);
    SameInputIffAscii(HashInput(key, user));
  }

  /**
   * The explanation is the truth: the verdict is the rule's; each reason is given exactly when it is the one that
   * decided; the facts shown are the flag's; and a bucket is shown exactly when it decided, it is the hash of the shown
   * text, and the verdict is that bucket below the shown percentage.
   */
  lemma TraceIsHonest(flag: Option<Flag>, user: string)
    ensures var t := Evaluate(flag, user);
      flag.None? ==> t == Trace(false, NoFlag, false, false, 0, None, user)
    ensures flag.Some? ==> var f, t := flag.value, Evaluate(flag, user);
      && (t.on <==> On(f, user, TsBucket(f.key, user)))
      && (t.reason.Disabled? <==> !f.enabled)
      && (t.reason.Targeted? <==> f.enabled && user in f.targeted)
      && (t.reason.RolloutZero? <==> f.enabled && user !in f.targeted && f.rollout <= 0)
      && (t.reason.RolloutFull? <==> f.enabled && user !in f.targeted && 100 <= f.rollout)
      && (t.reason.InRollout? <==> t.bucket.Some? && t.on)
      && (t.reason.OutOfRollout? <==> t.bucket.Some? && !t.on)
      && (t.bucket.Some? <==> f.enabled && user !in f.targeted && 0 < f.rollout < 100)
      && (t.bucket.Some? ==>
          && t.bucket.value == TsBucket(f.key, user) == Fnv(Utf16(t.hashInput), |Utf16(t.hashInput)|) % 100
          && (t.on <==> t.bucket.value < t.percentage))
      && t.enabled == f.enabled && (t.targeted <==> user in f.targeted)
      && t.percentage == f.rollout && t.hashInput == f.key + ":" + user
  {
  }

  /** Every evaluator gives the one verdict, for every flag map keyed by valid keys and every ASCII user. */
  lemma VerdictParity(flags: Flags, key: string, user: string)
    requires forall k :: k in flags ==> ValidKey(k) && flags[k].key == k
    requires Ascii(user)
    ensures TsIsEnabled(flags, key, user) == GoIsEnabled(flags, key, user)
    ensures Evaluate(if key in flags then Some(flags[key]) else None, user).on == GoIsEnabled(flags, key, user)
  {
    VerdictMeaning(flags, key, user);
    TraceIsHonest(if key in flags then Some(flags[key]) else None, user);
    if key in flags { SameBucket(key, user); }
  }

  /** Whatever the user id, the two languages agree at every percentage exactly when their buckets are equal. */
  lemma AgreeEverywhereIffSameBucket(key: string, user: string)
    ensures (forall percentage :: GoInRollout(key, user, percentage) == TsInRollout(key, user, percentage))
            <==> GoBucket(key, user) == TsBucket(key, user)
  {
    if GoBucket(key, user) != TsBucket(key, user) {
      var low := if GoBucket(key, user) < TsBucket(key, user) then GoBucket(key, user) else TsBucket(key, user);
      assert GoInRollout(key, user, low + 1) != TsInRollout(key, user, low + 1);
    }
  }

  // A user id on which the languages disagree.

  lemma XorDigitZero(x: int)
    requires 0 <= x < 0x10
    ensures XorDigit(x, 0) == x
  {
  }

  lemma {:induction false} XorZero(a: nat)
    ensures Xor(a, 0) == a
  {
    hide XorDigit;
    if a > 0 {
      XorDigitZero(a % 0x10);
      XorZero(a / 0x10);
    }
  }

  lemma XorLastDigit(a: nat, x: nat, b: nat, y: nat)
    requires x < 0x10 && y < 0x10
    ensures Xor(0x10 * a + x, 0x10 * b + y) == XorDigit(x, y) + 0x10 * Xor(a, b)
  {
    assert (0x10 * a + x) / 0x10 == a && (0x10 * b + y) / 0x10 == b;
  }

  /** A byte only changes the last two digits. */
  lemma XorByte(hi: nat, h: nat, l: nat, ch: nat, cl: nat)
    requires hi < 0x100_0000 && h < 0x10 && l < 0x10 && ch < 0x10 && cl < 0x10
    ensures Xor32(0x100 * hi + 0x10 * h + l, 0x10 * ch + cl) == 0x100 * hi + 0x10 * XorDigit(h, ch) + XorDigit(l, cl)
  {
    hide XorDigit, Xor;
    XorLastDigit(0x10 * hi + h, l, ch, cl);
    XorLastDigit(hi, h, 0, ch);
    XorZero(hi);
  }

  predicate Units(units: seq<int>) { forall i :: 0 <= i < |units| ==> Unit(units[i]) }

  /** One round on numbers: `over` is what wraps. */
  lemma Round(units: seq<int>, n: nat, mixed: int, over: nat, after: nat)
    requires Units(units) && 0 < n <= |units| && after < WORD
    requires Xor32(Fnv(units, n - 1), units[n - 1]) == mixed && mixed * FNV_PRIME == over * WORD + after
    ensures Fnv(units, n) == after
  {
    hide Xor32;
    Wraps(mixed, over, after);
  }

  lemma Wraps(mixed: int, over: nat, after: nat)
    requires after < WORD && mixed * FNV_PRIME == over * WORD + after
    ensures (mixed * FNV_PRIME) % WORD == after
  {
  }

  lemma RoundOfA(units: seq<int>)
    requires Units(units) && |units| > 0 && units[0] == 0x61 && Fnv(units, 0) == 0x811c9dc5
    ensures Fnv(units, 1) == 0xe40c292c
  {
    hide Xor;
    assert XorDigit(0xC, 0x6) == 0xA && XorDigit(0x5, 0x1) == 0x4;
    XorByte(0x811c9d, 0xC, 0x5, 0x6, 0x1);
    Round(units, 1, 0x811c9da4, 0x811d68, 0xe40c292c);
  }

  lemma RoundOfColon(units: seq<int>)
    requires Units(units) && |units| > 1 && units[1] == 0x3A && Fnv(units, 1) == 0xe40c292c
    ensures Fnv(units, 2) == 0x1524ada2
  {
    hide Xor;
    assert XorDigit(0x2, 0x3) == 0x1 && XorDigit(0xC, 0xA) == 0x6;
    XorByte(0xe40c29, 0x2, 0xC, 0x3, 0xA);
    Round(units, 2, 0xe40c2916, 0xe40d90, 0x1524ada2);
  }

  lemma RoundOfCodeUnit(units: seq<int>)
    requires Units(units) && |units| > 2 && units[2] == 0xE9 && Fnv(units, 2) == 0x1524ada2
    ensures Fnv(units, 3) == 0x93bccd11
  {
    hide Xor;
    assert XorDigit(0xA, 0xE) == 0x4 && XorDigit(0x2, 0x9) == 0xB;
    XorByte(0x1524ad, 0xA, 0x2, 0xE, 0x9);
    Round(units, 3, 0x1524ad4b, 0x1524ce, 0x93bccd11);
  }

  lemma RoundOfLeadByte(units: seq<int>)
    requires Units(units) && |units| > 2 && units[2] == 0xC3 && Fnv(units, 2) == 0x1524ada2
    ensures Fnv(units, 3) == 0xa9bcefb3
  {
    hide Xor;
    assert XorDigit(0xA, 0xC) == 0x6 && XorDigit(0x2, 0x3) == 0x1;
    XorByte(0x1524ad, 0xA, 0x2, 0xC, 0x3);
    Round(units, 3, 0x1524ad61, 0x1524ce, 0xa9bcefb3);
  }

  lemma RoundOfNextByte(units: seq<int>)
    requires Units(units) && |units| > 3 && units[3] == 0xA9 && Fnv(units, 3) == 0xa9bcefb3
    ensures Fnv(units, 4) == 0x4e6c65ee
  {
    hide Xor;
    assert XorDigit(0xB, 0xA) == 0x1 && XorDigit(0x3, 0x9) == 0xA;
    XorByte(0xa9bcef, 0xB, 0x3, 0xA, 0x9);
    Round(units, 4, 0xa9bcef1a, 0xa9bdfa, 0x4e6c65ee);
  }

  lemma SampleInputs(s: string)
    requires s == ['a', ':', 0xE9 as char]
    ensures Utf16(s) == [0x61, 0x3A, 0xE9] && Utf8(s) == [0x61, 0x3A, 0xC3, 0xA9]
  {
    assert s[..2] == ['a', ':'] && s[..2][..1] == ['a'] && s[..1][..0] == "";
    assert Utf16(s[..1]) == [0x61] && Utf8(s[..1]) == [0x61];
    assert Utf16(s[..2]) == [0x61, 0x3A] && Utf8(s[..2]) == [0x61, 0x3A];
  }

  lemma SampleHashes(units: seq<int>, bytes: seq<int>)
    requires units == [0x61, 0x3A, 0xE9] && bytes == [0x61, 0x3A, 0xC3, 0xA9]
    ensures Fnv(units, 3) == 0x93bccd11 && Fnv(bytes, 4) == 0x4e6c65ee
  {
    hide Xor32;
    RoundOfA(units);
    RoundOfColon(units);
    RoundOfCodeUnit(units);
    RoundOfA(bytes);
    RoundOfColon(bytes);
    RoundOfLeadByte(bytes);
    RoundOfNextByte(bytes);
  }

  lemma SampleBuckets(user: string)
    requires user == [0xE9 as char]
    ensures TsBucket("a", user) == 17 && GoBucket("a", user) == 30
  {
    hide Fnv, Utf8, Utf16;
    var s := HashInput("a", user);
    assert s == ['a', ':', 0xE9 as char];
    SampleInputs(s);
    SampleHashes(Utf16(s), Utf8(s));
  }

  /** Parity fails beyond ASCII: for key "a" and the one-letter user id U+00E9 the buckets are 17 and 30. */
  lemma NonAsciiUserSplits(f: Flag, flags: Flags)
    requires f.key == "a" && f.enabled && f.targeted == [] && 17 < f.rollout <= 30 && flags == map["a" := f]
    ensures TsIsEnabled(flags, "a", [0xE9 as char]) && !GoIsEnabled(flags, "a", [0xE9 as char])
  {
    hide TsBucket, GoBucket;
    SampleBuckets([0xE9 as char]);
  }
}
