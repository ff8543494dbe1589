/** The 64-bit FNV-1a hash that stands in for a label in a metadata-only journal. */
module LabelHash {
  import opened PowersOfTwo
  import opened MachineWords
  import opened Text

  const OFFSET_BASIS: nat := 0xcbf2_9ce4_8422_2325
  const PRIME: nat := 0x0000_0100_0000_01b3

  /** Exclusive or of the lowest binary digits of two numbers; the digits above are those of the first. */
  function XorLow(a: nat, b: nat, digits: nat): nat {
    if digits == 0 then a else (a + b) % 2 + 2 * XorLow(a / 2, b / 2, digits - 1)
  }

  lemma {:induction false} XorLowBound(a: nat, b: nat, digits: nat, extra: nat)
    requires a < Pow2(digits + extra)
    ensures XorLow(a, b, digits) < Pow2(digits + extra)
  {
    if digits > 0 { XorLowBound(a / 2, b / 2, digits - 1, extra); }
  }

  function Mix(hash: u64, b: byte): u64 {
    (XorLow(hash, b, 8) * PRIME) % MODULUS
  }

  function HashFrom(hash: u64, bytes: seq<byte>): u64
    decreases |bytes|
  {
    if bytes == [] then hash else HashFrom(Mix(hash, bytes[0]), bytes[1..])
  }

  function HashOf(bytes: seq<byte>): u64 {
    HashFrom(OFFSET_BASIS, bytes)
  }

  lemma {:induction false} HashFromConcat(hash: u64, a: seq<byte>, b: seq<byte>)
    ensures HashFrom(hash, a + b) == HashFrom(HashFrom(hash, a), b)
    decreases |a|
  {
    hide Mix;
    if a == [] {
      assert a + b == b;
    } else {
      assert (a + b)[1..] == a[1..] + b;
      HashFromConcat(Mix(hash, a[0]), a[1..], b);
    }
  }

  // ---------------------------------------------------------------------------------------------
  // Every step is injective

  lemma {:induction false} XorKeepsFirst(a: nat, b: nat, x: nat, digits: nat)
    requires XorLow(a, x, digits) == XorLow(b, x, digits)
    ensures a == b
  {
    if digits > 0 {
      assert (a + x) % 2 == (b + x) % 2;
      XorKeepsFirst(a / 2, b / 2, x / 2, digits - 1);
      SameHalves(a, b, x);
    }
  }

  lemma SameHalves(a: nat, b: nat, x: nat)
    requires a / 2 == b / 2 && (a + x) % 2 == (b + x) % 2
    ensures a == b
  {
  }

  lemma {:induction false} XorKeepsSecond(a: nat, x: nat, y: nat, digits: nat)
    requires XorLow(a, x, digits) == XorLow(a, y, digits)
    requires x < Pow2(digits) && y < Pow2(digits)
    ensures x == y
  {
    if digits > 0 {
      assert (a + x) % 2 == (a + y) % 2;
      XorKeepsSecond(a / 2, x / 2, y / 2, digits - 1);
      SameHalves(x, y, a);
    }
  }

  lemma PrimeIsOdd()
    ensures PRIME == 2 * 549_755_814_105 + 1
  {
  }

  /** Multiplying by an odd number loses nothing modulo a power of two. */
  lemma OddMultiplierInjective(a: nat, b: nat, t: nat, k: nat)
    requires a < Pow2(k) && b < Pow2(k)
    requires (a * (2 * t + 1)) % Pow2(k) == (b * (2 * t + 1)) % Pow2(k)
    ensures a == b
  {
    var m, p := Pow2(k), 2 * t + 1;
    SameRemainder(a * p, b * p, m);
    assert a * p - b * p == (a - b) * p;
    ZeroBitsIsDivisibility(k, (a - b) * p);
    OddFactor(k, a - b, t);
    ZeroBitsIsDivisibility(k, a - b);
    SameRemainder(a, b, m);
    CloseTogether(a, b, m);
  }

  lemma MixIsXorThenMultiply(a: u64, x: byte, b: u64, y: byte)
    requires Mix(a, x) == Mix(b, y)
    ensures XorLow(a, x, 8) == XorLow(b, y, 8)
  {
    SixtyFourBits();
    PrimeIsOdd();
    XorLowBound(a, x, 8, 56);
    XorLowBound(b, y, 8, 56);
    OddMultiplierInjective(XorLow(a, x, 8), XorLow(b, y, 8), 549_755_814_105, 64);
  }

  lemma MixInjective(a: u64, x: byte, b: u64, y: byte)
    requires Mix(a, x) == Mix(b, y)
    ensures x == y ==> a == b
    ensures a == b ==> x == y
  {
    MixIsXorThenMultiply(a, x, b, y);
    assert Pow2(8) == 256 by { assert Pow2(4) == 16; Pow2Add(4, 4); }
    if x == y { XorKeepsFirst(a, b, x, 8); }
    if a == b { XorKeepsSecond(a, x, y, 8); }
  }

  /** A difference in the running hash survives any common suffix. */
  lemma {:induction false} SuffixKeepsDifference(a: u64, b: u64, suffix: seq<byte>)
    ensures HashFrom(a, suffix) == HashFrom(b, suffix) <==> a == b
    decreases |suffix|
  {
    hide Mix;
    if suffix != [] {
      var c, d := Mix(a, suffix[0]), Mix(b, suffix[0]);
      SuffixKeepsDifference(c, d, suffix[1..]);
      if c == d { MixInjective(a, suffix[0], b, suffix[0]); }
    }
  }

  function Hex(v: nat, width: nat): (s: string)
    ensures |s| == width
  {
    if width == 0 then "" else Hex(v / 16, width - 1) + ["0123456789abcdef"[v % 16]]
  }

  lemma {:induction false} HexInjective(u: nat, v: nat, width: nat)
    requires u < Power(16, width) && v < Power(16, width)
    requires Hex(u, width) == Hex(v, width)
    ensures u == v
  {
    if width > 0 {
      var a, b := Hex(u / 16, width - 1), Hex(v / 16, width - 1);
      assert Hex(u, width)[..width - 1] == a && Hex(v, width)[..width - 1] == b;
      assert Hex(u, width)[width - 1] == "0123456789abcdef"[u % 16] && Hex(v, width)[width - 1] == "0123456789abcdef"[v % 16];
      HexInjective(u / 16, v / 16, width - 1);
    }
  }

  lemma {:induction false} PowerOfSixteen(width: nat)
    ensures Power(16, width) == Pow2(4 * width)
  {
    if width > 0 {
      PowerOfSixteen(width - 1);
      Pow2Add(4, 4 * width - 4);
      assert Pow2(4) == 16;
    }
  }

  /** The value of a run of small hexadecimal digits. */
  function FromHex(s: string): Option<nat> {
    if s == "" then Some(0)
    else
      var front, c := FromHex(s[..|s| - 1]), s[|s| - 1];
      if front.None? then None
      else if '0' <= c <= '9' then Some(16 * front.value + (c as nat - '0' as nat))
      else if 'a' <= c <= 'f' then Some(16 * front.value + (c as nat - 'a' as nat + 10))
      else None
  }

  lemma DigitReadsBack(d: nat)
    requires d < 16
    ensures var c := "0123456789abcdef"[d];
            if d < 10 then c as nat - '0' as nat == d && '0' <= c <= '9' else 'a' <= c <= 'f' && c as nat - 'a' as nat + 10 == d
  {
  }

  lemma OneDigitLess(v: nat, width: nat)
    requires width > 0 && v < Power(16, width)
    ensures v / 16 < Power(16, width - 1)
  {
  }

  lemma {:induction false} HexReadsBack(v: nat, width: nat)
    requires v < Power(16, width)
    ensures FromHex(Hex(v, width)) == Some(v)
  {
    if width > 0 {
      var s := Hex(v, width);
      OneDigitLess(v, width);
      hide Power;
      HexReadsBack(v / 16, width - 1);
      DigitReadsBack(v % 16);
      assert s[..width - 1] == Hex(v / 16, width - 1) && s[width - 1] == "0123456789abcdef"[v % 16];
    }
  }

  /** The printed hash is a fixed label and sixteen digits that read back as the hash. */
  lemma HashTextReadsBack(bytes: seq<byte>)
    ensures var text := HashText(bytes);
            |text| == 30 && text[..14] == "metadata-only-" && FromHex(text[14..]) == Some(HashOf(bytes))
  {
    hide Hex;
    assert HashText(bytes)[..14] == "metadata-only-" && HashText(bytes)[14..] == Hex(HashOf(bytes), 16);
    PowerOfSixteen(16);
    SixtyFourBits();
    HexReadsBack(HashOf(bytes), 16);
  }

  function HashText(bytes: seq<byte>): string {
    "metadata-only-" + Hex(HashOf(bytes), 16)
  }

  /** The loop over the bytes of the label. */
  method MetadataHash(value: seq<byte>) returns (r: string)
    ensures r == HashText(value)
  {
    var hash: u64 := OFFSET_BASIS;
    for i := 0 to |value|
      invariant HashFrom(hash, value[i..]) == HashOf(value)
    {
      SixtyFourBits();
      XorLowBound(hash, value[i], 8, 56);
      var mixed: u64 := XorLow(hash, value[i], 8);
      assert value[i..][1..] == value[i + 1..];
      hash := (mixed * PRIME) % MODULUS;
    }
    r := "metadata-only-" + Hex(hash, 16);
  }

  /** The published test vectors of the 64-bit FNV-1a hash for the empty text and for one letter. */
  lemma KnownHashes()
    ensures HashOf([]) == 0xcbf2_9ce4_8422_2325
    ensures HashOf([97]) == 0xaf63_dc4c_8601_ec8c
  {
    assert XorLow(0xcbf29ce4842223, 0, 0) == 0xcbf29ce4842223;
    assert XorLow(0x197e539c9084446, 0, 1) == 0x197e539c9084446;
    assert XorLow(0x32fca739210888c, 1, 2) == 0x32fca739210888d;
    assert XorLow(0x65f94e724211119, 3, 3) == 0x65f94e72421111a;
    assert XorLow(0xcbf29ce48422232, 6, 4) == 0xcbf29ce48422234;
    assert XorLow(0x197e539c90844464, 12, 5) == 0x197e539c90844468;
    assert XorLow(0x32fca739210888c9, 24, 6) == 0x32fca739210888d1;
    assert XorLow(0x65f94e7242111192, 48, 7) == 0x65f94e72421111a2;
    assert XorLow(0xcbf29ce484222325, 97, 8) == 0xcbf29ce484222344;
    assert Mix(OFFSET_BASIS, 97) == 0xaf63_dc4c_8601_ec8c;
    assert [97 as byte][1..] == [];
    assert HashFrom(Mix(OFFSET_BASIS, 97), []) == Mix(OFFSET_BASIS, 97);
  }

  lemma HashTextInjective(a: seq<byte>, b: seq<byte>)
    ensures HashText(a) == HashText(b) <==> HashOf(a) == HashOf(b)
  {
    if HashText(a) == HashText(b) {
      assert Hex(HashOf(a), 16) == HashText(a)[14..] && Hex(HashOf(b), 16) == HashText(b)[14..];
      PowerOfSixteen(16);
      SixtyFourBits();
      HexInjective(HashOf(a), HashOf(b), 16);
    }
  }

  /** Labels of equal length that differ in one byte never share a hash. */
  lemma OneByteChangesHash(a: seq<byte>, b: seq<byte>, i: nat)
    requires |a| == |b| && i < |a|
    requires forall j :: 0 <= j < |a| && j != i ==> a[j] == b[j]
    ensures HashText(a) == HashText(b) <==> a[i] == b[i]
  {
    var p, s := a[..i], a[i + 1..];
    assert p == b[..i] && s == b[i + 1..];
    assert a == p + ([a[i]] + s) && b == p + ([b[i]] + s);
    HashFromConcat(OFFSET_BASIS, p, [a[i]] + s);
    HashFromConcat(OFFSET_BASIS, p, [b[i]] + s);
    var h := HashFrom(OFFSET_BASIS, p);
    assert ([a[i]] + s)[1..] == s && ([b[i]] + s)[1..] == s;
    SuffixKeepsDifference(Mix(h, a[i]), Mix(h, b[i]), s);
    if Mix(h, a[i]) == Mix(h, b[i]) { MixInjective(h, a[i], h, b[i]); }
    HashTextInjective(a, b);
  }
}
