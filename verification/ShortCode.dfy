/** The readable short code of a licence: a 32-bit hash in seven Crockford characters and a
    Luhn mod 32 check character. */
module ShortCode {
  import opened Bytes

  const RADIX: nat := 32
  const DATA_LEN: nat := 7
  const BODY_LEN: nat := 8

  type Digit = d: nat | d < 32

  type u32 = h: int | 0 <= h < 0x1_0000_0000

  // ------------------------------------------------------------ Luhn mod 32

  function Addend(factor: nat, d: Digit): nat {
    factor * d / RADIX + factor * d % RADIX
  }

  /** The weighted sum from the right, the factors alternating between 1 and 2. */
  function Total(s: seq<Digit>, factor: nat): nat
    requires 1 <= factor <= 2
    decreases |s|
  {
    if s == [] then 0 else Addend(factor, s[|s| - 1]) + Total(s[..|s| - 1], 3 - factor)
  }

  function Check(body: seq<Digit>): Digit {
    (RADIX - Total(body, 2) % RADIX) % RADIX
  }

  /** The last digit is the check digit of the others. */
  predicate Valid(code: seq<Digit>)
    requires code != []
  {
    code[|code| - 1] == Check(code[..|code| - 1])
  }

  /** A code is valid exactly when its weighted sum, check digit included, is 0 mod 32. */
  lemma ValidIsZeroSum(code: seq<Digit>)
    requires code != []
    ensures Valid(code) <==> Total(code, 1) % RADIX == 0
  {
    var t := Total(code[..|code| - 1], 2);
    assert Addend(1, code[|code| - 1]) == code[|code| - 1];
    assert Total(code, 1) == code[|code| - 1] + t;
    ComplementZero(t, code[|code| - 1]);
  }

  lemma ComplementZero(t: nat, d: Digit)
    ensures d == (32 - t % 32) % 32 <==> (d + t) % 32 == 0
  {
  }

  function FactorAt(n: nat, factor: nat, i: nat): (f: nat)
    requires i < n && 1 <= factor <= 2
    ensures 1 <= f <= 2
  {
    if (n - 1 - i) % 2 == 0 then factor else 3 - factor
  }

  lemma {:induction false} TotalChange(s: seq<Digit>, factor: nat, i: nat, v: Digit)
    requires i < |s| && 1 <= factor <= 2
    ensures Total(s[i := v], factor) + Addend(FactorAt(|s|, factor, i), s[i])
            == Total(s, factor) + Addend(FactorAt(|s|, factor, i), v)
    decreases |s|
  {
    hide Addend;
    var n := |s| - 1;
    if i < n {
      assert s[i := v][..n] == s[..n][i := v];
      TotalChange(s[..n], 3 - factor, i, v);
    } else {
      assert s[i := v][..n] == s[..n];
    }
  }

  /** Doubling with the carry folded back is a permutation of the digits, and its distance
      from the digit itself tells all digits apart but 0 and 31. */
  lemma AddendFacts(factor: nat, a: Digit, b: Digit)
    requires 1 <= factor <= 2
    ensures Addend(factor, a) < 32
    ensures Addend(factor, a) == Addend(factor, b) <==> a == b
    ensures (Addend(2, a) + Addend(1, b)) % 32 == (Addend(2, b) + Addend(1, a)) % 32
            <==> a == b || (a == 0 && b == 31) || (a == 31 && b == 0)
  {
    hide Addend;
    AddendIs(a);
    AddendIs(b);
    FoldedDistance(a, b);
  }

  function Folded(d: Digit): Digit {
    if d < 16 then 2 * d else 2 * d - 31
  }

  lemma AddendIs(d: Digit)
    ensures Addend(1, d) == d && Addend(2, d) == Folded(d)
  {
  }

  lemma FoldedDistance(a: Digit, b: Digit)
    ensures (Folded(a) + b) % 32 == (Folded(b) + a) % 32
            <==> a == b || (a == 0 && b == 31) || (a == 31 && b == 0)
  {
    var x, y := Folded(a) + b, Folded(b) + a;
    assert x % 32 == y % 32 <==> (x == y || x == y + 32 || y == x + 32);
  }

  lemma SameMod(x: nat, y: nat, a: nat, b: nat)
    requires x + a == y + b && x % 32 == 0
    ensures y % 32 == 0 <==> a % 32 == b % 32
  {
  }

  /** A wrong character is always noticed, in a code of any length and at any place. */
  lemma SingleErrorDetected(code: seq<Digit>, i: nat, v: Digit)
    requires i < |code| && Valid(code) && v != code[i]
    ensures !Valid(code[i := v])
  {
    hide Addend;
    hide Valid;
    var f := FactorAt(|code|, 1, i);
    ValidIsZeroSum(code);
    ValidIsZeroSum(code[i := v]);
    TotalChange(code, 1, i, v);
    AddendFacts(f, code[i], v);
    AddendFacts(f, v, v);
    SameMod(Total(code, 1), Total(code[i := v], 1), Addend(f, v), Addend(f, code[i]));
  }

  function Swapped(s: seq<Digit>, i: nat): seq<Digit>
    requires i + 1 < |s|
  {
    s[i := s[i + 1]][i + 1 := s[i]]
  }

  /** Two neighbours in the wrong order are noticed exactly when they differ and are not
      the digits 0 and 31, which are the characters '0' and 'Z'. */
  lemma SwapDetected(code: seq<Digit>, i: nat)
    requires i + 1 < |code| && Valid(code)
    ensures !Valid(Swapped(code, i))
            <==> code[i] != code[i + 1] && {code[i], code[i + 1]} != {0, 31}
  {
    hide Addend;
    hide Valid;
    var a, b, n := code[i], code[i + 1], |code|;
    ValidIsZeroSum(code);
    ValidIsZeroSum(Swapped(code, i));
    TotalChange(code, 1, i, b);
    TotalChange(code[i := b], 1, i + 1, a);
    var f, g := FactorAt(n, 1, i), FactorAt(n, 1, i + 1);
    assert f + g == 3;
    AddendFacts(f, a, b);
    SameMod(Total(code, 1), Total(Swapped(code, i), 1), Addend(f, b) + Addend(g, a), Addend(f, a) + Addend(g, b));
    PairIs(a, b);
  }

  lemma PairIs(a: Digit, b: Digit)
    ensures {a, b} == {0, 31} <==> (a == 0 && b == 31) || (a == 31 && b == 0)
  {
    assert 0 in {0, 31} && 31 in {0, 31};
    if {a, b} == {0, 31} {
      assert a in {0, 31} && b in {0, 31} && 0 in {a, b} && 31 in {a, b};
    }
  }

  // ------------------------------------------------------------ the hash and its characters

  predicate Ascii(id: string) {
    forall i :: 0 <= i < |id| ==> id[i] < 128 as char
  }

  /** One byte of FNV-1a, modulo 2^32. */
  function Mix(h: bv32, c: char): bv32
    requires c < 128 as char
  {
    (h ^ (c as int as bv32)) * 0x01000193
  }

  /** FNV-1a over the bytes of an ASCII string. */
  function Fnv1a32(id: string): bv32
    requires Ascii(id)
    decreases |id|
  {
    if id == [] then 0x811C9DC5 else Mix(Fnv1a32(id[..|id| - 1]), id[|id| - 1])
  }

  method HashId(id: string) returns (h: bv32)
    requires Ascii(id)
    ensures h == Fnv1a32(id)
  {
    hide Mix;
    h := 0x811C9DC5;
    for i := 0 to |id|
      invariant h == Fnv1a32(id[..i])
    {
      assert id[..i + 1][..i] == id[..i];
      h := Mix(h, id[i]);
    }
    assert id[..|id|] == id;
  }

  function Pow32(n: nat): (p: nat)
    ensures p >= 1
  {
    if n == 0 then 1 else 32 * Pow32(n - 1)
  }

  /** The n low base-32 digits of h, most significant first: shift right, mask with 0x1F. */
  function Digits(h: nat, n: nat): (s: seq<Digit>)
    ensures |s| == n
  {
    if n == 0 then [] else Digits(h / 32, n - 1) + [h % 32]
  }

  function Value(s: seq<Digit>): nat
    decreases |s|
  {
    if s == [] then 0 else 32 * Value(s[..|s| - 1]) + s[|s| - 1]
  }

  /** The digits determine the number as far as they reach. */
  lemma {:induction false} ValueOfDigits(h: nat, n: nat)
    requires h < Pow32(n)
    ensures Value(Digits(h, n)) == h
    decreases n
  {
    if n > 0 {
      ValueOfDigits(h / 32, n - 1);
      assert Digits(h, n)[..n - 1] == Digits(h / 32, n - 1);
    }
  }

  lemma Pow32Seven()
    ensures Pow32(DATA_LEN) >= 0x1_0000_0000
  {
    assert Pow32(3) == 32768;
    assert Pow32(5) == 33554432;
  }

  /** The seven data characters determine the whole 32-bit hash. */
  lemma DataDeterminesHash(h: u32, k: u32)
    ensures Digits(h, DATA_LEN) == Digits(k, DATA_LEN) <==> h == k
  {
    Pow32Seven();
    ValueOfDigits(h, DATA_LEN);
    ValueOfDigits(k, DATA_LEN);
  }

  /** The i-th digit of n, as the code's shift by 5 (n-1-i) and mask gives it. */
  lemma {:induction false} DigitAt(h: nat, n: nat, i: nat)
    requires i < n
    ensures Digits(h, n)[i] == h / Pow32(n - 1 - i) % 32
    decreases n
  {
    if i < n - 1 {
      DigitAt(h / 32, n - 1, i);
      DivTwice(h, Pow32(n - 2 - i));
    }
  }

  /** _crockford32_7, on digits: seven five-bit groups from the top. */
  method DataDigits(h: u32) returns (s: seq<Digit>)
    ensures s == Digits(h, DATA_LEN) && Value(s) == h
  {
    s := [];
    for i := 0 to DATA_LEN
      invariant |s| == i && forall k :: 0 <= k < i ==> s[k] == Digits(h, DATA_LEN)[k]
    {
      DigitAt(h, DATA_LEN, i);
      s := s + [h / Pow32(DATA_LEN - 1 - i) % 32];
    }
    assert s == Digits(h, DATA_LEN);
    Pow32Seven();
    ValueOfDigits(h, DATA_LEN);
  }

  lemma DivTwice(h: nat, p: nat)
    requires p >= 1
    ensures h / 32 / p == h / (32 * p)
  {
    var q, r := h / 32, h % 32;
    var a, b := q / p, q % p;
    assert q == p * a + b;
    assert h == 32 * p * a + (32 * b + r);
    assert 32 * b + r < 32 * p;
    ModUnique(h, 32 * p, a, 32 * b + r);
  }

  // ------------------------------------------------------------ characters

  const PREFIX: string := "TTB"

  /** The character of a digit: Crockford's alphabet leaves out I, L, O and U. */
  function Symbol(d: Digit): char {
    if d < 10 then '0' + d as char
    else if d < 18 then 'A' + (d - 10) as char
    else if d < 20 then 'J' + (d - 18) as char
    else if d < 22 then 'M' + (d - 20) as char
    else if d < 27 then 'P' + (d - 22) as char
    else 'V' + (d - 27) as char
  }

  function Symbols(s: seq<Digit>): (t: string)
    ensures |t| == |s| && forall i :: 0 <= i < |s| ==> t[i] == Symbol(s[i])
  {
    seq(|s|, i requires 0 <= i < |s| => Symbol(s[i]))
  }

  /** The digit of a character, or -1 when it is not in the alphabet. */
  function AlphabetIndex(c: char): (d: int)
    ensures -1 <= d < 32 && (d >= 0 ==> Symbol(d) == c)
  {
    if '0' <= c <= '9' then (c - '0') as int
    else if 'A' <= c <= 'H' then 10 + (c - 'A') as int
    else if 'J' <= c <= 'K' then 18 + (c - 'J') as int
    else if 'M' <= c <= 'N' then 20 + (c - 'M') as int
    else if 'P' <= c <= 'T' then 22 + (c - 'P') as int
    else if 'V' <= c <= 'Z' then 27 + (c - 'V') as int
    else -1
  }

  lemma IndexOfSymbol(d: Digit)
    ensures AlphabetIndex(Symbol(d)) == d
  {
  }

  /** Upper case, with every character beyond ASCII that becomes letters of ASCII. All others
      stay outside the alphabet, so it does not matter what they become. */
  function Upper(c: char): string {
    if 'a' <= c <= 'z' then ['A' + (c - 'a')]
    else if c == '\U{00DF}' then ['S', 'S']
    else if c == '\U{0131}' then ['I']
    else if c == '\U{017F}' then ['S']
    else if c == '\U{FB00}' then ['F', 'F']
    else if c == '\U{FB01}' then ['F', 'I']
    else if c == '\U{FB02}' then ['F', 'L']
    else if c == '\U{FB03}' then ['F', 'F', 'I']
    else if c == '\U{FB04}' then ['F', 'F', 'L']
    else if c == '\U{FB05}' || c == '\U{FB06}' then ['S', 'T']
    else [c]
  }

  /** Crockford's reading of what people type: O is 0, I and L are 1. */
  function Normalize(c: char): string {
    var u := Upper(c);
    if u == ['O'] then ['0'] else if u == ['I'] || u == ['L'] then ['1'] else u
  }

  predicate Separator(c: char) {
    c == '-' || c == ' ' || c == '\t' || c == '\r' || c == '\n'
  }

  /** The code without separators, normalised. */
  function Stripped(code: string): string
    decreases |code|
  {
    if code == [] then []
    else Stripped(code[..|code| - 1]) + if Separator(code[|code| - 1]) then [] else Normalize(code[|code| - 1])
  }

  function WithoutPrefix(norm: string): string {
    if |norm| >= 3 && norm[..3] == PREFIX then norm[3..] else norm
  }

  predicate InAlphabet(s: string) {
    forall i :: 0 <= i < |s| ==> AlphabetIndex(s[i]) >= 0
  }

  function Indices(s: string): (d: seq<Digit>)
    requires InAlphabet(s)
    ensures |d| == |s|
  {
    seq(|s|, i requires 0 <= i < |s| => AlphabetIndex(s[i]))
  }

  predicate Verifies(code: string) {
    var norm := WithoutPrefix(Stripped(code));
    |norm| == BODY_LEN && InAlphabet(norm) && Valid(Indices(norm))
  }

  /** _luhn_mod32_check: None for a body with a character outside the alphabet. */
  method LuhnCheck(body: string) returns (found: bool, check: char)
    ensures found == InAlphabet(body)
    ensures found ==> check == Symbol(Check(Indices(body)))
  {
    hide Addend;
    hide Symbol;
    hide AlphabetIndex;
    var factor, total := 2, 0;
    check := '0';
    assert InAlphabet(body) ==> Indices(body)[..|body|] == Indices(body);
    for i := |body| downto 0
      invariant factor == 1 || factor == 2
      invariant InAlphabet(body[i..])
      invariant InAlphabet(body) ==> total + Total(Indices(body)[..i], factor) == Total(Indices(body), 2)
    {
      var index := AlphabetIndex(body[i]);
      if index < 0 { return false, check; }
      assert InAlphabet(body) ==> Indices(body)[..i + 1][..i] == Indices(body)[..i];
      var addend := Addend(factor, index);
      factor := if factor == 2 then 1 else 2;
      total := total + addend;
    }
    assert body[0..] == body;
    return true, Symbol((RADIX - total % RADIX) % RADIX);
  }

  /** verify_short_code. */
  method VerifyShortCode(code: string) returns (ok: bool)
    ensures ok == Verifies(code)
  {
    var norm := [];
    for i := 0 to |code|
      invariant norm == Stripped(code[..i])
    {
      assert code[..i + 1][..i] == code[..i];
      if !Separator(code[i]) { norm := norm + Normalize(code[i]); }
    }
    assert code[..|code|] == code;
    if |norm| >= 3 && norm[..3] == PREFIX { norm := norm[3..]; }
    if |norm| != BODY_LEN { return false; }
    if exists i :: 0 <= i < |norm| && AlphabetIndex(norm[i]) < 0 { return false; }
    var found, check := LuhnCheck(norm[..DATA_LEN]);
    VerifyStep(norm);
    return found && check == norm[DATA_LEN];
  }

  /** Comparing the check characters is comparing the check digits. */
  lemma VerifyStep(norm: string)
    requires |norm| == BODY_LEN && InAlphabet(norm)
    ensures InAlphabet(norm[..DATA_LEN])
    ensures norm[DATA_LEN] == Symbol(Check(Indices(norm[..DATA_LEN]))) <==> Valid(Indices(norm))
  {
    hide Check;
    assert Indices(norm)[..DATA_LEN] == Indices(norm[..DATA_LEN]);
    IndexOfSymbol(Check(Indices(norm[..DATA_LEN])));
  }

  predicate IdChar(c: char) {
    '0' <= c <= '9' || 'A' <= c <= 'Z' || 'a' <= c <= 'z' || c == '_' || c == '-'
  }

  predicate IsValidLicenseId(id: string) {
    1 <= |id| <= 64 && forall i :: 0 <= i < |id| ==> IdChar(id[i])
  }

  function Data(id: string): (d: seq<Digit>)
    requires IsValidLicenseId(id)
    ensures |d| == DATA_LEN
  {
    Digits(Fnv1a32(id) as int, DATA_LEN)
  }

  /** short_code: TTB-XXXX-XXXX, or nothing for an identifier that is not allowed. */
  function ShortCodeOf(id: string): string {
    if !IsValidLicenseId(id) then ""
    else
      var body := Symbols(Data(id));
      PREFIX + "-" + body[..4] + "-" + body[4..] + [Symbol(Check(Data(id)))]
  }

  lemma {:induction false} StrippedAppend(a: string, b: string)
    ensures Stripped(a + b) == Stripped(a) + Stripped(b)
    decreases |b|
  {
    hide Normalize;
    hide Separator;
    if b == [] {
      assert a + b == a;
    } else {
      assert (a + b)[..|a + b| - 1] == a + b[..|b| - 1];
      StrippedAppend(a, b[..|b| - 1]);
    }
  }

  lemma SymbolStable(d: Digit)
    ensures !Separator(Symbol(d)) && Normalize(Symbol(d)) == [Symbol(d)]
  {
  }

  lemma {:induction false} StrippedSymbols(s: seq<Digit>)
    ensures Stripped(Symbols(s)) == Symbols(s)
    decreases |s|
  {
    hide Normalize;
    hide Separator;
    if s != [] {
      assert Symbols(s)[..|s| - 1] == Symbols(s[..|s| - 1]);
      StrippedSymbols(s[..|s| - 1]);
      SymbolStable(s[|s| - 1]);
      assert Symbols(s) == Symbols(s[..|s| - 1]) + [Symbol(s[|s| - 1])];
    }
  }

  lemma IndicesOfSymbols(s: seq<Digit>)
    ensures InAlphabet(Symbols(s)) && Indices(Symbols(s)) == s
  {
    forall i | 0 <= i < |s| ensures AlphabetIndex(Symbols(s)[i]) == s[i] {
      IndexOfSymbol(s[i]);
    }
  }

  lemma StripsToDigits(code: string, digits: seq<Digit>)
    requires WithoutPrefix(Stripped(code)) == Symbols(digits)
    ensures Verifies(code) <==> |digits| == BODY_LEN && Valid(digits)
  {
    IndicesOfSymbols(digits);
  }

  /** Stripping the printed form leaves its parts. */
  lemma StrippedParts(a: string, b: string, c: string)
    requires Stripped(a) == a && Stripped(b) == b && Stripped(c) == c
    ensures Stripped(PREFIX + "-" + a + "-" + b + c) == PREFIX + a + b + c
  {
    hide Stripped;
    var s0 := PREFIX + "-";
    var s1 := s0 + a;
    var s2 := s1 + "-";
    var s3 := s2 + b;
    StrippedPrefix();
    StrippedDash();
    StrippedAppend(PREFIX, "-");
    StrippedAppend(s0, a);
    StrippedAppend(s1, "-");
    StrippedAppend(s2, b);
    StrippedAppend(s3, c);
  }

  lemma StrippedDash()
    ensures Stripped("-") == []
  {
  }

  lemma StripOfCode(id: string)
    requires IsValidLicenseId(id)
    ensures Stripped(ShortCodeOf(id)) == PREFIX + Symbols(Data(id) + [Check(Data(id))])
  {
    hide Check;
    hide Data;
    hide Stripped;
    hide Symbol;
    var d, c := Data(id), Check(Data(id));
    var body, last := Symbols(d), Symbols([c]);
    assert body[..4] == Symbols(d[..4]) && body[4..] == Symbols(d[4..]) && last == [Symbol(c)];
    StrippedSymbols(d[..4]);
    StrippedSymbols(d[4..]);
    StrippedSymbols([c]);
    StrippedParts(body[..4], body[4..], last);
    assert Symbols(d + [c]) == body[..4] + body[4..] + last;
    assert PREFIX + (body[..4] + body[4..] + last) == PREFIX + body[..4] + body[4..] + last;
  }

  lemma StrippedOne(c: char)
    requires !Separator(c) && Normalize(c) == [c]
    ensures Stripped([c]) == [c]
  {
    assert [c][..0] == [];
  }

  lemma StrippedPrefix()
    ensures Stripped(PREFIX) == PREFIX
  {
    hide Stripped;
    StrippedOne('T');
    StrippedOne('B');
    StrippedAppend(['T'], ['T']);
    StrippedAppend(['T'] + ['T'], ['B']);
    assert PREFIX == ['T'] + ['T'] + ['B'];
  }

  /** Every licence identifier that is allowed has a code, and the code verifies. */
  lemma OwnCodeVerifies(id: string)
    ensures IsValidLicenseId(id) ==> Verifies(ShortCodeOf(id))
    ensures !IsValidLicenseId(id) ==> !Verifies(ShortCodeOf(id))
  {
    if IsValidLicenseId(id) {
      hide Check;
      hide Symbols;
      StripOfCode(id);
      var digits := Data(id) + [Check(Data(id))];
      assert (PREFIX + Symbols(digits))[..3] == PREFIX && (PREFIX + Symbols(digits))[3..] == Symbols(digits);
      StripsToDigits(ShortCodeOf(id), digits);
      assert digits[..DATA_LEN] == Data(id);
    }
  }

  /** Eight digits alone verify exactly when they do not spell TTB first, which the verifier
      takes for the prefix and drops. */
  lemma BareDigitsVerify(digits: seq<Digit>)
    requires |digits| == BODY_LEN && Valid(digits)
    ensures Verifies(Symbols(digits)) <==> Symbols(digits)[..3] != PREFIX
  {
    hide Valid;
    StrippedSymbols(digits);
    if Symbols(digits)[..3] != PREFIX {
      StripsToDigits(Symbols(digits), digits);
    }
  }

  /** The top group holds only the two highest of 32 bits. */
  lemma FirstDigit(h: u32)
    ensures Digits(h, DATA_LEN)[0] == h / 0x4000_0000
  {
    assert Pow32(3) == 32768;
    assert Pow32(4) == 32 * Pow32(3);
    assert Pow32(5) == 32 * Pow32(4);
    assert Pow32(6) == 32 * Pow32(5);
    DigitAt(h, DATA_LEN, 0);
  }

  /** A code copied without its prefix verifies too: the first of its eight characters is
      0, 1, 2 or 3, so none of them is taken for the prefix. */
  lemma BareCodeVerifies(id: string)
    requires IsValidLicenseId(id)
    ensures Verifies(Symbols(Data(id) + [Check(Data(id))]))
    ensures '0' <= Symbols(Data(id) + [Check(Data(id))])[0] <= '3'
  {
    hide Check;
    hide Verifies;
    FirstDigit(Fnv1a32(id) as int);
    var digits := Data(id) + [Check(Data(id))];
    assert digits[..DATA_LEN] == Data(id);
    assert digits[0] == (Fnv1a32(id) as int) / 0x4000_0000;
    assert Symbols(digits)[0] == Symbol(digits[0]);
    BareDigitsVerify(digits);
    assert PREFIX[0] == 'T' && Symbols(digits)[..3][0] == Symbols(digits)[0];
  }

  // ------------------------------------------------------------ what people type

  /** Digits and their characters, one by one. */
  lemma Alphabet(d: Digit)
    ensures Symbol(d) == "0123456789ABCDEFGHJKMNPQRSTVWXYZ"[d]
  {
  }

  /** c and d are read as the same character: a letter in either case, an O or a zero, an I, an
      L or a one. */
  predicate Alike(c: char, d: char) {
    || c == d
    || ('a' <= c <= 'z' && c != 'o' && c != 'i' && c != 'l' && d == 'A' + (c - 'a'))
    || (Oh(c) && Oh(d))
    || (One(c) && One(d))
  }

  predicate Oh(c: char) { c == '0' || c == 'O' || c == 'o' }

  predicate One(c: char) { c == '1' || c == 'I' || c == 'i' || c == 'L' || c == 'l' }

  lemma OhOrOneRead(c: char)
    ensures Oh(c) ==> Normalize(c) == ['0'] && !Separator(c)
    ensures One(c) ==> Normalize(c) == ['1'] && !Separator(c)
  {
  }

  lemma LowerCaseRead(c: char)
    requires 'a' <= c <= 'z' && c != 'o' && c != 'i' && c != 'l'
    ensures Normalize(c) == ['A' + (c - 'a')] == Normalize('A' + (c - 'a')) && !Separator('A' + (c - 'a'))
  {
  }

  lemma AlikeRead(c: char, d: char)
    requires Alike(c, d)
    ensures c == d || (Normalize(c) == Normalize(d) && !Separator(c) && !Separator(d))
  {
    OhOrOneRead(c);
    OhOrOneRead(d);
    if 'a' <= c <= 'z' && c != 'o' && c != 'i' && c != 'l' {
      LowerCaseRead(c);
    }
    hide Normalize;
    hide Oh;
    hide One;
  }

  /** It makes no difference to the verdict how a character is typed. */
  lemma TypingIsForgiven(a: string, c: char, d: char, b: string)
    requires Alike(c, d)
    ensures Verifies(a + [c] + b) <==> Verifies(a + [d] + b)
  {
    AlikeRead(c, d);
    StrippedChar(c);
    StrippedChar(d);
    hide Stripped;
    hide Normalize;
    hide Verifies;
    StrippedAround(a, c, b);
    StrippedAround(a, d, b);
    SameStripped(a + [c] + b, a + [d] + b);
  }

  /** Nor where spaces, tabs, line ends and dashes are put in. */
  lemma SeparatorsAreForgiven(a: string, c: char, b: string)
    requires c in "- \t\r\n"
    ensures Verifies(a + [c] + b) <==> Verifies(a + b)
  {
    StrippedChar(c);
    assert Separator(c);
    hide Stripped;
    hide Normalize;
    hide Verifies;
    StrippedAround(a, c, b);
    StrippedAppend(a, b);
    assert Stripped(a) + [] == Stripped(a);
    SameStripped(a + [c] + b, a + b);
  }

  lemma StrippedAround(a: string, c: char, b: string)
    ensures Stripped(a + [c] + b) == Stripped(a) + Stripped([c]) + Stripped(b)
  {
    hide Stripped;
    StrippedAppend(a + [c], b);
    StrippedAppend(a, [c]);
  }

  lemma StrippedChar(c: char)
    ensures Stripped([c]) == if Separator(c) then [] else Normalize(c)
  {
    assert [c][..0] == [];
    hide Normalize;
  }

  lemma SameStripped(x: string, y: string)
    ensures Stripped(x) == Stripped(y) ==> (Verifies(x) <==> Verifies(y))
  {
    hide Stripped;
  }

  // ------------------------------------------------------------ who gets a code

  /** ASCII digits, letters, underscore and dash, by their codes. */
  predicate Allowed(code: int) {
    48 <= code <= 57 || 65 <= code <= 90 || 97 <= code <= 122 || code == 95 || code == 45
  }

  /** An identifier has a code, thirteen characters long, exactly when it is one to 64 of these
      characters long. */
  lemma HasCodeExactly(id: string)
    ensures ShortCodeOf(id) != "" <==> 1 <= |id| <= 64 && forall i :: 0 <= i < |id| ==> Allowed(id[i] as int)
    ensures ShortCodeOf(id) != "" ==> |ShortCodeOf(id)| == 13
  {
    forall i | 0 <= i < |id| ensures IdChar(id[i]) <==> Allowed(id[i] as int) {
    }
    hide Symbol;
    hide Check;
    hide Data;
    hide IdChar;
  }
}
