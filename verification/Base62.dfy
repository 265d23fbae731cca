/** Base 62 numbers of utils/base62.go, lowest digit first, in int64 arithmetic. */
module Base62 {
  import opened Bits

  const TWO63: int := 0x8000_0000_0000_0000
  const TWO64: int := 0x1_0000_0000_0000_0000

  /** What int64 arithmetic keeps of a number. */
  function Wrap64(x: int): int
  {
    (x + TWO63) % TWO64 - TWO63
  }

  /** It is the one int64 number that differs by a multiple of 2^64. */
  lemma WrapIs(x: int)
    ensures -0x8000_0000_0000_0000 <= Wrap64(x) < 0x8000_0000_0000_0000
    ensures (x - Wrap64(x)) % 0x1_0000_0000_0000_0000 == 0
  {
    var y := x + 0x8000_0000_0000_0000;
    assert x - Wrap64(x) == y / 0x1_0000_0000_0000_0000 * 0x1_0000_0000_0000_0000;
    RemainderIs(x - Wrap64(x), 0x1_0000_0000_0000_0000, y / 0x1_0000_0000_0000_0000, 0);
  }

  lemma WrapSum(a: int, b: int)
    ensures Wrap64(Wrap64(a) + Wrap64(b)) == Wrap64(a + b)
  {
    var qa, qb := (a + TWO63) / TWO64, (b + TWO63) / TWO64;
    assert Wrap64(a) + Wrap64(b) == a + b - (qa + qb) * TWO64;
    var s := a + b + TWO63;
    var q, r := s / TWO64, s % TWO64;
    assert s == q * TWO64 + r;
    RemainderIs(s - (qa + qb) * TWO64, TWO64, q - qa - qb, r);
  }

  /** The table EDOC: characters that are not digits count as 0. */
  function CharValue(c: char): nat
  {
    if '0' <= c <= '9' then (c - '0') as int
    else if 'a' <= c <= 'z' then 10 + (c - 'a') as int
    else if 'A' <= c <= 'Z' then 36 + (c - 'A') as int
    else 0
  }

  predicate IsDigit(c: char)
  {
    '0' <= c <= '9' || 'a' <= c <= 'z' || 'A' <= c <= 'Z'
  }

  /** The table CODE62: digits, then small letters, then capitals. */
  function DigitChar(d: nat): char
    requires d < 62
  {
    if d < 10 then '0' + d as char else if d < 36 then 'a' + (d - 10) as char else 'A' + (d - 36) as char
  }

  /** The six ends of the table's runs, and within a run each character follows the one before. */
  lemma TableIs(d: nat)
    requires d < 62
    ensures d == 0 ==> DigitChar(d) == '0'
    ensures d == 10 ==> DigitChar(d) == 'a'
    ensures d == 36 ==> DigitChar(d) == 'A'
    ensures d !in {0, 10, 36} ==> DigitChar(d) as int == DigitChar(d - 1) as int + 1
  {
  }

  /** A character that is not in the table counts as nothing. */
  lemma OtherCharacters(c: char)
    requires !('0' <= c <= '9') && !('a' <= c <= 'z') && !('A' <= c <= 'Z')
    ensures CharValue(c) == 0
  {
  }

  lemma DigitValue(d: nat)
    requires d < 62
    ensures IsDigit(DigitChar(d)) && CharValue(DigitChar(d)) == d
  {
  }

  lemma ValueDigit(c: char)
    requires IsDigit(c)
    ensures CharValue(c) < 62 && DigitChar(CharValue(c)) == c
  {
  }

  function Pow62(k: nat): nat
  {
    if k == 0 then 1 else 62 * Pow62(k - 1)
  }

  /** The number a digit string stands for. */
  function Value(s: string): nat
  {
    if s == "" then 0 else CharValue(s[0]) + 62 * Value(s[1..])
  }

  function Digits(n: nat): string
  {
    if n == 0 then "" else [DigitChar(n % 62)] + Digits(n / 62)
  }

  function Encode(n: int): string
  {
    if n == 0 then "0" else if n < 0 then "" else Digits(n)
  }

  method IntToBase62(number: int) returns (result: string)
    requires -0x8000_0000_0000_0000 <= number < 0x8000_0000_0000_0000
    ensures result == Encode(number)
    ensures number < 0 ==> result == ""
    ensures number == 0 ==> result == "0"
  {
    if number == 0 {
      return "0";
    }
    result := [];
    var n := number;
    while n > 0
      invariant number > 0 ==> n >= 0 && result + Digits(n) == Digits(number)
      invariant number < 0 ==> n == number && result == ""
      decreases if n > 0 then n else 0
    {
      var round, remain := n / 62, n % 62;
      assert result + ([DigitChar(remain)] + Digits(round)) == result + [DigitChar(remain)] + Digits(round);
      result := result + [DigitChar(remain)];
      n := round;
    }
    assert result + "" == result;
  }

  // ------------------------------------------------------------ decoding

  predicate IsSpace(c: char)
  {
    9 <= c as int <= 13 || c == ' '
  }

  /** strings.TrimSpace on single-byte characters. */
  function TrimSpace(s: string): string
  {
    if s == "" then ""
    else if IsSpace(s[0]) then TrimSpace(s[1..])
    else if IsSpace(s[|s| - 1]) then TrimSpace(s[..|s| - 1])
    else s
  }

  predicate IsBlank(c: char)
  {
    c in {'\t', '\n', '\U{000B}', '\U{000C}', '\r', ' '}
  }

  lemma BlankIs(c: char)
    ensures IsBlank(c) <==> IsSpace(c)
  {
  }

  /** What is trimmed off is blank, and what is left has no blank at either end. */
  lemma {:induction false} TrimIs(s: string) returns (i: nat, j: nat)
    ensures i <= j <= |s| && TrimSpace(s) == s[i..j]
    ensures forall k :: 0 <= k < i || j <= k < |s| ==> IsBlank(s[k])
    ensures i < j ==> !IsBlank(s[i]) && !IsBlank(s[j - 1])
  {
    hide IsBlank, IsSpace;
    if s != "" {
      BlankIs(s[0]);
      BlankIs(s[|s| - 1]);
    }
    if s == "" {
      i, j := 0, 0;
    } else if IsSpace(s[0]) {
      i, j := TrimIs(s[1..]);
      i, j := i + 1, j + 1;
      assert forall k :: 0 < k < |s| ==> s[k] == s[1..][k - 1];
    } else if IsSpace(s[|s| - 1]) {
      i, j := TrimIs(s[..|s| - 1]);
    } else {
      i, j := 0, |s|;
    }
  }

  lemma {:induction false} ValueSnoc(s: string, c: char)
    ensures Value(s + [c]) == Value(s) + CharValue(c) * Pow62(|s|)
  {
    hide CharValue;
    if s == "" {
      assert s + [c] == [c] && [c][1..] == "";
    } else {
      assert (s + [c])[1..] == s[1..] + [c];
      ValueSnoc(s[1..], c);
      Swap62(CharValue(c), Pow62(|s| - 1));
    }
  }

  lemma Swap62(v: nat, p: nat)
    ensures 62 * (v * p) == v * (62 * p)
  {
  }

  /** The factor of a position: a power of 62 while that is below 2^63, and from position 11 on whatever
      the conversion of a number that large to int64 yields on the machine at hand. */
  function Factor(index: nat, large: nat -> int): int
  {
    if index <= 10 then Pow62(index) else large(index)
  }

  /** A factor is the power of 62 exactly as long as an int64 holds it. */
  lemma FactorIs(index: nat, large: nat -> int)
    ensures Factor(index, large) == if Pow62(index) < 0x8000_0000_0000_0000 then Pow62(index) else large(index)
  {
    Pow62Eleven();
    if index <= 10 {
      Pow62Grows(index, 10);
    } else {
      Pow62Grows(11, index);
    }
  }

  lemma {:induction false} Pow62Grows(k: nat, m: nat)
    requires k <= m
    ensures 1 <= Pow62(k) <= Pow62(m)
    decreases m
  {
    if k < m {
      Pow62Grows(k, m - 1);
    } else if k > 0 {
      Pow62Grows(k - 1, m - 1);
    }
  }

  function Weighted(s: string, large: nat -> int): int
  {
    if s == "" then 0 else
      var init, c := s[..|s| - 1], s[|s| - 1];
      Weighted(init, large) + CharValue(c) * Factor(|init|, large)
  }

  /** Only zeros from position 11 on, so in particular at most eleven characters. */
  predicate ShortNumber(s: string)
  {
    forall i :: 11 <= i < |s| ==> CharValue(s[i]) == 0
  }

  lemma {:induction false} WeightedIsValue(s: string, large: nat -> int)
    requires ShortNumber(s)
    ensures Weighted(s, large) == Value(s)
  {
    hide CharValue, Pow62;
    if s != "" {
      var init, c := s[..|s| - 1], s[|s| - 1];
      assert s == init + [c];
      WeightedIsValue(init, large);
      ValueSnoc(init, c);
      if |init| > 10 {
        assert CharValue(s[|init|]) == 0;
      }
    } else {
      assert Value(s) == 0;
    }
  }

  /** The sum of digits times factors in int64 arithmetic; for a short number that is its value on every
      machine. */
  method Base62ToInt(str: string, large: nat -> int) returns (result: int)
    ensures result == Wrap64(Weighted(TrimSpace(str), large))
    ensures ShortNumber(TrimSpace(str)) ==> result == Wrap64(Value(TrimSpace(str)))
  {
    hide Wrap64, Factor, Value, ShortNumber;
    var s := TrimSpace(str);
    result := 0;
    StartValue();
    for index := 0 to |s|
      invariant result == Wrap64(Weighted(s[..index], large))
    {
      var product := Wrap64(CharValue(s[index]) * Factor(index, large));
      WrapSum(Weighted(s[..index], large), CharValue(s[index]) * Factor(index, large));
      assert s[..index + 1][..index] == s[..index];
      WrapTwice(Weighted(s[..index], large));
      result := Wrap64(result + product);
    }
    assert s[..|s|] == s;
    if ShortNumber(s) {
      WeightedIsValue(s, large);
    }
  }

  lemma StartValue()
    ensures Wrap64(0) == 0
  {
  }

  lemma WrapTwice(x: int)
    ensures Wrap64(Wrap64(x)) == Wrap64(x)
  {
  }

  /** The powers math.Pow yields are exact: 62^k is 2^k times an odd number below 2^53, up to k = 10. */
  lemma PowersExact(k: nat)
    requires k <= 10
    ensures Pow62(k) == Pow2(k) * Pow31(k) && Pow31(k) < 0x20_0000_0000_0000
  {
    PowerSplit(k);
    PowerGrows(k, 10);
    assert Pow31(10) == 819628286980801 by {
      assert Pow31(5) == 28629151 by { assert Pow31(2) == 961; assert Pow31(4) == 923521; }
      assert Pow31(8) == 852891037441 by { assert Pow31(6) == 887503681; assert Pow31(7) == 27512614111; }
    }
  }

  function Pow31(k: nat): nat
  {
    if k == 0 then 1 else 31 * Pow31(k - 1)
  }

  lemma {:induction false} PowerSplit(k: nat)
    ensures Pow62(k) == Pow2(k) * Pow31(k)
  {
    if k > 0 {
      PowerSplit(k - 1);
      assert 62 * (Pow2(k - 1) * Pow31(k - 1)) == (2 * Pow2(k - 1)) * (31 * Pow31(k - 1));
    }
  }

  lemma {:induction false} PowerGrows(k: nat, m: nat)
    requires k <= m
    ensures 1 <= Pow31(k) <= Pow31(m)
    decreases m
  {
    if m == 0 {
    } else if k < m {
      PowerGrows(k, m - 1);
    } else {
      PowerGrows(k - 1, m - 1);
    }
  }

  // ------------------------------------------------------------ the bijection

  predicate AllDigits(s: string)
  {
    forall i :: 0 <= i < |s| ==> IsDigit(s[i])
  }

  /** A digit string without superfluous zeros at its high end, which is its last character. */
  predicate Canonical(s: string)
  {
    s != "" && AllDigits(s) && (|s| > 1 ==> s[|s| - 1] != '0')
  }

  lemma {:induction false} ValueOfDigits(n: nat)
    ensures Value(Digits(n)) == n && AllDigits(Digits(n)) && (n > 0 ==> Canonical(Digits(n)) && Digits(n)[|Digits(n)| - 1] != '0')
  {
    if n > 0 {
      DigitValue(n % 62);
      ValueOfDigits(n / 62);
      assert Digits(n)[1..] == Digits(n / 62);
    }
  }

  lemma {:induction false} LengthOfDigits(n: nat, k: nat)
    requires n < Pow62(k)
    ensures |Digits(n)| <= k
  {
    if n > 0 {
      LengthOfDigits(n / 62, k - 1);
    }
  }

  lemma TrimDigits(s: string)
    requires AllDigits(s)
    ensures TrimSpace(s) == s
  {
  }

  lemma Pow62Eleven()
    ensures Pow62(10) < 0x8000_0000_0000_0000 <= Pow62(11)
  {
    assert Pow62(4) == 14776336 by { assert Pow62(2) == 3844; }
    assert Pow62(6) == 56800235584;
    assert Pow62(8) == 218340105584896;
    assert Pow62(10) == 839299365868340224;
  }

  /** Encoding then decoding: every non-negative int64 comes back, without overflow. */
  lemma EncodeDecode(n: int)
    requires 0 <= n < 0x8000_0000_0000_0000
    ensures Canonical(Encode(n)) && |Encode(n)| <= 11
    ensures Value(TrimSpace(Encode(n))) == n && Wrap64(n) == n
  {
    if n > 0 {
      ValueOfDigits(n);
      Pow62Eleven();
      LengthOfDigits(n, 11);
    }
    TrimDigits(Encode(n));
  }

  lemma {:induction false} DigitsOfValue(s: string)
    requires AllDigits(s) && s != "" && s[|s| - 1] != '0'
    ensures Value(s) > 0 && Digits(Value(s)) == s
  {
    ValueDigit(s[0]);
    RemainderIs(Value(s), 62, Value(s[1..]), CharValue(s[0]));
    assert s == [s[0]] + s[1..];
    if |s| > 1 {
      DigitsOfValue(s[1..]);
    }
  }

  /** Decoding then encoding: every canonical string comes back. */
  lemma DecodeEncode(s: string)
    requires Canonical(s)
    ensures Encode(Value(TrimSpace(s))) == s
  {
    TrimDigits(s);
    if s[|s| - 1] == '0' {
      assert s == "0" && Value(s) == 0;
    } else {
      DigitsOfValue(s);
    }
  }
}
