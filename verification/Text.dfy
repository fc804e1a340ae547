/** The few string operations of Go's strings and strconv packages that the model needs. */
module Text {
  predicate IsDigit(c: char) {
    '0' <= c <= '9'
  }

  function Digits(n: nat): (s: string)
    ensures |s| >= 1
    ensures |s| == 1 <==> n < 10
    ensures forall i :: 0 <= i < |s| ==> IsDigit(s[i])
  {
    var last := [('0' as int + n % 10) as char];
    if n < 10 then last else Digits(n / 10) + last
  }

  /** strconv.Itoa */
  function Itoa(n: int): string {
    if n < 0 then "-" + Digits(-n) else Digits(n)
  }

  /** strings.ToLower on the ASCII letters */
  function ToLower(s: string): (r: string)
    ensures |r| == |s|
  {
    seq(|s|, i requires 0 <= i < |s| =>
      if 'A' <= s[i] <= 'Z' then (s[i] as int + 32) as char else s[i])
  }

  /** unicode.IsSpace */
  predicate IsSpace(c: char) {
    || c in {'\t', '\n', '\U{000B}', '\U{000C}', '\r', ' ', '\U{0085}', '\U{00A0}', '\U{1680}', '\U{2028}', '\U{2029}',
             '\U{202F}', '\U{205F}', '\U{3000}'}
    || '\U{2000}' <= c <= '\U{200A}'
  }

  /** strings.TrimSpace */
  function TrimSpace(s: string): string {
    if s != "" && IsSpace(s[0]) then TrimSpace(s[1..])
    else if s != "" && IsSpace(s[|s| - 1]) then TrimSpace(s[..|s| - 1])
    else s
  }

  function TrimPrefixDot(s: string): string {
    if |s| > 0 && s[0] == '.' then s[1..] else s
  }

  function TrimSuffixDot(s: string): string {
    if |s| > 0 && s[|s| - 1] == '.' then s[..|s| - 1] else s
  }

  predicate HasSuffix(s: string, suffix: string) {
    |suffix| <= |s| && s[|s| - |suffix|..] == suffix
  }

  /** The part after the last '@', or the whole string when there is none. */
  function AfterLastAt(s: string): string
    decreases |s|
  {
    if '@' !in s then s
    else if s[|s| - 1] == '@' then ""
    else AfterLastAt(s[..|s| - 1]) + [s[|s| - 1]]
  }

  lemma {:induction false} DigitsInjective(m: nat, n: nat)
    requires Digits(m) == Digits(n)
    ensures m == n
  {
    var dm, dn := Digits(m), Digits(n);
    assert dm[|dm| - 1] == ('0' as int + m % 10) as char;
    assert dn[|dn| - 1] == ('0' as int + n % 10) as char;
    if m >= 10 {
      assert dm[..|dm| - 1] == Digits(m / 10);
      assert n >= 10;
      assert dn[..|dn| - 1] == Digits(n / 10);
      DigitsInjective(m / 10, n / 10);
    }
  }

  lemma ItoaInjective(m: int, n: int)
    requires Itoa(m) == Itoa(n)
    ensures m == n
  {
    if m >= 0 {
      assert IsDigit(Itoa(m)[0]);
      DigitsInjective(m, n);
    } else {
      assert Itoa(m)[0] == '-';
      assert n < 0;
      assert Digits(-m) == Itoa(m)[1..] == Itoa(n)[1..] == Digits(-n);
      DigitsInjective(-m, -n);
    }
  }

  lemma ItoaHasNoColon(n: int)
    ensures ':' !in Itoa(n)
  {
    var s := Digits(if n < 0 then -n else n);
    assert forall i :: 0 <= i < |s| ==> IsDigit(s[i]);
  }

  /** What a numeral of decimal digits is worth, read from the left. */
  function ValueOf(s: string): int {
    if s == "" then 0 else 10 * ValueOf(s[..|s| - 1]) + (s[|s| - 1] as int - '0' as int)
  }

  lemma {:induction false} DigitsValue(n: nat)
    ensures ValueOf(Digits(n)) == n
    ensures n > 0 ==> Digits(n)[0] != '0'
  {
    var s := Digits(n);
    if n < 10 {
      assert s[..|s| - 1] == "";
    } else {
      DigitsValue(n / 10);
      assert s[..|s| - 1] == Digits(n / 10);
    }
  }

  /** A numeral is worth its number, has no leading zero, and a minus sign for a negative one. */
  lemma ItoaValue(n: int)
    ensures n >= 0 ==> ValueOf(Itoa(n)) == n
    ensures n < 0 ==> Itoa(n)[0] == '-' && ValueOf(Itoa(n)[1..]) == -n
    ensures n > 0 ==> Itoa(n)[0] != '0'
  {
    if n < 0 {
      DigitsValue(-n);
      assert Itoa(n)[1..] == Digits(-n);
    } else {
      DigitsValue(n);
    }
  }
}
