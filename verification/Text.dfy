/**
 Byte strings, their lexicographic order, and decimal text.

 A `string` stands for the UTF-8 bytes of a Rust `str`, one `char` per byte, so positions are byte
 offsets and `<` on characters is the byte order that `str::cmp` uses.
 */
module Text {
  import opened Wrappers

  /** `str::cmp` returns Less. */
  predicate Less(a: string, b: string) {
    b != [] && (a == [] || a[0] < b[0] || (a[0] == b[0] && Less(a[1..], b[1..])))
  }

  lemma {:induction false} LessTrichotomy(a: string, b: string)
    ensures Less(a, b) || a == b || Less(b, a)
    ensures !(Less(a, b) && Less(b, a))
    ensures !Less(a, a)
  {
    if a != [] && b != [] {
      assert a == [a[0]] + a[1..] && b == [b[0]] + b[1..];
      LessTrichotomy(a[1..], b[1..]);
    }
    if a != [] {
      LessTrichotomy(a[1..], a[1..]);
    }
  }

  lemma {:induction false} LessTransitive(a: string, b: string, c: string)
    requires Less(a, b) && Less(b, c)
    ensures Less(a, c)
  {
    if a != [] && a[0] == b[0] == c[0] {
      LessTransitive(a[1..], b[1..], c[1..]);
    }
  }

  // Sorted iteration over a finite set of keys (the order of a `BTreeMap`).

  predicate StrictlySorted(keys: seq<string>) {
    forall i, j :: 0 <= i < j < |keys| ==> Less(keys[i], keys[j])
  }

  predicate IsLeast(k: string, s: set<string>) {
    k in s && forall x :: x in s ==> x == k || Less(k, x)
  }

  lemma {:induction false} LeastExists(s: set<string>)
    requires s != {}
    ensures exists k :: IsLeast(k, s)
  {
    var x :| x in s;
    if s == {x} {
      assert IsLeast(x, s);
    } else {
      LeastExists(s - {x});
      var k :| IsLeast(k, s - {x});
      LessTrichotomy(k, x);
      if Less(k, x) {
        assert IsLeast(k, s);
      } else {
        forall y | y in s ensures y == x || Less(x, y) {
          if y != x && y != k { LessTransitive(x, k, y); }
        }
        assert IsLeast(x, s);
      }
    }
  }

  /** The least element of a non-empty set. */
  function Least(s: set<string>): (k: string)
    requires s != {}
    ensures IsLeast(k, s)
  {
    LeastExists(s);
    assert forall a, b :: IsLeast(a, s) && IsLeast(b, s) ==> a == b by {
      forall a, b | IsLeast(a, s) && IsLeast(b, s) ensures a == b { LessTrichotomy(a, b); }
    }
    var k :| IsLeast(k, s);
    k
  }

  /** The keys in ascending order. */
  function SortedKeys(s: set<string>): (keys: seq<string>)
    ensures StrictlySorted(keys)
    ensures forall k :: k in keys <==> k in s
  {
    if s == {} then []
    else
      var k := Least(s);
      var rest := SortedKeys(s - {k});
      [k] + rest
  }

  // Decimal text.

  predicate IsDigit(c: char) {
    '0' <= c <= '9'
  }

  predicate AllDigits(s: string) {
    forall i :: 0 <= i < |s| ==> IsDigit(s[i])
  }

  function DigitChar(d: nat): char
    requires d < 10
  {
    '0' + d as char
  }

  /** The number a run of digits denotes; leading zeros are allowed. */
  function DigitsValue(s: string): nat
    requires AllDigits(s)
  {
    if s == [] then 0
    else DigitsValue(s[..|s| - 1]) * 10 + (s[|s| - 1] as int - '0' as int)
  }

  /** `to_string` of an unsigned integer. */
  function DecNat(n: nat): (s: string)
    ensures s != [] && AllDigits(s)
  {
    if n < 10 then [DigitChar(n)] else DecNat(n / 10) + [DigitChar(n % 10)]
  }

  /** `to_string` of a signed integer. */
  function Dec(n: int): (s: string)
    ensures s != []
  {
    if n < 0 then "-" + DecNat(-n) else DecNat(n)
  }

  const I64_MIN: int := -0x8000_0000_0000_0000
  const I64_MAX: int := 0x7FFF_FFFF_FFFF_FFFF

  /** `str::parse::<i64>`: an optional sign and at least one digit, within 64 signed bits. */
  function ParseI64(s: string): Option<int> {
    var negative := s != [] && s[0] == '-';
    var digits := if s != [] && (s[0] == '-' || s[0] == '+') then s[1..] else s;
    if digits == [] || !AllDigits(digits) then None
    else
      InI64(if negative then 0 - DigitsValue(digits) else DigitsValue(digits))
  }

  function InI64(n: int): Option<int> {
    if I64_MIN <= n <= I64_MAX then Some(n) else None
  }

  lemma {:induction false} DecNatValue(n: nat)
    ensures DigitsValue(DecNat(n)) == n
    ensures n > 0 ==> DecNat(n)[0] != '0'
  {
    if n >= 10 {
      DecNatValue(n / 10);
      var s := DecNat(n);
      assert s[..|s| - 1] == DecNat(n / 10);
    } else {
      assert DecNat(n)[..0] == [];
    }
  }

  /** Printing an integer and parsing it back is the identity exactly on the 64-bit signed range. */
  lemma {:induction false} ParseDec(n: int)
    ensures ParseI64(Dec(n)) == InI64(n)
  {
    if n < 0 {
      var digits := DecNat(-n);
      DecNatValue(-n);
      assert ("-" + digits)[1..] == digits;
    } else {
      var digits := DecNat(n);
      DecNatValue(n);
      assert IsDigit(digits[0]);
    }
  }

  lemma {:induction false} DecBits()
    ensures Dec(0) == "0" && Dec(1) == "1"
  {
    assert DecNat(0) == [DigitChar(0)] && DecNat(1) == [DigitChar(1)];
  }

  /** `to_string` never maps two integers to one text. */
  lemma {:induction false} DecInjective(a: int, b: int)
    requires Dec(a) == Dec(b)
    ensures a == b
  {
    DecNatValue(if a < 0 then -a else a);
    DecNatValue(if b < 0 then -b else b);
    assert DecNat(if a < 0 then -a else a)[0] != '-' && DecNat(if b < 0 then -b else b)[0] != '-';
    if a < 0 {
      assert Dec(a)[1..] == DecNat(-a) && Dec(b)[1..] == DecNat(-b);
    }
  }

  // What the order and the parser mean, character by character.

  /** `a` comes first: at the first place where they differ it has ended or has the smaller byte. */
  lemma {:induction false} LessExactly(a: string, b: string)
    ensures Less(a, b) <==>
            exists i :: 0 <= i <= |a| && i < |b| && a[..i] == b[..i] && (i == |a| || a[i] < b[i])
  {
    if Less(a, b) {
      var i := DifferAt(a, b);
    } else {
      forall i | 0 <= i <= |a| && i < |b| && a[..i] == b[..i] ensures i < |a| && a[i] >= b[i] { NotLess(a, b, i); }
    }
  }

  lemma {:induction false} DifferAt(a: string, b: string) returns (i: nat)
    requires Less(a, b)
    ensures i <= |a| && i < |b| && a[..i] == b[..i] && (i == |a| || a[i] < b[i])
  {
    if a == [] || a[0] < b[0] {
      i := 0;
    } else {
      var j := DifferAt(a[1..], b[1..]);
      i := j + 1;
      assert a[..i] == [a[0]] + a[1..][..j] && b[..i] == [b[0]] + b[1..][..j];
    }
  }

  lemma {:induction false} NotLess(a: string, b: string, i: nat)
    requires !Less(a, b) && i <= |a| && i < |b| && a[..i] == b[..i]
    ensures i < |a| && a[i] >= b[i]
  {
    if i > 0 {
      assert a[0] == a[..i][0] == b[..i][0] == b[0];
      assert a[1..][..i - 1] == a[..i][1..] == b[..i][1..] == b[1..][..i - 1];
      NotLess(a[1..], b[1..], i - 1);
    }
  }

  predicate Decimal(s: string) {
    s != [] && forall i :: 0 <= i < |s| ==> '0' <= s[i] <= '9'
  }

  function Pow10(k: nat): nat {
    if k == 0 then 1 else 10 * Pow10(k - 1)
  }

  function DigitOf(c: char): nat {
    if '0' <= c <= '9' then c as nat - '0' as nat else 0
  }

  /** The value of decimal digits by their places. */
  function Places(s: string): nat {
    if s == [] then 0 else DigitOf(s[0]) * Pow10(|s| - 1) + Places(s[1..])
  }

  lemma {:induction false} LastPlace(s: string)
    requires s != []
    ensures Places(s) == Places(s[..|s| - 1]) * 10 + DigitOf(s[|s| - 1])
  {
    hide DigitOf;
    var n := |s| - 1;
    if n == 0 {
      assert s[1..] == [] && s[..0] == [] && Pow10(0) == 1;
    } else {
      LastPlace(s[1..]);
      assert s[1..][..n - 1] == s[..n][1..];
      Distribute(DigitOf(s[0]), Pow10(n - 1), Places(s[..n][1..]));
    }
  }

  lemma {:induction false} Distribute(d: nat, p: nat, rest: nat)
    ensures d * (10 * p) + rest * 10 == (d * p + rest) * 10
  {
  }

  lemma {:induction false} DigitsArePlaces(s: string)
    requires AllDigits(s)
    ensures DigitsValue(s) == Places(s)
  {
    if s != [] {
      DigitsArePlaces(s[..|s| - 1]);
      LastPlace(s);
    }
  }

  /** A text is an `i64` exactly if it is decimal digits, with an optional sign, of a value within 64 bits. */
  lemma {:induction false} ParsesExactly(s: string, n: int)
    ensures ParseI64(s) == Some(n) <==>
            && -0x8000_0000_0000_0000 <= n <= 0x7FFF_FFFF_FFFF_FFFF
            && ((Decimal(s) && n == Places(s))
                || (s != [] && s[0] == '+' && Decimal(s[1..]) && n == Places(s[1..]))
                || (s != [] && s[0] == '-' && Decimal(s[1..]) && n == 0 - Places(s[1..])))
  {
    if AllDigits(s) { DigitsArePlaces(s); }
    if s != [] && AllDigits(s[1..]) { DigitsArePlaces(s[1..]); }
  }
}
