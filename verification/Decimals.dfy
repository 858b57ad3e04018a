/** Go's decimal formatting and parsing (strconv.FormatUint, strconv.Atoi, the %v verb on an int) and strings.Split. */
module Decimals {
  import opened Options

  const MIN_INT64 := -0x8000_0000_0000_0000
  const MAX_INT64 := 0x7fff_ffff_ffff_ffff

  function Digit(d: nat): char
    requires d < 10
  {
    '0' + (d as char)
  }

  predicate IsDigit(c: char) {
    '0' <= c <= '9'
  }

  function DigitValue(c: char): nat
    requires IsDigit(c)
  {
    (c - '0') as nat
  }

  function FormatNat(n: nat): (s: string)
    ensures s != "" && forall i | 0 <= i < |s| :: IsDigit(s[i])
  {
    if n < 10 then [Digit(n)] else FormatNat(n / 10) + [Digit(n % 10)]
  }

  function FormatInt(i: int): string {
    if i < 0 then "-" + FormatNat(-i) else FormatNat(i)
  }

  function ParseDigits(s: string): Option<nat> {
    if s == "" then Some(0)
    else
      var c := s[|s| - 1];
      if !IsDigit(c) then None
      else
        match ParseDigits(s[..|s| - 1])
        case None => None
        case Some(n) => Some(10 * n + DigitValue(c))
  }

  /** An optional sign, at least one digit and nothing else, within the range of a 64-bit int. */
  function Atoi(s: string): Option<int> {
    if s == "" then None
    else
      var signed := s[0] == '+' || s[0] == '-';
      var digits := if signed then s[1..] else s;
      if digits == "" then None
      else
        match ParseDigits(digits)
        case None => None
        case Some(n) =>
          var i := (if s[0] == '-' then -1 else 1) * n;
          if MIN_INT64 <= i <= MAX_INT64 then Some(i) else None
  }

  lemma {:induction false} ParseDigitsOfFormat(n: nat)
    ensures ParseDigits(FormatNat(n)) == Some(n)
  {
    var s := FormatNat(n);
    if n < 10 {
      assert s[..0] == "";
    } else {
      ParseDigitsOfFormat(n / 10);
      assert s[..|s| - 1] == FormatNat(n / 10);
    }
  }

  lemma AtoiUnsigned(digits: string, n: nat)
    requires digits != "" && IsDigit(digits[0]) && ParseDigits(digits) == Some(n) && n <= MAX_INT64
    ensures Atoi(digits) == Some(n)
  {
  }

  lemma AtoiSigned(s: string, digits: string, i: int)
    requires MIN_INT64 <= i < 0 && s == "-" + digits && digits != "" && ParseDigits(digits) == Some(-i)
    ensures Atoi(s) == Some(i)
  {
    assert s[1..] == digits;
  }

  /** Parsing a printed int gives it back. */
  lemma AtoiOfFormat(i: int)
    requires MIN_INT64 <= i <= MAX_INT64
    ensures Atoi(FormatInt(i)) == Some(i)
  {
    if i < 0 {
      ParseDigitsOfFormat(-i);
      AtoiSigned(FormatInt(i), FormatNat(-i), i);
    } else {
      ParseDigitsOfFormat(i);
      AtoiUnsigned(FormatNat(i), i);
    }
  }

  lemma FormatIntSign(i: int)
    ensures FormatInt(i) != "" && (FormatInt(i)[0] == '-' <==> i < 0)
  {
    if i >= 0 { assert IsDigit(FormatNat(i)[0]); }
  }

  /** The numerals, most significant first, with a minus in front of a negative int. */
  lemma FormatIsDecimal(n: nat, d: nat, i: int)
    requires d < 10
    ensures FormatNat(d) == ["0123456789"[d]]
    ensures n > 0 ==> FormatNat(10 * n + d) == FormatNat(n) + ["0123456789"[d]]
    ensures FormatInt(i) == if i < 0 then "-" + FormatNat(-i) else FormatNat(i)
  {
    DigitIsNumeral(d);
  }

  lemma DigitIsNumeral(d: nat)
    requires d < 10
    ensures Digit(d) == "0123456789"[d]
  {
  }

  lemma {:induction false} ParsedAreDigits(s: string)
    ensures ParseDigits(s).Some? <==> forall c | c in s :: '0' <= c <= '9'
  {
    if s != "" {
      var init, last := s[..|s| - 1], s[|s| - 1];
      ParsedAreDigits(init);
      assert s == init + [last];
      assert ParseDigits(s).Some? <==> IsDigit(last) && ParseDigits(init).Some?;
      assert last in s && forall c | c in init :: c in s;
    }
  }

  lemma ParseIsDecimal(s: string, d: nat, n: nat)
    requires d < 10 && ParseDigits(s) == Some(n)
    ensures ParseDigits("") == Some(0) && ParseDigits(s + ["0123456789"[d]]) == Some(10 * n + d)
  {
    DigitIsNumeral(d);
    var longer := s + ["0123456789"[d]];
    assert longer[..|s|] == s && longer[|s|] == Digit(d);
  }

  /** Parsing accepts an optional sign and then digits, at least one, that stand for a 64-bit int. */
  lemma AtoiIff(s: string, i: int)
    ensures Atoi(s) == Some(i) <==>
            exists digits, n :: StandsFor(s, digits, n, i) && -0x8000_0000_0000_0000 <= i <= 0x7fff_ffff_ffff_ffff
  {
    if s != "" {
      var digits := if s[0] == '+' || s[0] == '-' then s[1..] else s;
      var n := ParseDigits(digits);
      assert s == digits || s == "+" + digits || s == "-" + digits;
      assert Atoi(s) == Some(i) ==> n.Some? && StandsFor(s, digits, n.value, i);
      forall other, m | StandsFor(s, other, m, i)
        ensures other == digits
      {
        ParsedAreDigits(other);
        assert other[0] in other;
      }
    }
  }

  /** The string is these digits with an optional sign. */
  ghost predicate StandsFor(s: string, digits: string, n: nat, i: int) {
    && digits != "" && ParseDigits(digits) == Some(n)
    && ((s == digits && i == n) || (s == "+" + digits && i == n) || (s == "-" + digits && -i == n))
  }

  /** Two ints are printed alike only when they are equal. */
  lemma FormatIntInjective(i: int, j: int)
    requires FormatInt(i) == FormatInt(j)
    ensures i == j
  {
    FormatIntSign(i);
    FormatIntSign(j);
    if i < 0 && j < 0 {
      assert FormatNat(-i) == FormatInt(i)[1..] == FormatNat(-j);
      FormatNatInjective(-i, -j);
    } else if i >= 0 && j >= 0 {
      FormatNatInjective(i, j);
    }
  }

  lemma FormatNatInjective(m: nat, n: nat)
    requires FormatNat(m) == FormatNat(n)
    ensures m == n
  {
    ParseDigitsOfFormat(m);
    ParseDigitsOfFormat(n);
  }

  lemma FormatIntAvoids(i: int, sep: char)
    requires !IsDigit(sep) && sep != '-'
    ensures sep !in FormatInt(i)
  {
  }

  /** strings.Split for a one-character separator: one part more than there are separators. */
  function Split(s: string, sep: char): (parts: seq<string>)
    ensures |parts| >= 1
  {
    if s == "" then [""]
    else
      var rest := Split(s[1..], sep);
      if s[0] == sep then [""] + rest
      else [[s[0]] + rest[0]] + rest[1..]
  }

  lemma {:induction false} SplitWithout(s: string, sep: char)
    requires sep !in s
    ensures Split(s, sep) == [s]
  {
    if s != "" {
      SplitWithout(s[1..], sep);
      assert s[0] in s;
      assert [s[0]] + s[1..] == s;
    }
  }

  lemma {:induction false} SplitAtFirst(part: string, sep: char, rest: string)
    requires sep !in part
    ensures Split(part + [sep] + rest, sep) == [part] + Split(rest, sep)
  {
    var s := part + [sep] + rest;
    if part == "" {
      assert s[1..] == rest;
    } else {
      assert part[0] in part;
      SplitAtFirst(part[1..], sep, rest);
      assert s[1..] == part[1..] + [sep] + rest;
      assert [part[0]] + part[1..] == part;
    }
  }

  /** A separator in a string splits it in at least two parts. */
  lemma {:induction false} SplitWith(s: string, sep: char)
    requires sep in s
    ensures |Split(s, sep)| >= 2
  {
    if s[0] != sep { SplitWith(s[1..], sep); }
  }

  /** The first part ends at the first separator, and the other parts are those of the rest. */
  lemma {:induction false} SplitHead(s: string, sep: char) returns (rest: string)
    ensures sep !in Split(s, sep)[0]
    ensures if sep in s then s == Split(s, sep)[0] + [sep] + rest && Split(s, sep)[1..] == Split(rest, sep)
            else Split(s, sep) == [s]
  {
    rest := "";
    if s != "" {
      var tail := s[1..];
      assert s == [s[0]] + tail;
      if s[0] == sep {
        rest := tail;
      } else {
        rest := SplitHead(tail, sep);
      }
    }
  }

  /** A string of two parts is the parts with the separator between them. */
  lemma SplitInTwo(s: string, sep: char)
    requires |Split(s, sep)| == 2
    ensures var parts := Split(s, sep); s == parts[0] + [sep] + parts[1] && sep !in parts[0] && sep !in parts[1]
  {
    var rest := SplitHead(s, sep);
    var none := SplitHead(rest, sep);
    if sep in rest {
      SplitWith(rest, sep);
    }
  }
}
