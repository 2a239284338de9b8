/** The parts of Go's strconv, strings and fmt that the money package relies on.
    A `char` stands for one byte of a Go string. */
module GoText {
  import opened Wrappers
  import opened MachineInt

  predicate IsDigit(c: char) {
    '0' <= c <= '9'
  }

  predicate AllDigits(s: string) {
    forall i | 0 <= i < |s| :: IsDigit(s[i])
  }

  function DigitValue(c: char): nat
    requires IsDigit(c)
  {
    c as int - '0' as int
  }

  function DigitChar(d: nat): (c: char)
    requires d < 10
    ensures IsDigit(c) && DigitValue(c) == d
  {
    ('0' as int + d) as char
  }

  /** Decimal digits without leading zeros. */
  function NatText(n: nat): (s: string)
    ensures s != "" && AllDigits(s)
    ensures NatValue(s) == n
    ensures |s| == 1 || s[0] != '0'
  {
    if n < 10 then
      var s := [DigitChar(n)];
      assert s[..0] == "";
      s
    else
      var s := NatText(n / 10) + [DigitChar(n % 10)];
      assert s[..|s| - 1] == NatText(n / 10);
      assert n / 10 < 10 ==> s[0] == DigitChar(n / 10);
      s
  }

  function NatValue(s: string): nat
    requires AllDigits(s)
  {
    if s == "" then 0 else 10 * NatValue(s[..|s| - 1]) + DigitValue(s[|s| - 1])
  }

  /** fmt's %d. */
  function IntText(x: int): string {
    if x < 0 then "-" + NatText(-x) else NatText(x)
  }

  /** fmt's %02d: the sign counts towards the width. */
  function PaddedText(x: int): string {
    if 0 <= x < 10 then "0" + NatText(x) else IntText(x)
  }

  /** strconv.ParseInt(s, 10, 64): an optional sign, at least one digit, and a value in range. */
  function ParseInt(s: string): Option<Int64> {
    var signed := s != "" && (s[0] == '-' || s[0] == '+');
    var digits := if signed then s[1..] else s;
    if digits == "" || !AllDigits(digits) then None
    else
      var v: int := if signed && s[0] == '-' then 0 - NatValue(digits) else NatValue(digits);
      if Fits(v) then Some(v) else None
  }

  /** strings.ReplaceAll(s, string(c), ""). */
  function RemoveAll(s: string, c: char): (r: string)
    ensures c !in r
    ensures |r| <= |s|
    ensures c !in s ==> r == s
  {
    if s == "" then "" else (if s[0] == c then "" else [s[0]]) + RemoveAll(s[1..], c)
  }

  /** strings.Split(s, string(c)). */
  function SplitOn(s: string, c: char): (parts: seq<string>)
    ensures |parts| >= 1
    ensures c !in s ==> |parts| == 1 && parts[0] == s
  {
    if s == "" then [""]
    else
      var rest := SplitOn(s[1..], c);
      if s[0] == c then [""] + rest else [[s[0]] + rest[0]] + rest[1..]
  }

  function LowerChar(c: char): char {
    if 'A' <= c <= 'Z' then (c as int + 32) as char else c
  }

  /** strings.ToLower on ASCII text. */
  function ToLower(s: string): (r: string)
    ensures |r| == |s| && forall i | 0 <= i < |s| :: r[i] == LowerChar(s[i])
  {
    seq(|s|, i requires 0 <= i < |s| => LowerChar(s[i]))
  }

  /** Lower-casing identifies exactly the two cases of each letter. */
  lemma LowerCharIsCaseless(x: char, y: char)
    ensures LowerChar(x) == LowerChar(y) <==>
            || x == y
            || ('A' <= x <= 'Z' && y as int == x as int + 32)
            || ('A' <= y <= 'Z' && x as int == y as int + 32)
  {
  }

  /** Two texts are the same in lower case exactly when they agree letter by letter ignoring case. */
  lemma ToLowerIsCaseless(s: string, t: string)
    ensures ToLower(s) == ToLower(t) <==>
            |s| == |t| && forall i | 0 <= i < |s| ::
              || s[i] == t[i]
              || ('A' <= s[i] <= 'Z' && t[i] as int == s[i] as int + 32)
              || ('A' <= t[i] <= 'Z' && s[i] as int == t[i] as int + 32)
  {
    hide LowerChar;
    forall i | 0 <= i < |s| && i < |t|
      ensures LowerChar(s[i]) == LowerChar(t[i]) <==>
              || s[i] == t[i]
              || ('A' <= s[i] <= 'Z' && t[i] as int == s[i] as int + 32)
              || ('A' <= t[i] <= 'Z' && s[i] as int == t[i] as int + 32)
    {
      LowerCharIsCaseless(s[i], t[i]);
    }
    if ToLower(s) == ToLower(t) {
      forall i | 0 <= i < |s| ensures LowerChar(s[i]) == LowerChar(t[i]) {
        assert ToLower(s)[i] == ToLower(t)[i];
      }
    }
  }

  /** The position of the first c in s, or |s|. */
  function IndexOf(s: string, c: char): (k: nat)
    ensures k <= |s| && c !in s[..k]
    ensures k < |s| ==> s[k] == c
  {
    if s == "" || s[0] == c then 0 else 1 + IndexOf(s[1..], c)
  }

  lemma {:induction false} RemoveAllAppend(a: string, b: string, c: char)
    ensures RemoveAll(a + b, c) == RemoveAll(a, c) + RemoveAll(b, c)
  {
    if a == "" {
      assert a + b == b;
    } else {
      assert (a + b)[1..] == a[1..] + b;
      RemoveAllAppend(a[1..], b, c);
    }
  }

  lemma {:induction false} SplitOnce(a: string, b: string, c: char)
    requires c !in a && c !in b
    ensures SplitOn(a + [c] + b, c) == [a, b]
  {
    var s := a + [c] + b;
    if a == "" {
      assert s[1..] == b;
      assert SplitOn(b, c) == [b];
    } else {
      assert s[1..] == a[1..] + [c] + b;
      SplitOnce(a[1..], b, c);
      assert s[0] in a && [s[0]] + a[1..] == a;
    }
  }

  lemma {:induction false} IndexOfSeparator(a: string, b: string, c: char)
    requires c !in a
    ensures IndexOf(a + [c] + b, c) == |a|
  {
    var s := a + [c] + b;
    if a != "" {
      assert s[1..] == a[1..] + [c] + b;
      IndexOfSeparator(a[1..], b, c);
    }
  }

  /** A digit string without leading zeros is the text of its value. */
  lemma {:induction false} TextOfValue(s: string)
    requires s != "" && AllDigits(s)
    requires |s| == 1 || s[0] != '0'
    ensures NatText(NatValue(s)) == s
  {
    var p, d := s[..|s| - 1], s[|s| - 1];
    assert IsDigit(d) && s == p + [d];
    assert DigitChar(DigitValue(d)) == d;
    if |s| > 1 {
      assert p[0] == s[0];
      TextOfValue(p);
      NonZeroHead(p);
      TextOfDigitAppended(NatValue(p), DigitValue(d));
    } else {
      assert p == "";
    }
  }

  lemma TextOfDigitAppended(n: nat, d: nat)
    requires n > 0 && d < 10
    ensures NatText(10 * n + d) == NatText(n) + [DigitChar(d)]
  {
    assert (10 * n + d) / 10 == n && (10 * n + d) % 10 == d;
  }

  lemma {:induction false} NonZeroHead(s: string)
    requires s != "" && AllDigits(s) && s[0] != '0'
    ensures NatValue(s) > 0
  {
    if |s| > 1 {
      NonZeroHead(s[..|s| - 1]);
    } else {
      assert s[..0] == "";
    }
  }

  /** ParseInt reads back every int64 that %d prints. */
  lemma ParseIntReadsText(x: int)
    requires Fits(x)
    ensures ParseInt(IntText(x)) == Some(x)
  {
    var s := IntText(x);
    if x < 0 {
      assert s[1..] == NatText(-x);
      assert NatValue(s[1..]) == -x;
    } else {
      assert IsDigit(s[0]);
      assert NatValue(s) == x;
    }
  }

  /** ... and every two-column field that %02d prints. */
  lemma ParseIntReadsPadded(x: int)
    requires -100 < x < 100
    ensures ParseInt(PaddedText(x)) == Some(x)
    ensures x >= 0 ==> |PaddedText(x)| == 2 && AllDigits(PaddedText(x)) && NatValue(PaddedText(x)) == x
    ensures -10 < x < 0 ==> |PaddedText(x)| == 2
  {
    if 0 <= x < 10 {
      var s := PaddedText(x);
      assert s[..1] == "0" && "0"[..0] == "";
      assert NatValue(s) == x;
    } else if x >= 10 {
      ParseIntReadsText(x);
      assert NatText(x) == NatText(x / 10) + [DigitChar(x % 10)];
    } else {
      ParseIntReadsText(x);
      assert -10 < x ==> |NatText(-x)| == 1;
    }
  }

  /** Splitting yields one part more than there are separators. */
  lemma {:induction false} SplitCount(s: string, c: char)
    ensures |SplitOn(s, c)| == multiset(s)[c] + 1
  {
    if s != "" {
      assert s == [s[0]] + s[1..];
      SplitCount(s[1..], c);
    }
  }

  lemma {:induction false} RemoveAllKeepsOthers(s: string, c: char, d: char)
    requires c != d
    ensures multiset(RemoveAll(s, c))[d] == multiset(s)[d]
  {
    if s != "" {
      assert s == [s[0]] + s[1..];
      RemoveAllKeepsOthers(s[1..], c, d);
    }
  }

  /** What ParseInt accepts: one optional sign and then digits, leading zeros included, with a value in int64. */
  lemma ParseIntIsExact(sign: string, digits: string)
    requires sign == "" || sign == "-" || sign == "+"
    requires sign == "" ==> digits == "" || (digits[0] != '-' && digits[0] != '+')
    ensures ParseInt(sign + digits).Some? <==>
            digits != "" && AllDigits(digits) && Fits(if sign == "-" then 0 - NatValue(digits) else NatValue(digits))
    ensures ParseInt(sign + digits).Some? ==>
            ParseInt(sign + digits).value == if sign == "-" then 0 - NatValue(digits) else NatValue(digits)
  {
    var s := sign + digits;
    if sign == "" {
      assert s == digits;
    } else {
      assert s[1..] == digits;
    }
  }
}
