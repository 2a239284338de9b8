/** Display text of minor-unit amounts: the printer, the parser, and how far they undo each other. */
module MoneyText {
  import opened Wrappers
  import opened MachineInt
  import opened GoText

  datatype MoneyError = Empty | InvalidFormat | InvalidNumber | InvalidDecimal

  /** The two separator bytes of a currency. */
  datatype Separators = Separators(thousands: char, decimal: char) {
    predicate Valid() {
      thousands != decimal && {thousands, decimal} !! {'-'} && !IsDigit(thousands) && !IsDigit(decimal)
    }

    function Swapped(): Separators {
      Separators(decimal, thousands)
    }
  }

  const USD := Separators(',', '.')
  const BRL := Separators('.', ',')
  const EUR := Separators('.', ',')

  // ---------- Thousands grouping ----------

  /** d with sep before every third character counted from the right. */
  function Grouped(d: string, sep: char): string {
    if |d| <= 3 then d else Grouped(d[..|d| - 3], sep) + [sep] + d[|d| - 3..]
  }

  /** Separators stand exactly before every third digit from the right, and never first. */
  predicate WellGrouped(w: string, sep: char) {
    |w| % 4 != 0 && forall i | 0 <= i < |w| :: WellPlaced(w, sep, i)
  }

  predicate WellPlaced(w: string, sep: char, i: nat)
    requires i < |w|
  {
    w[i] == sep <==> (|w| - i) % 4 == 0
  }

  /** What the grouping loop still has to emit after its first character. */
  function GroupedTail(d: string, sep: char): string {
    if d == "" then ""
    else (if |d| % 3 == 0 then [sep] else []) + [d[0]] + GroupedTail(d[1..], sep)
  }

  lemma {:induction false} GroupedTailAppend(x: string, y: string, sep: char)
    requires |y| == 3
    ensures GroupedTail(x + y, sep) == GroupedTail(x, sep) + [sep] + y
  {
    if x == "" {
      assert x + y == y;
      assert GroupedTail(y[1..][1..], sep) == y[2..];
    } else {
      assert (x + y)[1..] == x[1..] + y;
      GroupedTailAppend(x[1..], y, sep);
    }
  }

  lemma {:induction false} ShortTail(d: string, sep: char)
    requires |d| <= 2
    ensures GroupedTail(d, sep) == d
  {
    if d != "" {
      ShortTail(d[1..], sep);
      assert d == [d[0]] + d[1..];
    }
  }

  /** Emitting left to right produces the right-to-left grouping. */
  lemma {:induction false} GroupedFromLeft(d: string, sep: char)
    requires d != ""
    ensures Grouped(d, sep) == [d[0]] + GroupedTail(d[1..], sep)
  {
    hide GroupedTail;
    if |d| <= 3 {
      ShortTail(d[1..], sep);
      assert d == [d[0]] + d[1..];
    } else {
      var p, q := d[..|d| - 3], d[|d| - 3..];
      GroupedFromLeft(p, sep);
      GroupedTailAppend(p[1..], q, sep);
      assert d[1..] == p[1..] + q;
    }
  }

  lemma PlacedAfterAppend(g: string, q: string, sep: char, i: nat)
    requires |q| == 3 && sep !in q && i < |g| + 4
    ensures i < |g| ==> (WellPlaced(g + [sep] + q, sep, i) <==> WellPlaced(g, sep, i))
    ensures i >= |g| ==> WellPlaced(g + [sep] + q, sep, i)
  {
    var w := g + [sep] + q;
    if i < |g| {
      assert w[i] == g[i];
      assert (|w| - i) % 4 == (|g| - i) % 4;
    } else if i > |g| {
      assert w[i] == q[i - |g| - 1] && w[i] != sep;
    }
  }

  /** Putting one more group of three on the right. */
  lemma AppendGroup(g: string, q: string, sep: char)
    requires |q| == 3 && sep !in q
    ensures WellGrouped(g + [sep] + q, sep) <==> WellGrouped(g, sep)
  {
    hide WellPlaced;
    var w := g + [sep] + q;
    forall i | 0 <= i < |w|
      ensures i < |g| ==> (WellPlaced(w, sep, i) <==> WellPlaced(g, sep, i))
      ensures i >= |g| ==> WellPlaced(w, sep, i)
    {
      PlacedAfterAppend(g, q, sep, i);
    }
    forall i | 0 <= i < |g| ensures WellPlaced(w, sep, i) <==> WellPlaced(g, sep, i) {
    }
  }

  lemma AppendGroupRemoval(g: string, q: string, sep: char)
    requires sep !in q
    ensures RemoveAll(g + [sep] + q, sep) == RemoveAll(g, sep) + q
  {
    assert g + [sep] + q == g + ([sep] + q) && ([sep] + q)[1..] == q;
    RemoveAllAppend(g, [sep] + q, sep);
  }

  lemma ShortIsWellGrouped(d: string, sep: char)
    requires 0 < |d| <= 3 && sep !in d
    ensures WellGrouped(d, sep) && RemoveAll(d, sep) == d
  {
    hide RemoveAll;
  }

  /** Grouping adds (n-1)/3 separators, in the right places, and deleting them restores d. */
  lemma {:induction false} GroupedShape(d: string, sep: char)
    requires d != "" && sep !in d
    ensures WellGrouped(Grouped(d, sep), sep)
    ensures RemoveAll(Grouped(d, sep), sep) == d
    ensures |Grouped(d, sep)| == |d| + (|d| - 1) / 3
    ensures Grouped(d, sep)[0] == d[0]
  {
    hide WellGrouped, RemoveAll;
    if |d| <= 3 {
      ShortIsWellGrouped(d, sep);
    } else {
      var p, q := d[..|d| - 3], d[|d| - 3..];
      GroupedShape(p, sep);
      AppendGroup(Grouped(p, sep), q, sep);
      AppendGroupRemoval(Grouped(p, sep), q, sep);
      assert d == p + q;
    }
  }

  /** ... and no other text does. */
  lemma {:induction false} GroupingIsUnique(w: string, sep: char)
    requires WellGrouped(w, sep)
    ensures Grouped(RemoveAll(w, sep), sep) == w
    ensures RemoveAll(w, sep) != "" && RemoveAll(w, sep)[0] == w[0]
  {
    if |w| <= 3 {
      forall i | 0 <= i < |w| ensures w[i] != sep {
        assert WellPlaced(w, sep, i);
      }
    } else {
      var g, q := w[..|w| - 4], w[|w| - 3..];
      assert WellPlaced(w, sep, |w| - 4) && WellPlaced(w, sep, |w| - 3);
      assert WellPlaced(w, sep, |w| - 2) && WellPlaced(w, sep, |w| - 1);
      assert w[|w| - 4] == sep && w == g + [sep] + q;
      AppendGroup(g, q, sep);
      AppendGroupRemoval(g, q, sep);
      GroupingIsUnique(g, sep);
      var p := RemoveAll(g, sep);
      assert (p + q)[..|p + q| - 3] == p && (p + q)[|p + q| - 3..] == q;
    }
  }

  // ---------- Printer ----------

  /** The specification of addThousandsSeparator: group what precedes the first decimal separator. */
  function Separated(s: string, c: Separators): string {
    var k := IndexOf(s, c.decimal);
    Grouped(s[..k], c.thousands) + s[k..]
  }

  /** The specification of formatAmount; negating the least int64 wraps back to it. */
  function Formatted(amount: Int64, c: Separators): string {
    var body := PrintedBody(PrintedValue(amount), c);
    if amount < 0 then ['-'] + body else body
  }

  function PrintedBody(m: Int64, c: Separators): string {
    Grouped(IntText(Quotient(m, 100)), c.thousands) + [c.decimal] + PaddedText(Remainder(m, 100))
  }

  /** The value whose digits are printed: the magnitude, except that the least int64 stays itself. */
  function PrintedValue(amount: Int64): (m: Int64)
    ensures amount != MIN_INT64 ==> m == if amount < 0 then 0 - amount else amount
    ensures amount == MIN_INT64 ==> m == amount
    ensures amount < 0 ==> Wrap(0 - m) == amount
  {
    if amount < 0 then Wrap(0 - amount) else amount
  }

  method AddThousandsSeparator(s: string, sep: char, decimal: char) returns (r: string)
    ensures r == Separated(s, Separators(sep, decimal))
  {
    hide IndexOf, Grouped, GroupedTail;
    var dotIndex := 0;
    while dotIndex < |s| && s[dotIndex] != decimal
      invariant dotIndex <= |s| && decimal !in s[..dotIndex]
    {
      dotIndex := dotIndex + 1;
    }
    FirstIndex(s, decimal, dotIndex);
    var intPart, decPart := s[..dotIndex], s[dotIndex..];
    if |intPart| <= 3 {
      ShortGroup(intPart, sep);
      return intPart + decPart;
    }
    var result := "";
    ghost var target := Grouped(intPart, sep);
    GroupedFromLeft(intPart, sep);
    var i := 0;
    while i < |intPart|
      invariant i <= |intPart|
      invariant i == 0 ==> result == ""
      invariant i > 0 ==> result + GroupedTail(intPart[i..], sep) == target
    {
      TailStep(intPart, i, sep);
      var remaining := |intPart| - i;
      if remaining % 3 == 0 && i > 0 {
        result := result + [sep];
      }
      result := result + [intPart[i]];
      i := i + 1;
    }
    ShortTail(intPart[i..], sep);
    r := result + decPart;
  }

  lemma ShortGroup(d: string, sep: char)
    requires |d| <= 3
    ensures Grouped(d, sep) == d
  {
  }

  lemma TailStep(d: string, i: nat, sep: char)
    requires i < |d|
    ensures GroupedTail(d[i..], sep) ==
            (if (|d| - i) % 3 == 0 then [sep] else []) + [d[i]] + GroupedTail(d[i + 1..], sep)
  {
    assert d[i..][1..] == d[i + 1..];
  }

  lemma {:induction false} FirstIndex(s: string, c: char, k: nat)
    requires k <= |s| && c !in s[..k] && (k < |s| ==> s[k] == c)
    ensures IndexOf(s, c) == k
  {
    if k > 0 {
      assert s[0] in s[..k];
      assert forall x <- s[1..][..k - 1] :: x in s[..k];
      FirstIndex(s[1..], c, k - 1);
    }
  }

  method FormatAmount(value: Int64, thousandsSep: char, decimalSep: char) returns (r: string)
    requires Separators(thousandsSep, decimalSep).Valid()
    ensures r == Formatted(value, Separators(thousandsSep, decimalSep))
  {
    var amount: Int64 := value;
    var negative := amount < 0;
    if negative {
      amount := Wrap(0 - amount);
    }
    var whole, fraction := Quotient(amount, 100), Remainder(amount, 100);
    SeparatorFree(whole, decimalSep);
    SeparatedParts(IntText(whole), PaddedText(fraction), Separators(thousandsSep, decimalSep));
    var result := IntText(whole) + [decimalSep] + PaddedText(fraction);
    result := AddThousandsSeparator(result, thousandsSep, decimalSep);
    if negative {
      return ['-'] + result;
    }
    return result;
  }

  // ---------- Parser ----------

  function ParseAmount(text: string, c: Separators): Result<Int64, MoneyError> {
    if text == "" then Err(Empty) else
      if text[0] == '-' then Negated(ParseUnsigned(text[1..], c)) else ParseUnsigned(text, c)
  }

  function Negated(r: Result<Int64, MoneyError>): Result<Int64, MoneyError> {
    match r
    case Err(e) => Err(e)
    case Ok(v) => Ok(Wrap(0 - v))
  }

  /** The part of parseAmount that follows the leading sign. */
  function ParseUnsigned(text: string, c: Separators): Result<Int64, MoneyError> {
    ParseFields(SplitOn(RemoveAll(text, c.thousands), c.decimal))
  }

  /** ... and the part that follows the split on the decimal separator. */
  function ParseFields(parts: seq<string>): Result<Int64, MoneyError>
    requires |parts| >= 1
  {
    if |parts| > 2 then Err(InvalidFormat)
    else match ParseInt(parts[0])
      case None => Err(InvalidNumber)
      case Some(whole) =>
        if |parts| == 2 && |parts[1]| != 2 then Err(InvalidDecimal)
        else match if |parts| == 2 then ParseInt(parts[1]) else Some(0)
          case None => Err(InvalidNumber)
          case Some(fraction) => Ok(Wrap(Wrap(whole * 100) + fraction))
  }

  // ---------- Round trip ----------

  lemma SeparatorFree(x: int, c: char)
    requires c != '-' && !IsDigit(c)
    ensures c !in IntText(x) && c !in PaddedText(x)
  {
    assert x < 0 ==> IntText(x)[1..] == NatText(-x);
  }

  /** A printed body is the grouped whole part, the decimal separator and the fraction. */
  lemma SeparatedParts(w: string, f: string, c: Separators)
    requires c.decimal !in w
    ensures Separated(w + [c.decimal] + f, c) == Grouped(w, c.thousands) + [c.decimal] + f
  {
    hide Grouped, IndexOf;
    var s := w + [c.decimal] + f;
    IndexOfSeparator(w, f, c.decimal);
    assert s[..|w|] == w && s[|w|..] == [c.decimal] + f;
  }

  /** Deleting the separators of such a body and splitting it gives the two numbers back. */
  lemma SplitParts(g: string, f: string, c: Separators)
    requires c.Valid() && c.thousands !in f && c.decimal !in f
    requires c.decimal !in RemoveAll(g, c.thousands)
    ensures SplitOn(RemoveAll(g + [c.decimal] + f, c.thousands), c.decimal) == [RemoveAll(g, c.thousands), f]
  {
    var df := [c.decimal] + f;
    assert g + df == g + [c.decimal] + f;
    RemoveAllAppend(g, df, c.thousands);
    assert c.thousands !in df;
    assert RemoveAll(g, c.thousands) + df == RemoveAll(g, c.thousands) + [c.decimal] + f;
    SplitOnce(RemoveAll(g, c.thousands), f, c.decimal);
  }

  lemma ParseTwoFields(w: string, f: string, whole: Int64, fraction: Int64)
    requires ParseInt(w) == Some(whole) && ParseInt(f) == Some(fraction) && |f| == 2
    ensures ParseFields([w, f]) == Ok(Wrap(Wrap(whole * 100) + fraction))
  {
    assert [w, f][0] == w && [w, f][1] == f;
  }

  /** What the parser makes of a body whose parts are readable numbers. */
  lemma ParseParts(g: string, f: string, whole: Int64, fraction: Int64, c: Separators)
    requires c.Valid() && c.thousands !in f && c.decimal !in f && |f| == 2
    requires c.decimal !in RemoveAll(g, c.thousands)
    requires ParseInt(RemoveAll(g, c.thousands)) == Some(whole) && ParseInt(f) == Some(fraction)
    ensures ParseUnsigned(g + [c.decimal] + f, c) == Ok(Wrap(Wrap(whole * 100) + fraction))
  {
    SplitParts(g, f, c);
    ParseTwoFields(RemoveAll(g, c.thousands), f, whole, fraction);
  }

  /** The sign is read off the first byte. */
  lemma ParseSigned(body: string, c: Separators)
    ensures ParseAmount(['-'] + body, c) == Negated(ParseUnsigned(body, c))
    ensures body != "" && body[0] != '-' ==> ParseAmount(body, c) == ParseUnsigned(body, c)
  {
    var text := ['-'] + body;
    assert text[1..] == body;
  }

  /** Text printed from a whole and a fractional part parses to their combination. */
  lemma ParsePrinted(whole: int, fraction: int, c: Separators)
    requires c.Valid() && Fits(whole) && -10 < fraction < 100
    ensures var body := Grouped(IntText(whole), c.thousands) + [c.decimal] + PaddedText(fraction);
            && ParseUnsigned(body, c) == Ok(Wrap(Wrap(whole * 100) + fraction))
            && body != "" && (whole >= 0 ==> body[0] != '-')
  {
    var w, f := IntText(whole), PaddedText(fraction);
    SeparatorFree(whole, c.thousands);
    SeparatorFree(whole, c.decimal);
    SeparatorFree(fraction, c.thousands);
    SeparatorFree(fraction, c.decimal);
    GroupedShape(w, c.thousands);
    ParseIntReadsText(whole);
    ParseIntReadsPadded(fraction);
    ParseParts(Grouped(w, c.thousands), f, whole, fraction, c);
  }

  /** Splitting into whole and fraction and recombining never leaves int64 on the way. */
  lemma RecombinedWithoutOverflow(amount: Int64)
    ensures var m := PrintedValue(amount);
            var whole, fraction := Quotient(m, 100), Remainder(m, 100);
            && whole * 100 + fraction == m && -10 < fraction < 100
            && Fits(whole) && Fits(whole * 100) && Wrap(Wrap(whole * 100) + fraction) == m
            && (amount != MIN_INT64 ==> whole >= 0 && fraction >= 0)
  {
    var m := PrintedValue(amount);
    assert Fits(Quotient(m, 100) * 100);
  }

  lemma ParseBody(amount: Int64, c: Separators)
    requires c.Valid()
    ensures var body := PrintedBody(PrintedValue(amount), c);
            && ParseUnsigned(body, c) == Ok(PrintedValue(amount))
            && body != "" && (amount >= 0 ==> body[0] != '-')
  {
    hide Grouped, SplitOn, RemoveAll, ParseFields, NatText;
    RecombinedWithoutOverflow(amount);
    var m := PrintedValue(amount);
    ParsePrinted(Quotient(m, 100), Remainder(m, 100), c);
  }

  /** Every int64, the least one included, survives printing and parsing. */
  lemma RoundTrip(amount: Int64, c: Separators)
    requires c.Valid()
    ensures ParseAmount(Formatted(amount, c), c) == Ok(amount)
  {
    hide PrintedBody, ParseUnsigned;
    ParseBody(amount, c);
    ParseSigned(PrintedBody(PrintedValue(amount), c), c);
  }

  // ---------- What the parser accepts ----------

  /** Numbers that both fields hold, once the thousands separators are deleted. */
  function Fields(whole: Option<Int64>, fraction: Option<Int64>, columns: nat): Result<Int64, MoneyError> {
    match whole
    case None => Err(InvalidNumber)
    case Some(w) =>
      if columns != 2 then Err(InvalidDecimal)
      else match fraction
        case None => Err(InvalidNumber)
        case Some(f) => Ok(Wrap(Wrap(w * 100) + f))
  }

  lemma StillFree(s: string, c: Separators)
    requires c.Valid() && c.decimal !in s
    ensures c.decimal !in RemoveAll(s, c.thousands)
  {
    hide RemoveAll;
    RemoveAllKeepsOthers(s, c.thousands, c.decimal);
    assert c.decimal !in multiset(s);
    assert c.decimal !in multiset(RemoveAll(s, c.thousands));
  }

  lemma RemovedAround(g: string, f: string, c: Separators)
    requires c.Valid()
    ensures RemoveAll(g + [c.decimal] + f, c.thousands)
         == RemoveAll(g, c.thousands) + [c.decimal] + RemoveAll(f, c.thousands)
  {
    var df := [c.decimal] + f;
    assert g + df == g + [c.decimal] + f && df[1..] == f;
    RemoveAllAppend(g, df, c.thousands);
    assert RemoveAll(df, c.thousands) == [c.decimal] + RemoveAll(f, c.thousands);
  }

  lemma FieldsOfParts(w: string, d: string)
    ensures ParseFields([w]) == Fields(ParseInt(w), Some(0), 2)
    ensures ParseFields([w, d]) == Fields(ParseInt(w), ParseInt(d), |d|)
  {
    hide ParseInt;
  }

  /** Without a decimal separator the whole text is the number of units; with one, its two parts are the units and
      exactly two decimals. A leading minus sign negates the result. */
  lemma ParseAnswer(g: string, f: string, c: Separators)
    requires c.Valid() && c.decimal !in g && c.decimal !in f
    ensures var whole := ParseInt(RemoveAll(g, c.thousands));
            var fraction := RemoveAll(f, c.thousands);
            && ParseUnsigned(g, c) == Fields(whole, Some(0), 2)
            && ParseUnsigned(g + [c.decimal] + f, c) == Fields(whole, ParseInt(fraction), |fraction|)
  {
    hide ParseInt, RemoveAll, SplitOn, ParseFields, Fields;
    var w, d := RemoveAll(g, c.thousands), RemoveAll(f, c.thousands);
    StillFree(g, c);
    StillFree(f, c);
    RemovedAround(g, f, c);
    SplitOnce(w, d, c.decimal);
    FieldsOfParts(w, d);
    assert SplitOn(w, c.decimal) == [w];
  }

  /** The empty text and every text with two decimal separators are refused as such. */
  lemma ParseRefuses(text: string, c: Separators)
    requires c.Valid()
    ensures ParseAmount(text, c) == Err(Empty) <==> text == ""
    ensures multiset(text)[c.decimal] >= 2 <==> ParseAmount(text, c) == Err(InvalidFormat)
  {
    hide ParseUnsigned;
    if text != "" {
      RefusedBody(text, c);
      RefusedBody(text[1..], c);
      assert text == [text[0]] + text[1..];
    }
  }

  lemma RefusedBody(body: string, c: Separators)
    requires c.Valid()
    ensures ParseUnsigned(body, c) == Err(InvalidFormat) <==> multiset(body)[c.decimal] >= 2
    ensures ParseUnsigned(body, c) != Err(Empty)
  {
    hide ParseInt, RemoveAll, SplitOn;
    RemoveAllKeepsOthers(body, c.thousands, c.decimal);
    SplitCount(RemoveAll(body, c.thousands), c.decimal);
  }

  /** Whole numbers, grouped or not, are read as that many units: "100" is 10000. */
  lemma WholeNumberParses(x: nat, c: Separators)
    requires c.Valid() && Fits(x * 100)
    ensures var text := Grouped(NatText(x), c.thousands);
            && ParseAmount(text, c) == Ok(x * 100) && ParseAmount(['-'] + text, c) == Ok(0 - x * 100)
    ensures ParseAmount(NatText(x), c) == Ok(x * 100)
  {
    hide ParseUnsigned, RemoveAll, Grouped, NatText;
    SeparatorFree(x, c.thousands);
    SeparatorFree(x, c.decimal);
    ParseIntReadsText(x);
    GroupedShape(NatText(x), c.thousands);
    var text := Grouped(NatText(x), c.thousands);
    RemoveAllKeepsOthers(text, c.thousands, c.decimal);
    assert c.decimal !in multiset(NatText(x));
    assert multiset(text)[c.decimal] == 0;
    ParseAnswer(text, "", c);
    ParseAnswer(NatText(x), "", c);
    ParseSigned(text, c);
    ParseSigned(NatText(x), c);
  }

  // ---------- Canonical text ----------

  /** Groups of three from the right, no leading zero, the decimal separator and two decimals. */
  predicate CanonicalBody(s: string, c: Separators) {
    && |s| > 3
    && s[|s| - 3] == c.decimal
    && AllDigits(s[|s| - 2..])
    && WellGrouped(s[..|s| - 3], c.thousands)
    && var digits := RemoveAll(s[..|s| - 3], c.thousands);
       digits != "" && AllDigits(digits) && (|digits| == 1 || digits[0] != '0')
  }

  function WholeDigits(s: string, c: Separators): string
    requires CanonicalBody(s, c)
  {
    RemoveAll(s[..|s| - 3], c.thousands)
  }

  function Magnitude(s: string, c: Separators): nat
    requires CanonicalBody(s, c)
  {
    NatValue(WholeDigits(s, c)) * 100 + NatValue(s[|s| - 2..])
  }

  function Unsigned(text: string): string {
    if text != "" && text[0] == '-' then text[1..] else text
  }

  /** A canonical body, with a minus sign only in front of a non-zero magnitude. */
  predicate Canonical(text: string, c: Separators) {
    && text != ""
    && CanonicalBody(Unsigned(text), c)
    && (text[0] == '-' ==> Magnitude(Unsigned(text), c) > 0)
  }

  lemma BodyParts(w: string, f: string, c: Separators)
    requires |f| == 2
    ensures var s := w + [c.decimal] + f;
            |s| == |w| + 3 && s[|s| - 3] == c.decimal && s[|s| - 2..] == f && s[..|s| - 3] == w
  {
  }

  lemma PrintedBodyIsCanonical(m: Int64, c: Separators)
    requires c.Valid() && m >= 0
    ensures CanonicalBody(PrintedBody(m, c), c) && Magnitude(PrintedBody(m, c), c) == m
  {
    hide RemoveAll, Grouped, NatText, NatValue;
    var w, f := IntText(m / 100), PaddedText(m % 100);
    SeparatorFree(m / 100, c.thousands);
    SeparatorFree(m / 100, c.decimal);
    GroupedShape(w, c.thousands);
    ParseIntReadsPadded(m % 100);
    BodyParts(Grouped(w, c.thousands), f, c);
  }

  lemma TwoDigitValue(f: string)
    requires |f| == 2 && AllDigits(f)
    ensures NatValue(f) == 10 * DigitValue(f[0]) + DigitValue(f[1])
  {
    assert f[..1][..0] == "" && NatValue(f[..1]) == DigitValue(f[0]);
  }

  lemma TwoDigits(f: string)
    requires |f| == 2 && AllDigits(f)
    ensures NatValue(f) < 100 && PaddedText(NatValue(f)) == f
  {
    TwoDigitValue(f);
    hide NatValue;
    var hi, lo := DigitValue(f[0]), DigitValue(f[1]);
    assert f == [DigitChar(hi), DigitChar(lo)];
    if hi > 0 {
      TextOfDigitAppended(hi, lo);
    }
  }

  lemma PrintedDigits(w: string, f: string, m: Int64, c: Separators)
    requires c.Valid() && WellGrouped(w, c.thousands) && |f| == 2 && AllDigits(f)
    requires var digits := RemoveAll(w, c.thousands);
             && digits != "" && AllDigits(digits) && (|digits| == 1 || digits[0] != '0')
             && m == NatValue(digits) * 100 + NatValue(f)
    ensures PrintedBody(m, c) == w + [c.decimal] + f
  {
    var digits := RemoveAll(w, c.thousands);
    TextOfValue(digits);
    TwoDigits(f);
    assert Quotient(m, 100) == NatValue(digits) && Remainder(m, 100) == NatValue(f);
    GroupingIsUnique(w, c.thousands);
  }

  lemma ReprintCanonicalBody(s: string, c: Separators)
    requires c.Valid() && CanonicalBody(s, c) && Magnitude(s, c) <= MAX_INT64
    ensures PrintedBody(Magnitude(s, c), c) == s
  {
    hide RemoveAll, NatValue, PrintedBody;
    var w, f := s[..|s| - 3], s[|s| - 2..];
    PrintedDigits(w, f, Magnitude(s, c), c);
    assert s == w + [c.decimal] + f;
  }

  lemma ParseCanonicalBody(s: string, c: Separators)
    requires c.Valid() && CanonicalBody(s, c) && Magnitude(s, c) <= MAX_INT64
    ensures ParseUnsigned(s, c) == Ok(Magnitude(s, c)) && s[0] != '-'
  {
    ReprintCanonicalBody(s, c);
    ParseBody(Magnitude(s, c), c);
  }

  /** Printing yields canonical text of the same magnitude. */
  lemma FormattedIsCanonical(amount: Int64, c: Separators)
    requires c.Valid() && amount != MIN_INT64
    ensures var text := Formatted(amount, c);
            && Canonical(text, c)
            && Magnitude(Unsigned(text), c) == (if amount < 0 then 0 - amount else amount)
            && (text[0] == '-' <==> amount < 0)
  {
    hide PrintedBody, ParseUnsigned, CanonicalBody, Magnitude;
    var body := PrintedBody(PrintedValue(amount), c);
    PrintedBodyIsCanonical(PrintedValue(amount), c);
    ParseBody(amount, c);
    ParseCanonicalBody(body, c);
    assert (['-'] + body)[1..] == body;
  }

  /** The least amount is printed with a second sign inside its whole part. */
  lemma LeastAmountIsNotCanonical(c: Separators)
    requires c.Valid()
    ensures !Canonical(Formatted(MIN_INT64, c), c)
  {
    var m := PrintedValue(MIN_INT64);
    var whole, f := Quotient(m, 100), PaddedText(Remainder(m, 100));
    var w := IntText(whole);
    SeparatorFree(whole, c.thousands);
    SeparatorFree(whole, c.decimal);
    GroupedShape(w, c.thousands);
    ParseIntReadsPadded(Remainder(m, 100));
    BodyParts(Grouped(w, c.thousands), f, c);
    var body := PrintedBody(m, c);
    assert (['-'] + body)[1..] == body;
    assert !IsDigit(w[0]) && RemoveAll(body[..|body| - 3], c.thousands) == w;
  }

  /** The least amount is the one amount whose text is not canonical. */
  lemma CanonicalUnlessLeast(amount: Int64, c: Separators)
    requires c.Valid()
    ensures Canonical(Formatted(amount, c), c) <==> amount != MIN_INT64
  {
    if amount == MIN_INT64 {
      LeastAmountIsNotCanonical(c);
    } else {
      FormattedIsCanonical(amount, c);
    }
  }

  /** A canonical text is what its own parsed amount prints as, exactly when its magnitude fits;
      every representable amount but the least therefore has exactly one canonical text. */
  lemma CanonicalInverse(text: string, c: Separators)
    requires c.Valid() && Canonical(text, c)
    ensures Magnitude(Unsigned(text), c) <= MAX_INT64 <==>
            (ParseAmount(text, c).Ok? && Formatted(ParseAmount(text, c).value, c) == text)
    ensures Magnitude(Unsigned(text), c) <= MAX_INT64 ==>
            ParseAmount(text, c) == Ok(if text[0] == '-' then 0 - Magnitude(Unsigned(text), c)
                                       else Magnitude(Unsigned(text), c))
  {
    hide PrintedBody, ParseUnsigned, CanonicalBody, Magnitude;
    var body := Unsigned(text);
    var v := Magnitude(body, c);
    if v <= MAX_INT64 {
      ReprintCanonicalBody(body, c);
      ParseCanonicalBody(body, c);
      ParseSigned(body, c);
      assert text[0] == '-' ==> text == ['-'] + body;
    } else if ParseAmount(text, c).Ok? {
      var a := ParseAmount(text, c).value;
      if a == MIN_INT64 {
        LeastAmountIsNotCanonical(c);
      } else {
        FormattedIsCanonical(a, c);
      }
    }
  }

  // ---------- Swapped separators ----------

  function SwapChar(x: char, c: Separators): char {
    if x == c.thousands then c.decimal else if x == c.decimal then c.thousands else x
  }

  function SwapText(s: string, c: Separators): (r: string)
    ensures |r| == |s| && forall i | 0 <= i < |s| :: r[i] == SwapChar(s[i], c)
  {
    seq(|s|, i requires 0 <= i < |s| => SwapChar(s[i], c))
  }

  lemma {:induction false} GroupedSwapped(w: string, c: Separators)
    requires c.thousands !in w && c.decimal !in w
    ensures Grouped(w, c.decimal) == SwapText(Grouped(w, c.thousands), c)
  {
    if |w| > 3 {
      GroupedSwapped(w[..|w| - 3], c);
    }
  }

  lemma SwappedBody(m: Int64, c: Separators)
    requires c.Valid()
    ensures PrintedBody(m, c.Swapped()) == SwapText(PrintedBody(m, c), c)
  {
    var w, f := IntText(Quotient(m, 100)), PaddedText(Remainder(m, 100));
    SeparatorFree(Quotient(m, 100), c.thousands);
    SeparatorFree(Quotient(m, 100), c.decimal);
    SeparatorFree(Remainder(m, 100), c.thousands);
    SeparatorFree(Remainder(m, 100), c.decimal);
    GroupedSwapped(w, c);
    SwapTextParts(Grouped(w, c.thousands), f, c);
  }

  lemma SwapTextParts(g: string, f: string, c: Separators)
    requires c.Valid() && c.thousands !in f && c.decimal !in f
    ensures SwapText(g + [c.decimal] + f, c) == SwapText(g, c) + [c.thousands] + f
  {
  }

  /** Exchanging the two separators of a currency exchanges the two characters of every text. */
  lemma SwappedSeparators(amount: Int64, c: Separators)
    requires c.Valid()
    ensures Formatted(amount, c.Swapped()) == SwapText(Formatted(amount, c), c)
  {
    SwappedBody(PrintedValue(amount), c);
    var body := PrintedBody(PrintedValue(amount), c);
    assert SwapText(['-'] + body, c) == ['-'] + SwapText(body, c);
  }

  // ---------- The currencies ----------

  method FormatUSD(amount: Int64) returns (r: string)
    ensures r == Formatted(amount, USD) && ParseAmount(r, USD) == Ok(amount)
    ensures amount != MIN_INT64 ==> Canonical(r, USD)
  {
    r := FormatAmount(amount, ',', '.');
    RoundTrip(amount, USD);
    if amount != MIN_INT64 {
      FormattedIsCanonical(amount, USD);
    }
  }

  method FormatBRL(amount: Int64) returns (r: string)
    ensures r == SwapText(Formatted(amount, USD), USD) && ParseAmount(r, BRL) == Ok(amount)
  {
    r := FormatAmount(amount, '.', ',');
    RoundTrip(amount, BRL);
    SwappedSeparators(amount, USD);
  }

  method FormatEUR(amount: Int64) returns (r: string)
    ensures r == SwapText(Formatted(amount, USD), USD) && ParseAmount(r, EUR) == Ok(amount)
  {
    r := FormatAmount(amount, '.', ',');
    RoundTrip(amount, EUR);
    SwappedSeparators(amount, USD);
  }
}
