/**
 * The `values` text of an expense sharing: one decimal number per selected
 * user, separated by commas. The text has its spaces removed, is split on
 * every comma, and each piece is read as a decimal number, in order.
 */
module Values {
  import opened Wrappers

  /** Number of occurrences of `c` in `s`. */
  function Occurrences(s: string, c: char): nat
  {
    if s == [] then 0 else (if s[0] == c then 1 else 0) + Occurrences(s[1..], c)
  }

  lemma {:induction false} OccurrencesIsMultiplicity(s: string, c: char)
    ensures Occurrences(s, c) == multiset(s)[c]
  {
    if s != [] {
      assert s == [s[0]] + s[1..];
      OccurrencesIsMultiplicity(s[1..], c);
    }
  }

  // ---------------------------------------------------------------------------
  // Removing spaces (`values.replace(" ", "")`)
  // ---------------------------------------------------------------------------

  /** `s` with every space character removed. */
  function StripSpaces(s: string): (r: string)
    ensures ' ' !in r
    ensures forall c :: c != ' ' ==> multiset(r)[c] == multiset(s)[c]
  {
    if s == [] then []
    else
      assert s == [s[0]] + s[1..];
      if s[0] == ' ' then StripSpaces(s[1..]) else [s[0]] + StripSpaces(s[1..])
  }

  /** Removing spaces works piece by piece: it keeps the order of what remains. */
  lemma {:induction false} StripSpacesAppend(a: string, b: string)
    ensures StripSpaces(a + b) == StripSpaces(a) + StripSpaces(b)
  {
    if a == [] {
      assert a + b == b;
    } else {
      assert (a + b)[0] == a[0] && (a + b)[1..] == a[1..] + b;
      StripSpacesAppend(a[1..], b);
      if a[0] != ' ' {
        assert [a[0]] + (StripSpaces(a[1..]) + StripSpaces(b))
            == ([a[0]] + StripSpaces(a[1..])) + StripSpaces(b);
      }
    }
  }

  /** A text without spaces is left as it is; so removing spaces twice is removing them once. */
  lemma {:induction false} StripSpacesIdentity(s: string)
    requires ' ' !in s
    ensures StripSpaces(s) == s
  {
    if s != [] {
      assert s == [s[0]] + s[1..];
      StripSpacesIdentity(s[1..]);
    }
  }

  // ---------------------------------------------------------------------------
  // Splitting on commas (`.split(',')`)
  // ---------------------------------------------------------------------------

  /**
   * The pieces of `s` between commas: one more piece than there are commas
   * (so never none: the empty text is one empty piece), none holding a comma.
   */
  function Split(s: string): (pieces: seq<string>)
    ensures |pieces| == Occurrences(s, ',') + 1
    ensures forall i :: 0 <= i < |pieces| ==> ',' !in pieces[i]
  {
    if s == [] then [[]]
    else
      var rest := Split(s[1..]);
      if s[0] == ',' then [[]] + rest else [[s[0]] + rest[0]] + rest[1..]
  }

  /** The pieces put back together with a comma between neighbours. */
  function Join(pieces: seq<string>): string
    requires |pieces| >= 1
  {
    if |pieces| == 1 then pieces[0] else pieces[0] + "," + Join(pieces[1..])
  }

  /** Splitting loses nothing: the pieces joined with commas are the text. */
  lemma {:induction false} JoinSplit(s: string)
    ensures Join(Split(s)) == s
  {
    if s != [] {
      var rest := Split(s[1..]);
      JoinSplit(s[1..]);
      if s[0] != ',' {
        var pieces := [[s[0]] + rest[0]] + rest[1..];
        assert pieces[1..] == rest[1..];
        if |rest| > 1 {
          assert Join(rest) == rest[0] + "," + Join(rest[1..]);
        }
      } else {
        assert ([[]] + rest)[1..] == rest;
      }
      assert s == [s[0]] + s[1..];
    }
  }

  /** A prefix without commas becomes the start of the first piece. */
  lemma {:induction false} SplitPrefix(a: string, t: string)
    requires ',' !in a
    ensures Split(a + t) == [a + Split(t)[0]] + Split(t)[1..]
  {
    if a == [] {
      assert a + t == t;
      assert a + Split(t)[0] == Split(t)[0];
      assert Split(t) == [Split(t)[0]] + Split(t)[1..];
    } else {
      assert (a + t)[0] == a[0] && (a + t)[1..] == a[1..] + t;
      SplitPrefix(a[1..], t);
      assert [a[0]] + (a[1..] + Split(t)[0]) == a + Split(t)[0];
    }
  }

  /** Joining pieces that hold no comma and splitting again gives back the pieces. */
  lemma {:induction false} SplitJoin(pieces: seq<string>)
    requires |pieces| >= 1
    requires forall i :: 0 <= i < |pieces| ==> ',' !in pieces[i]
    ensures Split(Join(pieces)) == pieces
  {
    if |pieces| == 1 {
      SplitPrefix(pieces[0], []);
      assert pieces[0] + [] == pieces[0];
    } else {
      var tail := Join(pieces[1..]);
      SplitJoin(pieces[1..]);
      assert ("," + tail)[0] == ',' && ("," + tail)[1..] == tail;
      assert Split("," + tail) == [[]] + pieces[1..];
      assert pieces[0] + "," + tail == pieces[0] + ("," + tail);
      SplitPrefix(pieces[0], "," + tail);
      assert pieces[0] + [] == pieces[0];
    }
  }

  // ---------------------------------------------------------------------------
  // Reading one piece as a decimal number (`Decimal(value)`)
  // ---------------------------------------------------------------------------

  predicate IsDigit(c: char) { '0' <= c <= '9' }

  predicate AllDigits(s: string) { forall i :: 0 <= i < |s| ==> IsDigit(s[i]) }

  function DigitValue(c: char): nat
    requires IsDigit(c)
  {
    c as int - '0' as int
  }

  /** The number a run of decimal digits denotes, most significant digit first. */
  function Value(s: string): nat
    requires AllDigits(s)
  {
    if s == [] then 0 else 10 * Value(s[..|s| - 1]) + DigitValue(s[|s| - 1])
  }

  function Pow10(n: nat): (p: nat)
    ensures p >= 1
  {
    if n == 0 then 1 else 10 * Pow10(n - 1)
  }

  /** Length of the run of digits at the start of `s`. */
  function LeadingDigits(s: string): (n: nat)
    ensures n <= |s| && AllDigits(s[..n])
    ensures n < |s| ==> !IsDigit(s[n])
  {
    if s != [] && IsDigit(s[0]) then 1 + LeadingDigits(s[1..]) else 0
  }

  /** The number with whole part `whole` and `places` fractional digits spelling `frac`. */
  function Fixed(whole: nat, frac: nat, places: nat): real
  {
    whole as real + frac as real / Pow10(places) as real
  }

  /** An unsigned decimal: `digits`, `digits.`, `digits.digits` or `.digits`. */
  function ParseUnsigned(s: string): Option<real>
  {
    var n := LeadingDigits(s);
    if n == |s| then
      if n == 0 then None else Some(Value(s[..n]) as real)
    else if s[n] == '.' && AllDigits(s[n + 1..]) && (n > 0 || n + 1 < |s|) then
      Some(Fixed(Value(s[..n]), Value(s[n + 1..]), |s| - n - 1))
    else
      None
  }

  /**
   * A decimal number with an optional sign, read exactly. The empty piece,
   * a lone sign or a lone point, and any other character, are rejected.
   */
  function ParseDecimal(s: string): (r: Option<real>)
    ensures r.Some? ==> s != [] && ',' !in s && ' ' !in s
  {
    if s != [] && (s[0] == '+' || s[0] == '-') then
      match ParseUnsigned(s[1..])
      case None => None
      case Some(v) => Some(if s[0] == '-' then -v else v)
    else
      ParseUnsigned(s)
  }

  lemma {:induction false} LeadingDigitsAppend(a: string, b: string)
    requires AllDigits(a)
    ensures LeadingDigits(a + b) == |a| + LeadingDigits(b)
  {
    if a != [] {
      assert (a + b)[0] == a[0] && (a + b)[1..] == a[1..] + b;
      LeadingDigitsAppend(a[1..], b);
    } else {
      assert a + b == b;
    }
  }

  /** A piece made only of digits reads as the whole number it spells. */
  lemma ParseDigits(s: string)
    requires s != [] && AllDigits(s)
    ensures ParseDecimal(s) == Some(Value(s) as real)
  {
    LeadingDigitsAppend(s, []);
    assert s + [] == s;
    assert s[..|s|] == s;
  }

  function DigitChar(d: nat): (c: char)
    requires d < 10
    ensures IsDigit(c) && DigitValue(c) == d
  {
    ('0' as int + d) as char
  }

  /** The decimal digits of `n`, without leading zeros. */
  function Digits(n: nat): (s: string)
    ensures s != [] && AllDigits(s)
  {
    if n < 10 then [DigitChar(n)] else Digits(n / 10) + [DigitChar(n % 10)]
  }

  lemma {:induction false} ValueOfDigits(n: nat)
    ensures Value(Digits(n)) == n
  {
    if n >= 10 {
      var s := Digits(n);
      assert s[..|s| - 1] == Digits(n / 10);
      ValueOfDigits(n / 10);
    }
  }

  /**
   * An amount of `cents` hundredths written with two decimal places, the form
   * in which the wallet and expense amounts are stored.
   */
  function FormatCents(cents: int): string
  {
    if cents < 0 then "-" + CentsBody(-cents) else CentsBody(cents)
  }

  /** `m` hundredths as unsigned `digits.dd`. */
  function CentsBody(m: nat): (s: string)
    ensures s != [] && IsDigit(s[0])
  {
    Digits(m / 100) + "." + [DigitChar(m % 100 / 10), DigitChar(m % 100 % 10)]
  }

  /** `digits.digits` reads as the whole part plus the fraction. */
  lemma UnsignedWithFraction(d: string, t: string)
    requires d != [] && AllDigits(d) && AllDigits(t)
    ensures ParseUnsigned(d + "." + t) == Some(Fixed(Value(d), Value(t), |t|))
  {
    var u := d + "." + t;
    var n := |d|;
    assert u == d + ("." + t);
    assert LeadingDigits("." + t) == 0 by {
      assert ("." + t)[0] == '.';
    }
    LeadingDigitsAppend(d, "." + t);
    assert LeadingDigits(u) == n;
    assert n < |u| && u[n] == '.';
    assert u[..n] == d;
    assert u[n + 1..] == t;
    assert |u| - n - 1 == |t|;
  }

  lemma TwoDigits(f: nat)
    requires f < 100
    ensures Value([DigitChar(f / 10), DigitChar(f % 10)]) == f
  {
    var t := [DigitChar(f / 10), DigitChar(f % 10)];
    assert t[..1] == [t[0]];
    assert t[..1][..0] == [];
    assert Value(t[..1]) == f / 10;
    assert f == 10 * (f / 10) + f % 10;
  }

  lemma FixedCents(m: nat)
    ensures Fixed(m / 100, m % 100, 2) == m as real / 100.0
  {
    assert Pow10(2) == 100 by {
      assert Pow10(1) == 10;
    }
    var q, r := m / 100, m % 100;
    assert m == 100 * q + r;
    assert m as real == 100.0 * q as real + r as real;
  }

  lemma UnsignedCents(m: nat)
    ensures ParseUnsigned(CentsBody(m)) == Some(m as real / 100.0)
  {
    var f := m % 100;
    var t := [DigitChar(f / 10), DigitChar(f % 10)];
    assert CentsBody(m) == Digits(m / 100) + "." + t;
    UnsignedWithFraction(Digits(m / 100), t);
    ValueOfDigits(m / 100);
    TwoDigits(m % 100);
    FixedCents(m);
  }

  /** Writing an amount with two decimal places and reading it back gives the amount. */
  lemma FormatCentsRoundTrip(cents: int)
    ensures ParseDecimal(FormatCents(cents)) == Some(cents as real / 100.0)
  {
    if cents < 0 {
      var u := CentsBody(-cents);
      UnsignedCents(-cents);
      assert ("-" + u)[0] == '-' && ("-" + u)[1..] == u;
    } else {
      UnsignedCents(cents);
    }
  }

  // ---------------------------------------------------------------------------
  // The whole list
  // ---------------------------------------------------------------------------

  /**
   * Every piece read in order; the first piece that is not a decimal number
   * is the failure.
   */
  function ParseAll(pieces: seq<string>): (r: Result<seq<real>, string>)
    ensures r.Success? ==> |r.value| == |pieces|
    ensures r.Success? ==> forall i :: 0 <= i < |pieces| ==> ParseDecimal(pieces[i]) == Some(r.value[i])
    ensures r.Failure? ==> exists i :: 0 <= i < |pieces| && pieces[i] == r.error && FirstBad(pieces, i)
  {
    if pieces == [] then Success([])
    else
      match ParseDecimal(pieces[0])
      case None => assert FirstBad(pieces, 0); Failure(pieces[0])
      case Some(x) =>
        match ParseAll(pieces[1..])
        case Failure(bad) =>
          var i :| 0 <= i < |pieces[1..]| && pieces[1..][i] == bad && FirstBad(pieces[1..], i);
          assert FirstBad(pieces, i + 1);
          Failure(bad)
        case Success(xs) => Success([x] + xs)
  }

  /** Piece `i` is the first one that does not read as a decimal number. */
  predicate FirstBad(pieces: seq<string>, i: int)
    requires 0 <= i < |pieces|
  {
    ParseDecimal(pieces[i]).None? && forall j :: 0 <= j < i ==> ParseDecimal(pieces[j]).Some?
  }

  /** The list of numbers a `values` text denotes. */
  function Parse(values: string): (r: Result<seq<real>, string>)
    ensures r.Success? ==> |r.value| == Occurrences(StripSpaces(values), ',') + 1
    ensures r.Failure? ==> ',' !in r.error && ParseDecimal(r.error).None?
  {
    ParseAll(Split(StripSpaces(values)))
  }

  /** A `values` text that reads gives one number per comma, plus one. */
  lemma ParseCount(values: string)
    requires Parse(values).Success?
    ensures |Parse(values).value| == Occurrences(values, ',') + 1
  {
    OccurrencesIsMultiplicity(values, ',');
    OccurrencesIsMultiplicity(StripSpaces(values), ',');
  }

  /**
   * Amounts written with two decimal places and any trailing spaces, joined
   * with commas, read back as the amounts.
   */
  lemma ParseFormatted(written: seq<string>, cents: seq<int>, sep: string)
    requires |written| == |cents| >= 1
    requires forall k :: 0 <= k < |sep| ==> sep[k] == ' '
    requires forall i :: 0 <= i < |cents| ==> written[i] == FormatCents(cents[i]) + sep
    ensures Parse(Join(written)).Success?
    ensures |Parse(Join(written)).value| == |cents|
    ensures forall i :: 0 <= i < |cents| ==> Parse(Join(written)).value[i] == cents[i] as real / 100.0
  {
    var pieces := seq(|cents|, i requires 0 <= i < |cents| => FormatCents(cents[i]));
    forall i | 0 <= i < |pieces|
      ensures ParseDecimal(pieces[i]) == Some(cents[i] as real / 100.0)
    {
      FormatCentsRoundTrip(cents[i]);
    }
    StripJoin(written, pieces, sep);
    SplitJoin(pieces);
  }

  /** Removing the spaces of joined pieces removes them piece by piece. */
  lemma {:induction false} StripJoin(written: seq<string>, pieces: seq<string>, sep: string)
    requires |written| == |pieces| >= 1
    requires forall k :: 0 <= k < |sep| ==> sep[k] == ' '
    requires forall i :: 0 <= i < |pieces| ==> written[i] == pieces[i] + sep
    requires forall i :: 0 <= i < |pieces| ==> ParseDecimal(pieces[i]).Some?
    ensures StripSpaces(Join(written)) == Join(pieces)
  {
    StripPiece(pieces[0], sep);
    if |pieces| > 1 {
      var rest := Join(written[1..]);
      assert forall i :: 0 <= i < |pieces| - 1 ==> written[1..][i] == written[i + 1] && pieces[1..][i] == pieces[i + 1];
      StripJoin(written[1..], pieces[1..], sep);
      assert Join(written) == written[0] + ("," + rest);
      StripSpacesAppend(written[0], "," + rest);
      StripSpacesAppend(",", rest);
      assert StripSpaces(",") == ",";
      assert Join(pieces) == pieces[0] + "," + Join(pieces[1..]);
    }
  }

  /** A number followed by spaces loses exactly the spaces. */
  lemma StripPiece(piece: string, sep: string)
    requires forall k :: 0 <= k < |sep| ==> sep[k] == ' '
    requires ParseDecimal(piece).Some?
    ensures StripSpaces(piece + sep) == piece
  {
    SpacesOnly(sep);
    StripSpacesAppend(piece, sep);
    StripSpacesIdentity(piece);
  }

  lemma {:induction false} SpacesOnly(sep: string)
    requires forall k :: 0 <= k < |sep| ==> sep[k] == ' '
    ensures StripSpaces(sep) == []
  {
    if sep != [] {
      SpacesOnly(sep[1..]);
    }
  }
}
