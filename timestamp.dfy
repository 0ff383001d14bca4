/** The home page's timestamp `DD/MM/YY @ HH:MM` (scripts.js, the realtime
    timestamp block). The date fields are inputs: reading the clock is not
    modelled. */
module Timestamp {

  /** `String.prototype.padStart(n, fill)` with a one-character fill. */
  function PadStart(s: string, n: nat, fill: char): (r: string)
    ensures |r| == if |s| >= n then |s| else n
    ensures r[|r| - |s|..] == s
    ensures forall i :: 0 <= i < |r| - |s| ==> r[i] == fill
  {
    if |s| >= n then s else seq(n - |s|, _ => fill) + s
  }

  /** The script's `pad`, applied to an already converted string. */
  function Pad(s: string): string
  {
    PadStart(s, 2, '0')
  }

  function Digit(d: nat): (c: char)
    requires d < 10
  {
    ('0' as int + d) as char
  }

  /** `String(n)` for a natural number. */
  function Decimal(n: nat): (r: string)
    ensures |r| >= 1
  {
    if n < 10 then [Digit(n)] else Decimal(n / 10) + [Digit(n % 10)]
  }

  /** `String(n)` for an integer, with a leading minus sign when negative. */
  function IntDecimal(n: int): string
  {
    if n < 0 then "-" + Decimal(-n) else Decimal(n)
  }

  /** `slice(-2)`: the last two characters, or the whole string when shorter. */
  function LastTwo(s: string): (r: string)
    ensures |r| == if |s| < 2 then |s| else 2
    ensures r == s[|s| - |r|..]
  {
    if |s| <= 2 then s else s[|s| - 2..]
  }

  /** The two-digit rendering of a number below 100, written independently of
      `Pad` and `Decimal`. */
  function TwoDigits(n: nat): (r: string)
    requires n < 100
  {
    [Digit(n / 10), Digit(n % 10)]
  }

  /** The fields joined as `D/M/Y @ H:M`. */
  function Join(day: string, month: string, year: string, hour: string, minute: string): string
  {
    day + "/" + month + "/" + year + " @ " + hour + ":" + minute
  }

  /** The script's timestamp expression for the fields its `Date` getters
      return (`getMonth` is zero-based). */
  function Format(day: nat, month0: nat, year: int, hour: nat, minute: nat): string
  {
    Pad(Join(Pad(Decimal(day)), Pad(Decimal(month0 + 1)), LastTwo(IntDecimal(year)),
             Pad(Decimal(hour)), Pad(Decimal(minute))))
  }

  /** `pad` returns a string of two or more characters unchanged. */
  lemma PadLongIsIdentity(s: string)
    requires |s| >= 2
    ensures Pad(s) == s
  {
    var r := Pad(s);
    assert |r| == |s|;
    assert r[0..] == r;
  }

  /** `pad` of a short string is that string left-filled with '0' to two characters. */
  lemma PadShort(s: string)
    requires |s| < 2
    ensures Pad(s) == if |s| == 0 then "00" else "0" + s
  {
    var r := Pad(s);
    assert |r| == 2;
    if |s| == 1 {
      assert r[1..] == s;
      assert r == [r[0]] + r[1..];
    } else {
      assert r == [r[0], r[1]];
    }
  }

  /** Padding the decimal form of a number below 100 gives its two digits. */
  lemma PadDecimal(n: nat)
    requires n < 100
    ensures Pad(Decimal(n)) == TwoDigits(n)
  {
    if n < 10 {
      var d := Decimal(n);
      assert d == [Digit(n)];
      PadShort(d);
      assert n / 10 == 0 && n % 10 == n;
      assert Digit(0) == '0';
      assert TwoDigits(n) == "0" + d;
    } else {
      var d := Decimal(n);
      assert n / 10 < 10;
      assert Decimal(n / 10) == [Digit(n / 10)];
      assert d == [Digit(n / 10)] + [Digit(n % 10)];
      assert d == TwoDigits(n);
      PadLongIsIdentity(d);
    }
  }

  /** The last character of a decimal form is the units digit. */
  lemma DecimalEndsWithUnits(n: nat)
    ensures Decimal(n)[|Decimal(n)| - 1] == Digit(n % 10)
  {
  }

  /** The last two characters of the decimal form of a number of two or more
      digits are its tens and units digits. */
  lemma {:induction false} LastTwoOfDecimal(n: nat)
    requires n >= 10
    ensures LastTwo(Decimal(n)) == TwoDigits(n % 100)
  {
    var h := Decimal(n / 10);
    DecimalSplit(n);
    DecimalEndsWithUnits(n / 10);
    LastTwoOfAppend(h, Digit(n % 10));
    TensAndUnits(n);
  }

  /** A number of two or more digits is written as its leading digits followed
      by its units digit. */
  lemma DecimalSplit(n: nat)
    requires n >= 10
    ensures Decimal(n) == Decimal(n / 10) + [Digit(n % 10)]
  {
  }

  /** Appending one character keeps the last character of the prefix before it. */
  lemma LastTwoOfAppend(h: string, c: char)
    requires |h| >= 1
    ensures LastTwo(h + [c]) == [h[|h| - 1], c]
  {
    var d := h + [c];
    assert d[|d| - 2..] == [d[|d| - 2], d[|d| - 1]];
  }

  /** The digits of `n % 100` are the tens and units digits of `n`. */
  lemma TensAndUnits(n: nat)
    ensures (n % 100) / 10 == (n / 10) % 10 && (n % 100) % 10 == n % 10
  {
    var q, u := n / 10, n % 10;
    var t, h := q % 10, q / 10;
    assert n == 10 * q + u;
    assert q == 10 * h + t;
    assert n == 100 * h + (10 * t + u);
    assert 0 <= 10 * t + u < 100;
    assert n % 100 == 10 * t + u;
  }

  /** The outer `pad` around the whole timestamp never changes it. */
  lemma OuterPadIsNoOp(day: nat, month0: nat, year: int, hour: nat, minute: nat)
    ensures Format(day, month0, year, hour, minute) ==
      Join(Pad(Decimal(day)), Pad(Decimal(month0 + 1)), LastTwo(IntDecimal(year)),
           Pad(Decimal(hour)), Pad(Decimal(minute)))
  {
    PadLongIsIdentity(Join(Pad(Decimal(day)), Pad(Decimal(month0 + 1)), LastTwo(IntDecimal(year)),
                           Pad(Decimal(hour)), Pad(Decimal(minute))));
  }

  /** For the ranges the `Date` getters produce and a year of at least two
      digits, the timestamp is `DD/MM/YY @ HH:MM`: sixteen characters with every
      field zero-padded to two digits and the year cut to its last two. */
  lemma FormatLayout(day: nat, month0: nat, year: int, hour: nat, minute: nat)
    requires 1 <= day <= 31 && month0 <= 11 && year >= 10 && hour <= 23 && minute <= 59
    ensures Format(day, month0, year, hour, minute) ==
      Join(TwoDigits(day), TwoDigits(month0 + 1), TwoDigits(year % 100), TwoDigits(hour), TwoDigits(minute))
  {
    OuterPadIsNoOp(day, month0, year, hour, minute);
    var dd, mm, hh, mi := Pad(Decimal(day)), Pad(Decimal(month0 + 1)), Pad(Decimal(hour)), Pad(Decimal(minute));
    var yy := LastTwo(IntDecimal(year));
    PadDecimal(day);
    PadDecimal(month0 + 1);
    PadDecimal(hour);
    PadDecimal(minute);
    assert IntDecimal(year) == Decimal(year);
    LastTwoOfDecimal(year);
    assert dd == TwoDigits(day) && mm == TwoDigits(month0 + 1) && yy == TwoDigits(year % 100);
    assert hh == TwoDigits(hour) && mi == TwoDigits(minute);
  }

  /** In those ranges the timestamp is always sixteen characters long. */
  lemma FormatLength(day: nat, month0: nat, year: int, hour: nat, minute: nat)
    requires 1 <= day <= 31 && month0 <= 11 && year >= 10 && hour <= 23 && minute <= 59
    ensures |Format(day, month0, year, hour, minute)| == 16
  {
    FormatLayout(day, month0, year, hour, minute);
    var dd, mm, yy := TwoDigits(day), TwoDigits(month0 + 1), TwoDigits(year % 100);
    var hh, mi := TwoDigits(hour), TwoDigits(minute);
    assert |dd| == 2 && |mm| == 2 && |yy| == 2 && |hh| == 2 && |mi| == 2;
    JoinLength(dd, mm, yy, hh, mi);
  }

  lemma JoinLength(day: string, month: string, year: string, hour: string, minute: string)
    ensures |Join(day, month, year, hour, minute)| == |day| + |month| + |year| + |hour| + |minute| + 6
  {
  }

  /** 3 March 2025, 09:05 renders as `03/03/25 @ 09:05`. */
  lemma ThirdOfMarch2025()
    ensures Format(3, 2, 2025, 9, 5) == "03/03/25 @ 09:05"
  {
    ThirdOfMarch2025Fields();
    ThirdOfMarch2025Digits();
  }

  lemma ThirdOfMarch2025Fields()
    ensures Format(3, 2, 2025, 9, 5) ==
      Join(TwoDigits(3), TwoDigits(3), TwoDigits(25), TwoDigits(9), TwoDigits(5))
  {
    FormatLayout(3, 2, 2025, 9, 5);
  }

  lemma ThirdOfMarch2025Digits()
    ensures Join(TwoDigits(3), TwoDigits(3), TwoDigits(25), TwoDigits(9), TwoDigits(5)) == "03/03/25 @ 09:05"
  {
    assert Digit(0) == '0' && Digit(2) == '2' && Digit(3) == '3' && Digit(5) == '5' && Digit(9) == '9';
    assert TwoDigits(3) == "03" && TwoDigits(25) == "25" && TwoDigits(9) == "09" && TwoDigits(5) == "05";
  }
}
