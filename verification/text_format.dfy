/**
 * The pieces of Ruby's string library the encoder relies on: `Array#join`,
 * `Integer#to_s`, `sprintf("%0.Nf")` and the comma escape of `String#gsub`.
 * `Split` is not used by the encoder; it is the reading side against which
 * the joins are proved.
 */
module TextFormat {

  // ---------------------------------------------------------------
  // Joining and splitting

  /** `parts.join(sep)`: the parts with `sep` between neighbours. */
  function Join(parts: seq<string>, sep: string): string
  {
    if |parts| == 0 then ""
    else if |parts| == 1 then parts[0]
    else parts[0] + sep + Join(parts[1..], sep)
  }

  /** Cuts `s` at every occurrence of `c`; always yields at least one field. */
  function Split(s: string, c: char): (r: seq<string>)
    ensures |r| >= 1
    ensures forall i :: 0 <= i < |r| ==> c !in r[i]
    decreases |s|
  {
    if |s| == 0 then [""]
    else
      var rest := Split(s[1..], c);
      if s[0] == c then [""] + rest else [[s[0]] + rest[0]] + rest[1..]
  }

  lemma {:induction false} SplitWithout(s: string, c: char)
    requires c !in s
    ensures Split(s, c) == [s]
    decreases |s|
  {
    if |s| > 0 {
      SplitWithout(s[1..], c);
      assert [s[0]] + s[1..] == s;
    }
  }

  lemma {:induction false} SplitAt(a: string, c: char, b: string)
    requires c !in a
    ensures Split(a + [c] + b, c) == [a] + Split(b, c)
    decreases |a|
  {
    if |a| == 0 {
      assert a + [c] + b == [c] + b;
      assert ([c] + b)[1..] == b;
    } else {
      SplitAt(a[1..], c, b);
      assert (a + [c] + b)[1..] == a[1..] + [c] + b;
      assert (a + [c] + b)[0] == a[0];
      assert [a[0]] + a[1..] == a;
    }
  }

  lemma {:induction false} SplitAround(a: string, c: char, b: string)
    requires c !in a && c !in b
    ensures Split(a + [c] + b, c) == [a, b]
  {
    SplitAt(a, c, b);
    SplitWithout(b, c);
  }

  /** Splitting at a one-character separator undoes `Join` when no part holds it. */
  lemma {:induction false} SplitJoin(parts: seq<string>, c: char)
    requires |parts| > 0
    requires forall i :: 0 <= i < |parts| ==> c !in parts[i]
    ensures Split(Join(parts, [c]), c) == parts
    decreases |parts|
  {
    if |parts| == 1 {
      SplitWithout(parts[0], c);
    } else {
      SplitJoin(parts[1..], c);
      SplitAt(parts[0], c, Join(parts[1..], [c]));
      assert [parts[0]] + parts[1..] == parts;
    }
  }

  /** A join is at least as long as its first part. */
  lemma {:induction false} JoinStarts(parts: seq<string>, sep: string)
    requires |parts| > 0
    ensures |Join(parts, sep)| >= |parts[0]|
  {
  }

  predicate EndsWith(s: string, suffix: string) {
    |suffix| <= |s| && s[|s| - |suffix|..] == suffix
  }

  /** A join ends with its last part. */
  lemma {:induction false} JoinEnds(parts: seq<string>, sep: string)
    requires |parts| > 0
    ensures EndsWith(Join(parts, sep), parts[|parts| - 1])
    decreases |parts|
  {
    if |parts| > 1 {
      JoinEnds(parts[1..], sep);
      var rest := Join(parts[1..], sep);
      var prefix := parts[0] + sep;
      assert Join(parts, sep) == prefix + rest;
      assert (prefix + rest)[|prefix + rest| - |parts[|parts| - 1]|..] == rest[|rest| - |parts[|parts| - 1]|..];
    }
  }

  /** Joining `x + sep + y` as one part is joining `x` and `y` as two. */
  lemma {:induction false} JoinSplice(a: seq<string>, x: string, y: string, b: seq<string>, sep: string)
    ensures Join(a + [x + sep + y] + b, sep) == Join(a + [x, y] + b, sep)
    decreases |a|
  {
    if |a| == 0 {
      assert a + [x + sep + y] + b == [x + sep + y] + b;
      assert a + [x, y] + b == [x, y] + b;
      assert ([x, y] + b)[1..] == [y] + b;
      if |b| > 0 {
        assert ([x + sep + y] + b)[1..] == b;
        assert ([y] + b)[1..] == b;
      }
    } else {
      JoinSplice(a[1..], x, y, b, sep);
      assert (a + [x + sep + y] + b)[1..] == a[1..] + [x + sep + y] + b;
      assert (a + [x, y] + b)[1..] == a[1..] + [x, y] + b;
    }
  }

  /** A character in no entry of either list is in no entry of their concatenation. */
  lemma {:induction false} ConcatAvoids(xs: seq<string>, ys: seq<string>, c: char)
    requires forall i :: 0 <= i < |xs| ==> c !in xs[i]
    requires forall i :: 0 <= i < |ys| ==> c !in ys[i]
    ensures forall i :: 0 <= i < |xs + ys| ==> c !in (xs + ys)[i]
  {
    forall i | 0 <= i < |xs + ys|
      ensures c !in (xs + ys)[i]
    {
      if i >= |xs| {
        assert (xs + ys)[i] == ys[i - |xs|];
      }
    }
  }

  /** A character that is in no part and not in the separator is not in the join. */
  lemma {:induction false} JoinExcludes(parts: seq<string>, sep: string, c: char)
    requires c !in sep
    requires forall i :: 0 <= i < |parts| ==> c !in parts[i]
    ensures c !in Join(parts, sep)
    decreases |parts|
  {
    if |parts| > 1 {
      JoinExcludes(parts[1..], sep, c);
    }
  }

  /** The two lists taken alternately: `[xs[0], ys[0], xs[1], ys[1], ...]`. */
  function Interleave(xs: seq<string>, ys: seq<string>): (r: seq<string>)
    requires |xs| == |ys|
    ensures |r| == 2 * |xs|
    decreases |xs|
  {
    if |xs| == 0 then [] else [xs[0], ys[0]] + Interleave(xs[1..], ys[1..])
  }

  /** Entry `2k` of the interleaving is `xs[k]`, entry `2k + 1` is `ys[k]`. */
  lemma {:induction false} InterleaveAt(xs: seq<string>, ys: seq<string>, k: nat)
    requires |xs| == |ys| && k < |xs|
    ensures Interleave(xs, ys)[2 * k] == xs[k] && Interleave(xs, ys)[2 * k + 1] == ys[k]
    decreases k
  {
    var r := Interleave(xs, ys);
    assert r == [xs[0], ys[0]] + Interleave(xs[1..], ys[1..]);
    if k > 0 {
      InterleaveAt(xs[1..], ys[1..], k - 1);
      assert r[2 * k] == Interleave(xs[1..], ys[1..])[2 * (k - 1)];
      assert r[2 * k + 1] == Interleave(xs[1..], ys[1..])[2 * (k - 1) + 1];
    }
  }

  /** A character in none of the entries of either list is in no entry of their interleaving. */
  lemma {:induction false} InterleaveExcludes(xs: seq<string>, ys: seq<string>, c: char)
    requires |xs| == |ys|
    requires forall i :: 0 <= i < |xs| ==> c !in xs[i] && c !in ys[i]
    ensures forall i :: 0 <= i < 2 * |xs| ==> c !in Interleave(xs, ys)[i]
    decreases |xs|
  {
    if |xs| > 0 {
      InterleaveExcludes(xs[1..], ys[1..], c);
    }
  }

  /** Joining pairs `x + sep + y` with `sep` is joining the interleaved list. */
  lemma {:induction false} JoinPairs(xs: seq<string>, ys: seq<string>, sep: string)
    requires |xs| == |ys|
    ensures Join(seq(|xs|, i requires 0 <= i < |xs| => xs[i] + sep + ys[i]), sep)
         == Join(Interleave(xs, ys), sep)
    decreases |xs|
  {
    var groups := seq(|xs|, i requires 0 <= i < |xs| => xs[i] + sep + ys[i]);
    if |xs| == 1 {
      assert Interleave(xs, ys) == [xs[0], ys[0]];
    } else if |xs| > 1 {
      var tail := seq(|xs| - 1, i requires 0 <= i < |xs| - 1 => xs[1..][i] + sep + ys[1..][i]);
      assert groups[1..] == tail;
      JoinPairs(xs[1..], ys[1..], sep);
      var rest := Interleave(xs[1..], ys[1..]);
      assert Interleave(xs, ys) == [xs[0], ys[0]] + rest;
      assert ([xs[0], ys[0]] + rest)[1..] == [ys[0]] + rest;
      assert ([ys[0]] + rest)[1..] == rest;
    }
  }

  // ---------------------------------------------------------------
  // Decimal digits

  predicate IsDigit(ch: char) { '0' <= ch <= '9' }

  predicate AllDigits(s: string) { forall i :: 0 <= i < |s| ==> IsDigit(s[i]) }

  function DigitChar(d: nat): (ch: char)
    requires d < 10
    ensures IsDigit(ch)
  {
    (48 + d) as char
  }

  /** `Integer#to_s` for a non-negative integer: decimal digits, no leading zero. */
  function NatToString(n: nat): (s: string)
    ensures |s| >= 1 && AllDigits(s)
    ensures |s| > 1 ==> s[0] != '0'
    decreases n
  {
    if n < 10 then [DigitChar(n)] else NatToString(n / 10) + [DigitChar(n % 10)]
  }

  /** The number a string of decimal digits denotes (the reading side of `NatToString`). */
  function DigitsValue(s: string): nat
    requires AllDigits(s)
    decreases |s|
  {
    if |s| == 0 then 0 else 10 * DigitsValue(s[..|s| - 1]) + (s[|s| - 1] as int - 48)
  }

  lemma {:induction false} NatToStringRoundTrip(n: nat)
    ensures DigitsValue(NatToString(n)) == n
    decreases n
  {
    if n >= 10 {
      NatToStringRoundTrip(n / 10);
      var s := NatToString(n);
      assert s[..|s| - 1] == NatToString(n / 10);
    }
  }

  /** `Integer#to_s`: a minus sign before the digits of a negative number. */
  function IntToString(i: int): (s: string)
    ensures |s| >= 1
    ensures (s[0] == '-') <==> i < 0
    ensures i >= 0 ==> s == NatToString(i)
    ensures i < 0 ==> s[1..] == NatToString(-i)
  {
    if i < 0 then "-" + NatToString(-i) else NatToString(i)
  }

  function Pow10(k: nat): (r: nat)
    ensures r >= 1
  {
    if k == 0 then 1 else 10 * Pow10(k - 1)
  }

  function Zeros(n: nat): (s: string)
    ensures |s| == n && forall i :: 0 <= i < n ==> s[i] == '0'
  {
    seq(n, _ => '0')
  }

  /** Leading zeros up to width `k`, as `%0k` would print them. */
  function ZeroPad(s: string, k: nat): (r: string)
    ensures |s| <= k ==> |r| == k
    ensures |r| >= |s| && r[|r| - |s|..] == s
  {
    if |s| >= k then s else Zeros(k - |s|) + s
  }

  /** Leading zeros do not change the value a digit string denotes. */
  lemma {:induction false} ZerosValue(z: nat, s: string)
    requires AllDigits(s)
    ensures AllDigits(Zeros(z) + s) && DigitsValue(Zeros(z) + s) == DigitsValue(s)
    decreases |s|
  {
    var t := Zeros(z) + s;
    if |s| == 0 {
      assert t == Zeros(z);
      ZerosOnlyValue(z);
    } else {
      ZerosValue(z, s[..|s| - 1]);
      assert t[..|t| - 1] == Zeros(z) + s[..|s| - 1];
    }
  }

  lemma {:induction false} ZerosOnlyValue(z: nat)
    ensures DigitsValue(Zeros(z)) == 0
    decreases z
  {
    if z > 0 {
      ZerosOnlyValue(z - 1);
      assert Zeros(z)[..z - 1] == Zeros(z - 1);
    }
  }

  // ---------------------------------------------------------------
  // Fixed-point rendering: sprintf("%0.Nf", v)

  function Abs(v: real): (a: real)
    ensures a >= 0.0 && (a == v || a == -v)
  {
    if v < 0.0 then -v else v
  }

  /**
   * Nearest integer to a non-negative real, ties to the even neighbour:
   * the rounding `printf`'s `%f` applies to a value it can represent exactly.
   */
  function RoundHalfEven(x: real): (n: nat)
    requires x >= 0.0
    ensures n as real - x <= 0.5 && x - n as real <= 0.5
    ensures (n as real - x == 0.5 || x - n as real == 0.5) ==> n % 2 == 0
  {
    var f := x.Floor;
    var frac := x - f as real;
    if frac < 0.5 then f
    else if frac > 0.5 then f + 1
    else if f % 2 == 0 then f
    else f + 1
  }

  /** Rounding never reverses the order of two non-negative values. */
  lemma {:induction false} RoundMonotone(x: real, y: real)
    requires 0.0 <= x <= y
    ensures RoundHalfEven(x) <= RoundHalfEven(y)
  {
    var fx, fy := x.Floor, y.Floor;
    assert fx <= fy;
    if fx == fy {
      assert x - fx as real <= y - fy as real;
    }
  }

  /** The digits of `q`, zero-padded to at least `places + 1` digits. */
  function Padded(q: nat, places: nat): (s: string)
    ensures |s| >= places + 1
  {
    ZeroPad(NatToString(q), places + 1)
  }

  /**
   * The digits `q` stands for when the last `places` of them are decimals:
   * at least one integer digit, then a point before the last `places`.
   */
  function Decimal(q: nat, places: nat): string
  {
    if places == 0 then NatToString(q)
    else
      var s := Padded(q, places);
      s[..|s| - places] + ['.'] + s[|s| - places..]
  }

  /** The scaled integer the rendering of `v` shows: `v * 10^places`, rounded, with v's sign. */
  function Scaled(v: real, places: nat): (q: int)
    ensures v >= 0.0 ==> q >= 0
  {
    if v < 0.0 then -(Magnitude(v, places) as int) else Magnitude(v, places)
  }

  /** The rounded magnitude `|v| * 10^places` that a rendering spells out. */
  function Magnitude(v: real, places: nat): nat
  {
    RoundHalfEven(Shift(Abs(v), places))
  }

  /** `x * 10^k`, by repeated multiplication with ten. */
  function Shift(x: real, k: nat): (r: real)
    ensures x >= 0.0 ==> r >= 0.0
  {
    if k == 0 then x else 10.0 * Shift(x, k - 1)
  }

  lemma {:induction false} ShiftMonotone(x: real, y: real, k: nat)
    requires x <= y
    ensures Shift(x, k) <= Shift(y, k)
  {
    if k > 0 {
      ShiftMonotone(x, y, k - 1);
    }
  }

  lemma {:induction false} MagnitudeMonotone(v: real, w: real, places: nat)
    requires Abs(v) <= Abs(w)
    ensures Magnitude(v, places) <= Magnitude(w, places)
  {
    ShiftMonotone(Abs(v), Abs(w), places);
    RoundMonotone(Shift(Abs(v), places), Shift(Abs(w), places));
  }

  /** Rendering keeps order: a larger value never shows a smaller scaled integer. */
  lemma {:induction false} ScaledMonotone(v: real, w: real, places: nat)
    requires v <= w
    ensures Scaled(v, places) <= Scaled(w, places)
  {
    if 0.0 <= v {
      MagnitudeMonotone(v, w, places);
    } else if w < 0.0 {
      MagnitudeMonotone(w, v, places);
    }
  }

  /**
   * `sprintf("%0.<places>f", v)`: the sign of `v` (kept even when the
   * magnitude rounds to zero, as printf's "-0.0"), then the rounded magnitude
   * with `places` decimals.
   */
  function FormatFixed(v: real, places: nat): string
  {
    (if v < 0.0 then "-" else "") + Decimal(Magnitude(v, places), places)
  }

  /** A rendering consists only of digits, the point and the minus sign. */
  predicate NumericText(s: string) {
    forall i :: 0 <= i < |s| ==> IsDigit(s[i]) || s[i] == '.' || s[i] == '-'
  }

  lemma {:induction false} FormatFixedIsNumeric(v: real, places: nat)
    ensures NumericText(FormatFixed(v, places))
  {
    DecimalIsNumeric(Magnitude(v, places), places);
  }

  lemma {:induction false} DecimalIsNumeric(q: nat, places: nat)
    ensures NumericText(Decimal(q, places))
  {
    if places > 0 {
      var s := Padded(q, places);
      PaddedAllDigits(q, places);
      PointedIsNumeric(s, |s| - places);
    } else {
      DigitsAreNumeric(NatToString(q), 0);
    }
  }

  /** Digits with a point put between them are numeric text. */
  lemma {:induction false} PointedIsNumeric(s: string, k: nat)
    requires AllDigits(s) && k <= |s|
    ensures NumericText(s[..k] + ['.'] + s[k..])
  {
    DigitsAreNumeric(s, k);
    NumericConcat(s[..k], ['.']);
    NumericConcat(s[..k] + ['.'], s[k..]);
  }

  lemma {:induction false} IntToStringIsNumeric(i: int)
    ensures NumericText(IntToString(i))
  {
    var s := IntToString(i);
    if i < 0 {
      DigitsAreNumeric(NatToString(-i), 0);
      assert s == [s[0]] + s[1..];
      NumericConcat([s[0]], s[1..]);
    } else {
      DigitsAreNumeric(NatToString(i), 0);
    }
  }

  lemma {:induction false} DigitsAreNumeric(s: string, k: nat)
    requires AllDigits(s) && k <= |s|
    ensures NumericText(s) && NumericText(s[..k]) && NumericText(s[k..])
  {
  }

  lemma {:induction false} NumericConcat(a: string, b: string)
    requires NumericText(a) && NumericText(b)
    ensures NumericText(a + b)
  {
  }

  lemma {:induction false} ShiftDigit(va: int, p: int, vb: int, d: int)
    ensures 10 * (va * p + vb) + d == va * (10 * p) + (10 * vb + d)
  {
  }

  /** The value of two digit strings written one after the other. */
  lemma {:induction false} DigitsValueConcat(a: string, b: string)
    requires AllDigits(a) && AllDigits(b)
    ensures AllDigits(a + b)
    ensures DigitsValue(a + b) == DigitsValue(a) * Pow10(|b|) + DigitsValue(b)
    decreases |b|
  {
    if |b| == 0 {
      assert a + b == a;
    } else {
      var b' := b[..|b| - 1];
      DigitsValueConcat(a, b');
      assert (a + b)[..|a + b| - 1] == a + b';
      assert (a + b)[|a + b| - 1] == b[|b| - 1];
      ShiftDigit(DigitsValue(a), Pow10(|b'|), DigitsValue(b'), b[|b| - 1] as int - 48);
    }
  }

  lemma {:induction false} PaddedAllDigits(q: nat, places: nat)
    ensures AllDigits(Padded(q, places))
  {
    var digits := NatToString(q);
    if |digits| < places + 1 {
      var z := Zeros(places + 1 - |digits|);
      assert forall i :: 0 <= i < |z + digits| ==> (z + digits)[i] == if i < |z| then '0' else digits[i - |z|];
    }
  }

  lemma {:induction false} PaddedDigits(q: nat, places: nat)
    ensures AllDigits(Padded(q, places)) && DigitsValue(Padded(q, places)) == q
  {
    var digits := NatToString(q);
    NatToStringRoundTrip(q);
    if |digits| < places + 1 {
      ZerosValue(places + 1 - |digits|, digits);
    }
  }

  /**
   * The unsigned rendering reads back as the rounded magnitude: one integer
   * part, a point, exactly `places` decimals, and together they denote `q`.
   * `FormatFixedReadsBack` adds the sign.
   */
  lemma {:induction false} DecimalReadsBack(q: nat, places: nat)
    requires places > 0
    ensures var fields := Split(Decimal(q, places), '.');
            |fields| == 2 && AllDigits(fields[0]) && AllDigits(fields[1]) &&
            |fields[1]| == places &&
            DigitsValue(fields[0]) * Pow10(places) + DigitsValue(fields[1]) == q
  {
    var s := Padded(q, places);
    PaddedDigits(q, places);
    assert Decimal(q, places) == s[..|s| - places] + ['.'] + s[|s| - places..];
    PointedReadsBack(s, places, q);
  }

  /**
   * A rendering reads back as the signed scaled integer: a leading minus sign
   * exactly for negative values, then the digits before and after the point,
   * which together with the sign denote `Scaled(v, places)`.
   */
  lemma {:induction false} FormatFixedReadsBack(v: real, places: nat)
    requires places > 0
    ensures var t := FormatFixed(v, places);
            |t| > 0 && (t[0] == '-' <==> v < 0.0) &&
            var fields := Split(if t[0] == '-' then t[1..] else t, '.');
            |fields| == 2 && AllDigits(fields[0]) && AllDigits(fields[1]) &&
            |fields[1]| == places &&
            (if t[0] == '-' then -(DigitsValue(fields[0]) * Pow10(places) + DigitsValue(fields[1]))
             else DigitsValue(fields[0]) * Pow10(places) + DigitsValue(fields[1])) == Scaled(v, places)
  {
    var q := Magnitude(v, places);
    var d := Decimal(q, places);
    var t := FormatFixed(v, places);
    DecimalStartsWithDigit(q, places);
    DecimalReadsBack(q, places);
    if v < 0.0 {
      assert t == "-" + d;
      assert t[0] == '-' && t[1..] == d;
    } else {
      assert t == d;
      assert t[0] != '-';
    }
  }

  /** The unsigned rendering starts with an integer digit, never with a sign. */
  lemma {:induction false} DecimalStartsWithDigit(q: nat, places: nat)
    requires places > 0
    ensures |Decimal(q, places)| > 0 && IsDigit(Decimal(q, places)[0])
  {
    var s := Padded(q, places);
    PaddedAllDigits(q, places);
    assert Decimal(q, places) == s[..|s| - places] + ['.'] + s[|s| - places..];
    PointedStartsWithDigit(s, |s| - places);
  }

  lemma {:induction false} PointedStartsWithDigit(s: string, k: nat)
    requires AllDigits(s) && 0 < k <= |s|
    ensures IsDigit((s[..k] + ['.'] + s[k..])[0])
  {
    assert (s[..k] + ['.'] + s[k..])[0] == s[0];
  }

  /** Digits with a point before the last `places` split back into two digit runs worth the whole. */
  lemma {:induction false} PointedReadsBack(s: string, places: nat, q: nat)
    requires AllDigits(s) && places < |s| && DigitsValue(s) == q
    ensures var fields := Split(s[..|s| - places] + ['.'] + s[|s| - places..], '.');
            |fields| == 2 && AllDigits(fields[0]) && AllDigits(fields[1]) &&
            |fields[1]| == places &&
            DigitsValue(fields[0]) * Pow10(places) + DigitsValue(fields[1]) == q
  {
    var ip, fp := s[..|s| - places], s[|s| - places..];
    DigitsSlices(s, |s| - places);
    SliceConcat(s, |s| - places);
    PointedSplit(ip, fp);
    DigitsValueConcat(ip, fp);
  }

  lemma {:induction false} SliceConcat(s: string, k: nat)
    requires k <= |s|
    ensures s[..k] + s[k..] == s
  {
  }

  lemma {:induction false} DigitsSlices(s: string, k: nat)
    requires AllDigits(s) && k <= |s|
    ensures AllDigits(s[..k]) && AllDigits(s[k..])
  {
    assert forall i :: 0 <= i < |s[k..]| ==> s[k..][i] == s[k + i];
  }

  /** Two digit runs with a point between them split back at the point. */
  lemma {:induction false} PointedSplit(ip: string, fp: string)
    requires AllDigits(ip) && AllDigits(fp)
    ensures Split(ip + ['.'] + fp, '.') == [ip, fp]
  {
    assert '.' !in ip by { assert AllDigits(ip); }
    assert '.' !in fp by { assert AllDigits(fp); }
    SplitAround(ip, '.', fp);
  }

  // ---------------------------------------------------------------
  // Comma escape: text.gsub(',', '\,')

  function Count(s: string, c: char): nat
  {
    if |s| == 0 then 0 else (if s[0] == c then 1 else 0) + Count(s[1..], c)
  }

  /** Puts a backslash before every comma and leaves every other character alone. */
  function EscapeCommas(s: string): (r: string)
    ensures |r| == |s| + Count(s, ',')
    ensures |s| > 0 ==> r[0] == (if s[0] == ',' then '\\' else s[0])
    decreases |s|
  {
    if |s| == 0 then ""
    else (if s[0] == ',' then "\\," else [s[0]]) + EscapeCommas(s[1..])
  }

  /** Drops the backslash of every backslash-comma pair, scanning left to right. */
  function UnescapeCommas(s: string): string
    decreases |s|
  {
    if |s| == 0 then ""
    else if |s| >= 2 && s[0] == '\\' && s[1] == ',' then "," + UnescapeCommas(s[2..])
    else [s[0]] + UnescapeCommas(s[1..])
  }

  /** Removing the backslash before each comma restores the original text. */
  lemma {:induction false} UnescapeEscape(s: string)
    ensures UnescapeCommas(EscapeCommas(s)) == s
    decreases |s|
  {
    if |s| > 0 {
      UnescapeEscape(s[1..]);
      var rest := EscapeCommas(s[1..]);
      if s[0] == ',' {
        assert EscapeCommas(s) == "\\," + rest;
        assert ("\\," + rest)[2..] == rest;
      } else {
        assert EscapeCommas(s) == [s[0]] + rest;
        assert ([s[0]] + rest)[1..] == rest;
        assert |rest| > 0 ==> rest[0] != ',';
      }
      assert [s[0]] + s[1..] == s;
    }
  }

  /** Every comma of `r` that is not its first character follows a backslash. */
  predicate CommasEscaped(r: string) {
    forall i :: 0 < i < |r| && r[i] == ',' ==> r[i - 1] == '\\'
  }

  /** After escaping, every comma is preceded by a backslash (so none comes first). */
  lemma {:induction false} EscapedCommasFollowBackslash(s: string)
    ensures var r := EscapeCommas(s);
            (|r| > 0 ==> r[0] != ',') && CommasEscaped(r)
    decreases |s|
  {
    if |s| > 0 {
      EscapedCommasFollowBackslash(s[1..]);
      var rest := EscapeCommas(s[1..]);
      var head := if s[0] == ',' then "\\," else [s[0]];
      var r := head + rest;
      assert EscapeCommas(s) == r;
      forall i | 0 < i < |r| && r[i] == ','
        ensures r[i - 1] == '\\'
      {
        if i > |head| {
          assert r[i] == rest[i - |head|];
          assert r[i - 1] == rest[i - |head| - 1];
        } else if i == 1 && |head| == 2 {
          assert r[0] == head[0];
        }
      }
    }
  }
}
