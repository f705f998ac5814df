/** String primitives the checks rely on: literal one-character splitting and
    joining, substring search, and Go's strconv integer parsing and decimal
    rendering. */
module Text {

  datatype Option<T> = None | Some(value: T)

  // ---------------------------------------------------------------------------
  // Splitting on a one-character literal (strings.Split / regexp Split(s, -1))
  // ---------------------------------------------------------------------------

  /** Splits `s` at every occurrence of `sep`; empty fields are kept, so the
      empty string gives one empty field. */
  function Split(s: string, sep: char): (parts: seq<string>)
    ensures |parts| >= 1
    ensures forall k :: 0 <= k < |parts| ==> sep !in parts[k]
    decreases |s|
  {
    if |s| == 0 then [""]
    else
      var rest := Split(s[1..], sep);
      if s[0] == sep then [""] + rest
      else [[s[0]] + rest[0]] + rest[1..]
  }

  /** Concatenates `parts` with `sep` between neighbours. */
  function Join(parts: seq<string>, sep: char): string
  {
    if |parts| == 0 then ""
    else if |parts| == 1 then parts[0]
    else parts[0] + [sep] + Join(parts[1..], sep)
  }

  /** Joining the fields of a split gives the original text back. */
  lemma {:induction false} JoinSplit(s: string, sep: char)
    ensures Join(Split(s, sep), sep) == s
    decreases |s|
  {
    if |s| > 0 {
      JoinSplit(s[1..], sep);
      var rest := Split(s[1..], sep);
      if s[0] == sep {
        assert Split(s, sep) == [""] + rest;
        assert Join([""] + rest, sep) == "" + [sep] + Join(rest, sep);
      } else if |rest| == 1 {
        assert Split(s, sep) == [[s[0]] + rest[0]];
      } else {
        var parts := Split(s, sep);
        assert parts == [[s[0]] + rest[0]] + rest[1..];
        assert parts[1..] == rest[1..];
        assert Join(rest, sep) == rest[0] + [sep] + Join(rest[1..], sep);
        assert s == [s[0]] + s[1..];
      }
    }
  }

  /** Splitting a field free of `sep` followed by `sep` and more text yields
      that field first. */
  lemma {:induction false} SplitField(a: string, sep: char, t: string)
    requires sep !in a
    ensures Split(a + [sep] + t, sep) == [a] + Split(t, sep)
    decreases |a|
  {
    var s := a + [sep] + t;
    if |a| == 0 {
      assert s == [sep] + t;
      assert s[1..] == t;
    } else {
      assert s[1..] == a[1..] + [sep] + t;
      SplitField(a[1..], sep, t);
      assert [a[0]] + a[1..] == a;
    }
  }

  /** A field free of `sep` splits into itself alone. */
  lemma {:induction false} SplitNoSep(a: string, sep: char)
    requires sep !in a
    ensures Split(a, sep) == [a]
    decreases |a|
  {
    if |a| > 0 {
      SplitNoSep(a[1..], sep);
      assert [a[0]] + a[1..] == a;
    }
  }

  /** A character other than the separator that no field contains does not
      occur in the joined text. */
  lemma {:induction false} JoinExcludes(parts: seq<string>, sep: char, c: char)
    requires c != sep
    requires forall k :: 0 <= k < |parts| ==> c !in parts[k]
    ensures c !in Join(parts, sep)
    decreases |parts|
  {
    if |parts| > 1 {
      JoinExcludes(parts[1..], sep, c);
      assert Join(parts, sep) == parts[0] + [sep] + Join(parts[1..], sep);
    }
  }

  /** Splitting re-joined fields recovers them, so split-then-join and
      join-then-split are inverse on fields that do not contain `sep`. */
  lemma {:induction false} SplitJoin(parts: seq<string>, sep: char)
    requires |parts| >= 1
    requires forall k :: 0 <= k < |parts| ==> sep !in parts[k]
    ensures Split(Join(parts, sep), sep) == parts
    decreases |parts|
  {
    if |parts| == 1 {
      SplitNoSep(parts[0], sep);
    } else {
      SplitJoin(parts[1..], sep);
      SplitField(parts[0], sep, Join(parts[1..], sep));
      assert [parts[0]] + parts[1..] == parts;
    }
  }

  // ---------------------------------------------------------------------------
  // Substring search (strings.Contains)
  // ---------------------------------------------------------------------------

  /** `sub` occurs in `s` starting at index `i`. */
  predicate OccursAt(s: string, sub: string, i: int)
  {
    0 <= i && i + |sub| <= |s| && s[i..i + |sub|] == sub
  }

  /** strings.Contains: `sub` occurs somewhere in `s`. */
  function Contains(s: string, sub: string): (b: bool)
    ensures b <==> exists i :: OccursAt(s, sub, i)
    decreases |s|
  {
    if |sub| > |s| then false
    else if s[..|sub|] == sub then
      assert OccursAt(s, sub, 0);
      true
    else if |s| == 0 then false
    else
      var b := Contains(s[1..], sub);
      assert forall i :: OccursAt(s[1..], sub, i) ==> OccursAt(s, sub, i + 1);
      assert forall i :: OccursAt(s, sub, i) && i > 0 ==> OccursAt(s[1..], sub, i - 1);
      b
  }

  /** A text contains each piece it was concatenated from. */
  lemma ContainsPiece(pre: string, sub: string, post: string)
    ensures Contains(pre + sub + post, sub)
  {
    var s := pre + sub + post;
    assert s[|pre|..|pre| + |sub|] == sub;
    assert OccursAt(s, sub, |pre|);
  }

  /** A text contains whatever a piece of it contains. */
  lemma ContainsWithin(pre: string, mid: string, post: string, sub: string)
    requires Contains(mid, sub)
    ensures Contains(pre + mid + post, sub)
  {
    var i :| OccursAt(mid, sub, i);
    var s := pre + mid + post;
    assert s[|pre| + i..|pre| + i + |sub|] == mid[i..i + |sub|];
    assert OccursAt(s, sub, |pre| + i);
  }

  /** A text contains whatever every piece of a piece of it contains. */
  lemma ContainsAllWithin(pre: string, mid: string, post: string, subs: seq<string>)
    requires forall k :: 0 <= k < |subs| ==> Contains(mid, subs[k])
    ensures forall k :: 0 <= k < |subs| ==> Contains(pre + mid + post, subs[k])
  {
    forall k | 0 <= k < |subs|
      ensures Contains(pre + mid + post, subs[k])
    {
      ContainsWithin(pre, mid, post, subs[k]);
    }
  }

  /** Joined fields contain each field. */
  lemma {:induction false} JoinContains(parts: seq<string>, sep: char)
    ensures forall k :: 0 <= k < |parts| ==> Contains(Join(parts, sep), parts[k])
    decreases |parts|
  {
    if |parts| == 1 {
      ContainsPiece("", parts[0], "");
      assert "" + parts[0] + "" == parts[0];
    } else if |parts| > 1 {
      var rest := Join(parts[1..], sep);
      JoinContains(parts[1..], sep);
      assert Join(parts, sep) == parts[0] + [sep] + rest;
      ContainsPiece("", parts[0], [sep] + rest);
      assert "" + parts[0] + ([sep] + rest) == Join(parts, sep);
      forall k | 1 <= k < |parts|
        ensures Contains(Join(parts, sep), parts[k])
      {
        assert parts[1..][k - 1] == parts[k];
        ContainsWithin(parts[0] + [sep], rest, "", parts[k]);
        assert parts[0] + [sep] + rest + "" == Join(parts, sep);
      }
    }
  }

  // ---------------------------------------------------------------------------
  // Integer parsing and decimal rendering (strconv.ParseInt, fmt.Sprint)
  // ---------------------------------------------------------------------------

  const MinInt64: int := -0x8000_0000_0000_0000
  const MaxInt64: int := 0x7FFF_FFFF_FFFF_FFFF

  /** Value of an ASCII digit or letter as strconv reads it ('a'/'A' = 10 ...
      'z'/'Z' = 35), or -1 for any other character. */
  function DigitValue(c: char): int
  {
    if '0' <= c <= '9' then c as int - '0' as int
    else if 'a' <= c <= 'z' then c as int - 'a' as int + 10
    else if 'A' <= c <= 'Z' then c as int - 'A' as int + 10
    else -1
  }

  predicate IsDigit(c: char, base: nat)
  {
    0 <= DigitValue(c) < base
  }

  predicate AllDigits(ds: string, base: nat)
  {
    forall k :: 0 <= k < |ds| ==> IsDigit(ds[k], base)
  }

  /** Positional value of a digit string, most significant digit first. */
  function DigitsValue(ds: string, base: nat): nat
    requires AllDigits(ds, base)
  {
    if |ds| == 0 then 0
    else DigitsValue(ds[..|ds| - 1], base) * base + DigitValue(ds[|ds| - 1]) as nat
  }

  /** A value written with n digits in base b is below b^n. */
  function Power(b: nat, n: nat): nat
  {
    if n == 0 then 1 else Power(b, n - 1) * b
  }

  lemma {:induction false} DigitsValueBound(ds: string, base: nat)
    requires AllDigits(ds, base)
    ensures DigitsValue(ds, base) < Power(base, |ds|)
    decreases |ds|
  {
    if |ds| > 0 {
      var init := ds[..|ds| - 1];
      assert AllDigits(init, base);
      DigitsValueBound(init, base);
      var d := DigitValue(ds[|ds| - 1]);
      assert 0 <= d < base;
      NextDigitBound(DigitsValue(init, base), Power(base, |init|), base, d);
    }
  }

  /** Appending a digit below the base to a value below p stays below p * base. */
  lemma NextDigitBound(x: nat, p: nat, base: nat, d: nat)
    requires x < p && d < base
    ensures x * base + d < p * base
  {
    MulMonotone(x + 1, p, base);
    assert (x + 1) * base == x * base + base;
  }

  lemma MulMonotone(a: nat, b: nat, c: nat)
    requires a <= b
    ensures a * c <= b * c
  {
    assert b * c == a * c + (b - a) * c;
  }

  /** strconv.ParseInt(s, base, 64) for base 10 or 16: an optional sign, one or
      more digits of the base, and a value within the signed 64-bit range;
      None stands for the error strconv returns otherwise. */
  function ParseInt(s: string, base: nat): (r: Option<int>)
    requires base == 10 || base == 16
    ensures r.Some? ==> MinInt64 <= r.value <= MaxInt64
  {
    if |s| == 0 then None
    else
      var negative := s[0] == '-';
      var ds := if s[0] == '-' || s[0] == '+' then s[1..] else s;
      if |ds| == 0 || !AllDigits(ds, base) then None
      else
        var v: int := DigitsValue(ds, base);
        if negative then (if v <= -MinInt64 then Some(-v) else None)
        else (if v <= MaxInt64 then Some(v) else None)
  }

  function DigitChar(d: nat): (c: char)
    requires d < 10
    ensures DigitValue(c) == d
  {
    ('0' as int + d) as char
  }

  /** Decimal rendering of a natural number, without leading zeros. */
  function NatToString(n: nat): (s: string)
    ensures |s| >= 1 && AllDigits(s, 10)
  {
    (if n < 10 then "" else NatToString(n / 10)) + [DigitChar(n % 10)]
  }

  /** fmt.Sprint of an int: a minus sign for negative values, then the digits. */
  function IntToString(n: int): string
  {
    if n < 0 then "-" + NatToString(-n) else NatToString(n)
  }

  lemma {:induction false} NatToStringValue(n: nat)
    ensures DigitsValue(NatToString(n), 10) == n
  {
    var d := n % 10;
    var c := DigitChar(d);
    if n < 10 {
      assert NatToString(n) == [c];
      assert [c][..0] == "";
    } else {
      var q := n / 10;
      NatToStringValue(q);
      var init := NatToString(q);
      var s := init + [c];
      assert NatToString(n) == s;
      assert s[..|s| - 1] == init;
      assert DigitsValue(s, 10) == DigitsValue(init, 10) * 10 + d;
      assert n == q * 10 + d;
    }
  }

  /** ParseInt on an unsigned digit string. */
  lemma ParseIntUnsigned(ds: string, base: nat)
    requires base == 10 || base == 16
    requires |ds| > 0 && AllDigits(ds, base)
    ensures ParseInt(ds, base) == if DigitsValue(ds, base) <= MaxInt64 then Some(DigitsValue(ds, base)) else None
  {
    assert IsDigit(ds[0], base);
  }

  /** ParseInt on a minus sign followed by a digit string. */
  lemma ParseIntNegative(ds: string, base: nat)
    requires base == 10 || base == 16
    requires |ds| > 0 && AllDigits(ds, base)
    ensures ParseInt("-" + ds, base) == if DigitsValue(ds, base) <= -MinInt64 then Some(-(DigitsValue(ds, base) as int)) else None
  {
    assert ("-" + ds)[1..] == ds;
  }

  /** The shape strconv.ParseInt reads: a sign ("", "+" or "-") followed by one
      or more digits of the base. */
  predicate SignedDigits(s: string, sign: string, ds: string, base: nat)
  {
    (sign == "" || sign == "+" || sign == "-") && s == sign + ds && |ds| > 0 && AllDigits(ds, base)
  }

  /** The integer a sign and a digit string denote. */
  function SignedValue(sign: string, ds: string, base: nat): int
    requires AllDigits(ds, base)
  {
    if sign == "-" then -(DigitsValue(ds, base) as int) else DigitsValue(ds, base)
  }

  /** The text is a signed digit string of the base whose value fits in 64 bits. */
  ghost predicate Int64Text(s: string, base: nat)
  {
    exists sign, ds :: SignedDigits(s, sign, ds, base) && MinInt64 <= SignedValue(sign, ds, base) <= MaxInt64
  }

  /** ParseInt is strict: a signed digit string gives its value when that value
      fits in 64 bits and an error otherwise, and any other text is an error. */
  lemma ParseIntStrict(s: string, base: nat)
    requires base == 10 || base == 16
    ensures forall sign, ds :: SignedDigits(s, sign, ds, base) ==>
              ParseInt(s, base) == if MinInt64 <= SignedValue(sign, ds, base) <= MaxInt64
                                   then Some(SignedValue(sign, ds, base)) else None
    ensures ParseInt(s, base).Some? <==> Int64Text(s, base)
  {
    forall sign, ds | SignedDigits(s, sign, ds, base)
      ensures ParseInt(s, base) == if MinInt64 <= SignedValue(sign, ds, base) <= MaxInt64
                                   then Some(SignedValue(sign, ds, base)) else None
    {
      ParseIntOfSigned(s, sign, ds, base);
    }
    if ParseInt(s, base).Some? {
      ParseIntShape(s, base);
    }
  }

  /** ParseInt reads a signed digit string as its sign and its digits. */
  lemma ParseIntOfSigned(s: string, sign: string, ds: string, base: nat)
    requires base == 10 || base == 16
    requires SignedDigits(s, sign, ds, base)
    ensures ParseInt(s, base) == if MinInt64 <= SignedValue(sign, ds, base) <= MaxInt64
                                 then Some(SignedValue(sign, ds, base)) else None
  {
    assert IsDigit(ds[0], base);
    if sign == "" {
      assert s == ds;
    } else {
      assert s[0] == sign[0];
      assert s[1..] == ds;
    }
  }

  /** Whatever ParseInt accepts is a signed digit string of the base. */
  lemma ParseIntShape(s: string, base: nat)
    requires base == 10 || base == 16
    requires ParseInt(s, base).Some?
    ensures exists sign, ds :: SignedDigits(s, sign, ds, base) && ParseInt(s, base) == Some(SignedValue(sign, ds, base))
  {
    var signed := s[0] == '-' || s[0] == '+';
    var sign := if signed then s[..1] else "";
    var ds := if signed then s[1..] else s;
    assert s == sign + ds;
    assert SignedDigits(s, sign, ds, base);
  }

  /** Go's strconv.ParseInt on a few texts: a stray letter is an error, a plus
      sign is accepted, and base 16 reads lower-case digits. */
  lemma ParseIntExamples()
    ensures ParseInt("12a", 10) == None
    ensures ParseInt("+5", 10) == Some(5)
    ensures ParseInt("1f90", 16) == Some(8080)
  {
    assert !IsDigit("12a"[2], 10);
    assert "+5"[1..] == "5";
    assert DigitsValue("5", 10) == 5;
    var hex := "1f90";
    assert hex[..3] == "1f9" && "1f9"[..2] == "1f" && "1f"[..1] == "1" && "1"[..0] == "";
    assert DigitsValue("1", 16) == 1;
    assert DigitsValue("1f", 16) == 31;
    assert DigitsValue("1f9", 16) == 505;
    assert DigitsValue(hex, 16) == 8080;
    ParseIntUnsigned(hex, 16);
  }

  /** Parsing the decimal rendering of a 64-bit integer gives it back. */
  lemma ParseIntToString(n: int)
    requires MinInt64 <= n <= MaxInt64
    ensures ParseInt(IntToString(n), 10) == Some(n)
  {
    if n < 0 {
      var m: nat := -n;
      var ds := NatToString(m);
      NatToStringValue(m);
      ParseIntNegative(ds, 10);
      assert IntToString(n) == "-" + ds;
    } else {
      var ds := NatToString(n);
      NatToStringValue(n);
      ParseIntUnsigned(ds, 10);
      assert IntToString(n) == ds;
    }
  }

  /** Decimal renderings are distinct for distinct integers. */
  lemma IntToStringInjective(m: int, n: int)
    requires MinInt64 <= m <= MaxInt64 && MinInt64 <= n <= MaxInt64
    requires IntToString(m) == IntToString(n)
    ensures m == n
  {
    ParseIntToString(m);
    ParseIntToString(n);
  }
}
