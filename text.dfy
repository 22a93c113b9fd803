/**
 * The few pieces of Kotlin's standard string and list library the app's logic relies on:
 * `split(" - ")`, `filter`, and the decimal rendering of an `Int` inside a string template.
 */
module Text {
  import opened Wrappers

  /** The field separator the app writes into its device labels and splits them on. */
  const Sep: string := " - "

  /** `s` has an occurrence of the separator starting at index `i`. */
  predicate SepAt(s: string, i: nat)
  {
    i + |Sep| <= |s| && s[i..i + |Sep|] == Sep
  }

  /** Kotlin's `s.indexOf(" - ", from)`: the first occurrence at or after `from`. */
  function IndexOfSep(s: string, from: nat): (r: Option<nat>)
    requires from <= |s|
    ensures r.Some? ==> from <= r.value && SepAt(s, r.value)
    ensures r.Some? ==> forall j :: from <= j < r.value ==> !SepAt(s, j)
    ensures r.None? ==> forall j :: from <= j <= |s| ==> !SepAt(s, j)
    decreases |s| - from
  {
    if from + |Sep| > |s| then None
    else if SepAt(s, from) then Some(from)
    else IndexOfSep(s, from + 1)
  }

  /**
   * Kotlin's `s.split(" - ")`: the pieces between non-overlapping occurrences of the separator,
   * scanning from the left; a string without a separator gives one field.
   */
  function Split(s: string): (fields: seq<string>)
    ensures |fields| >= 1
    decreases |s|
  {
    match IndexOfSep(s, 0)
    case None => [s]
    case Some(i) => [s[..i]] + Split(s[i + |Sep|..])
  }

  /** The inverse of `Split`: the fields put back together with the separator between them. */
  function Join(fields: seq<string>): string
    requires |fields| >= 1
  {
    if |fields| == 1 then fields[0] else fields[0] + Sep + Join(fields[1..])
  }

  /** No occurrence of the separator inside `s`. */
  predicate NoSep(s: string)
  {
    forall j :: 0 <= j <= |s| ==> !SepAt(s, j)
  }

  /** Splitting loses nothing: joining the fields again gives back the string. */
  lemma {:induction false} JoinSplit(s: string)
    ensures Join(Split(s)) == s
    decreases |s|
  {
    match IndexOfSep(s, 0)
    case None =>
    case Some(i) =>
      var rest := s[i + |Sep|..];
      JoinSplit(rest);
      assert Split(s) == [s[..i]] + Split(rest);
      assert Split(s)[1..] == Split(rest);
      assert s == s[..i] + Sep + rest by {
        assert s[i..i + |Sep|] == Sep;
      }
  }

  /** Every field produced by `Split` is free of the separator. */
  lemma {:induction false} SplitFieldsHaveNoSep(s: string)
    ensures forall k :: 0 <= k < |Split(s)| ==> NoSep(Split(s)[k])
    decreases |s|
  {
    match IndexOfSep(s, 0)
    case None =>
    case Some(i) =>
      var rest := s[i + |Sep|..];
      SplitFieldsHaveNoSep(rest);
      forall j | 0 <= j <= i ensures !SepAt(s[..i], j) {
        if SepAt(s[..i], j) {
          assert s[..i][j..j + |Sep|] == s[j..j + |Sep|];
          assert SepAt(s, j);
        }
      }
      assert Split(s) == [s[..i]] + Split(rest);
  }

  /** The first field of `s`: the text before the first separator, or all of `s`. */
  function FirstField(s: string): string
  {
    Split(s)[0]
  }

  /** `a` followed by the separator has no occurrence of the separator starting inside `a`. */
  predicate Clean(a: string)
  {
    forall j :: 0 <= j < |a| ==> !SepAt(a + Sep, j)
  }

  /**
   * When no separator starts inside `a`, the separator written after `a` is the first one,
   * so `a` comes back as the first field and the rest is split on its own.
   */
  lemma SplitAfterClean(a: string, rest: string)
    requires Clean(a)
    ensures Split(a + Sep + rest) == [a] + Split(rest)
  {
    var s := a + Sep + rest;
    forall j | 0 <= j < |a| ensures !SepAt(s, j) {
      assert !SepAt(a + Sep, j);
      assert (a + Sep)[j..j + |Sep|] == s[j..j + |Sep|];
    }
    assert SepAt(s, |a|) by {
      assert s[|a|..|a| + |Sep|] == Sep;
    }
    IndexOfSepFirst(s, 0, |a|);
    assert s[|a| + |Sep|..] == rest;
    assert s[..|a|] == a;
  }

  /** An occurrence at `i` with none between `from` and `i` is what `IndexOfSep` finds. */
  lemma IndexOfSepFirst(s: string, from: nat, i: nat)
    requires from <= i && SepAt(s, i)
    requires forall j :: from <= j < i ==> !SepAt(s, j)
    ensures IndexOfSep(s, from) == Some(i)
  {
  }

  /** A string with a single field is the string without any separator, and that field is the string. */
  lemma SingleFieldIff(s: string)
    ensures |Split(s)| == 1 <==> NoSep(s)
    ensures |Split(s)| == 1 ==> FirstField(s) == s
  {
  }

  /** Kotlin's `filter`: the elements satisfying `p`, in their original order. */
  function Filter<T>(s: seq<T>, p: T -> bool): (r: seq<T>)
    ensures |r| <= |s|
    ensures forall k :: 0 <= k < |r| ==> r[k] in s && p(r[k])
    ensures forall k :: 0 <= k < |s| && p(s[k]) ==> s[k] in r
  {
    if s == [] then []
    else (if p(s[0]) then [s[0]] else []) + Filter(s[1..], p)
  }

  /** Filtering a concatenation filters each part and keeps them in order. */
  lemma {:induction false} FilterAppend<T>(a: seq<T>, b: seq<T>, p: T -> bool)
    ensures Filter(a + b, p) == Filter(a, p) + Filter(b, p)
  {
    if a == [] {
      assert a + b == b;
    } else {
      assert (a + b)[0] == a[0];
      assert (a + b)[1..] == a[1..] + b;
      FilterAppend(a[1..], b, p);
    }
  }

  /** The decimal digit for `d`. */
  function DigitChar(d: nat): (c: char)
    requires d < 10
    ensures '0' <= c <= '9'
    ensures c as int - '0' as int == d
  {
    "0123456789"[d]
  }

  /** The number a string of decimal digits denotes, most significant digit first. */
  function DigitsValue(s: string): int
  {
    if s == [] then 0 else DigitsValue(s[..|s| - 1]) * 10 + (s[|s| - 1] as int - '0' as int)
  }

  /** The number a decimal rendering denotes: a leading `-` negates the digits after it. */
  function DecimalValue(s: string): int
  {
    if |s| > 0 && s[0] == '-' then -DigitsValue(s[1..]) else DigitsValue(s)
  }

  /** The decimal digits of `n`, most significant first, without leading zeros. */
  function Digits(n: nat): (r: string)
    ensures |r| >= 1
    ensures forall k :: 0 <= k < |r| ==> '0' <= r[k] <= '9'
    ensures DigitsValue(r) == n
  {
    if n < 10 then [DigitChar(n)]
    else
      var r := Digits(n / 10) + [DigitChar(n % 10)];
      assert r[..|r| - 1] == Digits(n / 10);
      r
  }

  /**
   * Kotlin's rendering of an `Int` in a string template: a leading `-` for negative values, then
   * digits only; reading the rendering back gives the number.
   */
  function IntToDecimal(n: int): (r: string)
    ensures |r| >= 1
    ensures r[0] == '-' <==> n < 0
    ensures forall k :: 0 < k < |r| ==> '0' <= r[k] <= '9'
    ensures n < 0 ==> |r| >= 2
    ensures DecimalValue(r) == n
  {
    if n < 0 then
      var r := "-" + Digits(-n);
      assert r[1..] == Digits(-n);
      r
    else Digits(n)
  }

  /** Distinct numbers render differently. */
  lemma IntToDecimalInjective(m: int, n: int)
    requires IntToDecimal(m) == IntToDecimal(n)
    ensures m == n
  {
  }

  /** A separator at `j` is a space, a hyphen and a space. */
  lemma SepAtChars(s: string, j: nat)
    requires j + |Sep| <= |s|
    ensures SepAt(s, j) <==> s[j] == ' ' && s[j + 1] == '-' && s[j + 2] == ' '
  {
    assert s[j..j + |Sep|][0] == s[j] && s[j..j + |Sep|][1] == s[j + 1] && s[j..j + |Sep|][2] == s[j + 2];
  }

  /** The `RSSI: <rssi> dBm` tail of a BLE label holds no separator: its spaces are followed by a digit, a sign or `d`. */
  lemma RssiTextNoSep(n: int)
    ensures NoSep("RSSI: " + IntToDecimal(n) + " dBm")
  {
    var d := IntToDecimal(n);
    var s := "RSSI: " + d + " dBm";
    assert forall k :: 0 <= k < |d| ==> s[6 + k] == d[k];
    assert s[5] == ' ' && s[|s| - 3] == 'd';
    forall j | 0 <= j <= |s| ensures !SepAt(s, j) {
      if j + |Sep| <= |s| {
        SepAtChars(s, j);
        if j == 5 {
          assert s[6] != '-' || s[7] != ' ';
        } else if j == |s| - 4 {
          assert s[j + 1] == 'd';
        } else {
          assert s[j] != ' ';
        }
      }
    }
  }
}
