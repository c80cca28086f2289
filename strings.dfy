/**
 * The operations of Rust's `str` that the core relies on, on `string`
 * (a sequence of characters): `find`, `contains`, ASCII `to_lowercase`,
 * the lexicographic order of `Ord for str`, `lines` and the decimal
 * rendering of `i64::to_string`.
 */
module Strings {
  import opened Wrappers

  /** `needle` occurs in `hay` starting at index `i`. */
  predicate OccursAt(hay: string, needle: string, i: nat) {
    i + |needle| <= |hay| && hay[i..i + |needle|] == needle
  }

  /** The first occurrence of `needle` in `hay` at or after `from`. */
  function FindFrom(hay: string, needle: string, from: nat): (r: Option<nat>)
    requires from <= |hay|
    ensures r.Some? ==> from <= r.value && OccursAt(hay, needle, r.value)
    ensures r.Some? ==> forall j :: from <= j < r.value ==> !OccursAt(hay, needle, j)
    ensures r.None? ==> forall j: nat :: from <= j ==> !OccursAt(hay, needle, j)
    decreases |hay| - from
  {
    if OccursAt(hay, needle, from) then Some(from)
    else if from == |hay| then None
    else FindFrom(hay, needle, from + 1)
  }

  /** `str::find`: the index of the first occurrence of `needle`, if any. */
  function Find(hay: string, needle: string): (r: Option<nat>)
    ensures r.Some? ==> OccursAt(hay, needle, r.value)
    ensures r.Some? ==> forall j :: 0 <= j < r.value ==> !OccursAt(hay, needle, j)
    ensures r.None? <==> forall j: nat :: !OccursAt(hay, needle, j)
  {
    FindFrom(hay, needle, 0)
  }

  /** `str::contains`. */
  predicate Contains(hay: string, needle: string) {
    Find(hay, needle).Some?
  }

  lemma ContainsIff(hay: string, needle: string)
    ensures Contains(hay, needle) <==> exists i: nat :: OccursAt(hay, needle, i)
  {
    if Contains(hay, needle) {
      assert OccursAt(hay, needle, Find(hay, needle).value);
    }
  }

  /** Every string contains the empty string, at index 0. */
  lemma FindEmpty(hay: string)
    ensures Find(hay, "") == Some(0)
  {
    assert OccursAt(hay, "", 0);
  }

  // ---------------------------------------------------------------------
  // ASCII case folding

  function ToLowerChar(c: char): char {
    if 'A' <= c <= 'Z' then (c as int + 32) as char else c
  }

  /** `to_lowercase`, restricted to ASCII letters. */
  function ToLower(s: string): (r: string)
    ensures |r| == |s|
    ensures forall i :: 0 <= i < |s| ==> r[i] == ToLowerChar(s[i])
  {
    seq(|s|, i requires 0 <= i < |s| => ToLowerChar(s[i]))
  }

  /** Lower-casing leaves no ASCII capital behind, so doing it twice changes nothing. */
  lemma ToLowerIdempotent(s: string)
    ensures forall i :: 0 <= i < |s| ==> !('A' <= ToLower(s)[i] <= 'Z')
    ensures ToLower(ToLower(s)) == ToLower(s)
  {
  }

  // ---------------------------------------------------------------------
  // `Ord for str`: lexicographic order on characters. Comparing code points
  // is the same as comparing the UTF-8 bytes Rust compares.

  predicate LexLessEq(a: string, b: string)
    decreases |a|
  {
    if a == [] then true
    else if b == [] then false
    else if a[0] != b[0] then a[0] < b[0]
    else LexLessEq(a[1..], b[1..])
  }

  lemma {:induction false} LexReflexive(a: string)
    ensures LexLessEq(a, a)
  {
    if a != [] { LexReflexive(a[1..]); }
  }

  lemma {:induction false} LexTotal(a: string, b: string)
    ensures LexLessEq(a, b) || LexLessEq(b, a)
    decreases |a|
  {
    if a != [] && b != [] && a[0] == b[0] { LexTotal(a[1..], b[1..]); }
  }

  lemma {:induction false} LexAntisymmetric(a: string, b: string)
    requires LexLessEq(a, b) && LexLessEq(b, a)
    ensures a == b
    decreases |a|
  {
    if a != [] && b != [] {
      LexAntisymmetric(a[1..], b[1..]);
      assert a == [a[0]] + a[1..] && b == [b[0]] + b[1..];
    }
  }

  lemma {:induction false} LexTransitive(a: string, b: string, c: string)
    requires LexLessEq(a, b) && LexLessEq(b, c)
    ensures LexLessEq(a, c)
    decreases |a|
  {
    if a != [] && b != [] && c != [] && a[0] == b[0] && b[0] == c[0] {
      LexTransitive(a[1..], b[1..], c[1..]);
    }
  }

  // ---------------------------------------------------------------------
  // `str::lines`

  /** A line taken off before a `'\n'` loses a trailing `'\r'` too. */
  function StripCarriageReturn(line: string): (r: string)
    ensures r == line || (line == r + ['\r'])
  {
    if line != [] && line[|line| - 1] == '\r' then line[..|line| - 1] else line
  }

  /**
   * `str::lines`: the text split at each `'\n'`; a line that ended at a
   * `'\n'` drops a trailing `'\r'`, and a final `'\n'` does not start an
   * empty last line.
   */
  function Lines(text: string): (r: seq<string>)
    ensures forall k :: 0 <= k < |r| ==> '\n' !in r[k]
    ensures text == [] <==> r == []
    decreases |text|
  {
    if text == [] then []
    else
      match Find(text, "\n")
      case None =>
        assert '\n' !in text by {
          forall i | 0 <= i < |text| ensures text[i] != '\n' {
            assert !OccursAt(text, "\n", i);
            assert text[i..i + 1] == [text[i]];
          }
        }
        [text]
      case Some(end) =>
        assert '\n' !in text[..end] by {
          forall i | 0 <= i < end ensures text[i] != '\n' {
            assert !OccursAt(text, "\n", i);
            assert text[i..i + 1] == [text[i]];
          }
        }
        [StripCarriageReturn(text[..end])] + Lines(text[end + 1..])
  }

  /** A text with no line break is one line, itself. */
  lemma LinesOfOneLine(line: string)
    requires line != [] && '\n' !in line
    ensures Lines(line) == [line]
  {
    forall j: nat ensures !OccursAt(line, "\n", j) {
      if j < |line| {
        assert line[j] != '\n';
        assert line[j..j + 1] == [line[j]];
      }
    }
  }

  /**
   * A line ended by `'\n'` comes first, without a trailing `'\r'`, and the
   * lines of the rest of the text follow.
   */
  lemma LinesCons(line: string, rest: string)
    requires '\n' !in line
    ensures Lines(line + "\n" + rest) == [StripCarriageReturn(line)] + Lines(rest)
  {
    var text := line + "\n" + rest;
    forall j | 0 <= j < |line| ensures !OccursAt(text, "\n", j) {
      assert text[j] == line[j];
    }
    assert OccursAt(text, "\n", |line|);
    assert Find(text, "\n") == Some(|line|);
    assert text[..|line|] == line;
    assert text[|line| + 1..] == rest;
  }

  /** Text that ends at a line break splits into its own lines and then those of what follows. */
  lemma {:induction false} LinesAppend(pre: string, rest: string)
    requires pre == [] || pre[|pre| - 1] == '\n'
    ensures Lines(pre + rest) == Lines(pre) + Lines(rest)
    decreases |pre|
  {
    if pre == [] {
      assert pre + rest == rest;
    } else {
      var line, tail := FirstBreak(pre);
      assert pre + rest == line + "\n" + (tail + rest);
      LinesCons(line, tail);
      LinesCons(line, tail + rest);
      LinesAppend(tail, rest);
    }
  }

  /** The lines of `pre`, then `line` (without a trailing `'\r'`), then the lines of `rest`. */
  lemma LinesAround(pre: string, line: string, rest: string)
    requires pre == [] || pre[|pre| - 1] == '\n'
    requires '\n' !in line
    ensures Lines(pre + line + "\n" + rest) == Lines(pre) + [StripCarriageReturn(line)] + Lines(rest)
  {
    assert pre + line + "\n" + rest == pre + (line + "\n" + rest);
    LinesAppend(pre, line + "\n" + rest);
    LinesCons(line, rest);
  }

  /** A text ending at a line break: its first line, and the text after that line's break. */
  lemma FirstBreak(pre: string) returns (line: string, tail: string)
    requires pre != [] && pre[|pre| - 1] == '\n'
    ensures pre == line + "\n" + tail && '\n' !in line
    ensures tail == [] || tail[|tail| - 1] == '\n'
  {
    assert OccursAt(pre, "\n", |pre| - 1);
    var end := Find(pre, "\n").value;
    line, tail := pre[..end], pre[end + 1..];
    forall i | 0 <= i < end ensures line[i] != '\n' {
      assert !OccursAt(pre, "\n", i);
      assert pre[i..i + 1] == [pre[i]];
    }
    assert pre == line + "\n" + tail;
  }

  // ---------------------------------------------------------------------
  // Decimal rendering (`i64::to_string`, `usize` in `format!`)

  predicate IsDigit(c: char) { '0' <= c <= '9' }

  function DigitChar(d: nat): char
    requires d < 10
  {
    ('0' as int + d) as char
  }

  /** The number a string of decimal digits denotes. */
  function DigitsValue(s: string): nat
    requires forall i :: 0 <= i < |s| ==> IsDigit(s[i])
  {
    if s == [] then 0
    else
      assert IsDigit(s[|s| - 1]);
      DigitsValue(s[..|s| - 1]) * 10 + (s[|s| - 1] as int - '0' as int)
  }

  /** The shortest decimal digits of `n`: no leading zero except for 0 itself. */
  function NatToDecimal(n: nat): (r: string)
    ensures r != []
    ensures forall i :: 0 <= i < |r| ==> IsDigit(r[i])
    ensures DigitsValue(r) == n
    ensures r[0] == '0' ==> n == 0 && r == "0"
  {
    if n < 10 then [DigitChar(n)]
    else
      var prefix := NatToDecimal(n / 10);
      var r := prefix + [DigitChar(n % 10)];
      assert r[..|r| - 1] == prefix;
      r
  }

  /** `to_string` of a signed integer: a `'-'` before the digits of a negative one. */
  function IntToDecimal(n: int): (r: string)
    ensures r != []
    ensures forall i :: 1 <= i < |r| ==> IsDigit(r[i])
    ensures n >= 0 ==> IsDigit(r[0]) && DigitsValue(r) == n
    ensures n < 0 ==> r[0] == '-' && r[1..] != [] && DigitsValue(r[1..]) == -n
    ensures r[0] == '0' ==> r == "0"
    ensures n < 0 ==> r[1] != '0'
  {
    if n < 0 then "-" + NatToDecimal(-n) else NatToDecimal(n)
  }
}
