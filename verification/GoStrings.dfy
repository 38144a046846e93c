/**
 Go's string operations, on code points: ToLower and EqualFold where one side is an ASCII
 constant, TrimSuffix, LastIndex, Contains, and strconv's Itoa and Atoi in base 10.

 The case mappings are exact for comparisons with ASCII constants. Outside A-Z, the only code
 points that ToLower sends to an ASCII letter are the Kelvin sign (to 'k') and the dotted
 capital I (to 'i'), and the only ones that EqualFold identifies with an ASCII letter are the
 Kelvin sign (with 'k') and the long s (with 's'). So the two notions differ on the letters
 'i' and 's', and the platform's header names contain both.
 */
module GoStrings {
  import opened Base

  const KELVIN: char := '\U{212A}'
  const DOTTED_I: char := '\U{130}'
  const LONG_S: char := '\U{17F}'

  function LowerChar(c: char): char {
    if 'A' <= c <= 'Z' then (c as int + 32) as char
    else if c == KELVIN then 'k'
    else if c == DOTTED_I then 'i'
    else c
  }

  /** The representative of a code point's case-folding class. */
  function FoldChar(c: char): char {
    if 'A' <= c <= 'Z' then (c as int + 32) as char
    else if c == KELVIN then 'k'
    else if c == LONG_S then 's'
    else c
  }

  function ToLower(s: string): (r: string)
    ensures |r| == |s|
    ensures forall i :: 0 <= i < |s| ==> r[i] == LowerChar(s[i])
  {
    seq(|s|, i requires 0 <= i < |s| => LowerChar(s[i]))
  }

  predicate EqualFold(s: string, t: string) {
    |s| == |t| && forall i :: 0 <= i < |s| ==> FoldChar(s[i]) == FoldChar(t[i])
  }

  /** Lower-case ASCII letters and hyphens other than 'i' and 's'. */
  predicate Unambiguous(s: string) {
    forall i :: 0 <= i < |s| ==> ('a' <= s[i] <= 'z' || s[i] == '-') && s[i] != 'i' && s[i] != 's'
  }

  /** Without an 's' in the name, every key that folds to it lower-cases to it. */
  lemma FoldIsLower(key: string, name: string)
    requires forall i :: 0 <= i < |name| ==> ('a' <= name[i] <= 'z' || name[i] == '-') && name[i] != 's'
    requires EqualFold(key, name)
    ensures ToLower(key) == name
  {
    forall i | 0 <= i < |key| ensures ToLower(key)[i] == name[i] {
      assert FoldChar(key[i]) == FoldChar(name[i]) == name[i];
    }
  }

  /** On such a name, comparing lower-cased and comparing folded agree for every key. */
  lemma LowerIsFold(key: string, name: string)
    requires Unambiguous(name)
    ensures ToLower(key) == name <==> EqualFold(key, name)
  {
    if EqualFold(key, name) {
      assert forall i :: 0 <= i < |key| ==> ToLower(key)[i] == name[i];
    }
    if ToLower(key) == name {
      forall i | 0 <= i < |key| ensures FoldChar(key[i]) == FoldChar(name[i]) {
        assert ToLower(key)[i] == name[i];
      }
    }
  }

  /** A suffix that is removed when present, as strings.TrimSuffix does. */
  predicate HasSuffix(s: string, suffix: string) {
    |suffix| <= |s| && s[|s| - |suffix|..] == suffix
  }

  function TrimSuffix(s: string, suffix: string): (r: string)
    ensures HasSuffix(s, suffix) ==> r + suffix == s
    ensures !HasSuffix(s, suffix) ==> r == s
  {
    if HasSuffix(s, suffix) then s[..|s| - |suffix|] else s
  }

  lemma TrimAppended(s: string, suffix: string)
    ensures HasSuffix(s + suffix, suffix)
    ensures TrimSuffix(s + suffix, suffix) == s
  {
    assert (s + suffix)[|s|..] == suffix;
    assert (s + suffix)[..|s|] == s;
  }

  /** The index just past the last '/', or None, as strings.LastIndex finds it. */
  function AfterLastSlash(s: string): (r: Option<nat>)
    ensures r.None? ==> '/' !in s
    ensures r.Some? ==> 0 < r.value <= |s| && s[r.value - 1] == '/' && '/' !in s[r.value..]
  {
    if s == [] then None
    else if s[|s| - 1] == '/' then Some(|s|)
    else
      var r := AfterLastSlash(s[..|s| - 1]);
      match r {
        case None => assert s == s[..|s| - 1] + [s[|s| - 1]]; None
        case Some(k) => assert s[k..] == s[..|s| - 1][k..] + [s[|s| - 1]]; Some(k)
      }
  }

  lemma LastSlashUnique(prefix: string, name: string)
    requires prefix != [] && prefix[|prefix| - 1] == '/' && '/' !in name
    ensures AfterLastSlash(prefix + name) == Some(|prefix|)
  {
    var s := prefix + name;
    assert s[|prefix| - 1] == '/';
    assert s[|prefix|..] == name;
  }

  /** Some position of `s` starts a copy of `token`. */
  predicate Contains(s: string, token: string) {
    exists i :: 0 <= i <= |s| && OccursAt(s, token, i)
  }

  predicate OccursAt(s: string, token: string, i: int) {
    0 <= i && i + |token| <= |s| && s[i..i + |token|] == token
  }

  // ----- decimal numerals ---------------------------------------------------------------

  const MAX_INT64: int := 0x7fff_ffff_ffff_ffff
  const TWO_64: int := 0x1_0000_0000_0000_0000

  /** Two's-complement wrap-around to 64 bits. */
  function Wrap64(n: int): (r: int)
    ensures -MAX_INT64 - 1 <= r <= MAX_INT64
    ensures -MAX_INT64 - 1 <= n <= MAX_INT64 ==> r == n
  {
    (n + MAX_INT64 + 1) % TWO_64 - MAX_INT64 - 1
  }

  function Digit(d: nat): (c: char)
    requires d < 10
    ensures '0' <= c <= '9' && c as int - '0' as int == d
  {
    ('0' as int + d) as char
  }

  function Digits(n: nat): (s: string)
    ensures s != [] && forall i :: 0 <= i < |s| ==> '0' <= s[i] <= '9'
  {
    if n < 10 then [Digit(n)] else Digits(n / 10) + [Digit(n % 10)]
  }

  function Itoa(n: int): string {
    if n < 0 then "-" + Digits(-n) else Digits(n)
  }

  predicate AllDigits(s: string) {
    s != [] && forall i :: 0 <= i < |s| ==> '0' <= s[i] <= '9'
  }

  function Value(s: string): nat
    requires forall i :: 0 <= i < |s| ==> '0' <= s[i] <= '9'
  {
    if s == [] then 0
    else 10 * Value(s[..|s| - 1]) + (s[|s| - 1] as int - '0' as int)
  }

  /** strconv.Atoi: an optional sign, at least one digit, no overflow of int64. */
  function Atoi(s: string): (r: Option<int>)
    ensures r.Some? ==> -MAX_INT64 - 1 <= r.value <= MAX_INT64
  {
    var signed := s != [] && (s[0] == '-' || s[0] == '+');
    var digits := if signed then s[1..] else s;
    if !AllDigits(digits) then None
    else
      var n: int := if signed && s[0] == '-' then -(Value(digits) as int) else Value(digits);
      if -MAX_INT64 - 1 <= n <= MAX_INT64 then Some(n) else None
  }

  lemma {:induction false} ValueOfDigits(n: nat)
    ensures Value(Digits(n)) == n
  {
    var s := Digits(n);
    if n < 10 {
      assert Value(s[..0]) == 0;
    } else {
      assert s[..|s| - 1] == Digits(n / 10);
      ValueOfDigits(n / 10);
    }
  }

  /** Printing a non-negative int64 and parsing it again gives it back. */
  lemma AtoiOfItoa(n: nat)
    requires n <= MAX_INT64
    ensures Atoi(Itoa(n)) == Some(n)
  {
    ValueOfDigits(n);
    var s := Digits(n);
    assert '0' <= s[0] <= '9';
  }

  /** The power of ten. */
  function Tens(n: nat): (p: nat)
    ensures p >= 1
  {
    if n == 0 then 1 else 10 * Tens(n - 1)
  }

  predicate AreDigits(s: string) { forall i :: 0 <= i < |s| ==> 48 <= s[i] as int <= 57 }

  lemma ValueSnoc(s: string, c: char)
    requires AreDigits(s) && 48 <= c as int <= 57
    ensures AreDigits(s + [c]) && Value(s + [c]) == 10 * Value(s) + c as int - 48
  {
    assert (s + [c])[..|s|] == s;
  }

  lemma Regroup(x: int, t: int, y: int, d: int)
    ensures 10 * (x * t + y) + d == x * (10 * t) + (10 * y + d)
  {
  }

  lemma ConcatSnoc(a: string, rest: string, c: char)
    requires AreDigits(a) && AreDigits(rest) && 48 <= c as int <= 57 && AreDigits(a + rest)
    requires Value(a + rest) == Value(a) * Tens(|rest|) + Value(rest)
    ensures AreDigits(rest + [c]) && AreDigits(a + (rest + [c]))
    ensures Value(a + (rest + [c])) == Value(a) * Tens(|rest| + 1) + Value(rest + [c])
  {
    assert a + (rest + [c]) == a + rest + [c];
    ValueSnoc(rest, c);
    ValueSnoc(a + rest, c);
    Regroup(Value(a), Tens(|rest|), Value(rest), c as int - 48);
  }

  /** Numerals are positional, in base ten. */
  lemma {:induction false} ValueConcat(a: string, b: string)
    requires AreDigits(a) && AreDigits(b)
    ensures AreDigits(a + b) && Value(a + b) == Value(a) * Tens(|b|) + Value(b)
    decreases |b|
  {
    if b == [] {
      assert a + b == a;
    } else {
      var rest, c := b[..|b| - 1], b[|b| - 1];
      ValueConcat(a, rest);
      ConcatSnoc(a, rest, c);
      assert b == rest + [c];
    }
  }

  /** A text with a sign or without one. */
  function Unsigned(s: string): string { if s != "" && (s[0] == '-' || s[0] == '+') then s[1..] else s }

  /** What is a number: digits behind an optional sign, within 64 bits. */
  lemma AtoiIff(s: string)
    ensures var d := Unsigned(s);
            && (Atoi(s).Some? <==>
                  && d != "" && AreDigits(d)
                  && Value(d) <= (if s[0] == '-' then 0x8000_0000_0000_0000 else 0x7fff_ffff_ffff_ffff))
            && (Atoi(s).Some? ==> Atoi(s).value == (if s[0] == '-' then -1 else 1) * Value(d))
  {
    assert AllDigits(Unsigned(s)) <==> Unsigned(s) != "" && AreDigits(Unsigned(s));
  }

  /** Which characters fold to a lower-case letter, and which lower-case to it. */
  lemma LettersOf(c: char, d: char)
    requires 'a' <= d <= 'z'
    ensures FoldChar(c) == FoldChar(d) <==>
            c == d || c as int == d as int - 32 || (d == 'k' && c == '\U{212A}') || (d == 's' && c == '\U{17F}')
    ensures LowerChar(c) == d <==>
            c == d || c as int == d as int - 32 || (d == 'k' && c == '\U{212A}') || (d == 'i' && c == '\U{130}')
  {
  }
}
