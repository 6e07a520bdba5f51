/** String operations of the C++ standard library that the parsers rely on:
    `std::string::find`, `find_first_not_of`, and `myatoi` (a checked `strtol`). */
module Text {

  datatype Option<+T> = None | Some(value: T)

  const CRLF: string := "\r\n"

  /** The needle `t` occurs in `s` at position `i`. */
  predicate At(s: string, t: string, i: nat) {
    i + |t| <= |s| && s[i..i + |t|] == t
  }

  /** `s.find(t, from)`: the first occurrence at or after `from`. */
  function FindFrom(s: string, t: string, from: nat): (r: Option<nat>)
    requires from <= |s|
    ensures r.Some? ==> from <= r.value && At(s, t, r.value) && forall j: nat | from <= j < r.value :: !At(s, t, j)
    ensures r.None? ==> forall j: nat | from <= j :: !At(s, t, j)
    decreases |s| - from
  {
    if from + |t| > |s| then None
    else if At(s, t, from) then Some(from)
    else if from == |s| then None
    else FindFrom(s, t, from + 1)
  }

  /** `s.find(t)`. */
  function Find(s: string, t: string): (r: Option<nat>)
    ensures r.Some? ==> At(s, t, r.value) && forall j: nat | j < r.value :: !At(s, t, j)
    ensures r.None? ==> forall j: nat :: !At(s, t, j)
  {
    FindFrom(s, t, 0)
  }

  lemma FindUnique(s: string, t: string, k: nat)
    requires At(s, t, k)
    requires forall j: nat | j < k :: !At(s, t, j)
    ensures Find(s, t) == Some(k)
  {}

  /** An occurrence is not disturbed by bytes that arrive later. */
  lemma AtAppend(s: string, t: string, u: string, i: nat)
    requires i + |t| <= |s|
    ensures At(s, t, i) == At(s + u, t, i)
  {
    assert (s + u)[i..i + |t|] == s[i..i + |t|];
  }

  lemma FindAppend(s: string, t: string, u: string)
    requires Find(s, t).Some?
    ensures Find(s + u, t) == Find(s, t)
  {
    var k := Find(s, t).value;
    forall j: nat | j <= k ensures At(s, t, j) == At(s + u, t, j) {
      AtAppend(s, t, u, j);
    }
    FindUnique(s + u, t, k);
  }

  /** If the needle shows up only after more bytes arrived, its end lies in the new bytes. */
  lemma FindLater(s: string, t: string, u: string)
    requires Find(s, t).None? && Find(s + u, t).Some?
    ensures Find(s + u, t).value + |t| > |s|
  {
    var k := Find(s + u, t).value;
    if k + |t| <= |s| {
      AtAppend(s, t, u, k);
    }
  }

  /** No line end inside. */
  predicate IsLine(line: string) {
    Find(line, CRLF).None?
  }

  /** A line without CRLF ends exactly where the CRLF put after it begins. */
  lemma FindLine(line: string, rest: string)
    requires IsLine(line)
    ensures Find(line + CRLF + rest, CRLF) == Some(|line|)
  {
    var s := line + CRLF + rest;
    assert s[|line|..|line| + 2] == CRLF;
    forall j: nat | j < |line| ensures !At(s, CRLF, j) {
      if j + 1 < |line| {
        assert s[j..j + 2] == line[j..j + 2];
        assert !At(line, CRLF, j);
      } else {
        assert s[j..j + 2][1] == '\r';
      }
    }
    FindUnique(s, CRLF, |line|);
  }

  /** What precedes the first occurrence holds none. */
  lemma FindPrefixFree(s: string, t: string)
    requires Find(s, t).Some?
    ensures Find(s[..Find(s, t).value], t).None? || t == ""
  {
    var k := Find(s, t).value;
    forall j: nat ensures !At(s[..k], t, j) || t == "" {
      if At(s[..k], t, j) && t != "" {
        assert s[..k][j..j + |t|] == s[j..j + |t|];
        assert At(s, t, j);
      }
    }
  }

  /** The suffix of `s` that starts at its first character different from `c`; none if all are `c`. */
  function SkipWhile(s: string, c: char): (r: Option<string>)
    ensures r.Some? ==> r.value != "" && r.value[0] != c && |r.value| <= |s| && s[|s| - |r.value|..] == r.value
    ensures r.Some? ==> forall i | 0 <= i < |s| - |r.value| :: s[i] == c
    ensures r.None? <==> forall i | 0 <= i < |s| :: s[i] == c
  {
    if s == "" then None else if s[0] != c then Some(s) else SkipWhile(s[1..], c)
  }

  /** `strtol` skips the C locale's white space: the space and the codes 9 to 13. */
  predicate IsSpace(c: char) {
    c == ' ' || 9 as char <= c <= 13 as char
  }

  function SkipSpace(s: string): (r: string)
    ensures |r| <= |s|
    ensures s == "" || !IsSpace(s[0]) ==> r == s
  {
    if s != "" && IsSpace(s[0]) then SkipSpace(s[1..]) else s
  }

  function DigitValue(c: char): nat {
    if '0' <= c <= '9' then (c - '0') as nat
    else if 'a' <= c <= 'z' then (c - 'a') as nat + 10
    else if 'A' <= c <= 'Z' then (c - 'A') as nat + 10
    else 36
  }

  predicate AllDigits(s: string, base: nat) {
    s != "" && forall i | 0 <= i < |s| :: DigitValue(s[i]) < base
  }

  function Numeral(s: string, base: nat): nat {
    if s == "" then 0 else Numeral(s[..|s| - 1], base) * base + DigitValue(s[|s| - 1])
  }

  function AfterSign(t: string): string {
    if t != "" && (t[0] == '-' || t[0] == '+') then t[1..] else t
  }

  function AfterPrefix(u: string, base: nat): string {
    if base == 16 && |u| > 2 && u[0] == '0' && (u[1] == 'x' || u[1] == 'X') then u[2..] else u
  }

  /** `myatoi`: `strtol` in base 10 or 16 that must consume the whole string.
      `None` stands for the exceptions: empty string, trailing characters, or a
      value outside the 64-bit `long`. */
  function MyAtoi(s: string, base: nat): (r: Option<int>)
    ensures s == "" ==> r.None?
  {
    if s == "" then None
    else
      var t := SkipSpace(s);
      var negative := t != "" && t[0] == '-';
      var digits := AfterPrefix(AfterSign(t), base);
      if !AllDigits(digits, base) then None
      else
        var v := if negative then -(Numeral(digits, base) as int) else Numeral(digits, base);
        if -0x8000_0000_0000_0000 <= v < 0x8000_0000_0000_0000 then Some(v) else None
  }

  // Writing numbers, the inverse of reading them

  function DigitChar(d: nat): char
    requires d < 16
  {
    if d < 10 then '0' + d as char else 'a' + (d - 10) as char
  }

  function Digits(n: nat, base: nat): string
    requires 2 <= base <= 16
    decreases n
  {
    if n < base then [DigitChar(n)] else Digits(n / base, base) + [DigitChar(n % base)]
  }

  /** Digits and nothing that `strtol` would skip or take for a sign or a prefix. */
  predicate Plain(s: string, base: nat) {
    s != "" && forall i | 0 <= i < |s| :: DigitValue(s[i]) < base && !IsSpace(s[i]) && s[i] !in "-+xX"
  }

  lemma DigitCharValue(d: nat, base: nat)
    requires d < base <= 16
    ensures DigitValue(DigitChar(d)) == d && Plain([DigitChar(d)], base)
  {}

  lemma NumeralSnoc(s: string, c: char, base: nat)
    ensures Numeral(s + [c], base) == Numeral(s, base) * base + DigitValue(c)
  {
    assert (s + [c])[..|s|] == s;
  }

  lemma PlainSnoc(s: string, c: char, base: nat)
    requires Plain(s, base) && Plain([c], base)
    ensures Plain(s + [c], base)
  {
    hide DigitValue, IsSpace;
    assert [c][0] == c;
  }

  lemma QuotientSmaller(n: nat, base: nat)
    requires 2 <= base <= n
    ensures n / base < n && n / base * base + n % base == n
  {}

  predicate Reads(s: string, base: nat, n: nat) {
    Plain(s, base) && Numeral(s, base) == n
  }

  lemma OneDigitReads(d: nat, base: nat)
    requires d < base <= 16
    ensures Reads([DigitChar(d)], base, d)
  {
    hide DigitChar, DigitValue, Plain, Numeral;
    DigitCharValue(d, base);
    NumeralSnoc("", DigitChar(d), base);
    NumeralEmpty(base);
    assert "" + [DigitChar(d)] == [DigitChar(d)];
  }

  lemma OneMoreReads(front: string, q: nat, d: nat, base: nat, n: nat)
    requires d < base <= 16 && Reads(front, base, q) && n == q * base + d
    ensures Reads(front + [DigitChar(d)], base, n)
  {
    hide DigitChar, DigitValue, Plain, Numeral;
    DigitCharValue(d, base);
    PlainSnoc(front, DigitChar(d), base);
    NumeralSnoc(front, DigitChar(d), base);
  }

  lemma {:induction false} DigitsRead(n: nat, base: nat)
    requires 2 <= base <= 16
    ensures Reads(Digits(n, base), base, n)
    decreases n
  {
    hide DigitChar, Reads;
    if n < base {
      OneDigitReads(n, base);
    } else {
      QuotientSmaller(n, base);
      DigitsRead(n / base, base);
      OneMoreReads(Digits(n / base, base), n / base, n % base, base, n);
    }
  }

  lemma NumeralEmpty(base: nat)
    ensures Numeral("", base) == 0
  {}

  /** Every number that fits a `long` is read back from its plain decimal or hexadecimal digits. */
  lemma NumberRoundTrip(n: nat, base: nat)
    requires base == 10 || base == 16
    ensures n < 0x8000_0000_0000_0000 ==> MyAtoi(Digits(n, base), base) == Some(n)
  {
    hide Digits, Numeral, SkipSpace, IsSpace, DigitValue;
    DigitsRead(n, base);
  }

  /** The hexadecimal digits, in both cases, and no other characters. */
  lemma DigitExactly(c: char, d: nat)
    requires d < 16
    ensures DigitValue(c) == d <==> c == "0123456789abcdef"[d] || c == "0123456789ABCDEF"[d]
  {}

  predicate AllSpaces(pad: string) {
    forall i | 0 <= i < |pad| :: pad[i] == ' ' || 9 <= pad[i] as int <= 13
  }

  lemma {:induction false} SpacesSkipped(pad: string, s: string)
    requires AllSpaces(pad) && (s == "" || !(s[0] == ' ' || 9 <= s[0] as int <= 13))
    ensures SkipSpace(pad + s) == s
    decreases |pad|
  {
    if pad == "" {
      assert pad + s == s;
    } else {
      assert (pad + s)[1..] == pad[1..] + s;
      SpacesSkipped(pad[1..], s);
    }
  }

  /** The forms of a number: white space, a sign or none, in base 16 the prefix 0x or none, and digits. */
  predicate IsNumberForm(pad: string, sign: string, prefix: string, digits: string, base: nat) {
    && AllSpaces(pad) && sign in {"", "+", "-"} && AllDigits(digits, base)
    && (prefix == "" || (base == 16 && prefix in {"0x", "0X"}))
  }

  /** They are read, if the value fits a `long`... */
  lemma NumberForms(pad: string, sign: string, prefix: string, digits: string, base: nat)
    requires (base == 10 || base == 16) && IsNumberForm(pad, sign, prefix, digits, base)
    ensures var v := if sign == "-" then -(Numeral(digits, base) as int) else Numeral(digits, base);
            MyAtoi(pad + sign + prefix + digits, base) == if -0x8000_0000_0000_0000 <= v < 0x8000_0000_0000_0000 then Some(v) else None
  {
    hide SkipSpace, Numeral, DigitValue, AfterSign, AfterPrefix;
    DigitsStart(digits, base);
    var t := sign + prefix + digits;
    assert pad + sign + prefix + digits == pad + t;
    SpacesSkipped(pad, t);
    UnsignedForm(sign, prefix, digits, base);
  }

  lemma DigitsStart(digits: string, base: nat)
    requires AllDigits(digits, base) && base <= 16
    ensures digits[0] !in " -+xX" && !(9 <= digits[0] as int <= 13)
    ensures |digits| > 1 ==> digits[1] !in "xX"
  {
    assert DigitValue(digits[0]) < base;
    if |digits| > 1 { assert DigitValue(digits[1]) < base; }
  }

  lemma UnsignedForm(sign: string, prefix: string, digits: string, base: nat)
    requires sign in {"", "+", "-"} && digits != "" && digits[0] !in "-+" && (|digits| > 1 ==> digits[1] !in "xX")
    requires prefix == "" || (base == 16 && prefix in {"0x", "0X"})
    ensures var t := sign + prefix + digits;
            t != "" && (t[0] == '-' <==> sign == "-") && AfterPrefix(AfterSign(t), base) == digits
  {
    var t := sign + prefix + digits;
    assert sign != "" ==> t[1..] == prefix + digits;
    assert sign == "" ==> t == prefix + digits;
    assert prefix != "" ==> (prefix + digits)[2..] == digits;
    assert prefix == "" ==> prefix + digits == digits;
  }

  /** ... and nothing else is. */
  lemma OnlyNumberForms(s: string, base: nat) returns (pad: string, sign: string, prefix: string, digits: string)
    requires (base == 10 || base == 16) && MyAtoi(s, base).Some?
    ensures IsNumberForm(pad, sign, prefix, digits, base) && s == pad + sign + prefix + digits
  {
    hide Numeral, SkipSpace, AllDigits, AfterSign, AfterPrefix, AllSpaces;
    var t := SkipSpace(s);
    var u := AfterSign(t);
    SkipIsSuffix(s);
    pad := s[..|s| - |t|];
    digits := AfterPrefix(u, base);
    sign := SignOf(t);
    prefix := PrefixOf(u, base);
    assert s == pad + t;
  }

  lemma SignOf(t: string) returns (sign: string)
    ensures sign in {"", "+", "-"} && t == sign + AfterSign(t)
  {
    sign := if t != "" && (t[0] == '-' || t[0] == '+') then [t[0]] else "";
  }

  lemma PrefixOf(u: string, base: nat) returns (prefix: string)
    ensures (prefix == "" || (base == 16 && prefix in {"0x", "0X"})) && u == prefix + AfterPrefix(u, base)
  {
    prefix := if base == 16 && |u| > 2 && u[0] == '0' && (u[1] == 'x' || u[1] == 'X') then [u[0], u[1]] else "";
  }

  lemma {:induction false} SkipIsSuffix(s: string)
    ensures |SkipSpace(s)| <= |s| && s[|s| - |SkipSpace(s)|..] == SkipSpace(s) && AllSpaces(s[..|s| - |SkipSpace(s)|])
  {
    if s != "" && IsSpace(s[0]) {
      SkipIsSuffix(s[1..]);
      var n := |s| - |SkipSpace(s)|;
      assert s[..n] == [s[0]] + s[1..][..n - 1];
    }
  }
}
