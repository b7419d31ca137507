/** String operations the core relies on: the ordering of `std::string`,
    `find` / `find_last_of`, `trim`, `toLower`, `as<int>`, integer printing,
    and osgEarth's `StringTokenizer`.  Only their observable results are
    modelled, on `seq<char>`. */
module Strings {
  import opened Wrappers

  // ---------------------------------------------------------------------
  // Lexicographic order (std::string::operator<)

  /** `a < b` for `std::string`: the first differing character decides, and a
      proper prefix is smaller. */
  predicate LexLess(a: string, b: string)
    decreases |a|
  {
    if |a| == 0 then |b| > 0
    else if |b| == 0 then false
    else if a[0] != b[0] then a[0] < b[0]
    else LexLess(a[1..], b[1..])
  }

  lemma {:induction false} LexLessIrreflexive(a: string)
    ensures !LexLess(a, a)
    decreases |a|
  {
    if |a| > 0 {
      LexLessIrreflexive(a[1..]);
    }
  }

  lemma LexLessNotEqual(a: string, b: string)
    ensures LexLess(a, b) ==> a != b
  {
    LexLessIrreflexive(a);
  }

  lemma {:induction false} LexLessAsymmetric(a: string, b: string)
    ensures !(LexLess(a, b) && LexLess(b, a))
    decreases |a|
  {
    if |a| > 0 && |b| > 0 && a[0] == b[0] {
      LexLessAsymmetric(a[1..], b[1..]);
    }
  }

  lemma {:induction false} LexLessTransitive(a: string, b: string, c: string)
    ensures LexLess(a, b) && LexLess(b, c) ==> LexLess(a, c)
    decreases |a|
  {
    if |a| > 0 && |b| > 0 && |c| > 0 && a[0] == b[0] && b[0] == c[0] {
      LexLessTransitive(a[1..], b[1..], c[1..]);
    }
  }

  /** Any two strings are equal or ordered one way round. */
  lemma {:induction false} LexLessTotal(a: string, b: string)
    ensures a == b || LexLess(a, b) || LexLess(b, a)
    decreases |a|
  {
    if |a| > 0 && |b| > 0 && a[0] == b[0] {
      assert a == [a[0]] + a[1..] && b == [b[0]] + b[1..];
      LexLessTotal(a[1..], b[1..]);
    }
  }

  // ---------------------------------------------------------------------
  // Characters

  /** The characters osgEarth's `trim` removes: space, tab, form feed,
      vertical tab, newline and carriage return. */
  predicate IsSpace(c: char) {
    c == ' ' || c == '\t' || c == '\n' || c == '\r' || c as int == 11 || c as int == 12
  }

  predicate IsDigit(c: char) {
    '0' <= c <= '9'
  }

  /** `::tolower` in the C locale. */
  function LowerChar(c: char): char {
    if 'A' <= c <= 'Z' then (c as int - 'A' as int + 'a' as int) as char else c
  }

  /** osgEarth `toLower`: every character lowered. */
  function ToLower(s: string): (r: string)
    ensures |r| == |s|
    ensures forall i :: 0 <= i < |s| ==> r[i] == LowerChar(s[i])
  {
    seq(|s|, i requires 0 <= i < |s| => LowerChar(s[i]))
  }

  // ---------------------------------------------------------------------
  // Trimming

  function TrimLeft(s: string): (r: string)
    ensures |r| <= |s| && r == s[|s| - |r|..]
    ensures r == [] || !IsSpace(r[0])
    ensures forall i :: 0 <= i < |s| - |r| ==> IsSpace(s[i])
    decreases |s|
  {
    if |s| > 0 && IsSpace(s[0]) then TrimLeft(s[1..]) else s
  }

  function TrimRight(s: string): (r: string)
    ensures |r| <= |s| && r == s[..|r|]
    ensures r == [] || !IsSpace(r[|r| - 1])
    ensures forall i :: |r| <= i < |s| ==> IsSpace(s[i])
    decreases |s|
  {
    if |s| > 0 && IsSpace(s[|s| - 1]) then TrimRight(s[..|s| - 1]) else s
  }

  /** osgEarth `trim`: leading and trailing white space removed. */
  function Trim(s: string): string {
    TrimRight(TrimLeft(s))
  }

  // ---------------------------------------------------------------------
  // StringTokenizer

  /** The token a delimiter closes: the trimmed buffer, dropped when it is
      empty and empties are not kept. */
  function Flush(buf: string, keepEmpties: bool): seq<string> {
    var t := Trim(buf);
    if keepEmpties || t != "" then [t] else []
  }

  /** The token left at the end of the input: the trimmed buffer, dropped
      when it is empty. */
  function FlushLast(buf: string): seq<string> {
    var t := Trim(buf);
    if t != "" then [t] else []
  }

  /** Tokenizing the rest `s` of the input with `buf` read so far. */
  function TokenizeFrom(s: string, drop: set<char>, keep: set<char>, keepEmpties: bool, buf: string): seq<string>
    decreases |s|
  {
    if |s| == 0 then FlushLast(buf)
    else if s[0] in keep then
      Flush(buf, keepEmpties) + [[s[0]]] + TokenizeFrom(s[1..], drop, keep, keepEmpties, "")
    else if s[0] in drop then
      Flush(buf, keepEmpties) + TokenizeFrom(s[1..], drop, keep, keepEmpties, "")
    else
      TokenizeFrom(s[1..], drop, keep, keepEmpties, buf + [s[0]])
  }

  /** osgEarth `StringTokenizer().delim(d, false)... .delim(k, true)...tokenize(s)`:
      a `drop` delimiter ends a token and disappears, a `keep` delimiter ends a
      token and is itself a one-character token, every token is trimmed, an
      empty token before a delimiter is kept iff `keepEmpties`, and an empty
      last token is dropped.  Quote characters are not modelled. */
  function Tokenize(s: string, drop: set<char>, keep: set<char>, keepEmpties: bool): seq<string> {
    TokenizeFrom(s, drop, keep, keepEmpties, "")
  }

  /** Characters that are neither delimiters nor white space. */
  predicate Plain(t: string, drop: set<char>, keep: set<char>) {
    forall i :: 0 <= i < |t| ==> t[i] !in drop && t[i] !in keep && !IsSpace(t[i])
  }

  /** Reading plain characters only extends the buffer. */
  lemma {:induction false} TokenizeFromPlain(a: string, s: string, drop: set<char>, keep: set<char>, keepEmpties: bool, buf: string)
    requires Plain(a, drop, keep)
    ensures TokenizeFrom(a + s, drop, keep, keepEmpties, buf) == TokenizeFrom(s, drop, keep, keepEmpties, buf + a)
    decreases |a|
  {
    if |a| > 0 {
      assert (a + s)[0] == a[0] && (a + s)[1..] == a[1..] + s;
      assert buf + [a[0]] + a[1..] == buf + a;
      TokenizeFromPlain(a[1..], s, drop, keep, keepEmpties, buf + [a[0]]);
    } else {
      assert a + s == s && buf + a == buf;
    }
  }

  lemma TokenizeFromDrop(s: string, drop: set<char>, keep: set<char>, keepEmpties: bool, buf: string)
    requires |s| > 0 && s[0] in drop && s[0] !in keep
    ensures TokenizeFrom(s, drop, keep, keepEmpties, buf) == Flush(buf, keepEmpties) + TokenizeFrom(s[1..], drop, keep, keepEmpties, "")
  {
  }

  /** A plain word is one token. */
  lemma TokenizeOneWord(a: string, drop: set<char>, keep: set<char>, keepEmpties: bool)
    requires a != "" && Plain(a, drop, keep)
    ensures TokenizeFrom(a, drop, keep, keepEmpties, "") == [a]
  {
    TokenizeFromPlain(a, "", drop, keep, keepEmpties, "");
    assert a + "" == a && "" + a == a;
    TrimPlain(a);
  }

  /** Two plain words separated by one dropped delimiter are two tokens. */
  lemma TokenizeTwoWords(a: string, sep: char, b: string, drop: set<char>, keep: set<char>, keepEmpties: bool)
    requires a != "" && b != "" && Plain(a, drop, keep) && Plain(b, drop, keep) && sep in drop && sep !in keep
    ensures Tokenize(a + [sep] + b, drop, keep, keepEmpties) == [a, b]
  {
    var rest := [sep] + b;
    assert a + [sep] + b == a + rest;
    TokenizeFromPlain(a, rest, drop, keep, keepEmpties, "");
    assert "" + a == a;
    assert rest[1..] == b;
    TokenizeFromDrop(rest, drop, keep, keepEmpties, a);
    TokenizeOneWord(b, drop, keep, keepEmpties);
    TrimPlain(a);
  }

  /** A string without white space trims to itself. */
  lemma TrimPlain(t: string)
    requires forall i :: 0 <= i < |t| ==> !IsSpace(t[i])
    ensures Trim(t) == t
  {
    assert TrimLeft(t) == t;
  }

  /** A token is either a kept delimiter on its own or is free of delimiters. */
  ghost predicate TokenShape(t: string, drop: set<char>, keep: set<char>) {
    (|t| == 1 && t[0] in keep) || (forall i :: 0 <= i < |t| ==> t[i] !in drop && t[i] !in keep)
  }

  /** The tokens a buffer free of delimiters flushes have the shape. */
  lemma FlushShape(buf: string, drop: set<char>, keep: set<char>, keepEmpties: bool)
    requires forall i :: 0 <= i < |buf| ==> buf[i] !in drop && buf[i] !in keep
    ensures forall t :: t in Flush(buf, keepEmpties) ==> TokenShape(t, drop, keep)
    ensures forall t :: t in FlushLast(buf) ==> TokenShape(t, drop, keep)
    ensures !keepEmpties ==> "" !in Flush(buf, keepEmpties)
    ensures "" !in FlushLast(buf)
  {
    var tb := Trim(buf);
    assert forall i :: 0 <= i < |tb| ==> tb[i] in buf;
    assert TokenShape(tb, drop, keep);
  }

  lemma {:induction false} TokenizeFromShape(s: string, drop: set<char>, keep: set<char>, keepEmpties: bool, buf: string)
    requires forall i :: 0 <= i < |buf| ==> buf[i] !in drop && buf[i] !in keep
    ensures forall t :: t in TokenizeFrom(s, drop, keep, keepEmpties, buf) ==> TokenShape(t, drop, keep)
    ensures !keepEmpties ==> "" !in TokenizeFrom(s, drop, keep, keepEmpties, buf)
    decreases |s|
  {
    FlushShape(buf, drop, keep, keepEmpties);
    if |s| == 0 {
    } else if s[0] in keep {
      TokenizeFromShape(s[1..], drop, keep, keepEmpties, "");
      var f, rest := Flush(buf, keepEmpties), TokenizeFrom(s[1..], drop, keep, keepEmpties, "");
      assert TokenizeFrom(s, drop, keep, keepEmpties, buf) == f + [[s[0]]] + rest;
      assert TokenShape([s[0]], drop, keep);
    } else if s[0] in drop {
      TokenizeFromShape(s[1..], drop, keep, keepEmpties, "");
      var f, rest := Flush(buf, keepEmpties), TokenizeFrom(s[1..], drop, keep, keepEmpties, "");
      assert TokenizeFrom(s, drop, keep, keepEmpties, buf) == f + rest;
    } else {
      var buf' := buf + [s[0]];
      assert forall i :: 0 <= i < |buf'| ==> buf'[i] !in drop && buf'[i] !in keep;
      TokenizeFromShape(s[1..], drop, keep, keepEmpties, buf');
    }
  }

  /** Every token a tokenizer returns is a kept delimiter or holds no
      delimiter, and no token is empty unless empties are kept. */
  lemma TokenizeShape(s: string, drop: set<char>, keep: set<char>, keepEmpties: bool)
    ensures forall t :: t in Tokenize(s, drop, keep, keepEmpties) ==> TokenShape(t, drop, keep)
    ensures !keepEmpties ==> "" !in Tokenize(s, drop, keep, keepEmpties)
  {
    TokenizeFromShape(s, drop, keep, keepEmpties, "");
  }

  // ---------------------------------------------------------------------
  // Numbers

  function DigitValue(c: char): nat
    requires IsDigit(c)
  {
    c as int - '0' as int
  }

  function DigitChar(d: nat): (c: char)
    requires d < 10
    ensures IsDigit(c) && DigitValue(c) == d
  {
    ('0' as int + d) as char
  }

  /** The decimal text of `n` (`operator<<` on an unsigned value). */
  function NatToString(n: nat): (r: string)
    ensures |r| > 0 && forall i :: 0 <= i < |r| ==> IsDigit(r[i])
    decreases n
  {
    if n < 10 then [DigitChar(n)] else NatToString(n / 10) + [DigitChar(n % 10)]
  }

  /** The decimal text of `i` (`operator<<` on an int). */
  function IntToString(i: int): string {
    if i < 0 then "-" + NatToString(-i) else NatToString(i)
  }

  /** The value of a run of decimal digits. */
  function DigitsValue(s: string): nat
    requires forall i :: 0 <= i < |s| ==> IsDigit(s[i])
    decreases |s|
  {
    if |s| == 0 then 0 else 10 * DigitsValue(s[..|s| - 1]) + DigitValue(s[|s| - 1])
  }

  /** The longest prefix of `s` made of decimal digits. */
  function LeadingDigits(s: string): (r: string)
    ensures |r| <= |s| && r == s[..|r|]
    ensures forall i :: 0 <= i < |r| ==> IsDigit(s[i])
    ensures |r| < |s| ==> !IsDigit(s[|r|])
    decreases |s|
  {
    if |s| > 0 && IsDigit(s[0]) then [s[0]] + LeadingDigits(s[1..]) else []
  }

  /** `as<int>(s, 0)`: leading white space skipped, an optional sign, then
      the longest run of decimal digits; 0 when there is no digit.  Values
      outside the range of `int` are not modelled. */
  function ParseInt(s: string): int {
    var t := TrimLeft(s);
    if |t| > 0 && (t[0] == '-' || t[0] == '+') then
      var v: int := DigitsValue(LeadingDigits(t[1..]));
      if t[0] == '-' then -v else v
    else
      DigitsValue(LeadingDigits(t))
  }

  lemma {:induction false} DigitsValueOfNat(n: nat)
    ensures DigitsValue(NatToString(n)) == n
    decreases n
  {
    var s := NatToString(n);
    if n >= 10 {
      DigitsValueOfNat(n / 10);
      assert s[..|s| - 1] == NatToString(n / 10);
    }
  }

  lemma {:induction false} LeadingDigitsAll(s: string)
    requires forall i :: 0 <= i < |s| ==> IsDigit(s[i])
    ensures LeadingDigits(s) == s
    decreases |s|
  {
    if |s| > 0 {
      LeadingDigitsAll(s[1..]);
    }
  }

  /** Printing a natural number and reading it back with `as<int>` is the
      identity. */
  lemma ParseIntOfNat(n: nat)
    ensures ParseInt(NatToString(n)) == n
  {
    var s := NatToString(n);
    assert !IsSpace(s[0]) && s[0] != '-' && s[0] != '+';
    assert TrimLeft(s) == s;
    LeadingDigitsAll(s);
    DigitsValueOfNat(n);
  }

  // ---------------------------------------------------------------------
  // Searching

  /** Whether `pat` occurs in `s` at position `i`. */
  predicate OccursAt(s: string, pat: string, i: nat) {
    i + |pat| <= |s| && s[i..i + |pat|] == pat
  }

  /** `s.find(pat, from)`: the first position at or after `from` where `pat`
      occurs, or None for `npos`. */
  function FindFrom(s: string, pat: string, from: nat): (r: Option<nat>)
    ensures r.Some? ==> from <= r.value && OccursAt(s, pat, r.value)
    ensures r.Some? ==> forall j :: from <= j < r.value ==> !OccursAt(s, pat, j)
    ensures r.None? ==> forall j :: from <= j ==> !OccursAt(s, pat, j)
    decreases |s| - from
  {
    if from + |pat| > |s| then None
    else if s[from..from + |pat|] == pat then Some(from)
    else FindFrom(s, pat, from + 1)
  }

  /** `s.find(pat)`. */
  function Find(s: string, pat: string): Option<nat> {
    FindFrom(s, pat, 0)
  }

  /** `s.find_last_of(c)`: the last position holding `c`, or None. */
  function FindLast(s: string, c: char): (r: Option<nat>)
    ensures r.Some? ==> r.value < |s| && s[r.value] == c && forall j :: r.value < j < |s| ==> s[j] != c
    ensures r.None? ==> forall j :: 0 <= j < |s| ==> s[j] != c
    decreases |s|
  {
    if |s| == 0 then None
    else if s[|s| - 1] == c then Some(|s| - 1)
    else FindLast(s[..|s| - 1], c)
  }

  /** The last position holding any character of `cs`, or None
      (`find_last_of` with a set of characters). */
  function FindLastOf(s: string, cs: set<char>): (r: Option<nat>)
    ensures r.Some? ==> r.value < |s| && s[r.value] in cs && forall j :: r.value < j < |s| ==> s[j] !in cs
    ensures r.None? ==> forall j :: 0 <= j < |s| ==> s[j] !in cs
    decreases |s|
  {
    if |s| == 0 then None
    else if s[|s| - 1] in cs then Some(|s| - 1)
    else FindLastOf(s[..|s| - 1], cs)
  }
}
