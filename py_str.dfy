/**
 * The few Python `str` operations the game's parsers rely on, over
 * `seq<char>`: `strip`, `split` with a separator, `int` of a decimal
 * literal, `startswith` and `replace`. Characters outside ASCII are
 * treated as ordinary characters (neither whitespace nor digits).
 */
module PyStr {
  import opened Base

  /** `c.isspace()` for the ASCII range: space, `\t \n \v \f \r` and the separators `\x1c`-`\x1f`. */
  predicate IsSpace(c: char) {
    c == ' ' || 9 <= c as int <= 13 || 28 <= c as int <= 31
  }

  predicate IsDigit(c: char) {
    '0' <= c <= '9'
  }

  function TrimStart(s: string): (t: string)
    ensures |t| <= |s| && t == s[|s| - |t|..]
    ensures forall i :: 0 <= i < |s| - |t| ==> IsSpace(s[i])
    ensures t != [] ==> !IsSpace(t[0])
  {
    if s != [] && IsSpace(s[0]) then TrimStart(s[1..]) else s
  }

  function TrimEnd(s: string): (t: string)
    ensures |t| <= |s| && t == s[..|t|]
    ensures forall i :: |t| <= i < |s| ==> IsSpace(s[i])
    ensures t != [] ==> !IsSpace(t[|t| - 1])
  {
    if s != [] && IsSpace(s[|s| - 1]) then TrimEnd(s[..|s| - 1]) else s
  }

  /** `s.strip()` */
  function Strip(s: string): string {
    TrimEnd(TrimStart(s))
  }

  /**
   * `s.strip()` is the slice of `s` left after removing whitespace at both
   * ends: everything cut off is whitespace and the result neither starts
   * nor ends with whitespace.
   */
  lemma StripFacts(s: string)
    ensures exists i, j ::
      0 <= i <= j <= |s| && Strip(s) == s[i..j] &&
      (forall k :: 0 <= k < i ==> IsSpace(s[k])) && (forall k :: j <= k < |s| ==> IsSpace(s[k]))
    ensures Strip(s) != [] ==> !IsSpace(Strip(s)[0]) && !IsSpace(Strip(s)[|Strip(s)| - 1])
  {
    var t := TrimStart(s);
    var j := TrimSlice(s, t, TrimEnd(t));
    assert Strip(s) == TrimEnd(t);
  }

  /** Trimming the end of the suffix `t` of `s` leaves the slice `s[|s| - |t|..j]`, with only whitespace after `j`. */
  lemma TrimSlice(s: string, t: string, r: string) returns (j: int)
    requires |t| <= |s| && t == s[|s| - |t|..]
    requires |r| <= |t| && r == t[..|r|]
    requires forall k :: |r| <= k < |t| ==> IsSpace(t[k])
    ensures j == |s| - |t| + |r| && j <= |s| && r == s[|s| - |t|..j]
    ensures forall k :: j <= k < |s| ==> IsSpace(s[k])
  {
    var i := |s| - |t|;
    j := i + |r|;
    forall k | j <= k < |s| ensures IsSpace(s[k]) {
      assert s[k] == t[k - i];
    }
  }

  /** Stripping twice is stripping once. */
  lemma StripIdempotent(s: string)
    ensures Strip(Strip(s)) == Strip(s)
  {
    var r := Strip(s);
    StripFacts(s);
    if r != [] {
      assert TrimStart(r) == r;
      assert TrimEnd(r) == r;
    }
  }

  /** A string that neither starts nor ends with whitespace strips to itself. */
  lemma StripNoEnds(s: string)
    requires s != [] ==> !IsSpace(s[0]) && !IsSpace(s[|s| - 1])
    ensures Strip(s) == s
  {
    if s != [] {
      assert TrimStart(s) == s;
      assert TrimEnd(s) == s;
    }
  }

  predicate AllDigits(s: string) {
    forall i :: 0 <= i < |s| ==> IsDigit(s[i])
  }

  /** The value of a run of decimal digits. */
  function DigitsValue(s: string): nat
    requires AllDigits(s)
  {
    if s == [] then 0
    else DigitsValue(s[..|s| - 1]) * 10 + (s[|s| - 1] as int - '0' as int)
  }

  /** The decimal digits of `n`, as `str(n)` writes them. */
  function Show(n: nat): (s: string)
    ensures s != [] && AllDigits(s)
  {
    if n < 10 then [('0' as int + n) as char]
    else Show(n / 10) + [('0' as int + n % 10) as char]
  }

  /** `int(str(n)) == n` for the digit part. */
  lemma {:induction false} ShowValue(n: nat)
    ensures DigitsValue(Show(n)) == n
  {
    if n >= 10 {
      ShowValue(n / 10);
      var s := Show(n);
      assert s[..|s| - 1] == Show(n / 10);
    }
  }

  /**
   * The digits of a Python integer literal as `int()` accepts it: at least
   * one digit, and an underscore only between two digits.
   */
  predicate IntBody(b: string) {
    b != [] && IsDigit(b[0]) && DigitsOrUnderscores(b) &&
    forall i :: 0 <= i < |b| && b[i] == '_' ==> i + 1 < |b| && IsDigit(b[i + 1])
  }

  predicate DigitsOrUnderscores(b: string) {
    forall i :: 0 <= i < |b| ==> IsDigit(b[i]) || b[i] == '_'
  }

  /** `b` with its underscores removed. */
  function Digits(b: string): (d: string)
    requires DigitsOrUnderscores(b)
    ensures AllDigits(d)
  {
    if b == [] then []
    else Digits(b[..|b| - 1]) + (if b[|b| - 1] == '_' then [] else [b[|b| - 1]])
  }

  lemma {:induction false} DigitsOfDigits(b: string)
    requires AllDigits(b)
    ensures Digits(b) == b
  {
    if b != [] {
      DigitsOfDigits(b[..|b| - 1]);
    }
  }

  /** `int(s)` on a string: surrounding whitespace, an optional sign, then the digits; anything else raises `ValueError` (`None`). */
  function ParseInt(s: string): Option<int> {
    var t := Strip(s);
    var neg := t != [] && t[0] == '-';
    var body := if t != [] && (t[0] == '-' || t[0] == '+') then t[1..] else t;
    if IntBody(body) then
      var v: int := DigitsValue(Digits(body));
      Some(if neg then -v else v)
    else None
  }

  /** `str(n)` for any integer. */
  function ShowInt(n: int): (s: string) {
    if n < 0 then "-" + Show(-n) else Show(n)
  }

  /** `int(str(n)) == n` */
  lemma ParseShow(n: int)
    ensures ParseInt(ShowInt(n)) == Some(n)
  {
    if n < 0 {
      ParseShowNegative(n);
    } else {
      ParseShowNat(n);
    }
  }

  lemma ParseShowNat(n: int)
    requires n >= 0
    ensures ParseInt(ShowInt(n)) == Some(n)
  {
    var d := Show(n);
    assert ShowInt(n) == d;
    ShowValue(n);
    ParsePositive(d);
  }

  lemma ParseShowNegative(n: int)
    requires n < 0
    ensures ParseInt(ShowInt(n)) == Some(n)
  {
    var m: nat := -n;
    var s := "-" + Show(m);
    assert ShowInt(n) == s;
    ShowValue(m);
    assert s[1..] == Show(m);
    ParseNegative(s);
  }

  /** A run of digits parses to its value. */
  lemma ParsePositive(d: string)
    requires d != [] && AllDigits(d)
    ensures ParseInt(d) == Some(DigitsValue(d) as int)
  {
    assert IsDigit(d[0]) && IsDigit(d[|d| - 1]);
    StripNoEnds(d);
    DigitBody(d);
  }

  /** A minus sign and a run of digits parse to minus its value. */
  lemma ParseNegative(s: string)
    requires |s| >= 2 && s[0] == '-' && AllDigits(s[1..])
    ensures ParseInt(s) == Some(-(DigitsValue(s[1..]) as int))
  {
    var d := s[1..];
    assert IsDigit(d[|d| - 1]);
    StripNoEnds(s);
    DigitBody(d);
  }

  lemma DigitBody(d: string)
    requires d != [] && AllDigits(d)
    ensures IntBody(d) && Digits(d) == d
  {
    DigitsOfDigits(d);
  }

  /** `s.split(sep)` with a one-character separator. */
  function Split(s: string, sep: char): (parts: seq<string>)
    ensures |parts| >= 1
  {
    if s == [] then [[]]
    else
      var rest := Split(s[1..], sep);
      if s[0] == sep then [[]] + rest
      else [[s[0]] + rest[0]] + rest[1..]
  }

  /** `sep.join(parts)` */
  function JoinWith(parts: seq<string>, sep: char): string
    requires |parts| >= 1
  {
    if |parts| == 1 then parts[0]
    else parts[0] + [sep] + JoinWith(parts[1..], sep)
  }

  /** No piece of a split holds the separator, and joining the pieces gives back the string. */
  lemma {:induction false} SplitJoin(s: string, sep: char)
    ensures forall k :: 0 <= k < |Split(s, sep)| ==> sep !in Split(s, sep)[k]
    ensures JoinWith(Split(s, sep), sep) == s
  {
    if s != [] {
      SplitJoin(s[1..], sep);
      var rest := Split(s[1..], sep);
      if s[0] == sep {
        assert Split(s, sep)[1..] == rest;
      } else {
        var parts := Split(s, sep);
        assert parts[1..] == rest[1..];
        forall k | 0 <= k < |parts| ensures sep !in parts[k] {
          if k > 0 {
            assert parts[k] == rest[k];
          }
        }
        if |rest| > 1 {
          assert JoinWith(parts, sep) == [s[0]] + rest[0] + [sep] + JoinWith(rest[1..], sep);
        }
      }
    }
  }

  /** Splitting a join of separator-free pieces gives the pieces back. */
  lemma {:induction false} JoinSplit(parts: seq<string>, sep: char)
    requires |parts| >= 1 && forall k :: 0 <= k < |parts| ==> sep !in parts[k]
    ensures Split(JoinWith(parts, sep), sep) == parts
    decreases |parts|, |parts[0]|
  {
    var p := parts[0];
    if p == [] {
      if |parts| > 1 {
        JoinSplit(parts[1..], sep);
        assert JoinWith(parts, sep) == [sep] + JoinWith(parts[1..], sep);
      }
    } else {
      var parts' := [p[1..]] + parts[1..];
      assert parts'[1..] == parts[1..];
      JoinSplit(parts', sep);
      var s := JoinWith(parts, sep);
      if |parts| == 1 {
        assert s[1..] == JoinWith(parts', sep);
      } else {
        assert s == [p[0]] + (p[1..] + [sep] + JoinWith(parts[1..], sep));
        assert s[1..] == JoinWith(parts', sep);
      }
      assert [p[0]] + p[1..] == p;
      assert Split(s, sep) == [[s[0]] + Split(s[1..], sep)[0]] + Split(s[1..], sep)[1..];
      assert [[p[0]] + parts'[0]] + parts'[1..] == parts;
    }
  }

  /** `s.startswith(p)` */
  predicate StartsWith(s: string, p: string) {
    |p| <= |s| && s[..|p|] == p
  }

  /** `target` occurs in `s` starting at index `i`. */
  predicate OccursAt(s: string, i: nat, target: string) {
    i + |target| <= |s| && s[i..i + |target|] == target
  }

  /** `s.replace(target, repl)`: every non-overlapping occurrence of `target`, scanning from the left, becomes `repl`. */
  function ReplaceAll(s: string, target: string, repl: string): string
    requires target != []
    decreases |s|
  {
    if s == [] then []
    else if StartsWith(s, target) then repl + ReplaceAll(s[|target|..], target, repl)
    else [s[0]] + ReplaceAll(s[1..], target, repl)
  }

  /** A string without any occurrence of `target` is left unchanged. */
  lemma {:induction false} ReplaceAbsent(s: string, target: string, repl: string)
    requires target != []
    requires forall i: nat :: i <= |s| ==> !OccursAt(s, i, target)
    ensures ReplaceAll(s, target, repl) == s
    decreases |s|
  {
    if s != [] {
      assert !OccursAt(s, 0, target);
      forall i: nat | i <= |s[1..]| ensures !OccursAt(s[1..], i, target) {
        assert !OccursAt(s, i + 1, target);
        if i + |target| <= |s[1..]| {
          assert s[1..][i..i + |target|] == s[i + 1..i + 1 + |target|];
        }
      }
      ReplaceAbsent(s[1..], target, repl);
    }
  }
}
