/** The parts of Go's `strings` and `strconv` packages that the volume,
    network and CLI code relies on, over `string == seq<char>`.
    Separators and patterns are matched left to right without overlap, as in Go. */
module Strings {
  import opened Wrappers

  const MaxInt64: int := 0x7fff_ffff_ffff_ffff
  const MinInt64: int := -0x8000_0000_0000_0000
  const TwoTo32: int := 0x1_0000_0000

  /** `sep` occurs in `s` at index `j`. */
  predicate OccursAt(s: string, sep: string, j: int) {
    0 <= j && j + |sep| <= |s| && s[j..j + |sep|] == sep
  }

  /** The first occurrence of `sep` in `s` at or after `i`. */
  function IndexFrom(s: string, sep: string, i: nat): (r: Option<nat>)
    ensures r.Some? ==> i <= r.value && OccursAt(s, sep, r.value)
    ensures r.Some? ==> forall j :: i <= j < r.value ==> !OccursAt(s, sep, j)
    ensures r.None? ==> forall j :: i <= j ==> !OccursAt(s, sep, j)
    decreases |s| - i
  {
    if i + |sep| > |s| then None
    else if s[i..i + |sep|] == sep then Some(i)
    else IndexFrom(s, sep, i + 1)
  }

  /** Go's `strings.Index`: the leftmost occurrence of `sep`. */
  function IndexOf(s: string, sep: string): (r: Option<nat>)
    ensures r.Some? ==> OccursAt(s, sep, r.value)
    ensures r.Some? ==> forall j :: 0 <= j < r.value ==> !OccursAt(s, sep, j)
    ensures r.None? <==> forall j :: !OccursAt(s, sep, j)
  {
    IndexFrom(s, sep, 0)
  }

  /** Go's `strings.Contains`. */
  predicate Contains(s: string, sub: string) {
    IndexOf(s, sub).Some?
  }

  lemma ContainsMeansOccurs(s: string, sub: string)
    ensures Contains(s, sub) <==> exists j :: OccursAt(s, sub, j)
  {
  }

  /** Go's `strings.HasPrefix`. */
  predicate HasPrefix(s: string, p: string) {
    p <= s
  }

  /** Go's `strings.HasSuffix`. */
  predicate HasSuffix(s: string, p: string) {
    |p| <= |s| && s[|s| - |p|..] == p
  }

  /** Go's `strings.Join`. */
  function Join(parts: seq<string>, sep: string): string
  {
    if |parts| == 0 then ""
    else if |parts| == 1 then parts[0]
    else parts[0] + sep + Join(parts[1..], sep)
  }

  /** Go's `strings.Split` for a non-empty separator: the pieces between
      successive leftmost occurrences of `sep`. */
  function Split(s: string, sep: string): (r: seq<string>)
    requires |sep| > 0
    ensures |r| >= 1
    decreases |s|
  {
    match IndexOf(s, sep)
    case None => [s]
    case Some(i) => [s[..i]] + Split(s[i + |sep|..], sep)
  }

  /** Go's `strings.SplitN(s, sep, n)` for n >= 1: at most `n` pieces, the
      last one holding the unsplit rest. */
  function SplitN(s: string, sep: string, n: nat): (r: seq<string>)
    requires |sep| > 0 && n >= 1
    ensures 1 <= |r| <= n
    decreases n
  {
    if n == 1 then [s]
    else
      match IndexOf(s, sep)
      case None => [s]
      case Some(i) => [s[..i]] + SplitN(s[i + |sep|..], sep, n - 1)
  }

  /** Go's `strings.Replace(s, pat, rep, -1)` for a non-empty `pat`. */
  function Replace(s: string, pat: string, rep: string): string
    requires |pat| > 0
    decreases |s|
  {
    match IndexOf(s, pat)
    case None => s
    case Some(i) => s[..i] + rep + Replace(s[i + |pat|..], pat, rep)
  }

  /** Go's `strings.Replace(s, pat, rep, 1)` for a non-empty `pat`. */
  function ReplaceFirst(s: string, pat: string, rep: string): (r: string)
    requires |pat| > 0
    ensures !Contains(s, pat) ==> r == s
  {
    match IndexOf(s, pat)
    case None => s
    case Some(i) => s[..i] + rep + s[i + |pat|..]
  }

  /** Go's `strings.LastIndexByte`. */
  function LastIndexOfChar(s: string, c: char): (r: Option<nat>)
    ensures r.Some? ==> r.value < |s| && s[r.value] == c
    ensures r.Some? ==> forall j :: r.value < j < |s| ==> s[j] != c
    ensures r.None? <==> c !in s
  {
    if |s| == 0 then None
    else if s[|s| - 1] == c then Some(|s| - 1)
    else
      var r := LastIndexOfChar(s[..|s| - 1], c);
      assert s == s[..|s| - 1] + [s[|s| - 1]];
      r
  }

  /** Go's `unicode.IsSpace`, which `strings.TrimSpace` uses. */
  predicate IsSpace(c: char) {
    || c == ' ' || c == '\t' || c == '\n' || c == '\r'
    || c == '\U{000B}' || c == '\U{000C}' || c == '\U{0085}' || c == '\U{00A0}'
    || c == '\U{1680}' || ('\U{2000}' <= c <= '\U{200A}')
    || c == '\U{2028}' || c == '\U{2029}' || c == '\U{202F}' || c == '\U{205F}'
    || c == '\U{3000}'
  }

  function TrimLeft(s: string): (r: string)
    ensures |r| <= |s|
    ensures |r| > 0 ==> !IsSpace(r[0])
  {
    if |s| > 0 && IsSpace(s[0]) then TrimLeft(s[1..]) else s
  }

  function TrimRight(s: string): (r: string)
    ensures |r| <= |s|
    ensures |r| > 0 ==> !IsSpace(r[|r| - 1])
  {
    if |s| > 0 && IsSpace(s[|s| - 1]) then TrimRight(s[..|s| - 1]) else s
  }

  /** Trimming on the left drops a white-space prefix and keeps the rest. */
  lemma {:induction false} TrimLeftDrops(s: string)
    ensures |TrimLeft(s)| <= |s| && TrimLeft(s) == s[|s| - |TrimLeft(s)|..]
    ensures forall i :: 0 <= i < |s| - |TrimLeft(s)| ==> IsSpace(s[i])
  {
    if |s| > 0 && IsSpace(s[0]) {
      TrimLeftDrops(s[1..]);
      assert s[1..][|s| - 1 - |TrimLeft(s)|..] == s[|s| - |TrimLeft(s)|..];
      forall i | 1 <= i < |s| - |TrimLeft(s)|
        ensures IsSpace(s[i])
      {
        assert s[i] == s[1..][i - 1];
      }
    }
  }

  /** Trimming on the right drops a white-space suffix and keeps the rest. */
  lemma {:induction false} TrimRightDrops(s: string)
    ensures |TrimRight(s)| <= |s| && TrimRight(s) == s[..|TrimRight(s)|]
    ensures forall i :: |TrimRight(s)| <= i < |s| ==> IsSpace(s[i])
  {
    if |s| > 0 && IsSpace(s[|s| - 1]) {
      TrimRightDrops(s[..|s| - 1]);
      assert s[..|s| - 1][..|TrimRight(s)|] == s[..|TrimRight(s)|];
      forall i | |TrimRight(s)| <= i < |s| - 1
        ensures IsSpace(s[i])
      {
        assert s[i] == s[..|s| - 1][i];
      }
    }
  }

  /** Go's `strings.TrimSpace`: the input without leading and trailing white space. */
  function TrimSpace(s: string): (r: string)
    ensures |r| <= |s|
    ensures |r| > 0 ==> !IsSpace(r[0]) && !IsSpace(r[|r| - 1])
  {
    TrimRightDrops(TrimLeft(s));
    TrimRight(TrimLeft(s))
  }

  /** A string trims to nothing exactly when it is all white space. */
  lemma TrimSpaceEmpty(s: string)
    ensures TrimSpace(s) == "" <==> forall i :: 0 <= i < |s| ==> IsSpace(s[i])
  {
    var l := TrimLeft(s);
    TrimLeftDrops(s);
    TrimRightDrops(l);
  }

  /** Go's `strings.ToLower` on ASCII letters; other characters are kept. */
  function ToLowerChar(c: char): char {
    if 'A' <= c <= 'Z' then (c as int + 32) as char else c
  }

  function ToLower(s: string): (r: string)
    ensures |r| == |s|
    ensures forall i :: 0 <= i < |s| ==> r[i] == ToLowerChar(s[i])
  {
    seq(|s|, i requires 0 <= i < |s| => ToLowerChar(s[i]))
  }

  // ---------------------------------------------------------------------
  // Decimal numbers (strconv.Itoa / ParseUint / Atoi)

  predicate IsDigit(c: char) {
    '0' <= c <= '9'
  }

  predicate AllDigits(s: string) {
    forall i :: 0 <= i < |s| ==> IsDigit(s[i])
  }

  function DigitValue(c: char): nat
    requires IsDigit(c)
  {
    c as int - '0' as int
  }

  function DigitChar(d: nat): (c: char)
    requires d < 10
    ensures IsDigit(c) && DigitValue(c) == d
  {
    (d + '0' as int) as char
  }

  /** The value of a string of decimal digits, most significant first. */
  function DigitsValue(s: string): nat
    requires AllDigits(s)
  {
    if |s| == 0 then 0 else DigitsValue(s[..|s| - 1]) * 10 + DigitValue(s[|s| - 1])
  }

  /** `strconv.Itoa` on a non-negative number: its shortest decimal digits. */
  function NatToString(n: nat): (r: string)
    ensures |r| >= 1 && AllDigits(r)
    ensures (r[0] == '0') <==> (n == 0)
  {
    if n < 10 then [DigitChar(n)] else NatToString(n / 10) + [DigitChar(n % 10)]
  }

  /** `strconv.Itoa` on any integer. */
  function IntToString(i: int): (r: string)
    ensures |r| >= 1
    ensures (r[0] == '-') <==> (i < 0)
    ensures CanonicalDecimal(r)
  {
    if i < 0 then "-" + NatToString(-i) else NatToString(i)
  }

  /** The way `strconv.Itoa` spells numbers: digits with no leading zero
      (except "0" itself), or '-' followed by such digits that are not
      zero. No '+', no "-0", no padding. */
  predicate CanonicalDecimal(s: string) {
    || (|s| >= 1 && AllDigits(s) && (s[0] == '0' ==> |s| == 1))
    || (|s| >= 2 && s[0] == '-' && AllDigits(s[1..]) && s[1] != '0')
  }

  /** Digits that do not start with '0' are worth at least 1. */
  lemma {:induction false} LeadingDigitPositive(s: string)
    requires |s| >= 1 && AllDigits(s) && s[0] != '0'
    ensures DigitsValue(s) >= 1
  {
    if |s| > 1 {
      var front := s[..|s| - 1];
      assert front[0] == s[0];
      LeadingDigitPositive(front);
    }
  }

  /** Digit strings without a leading zero spell each value once. */
  lemma {:induction false} DigitsValueUnique(s: string, t: string)
    requires AllDigits(s) && AllDigits(t)
    requires |s| >= 1 ==> s[0] != '0'
    requires |t| >= 1 ==> t[0] != '0'
    requires DigitsValue(s) == DigitsValue(t)
    ensures s == t
    decreases |s|
  {
    if |s| == 0 {
      if |t| >= 1 {
        LeadingDigitPositive(t);
      }
    } else if |t| == 0 {
      LeadingDigitPositive(s);
    } else {
      var fs, ft := s[..|s| - 1], t[..|t| - 1];
      var ds, dt := DigitValue(s[|s| - 1]), DigitValue(t[|t| - 1]);
      assert DigitsValue(fs) * 10 + ds == DigitsValue(ft) * 10 + dt;
      assert ds == dt && DigitsValue(fs) == DigitsValue(ft) by {
        DivModDecimal(DigitsValue(fs), ds, DigitsValue(ft), dt);
      }
      assert |fs| >= 1 ==> fs[0] == s[0];
      assert |ft| >= 1 ==> ft[0] == t[0];
      DigitsValueUnique(fs, ft);
      assert s == fs + [s[|s| - 1]];
      assert t == ft + [t[|t| - 1]];
    }
  }

  lemma DivModDecimal(a: nat, x: nat, b: nat, y: nat)
    requires x < 10 && y < 10 && a * 10 + x == b * 10 + y
    ensures x == y && a == b
  {
  }

  /** A number has exactly one canonical spelling: any canonical decimal
      that `Atoi` reads as `i` is `IntToString(i)`. */
  lemma CanonicalDecimalUnique(s: string, t: string)
    requires CanonicalDecimal(s) && CanonicalDecimal(t)
    requires Atoi(s).Some? && Atoi(s) == Atoi(t)
    ensures s == t
  {
    var vs := SignedValue(s);
    var vt := SignedValue(t);
    if s[0] == '-' && t[0] == '-' {
      DigitsValueUnique(s[1..], t[1..]);
      assert s == [s[0]] + s[1..] && t == [t[0]] + t[1..];
    } else if s[0] != '-' && t[0] != '-' {
      if s[0] == '0' {
        if t[0] != '0' {
          LeadingDigitPositive(t);
        }
      } else if t[0] == '0' {
        LeadingDigitPositive(s);
      } else {
        DigitsValueUnique(s, t);
      }
    } else if s[0] == '-' {
      LeadingDigitPositive(s[1..]);
    } else {
      LeadingDigitPositive(t[1..]);
    }
  }

  /** What `Atoi` reads from a canonical decimal. */
  lemma SignedValue(s: string) returns (v: int)
    requires CanonicalDecimal(s) && Atoi(s).Some?
    ensures Atoi(s) == Some(v)
    ensures s[0] == '-' ==> AllDigits(s[1..]) && v == 0 - DigitsValue(s[1..])
    ensures s[0] != '-' ==> AllDigits(s) && v == DigitsValue(s)
    ensures s[0] == '0' ==> s == "0" && v == 0
  {
    v := Atoi(s).value;
    if s[0] == '0' {
      assert s == [s[0]];
      assert DigitsValue(s) == DigitsValue(s[..0]) * 10 + DigitValue(s[0]);
    }
  }


  lemma {:induction false} NatToStringValue(n: nat)
    ensures DigitsValue(NatToString(n)) == n
  {
    if n >= 10 {
      NatToStringValue(n / 10);
      var s := NatToString(n);
      assert s[..|s| - 1] == NatToString(n / 10);
    }
  }

  /** `strconv.ParseUint(s, 10, 32)`: only decimal digits, at least one, and
      a value below 2^32. */
  function ParseUint32(s: string): (r: Option<nat>)
    ensures r.Some? ==> r.value < TwoTo32
    ensures r.Some? ==> |s| > 0 && AllDigits(s)
  {
    if |s| > 0 && AllDigits(s) && DigitsValue(s) < TwoTo32 then Some(DigitsValue(s)) else None
  }

  lemma ParseUint32OfNatToString(n: nat)
    requires n < TwoTo32
    ensures ParseUint32(NatToString(n)) == Some(n)
  {
    NatToStringValue(n);
  }

  /** `strconv.Atoi` on a 64-bit platform: an optional sign, at least one
      decimal digit, and a value that fits in int64. */
  function Atoi(s: string): (r: Option<int>)
    ensures r.Some? ==> MinInt64 <= r.value <= MaxInt64
    ensures r.Some? ==> |s| > 0
  {
    var signed := |s| > 0 && (s[0] == '-' || s[0] == '+');
    var body := if signed then s[1..] else s;
    if |body| == 0 || !AllDigits(body) then None
    else
      var v: int := if signed && s[0] == '-' then 0 - DigitsValue(body) else DigitsValue(body);
      if MinInt64 <= v <= MaxInt64 then Some(v) else None
  }

  lemma AtoiOfIntToString(i: int)
    requires MinInt64 <= i <= MaxInt64
    ensures Atoi(IntToString(i)) == Some(i)
  {
    var s := IntToString(i);
    if i < 0 {
      var body := NatToString(-i);
      NatToStringValue(-i);
      assert s[1..] == body;
      assert s[0] == '-';
      assert AllDigits(body) && |body| > 0;
      assert DigitsValue(body) == -i;
    } else {
      NatToStringValue(i);
      assert IsDigit(s[0]);
      assert s[0] != '-' && s[0] != '+';
    }
  }

  // ---------------------------------------------------------------------
  // Facts about Split, Join and Replace

  /** A string with `sep` at `i` is the text before it, `sep` and the rest. */
  lemma Recompose(s: string, sep: string, i: nat)
    requires OccursAt(s, sep, i)
    ensures s == s[..i] + sep + s[i + |sep|..]
  {
    assert s == s[..i] + s[i..i + |sep|] + s[i + |sep|..];
  }

  /** Joining a head in front of a non-empty list puts one separator between. */
  lemma JoinCons(head: string, tail: seq<string>, sep: string)
    requires |tail| >= 1
    ensures Join([head] + tail, sep) == head + sep + Join(tail, sep)
  {
    assert ([head] + tail)[1..] == tail;
  }

  /** Split peels off the text before the first separator. */
  lemma SplitAt(s: string, sep: string, i: nat)
    requires |sep| > 0 && IndexOf(s, sep) == Some(i)
    ensures Split(s, sep) == [s[..i]] + Split(s[i + |sep|..], sep)
  {
    match IndexOf(s, sep)
    case Some(k) =>
      assert k == i;
  }

  /** One step of `SplitJoin`: the first piece, the separator and the
      rejoined rest make up the string. */
  lemma SplitJoinStep(s: string, sep: string, i: nat)
    requires |sep| > 0 && IndexOf(s, sep) == Some(i)
    requires Join(Split(s[i + |sep|..], sep), sep) == s[i + |sep|..]
    ensures Join(Split(s, sep), sep) == s
  {
    var tail := Split(s[i + |sep|..], sep);
    SplitAt(s, sep, i);
    JoinCons(s[..i], tail, sep);
    Recompose(s, sep, i);
  }

  lemma {:induction false} SplitJoin(s: string, sep: string)
    requires |sep| > 0
    ensures Join(Split(s, sep), sep) == s
    decreases |s|
  {
    match IndexOf(s, sep)
    case None =>
    case Some(i) =>
      SplitJoin(s[i + |sep|..], sep);
      SplitJoinStep(s, sep, i);
  }

  /** Every piece of a split is free of the separator. */
  lemma {:induction false} SplitPiecesFree(s: string, sep: string)
    requires |sep| > 0
    ensures forall k :: 0 <= k < |Split(s, sep)| ==> !Contains(Split(s, sep)[k], sep)
    decreases |s|
  {
    match IndexOf(s, sep)
    case None =>
    case Some(i) =>
      var rest := s[i + |sep|..];
      SplitPiecesFree(rest, sep);
      var p := s[..i];
      forall j | OccursAt(p, sep, j)
        ensures false
      {
        assert p[j..j + |sep|] == s[j..j + |sep|];
        assert OccursAt(s, sep, j);
      }
  }

  /** With a one-character separator, a prefix free of it ends at the first separator. */
  lemma IndexOfCharAfter(x: string, c: char, y: string)
    requires c !in x
    ensures IndexOf(x + [c] + y, [c]) == Some(|x|)
  {
    var s := x + [c] + y;
    assert OccursAt(s, [c], |x|);
    forall j | 0 <= j < |x|
      ensures !OccursAt(s, [c], j)
    {
      assert s[j] == x[j];
    }
  }

  lemma IndexOfCharAbsent(x: string, c: char)
    requires c !in x
    ensures IndexOf(x, [c]) == None
  {
    forall j | 0 <= j < |x|
      ensures !OccursAt(x, [c], j)
    {
      assert x[j..j + 1] == [x[j]];
    }
  }

  /** Splitting undoes joining when no piece holds the one-character separator. */
  lemma {:induction false} JoinSplitChar(parts: seq<string>, c: char)
    requires |parts| >= 1
    requires forall k :: 0 <= k < |parts| ==> c !in parts[k]
    ensures Split(Join(parts, [c]), [c]) == parts
  {
    if |parts| == 1 {
      IndexOfCharAbsent(parts[0], c);
    } else {
      JoinSplitChar(parts[1..], c);
      JoinSplitCharStep(parts[0], parts[1..], c);
      assert parts == [parts[0]] + parts[1..];
    }
  }

  /** One step of `JoinSplitChar`: a separator-free head comes back first. */
  lemma JoinSplitCharStep(head: string, tail: seq<string>, c: char)
    requires |tail| >= 1 && c !in head
    requires Split(Join(tail, [c]), [c]) == tail
    ensures Split(Join([head] + tail, [c]), [c]) == [head] + tail
  {
    var rest := Join(tail, [c]);
    JoinCons(head, tail, [c]);
    IndexOfCharAfter(head, c, rest);
    SplitAround(head, [c], rest);
  }

  /** Splitting `a + sep + b` where `sep` first occurs after `a`. */
  lemma SplitAround(a: string, sep: string, b: string)
    requires |sep| > 0 && IndexOf(a + sep + b, sep) == Some(|a|)
    ensures Split(a + sep + b, sep) == [a] + Split(b, sep)
  {
    var s := a + sep + b;
    assert s[..|a|] == a;
    assert s[|a| + |sep|..] == b;
    SplitAt(s, sep, |a|);
  }

  /** Replacing one character by another rewrites exactly its occurrences. */
  lemma {:induction false} ReplaceCharPointwise(s: string, c: char, d: char)
    ensures |Replace(s, [c], [d])| == |s|
    ensures forall i :: 0 <= i < |s| ==> Replace(s, [c], [d])[i] == (if s[i] == c then d else s[i])
    decreases |s|
  {
    match IndexOf(s, [c])
    case None =>
      forall i | 0 <= i < |s|
        ensures s[i] != c
      {
        assert !OccursAt(s, [c], i);
        assert s[i..i + 1] == [s[i]];
      }
    case Some(k) =>
      var rest := s[k + 1..];
      ReplaceCharPointwise(rest, c, d);
      var r := Replace(s, [c], [d]);
      assert r == s[..k] + [d] + Replace(rest, [c], [d]);
      forall i | 0 <= i < |s|
        ensures r[i] == (if s[i] == c then d else s[i])
      {
        if i < k {
          assert !OccursAt(s, [c], i);
          assert s[i..i + 1] == [s[i]];
        } else if i == k {
          assert s[k..k + 1] == [c];
        } else {
          assert r[i] == Replace(rest, [c], [d])[i - k - 1];
          assert rest[i - k - 1] == s[i];
        }
      }
  }

  /** Replacing by something no longer never lengthens the string. */
  lemma {:induction false} ReplaceNotLonger(s: string, pat: string, rep: string)
    requires |pat| > 0 && |rep| <= |pat|
    ensures |Replace(s, pat, rep)| <= |s|
    decreases |s|
  {
    match IndexOf(s, pat)
    case None =>
    case Some(i) =>
      ReplaceNotLonger(s[i + |pat|..], pat, rep);
  }
}
