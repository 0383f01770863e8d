/** The pieces of the C string library that envoy, envoyd and envoy-exec
    rely on, over Dafny strings: strchr, splitting at a separator, printf's
    `%d` and atoi. */
module CText {

  datatype Option<+T> = None | Some(value: T)

  /** A value, or the reason the program gave up. */
  datatype Result<+T, +E> = Ok(value: T) | Err(fault: E)

  /** strcspn(s, {c}) on a string without an embedded NUL: the index of
      the first `c`, or the length when there is none. */
  function FieldEnd(s: string, c: char): (n: nat)
    ensures n <= |s| && (n < |s| ==> s[n] == c)
    decreases |s|
  {
    if s == [] || s[0] == c then 0 else 1 + FieldEnd(s[1..], c)
  }

  /** No `c` comes before the index found. */
  lemma {:induction false} FieldEndSpec(s: string, c: char)
    ensures forall j :: 0 <= j < FieldEnd(s, c) ==> s[j] != c
    decreases |s|
  {
    if s != [] && s[0] != c {
      FieldEndSpec(s[1..], c);
      assert forall j :: 1 <= j < |s| ==> s[j] == s[1..][j - 1];
    }
  }

  /** A prefix free of `c` lies before the first `c`. */
  lemma {:induction false} FieldEndAtLeast(s: string, c: char, n: nat)
    requires n <= |s| && c !in s[..n]
    ensures n <= FieldEnd(s, c)
    decreases n
  {
    if n > 0 {
      assert s[0] in s[..n];
      assert s[1..][..n - 1] == s[..n][1..];
      FieldEndAtLeast(s[1..], c, n - 1);
    }
  }

  /** The first `c` is the one right after a prefix free of it. */
  lemma {:induction false} FieldEndAfter(a: string, c: char, b: string)
    requires c !in a
    ensures FieldEnd(a + [c] + b, c) == |a|
    decreases |a|
  {
    if a != [] {
      assert a[0] in a;
      assert (a + [c] + b)[1..] == a[1..] + [c] + b;
      FieldEndAfter(a[1..], c, b);
    }
  }

  /** strchr on a buffer that may hold NULs: the scan for `c` stops at the
      first NUL, so an occurrence after one is not found. */
  function FindBeforeNul(s: string, c: char): (r: Option<nat>)
    requires c != '\0'
    ensures r.Some? ==> r.value < |s| && s[r.value] == c
    decreases |s|
  {
    if |s| == 0 then None
    else if s[0] == c then Some(0)
    else if s[0] == '\0' then None
    else
      match FindBeforeNul(s[1..], c)
      case None => None
      case Some(i) => Some(i + 1)
  }

  /** The occurrence found is the first one, with no NUL before it; when none
      is found, every occurrence has a NUL somewhere before it. */
  lemma {:induction false} FindBeforeNulFirst(s: string, c: char)
    requires c != '\0'
    ensures FindBeforeNul(s, c).Some? ==>
      forall k :: 0 <= k < FindBeforeNul(s, c).value ==> s[k] != c && s[k] != '\0'
    ensures FindBeforeNul(s, c).None? ==>
      forall k :: 0 <= k < |s| && s[k] == c ==> '\0' in s[..k]
    decreases |s|
  {
    if |s| > 0 && s[0] != c && s[0] != '\0' {
      FindBeforeNulFirst(s[1..], c);
      assert forall k :: 1 <= k < |s| ==> s[..k] == [s[0]] + s[1..][..k - 1];
    }
  }

  /** The scan stops at the first `c` of a string whose prefix holds neither
      `c` nor a NUL. */
  lemma {:induction false} FindBeforeNulAt(a: string, c: char, b: string)
    requires c != '\0' && c !in a && '\0' !in a
    ensures FindBeforeNul(a + [c] + b, c) == Some(|a|)
    decreases |a|
  {
    if a != [] {
      assert (a + [c] + b)[1..] == a[1..] + [c] + b;
      FindBeforeNulAt(a[1..], c, b);
    }
  }

  /** The fields of `s` between occurrences of `sep`, empty ones included. */
  function Split(s: string, sep: char): (r: seq<string>)
    ensures |r| >= 1
    decreases |s|
  {
    var i := FieldEnd(s, sep);
    if i == |s| then [s] else [s[..i]] + Split(s[i + 1..], sep)
  }

  /** No field holds the separator. */
  lemma {:induction false} SplitFields(s: string, sep: char)
    ensures forall k :: 0 <= k < |Split(s, sep)| ==> sep !in Split(s, sep)[k]
    decreases |s|
  {
    var i := FieldEnd(s, sep);
    FieldEndSpec(s, sep);
    if i < |s| {
      SplitFields(s[i + 1..], sep);
      assert forall j :: 0 <= j < i ==> s[..i][j] == s[j];
    } else {
      assert forall j :: 0 <= j < |s| ==> s[j] != sep;
    }
  }

  /** The fields glued back together with `sep` between them. */
  function Join(parts: seq<string>, sep: char): string
    requires |parts| >= 1
  {
    if |parts| == 1 then parts[0] else parts[0] + [sep] + Join(parts[1..], sep)
  }

  /** Splitting loses nothing: joining the fields gives the string back. */
  lemma {:induction false} JoinSplit(s: string, sep: char)
    ensures Join(Split(s, sep), sep) == s
    decreases |s|
  {
    var i := FieldEnd(s, sep);
    if i < |s| {
      var rest := Split(s[i + 1..], sep);
      assert Split(s, sep) == [s[..i]] + rest;
      JoinSplit(s[i + 1..], sep);
      assert Join([s[..i]] + rest, sep) == s[..i] + [sep] + Join(rest, sep);
      assert s == s[..i] + [sep] + s[i + 1..];
    }
  }

  /** A field with no separator in it, followed by a separator, is the first field. */
  lemma SplitCons(a: string, sep: char, b: string)
    requires sep !in a
    ensures Split(a + [sep] + b, sep) == [a] + Split(b, sep)
  {
    var s := a + [sep] + b;
    FieldEndAfter(a, sep, b);
    assert s[..|a|] == a;
    assert s[|a| + 1..] == b;
  }

  /** The first field runs up to the first separator. */
  lemma SplitHead(s: string, sep: char)
    ensures Split(s, sep)[0] == s[..FieldEnd(s, sep)]
  {
    if FieldEnd(s, sep) == |s| {
      assert s[..|s|] == s;
    }
  }

  /** A string without the separator is a single field. */
  lemma SplitNone(s: string, sep: char)
    requires sep !in s
    ensures Split(s, sep) == [s]
  {
    assert forall j :: 0 <= j < |s| ==> s[j] != sep;
  }

  predicate IsDigit(c: char) { '0' <= c <= '9' }

  function DigitChar(d: nat): (c: char)
    requires d < 10
    ensures IsDigit(c)
  {
    (('0' as int) + d) as char
  }

  /** The decimal digits of `n`, most significant first, no leading zero. */
  function Digits(n: nat): (r: string)
    ensures |r| >= 1 && forall k :: 0 <= k < |r| ==> IsDigit(r[k])
    decreases n
  {
    if n < 10 then [DigitChar(n)] else Digits(n / 10) + [DigitChar(n % 10)]
  }

  /** printf's `%d`. */
  function FormatInt(n: int): string
  {
    if n < 0 then "-" + Digits(-n) else Digits(n)
  }

  /** `%d` prints only digits and a leading minus sign. */
  lemma FormatIntChars(n: int)
    ensures forall k :: 0 <= k < |FormatInt(n)| ==> IsDigit(FormatInt(n)[k]) || FormatInt(n)[k] == '-'
  {
    if n < 0 {
      var ds := Digits(-n);
      assert forall k :: 1 <= k < |FormatInt(n)| ==> FormatInt(n)[k] == ds[k - 1];
    }
  }

  /** The number a string of decimal digits denotes. */
  function DigitsValue(ds: string): int
  {
    if |ds| == 0 then 0
    else DigitsValue(ds[..|ds| - 1]) * 10 + (ds[|ds| - 1] as int - '0' as int)
  }

  /** The longest prefix of `s` made of decimal digits. */
  function LeadingDigits(s: string): string
  {
    if |s| > 0 && IsDigit(s[0]) then [s[0]] + LeadingDigits(s[1..]) else []
  }

  /** LeadingDigits is a prefix, all digits, and stops only at a non-digit. */
  lemma {:induction false} LeadingDigitsSpec(s: string)
    ensures LeadingDigits(s) <= s
    ensures forall k :: 0 <= k < |LeadingDigits(s)| ==> IsDigit(LeadingDigits(s)[k])
    ensures |LeadingDigits(s)| < |s| ==> !IsDigit(s[|LeadingDigits(s)|])
    decreases |s|
  {
    if |s| > 0 && IsDigit(s[0]) {
      LeadingDigitsSpec(s[1..]);
    }
  }

  /** isspace in the C locale. */
  predicate IsSpace(c: char)
  {
    c == ' ' || c == '\t' || c == '\n' || c == '\r' || c == 11 as char || c == 12 as char
  }

  function SkipSpaces(s: string): (r: string)
    ensures |r| <= |s| && r == s[|s| - |r|..]
    decreases |s|
  {
    if |s| > 0 && IsSpace(s[0]) then SkipSpaces(s[1..]) else s
  }

  /** atoi: leading white space, an optional sign, then as many digits as
      follow; anything else ends the number. */
  function Atoi(s: string): int
  {
    var t := SkipSpaces(s);
    if |t| > 0 && t[0] == '-' then -(DigitsValue(LeadingDigits(t[1..])) as int)
    else if |t| > 0 && t[0] == '+' then DigitsValue(LeadingDigits(t[1..]))
    else DigitsValue(LeadingDigits(t))
  }

  lemma {:induction false} DigitsValueOfDigits(n: nat)
    ensures DigitsValue(Digits(n)) == n
    decreases n
  {
    if n >= 10 {
      DigitsValueOfDigits(n / 10);
      var ds := Digits(n);
      assert ds[..|ds| - 1] == Digits(n / 10);
    }
  }

  lemma {:induction false} LeadingDigitsOfDigitString(ds: string)
    requires forall k :: 0 <= k < |ds| ==> IsDigit(ds[k])
    ensures LeadingDigits(ds) == ds
    decreases |ds|
  {
    if |ds| > 0 { LeadingDigitsOfDigitString(ds[1..]); }
  }

  /** atoi reads back what `%d` prints: the pid an agent announces is the
      pid the daemon records. */
  lemma AtoiFormatInt(n: int)
    ensures Atoi(FormatInt(n)) == n
  {
    var m: nat := if n < 0 then -n else n;
    DigitsValueOfDigits(m);
    LeadingDigitsOfDigitString(Digits(m));
    var s := FormatInt(n);
    assert !IsSpace(s[0]);
    assert SkipSpaces(s) == s;
    if n < 0 {
      assert s[1..] == Digits(m);
    } else {
      assert s[0] != '-' && s[0] != '+';
    }
  }
}
