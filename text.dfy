/** Character classes and the small C string helpers the mail server relies on
    (isspace, toupper, stricmp/strnicmp, truncsp, truncstr, SKIP_WHITESPACE,
    strchr/strrchr, atoi and "%u" formatting), stated over `string`.
    A Dafny `char` stands for one byte of a C string. */
module Text {

  datatype Option<T> = None | Some(value: T)

  newtype byte = b: int | 0 <= b < 256

  const NUL: char := 0 as char
  const CR: char := '\r'
  const LF: char := '\n'
  const TAB: char := '\t'
  const CRLF: string := "\r\n"

  lemma Assoc<T>(a: seq<T>, b: seq<T>, c: seq<T>)
    ensures (a + b) + c == a + (b + c)
  {
  }

  lemma Unit<T>(a: seq<T>)
    ensures [] + a == a && a + [] == a
  {
  }

  lemma SplitJoin<T>(s: seq<T>, n: nat)
    requires n <= |s|
    ensures s[..n] + s[n..] == s
  {
  }

  /** C isspace in the "C" locale. */
  predicate IsSpace(c: char) {
    c == ' ' || c == '\t' || c == '\n' || c == '\r' || c == 11 as char || c == 12 as char
  }

  /** The C test `c <= ' '` on a plain `char`. Where `char` is signed (as
      with x86 compilers) the bytes 128..255 are negative and pass the test too. */
  predicate LeSpace(c: char, signedChar: bool) {
    c <= ' ' || (signedChar && c as int >= 128)
  }

  predicate IsDigit(c: char) { '0' <= c <= '9' }

  predicate IsAlpha(c: char) { 'a' <= c <= 'z' || 'A' <= c <= 'Z' }

  predicate IsAlnum(c: char) { IsAlpha(c) || IsDigit(c) }

  predicate IsXDigit(c: char) { IsDigit(c) || 'a' <= c <= 'f' || 'A' <= c <= 'F' }

  function ToUpper(c: char): (u: char)
    ensures 'a' <= c <= 'z' ==> u as int == c as int - 32
    ensures !('a' <= c <= 'z') ==> u == c
  {
    if 'a' <= c <= 'z' then (c as int - 32) as char else c
  }

  function ToLower(c: char): (l: char)
    ensures 'A' <= c <= 'Z' ==> l as int == c as int + 32
    ensures !('A' <= c <= 'Z') ==> l == c
  {
    if 'A' <= c <= 'Z' then (c as int + 32) as char else c
  }

  /** strlwr */
  function Lower(s: string): (r: string)
    ensures |r| == |s|
    ensures forall i :: 0 <= i < |s| ==> r[i] == ToLower(s[i])
  {
    if s == [] then [] else [ToLower(s[0])] + Lower(s[1..])
  }

  lemma LowerIdempotent(s: string)
    ensures Lower(Lower(s)) == Lower(s)
  {
  }

  lemma LowerConcat(a: string, b: string)
    ensures Lower(a + b) == Lower(a) + Lower(b)
  {
    var x, y := Lower(a + b), Lower(a) + Lower(b);
    forall i | 0 <= i < |x|
      ensures x[i] == y[i]
    {
      if i < |a| {
        assert (a + b)[i] == a[i];
      } else {
        assert (a + b)[i] == b[i - |a|];
      }
    }
  }

  /** Lower-casing leaves a string without capitals as it is. */
  lemma LowerKeeps(s: string)
    requires forall k :: 0 <= k < |s| ==> !('A' <= s[k] <= 'Z')
    ensures Lower(s) == s
  {
    assert forall k :: 0 <= k < |s| ==> Lower(s)[k] == s[k];
  }

  /** strupr */
  function Upper(s: string): (r: string)
    ensures |r| == |s|
    ensures forall i :: 0 <= i < |s| ==> r[i] == ToUpper(s[i])
  {
    if s == [] then [] else [ToUpper(s[0])] + Upper(s[1..])
  }

  /** Case is ignored: upper-casing a lower-cased string or the string itself gives the same. */
  lemma UpperLower(s: string)
    ensures Upper(Lower(s)) == Upper(s)
  {
    assert forall i :: 0 <= i < |s| ==> ToUpper(ToLower(s[i])) == ToUpper(s[i]);
  }

  /** stricmp(a, b) == 0 */
  predicate IEq(a: string, b: string) {
    |a| == |b| && forall i :: 0 <= i < |a| ==> ToUpper(a[i]) == ToUpper(b[i])
  }

  lemma IEqUpper(a: string, b: string)
    ensures IEq(a, b) <==> Upper(a) == Upper(b)
  {
    if Upper(a) == Upper(b) {
      assert forall i :: 0 <= i < |a| ==> Upper(a)[i] == Upper(b)[i];
    }
  }

  /** strnicmp(s, p, strlen(p)) == 0: `s` starts with `p`, ignoring case. */
  predicate IPrefix(p: string, s: string) {
    |p| <= |s| && IEq(s[..|p|], p)
  }

  /** The index of the first occurrence of `c`, when there is one (strchr). */
  function IndexOf(s: string, c: char): (r: Option<nat>)
    ensures r.Some? ==> r.value < |s| && s[r.value] == c && forall k :: 0 <= k < r.value ==> s[k] != c
    ensures r.None? ==> forall k :: 0 <= k < |s| ==> s[k] != c
  {
    var i := FirstFrom(s, c, 0);
    if i < |s| then Some(i) else None
  }

  /** The index of the first `c` at or after `i`, or |s|. */
  function FirstFrom(s: string, c: char, i: nat): (n: nat)
    requires i <= |s|
    ensures i <= n <= |s| && (n < |s| ==> s[n] == c)
    ensures forall k :: i <= k < n ==> s[k] != c
    decreases |s| - i
  {
    if i == |s| || s[i] == c then i else FirstFrom(s, c, i + 1)
  }

  /** A concatenation splits back into its parts. */
  lemma SplitAt<T>(a: seq<T>, b: seq<T>)
    ensures (a + b)[..|a|] == a && (a + b)[|a|..] == b
  {
  }

  /** A `c` with no `c` before it is the first one. */
  lemma IndexOfFirst(s: string, c: char, i: nat)
    requires i < |s| && s[i] == c && forall k :: 0 <= k < i ==> s[k] != c
    ensures IndexOf(s, c) == Some(i)
  {
  }

  /** The index of the last occurrence of `c`, when there is one (strrchr). */
  function LastIndexOf(s: string, c: char): (r: Option<nat>)
    ensures r.Some? ==> r.value < |s| && s[r.value] == c && forall k :: r.value < k < |s| ==> s[k] != c
    ensures r.None? ==> forall k :: 0 <= k < |s| ==> s[k] != c
  {
    LastBefore(s, c, |s|)
  }

  /** The index of the last `c` before `n`, when there is one. */
  function LastBefore(s: string, c: char, n: nat): (r: Option<nat>)
    requires n <= |s|
    ensures r.Some? ==> r.value < n && s[r.value] == c && forall k :: r.value < k < n ==> s[k] != c
    ensures r.None? ==> forall k :: 0 <= k < n ==> s[k] != c
  {
    if n == 0 then None
    else if s[n - 1] == c then Some(n - 1)
    else LastBefore(s, c, n - 1)
  }

  /** A `c` with no `c` after it is the last one. */
  lemma LastIndexOfAt(s: string, c: char, i: nat)
    requires i < |s| && s[i] == c && forall k :: i < k < |s| ==> s[k] != c
    ensures LastIndexOf(s, c) == Some(i)
  {
  }

  /** The text after the last `c`, or all of `s` when it has none. */
  function AfterLast(s: string, c: char): (r: string)
    ensures c !in r
    ensures (c in s) ==> |r| < |s|
    ensures (c !in s) ==> r == s
  {
    match LastIndexOf(s, c)
    case None => s
    case Some(i) => s[i + 1..]
  }

  /** truncstr(s, set): cut `s` at the first character that belongs to `set`. */
  function TruncAt(s: string, stops: set<char>): (r: string)
    ensures |r| <= |s| && r == s[..|r|]
    ensures forall k :: 0 <= k < |r| ==> r[k] !in stops
    ensures |r| < |s| ==> s[|r|] in stops
  {
    s[..StopIndex(s, stops)]
  }

  /** The index of the first character of `s` in `stops`, or |s|. */
  function StopIndex(s: string, stops: set<char>): (n: nat)
    ensures n <= |s| && (n == |s| || s[n] in stops)
    ensures forall k :: 0 <= k < n ==> s[k] !in stops
  {
    StopFrom(s, stops, 0)
  }

  /** The index of the first character in `stops` at or after `i`, or |s|. */
  function StopFrom(s: string, stops: set<char>, i: nat): (n: nat)
    requires i <= |s|
    ensures i <= n <= |s| && (n == |s| || s[n] in stops)
    ensures forall k :: i <= k < n ==> s[k] !in stops
    decreases |s| - i
  {
    if i == |s| || s[i] in stops then i else StopFrom(s, stops, i + 1)
  }

  /** A stop character right after a stretch without stops ends the cut there. */
  lemma TruncAtStop(s: string, t: string, stops: set<char>)
    requires forall k :: 0 <= k < |s| ==> s[k] !in stops
    requires t != [] && t[0] in stops
    ensures TruncAt(s + t, stops) == s
  {
    assert (s + t)[|s|] == t[0];
    assert forall k :: 0 <= k < |s| ==> (s + t)[k] == s[k];
    assert (s + t)[..|s|] == s;
  }

  /** A C string ends at the first NUL, whatever follows it. */
  lemma CStrAtNul(s: string, t: string)
    requires NUL !in s
    ensures CStr(s + [NUL] + t) == s
  {
    TruncAtStop(s, [NUL] + t, {NUL});
    assert s + [NUL] + t == s + ([NUL] + t);
  }

  /** Without a stop character nothing is cut. */
  lemma TruncAtNone(s: string, stops: set<char>)
    requires forall k :: 0 <= k < |s| ==> s[k] !in stops
    ensures TruncAt(s, stops) == s
  {
  }

  /** The length of the leading run of white-space. */
  function SpaceRun(s: string): (n: nat)
    ensures n <= |s| && (n == |s| || !IsSpace(s[n]))
    ensures forall k :: 0 <= k < n ==> IsSpace(s[k])
  {
    SpaceFrom(s, 0)
  }

  /** The index of the first non-white-space character at or after `i`, or |s|. */
  function SpaceFrom(s: string, i: nat): (n: nat)
    requires i <= |s|
    ensures i <= n <= |s| && (n == |s| || !IsSpace(s[n]))
    ensures forall k :: i <= k < n ==> IsSpace(s[k])
    decreases |s| - i
  {
    if i == |s| || !IsSpace(s[i]) then i else SpaceFrom(s, i + 1)
  }

  /** SKIP_WHITESPACE */
  function SkipSpace(s: string): (r: string)
    ensures |r| <= |s| && r == s[|s| - |r|..]
    ensures r == [] || !IsSpace(r[0])
    ensures forall k :: 0 <= k < |s| - |r| ==> IsSpace(s[k])
  {
    s[SpaceRun(s)..]
  }

  /** Text that does not start with white-space is not changed. */
  lemma SkipSpaceNone(s: string)
    requires s == [] || !IsSpace(s[0])
    ensures SkipSpace(s) == s
  {
  }

  /** truncsp: drop trailing white-space. */
  function TrimEnd(s: string): (r: string)
    ensures |r| <= |s| && r == s[..|r|]
    ensures r == [] || !IsSpace(r[|r| - 1])
    ensures forall k :: |r| <= k < |s| ==> IsSpace(s[k])
  {
    s[..TrimmedLen(s)]
  }

  /** The length of `s` without its trailing white-space. */
  function TrimmedLen(s: string): (n: nat)
    ensures n <= |s| && (n == 0 || !IsSpace(s[n - 1]))
    ensures forall k :: n <= k < |s| ==> IsSpace(s[k])
  {
    TrimmedBefore(s, |s|)
  }

  /** The end of `s[..n]` without its trailing white-space. */
  function TrimmedBefore(s: string, n: nat): (m: nat)
    requires n <= |s|
    ensures m <= n && (m == 0 || !IsSpace(s[m - 1]))
    ensures forall k :: m <= k < n ==> IsSpace(s[k])
  {
    if n > 0 && IsSpace(s[n - 1]) then TrimmedBefore(s, n - 1) else n
  }

  /** The first `n` characters, or all of them ("%.*s"). */
  function Take(s: string, n: nat): (r: string)
    ensures |r| == if |s| < n then |s| else n
    ensures r == s[..|r|]
  {
    if |s| <= n then s else s[..n]
  }

  lemma TakeAll(s: string, n: nat)
    requires |s| <= n
    ensures Take(s, n) == s
  {
  }

  /** Nothing to trim at the end. */
  lemma TrimEndKeeps(s: string)
    requires s == [] || !IsSpace(s[|s| - 1])
    ensures TrimEnd(s) == s
  {
    assert TrimmedBefore(s, |s|) == |s|;
  }

  /** The characters before the first NUL: what a C string function sees. */
  function CStr(s: string): (r: string)
    ensures NUL !in r
    ensures |r| <= |s| && r == s[..|r|]
    ensures |r| < |s| ==> s[|r|] == NUL
  {
    TruncAt(s, {NUL})
  }

  function DigitValue(c: char): nat
    requires IsDigit(c)
  {
    c as int - '0' as int
  }

  function DigitChar(d: nat): (c: char)
    requires d < 10
    ensures IsDigit(c) && DigitValue(c) == d
  {
    ('0' as int + d) as char
  }

  /** The length of the leading run of decimal digits. */
  function DigitRun(s: string): (n: nat)
    ensures n <= |s|
    ensures forall k :: 0 <= k < n ==> IsDigit(s[k])
    ensures n < |s| ==> !IsDigit(s[n])
  {
    if s != [] && IsDigit(s[0]) then 1 + DigitRun(s[1..]) else 0
  }

  /** The leading decimal digits. */
  function Digits(s: string): (d: string)
    ensures |d| <= |s| && d == s[..|d|]
    ensures forall k :: 0 <= k < |d| ==> IsDigit(d[k])
    ensures |d| < |s| ==> !IsDigit(s[|d|])
  {
    s[..DigitRun(s)]
  }

  /** The value of a string of decimal digits. */
  function DigitsValue(s: string): nat
    requires forall k :: 0 <= k < |s| ==> IsDigit(s[k])
  {
    if s == [] then 0 else 10 * DigitsValue(s[..|s| - 1]) + DigitValue(s[|s| - 1])
  }

  /** C atoi/atol: leading white-space, an optional sign, then decimal digits;
      no digits give 0. (Overflow, undefined in C, is not modelled.) */
  function Atoi(s: string): int {
    var t := SkipSpace(s);
    if t != [] && (t[0] == '-' || t[0] == '+') then
      var d := Digits(t[1..]);
      if t[0] == '-' then -(DigitsValue(d) as int) else DigitsValue(d)
    else
      DigitsValue(Digits(t))
  }

  /** printf("%u", n) */
  function Dec(n: nat): (s: string)
    ensures 1 <= |s|
    ensures forall k :: 0 <= k < |s| ==> IsDigit(s[k])
    decreases n
  {
    if n < 10 then [DigitChar(n)] else Dec(n / 10) + [DigitChar(n % 10)]
  }

  lemma {:induction false} DecValue(n: nat)
    ensures DigitsValue(Dec(n)) == n
    decreases n
  {
    if n >= 10 {
      DecValue(n / 10);
      var s := Dec(n);
      assert s[..|s| - 1] == Dec(n / 10);
    }
  }

  lemma DigitRunAll(s: string, rest: string)
    requires forall k :: 0 <= k < |s| ==> IsDigit(s[k])
    requires rest == [] || !IsDigit(rest[0])
    ensures DigitRun(s + rest) == |s|
    ensures (s + rest)[..|s|] == s
  {
    if s != [] {
      assert (s + rest)[1..] == s[1..] + rest;
      DigitRunAll(s[1..], rest);
    }
  }

  /** Reading back a number printed with "%u" gives the number: atoi(Dec(n)) == n,
      also when a non-digit follows it. */
  lemma {:induction false} AtoiDec(n: nat, rest: string)
    requires rest == [] || !IsDigit(rest[0])
    ensures Atoi(Dec(n) + rest) == n
  {
    var s := Dec(n) + rest;
    assert s[0] == Dec(n)[0];
    assert !IsSpace(s[0]) && s[0] != '-' && s[0] != '+';
    SkipSpaceNone(s);
    DigitRunAll(Dec(n), rest);
    DecValue(n);
    assert Digits(s) == Dec(n);
    assert Atoi(s) == DigitsValue(Digits(s));
  }
}
