/** The parts of System.String, System.IO.Path and decimal formatting that
    the provider relies on, as functions on character sequences. Paths follow
    the Windows conventions of .NET Framework: '\' and '/' separate
    directories, ':' ends a volume name. */
module Paths {

  predicate IsDirectorySeparator(c: char) {
    c == '/' || c == '\\'
  }

  /** A character at which Path.GetFileName stops scanning backwards. */
  predicate IsBoundary(c: char) {
    IsDirectorySeparator(c) || c == ':'
  }

  predicate IsBaseName(s: string) {
    forall i :: 0 <= i < |s| ==> !IsBoundary(s[i])
  }

  predicate EndsWith(s: string, suffix: string) {
    |suffix| <= |s| && s[|s| - |suffix|..] == suffix
  }

  function ToUpperAscii(c: char): char {
    if 'a' <= c <= 'z' then (c as int - 32) as char else c
  }

  /** String.EndsWith with StringComparison.InvariantCultureIgnoreCase,
      restricted to ASCII case folding. */
  predicate EndsWithIgnoreCase(s: string, suffix: string) {
    && |suffix| <= |s|
    && forall i :: 0 <= i < |suffix| ==>
         ToUpperAscii(s[|s| - |suffix| + i]) == ToUpperAscii(suffix[i])
  }

  /** Position of the last boundary character, or -1. */
  function LastBoundary(s: string): (r: int)
    ensures -1 <= r < |s|
    ensures r >= 0 ==> IsBoundary(s[r])
    ensures forall j :: r < j < |s| ==> !IsBoundary(s[j])
  {
    if s == [] then -1
    else if IsBoundary(s[|s| - 1]) then |s| - 1
    else LastBoundary(s[..|s| - 1])
  }

  /** Path.GetFileName: the part of the path after its last boundary. */
  function GetFileName(path: string): (name: string)
    ensures EndsWith(path, name) && IsBaseName(name)
    ensures |name| < |path| ==> IsBoundary(path[|path| - |name| - 1])
  {
    path[LastBoundary(path) + 1..]
  }

  /** Everything in front of GetFileName(path): empty, or ending at a boundary. */
  function DirectoryPart(path: string): (dir: string)
    ensures dir + GetFileName(path) == path
    ensures dir == [] || IsBoundary(dir[|dir| - 1])
  {
    path[..|path| - |GetFileName(path)|]
  }

  lemma {:induction false} GetFileNameAfterBoundary(prefix: string, name: string)
    requires prefix == [] || IsBoundary(prefix[|prefix| - 1])
    requires IsBaseName(name)
    ensures GetFileName(prefix + name) == name
  {
    if name == [] {
      assert prefix + name == prefix;
    } else {
      var init := name[..|name| - 1];
      assert (prefix + name)[..|prefix + name| - 1] == prefix + init;
      GetFileNameAfterBoundary(prefix, init);
      assert init + [name[|name| - 1]] == name;
    }
  }

  /** Path.Combine(dir, name). */
  function Combine(dir: string, name: string): string {
    if name == [] then dir
    else if dir == [] then name
    else if IsDirectorySeparator(name[0]) || (|name| >= 2 && name[1] == ':') then name
    else if IsBoundary(dir[|dir| - 1]) then dir + name
    else dir + "\\" + name
  }

  /** A base name joined to a directory is read back by GetFileName. */
  lemma CombineFileName(dir: string, name: string)
    requires name != [] && IsBaseName(name)
    ensures GetFileName(Combine(dir, name)) == name
    ensures Combine(dir, name) != []
  {
    if dir == [] {
      GetFileNameAfterBoundary([], name);
      assert [] + name == name;
    } else if IsBoundary(dir[|dir| - 1]) {
      GetFileNameAfterBoundary(dir, name);
    } else {
      assert !IsDirectorySeparator(name[0]) && !(|name| >= 2 && name[1] == ':') by {
        assert !IsBoundary(name[0]);
        assert |name| >= 2 ==> !IsBoundary(name[1]);
      }
      GetFileNameAfterBoundary(dir + "\\", name);
      assert dir + "\\" + name == (dir + "\\") + name;
    }
  }

  /** Position of the last occurrence of c, or -1. */
  function LastIndexOf(s: string, c: char): (r: int)
    ensures -1 <= r < |s|
    ensures r >= 0 ==> s[r] == c
    ensures forall j :: r < j < |s| ==> s[j] != c
  {
    if s == [] then -1
    else if s[|s| - 1] == c then |s| - 1
    else LastIndexOf(s[..|s| - 1], c)
  }

  /** Path.GetExtension: from the last '.' of the file name, unless that '.' ends it. */
  function GetExtension(path: string): string {
    var name := GetFileName(path);
    var dot := LastIndexOf(name, '.');
    if dot < 0 || dot == |name| - 1 then [] else name[dot..]
  }

  /** Path.GetFileNameWithoutExtension: the file name up to its last '.'. */
  function GetFileNameWithoutExtension(path: string): string {
    var name := GetFileName(path);
    var dot := LastIndexOf(name, '.');
    if dot < 0 then name else name[..dot]
  }

  /** String.Replace(pattern, replacement): every non-overlapping occurrence of
      pattern, scanning from the left, is replaced. */
  function ReplaceAll(s: string, pattern: string, replacement: string): string
    requires pattern != []
    decreases |s|
  {
    if |s| < |pattern| then s
    else if s[..|pattern|] == pattern then replacement + ReplaceAll(s[|pattern|..], pattern, replacement)
    else [s[0]] + ReplaceAll(s[1..], pattern, replacement)
  }

  predicate OccursAt(s: string, pattern: string, i: nat) {
    i + |pattern| <= |s| && s[i..i + |pattern|] == pattern
  }

  /** A string in which the pattern does not occur is left as it is. */
  lemma {:induction false} ReplaceAbsent(s: string, pattern: string, replacement: string)
    requires pattern != []
    requires forall i: nat :: !OccursAt(s, pattern, i)
    ensures ReplaceAll(s, pattern, replacement) == s
    decreases |s|
  {
    if |s| >= |pattern| {
      assert !OccursAt(s, pattern, 0);
      forall i: nat ensures !OccursAt(s[1..], pattern, i) {
        assert !OccursAt(s, pattern, i + 1);
        if i + |pattern| <= |s[1..]| {
          assert s[1..][i..i + |pattern|] == s[i + 1..i + 1 + |pattern|];
        }
      }
      ReplaceAbsent(s[1..], pattern, replacement);
      assert [s[0]] + s[1..] == s;
    }
  }

  /** A whole string equal to the pattern is replaced outright. */
  lemma ReplaceWhole(pattern: string, replacement: string)
    requires pattern != []
    ensures ReplaceAll(pattern, pattern, replacement) == replacement
  {
    assert pattern[|pattern|..] == [];
    assert ReplaceAll([], pattern, replacement) == [];
  }

  lemma ReplaceAtMatch(s: string, pattern: string, replacement: string)
    requires pattern != [] && OccursAt(s, pattern, 0)
    ensures ReplaceAll(s, pattern, replacement)
         == replacement + ReplaceAll(s[|pattern|..], pattern, replacement)
  {
  }

  lemma ReplaceAtMismatch(s: string, pattern: string, replacement: string)
    requires pattern != [] && |pattern| <= |s| && !OccursAt(s, pattern, 0)
    ensures ReplaceAll(s, pattern, replacement) == [s[0]] + ReplaceAll(s[1..], pattern, replacement)
  {
  }

  /** When the head of a string ends with a character the pattern does not
      contain, no occurrence straddles the seam, so the two halves are
      replaced independently. */
  lemma {:induction false} ReplaceSplit(a: string, b: string, pattern: string, replacement: string)
    requires pattern != [] && a != []
    requires forall i :: 0 <= i < |pattern| ==> pattern[i] != a[|a| - 1]
    ensures ReplaceAll(a + b, pattern, replacement)
         == ReplaceAll(a, pattern, replacement) + ReplaceAll(b, pattern, replacement)
    decreases |a|, 1
  {
    if |a + b| < |pattern| {
      assert ReplaceAll(a, pattern, replacement) == a;
      assert ReplaceAll(b, pattern, replacement) == b;
    } else if OccursAt(a + b, pattern, 0) {
      ReplaceSplitAtMatch(a, b, pattern, replacement);
    } else {
      ReplaceSplitAtMismatch(a, b, pattern, replacement);
    }
  }

  lemma {:induction false} ReplaceSplitAtMatch(a: string, b: string, pattern: string, replacement: string)
    requires pattern != [] && a != []
    requires forall i :: 0 <= i < |pattern| ==> pattern[i] != a[|a| - 1]
    requires OccursAt(a + b, pattern, 0)
    ensures ReplaceAll(a + b, pattern, replacement)
         == ReplaceAll(a, pattern, replacement) + ReplaceAll(b, pattern, replacement)
    decreases |a|, 0
  {
    var s, n := a + b, |pattern|;
    MatchInsideHead(a, b, pattern);
    ReplaceAtMatch(s, pattern, replacement);
    ReplaceAtMatch(a, pattern, replacement);
    assert s[n..] == a[n..] + b;
    ReplaceSplit(a[n..], b, pattern, replacement);
  }

  /** A match at the start cannot reach the head's last character, which the
      pattern does not contain, so it lies wholly inside the head. */
  lemma MatchInsideHead(a: string, b: string, pattern: string)
    requires pattern != [] && a != []
    requires forall i :: 0 <= i < |pattern| ==> pattern[i] != a[|a| - 1]
    requires OccursAt(a + b, pattern, 0)
    ensures |pattern| < |a| && OccursAt(a, pattern, 0)
  {
    var s, n := a + b, |pattern|;
    assert forall i :: 0 <= i < n ==> s[i] == pattern[i] by {
      forall i | 0 <= i < n ensures s[i] == pattern[i] { assert s[..n][i] == s[i]; }
    }
    assert s[|a| - 1] == a[|a| - 1];
    assert n < |a|;
    assert a[..n] == s[..n];
  }

  lemma {:induction false} ReplaceSplitAtMismatch(a: string, b: string, pattern: string, replacement: string)
    requires pattern != [] && a != []
    requires forall i :: 0 <= i < |pattern| ==> pattern[i] != a[|a| - 1]
    requires |pattern| <= |a + b| && !OccursAt(a + b, pattern, 0)
    ensures ReplaceAll(a + b, pattern, replacement)
         == ReplaceAll(a, pattern, replacement) + ReplaceAll(b, pattern, replacement)
    decreases |a|, 0
  {
    var s := a + b;
    ReplaceAtMismatch(s, pattern, replacement);
    assert s[1..] == a[1..] + b;
    if |a| == 1 {
      SingleHeadUnchanged(a, pattern, replacement);
      assert a[1..] == [] && s[1..] == b;
    } else {
      LongHeadMismatch(a, b, pattern, replacement);
      ReplaceSplit(a[1..], b, pattern, replacement);
    }
  }

  /** A one-character head the pattern does not contain is left unchanged. */
  lemma SingleHeadUnchanged(a: string, pattern: string, replacement: string)
    requires pattern != [] && |a| == 1
    requires forall i :: 0 <= i < |pattern| ==> pattern[i] != a[|a| - 1]
    ensures ReplaceAll(a, pattern, replacement) == a
  {
    assert pattern[0] != a[0];
    assert |pattern| == 1 ==> a[..|pattern|][0] == a[0];
    assert !OccursAt(a, pattern, 0);
  }

  /** A longer head that the pattern does not start at loses its first character unchanged. */
  lemma LongHeadMismatch(a: string, b: string, pattern: string, replacement: string)
    requires pattern != [] && |a| > 1
    requires |pattern| <= |a + b| && !OccursAt(a + b, pattern, 0)
    ensures ReplaceAll(a, pattern, replacement) == [a[0]] + ReplaceAll(a[1..], pattern, replacement)
  {
    var s, n := a + b, |pattern|;
    if n <= |a| {
      assert a[..n] == s[..n];
      ReplaceAtMismatch(a, pattern, replacement);
    } else {
      assert ReplaceAll(a, pattern, replacement) == a;
      assert ReplaceAll(a[1..], pattern, replacement) == a[1..];
    }
  }

  // ---- decimal formatting of non-negative integers ----

  predicate IsDigit(c: char) {
    '0' <= c <= '9'
  }

  predicate IsDigits(s: string) {
    forall i :: 0 <= i < |s| ==> IsDigit(s[i])
  }

  function DigitChar(d: nat): (c: char)
    requires d < 10
    ensures IsDigit(c)
  {
    (48 + d) as char
  }

  /** Int32.ToString() for a non-negative value. */
  function NatToString(n: nat): (s: string)
    ensures s != [] && IsDigits(s)
    decreases n
  {
    if n < 10 then [DigitChar(n)] else NatToString(n / 10) + [DigitChar(n % 10)]
  }

  /** The value of a string of decimal digits (leading zeros allowed). */
  function ParseNat(s: string): nat
    requires IsDigits(s)
  {
    if s == [] then 0 else ParseNat(s[..|s| - 1]) * 10 + (s[|s| - 1] as int - 48)
  }

  lemma {:induction false} ParseNatToString(n: nat)
    ensures ParseNat(NatToString(n)) == n
    decreases n
  {
    if n >= 10 {
      var s := NatToString(n);
      assert s[..|s| - 1] == NatToString(n / 10);
      ParseNatToString(n / 10);
    }
  }

  function Pow10(k: nat): (r: nat)
    ensures r >= 1
  {
    if k == 0 then 1 else 10 * Pow10(k - 1)
  }

  /** A number at least 10^k takes more than k digits. */
  lemma {:induction false} NatToStringLength(n: nat, k: nat)
    requires n >= Pow10(k)
    ensures |NatToString(n)| > k
    decreases k
  {
    if k > 0 {
      assert n >= 10;
      assert n / 10 >= Pow10(k - 1);
      NatToStringLength(n / 10, k - 1);
    }
  }
}
