/** System.Version as the manifest uses it: two to four non-negative
    components, compared component by component, where a component that is
    not there (Build or Revision left undefined, which .NET stores as -1)
    ranks below every component that is. */
module Versions {
  import opened Common
  import opened Paths

  const MaxComponent: nat := 0x7FFF_FFFF

  type Version = v: seq<nat> | 2 <= |v| <= 4 && forall i :: 0 <= i < |v| ==> v[i] <= MaxComponent
    witness [0, 0]

  /** Major, Minor, Build, Revision; -1 when undefined. */
  function Component(v: Version, i: nat): int
    requires i < 4
  {
    if i < |v| then v[i] else -1
  }

  /** Version.CompareTo(other) < 0, looking at components i.. only. */
  predicate LessFrom(a: Version, b: Version, i: nat)
    requires i <= 4
    decreases 4 - i
  {
    && i < 4
    && (|| Component(a, i) < Component(b, i)
        || (Component(a, i) == Component(b, i) && LessFrom(a, b, i + 1)))
  }

  /** The operator a < b of System.Version. */
  predicate Less(a: Version, b: Version) {
    LessFrom(a, b, 0)
  }

  /** The operator a < b on references that may be null: null is below every version. */
  predicate OptionLess(a: Option<Version>, b: Option<Version>) {
    match a
    case None => b.Some?
    case Some(x) => b.Some? && Less(x, b.value)
  }

  lemma {:induction false} LessFromIrreflexive(a: Version, i: nat)
    requires i <= 4
    ensures !LessFrom(a, a, i)
    decreases 4 - i
  {
    if i < 4 { LessFromIrreflexive(a, i + 1); }
  }

  lemma {:induction false} LessFromAsymmetric(a: Version, b: Version, i: nat)
    requires i <= 4 && LessFrom(a, b, i)
    ensures !LessFrom(b, a, i)
    decreases 4 - i
  {
    if Component(a, i) == Component(b, i) { LessFromAsymmetric(a, b, i + 1); }
  }

  lemma {:induction false} LessFromTransitive(a: Version, b: Version, c: Version, i: nat)
    requires i <= 4 && LessFrom(a, b, i) && LessFrom(b, c, i)
    ensures LessFrom(a, c, i)
    decreases 4 - i
  {
    if Component(a, i) == Component(b, i) == Component(c, i) {
      LessFromTransitive(a, b, c, i + 1);
    }
  }

  /** Versions whose components agree from i on, and not less either way, agree from i on. */
  lemma {:induction false} LessFromTotal(a: Version, b: Version, i: nat)
    requires i <= 4
    ensures LessFrom(a, b, i) || LessFrom(b, a, i)
         || forall k :: i <= k < 4 ==> Component(a, k) == Component(b, k)
    decreases 4 - i
  {
    if i < 4 && Component(a, i) == Component(b, i) {
      LessFromTotal(a, b, i + 1);
      if forall k :: i + 1 <= k < 4 ==> Component(a, k) == Component(b, k) {
        assert forall k :: i <= k < 4 ==> Component(a, k) == Component(b, k) by {
          forall k | i <= k < 4 ensures Component(a, k) == Component(b, k) {
            if k > i { assert i + 1 <= k; }
          }
        }
      }
    }
  }

  /** The ordering is strict and total: of two different versions exactly one is the lesser. */
  lemma VersionOrder(a: Version, b: Version)
    ensures !Less(a, a)
    ensures Less(a, b) ==> !Less(b, a)
    ensures a == b || Less(a, b) || Less(b, a)
  {
    LessFromIrreflexive(a, 0);
    if Less(a, b) { LessFromAsymmetric(a, b, 0); }
    LessFromTotal(a, b, 0);
    if forall k :: 0 <= k < 4 ==> Component(a, k) == Component(b, k) {
      assert |a| == |b| by {
        assert Component(a, 2) == Component(b, 2) && Component(a, 3) == Component(b, 3);
      }
      forall k | 0 <= k < |a| ensures a[k] == b[k] { assert Component(a, k) == Component(b, k); }
    }
  }

  lemma VersionTransitive(a: Version, b: Version, c: Version)
    requires Less(a, b) && Less(b, c)
    ensures Less(a, c)
  {
    LessFromTransitive(a, b, c, 0);
  }

  /** A version that adds components to another ranks above it ("1.2" < "1.2.0"). */
  lemma {:induction false} ExtensionIsGreater(a: Version, b: Version)
    requires |a| < |b| && a == b[..|a|]
    ensures Less(a, b)
  {
    var n := |a|;
    assert Component(a, n) < Component(b, n);
    assert LessFrom(a, b, n);
    assert forall k :: 0 <= k < n ==> Component(a, k) == Component(b, k) by {
      forall k | 0 <= k < n ensures Component(a, k) == Component(b, k) { assert b[..n][k] == b[k]; }
    }
    var i := n;
    while i > 0
      invariant 0 <= i <= n
      invariant LessFrom(a, b, i)
    {
      i := i - 1;
      assert Component(a, i) == Component(b, i);
    }
  }

  // ---- text form ----

  /** String.Split('.'). */
  function Split(s: string): (parts: seq<string>)
    ensures |parts| >= 1
  {
    if s == [] then [[]]
    else if s[0] == '.' then [[]] + Split(s[1..])
    else
      var rest := Split(s[1..]);
      [[s[0]] + rest[0]] + rest[1..]
  }

  /** String.Join(".", parts). */
  function Join(parts: seq<string>): string
    requires |parts| >= 1
  {
    if |parts| == 1 then parts[0] else parts[0] + "." + Join(parts[1..])
  }

  predicate NoDot(s: string) {
    forall i :: 0 <= i < |s| ==> s[i] != '.'
  }

  lemma {:induction false} SplitPrefix(w: string, rest: string)
    requires NoDot(w)
    ensures Split(w + rest) == [w + Split(rest)[0]] + Split(rest)[1..]
    decreases |w|
  {
    if w != [] {
      assert (w + rest)[1..] == w[1..] + rest;
      SplitPrefix(w[1..], rest);
      assert [w[0]] + (w[1..] + Split(rest)[0]) == w + Split(rest)[0];
    } else {
      var r := Split(rest);
      assert w + rest == rest && w + r[0] == r[0];
      assert [r[0]] + r[1..] == r;
    }
  }

  lemma {:induction false} SplitJoin(parts: seq<string>)
    requires |parts| >= 1
    requires forall i :: 0 <= i < |parts| ==> NoDot(parts[i])
    ensures Split(Join(parts)) == parts
    decreases |parts|
  {
    if |parts| == 1 {
      SplitPrefix(parts[0], []);
      assert parts[0] + [] == parts[0];
    } else {
      var tail := Join(parts[1..]);
      SplitJoin(parts[1..]);
      assert parts[0] + "." + tail == parts[0] + ("." + tail);
      SplitPrefix(parts[0], "." + tail);
      assert ("." + tail)[1..] == tail;
      assert Split("." + tail) == [[]] + parts[1..];
      assert parts[0] + [] == parts[0];
    }
  }

  function FormatComponents(v: seq<nat>): (parts: seq<string>)
    ensures |parts| == |v|
    ensures forall i :: 0 <= i < |v| ==> parts[i] == NatToString(v[i])
  {
    if v == [] then [] else [NatToString(v[0])] + FormatComponents(v[1..])
  }

  /** Version.ToString(): the defined components joined by '.'. */
  function Format(v: Version): string {
    Join(FormatComponents(v))
  }

  /** Int32.Parse of a component: digits only, at most Int32.MaxValue. */
  function ParseComponents(parts: seq<string>): (r: Option<seq<nat>>)
    ensures r.Some? ==> |r.value| == |parts|
    ensures r.Some? ==> forall i :: 0 <= i < |parts| ==> r.value[i] <= MaxComponent
  {
    if parts == [] then Some([])
    else if parts[0] == [] || !IsDigits(parts[0]) || ParseNat(parts[0]) > MaxComponent then None
    else match ParseComponents(parts[1..])
      case None => None
      case Some(rest) => Some([ParseNat(parts[0])] + rest)
  }

  /** new Version(text): two to four dot-separated components, or a failure. */
  function Parse(text: string): Option<Version> {
    var parts := Split(text);
    if |parts| < 2 || |parts| > 4 then None
    else match ParseComponents(parts)
      case None => None
      case Some(v) => Some(v)
  }

  lemma {:induction false} ParseFormattedComponents(v: seq<nat>)
    requires forall i :: 0 <= i < |v| ==> v[i] <= MaxComponent
    ensures ParseComponents(FormatComponents(v)) == Some(v)
    decreases |v|
  {
    if v != [] {
      ParseNatToString(v[0]);
      assert FormatComponents(v)[1..] == FormatComponents(v[1..]);
      ParseFormattedComponents(v[1..]);
      assert [v[0]] + v[1..] == v;
    }
  }

  /** Writing a version to the manifest and parsing it back gives the same version. */
  lemma ParseFormat(v: Version)
    ensures Parse(Format(v)) == Some(v)
  {
    var parts := FormatComponents(v);
    forall i | 0 <= i < |parts| ensures NoDot(parts[i]) {
      assert IsDigits(parts[i]);
    }
    SplitJoin(parts);
    ParseFormattedComponents(v);
  }
}
