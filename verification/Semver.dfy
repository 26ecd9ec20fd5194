/** Versions and their precedence, sections 9 to 11 of SemVer 2.0.0. */
module Semver {
  import opened Text

  datatype Identifier = Numeric(value: nat) | Alphanumeric(text: string)

  /** A parsed version. `original` is the text it was parsed from, build metadata included. */
  datatype Version = Version(major: nat, minor: nat, patch: nat, pre: seq<Identifier>, original: string)

  // ---------- three-way comparison ----------

  /** cmp is negative, zero or positive, zero only on equal arguments, and orders them. */
  ghost predicate TotalOrder<T(!new)>(cmp: (T, T) -> int) {
    && (forall a, b :: cmp(a, b) == -cmp(b, a))
    && (forall a, b :: cmp(a, b) == 0 <==> a == b)
    && (forall a, b, c :: cmp(a, b) < 0 && cmp(b, c) < 0 ==> cmp(a, c) < 0)
  }

  function CompareInt(a: int, b: int): int {
    if a < b then -1 else if a > b then 1 else 0
  }

  function CompareChar(a: char, b: char): int {
    if a < b then -1 else if a > b then 1 else 0
  }

  /** Field by field from the left; of two sequences that agree the longer one is higher. */
  function CompareSeq<T>(cmp: (T, T) -> int, a: seq<T>, b: seq<T>): int {
    if a == [] || b == [] then CompareInt(|a|, |b|)
    else if cmp(a[0], b[0]) != 0 then cmp(a[0], b[0])
    else CompareSeq(cmp, a[1..], b[1..])
  }

  function CompareText(a: string, b: string): int {
    CompareSeq(CompareChar, a, b)
  }

  function CompareIdentifier(a: Identifier, b: Identifier): int {
    match (a, b)
    case (Numeric(m), Numeric(n)) => CompareInt(m, n)
    case (Numeric(_), Alphanumeric(_)) => -1
    case (Alphanumeric(_), Numeric(_)) => 1
    case (Alphanumeric(s), Alphanumeric(t)) => CompareText(s, t)
  }

  /** A version without pre-release is above every version with one. */
  function ComparePre(a: seq<Identifier>, b: seq<Identifier>): int {
    if a == [] && b == [] then 0
    else if a == [] then 1
    else if b == [] then -1
    else CompareSeq(CompareIdentifier, a, b)
  }

  function Compare(v: Version, w: Version): int {
    if v.major != w.major then CompareInt(v.major, w.major)
    else if v.minor != w.minor then CompareInt(v.minor, w.minor)
    else if v.patch != w.patch then CompareInt(v.patch, w.patch)
    else ComparePre(v.pre, w.pre)
  }

  predicate Less(v: Version, w: Version) { Compare(v, w) < 0 }

  predicate Same(v: Version, w: Version) { Compare(v, w) == 0 }

  // ---------- the comparison is an order ----------

  lemma {:induction false} CompareSeqMirror<T(!new)>(cmp: (T, T) -> int, a: seq<T>, b: seq<T>)
    requires TotalOrder(cmp)
    ensures CompareSeq(cmp, a, b) == -CompareSeq(cmp, b, a)
    ensures CompareSeq(cmp, a, b) == 0 <==> a == b
  {
    if a == [] || b == [] {
    } else {
      assert a == [a[0]] + a[1..] && b == [b[0]] + b[1..];
      CompareSeqMirror(cmp, a[1..], b[1..]);
    }
  }

  lemma {:induction false} CompareSeqTransitive<T(!new)>(cmp: (T, T) -> int, a: seq<T>, b: seq<T>, c: seq<T>)
    requires TotalOrder(cmp)
    requires CompareSeq(cmp, a, b) < 0 && CompareSeq(cmp, b, c) < 0
    ensures CompareSeq(cmp, a, c) < 0
  {
    if a != [] && b != [] && c != [] {
      if cmp(a[0], b[0]) == 0 && cmp(b[0], c[0]) == 0 {
        CompareSeqTransitive(cmp, a[1..], b[1..], c[1..]);
      }
    }
  }

  lemma CompareSeqTotal<T(!new)>(cmp: (T, T) -> int)
    requires TotalOrder(cmp)
    ensures TotalOrder((a, b) => CompareSeq(cmp, a, b))
  {
    forall a, b {
      CompareSeqMirror(cmp, a, b);
    }
    forall a, b, c | CompareSeq(cmp, a, b) < 0 && CompareSeq(cmp, b, c) < 0
      ensures CompareSeq(cmp, a, c) < 0
    {
      CompareSeqTransitive(cmp, a, b, c);
    }
  }

  /** Go's order of strings. */
  predicate TextLess(a: string, b: string) { CompareText(a, b) < 0 }

  lemma TextLessIsStrictWeak()
    ensures forall a :: !TextLess(a, a)
    ensures forall a, b, c :: TextLess(a, b) && TextLess(b, c) ==> TextLess(a, c)
    ensures forall a, b, c :: TextLess(a, c) ==> TextLess(a, b) || TextLess(b, c)
  {
    forall a: string, b: string
      ensures CompareText(a, b) == -CompareText(b, a)
      ensures CompareText(a, b) == 0 <==> a == b
    {
      CompareSeqMirror(CompareChar, a, b);
    }
    forall a, b, c | TextLess(a, b) && TextLess(b, c)
      ensures TextLess(a, c)
    {
      CompareSeqTransitive(CompareChar, a, b, c);
    }
    forall a, b, c | TextLess(a, c)
      ensures TextLess(a, b) || TextLess(b, c)
    {
      if !TextLess(a, b) && TextLess(b, a) {
        CompareSeqTransitive(CompareChar, b, a, c);
      }
    }
  }

  lemma IdentifierTotal()
    ensures TotalOrder(CompareIdentifier)
  {
    CompareSeqTotal(CompareChar);
    forall a, b
      ensures CompareIdentifier(a, b) == -CompareIdentifier(b, a)
      ensures CompareIdentifier(a, b) == 0 <==> a == b
    {
      if a.Alphanumeric? && b.Alphanumeric? {
        CompareSeqMirror(CompareChar, a.text, b.text);
      }
    }
    forall a, b, c | CompareIdentifier(a, b) < 0 && CompareIdentifier(b, c) < 0
      ensures CompareIdentifier(a, c) < 0
    {
      if a.Alphanumeric? && b.Alphanumeric? && c.Alphanumeric? {
        CompareSeqTransitive(CompareChar, a.text, b.text, c.text);
      }
    }
  }

  lemma PreTotal()
    ensures TotalOrder(ComparePre)
  {
    IdentifierTotal();
    forall a, b
      ensures ComparePre(a, b) == -ComparePre(b, a)
      ensures ComparePre(a, b) == 0 <==> a == b
    {
      CompareSeqMirror(CompareIdentifier, a, b);
    }
    forall a, b, c | ComparePre(a, b) < 0 && ComparePre(b, c) < 0
      ensures ComparePre(a, c) < 0
    {
      if a != [] && b != [] && c != [] {
        CompareSeqTransitive(CompareIdentifier, a, b, c);
      }
    }
  }

  /** Versions of equal precedence differ in nothing but their text (build metadata, a leading v). */
  lemma SameMeansSameFields(v: Version, w: Version)
    ensures Same(v, w) <==> v.(original := "") == w.(original := "")
  {
    PreTotal();
    assert ComparePre(v.pre, w.pre) == 0 <==> v.pre == w.pre;
  }

  lemma CompareMirror(v: Version, w: Version)
    ensures Compare(v, w) == -Compare(w, v)
  {
    PreTotal();
    assert ComparePre(v.pre, w.pre) == -ComparePre(w.pre, v.pre);
  }

  lemma CompareTransitive(u: Version, v: Version, w: Version)
    requires Compare(u, v) <= 0 && Compare(v, w) <= 0
    ensures Compare(u, w) <= 0
    ensures Less(u, v) || Less(v, w) ==> Less(u, w)
  {
    PreTotal();
    assert ComparePre(u.pre, v.pre) == 0 ==> u.pre == v.pre;
    assert ComparePre(v.pre, w.pre) == 0 ==> v.pre == w.pre;
  }

  /** Precedence is a strict weak order, whose ties are exactly the versions of equal precedence. */
  lemma PrecedenceIsStrictWeak()
    ensures forall v :: !Less(v, v)
    ensures forall u, v, w :: Less(u, v) && Less(v, w) ==> Less(u, w)
    ensures forall u, v, w :: Less(u, w) ==> Less(u, v) || Less(v, w)
    ensures forall v, w :: Same(v, w) <==> !Less(v, w) && !Less(w, v)
  {
    forall v, w
      ensures Compare(v, w) == -Compare(w, v)
    {
      CompareMirror(v, w);
    }
    forall u, v, w
      ensures Less(u, v) && Less(v, w) ==> Less(u, w)
    {
      if Less(u, v) && Less(v, w) {
        CompareTransitive(u, v, w);
      }
    }
    forall u, v, w
      ensures Less(u, w) ==> Less(u, v) || Less(v, w)
    {
      if !Less(u, v) && !Less(v, w) {
        CompareMirror(u, v);
        CompareMirror(v, w);
        CompareMirror(u, w);
        CompareTransitive(w, v, u);
      }
    }
  }

  // ---------- what the comparison means ----------

  /** a and b first differ at k, and a is smaller there. */
  ghost predicate SmallerAt<T>(cmp: (T, T) -> int, a: seq<T>, b: seq<T>, k: nat) {
    k < |a| && k < |b| && a[..k] == b[..k] && cmp(a[k], b[k]) < 0
  }

  lemma SmallerBehind<T>(cmp: (T, T) -> int, head: T, a: seq<T>, b: seq<T>, k: nat)
    ensures SmallerAt(cmp, [head] + a, [head] + b, k + 1) <==> SmallerAt(cmp, a, b, k)
  {
    if k < |a| && k < |b| {
      assert ([head] + a)[..k + 1] == [head] + a[..k] && ([head] + b)[..k + 1] == [head] + b[..k];
      assert ([head] + a[..k])[1..] == a[..k] && ([head] + b[..k])[1..] == b[..k];
    }
  }

  /** The shorter sequence in front of the longer one, or by the first difference. */
  lemma {:induction false} CompareSeqMeans<T(!new)>(cmp: (T, T) -> int, a: seq<T>, b: seq<T>)
    requires TotalOrder(cmp)
    ensures CompareSeq(cmp, a, b) < 0 <==> a < b || exists k: nat :: SmallerAt(cmp, a, b, k)
  {
    if a == [] || b == [] {
    } else if a[0] != b[0] {
      assert SmallerAt(cmp, a, b, 0) <==> cmp(a[0], b[0]) < 0;
      assert forall k: nat | 0 < k < |a| && k < |b| :: a[..k][0] == a[0] && b[..k][0] == b[0];
    } else {
      var head, s, t := a[0], a[1..], b[1..];
      assert a == [head] + s && b == [head] + t;
      CompareSeqMeans(cmp, s, t);
      assert !SmallerAt(cmp, a, b, 0);
      if k: nat :| SmallerAt(cmp, a, b, k) {
        SmallerBehind(cmp, head, s, t, k - 1);
        assert SmallerAt(cmp, s, t, k - 1);
      }
      if k: nat :| SmallerAt(cmp, s, t, k) {
        SmallerBehind(cmp, head, s, t, k);
        assert SmallerAt(cmp, a, b, k + 1);
      }
    }
  }

  /** A text is less than another if it is in front of it as a proper prefix, or smaller at the first difference. */
  lemma TextLessMeans(a: string, b: string)
    ensures TextLess(a, b) <==> a < b || exists k | 0 <= k < |a| && k < |b| :: a[..k] == b[..k] && a[k] < b[k]
  {
    CompareSeqMeans(CompareChar, a, b);
    if k :| 0 <= k < |a| && k < |b| && a[..k] == b[..k] && a[k] < b[k] {
      assert SmallerAt(CompareChar, a, b, k);
    }
  }

  /** Numeric identifiers by value and below alphanumeric ones, those as texts. */
  predicate Precedes(a: Identifier, b: Identifier) {
    match (a, b)
    case (Numeric(m), Numeric(n)) => m < n
    case (Numeric(_), Alphanumeric(_)) => true
    case (Alphanumeric(_), Numeric(_)) => false
    case (Alphanumeric(s), Alphanumeric(t)) => TextLess(s, t)
  }

  lemma PreMeans(a: seq<Identifier>, b: seq<Identifier>)
    ensures ComparePre(a, b) < 0 <==>
      && a != []
      && (b == [] || a < b || exists k | 0 <= k < |a| && k < |b| :: a[..k] == b[..k] && Precedes(a[k], b[k]))
  {
    IdentifierTotal();
    CompareSeqMeans(CompareIdentifier, a, b);
    if k :| 0 <= k < |a| && k < |b| && a[..k] == b[..k] && Precedes(a[k], b[k]) {
      assert SmallerAt(CompareIdentifier, a, b, k);
    }
  }

  /** Section 11: major, minor and patch in this order and as numbers; with equal numbers a pre-release is below the release,
      and pre-releases go by the first identifiers that differ, or the shorter one is below. */
  lemma PrecedenceMeans(v: Version, w: Version)
    ensures Less(v, w) <==>
      || v.major < w.major
      || (v.major == w.major && v.minor < w.minor)
      || (v.major == w.major && v.minor == w.minor && v.patch < w.patch)
      || (&& v.major == w.major && v.minor == w.minor && v.patch == w.patch && v.pre != []
          && (|| w.pre == [] || v.pre < w.pre
              || exists k | 0 <= k < |v.pre| && k < |w.pre| :: v.pre[..k] == w.pre[..k] && Precedes(v.pre[k], w.pre[k])))
  {
    PreMeans(v.pre, w.pre);
  }

  /** Pre-releases whose first difference is in two numeric identifiers go by their values. */
  lemma NumericIdentifiersDecide(v: Version, w: Version, k: nat, m: nat, n: nat)
    requires v.major == w.major && v.minor == w.minor && v.patch == w.patch
    requires k < |v.pre| && k < |w.pre| && v.pre[..k] == w.pre[..k] && v.pre[k] == Numeric(m) && w.pre[k] == Numeric(n)
    requires m < n
    ensures Less(v, w) && !Less(w, v)
  {
    PrecedenceMeans(v, w);
    assert Precedes(v.pre[k], w.pre[k]);
    PrecedenceIsStrictWeak();
  }

  lemma SharedHead(head: Identifier, a: seq<Identifier>, b: seq<Identifier>)
    ensures CompareSeq(CompareIdentifier, [head] + a, [head] + b) == CompareSeq(CompareIdentifier, a, b)
  {
    IdentifierTotal();
    assert ([head] + a)[1..] == a && ([head] + b)[1..] == b;
  }

  /** The chain of section 11.4 of SemVer 2.0.0:
      alpha < alpha.1 < alpha.beta < beta < beta.2 < beta.11 < rc.1 < release. */
  lemma SectionElevenChain(v: Version)
    requires v.pre == []
    ensures
      var alpha, beta := Alphanumeric("alpha"), Alphanumeric("beta");
      && Less(v.(pre := [alpha]), v.(pre := [alpha, Numeric(1)]))
      && Less(v.(pre := [alpha, Numeric(1)]), v.(pre := [alpha, beta]))
      && Less(v.(pre := [alpha, beta]), v.(pre := [beta]))
      && Less(v.(pre := [beta]), v.(pre := [beta, Numeric(2)]))
      && Less(v.(pre := [beta, Numeric(2)]), v.(pre := [beta, Numeric(11)]))
      && Less(v.(pre := [beta, Numeric(11)]), v.(pre := [Alphanumeric("rc"), Numeric(1)]))
      && Less(v.(pre := [Alphanumeric("rc"), Numeric(1)]), v)
  {
    IdentifierTotal();
    var alpha, beta := Alphanumeric("alpha"), Alphanumeric("beta");
    assert CompareIdentifier(alpha, alpha) == 0 && CompareIdentifier(beta, beta) == 0;
    assert CompareIdentifier(alpha, beta) < 0 && CompareIdentifier(beta, Alphanumeric("rc")) < 0;
    SharedHead(alpha, [], [Numeric(1)]);
    SharedHead(alpha, [Numeric(1)], [beta]);
    SharedHead(beta, [], [Numeric(2)]);
    SharedHead(beta, [Numeric(2)], [Numeric(11)]);
  }

  // ---------- nightlies ----------

  function IdentifierText(i: Identifier): string {
    match i
    case Numeric(n) => Dec(n)
    case Alphanumeric(s) => s
  }

  /** The pre-release part as text, identifiers joined by dots. */
  function Prerelease(v: Version): string {
    Join(seq(|v.pre|, i requires 0 <= i < |v.pre| => IdentifierText(v.pre[i])), ".")
  }

  /** The test the bucketing uses. */
  predicate PreIsNightly(v: Version) { Contains(Prerelease(v), "nightly") }

  /** The test the upgrade selectors use. */
  predicate TextIsNightly(v: Version) { Contains(v.original, "nightly") }

  lemma NoLetters(n: nat)
    ensures !Contains(Dec(n), "nightly")
  {
    var s := Dec(n);
    forall i | 0 <= i <= |s|
      ensures !HasPrefix(s[i..], "nightly")
    {
      if |s| - i >= 7 {
        assert s[i..][..7][0] == s[i] && IsDigit(s[i]);
      }
    }
  }

  /** The bucketing finds nightlies by an identifier, the upgrade selectors anywhere in the text. */
  lemma NightlyMeans(v: Version)
    ensures PreIsNightly(v) <==> exists i | 0 <= i < |v.pre| :: v.pre[i].Alphanumeric? && Contains(v.pre[i].text, "nightly")
    ensures TextIsNightly(v) <==> exists a, b :: v.original == a + "nightly" + b
  {
    ContainsMeans(v.original, "nightly");
    var parts := seq(|v.pre|, i requires 0 <= i < |v.pre| => IdentifierText(v.pre[i]));
    JoinContains(parts, '.', "nightly");
    forall i | 0 <= i < |v.pre| && Contains(parts[i], "nightly")
      ensures v.pre[i].Alphanumeric?
    {
      if v.pre[i].Numeric? {
        NoLetters(v.pre[i].value);
      }
    }
    if i :| 0 <= i < |v.pre| && v.pre[i].Alphanumeric? && Contains(v.pre[i].text, "nightly") {
      assert Contains(parts[i], "nightly");
    }
  }
}
