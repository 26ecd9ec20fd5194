/** The string operations of the Go standard library that the models use. */
module Text {
  import opened Seqs

  predicate HasPrefix(s: string, prefix: string) {
    |prefix| <= |s| && s[..|prefix|] == prefix
  }

  predicate Contains(s: string, sub: string) {
    exists i | 0 <= i <= |s| :: HasPrefix(s[i..], sub)
  }

  lemma ContainsMeans(s: string, sub: string)
    ensures Contains(s, sub) <==> exists a, b :: s == a + sub + b
  {
    if i :| 0 <= i <= |s| && HasPrefix(s[i..], sub) {
      var a, b := s[..i], s[i..][|sub|..];
      assert s == a + sub + b;
    }
    if a, b :| s == a + sub + b {
      assert s[|a|..] == sub + b;
      assert HasPrefix(s[|a|..], sub);
    }
  }

  /** What occurs in two texts with c in between and has no c itself occurs in one of them. */
  lemma ContainsAround(x: string, c: char, y: string, sub: string)
    requires sub != "" && c !in sub
    ensures Contains(x + [c] + y, sub) <==> Contains(x, sub) || Contains(y, sub)
  {
    var s := x + [c] + y;
    if i :| 0 <= i <= |s| && HasPrefix(s[i..], sub) {
      assert forall k | 0 <= k < |sub| :: s[i + k] == s[i..][..|sub|][k];
      assert s[|x|] == c && !(i <= |x| < i + |sub|);
      if i < |x| {
        assert x[i..][..|sub|] == s[i..][..|sub|];
      } else {
        assert y[i - |x| - 1..] == s[i..];
      }
    }
    if i :| 0 <= i <= |x| && HasPrefix(x[i..], sub) {
      assert s[i..][..|sub|] == x[i..][..|sub|];
    }
    if i :| 0 <= i <= |y| && HasPrefix(y[i..], sub) {
      assert s[|x| + 1 + i..] == y[i..];
    }
  }

  function Join(parts: seq<string>, separator: string): string {
    if parts == [] then ""
    else if |parts| == 1 then parts[0]
    else Join(parts[..|parts| - 1], separator) + separator + parts[|parts| - 1]
  }

  lemma {:induction false} JoinContains(parts: seq<string>, c: char, sub: string)
    requires sub != "" && c !in sub
    ensures Contains(Join(parts, [c]), sub) <==> exists i | 0 <= i < |parts| :: Contains(parts[i], sub)
  {
    if parts == [] {
    } else if |parts| == 1 {
      assert Join(parts, [c]) == parts[0];
    } else {
      var front, last := parts[..|parts| - 1], parts[|parts| - 1];
      JoinContains(front, c, sub);
      ContainsAround(Join(front, [c]), c, last, sub);
      if i :| 0 <= i < |parts| && Contains(parts[i], sub) {
        assert i < |front| ==> Contains(front[i], sub);
      }
      if i :| 0 <= i < |front| && Contains(front[i], sub) {
        assert Contains(parts[i], sub);
      }
    }
  }

  /** The index of the last c in s, or -1. */
  function LastIndex(s: string, c: char): (k: int)
    ensures -1 <= k < |s|
    ensures k >= 0 ==> s[k] == c
    ensures forall j :: k < j < |s| ==> s[j] != c
  {
    if s == [] then -1
    else if s[|s| - 1] == c then |s| - 1
    else LastIndex(s[..|s| - 1], c)
  }

  // ---------- decimal numbers ----------

  predicate IsDigit(c: char) { '0' <= c <= '9' }

  function Digit(d: nat): (c: char)
    requires d < 10
    ensures IsDigit(c) && c as int - '0' as int == d
  {
    ('0' as int + d) as char
  }

  /** Decimal printing, as by the %d verb. */
  function Dec(n: nat): (s: string)
    ensures s != [] && forall i :: 0 <= i < |s| ==> IsDigit(s[i])
  {
    if n < 10 then [Digit(n)] else Dec(n / 10) + [Digit(n % 10)]
  }

  /** Decimal parsing of a non-empty run of digits. */
  function ParseDec(s: string): Option<nat> {
    if s == [] || !IsDigit(s[|s| - 1]) then None
    else
      var d := s[|s| - 1] as int - '0' as int;
      if |s| == 1 then Some(d)
      else match ParseDec(s[..|s| - 1]) {
        case None => None
        case Some(front) => Some(10 * front + d)
      }
  }

  lemma {:induction false} ParseDecOfDec(n: nat)
    ensures ParseDec(Dec(n)) == Some(n)
  {
    if n >= 10 {
      ParseDecOfDec(n / 10);
      assert Dec(n)[..|Dec(n)| - 1] == Dec(n / 10);
    }
  }

  lemma DecHasNo(n: nat, c: char)
    requires !IsDigit(c)
    ensures c !in Dec(n)
  {
  }
}
