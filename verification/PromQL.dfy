/** Bracket validation of PromQL expressions (validatePromQL in pkg/krknai/params_validation.go). */
module PromQL {
  import opened Seqs

  datatype QueryError = EmptyQuery | Unbalanced(closer: char) | Unclosed(opener: char)

  // ---------- white space ----------

  /** White space as unicode.IsSpace has it. */
  predicate IsSpace(c: char) {
    || '\t' <= c <= '\r' || c == ' ' || c == '\U{0085}' || c == '\U{00A0}' || c == '\U{1680}'
    || '\U{2000}' <= c <= '\U{200A}' || c == '\U{2028}' || c == '\U{2029}' || c == '\U{202F}'
    || c == '\U{205F}' || c == '\U{3000}'
  }

  /** The 25 characters with the Unicode property White_Space. */
  lemma IsSpaceMeans(c: char)
    ensures IsSpace(c) <==>
      c as int in {
        0x9, 0xA, 0xB, 0xC, 0xD, 0x20, 0x85, 0xA0, 0x1680, 0x2000, 0x2001, 0x2002, 0x2003, 0x2004, 0x2005, 0x2006, 0x2007,
        0x2008, 0x2009, 0x200A, 0x2028, 0x2029, 0x202F, 0x205F, 0x3000}
  {
  }

  function TrimLeft(s: string): string {
    if s != "" && IsSpace(s[0]) then TrimLeft(s[1..]) else s
  }

  function TrimRight(s: string): string {
    if s != "" && IsSpace(s[|s| - 1]) then TrimRight(s[..|s| - 1]) else s
  }

  function TrimSpace(s: string): string { TrimRight(TrimLeft(s)) }

  // ---------- brackets ----------

  predicate IsOpener(c: char) { c == '(' || c == '[' || c == '{' }

  predicate IsCloser(c: char) { c == ')' || c == ']' || c == '}' }

  function OpenerOf(c: char): char
    requires IsCloser(c)
  {
    if c == ')' then '(' else if c == ']' then '[' else '{'
  }

  function IsBracket(): char -> bool { (c: char) => IsOpener(c) || IsCloser(c) }

  function Brackets(s: string): string { Filter(s, IsBracket()) }

  /** A derivation in the grammar of balanced words: nothing, a balanced word between an opener and its
      closer, or two balanced words one after the other. */
  datatype Derivation = Nothing | Pair(closer: char, inner: Derivation) | Two(first: Derivation, second: Derivation)

  predicate WellFormed(d: Derivation) {
    match d
    case Nothing => true
    case Pair(c, inner) => IsCloser(c) && WellFormed(inner)
    case Two(a, b) => WellFormed(a) && WellFormed(b)
  }

  function Yield(d: Derivation): string
    requires WellFormed(d)
  {
    match d
    case Nothing => ""
    case Pair(c, inner) => [OpenerOf(c)] + Yield(inner) + [c]
    case Two(a, b) => Yield(a) + Yield(b)
  }

  ghost predicate Balanced(w: string) {
    exists d | WellFormed(d) :: Yield(d) == w
  }

  // ---------- the stack ----------

  function Step(stack: string, c: char): Option<string> {
    if IsOpener(c) then Some(stack + [c])
    else if !IsCloser(c) then Some(stack)
    else if stack == "" || stack[|stack| - 1] != OpenerOf(c) then None
    else Some(stack[..|stack| - 1])
  }

  function Run(stack: string, s: string): Option<string>
    decreases s
  {
    if s == "" then Some(stack)
    else match Step(stack, s[0]) {
      case None => None
      case Some(next) => Run(next, s[1..])
    }
  }

  lemma {:induction false} RunConcat(stack: string, s: string, t: string)
    ensures Run(stack, s + t) == match Run(stack, s) { case None => None case Some(next) => Run(next, t) }
    decreases s
  {
    if s == "" {
      assert s + t == t;
    } else {
      assert (s + t)[1..] == s[1..] + t;
      if Step(stack, s[0]).Some? {
        RunConcat(Step(stack, s[0]).value, s[1..], t);
      }
    }
  }

  /** Other runes do nothing. */
  lemma {:induction false} RunIgnoresOthers(stack: string, s: string)
    ensures Run(stack, s) == Run(stack, Brackets(s))
  {
    if s == "" {
    } else {
      var front, c := s[..|s| - 1], s[|s| - 1];
      assert s == front + [c];
      RunIgnoresOthers(stack, front);
      RunConcat(stack, front, [c]);
      RunConcat(stack, Brackets(front), [c]);
      match Run(stack, front) {
        case None =>
        case Some(next) =>
          assert Run(next, [c]) == Step(next, c) by {
            assert [c][1..] == "";
          }
      }
    }
  }

  // ---------- completeness ----------

  /** A balanced word leaves every stack as it was. */
  lemma {:induction false} YieldRuns(stack: string, d: Derivation)
    requires WellFormed(d)
    ensures Run(stack, Yield(d)) == Some(stack)
    decreases d
  {
    match d
    case Nothing =>
    case Pair(c, inner) =>
      var o := OpenerOf(c);
      YieldRuns(stack + [o], inner);
      RunConcat(stack + [o], Yield(inner), [c]);
      assert [c][1..] == "" && (stack + [o])[..|stack|] == stack;
      assert Yield(d)[1..] == Yield(inner) + [c];
    case Two(a, b) =>
      YieldRuns(stack, a);
      YieldRuns(stack, b);
      RunConcat(stack, Yield(a), Yield(b));
  }

  // ---------- soundness ----------

  /** w is a balanced word, then the closer of the top of the stack, and so on down to a last balanced word. */
  ghost predicate Closes(stack: string, w: string) {
    if stack == "" then Balanced(w)
    else exists i | 0 <= i < |w| ::
      && Balanced(w[..i]) && IsCloser(w[i]) && OpenerOf(w[i]) == stack[|stack| - 1]
      && Closes(stack[..|stack| - 1], w[i + 1..])
  }

  lemma BalancedConcat(v: string, w: string)
    requires Balanced(v) && Balanced(w)
    ensures Balanced(v + w)
  {
    var a :| WellFormed(a) && Yield(a) == v;
    var b :| WellFormed(b) && Yield(b) == w;
    assert WellFormed(Two(a, b)) && Yield(Two(a, b)) == v + w;
  }

  lemma BalancedPair(w: string, c: char)
    requires Balanced(w) && IsCloser(c)
    ensures Balanced([OpenerOf(c)] + w + [c])
  {
    var d :| WellFormed(d) && Yield(d) == w;
    assert WellFormed(Pair(c, d));
    assert Yield(Pair(c, d)) == [OpenerOf(c)] + w + [c];
  }

  lemma BalancedNothing()
    ensures Balanced("")
  {
    assert WellFormed(Nothing) && Yield(Nothing) == "";
  }

  lemma ClosesBy(stack: string, w: string, i: nat)
    requires stack != "" && i < |w| && Balanced(w[..i]) && IsCloser(w[i]) && OpenerOf(w[i]) == stack[|stack| - 1]
    requires Closes(stack[..|stack| - 1], w[i + 1..])
    ensures Closes(stack, w)
  {
  }

  lemma ClosesAfter(v: string, stack: string, w: string)
    requires Balanced(v) && Closes(stack, w)
    ensures Closes(stack, v + w)
  {
    if stack == "" {
      BalancedConcat(v, w);
    } else {
      var i :| 0 <= i < |w| && Balanced(w[..i]) && IsCloser(w[i]) && OpenerOf(w[i]) == stack[|stack| - 1]
               && Closes(stack[..|stack| - 1], w[i + 1..]);
      BalancedConcat(v, w[..i]);
      var j := |v| + i;
      assert (v + w)[..j] == v + w[..i] && (v + w)[j] == w[i] && (v + w)[j + 1..] == w[i + 1..];
      ClosesBy(stack, v + w, j);
    }
  }

  lemma Regroup(c: char, w: string, i: nat)
    requires i < |w|
    ensures [c] + w[..i] + [w[i]] + w[i + 1..] == [c] + w
  {
  }

  lemma FirstCloser(stack: string, top: char, w: string) returns (i: nat)
    requires Closes(stack + [top], w)
    ensures i < |w| && Balanced(w[..i]) && IsCloser(w[i]) && OpenerOf(w[i]) == top && Closes(stack, w[i + 1..])
  {
    var more := stack + [top];
    assert more[..|more| - 1] == stack;
    i :| 0 <= i < |w| && Balanced(w[..i]) && IsCloser(w[i]) && OpenerOf(w[i]) == top && Closes(more[..|more| - 1], w[i + 1..]);
  }

  lemma OpenerCloses(stack: string, c: char, w: string)
    requires IsOpener(c) && Closes(stack + [c], w)
    ensures Closes(stack, [c] + w)
  {
    var i := FirstCloser(stack, c, w);
    BalancedPair(w[..i], w[i]);
    ClosesAfter([c] + w[..i] + [w[i]], stack, w[i + 1..]);
    Regroup(c, w, i);
  }

  lemma CloserCloses(stack: string, c: char, w: string)
    requires IsCloser(c) && Closes(stack, w)
    ensures Closes(stack + [OpenerOf(c)], [c] + w)
  {
    BalancedNothing();
    var more, longer := stack + [OpenerOf(c)], [c] + w;
    assert more[..|more| - 1] == stack && longer[..0] == "" && longer[0 + 1..] == w;
  }

  lemma StepCloses(stack: string, c: char, w: string)
    requires IsBracket()(c) && Step(stack, c).Some? && Closes(Step(stack, c).value, w)
    ensures Closes(stack, [c] + w)
  {
    if IsOpener(c) {
      OpenerCloses(stack, c, w);
    } else {
      CloserCloses(Step(stack, c).value, c, w);
      assert Step(stack, c).value + [OpenerOf(c)] == stack;
    }
  }

  /** A word of brackets that empties the stack closes it. */
  lemma {:induction false} EmptiedIsClosed(stack: string, w: string)
    requires forall c | c in w :: IsBracket()(c)
    requires Run(stack, w) == Some("")
    ensures Closes(stack, w)
    decreases w
  {
    if w == "" {
      BalancedNothing();
    } else {
      var c, rest := w[0], w[1..];
      assert w == [c] + rest && c in w;
      var next := Step(stack, c).value;
      EmptiedIsClosed(next, rest);
      StepCloses(stack, c, rest);
    }
  }

  lemma BracketsOnly(s: string)
    ensures forall c | c in Brackets(s) :: IsBracket()(c)
  {
    forall c | c in Brackets(s) {
      FilterMember(s, IsBracket(), c);
    }
  }

  /** The stack ends empty on exactly the balanced words. */
  lemma EmptiedIffBalanced(s: string)
    ensures Run("", s) == Some("") <==> Balanced(Brackets(s))
  {
    RunIgnoresOthers("", s);
    BracketsOnly(s);
    if Balanced(Brackets(s)) {
      var d :| WellFormed(d) && Yield(d) == Brackets(s);
      YieldRuns("", d);
    }
    if Run("", s) == Some("") {
      EmptiedIsClosed("", Brackets(s));
    }
  }

  // ---------- how it fails ----------

  /** Some continuation of w is balanced. */
  ghost predicate Completable(w: string) { exists v :: Balanced(w + v) }

  function CloserOf(c: char): char
    requires IsOpener(c)
  {
    if c == '(' then ')' else if c == '[' then ']' else '}'
  }

  function Closers(stack: string): string
    requires forall c | c in stack :: IsOpener(c)
  {
    if stack == "" then "" else [CloserOf(stack[|stack| - 1])] + Closers(stack[..|stack| - 1])
  }

  lemma {:induction false} ClosersClose(stack: string)
    requires forall c | c in stack :: IsOpener(c)
    ensures Run(stack, Closers(stack)) == Some("")
    ensures forall c | c in Closers(stack) :: IsBracket()(c)
  {
    if stack == "" {
    } else {
      ClosersClose(stack[..|stack| - 1]);
      var closer := CloserOf(stack[|stack| - 1]);
      assert stack[|stack| - 1] in stack;
      assert Step(stack, closer) == Some(stack[..|stack| - 1]);
      assert Closers(stack)[0] == closer && Closers(stack)[1..] == Closers(stack[..|stack| - 1]);
    }
  }

  lemma {:induction false} StackHasOpeners(stack: string, s: string)
    requires forall c | c in stack :: IsOpener(c)
    ensures Run(stack, s).Some? ==> forall c | c in Run(stack, s).value :: IsOpener(c)
    decreases s
  {
    if s != "" && Step(stack, s[0]).Some? {
      StackHasOpeners(Step(stack, s[0]).value, s[1..]);
    }
  }

  /** The stack survives exactly the words that can still be completed. */
  lemma SurvivesIffCompletable(s: string)
    ensures Run("", s).Some? <==> Completable(Brackets(s))
  {
    RunIgnoresOthers("", s);
    var w := Brackets(s);
    StackHasOpeners("", w);
    if Run("", w).Some? {
      var v := Closers(Run("", w).value);
      ClosersClose(Run("", w).value);
      RunConcat("", w, v);
      BracketsOnly(s);
      EmptiedIsClosed("", w + v);
    }
    if v :| Balanced(w + v) {
      var d :| WellFormed(d) && Yield(d) == w + v;
      YieldRuns("", d);
      RunConcat("", w, v);
    }
  }

  // ---------- the validation ----------

  lemma {:induction false} TrimLeftMeans(s: string)
    ensures TrimLeft(s) == "" <==> forall c | c in s :: IsSpace(c)
    ensures Brackets(TrimLeft(s)) == Brackets(s)
  {
    if s == "" {
    } else {
      assert s == [s[0]] + s[1..];
      if IsSpace(s[0]) {
        TrimLeftMeans(s[1..]);
        FilterConcat([s[0]], s[1..], IsBracket());
        assert [s[0]][..0] == "";
      }
    }
  }

  lemma {:induction false} TrimRightMeans(s: string)
    ensures TrimRight(s) == "" <==> forall c | c in s :: IsSpace(c)
    ensures Brackets(TrimRight(s)) == Brackets(s)
  {
    if s == "" {
    } else {
      assert s == s[..|s| - 1] + [s[|s| - 1]];
      if IsSpace(s[|s| - 1]) {
        TrimRightMeans(s[..|s| - 1]);
      }
    }
  }

  lemma {:induction false} TrimLeftStops(s: string)
    ensures TrimLeft(s) != "" ==> !IsSpace(TrimLeft(s)[0])
  {
    if s != "" && IsSpace(s[0]) {
      TrimLeftStops(s[1..]);
    }
  }

  lemma TrimSpaceMeans(s: string)
    ensures TrimSpace(s) == "" <==> forall c | c in s :: IsSpace(c)
    ensures Brackets(TrimSpace(s)) == Brackets(s)
  {
    TrimLeftMeans(s);
    TrimRightMeans(TrimLeft(s));
    if TrimLeft(s) != "" {
      TrimLeftStops(s);
      assert TrimLeft(s)[0] in TrimLeft(s);
    }
  }

  lemma RunOne(stack: string, c: char)
    ensures Run(stack, [c]) == Step(stack, c)
  {
    assert [c][1..] == "";
  }

  lemma PrefixStep(s: string, i: nat, stack: string)
    requires i < |s| && Run("", s[..i]) == Some(stack)
    ensures Run("", s[..i + 1]) == Step(stack, s[i])
    ensures Step(stack, s[i]).None? ==> Run("", s).None?
  {
    assert s[..i + 1] == s[..i] + [s[i]];
    RunConcat("", s[..i], [s[i]]);
    RunOne(stack, s[i]);
    assert s == s[..i + 1] + s[i + 1..];
    RunConcat("", s[..i + 1], s[i + 1..]);
  }

  lemma RunBalanced(stack: string, w: string)
    requires Balanced(w)
    ensures Run(stack, w) == Some(stack)
  {
    var d :| WellFormed(d) && Yield(d) == w;
    YieldRuns(stack, d);
  }

  /** w is cut at an opener with a balanced word behind it, where the stack is as given. */
  ghost predicate CutAt(w: string, i: nat, c: char, stack: string) {
    i < |w| && w[i] == c && Balanced(w[i + 1..]) && Run("", w[..i]) == Some(stack)
  }

  lemma CutBehind(front: string, c: char, i: nat, o: char, j: nat, stack: string, below: string)
    requires IsCloser(c) && CutAt(front, j, OpenerOf(c), stack) && CutAt(front[..j], i, o, below)
    ensures CutAt(front + [c], i, o, below)
  {
    var w := front + [c];
    var inner, last := front[..j][i + 1..], front[j + 1..];
    BalancedPair(last, c);
    BalancedConcat(inner, [OpenerOf(c)] + last + [c]);
    assert w[i + 1..] == inner + ([OpenerOf(c)] + last + [c]);
    assert w[..i] == front[..j][..i];
  }

  lemma CutLast(front: string, c: char, stack: string)
    requires Run("", front) == Some(stack)
    ensures CutAt(front + [c], |front|, c, stack)
  {
    BalancedNothing();
    assert (front + [c])[|front| + 1..] == "" && (front + [c])[..|front|] == front;
  }

  /** The top of the stack is an opener with a balanced word behind it. */
  lemma {:induction false} TopIsOpen(w: string, stack: string) returns (i: nat)
    requires (forall c | c in w :: IsBracket()(c)) && Run("", w) == Some(stack) && stack != ""
    ensures CutAt(w, i, stack[|stack| - 1], stack[..|stack| - 1])
    decreases |w|
  {
    var front, c := w[..|w| - 1], w[|w| - 1];
    assert w == front + [c] && c in w;
    RunConcat("", front, [c]);
    var before := Run("", front).value;
    RunOne(before, c);
    if IsOpener(c) {
      CutLast(front, c, before);
      i := |front|;
      assert stack[..|stack| - 1] == before;
    } else {
      var j := TopIsOpen(front, before);
      i := TopIsOpen(front[..j], stack);
      CutBehind(front, c, i, stack[|stack| - 1], j, stack, stack[..|stack| - 1]);
    }
  }

  /** c is the last opener in w that nothing closes: what is behind it is balanced. */
  ghost predicate LeavesOpen(w: string, c: char) {
    IsOpener(c) && exists i | 0 <= i < |w| :: w[i] == c && Balanced(w[i + 1..])
  }

  lemma Unfinished(s: string, stack: string)
    requires Run("", s) == Some(stack) && stack != ""
    ensures LeavesOpen(Brackets(s), stack[|stack| - 1])
  {
    RunIgnoresOthers("", s);
    BracketsOnly(s);
    StackHasOpeners("", Brackets(s));
    var i := TopIsOpen(Brackets(s), stack);
  }

  /** c is the first closer in w that is wrong: up to it, and not including it, w can be completed. */
  ghost predicate IsWrong(w: string, c: char) {
    exists i | 0 <= i < |w| :: w[i] == c && Completable(w[..i]) && !Completable(w[..i + 1])
  }

  lemma FirstWrong(s: string, i: nat, stack: string)
    requires i < |s| && Run("", s[..i]) == Some(stack) && Step(stack, s[i]).None?
    ensures IsWrong(Brackets(s), s[i])
  {
    var front, back := s[..i], s[i + 1..];
    assert s == front + [s[i]] + back;
    FilterConcat(front + [s[i]], back, IsBracket());
    FilterConcat(front, [s[i]], IsBracket());
    assert [s[i]][..0] == [] && Brackets([s[i]]) == [s[i]];
    SurvivesIffCompletable(front);
    SurvivesIffCompletable(front + [s[i]]);
    RunConcat("", front, [s[i]]);
    RunOne(stack, s[i]);
    var w, k := Brackets(s), |Brackets(front)|;
    assert w == Brackets(front) + [s[i]] + Brackets(back);
    assert w[..k] == Brackets(front) && w[..k + 1] == Brackets(front) + [s[i]] && w[k] == s[i];
  }

  /** A query is accepted if and only if it is not all white space and its brackets are balanced; a closer is
      reported exactly when no continuation could be balanced, an opener when only the end is missing. */
  method ValidatePromQL(query: string) returns (error: Option<QueryError>)
    ensures error.None? <==> !(forall c | c in query :: IsSpace(c)) && Balanced(Brackets(query))
    ensures error == Some(EmptyQuery) <==> forall c | c in query :: IsSpace(c)
    ensures error.Some? && error.value.Unbalanced? <==> !Completable(Brackets(query))
    ensures error.Some? && error.value.Unclosed? <==> Completable(Brackets(query)) && !Balanced(Brackets(query))
    ensures error.Some? && error.value.Unbalanced? ==> IsWrong(Brackets(query), error.value.closer)
    ensures error.Some? && error.value.Unclosed? ==> LeavesOpen(Brackets(query), error.value.opener)
  {
    TrimSpaceMeans(query);
    EmptiedIffBalanced(TrimSpace(query));
    SurvivesIffCompletable(TrimSpace(query));
    var trimmed := TrimSpace(query);
    if trimmed == "" {
      assert Brackets(trimmed) == "";
      return Some(EmptyQuery);
    }
    var stack := "";
    for i := 0 to |trimmed|
      invariant Run("", trimmed[..i]) == Some(stack)
    {
      var r := trimmed[i];
      PrefixStep(trimmed, i, stack);
      if IsOpener(r) {
        stack := stack + [r];
      } else if r == ')' {
        if |stack| == 0 || stack[|stack| - 1] != '(' {
          FirstWrong(trimmed, i, stack);
          return Some(Unbalanced(r));
        }
        stack := stack[..|stack| - 1];
      } else if r == ']' {
        if |stack| == 0 || stack[|stack| - 1] != '[' {
          FirstWrong(trimmed, i, stack);
          return Some(Unbalanced(r));
        }
        stack := stack[..|stack| - 1];
      } else if r == '}' {
        if |stack| == 0 || stack[|stack| - 1] != '{' {
          FirstWrong(trimmed, i, stack);
          return Some(Unbalanced(r));
        }
        stack := stack[..|stack| - 1];
      }
    }
    assert trimmed[..|trimmed|] == trimmed;
    if |stack| > 0 {
      Unfinished(trimmed, stack);
      return Some(Unclosed(stack[|stack| - 1]));
    }
    error := None;
  }
}
