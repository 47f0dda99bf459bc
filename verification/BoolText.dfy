/** Which texts the evaluator accepts, and what they mean: text and formula are related without the evaluator. */
module BoolText {
  import opened Basics
  import opened BoolExpr

  // ----- Texts and formulas

  /** A character that is passed over in front of a list of operands. */
  predicate Skipped(c: char) {
    !StartsOperand(c) && c != '(' && c != ')' && !IsSpace(c)
  }

  ghost predicate Junk(t: string) {
    forall i :: 0 <= i < |t| ==> Skipped(t[i])
  }

  ghost predicate Ampersands(t: string) {
    forall i :: 0 <= i < |t| ==> t[i] == '&'
  }

  /** `t` is an operand without an operator of its own: parentheses stand for `Group`. */
  ghost predicate Unary(t: string, f: Formula)
    decreases f, 0
  {
    match f
    case Const(b) => t == if b then "1" else "0"
    case Var(name) => t == name
    case Not(g) => |t| > 0 && t[0] == '!' && Unary(t[1..], g)
    case Group(g) => |t| > 1 && t[0] == '(' && t[|t| - 1] == ')' && Reads(t[1..|t| - 1], g)
    case And(_, _) => false
    case Or(_, _) => false
  }

  /** Operands with `&` between them. */
  ghost predicate Conj(t: string, f: Formula)
    decreases f, 1
  {
    if f.And? then exists k :: 0 <= k < |t| && t[k] == '&' && Conj(t[..k], f.left) && Conj(t[k + 1..], f.right)
    else Unary(t, f)
  }

  /** Conjunctions with `|` between them. In front of one of several operands, but for the first, any number of `&`
      is passed over. */
  ghost predicate Disj(t: string, f: Formula, first: bool)
    decreases f, 2
  {
    if f.Or? then exists k :: 0 <= k < |t| && t[k] == '|' && Disj(t[..k], f.left, first) && Disj(t[k + 1..], f.right, false)
    else if f.And? && !first then exists k :: 0 <= k <= |t| && Ampersands(t[..k]) && Conj(t[k..], f)
    else Conj(t, f)
  }

  /** `t` is accepted as `f`: the printed form of `f`, but that in front of a list of several operands, at the
      start of the text or of a parenthesis, any characters that can begin no operand are passed over. */
  ghost predicate Reads(t: string, f: Formula)
    decreases f, 3
  {
    if f.And? then exists k :: 0 <= k <= |t| && Junk(t[..k]) && Conj(t[k..], f)
    else if f.Or? then exists k :: 0 <= k <= |t| && Junk(t[..k]) && Disj(t[k..], f, true)
    else Unary(t, f)
  }

  // ----- Parentheses

  function Parity(t: string): int {
    if t == [] then 0 else Parity(t[..|t| - 1]) + Turn(t[|t| - 1])
  }

  function Turn(c: char): int {
    if c == '(' then 1 else if c == ')' then -1 else 0
  }

  lemma {:induction false} ParityAppend(a: string, b: string)
    ensures Parity(a + b) == Parity(a) + Parity(b)
    decreases |b|
  {
    if b == [] {
      assert a + b == a;
    } else {
      var h := b[..|b| - 1];
      ParityAppend(a, h);
      assert (a + b)[..|a + b| - 1] == a + h;
    }
  }

  /** No parenthesis is closed that was not opened, and none is left open. */
  ghost predicate Nested(t: string) {
    Parity(t) == 0 && forall k :: 0 <= k <= |t| ==> Parity(t[..k]) >= 0
  }

  lemma NestedAppend(a: string, b: string)
    requires Nested(a) && Nested(b)
    ensures Nested(a + b)
  {
    ParityAppend(a, b);
    forall k | 0 <= k <= |a + b| ensures Parity((a + b)[..k]) >= 0 {
      if k <= |a| {
        assert (a + b)[..k] == a[..k];
      } else {
        assert (a + b)[..k] == a + b[..k - |a|];
        ParityAppend(a, b[..k - |a|]);
      }
    }
  }

  lemma NestedWrap(a: string)
    requires Nested(a)
    ensures Nested("(" + a + ")")
  {
    var t := "(" + a + ")";
    assert Parity("(") == 1 && Parity(")") == -1 by {
      assert "("[..0] == [] && ")"[..0] == [];
    }
    ParityAppend("(", a);
    ParityAppend("(" + a, ")");
    forall k | 0 <= k <= |t| ensures Parity(t[..k]) >= 0 {
      if k == 0 {
        assert t[..k] == [];
      } else if k <= |a| + 1 {
        assert t[..k] == "(" + a[..k - 1];
        ParityAppend("(", a[..k - 1]);
      } else {
        assert t[..k] == t;
      }
    }
  }

  lemma {:induction false} NestedFlat(t: string)
    requires forall i :: 0 <= i < |t| ==> t[i] != '(' && t[i] != ')'
    ensures Nested(t)
  {
    if t == [] {
      assert t[..0] == [];
    } else {
      var h := t[..|t| - 1];
      NestedFlat(h);
      forall k | 0 <= k <= |t| ensures Parity(t[..k]) >= 0 {
        if k < |t| {
          assert t[..k] == h[..k];
        } else {
          assert t[..k] == t;
        }
      }
    }
  }

  lemma NestedInfix(t: string, k: nat)
    requires k < |t| && (t[k] == '&' || t[k] == '|') && Nested(t[..k]) && Nested(t[k + 1..])
    ensures Nested(t)
  {
    NestedFlat([t[k]]);
    NestedAppend(t[..k], [t[k]]);
    NestedAppend(t[..k] + [t[k]], t[k + 1..]);
    assert t == t[..k] + [t[k]] + t[k + 1..];
  }

  lemma NestedAfter(t: string, k: nat)
    requires k <= |t| && (forall i :: 0 <= i < k ==> t[i] != '(' && t[i] != ')') && Nested(t[k..])
    ensures Nested(t)
  {
    NestedFlat(t[..k]);
    NestedAppend(t[..k], t[k..]);
    assert t == t[..k] + t[k..];
  }

  /** Accepted text is nested, holds no white space and is not empty. */
  ghost predicate Tidy(t: string) {
    Nested(t) && t != [] && forall i :: 0 <= i < |t| ==> !IsSpace(t[i])
  }

  lemma TidyInfix(t: string, k: nat)
    requires k < |t| && (t[k] == '&' || t[k] == '|') && Tidy(t[..k]) && Tidy(t[k + 1..])
    ensures Tidy(t)
  {
    hide Nested;
    NestedInfix(t, k);
    forall i | 0 <= i < |t| ensures !IsSpace(t[i]) {
      if i < k {
        assert t[i] == t[..k][i];
      } else if i > k {
        assert t[i] == t[k + 1..][i - k - 1];
      }
    }
  }

  lemma TidyAfter(t: string, k: nat)
    requires k <= |t| && Junk(t[..k]) && Tidy(t[k..])
    ensures Tidy(t)
  {
    hide Nested;
    forall i | 0 <= i < k ensures Skipped(t[i]) {
      assert t[i] == t[..k][i];
    }
    NestedAfter(t, k);
    forall i | 0 <= i < |t| ensures !IsSpace(t[i]) {
      if i >= k {
        assert t[i] == t[k..][i - k];
      }
    }
  }

  lemma AmpersandsAreJunk(t: string)
    requires Ampersands(t)
    ensures Junk(t)
  {
  }

  lemma {:induction false} UnaryTidy(t: string, f: Formula)
    requires Wf(f) && Unary(t, f)
    ensures Tidy(t)
    decreases f, 0
  {
    hide Nested;
    match f
    case Const(_) => NestedFlat(t);
    case Var(_) => NestedFlat(t);
    case Not(g) =>
      UnaryTidy(t[1..], g);
      TidyBang(t);
    case Group(g) =>
      ReadsTidy(t[1..|t| - 1], g);
      TidyGroup(t);
  }

  lemma TidyBang(t: string)
    requires t != [] && t[0] == '!' && Tidy(t[1..])
    ensures Tidy(t)
  {
    hide Nested;
    NestedAfter(t, 1);
    assert forall i :: 1 <= i < |t| ==> t[i] == t[1..][i - 1];
  }

  lemma TidyGroup(t: string)
    requires |t| > 1 && t[0] == '(' && t[|t| - 1] == ')' && Tidy(t[1..|t| - 1])
    ensures Tidy(t)
  {
    hide Nested;
    var u := t[1..|t| - 1];
    NestedWrap(u);
    assert t == "(" + u + ")";
  }

  lemma {:induction false} ConjTidy(t: string, f: Formula)
    requires Wf(f) && Conj(t, f)
    ensures Tidy(t)
    decreases f, 1
  {
    hide Tidy;
    if f.And? {
      var k :| 0 <= k < |t| && t[k] == '&' && Conj(t[..k], f.left) && Conj(t[k + 1..], f.right);
      ConjTidy(t[..k], f.left);
      ConjTidy(t[k + 1..], f.right);
      TidyInfix(t, k);
    } else {
      UnaryTidy(t, f);
    }
  }

  lemma {:induction false} DisjTidy(t: string, f: Formula, first: bool)
    requires Wf(f) && Disj(t, f, first)
    ensures Tidy(t)
    decreases f, 2
  {
    hide Tidy;
    if f.Or? {
      var k :| 0 <= k < |t| && t[k] == '|' && Disj(t[..k], f.left, first) && Disj(t[k + 1..], f.right, false);
      DisjTidy(t[..k], f.left, first);
      DisjTidy(t[k + 1..], f.right, false);
      TidyInfix(t, k);
    } else if f.And? && !first {
      var k :| 0 <= k <= |t| && Ampersands(t[..k]) && Conj(t[k..], f);
      ConjTidy(t[k..], f);
      AmpersandsAreJunk(t[..k]);
      TidyAfter(t, k);
    } else {
      ConjTidy(t, f);
    }
  }

  lemma {:induction false} ReadsTidy(t: string, f: Formula)
    requires Wf(f) && Reads(t, f)
    ensures Tidy(t)
    decreases f, 3
  {
    hide Tidy;
    if f.And? {
      var k :| 0 <= k <= |t| && Junk(t[..k]) && Conj(t[k..], f);
      ConjTidy(t[k..], f);
      TidyAfter(t, k);
    } else if f.Or? {
      var k :| 0 <= k <= |t| && Junk(t[..k]) && Disj(t[k..], f, true);
      DisjTidy(t[k..], f, true);
      TidyAfter(t, k);
    } else {
      UnaryTidy(t, f);
    }
  }

  // ----- Scanning accepted text

  /** `part` stands at position `i` of `s`. */
  predicate At(s: string, i: nat, part: string) {
    i + |part| <= |s| && s[i..i + |part|] == part
  }

  lemma AtSlice(s: string, i: nat, part: string)
    requires At(s, i, part)
    ensures i + |part| <= |s| && s[i..i + |part|] == part
  {
  }

  lemma AtChar(s: string, i: nat, part: string, k: nat)
    requires At(s, i, part) && k < |part|
    ensures i + k < |s| && s[i + k] == part[k]
  {
    assert s[i..i + |part|][k] == part[k];
  }

  lemma AtPart(s: string, i: nat, part: string, a: nat, b: nat)
    requires At(s, i, part) && a <= b <= |part|
    ensures At(s, i + a, part[a..b])
  {
    var whole := s[i..i + |part|];
    forall k | 0 <= k < b - a ensures s[i + a..i + b][k] == part[a..b][k] {
      assert whole[a + k] == s[i + a + k];
    }
    assert s[i + a..i + b] == part[a..b];
  }

  lemma AtCut(s: string, i: nat, t: string, k: nat)
    requires At(s, i, t) && k < |t|
    ensures At(s, i, t[..k]) && i + k < |s| && s[i + k] == t[k] && At(s, i + k + 1, t[k + 1..])
  {
    AtPart(s, i, t, 0, k);
    AtPart(s, i, t, k + 1, |t|);
    AtChar(s, i, t, k);
    assert t[0..k] == t[..k] && t[k + 1..|t|] == t[k + 1..];
  }

  /** The state after an operand that began at `i`, or had begun at `st.start`. */
  function Begun(st: Scan, i: nat): Scan {
    if st.start == -1 then st.(start := i) else st
  }

  lemma Next(s: string, op: char, i: nat, st: Scan)
    requires i < |s| && ScanTo(s, op, i) == Ok(st)
    ensures st.start <= i
    ensures s[i] == '(' ==> ScanTo(s, op, i + 1) == Ok(Begun(st, i).(parity := st.parity + 1))
    ensures s[i] == ')' ==> ScanTo(s, op, i + 1) == Ok(st.(parity := st.parity - 1))
    ensures StartsOperand(s[i]) && st.start >= 0 ==> ScanTo(s, op, i + 1) == Ok(st)
    ensures StartsOperand(s[i]) && st.parity == 0 ==> ScanTo(s, op, i + 1) == Ok(Begun(st, i))
    ensures st.parity > 0 && s[i] != '(' && s[i] != ')' ==> ScanTo(s, op, i + 1) == Ok(st)
    ensures Skipped(s[i]) && st.parity == 0 && st.start == -1 ==> ScanTo(s, op, i + 1) == Ok(st)
    ensures s[i] == '&' || s[i] == '|' ==>
              ScanTo(s, op, i + 1) ==
                if st.parity == 0 && st.start >= 0 && s[i] == op
                then Ok(st.(parts := st.parts + [s[st.start..i]], start := i + 1)) else Ok(st)
  {
    assert ScanTo(s, op, i + 1) == Step(s, op, i, st);
    hide ScanTo;
  }

  /** Where the parity stays positive, nothing but parentheses is looked at. */
  lemma {:induction false} ScanDeep(s: string, op: char, i: nat, t: string, st: Scan)
    requires At(s, i, t) && ScanTo(s, op, i) == Ok(st) && st.start >= 0
    requires forall k :: 0 <= k < |t| ==> st.parity + Parity(t[..k]) > 0
    ensures i + |t| <= |s| && ScanTo(s, op, i + |t|) == Ok(st.(parity := st.parity + Parity(t)))
    decreases |t|
  {
    hide *;
    AtSlice(s, i, t);
    ParityLast(t);
    if t != [] {
      var n := |t| - 1;
      var h := t[..n];
      AtCut(s, i, t, n);
      forall k | 0 <= k < n ensures st.parity + Parity(h[..k]) > 0 {
        assert h[..k] == t[..k];
      }
      ScanDeep(s, op, i, h, st);
      NextDeep(s, op, i + n, st.(parity := st.parity + Parity(h)));
    }
  }

  lemma ParityLast(t: string)
    ensures if t == [] then Parity(t) == 0 else Parity(t) == Parity(t[..|t| - 1]) + Turn(t[|t| - 1])
  {
  }

  lemma NextDeep(s: string, op: char, i: nat, st: Scan)
    requires i < |s| && ScanTo(s, op, i) == Ok(st) && st.parity > 0 && st.start >= 0
    ensures ScanTo(s, op, i + 1) == Ok(st.(parity := st.parity + Turn(s[i])))
  {
    hide ScanTo;
    Next(s, op, i, st);
  }

  /** A parenthesised text is passed over as one operand. */
  lemma ScanGroup(s: string, op: char, i: nat, t: string, st: Scan)
    requires |t| > 1 && t[0] == '(' && t[|t| - 1] == ')' && Nested(t[1..|t| - 1])
    requires At(s, i, t) && ScanTo(s, op, i) == Ok(st) && st.parity == 0
    ensures i + |t| <= |s| && ScanTo(s, op, i + |t|) == Ok(Begun(st, i))
  {
    hide *;
    var n := |t| - 1;
    var u := t[1..n];
    var inside := Begun(st, i).(parity := 1);
    BegunHas(st, i);
    AtSlice(s, i, t);
    AtChar(s, i, t, 0);
    AtPart(s, i, t, 1, n);
    AtChar(s, i, t, n);
    Next(s, op, i, st);
    ScanInside(s, op, i + 1, u, inside);
    assert i + 1 + |u| == i + n;
    Next(s, op, i + n, inside);
  }

  lemma ScanInside(s: string, op: char, i: nat, u: string, inside: Scan)
    requires Nested(u) && At(s, i, u) && ScanTo(s, op, i) == Ok(inside) && inside.start >= 0 && inside.parity == 1
    ensures i + |u| <= |s| && ScanTo(s, op, i + |u|) == Ok(inside)
  {
    hide *;
    NestedInside(u);
    ScanDeep(s, op, i, u, inside);
  }

  lemma BegunHas(st: Scan, i: nat)
    requires -1 <= st.start <= i
    ensures 0 <= Begun(st, i).start <= i && Begun(st, i).parity == st.parity
  {
  }

  lemma NestedInside(u: string)
    requires Nested(u)
    ensures Parity(u) == 0 && forall k :: 0 <= k < |u| ==> 1 + Parity(u[..k]) > 0
  {
    hide Parity;
  }

  lemma {:induction false} ScanName(s: string, op: char, i: nat, name: string, st: Scan)
    requires name != [] && forall k :: 0 <= k < |name| ==> BelongsToName(name[k])
    requires At(s, i, name) && ScanTo(s, op, i) == Ok(st) && st.parity == 0
    ensures i + |name| <= |s| && ScanTo(s, op, i + |name|) == Ok(Begun(st, i))
    decreases |name|
  {
    var n := |name| - 1;
    AtPart(s, i, name, 0, n);
    AtChar(s, i, name, n);
    assert name[0..n] == name[..n];
    AtSlice(s, i, name);
    hide ScanTo;
    hide At;
    if n == 0 {
      Next(s, op, i, st);
    } else {
      ScanName(s, op, i, name[..n], st);
      Next(s, op, i + n, Begun(st, i));
    }
  }

  lemma {:induction false} ScanUnary(s: string, op: char, i: nat, t: string, f: Formula, st: Scan)
    requires Wf(f) && Unary(t, f) && At(s, i, t) && ScanTo(s, op, i) == Ok(st) && st.parity == 0
    ensures i + |t| <= |s| && ScanTo(s, op, i + |t|) == Ok(Begun(st, i))
    decreases f
  {
    hide *;
    AtSlice(s, i, t);
    UnaryCases(t, f);
    match f
    case Const(_) => ScanName(s, op, i, t, st);
    case Var(_) => ScanName(s, op, i, t, st);
    case Not(g) =>
      AtCut(s, i, t, 0);
      NextBang(s, op, i, st);
      ScanUnary(s, op, i + 1, t[1..], g, Begun(st, i));
    case Group(g) => ScanGroup(s, op, i, t, st);
  }

  lemma UnaryCases(t: string, f: Formula)
    requires Wf(f) && Unary(t, f)
    ensures !f.And? && !f.Or?
    ensures f.Const? || f.Var? ==> t != [] && forall k :: 0 <= k < |t| ==> BelongsToName(t[k])
    ensures f.Not? ==> t != [] && t[0] == '!' && Unary(t[1..], f.f) && Wf(f.f)
    ensures f.Group? ==> |t| > 1 && t[0] == '(' && t[|t| - 1] == ')' && Nested(t[1..|t| - 1])
  {
    hide Nested;
    if f.Group? {
      ReadsTidy(t[1..|t| - 1], f.f);
    }
  }

  lemma NextBang(s: string, op: char, i: nat, st: Scan)
    requires i < |s| && s[i] == '!' && ScanTo(s, op, i) == Ok(st) && st.parity == 0
    ensures ScanTo(s, op, i + 1) == Ok(Begun(st, i)) && Begun(st, i).parity == 0
    ensures forall j :: Begun(Begun(st, i), j) == Begun(st, i)
  {
    hide ScanTo;
    Next(s, op, i, st);
  }

  /** A conjunction is one operand of `|`. */
  lemma {:induction false} ScanConj(s: string, i: nat, t: string, f: Formula, st: Scan)
    requires Wf(f) && Conj(t, f) && At(s, i, t) && ScanTo(s, '|', i) == Ok(st) && st.parity == 0
    ensures i + |t| <= |s| && ScanTo(s, '|', i + |t|) == Ok(Begun(st, i))
    decreases f
  {
    hide ScanTo;
    hide At;
    if f.And? {
      var k :| 0 <= k < |t| && t[k] == '&' && Conj(t[..k], f.left) && Conj(t[k + 1..], f.right);
      AtCut(s, i, t, k);
      ScanConj(s, i, t[..k], f.left, st);
      Next(s, '|', i + k, Begun(st, i));
      ScanConj(s, i + k + 1, t[k + 1..], f.right, Begun(st, i));
    } else {
      ScanUnary(s, '|', i, t, f, st);
    }
  }

  lemma {:induction false} ScanJunk(s: string, op: char, k: nat)
    requires k <= |s| && Junk(s[..k])
    ensures ScanTo(s, op, k) == Ok(Scan(-1, 0, []))
  {
    if k > 0 {
      assert s[..k - 1] == s[..k][..k - 1];
      assert Skipped(s[..k][k - 1]);
      ScanJunk(s, op, k - 1);
      hide ScanTo;
      Next(s, op, k - 1, Scan(-1, 0, []));
    }
  }

  lemma {:induction false} ScanAmpersands(s: string, i: nat, t: string, st: Scan)
    requires Ampersands(t) && At(s, i, t) && ScanTo(s, '|', i) == Ok(st) && st.parity == 0 && st.start >= 0
    ensures i + |t| <= |s| && ScanTo(s, '|', i + |t|) == Ok(st)
    decreases |t|
  {
    if t != [] {
      var n := |t| - 1;
      AtPart(s, i, t, 0, n);
      AtChar(s, i, t, n);
      assert t[0..n] == t[..n];
      hide ScanTo;
      hide At;
      ScanAmpersands(s, i, t[..n], st);
      Next(s, '|', i + n, st);
    }
  }

  // ----- Splitting accepted text

  predicate Node(f: Formula, op: char) {
    (op == '|' && f.Or?) || (op == '&' && f.And?)
  }

  /** `parts` are the texts of the operands that `op` separates in `f`. */
  ghost predicate Listed(parts: seq<string>, f: Formula, op: char, first: bool)
    decreases f
  {
    if Node(f, op) then
      exists m :: 0 < m < |parts| && Listed(parts[..m], f.left, op, first) && Listed(parts[m..], f.right, op, false)
    else |parts| == 1 && if op == '|' then Disj(parts[0], f, first) else Unary(parts[0], f)
  }

  ghost predicate IsList(t: string, f: Formula, op: char, first: bool) {
    (op == '|' && Disj(t, f, first)) || (op == '&' && Conj(t, f))
  }

  lemma ListCases(t: string, f: Formula, op: char, first: bool) returns (k: int)
    requires IsList(t, f, op, first)
    ensures Node(f, op) ==>
              0 <= k < |t| && t[k] == op && IsList(t[..k], f.left, op, first) && IsList(t[k + 1..], f.right, op, false)
  {
    k := 0;
    if op == '|' && f.Or? {
      k :| 0 <= k < |t| && t[k] == '|' && Disj(t[..k], f.left, first) && Disj(t[k + 1..], f.right, false);
    } else if op == '&' && f.And? {
      k :| 0 <= k < |t| && t[k] == '&' && Conj(t[..k], f.left) && Conj(t[k + 1..], f.right);
    }
  }

  /** At the operator the last operand on its left is complete. */
  lemma ScanSeparator(s: string, op: char, mid: nat, done: seq<string>, parts: seq<string>)
    requires (op == '|' || op == '&') && mid < |s| && s[mid] == op && parts != []
    requires var last := parts[|parts| - 1];
             && |last| <= mid && s[mid - |last|..mid] == last
             && ScanTo(s, op, mid) == Ok(Scan(mid - |last|, 0, done + parts[..|parts| - 1]))
    ensures ScanTo(s, op, mid + 1) == Ok(Scan(mid + 1, 0, done + parts))
  {
    var m := |parts| - 1;
    Next(s, op, mid, Scan(mid - |parts[m]|, 0, done + parts[..m]));
    hide ScanTo;
    assert parts[..m] + [parts[m]] == parts;
    assert (done + parts[..m]) + [parts[m]] == done + parts;
  }

  /** An operand that the operator does not divide. */
  lemma ScanOperand(s: string, op: char, i: nat, t: string, f: Formula, first: bool, st: Scan)
    requires Wf(f) && IsList(t, f, op, first) && !Node(f, op)
    requires At(s, i, t) && ScanTo(s, op, i) == Ok(st) && st.parity == 0 && (first || st.start >= 0)
    ensures i + |t| <= |s| && ScanTo(s, op, i + |t|) == Ok(Begun(st, i))
  {
    hide *;
    var k := LeafCases(t, f, op, first);
    if op == '&' {
      ScanUnary(s, op, i, t, f, st);
    } else if f.And? && !first {
      AtPart(s, i, t, 0, k);
      AtPart(s, i, t, k, |t|);
      assert t[0..k] == t[..k] && t[k..|t|] == t[k..];
      ScanAmpersands(s, i, t[..k], st);
      ScanConj(s, i + k, t[k..], f, st);
      BegunAlready(st, i, i + k);
    } else {
      ScanConj(s, i, t, f, st);
    }
  }

  lemma BegunAlready(st: Scan, i: nat, j: nat)
    requires st.start >= 0
    ensures Begun(st, i) == st == Begun(st, j)
  {
  }

  lemma LeafCases(t: string, f: Formula, op: char, first: bool) returns (k: int)
    requires IsList(t, f, op, first) && !Node(f, op)
    ensures op == '|' || op == '&'
    ensures op == '&' ==> Unary(t, f)
    ensures op == '|' && f.And? && !first ==> 0 <= k <= |t| && Ampersands(t[..k]) && Conj(t[k..], f)
    ensures op == '|' && !(f.And? && !first) ==> Conj(t, f)
  {
    k := 0;
    if op == '|' && f.And? && !first {
      k :| 0 <= k <= |t| && Ampersands(t[..k]) && Conj(t[k..], f);
    }
  }

  /** The state after a list: all its operands but the last are complete. */
  ghost predicate Scanned(s: string, op: char, end: nat, done: seq<string>, parts: seq<string>) {
    && parts != [] && end <= |s|
    && var last := parts[|parts| - 1];
       && |last| <= end && s[end - |last|..end] == last
       && ScanTo(s, op, end) == Ok(Scan(end - |last|, 0, done + parts[..|parts| - 1]))
  }

  lemma {:induction false} ScanList(s: string, op: char, i: nat, t: string, f: Formula, first: bool, st: Scan)
    returns (parts: seq<string>)
    requires Wf(f) && IsList(t, f, op, first)
    requires At(s, i, t) && ScanTo(s, op, i) == Ok(st) && st.parity == 0 && st.start == if first then -1 else i
    ensures i + |t| <= |s| && Listed(parts, f, op, first) && Scanned(s, op, i + |t|, st.parts, parts)
    decreases f
  {
    hide *;
    AtSlice(s, i, t);
    if Node(f, op) {
      NodeParts(f, op);
      var k := ListCases(t, f, op, first);
      AtCut(s, i, t, k);
      var lefts := ScanList(s, op, i, t[..k], f.left, first, st);
      SeparatorAfter(s, op, i + k, st.parts, lefts);
      var rights := ScanList(s, op, i + k + 1, t[k + 1..], f.right, false, Scan(i + k + 1, 0, st.parts + lefts));
      parts := lefts + rights;
      ListedJoin(lefts, rights, f, op, first);
      ListedSome(lefts, f.left, op, first);
      ScannedJoin(s, op, i + |t|, st.parts, lefts, rights);
    } else {
      parts := [t];
      ScanOperand(s, op, i, t, f, first, st);
      OneScanned(s, op, i, t, f, first, st);
    }
  }

  /** A node has two operands, each a formula, and its meaning joins theirs. */
  lemma NodeParts(f: Formula, op: char)
    requires Node(f, op)
    ensures (op == '|' || op == '&') && (f.And? || f.Or?)
    ensures Wf(f) ==> Wf(f.left) && Wf(f.right)
    ensures forall vals :: Meaning(f, vals) == Joined(Meaning(f.left, vals), Meaning(f.right, vals), op == '|')
  {
  }

  lemma OneScanned(s: string, op: char, i: nat, t: string, f: Formula, first: bool, st: Scan)
    requires i + |t| <= |s| && s[i..i + |t|] == t && ScanTo(s, op, i + |t|) == Ok(Begun(st, i))
    requires st.parity == 0 && (st.start == -1 || st.start == i) && IsList(t, f, op, first) && !Node(f, op)
    ensures Scanned(s, op, i + |t|, st.parts, [t]) && Listed([t], f, op, first)
  {
    hide ScanTo;
    assert st.parts + [t][..0] == st.parts;
  }

  lemma SeparatorAfter(s: string, op: char, mid: nat, done: seq<string>, parts: seq<string>)
    requires (op == '|' || op == '&') && mid < |s| && s[mid] == op && Scanned(s, op, mid, done, parts)
    ensures ScanTo(s, op, mid + 1) == Ok(Scan(mid + 1, 0, done + parts))
  {
    hide ScanTo;
    ScanSeparator(s, op, mid, done, parts);
  }

  lemma ListedJoin(lefts: seq<string>, rights: seq<string>, f: Formula, op: char, first: bool)
    requires Node(f, op) && Listed(lefts, f.left, op, first) && Listed(rights, f.right, op, false)
    ensures Listed(lefts + rights, f, op, first)
  {
    ListedSome(lefts, f.left, op, first);
    ListedSome(rights, f.right, op, false);
    var m := |lefts|;
    assert (lefts + rights)[..m] == lefts && (lefts + rights)[m..] == rights;
    assert 0 < m < |lefts + rights|;
  }

  lemma ListedSome(parts: seq<string>, f: Formula, op: char, first: bool)
    requires Listed(parts, f, op, first)
    ensures parts != [] && (Node(f, op) ==> |parts| > 1) && (!Node(f, op) ==> |parts| == 1)
  {
  }

  lemma ScannedJoin(s: string, op: char, end: nat, done: seq<string>, lefts: seq<string>, rights: seq<string>)
    requires lefts != [] && Scanned(s, op, end, done + lefts, rights)
    ensures Scanned(s, op, end, done, lefts + rights)
  {
    hide ScanTo;
    var parts := lefts + rights;
    assert parts[|parts| - 1] == rights[|rights| - 1];
    assert (done + lefts) + rights[..|rights| - 1] == done + parts[..|parts| - 1];
  }

  lemma SplitScanned(s: string, op: char, parts: seq<string>)
    requires Scanned(s, op, |s|, [], parts)
    ensures Split(s, op) == Ok(parts)
  {
    hide ScanTo;
    var n := |parts| - 1;
    assert [] + parts[..n] + [parts[n]] == parts;
    assert s[|s| - |parts[n]|..] == s[|s| - |parts[n]|..|s|];
  }

  /** Splitting after characters that are passed over gives the operands. */
  lemma SplitList(t: string, j: nat, f: Formula, op: char) returns (parts: seq<string>)
    requires j <= |t| && Junk(t[..j]) && Wf(f) && IsList(t[j..], f, op, true)
    ensures Split(t, op) == Ok(parts) && Listed(parts, f, op, true)
  {
    hide *;
    ScanJunk(t, op, j);
    TailAt(t, j);
    parts := ScanList(t, op, j, t[j..], f, true, Scan(-1, 0, []));
    SplitScanned(t, op, parts);
  }

  lemma TailAt(t: string, j: nat)
    requires j <= |t|
    ensures At(t, j, t[j..]) && j + |t[j..]| == |t|
  {
    assert t[j..j + |t[j..]|] == t[j..];
  }

  // ----- Accepted text means its formula

  lemma RecUnary(source: string, vals: Vals)
    requires source != [] && Split(source, '|').Ok? && |Split(source, '|').value| == 1
    requires Split(source, '&').Ok? && |Split(source, '&').value| == 1
    ensures source[0] == '!' ==> ResolveRec(source, vals) == Negated(Resolve(source[1..], vals))
    ensures source[0] == '(' ==> |source| >= 2 && ResolveRec(source, vals) == Resolve(source[1..|source| - 1], vals)
    ensures source == "1" ==> ResolveRec(source, vals) == Ok(true)
    ensures source == "0" ==> ResolveRec(source, vals) == Ok(false)
    ensures source[0] != '!' && source[0] != '(' && source != "1" && source != "0" ==>
              ResolveRec(source, vals) == if source in vals then Ok(vals[source]) else Err(VariableNotFound(source))
  {
    SplitShortens(source, '|');
    assert |source| == 1 && source[0] == '(' ==> source == "(";
    hide Split;
    hide Resolve;
  }

  lemma RecBinary(source: string, vals: Vals, parts: seq<string>, isOr: bool)
    requires source != [] && |parts| > 1 && Split(source, if isOr then '|' else '&') == Ok(parts)
    requires !isOr ==> Split(source, '|').Ok? && |Split(source, '|').value| == 1
    ensures forall k :: 0 <= k < |parts| ==> |parts[k]| < |source|
    ensures ResolveRec(source, vals) == ResolveParts(parts, isOr, vals, |source|)
  {
    SplitShortens(source, '|');
    SplitShortens(source, '&');
    hide Split;
    hide Resolve;
    hide ResolveParts;
  }

  lemma SinglePart(text: string, isOr: bool, vals: Vals, n: nat)
    requires |text| < n
    ensures ResolveParts([text], isOr, vals, n) == Resolve(text, vals)
  {
    hide Resolve;
    assert [text][..0] == [];
    assert ResolveParts([], isOr, vals, n) == Ok(!isOr);
  }

  lemma {:induction false} ListMeans(parts: seq<string>, f: Formula, op: char, first: bool, vals: Vals, n: nat)
    requires Wf(f) && (op == '|' || op == '&') && Listed(parts, f, op, first)
    requires forall k :: 0 <= k < |parts| ==> |parts[k]| < n
    ensures ResolveParts(parts, op == '|', vals, n) == Meaning(f, vals)
    decreases f, 2
  {
    hide ResolveParts;
    hide ResolveRec;
    if Node(f, op) {
      var m :| 0 < m < |parts| && Listed(parts[..m], f.left, op, first) && Listed(parts[m..], f.right, op, false);
      assert parts[..m] + parts[m..] == parts;
      PartsAppend(parts[..m], parts[m..], op == '|', vals, n);
      hide Listed;
      ListMeans(parts[..m], f.left, op, first, vals, n);
      ListMeans(parts[m..], f.right, op, false, vals, n);
    } else {
      OperandReads(parts[0], f, op, first);
      ReadsTidy(parts[0], f);
      StripClean(parts[0]);
      assert parts == [parts[0]];
      ReadsMeans(parts[0], f, vals);
      SinglePart(parts[0], op == '|', vals, n);
    }
  }

  lemma OperandReads(t: string, f: Formula, op: char, first: bool)
    requires Wf(f) && !Node(f, op) && (if op == '|' then Disj(t, f, first) else Unary(t, f))
    ensures Reads(t, f)
  {
    if op == '|' && f.And? {
      if first {
        assert t[..0] == [] && t[0..] == t;
      } else {
        var k :| 0 <= k <= |t| && Ampersands(t[..k]) && Conj(t[k..], f);
        AmpersandsAreJunk(t[..k]);
      }
    }
  }

  /** Every accepted text is evaluated as its formula, whatever the valuation. */
  lemma {:induction false} ReadsMeans(t: string, f: Formula, vals: Vals)
    requires Wf(f) && Reads(t, f)
    ensures ResolveRec(t, vals) == Meaning(f, vals)
    decreases f, 1
  {
    hide ResolveRec;
    hide Split;
    hide Listed;
    hide Nested;
    ReadsTidy(t, f);
    if f.Or? {
      var j :| 0 <= j <= |t| && Junk(t[..j]) && Disj(t[j..], f, true);
      var parts := SplitList(t, j, f, '|');
      BinaryMeans(t, f, '|', parts, vals);
    } else if f.And? {
      var j :| 0 <= j <= |t| && Junk(t[..j]) && Conj(t[j..], f);
      var whole := OneDisjunct(t, j, f);
      var parts := SplitList(t, j, f, '&');
      BinaryMeans(t, f, '&', parts, vals);
    } else {
      UnaryMeans(t, f, vals);
    }
  }

  lemma OneDisjunct(t: string, j: nat, f: Formula) returns (parts: seq<string>)
    requires j <= |t| && Junk(t[..j]) && Wf(f) && !f.Or? && Conj(t[j..], f)
    ensures Split(t, '|') == Ok(parts) && |parts| == 1
  {
    parts := SplitList(t, j, f, '|');
    ListedSome(parts, f, '|', true);
  }

  lemma {:induction false} BinaryMeans(t: string, f: Formula, op: char, parts: seq<string>, vals: Vals)
    requires Wf(f) && Node(f, op) && t != [] && Split(t, op) == Ok(parts) && Listed(parts, f, op, true)
    requires op == '&' ==> Split(t, '|').Ok? && |Split(t, '|').value| == 1
    ensures ResolveRec(t, vals) == Meaning(f, vals)
    decreases f, 0
  {
    hide *;
    var m := NodeCases(parts, f, op, true);
    NodeParts(f, op);
    RecBinary(t, vals, parts, op == '|');
    assert parts[..m] + parts[m..] == parts;
    PartsAppend(parts[..m], parts[m..], op == '|', vals, |t|);
    ListMeans(parts[..m], f.left, op, true, vals, |t|);
    ListMeans(parts[m..], f.right, op, false, vals, |t|);
  }

  lemma NodeCases(parts: seq<string>, f: Formula, op: char, first: bool) returns (m: int)
    requires Listed(parts, f, op, first) && Node(f, op)
    ensures 0 < m < |parts| && Listed(parts[..m], f.left, op, first) && Listed(parts[m..], f.right, op, false)
  {
    m :| 0 < m < |parts| && Listed(parts[..m], f.left, op, first) && Listed(parts[m..], f.right, op, false);
  }

  lemma UnaryIsList(t: string, f: Formula)
    requires Unary(t, f)
    ensures IsList(t, f, '|', true) && IsList(t, f, '&', true) && !f.And? && !f.Or?
  {
  }

  lemma {:induction false} UnaryMeans(t: string, f: Formula, vals: Vals)
    requires Wf(f) && Unary(t, f)
    ensures ResolveRec(t, vals) == Meaning(f, vals)
    decreases f, 0
  {
    UnaryTidy(t, f);
    assert t[..0] == [] && t[0..] == t;
    UnaryIsList(t, f);
    var ds := SplitList(t, 0, f, '|');
    var cs := SplitList(t, 0, f, '&');
    ListedSome(ds, f, '|', true);
    ListedSome(cs, f, '&', true);
    hide Split;
    hide Listed;
    hide Nested;
    hide ResolveRec;
    RecUnary(t, vals);
    match f
    case Const(_) =>
    case Var(_) =>
    case Not(g) =>
      UnaryTidy(t[1..], g);
      StripClean(t[1..]);
      UnaryMeans(t[1..], g, vals);
    case Group(g) =>
      var u := t[1..|t| - 1];
      ReadsTidy(u, g);
      StripClean(u);
      ReadsMeans(u, g, vals);
  }

  // ----- What scanning says about any text

  lemma {:induction false} ScanParity(s: string, op: char, i: nat)
    requires i <= |s| && ScanTo(s, op, i).Ok?
    ensures ScanTo(s, op, i).value.parity == Parity(s[..i])
  {
    if i > 0 {
      ScanParity(s, op, i - 1);
      assert s[..i][..i - 1] == s[..i - 1] && s[..i][i - 1] == s[i - 1];
    } else {
      assert s[..0] == [];
    }
  }

  lemma SplitParity(s: string, op: char)
    requires Split(s, op).Ok?
    ensures Parity(s) == 0
  {
    ScanParity(s, op, |s|);
    assert s[..|s|] == s;
  }

  /** Later states are reached from earlier ones; parts are only added. */
  lemma {:induction false} ScanGrows(s: string, op: char, i: nat, j: nat)
    requires i <= j <= |s| && ScanTo(s, op, j).Ok?
    ensures ScanTo(s, op, i).Ok? && |ScanTo(s, op, i).value.parts| <= |ScanTo(s, op, j).value.parts|
    ensures ScanTo(s, op, i).value.start >= 0 ==> ScanTo(s, op, j).value.start >= 0
    ensures ScanTo(s, op, i).value.start == -1 ==> ScanTo(s, op, i).value.parts == []
    decreases j
  {
    if i < j {
      ScanGrows(s, op, i, j - 1);
    } else if i > 0 {
      ScanGrows(s, op, i - 1, i - 1);
    }
  }

  /** A character before the first operand opens nothing, and is passed over unless it closes. */
  lemma LeadingStep(s: string, op: char, i: nat)
    requires 0 < i <= |s| && ScanTo(s, op, i).Ok? && ScanTo(s, op, i).value.start == -1 && !IsSpace(s[i - 1])
    ensures ScanTo(s, op, i - 1).Ok? && ScanTo(s, op, i - 1).value.start == -1
    ensures s[i - 1] != '('
    ensures ScanTo(s, op, i - 1).value.parity == 0 && s[i - 1] != ')' ==> Skipped(s[i - 1])
  {
    ScanGrows(s, op, i - 1, i);
  }

  /** Before the first operand: if parentheses balance there, only characters that are passed over. */
  lemma {:induction false} LeadingRun(s: string, op: char, i: nat)
    requires i <= |s| && ScanTo(s, op, i).Ok? && ScanTo(s, op, i).value.start == -1
    requires forall j :: 0 <= j < |s| ==> !IsSpace(s[j])
    ensures Parity(s[..i]) <= 0 && (Parity(s[..i]) == 0 ==> Junk(s[..i]))
  {
    hide ScanTo;
    hide IsSpace;
    hide Skipped;
    if i == 0 {
      assert s[..0] == [];
    } else {
      LeadingStep(s, op, i);
      ScanParity(s, op, i - 1);
      LeadingRun(s, op, i - 1);
      assert s[..i][..i - 1] == s[..i - 1] && s[..i][i - 1] == s[i - 1];
      assert s[..i] == s[..i - 1] + [s[i - 1]];
    }
  }

  /** The operands with the operator between them. */
  function Glue(parts: seq<string>, op: char): string
    requires parts != []
  {
    var n := |parts| - 1;
    if n == 0 then parts[0] else Glue(parts[..n], op) + [op] + parts[n]
  }

  lemma GlueStep(parts: seq<string>, last: string, op: char)
    ensures parts != [] ==> Glue(parts + [last], op) == Glue(parts, op) + [op] + last
    ensures parts == [] ==> Glue(parts + [last], op) == last
  {
    assert (parts + [last])[..|parts|] == parts;
  }

  /** The first operand begins at `b`; from there the text is the operands glued together. */
  ghost predicate Glued(s: string, op: char, b: nat, i: nat) {
    && b < i <= |s| && ScanTo(s, op, b).Ok? && ScanTo(s, op, b).value.start == -1
    && ScanTo(s, op, i).Ok? && ScanTo(s, op, i).value.start >= 0
    && var st := ScanTo(s, op, i).value;
       && s[b..i] == Glue(st.parts + [s[st.start..i]], op)
       && (st.parts != [] ==> Parity(s[..b]) + Parity(st.parts[0]) == 0)
  }

  lemma {:induction false} GlueSpec(s: string, op: char, i: nat) returns (b: nat)
    requires i <= |s| && ScanTo(s, op, i).Ok? && ScanTo(s, op, i).value.start >= 0
    ensures Glued(s, op, b, i)
  {
    assert i > 0;
    StepCases(s, op, i);
    ScanGrows(s, op, i - 1, i);
    var before, st := ScanTo(s, op, i - 1).value, ScanTo(s, op, i).value;
    hide ScanTo;
    hide Parity;
    if before.start == -1 {
      b := i - 1;
      GlueStep([], s[b..i], op);
      hide Glue;
    } else {
      hide Glue;
      hide Glued;
      b := GlueSpec(s, op, i - 1);
      if st.start == i {
        GlueCloses(s, op, b, i);
      } else {
        GlueContinues(s, op, b, i);
      }
    }
  }

  lemma GlueCloses(s: string, op: char, b: nat, i: nat)
    requires 0 < i <= |s| && Glued(s, op, b, i - 1) && ScanTo(s, op, i).Ok? && ScanTo(s, op, i).value.start == i
    ensures Glued(s, op, b, i)
  {
    StepCases(s, op, i);
    ScanParity(s, op, i - 1);
    hide ScanTo;
    hide Parity;
    hide Glue;
    var before := ScanTo(s, op, i - 1).value;
    var open := s[before.start..i - 1];
    GlueClosed(before.parts, open, s[i..i], op);
    LongerText(s, b, i);
    if before.parts == [] {
      GlueStep([], open, op);
      FirstParity(s, b, i - 1, open);
    }
    hide Split;
    hide IsSpace;
  }

  lemma LongerText(s: string, b: nat, i: nat)
    requires b < i <= |s|
    ensures s[b..i] == s[b..i - 1] + [s[i - 1]]
  {
  }

  lemma FirstParity(s: string, b: nat, e: nat, first: string)
    requires b <= e <= |s| && first == s[b..e] && Parity(s[..e]) == 0
    ensures Parity(s[..b]) + Parity(first) == 0
  {
    assert s[..e] == s[..b] + s[b..e];
    ParityAppend(s[..b], first);
  }

  lemma GlueContinues(s: string, op: char, b: nat, i: nat)
    requires 0 < i <= |s| && Glued(s, op, b, i - 1) && ScanTo(s, op, i).Ok?
    requires ScanTo(s, op, i).value.start != i && ScanTo(s, op, i).value.start >= 0
    ensures Glued(s, op, b, i)
  {
    StepCases(s, op, i);
    hide ScanTo;
    hide Parity;
    var before := ScanTo(s, op, i - 1).value;
    var open := s[before.start..i - 1];
    assert s[b..i] == s[b..i - 1] + [s[i - 1]];
    assert s[before.start..i] == open + [s[i - 1]];
    GlueLonger(before.parts, open, s[i - 1], op);
    hide Glue;
  }

  lemma StepCases(s: string, op: char, i: nat)
    requires 0 < i <= |s| && ScanTo(s, op, i).Ok? && ScanTo(s, op, i).value.start >= 0
    ensures ScanTo(s, op, i - 1).Ok?
    ensures var before, st := ScanTo(s, op, i - 1).value, ScanTo(s, op, i).value;
            && (before.start == -1 ==> st.start == i - 1 && st.parts == before.parts)
            && (before.start >= 0 && st.start == i ==>
                  s[i - 1] == op && before.parity == 0 && st.parts == before.parts + [s[before.start..i - 1]])
            && (before.start >= 0 && st.start != i ==> st.start == before.start && st.parts == before.parts)
  {
  }

  lemma GlueLonger(parts: seq<string>, last: string, c: char, op: char)
    ensures Glue(parts + [last + [c]], op) == Glue(parts + [last], op) + [c]
  {
    GlueStep(parts, last, op);
    GlueStep(parts, last + [c], op);
    hide Glue;
  }

  lemma GlueClosed(parts: seq<string>, last: string, next: string, op: char)
    requires next == []
    ensures Glue(parts + [last] + [next], op) == Glue(parts + [last], op) + [op]
  {
    GlueStep(parts + [last], next, op);
    hide Glue;
  }

  /** Operand number `k` lies between `b` and `e`: no operator divides the text between them. */
  ghost predicate Segment(s: string, op: char, k: nat, b: nat, e: nat) {
    && b <= e <= |s| && ScanTo(s, op, b).Ok? && ScanTo(s, op, e).Ok?
    && |ScanTo(s, op, b).value.parts| == k == |ScanTo(s, op, e).value.parts|
    && (k > 0 ==> ScanTo(s, op, b).value.start == b && ScanTo(s, op, b).value.parity == 0)
    && (k == 0 ==> b < e && ScanTo(s, op, b).value.start == -1 && ScanTo(s, op, b + 1).Ok? && ScanTo(s, op, b + 1).value.start == b)
  }

  lemma {:induction false} FindSegment(s: string, op: char, i: nat, k: nat) returns (b: nat, e: nat)
    requires i <= |s| && ScanTo(s, op, i).Ok? && ScanTo(s, op, i).value.start >= 0
    requires k <= |ScanTo(s, op, i).value.parts|
    ensures Segment(s, op, k, b, e) && e <= i
    ensures var st := ScanTo(s, op, i).value;
            if k < |st.parts| then st.parts[k] == s[b..e] && ScanTo(s, op, e).value.parity == 0 else st.start == b && e == i
  {
    var before := ScanTo(s, op, i - 1).value;
    var st := ScanTo(s, op, i).value;
    ScanGrows(s, op, i - 1, i);
    if before.start == -1 {
      b, e := i - 1, i;
    } else if k > |before.parts| {
      b, e := i, i;
    } else {
      b, e := FindSegment(s, op, i - 1, k);
      if k == |before.parts| && st.start != i {
        e := i;
      }
    }
  }

  /** Scanning a segment by itself meets no operator that scanning the whole did not meet. */
  lemma {:induction false} Rescan(s: string, op: char, b: nat, e: nat, n: nat)
    requires b <= e <= |s| && ScanTo(s, op, b).Ok? && ScanTo(s, op, e).Ok? && n <= e - b
    requires ScanTo(s, op, b).value.parity == 0 && |ScanTo(s, op, b).value.parts| == |ScanTo(s, op, e).value.parts|
    ensures ScanTo(s[b..e], op, n).Ok? && ScanTo(s, op, b + n).Ok?
    ensures var p, q := ScanTo(s[b..e], op, n).value, ScanTo(s, op, b + n).value;
            p.parts == [] && p.parity == q.parity && (p.start >= 0 ==> q.start >= 0)
  {
    hide *;
    ScanGrows(s, op, b + n, e);
    ScanGrows(s, op, b, b + n);
    if n == 0 {
      ScanStart(s[b..e], op);
    } else {
      var m := n - 1;
      Rescan(s, op, b, e, m);
      ScanGrows(s, op, b + m, b + n);
      ScanGrows(s, op, b, b + m);
      RescanStep(s, op, b, e, n);
    }
  }

  lemma ScanStart(s: string, op: char)
    ensures ScanTo(s, op, 0) == Ok(Scan(-1, 0, []))
  {
  }

  lemma RescanStep(s: string, op: char, b: nat, e: nat, n: nat)
    requires b <= e <= |s| && 0 < n <= e - b
    requires ScanTo(s, op, b + n).Ok? && ScanTo(s, op, b + n - 1).Ok? && ScanTo(s[b..e], op, n - 1).Ok?
    requires |ScanTo(s, op, b + n - 1).value.parts| == |ScanTo(s, op, b + n).value.parts|
    requires var p, q := ScanTo(s[b..e], op, n - 1).value, ScanTo(s, op, b + n - 1).value;
             p.parts == [] && p.parity == q.parity && (p.start >= 0 ==> q.start >= 0)
    ensures ScanTo(s[b..e], op, n).Ok?
    ensures var p, q := ScanTo(s[b..e], op, n).value, ScanTo(s, op, b + n).value;
            p.parts == [] && p.parity == q.parity && (p.start >= 0 ==> q.start >= 0)
  {
    var p, q := ScanTo(s[b..e], op, n - 1).value, ScanTo(s, op, b + n - 1).value;
    assert s[b..e][n - 1] == s[b + n - 1];
    assert ScanTo(s[b..e], op, n) == Step(s[b..e], op, n - 1, p);
    assert ScanTo(s, op, b + n) == Step(s, op, b + n - 1, q);
    hide ScanTo;
  }

  /** So the operator does not divide it. */
  lemma Undivided(s: string, op: char, b: nat, e: nat)
    requires b <= e <= |s| && ScanTo(s, op, b).Ok? && ScanTo(s, op, e).Ok?
    requires ScanTo(s, op, b).value.parity == 0 && |ScanTo(s, op, b).value.parts| == |ScanTo(s, op, e).value.parts|
    ensures Split(s[b..e], op).Ok? ==> |Split(s[b..e], op).value| <= 1
  {
    hide *;
    Rescan(s, op, b, e, e - b);
    FewParts(s[b..e], op);
  }

  lemma FewParts(p: string, op: char)
    requires ScanTo(p, op, |p|).Ok? && ScanTo(p, op, |p|).value.parts == []
    ensures Split(p, op).Ok? ==> |Split(p, op).value| <= 1
  {
    hide ScanTo;
  }

  /** In front of an operand after the first, only `&` is passed over at a split by `|`. */
  lemma {:induction false} LeadingAmpersands(s: string, k: nat, b: nat, e: nat, j: nat)
    requires Segment(s, '|', k, b, e) && j <= e - b && Junk(s[b..b + j])
    ensures k == 0 ==> j == 0
    ensures k > 0 ==> Ampersands(s[b..b + j]) && ScanTo(s, '|', b + j) == ScanTo(s, '|', b)
  {
    if j > 0 {
      SliceLast(s, b, j);
      if k == 0 {
        FirstBegins(s, k, b, e);
      }
      assert Skipped(s[b]) by {
        assert Skipped(s[b..b + j][0]);
      }
      hide Segment;
      if k > 0 {
        LeadingAmpersands(s, k, b, e, j - 1);
        AmpersandStep(s, k, b, e, j);
      }
    }
  }

  lemma FirstBegins(s: string, k: nat, b: nat, e: nat)
    requires Segment(s, '|', k, b, e) && k == 0
    ensures !Skipped(s[b])
  {
    assert ScanTo(s, '|', b + 1) == Step(s, '|', b, ScanTo(s, '|', b).value);
    hide ScanTo;
  }

  lemma SliceLast(s: string, b: nat, j: nat)
    requires 0 < j && b + j <= |s|
    ensures s[b..b + j] == s[b..b + (j - 1)] + [s[b + j - 1]] && s[b..b + j][j - 1] == s[b + j - 1]
    ensures Junk(s[b..b + j]) ==> Junk(s[b..b + (j - 1)]) && Skipped(s[b + j - 1])
  {
    var whole, init := s[b..b + j], s[b..b + (j - 1)];
    assert whole == init + [s[b + j - 1]];
    assert forall i :: 0 <= i < |init| ==> init[i] == whole[i];
  }

  lemma AmpersandStep(s: string, k: nat, b: nat, e: nat, j: nat)
    requires Segment(s, '|', k, b, e) && k > 0 && 0 < j <= e - b && Skipped(s[b + j - 1])
    requires ScanTo(s, '|', b + (j - 1)) == ScanTo(s, '|', b)
    ensures s[b + j - 1] == '&' && ScanTo(s, '|', b + j) == ScanTo(s, '|', b)
  {
    ScanGrows(s, '|', b + j, e);
    var st := ScanTo(s, '|', b).value;
    assert ScanTo(s, '|', b + j) == Step(s, '|', b + j - 1, st);
    hide ScanTo;
  }

  // ----- Every text that evaluates is one of them

  ghost predicate Clean(t: string) {
    forall i :: 0 <= i < |t| ==> !IsSpace(t[i])
  }

  ghost predicate Named(vals: Vals) {
    forall x :: x in vals ==> IsName(x)
  }

  lemma {:induction false} PartsAllOk(parts: seq<string>, isOr: bool, vals: Vals, n: nat, k: nat)
    requires forall i :: 0 <= i < |parts| ==> |parts[i]| < n
    requires ResolveParts(parts, isOr, vals, n).Ok? && k < |parts|
    ensures Resolve(parts[k], vals).Ok?
    decreases |parts|
  {
    hide Resolve;
    if k < |parts| - 1 {
      PartsAllOk(parts[..|parts| - 1], isOr, vals, n, k);
    }
  }

  lemma Slices(t: string, b: nat, e: nat)
    requires Clean(t) && b <= e <= |t|
    ensures Clean(t[b..e]) && Strip(t[b..e]) == t[b..e]
  {
    assert forall i :: 0 <= i < e - b ==> t[b..e][i] == t[b + i];
    StripClean(t[b..e]);
  }

  /** What an evaluation that succeeds went through. */
  lemma RecCases(t: string, vals: Vals)
    requires ResolveRec(t, vals).Ok?
    ensures t != [] && Split(t, '|').Ok? && Split(t, '|').value != []
    ensures |Split(t, '|').value| == 1 ==> Split(t, '&').Ok? && Split(t, '&').value != []
    ensures var parts := Split(t, '|').value;
            |parts| > 1 ==>
              && (forall k :: 0 <= k < |parts| ==> |parts[k]| < |t|) && ResolveParts(parts, true, vals, |t|).Ok?
    ensures |Split(t, '|').value| == 1 ==>
              var parts := Split(t, '&').value;
              |parts| > 1 ==>
                && (forall k :: 0 <= k < |parts| ==> |parts[k]| < |t|) && ResolveParts(parts, false, vals, |t|).Ok?
  {
    SplitShortens(t, '|');
    SplitShortens(t, '&');
    hide Split;
    hide Resolve;
    hide ResolveParts;
  }

  lemma SplitStarts(t: string, op: char)
    requires Split(t, op).Ok? && Split(t, op).value != []
    ensures ScanTo(t, op, |t|).Ok?
    ensures var st := ScanTo(t, op, |t|).value;
            st.start >= 0 && st.parity == 0 && Split(t, op).value == st.parts + [t[st.start..]]
  {
    ScanGrows(t, op, |t|, |t|);
  }

  /** The operands of a text that evaluates: each is a shorter text that evaluates, and they follow
      characters that are passed over. */
  lemma OperandsOf(t: string, op: char, vals: Vals) returns (b: nat)
    requires Clean(t) && (op == '|' || op == '&') && Split(t, op).Ok? && |Split(t, op).value| > 1
    requires forall k :: 0 <= k < |Split(t, op).value| ==> |Split(t, op).value[k]| < |t|
    requires ResolveParts(Split(t, op).value, op == '|', vals, |t|).Ok?
    ensures b <= |t| && Junk(t[..b]) && t[b..] == Glue(Split(t, op).value, op)
  {
    var parts := Split(t, op).value;
    SplitStarts(t, op);
    var st := ScanTo(t, op, |t|).value;
    b := GlueSpec(t, op, |t|);
    assert t[b..|t|] == t[b..] && t[st.start..|t|] == t[st.start..];
    PartsAllOk(parts, op == '|', vals, |t|, 0);
    var p0, e0 := FindSegment(t, op, |t|, 0);
    assert parts[0] == st.parts[0] == t[p0..e0];
    Slices(t, p0, e0);
    RecCases(parts[0], vals);
    SplitParity(parts[0], '|');
    LeadingRun(t, op, b);
  }

  lemma LevelBefore(t: string, op: char, b: nat, e: nat)
    requires b <= e <= |t| && ScanTo(t, op, b).Ok? && ScanTo(t, op, e).Ok?
    requires ScanTo(t, op, e).value.parity == 0 && Parity(t[b..e]) == 0
    ensures ScanTo(t, op, b).value.parity == 0
  {
    ScanParity(t, op, b);
    ScanParity(t, op, e);
    assert t[..e] == t[..b] + t[b..e];
    ParityAppend(t[..b], t[b..e]);
  }

  /** Operand `k` evaluates, and neither operator divides it unless it is one of `|`'s. */
  lemma OperandFacts(t: string, op: char, vals: Vals, k: nat) returns (b: nat, e: nat)
    requires Clean(t) && (op == '|' || op == '&') && Split(t, op).Ok? && k < |Split(t, op).value|
    requires |Split(t, op).value| > 1 && forall i :: 0 <= i < |Split(t, op).value| ==> |Split(t, op).value[i]| < |t|
    requires ResolveParts(Split(t, op).value, op == '|', vals, |t|).Ok?
    requires op == '&' ==> Split(t, '|').Ok? && |Split(t, '|').value| == 1
    ensures var p := Split(t, op).value[k];
            && b <= e <= |t| && p == t[b..e] && Clean(p) && ResolveRec(p, vals).Ok? && Segment(t, op, k, b, e)
            && Split(p, '|').Ok? && |Split(p, '|').value| == 1
            && (op == '&' ==> Split(p, '&').Ok? && |Split(p, '&').value| == 1)
  {
    var parts := Split(t, op).value;
    SplitStarts(t, op);
    b, e := FindSegment(t, op, |t|, k);
    var st := ScanTo(t, op, |t|).value;
    assert parts[k] == t[b..e] by {
      if k == |st.parts| {
        assert t[st.start..|t|] == t[st.start..];
      }
    }
    Slices(t, b, e);
    PartsAllOk(parts, op == '|', vals, |t|, k);
    var p := parts[k];
    RecCases(p, vals);
    if k == 0 {
      SplitParity(p, '|');
      LevelBefore(t, op, b, e);
    }
    Undivided(t, op, b, e);
    if op == '&' {
      SplitStarts(t, '|');
      ScanGrows(t, '|', b, |t|);
      ScanGrows(t, '|', e, |t|);
      ScanGrows(t, '|', b, e);
      ScanParity(t, '|', b);
      ScanParity(t, '&', b);
      Undivided(t, '|', b, e);
    }
  }

  lemma {:induction false} AcceptUnary(t: string, vals: Vals) returns (f: Formula)
    requires Clean(t) && Named(vals) && ResolveRec(t, vals).Ok?
    requires |Split(t, '|').value| == 1 && Split(t, '&').Ok? && |Split(t, '&').value| == 1
    ensures Wf(f) && Unary(t, f)
    decreases |t|, 0
  {
    RecCases(t, vals);
    RecUnary(t, vals);
    if t[0] == '!' {
      var u := t[1..];
      InnerUnary(t, vals);
      var g := AcceptUnary(u, vals);
      f := Not(g);
    } else if t[0] == '(' {
      var u := t[1..|t| - 1];
      ClosedGroup(t, vals);
      var g := Accept(u, vals);
      f := Group(g);
    } else if t == "1" || t == "0" {
      f := Const(t == "1");
    } else {
      f := Var(t);
    }
  }

  /** What stands after `!` is again an operand without an operator of its own. */
  lemma InnerUnary(t: string, vals: Vals)
    requires Clean(t) && t != [] && t[0] == '!' && Split(t, '|').Ok? && |Split(t, '|').value| == 1
    requires Split(t, '&').Ok? && |Split(t, '&').value| == 1 && Resolve(t[1..], vals).Ok?
    ensures var u := t[1..];
            && Clean(u) && ResolveRec(u, vals).Ok? && |Split(u, '|').value| == 1
            && Split(u, '&').Ok? && |Split(u, '&').value| == 1
  {
    var u := t[1..];
    assert t[1..|t|] == u;
    Slices(t, 1, |t|);
    RecCases(u, vals);
    AfterBang(t, '|');
    AfterBang(t, '&');
    RecCases(u, vals);
  }

  lemma AfterBang(t: string, op: char)
    requires t != [] && t[0] == '!' && Split(t, op).Ok? && |Split(t, op).value| == 1
    ensures Split(t[1..], op).Ok? ==> |Split(t[1..], op).value| <= 1
  {
    SplitStarts(t, op);
    assert ScanTo(t, op, 0) == Ok(Scan(-1, 0, []));
    Next(t, op, 0, Scan(-1, 0, []));
    hide ScanTo;
    Undivided(t, op, 1, |t|);
    assert t[1..|t|] == t[1..];
  }

  /** The last character closes the first parenthesis. */
  lemma ClosedGroup(t: string, vals: Vals)
    requires Clean(t) && |t| > 1 && t[0] == '(' && Split(t, '|').Ok? && Resolve(t[1..|t| - 1], vals).Ok?
    ensures t[|t| - 1] == ')' && Clean(t[1..|t| - 1]) && ResolveRec(t[1..|t| - 1], vals).Ok?
  {
    var u, c := t[1..|t| - 1], t[|t| - 1];
    Slices(t, 1, |t| - 1);
    RecCases(u, vals);
    SplitParity(u, '|');
    SplitParity(t, '|');
    assert t == "(" + u + [c];
    ParityAppend("(", u);
    ParityAppend("(" + u, [c]);
    assert Parity("(") == 1 && Parity([c]) == Turn(c) by {
      assert "("[..0] == [] && [c][..0] == [];
    }
    hide Parity;
  }

  /** The conjunction after characters that are passed over. */
  lemma {:induction false} AcceptConj(t: string, vals: Vals) returns (f: Formula, j: nat)
    requires Clean(t) && Named(vals) && ResolveRec(t, vals).Ok?
    requires |Split(t, '|').value| == 1 && |Split(t, '&').value| > 1
    ensures Wf(f) && f.And? && j <= |t| && Junk(t[..j]) && Conj(t[j..], f)
    decreases |t|, 3
  {
    hide *;
    RecCases(t, vals);
    j := OperandsOf(t, '&', vals);
    var parts := Split(t, '&').value;
    f := AcceptParts(t, '&', vals, |parts|);
    assert parts[..|parts|] == parts;
    ListIs(t[j..], f, '&', true);
  }

  lemma ListIs(t: string, f: Formula, op: char, first: bool)
    requires IsList(t, f, op, first) && Node(f, op)
    ensures op == '&' ==> f.And? && Conj(t, f)
    ensures op == '|' ==> f.Or? && Disj(t, f, first)
  {
  }

  /** The first `m` operands make a list. */
  lemma {:induction false} AcceptParts(t: string, op: char, vals: Vals, m: nat) returns (f: Formula)
    requires Clean(t) && Named(vals) && (op == '|' || op == '&') && Split(t, op).Ok? && 0 < m <= |Split(t, op).value|
    requires |Split(t, op).value| > 1 && forall i :: 0 <= i < |Split(t, op).value| ==> |Split(t, op).value[i]| < |t|
    requires ResolveParts(Split(t, op).value, op == '|', vals, |t|).Ok?
    requires op == '&' ==> Split(t, '|').Ok? && |Split(t, '|').value| == 1
    ensures Wf(f) && IsList(Glue(Split(t, op).value[..m], op), f, op, true) && (m > 1 ==> Node(f, op))
    decreases |t|, 2, m
  {
    hide *;
    var parts := Split(t, op).value;
    var last := AcceptOperand(t, op, vals, m - 1);
    if m == 1 {
      f := last;
      assert parts[..1] == [parts[0]];
      GlueStep([], parts[0], op);
      assert [] + [parts[0]] == [parts[0]];
    } else {
      var init := AcceptParts(t, op, vals, m - 1);
      assert parts[..m] == parts[..m - 1] + [parts[m - 1]];
      GlueStep(parts[..m - 1], parts[m - 1], op);
      f := if op == '|' then Or(init, last) else And(init, last);
      ListTwo(Glue(parts[..m - 1], op), parts[m - 1], init, last, op);
    }
  }

  lemma ListTwo(a: string, b: string, g: Formula, h: Formula, op: char)
    requires (op == '|' || op == '&') && Wf(g) && Wf(h) && IsList(a, g, op, true) && IsList(b, h, op, false)
    ensures var f := if op == '|' then Or(g, h) else And(g, h);
            Wf(f) && Node(f, op) && IsList(a + [op] + b, f, op, true)
  {
    var t, k := a + [op] + b, |a|;
    assert t[..k] == a && t[k] == op && t[k + 1..] == b;
  }

  lemma {:induction false} AcceptOperand(t: string, op: char, vals: Vals, k: nat) returns (f: Formula)
    requires Clean(t) && Named(vals) && (op == '|' || op == '&') && Split(t, op).Ok? && k < |Split(t, op).value|
    requires |Split(t, op).value| > 1 && forall i :: 0 <= i < |Split(t, op).value| ==> |Split(t, op).value[i]| < |t|
    requires ResolveParts(Split(t, op).value, op == '|', vals, |t|).Ok?
    requires op == '&' ==> Split(t, '|').Ok? && |Split(t, '|').value| == 1
    ensures Wf(f) && IsList(Split(t, op).value[k], f, op, k == 0)
    decreases |t|, 1
  {
    hide *;
    var p := Split(t, op).value[k];
    var b, e := OperandFacts(t, op, vals, k);
    RecCases(p, vals);
    if |Split(p, '&').value| == 1 {
      f := AcceptUnary(p, vals);
      UnaryIsLists(p, f, k == 0);
    } else {
      var j: nat;
      f, j := AcceptConj(p, vals);
      assert p[..j] == t[b..b + j];
      LeadingAmpersands(t, k, b, e, j);
      ConjIsList(p, f, j, k == 0);
    }
  }

  lemma UnaryIsLists(t: string, f: Formula, first: bool)
    requires Unary(t, f)
    ensures IsList(t, f, '|', first) && IsList(t, f, '&', first)
  {
  }

  lemma ConjIsList(t: string, f: Formula, j: nat, first: bool)
    requires f.And? && j <= |t| && Ampersands(t[..j]) && Conj(t[j..], f) && (first ==> j == 0)
    ensures IsList(t, f, '|', first)
  {
    if first {
      assert t[0..] == t;
    }
  }

  /** Every text that evaluates reads as some formula. */
  lemma {:induction false} Accept(t: string, vals: Vals) returns (f: Formula)
    requires Clean(t) && Named(vals) && ResolveRec(t, vals).Ok?
    ensures Wf(f) && Reads(t, f)
    decreases |t|, 4
  {
    hide *;
    RecCases(t, vals);
    var j: nat;
    if |Split(t, '|').value| > 1 {
      j := OperandsOf(t, '|', vals);
      var parts := Split(t, '|').value;
      f := AcceptParts(t, '|', vals, |parts|);
      assert parts[..|parts|] == parts;
      ListIs(t[j..], f, '|', true);
      ReadsList(t, f, j);
    } else if |Split(t, '&').value| > 1 {
      f, j := AcceptConj(t, vals);
      ReadsList(t, f, j);
    } else {
      f := AcceptUnary(t, vals);
      UnaryReads(t, f);
    }
  }

  lemma ReadsList(t: string, f: Formula, j: nat)
    requires j <= |t| && Junk(t[..j])
    requires (f.Or? && Disj(t[j..], f, true)) || (f.And? && Conj(t[j..], f))
    ensures Reads(t, f)
  {
  }

  lemma UnaryReads(t: string, f: Formula)
    requires Unary(t, f)
    ensures Reads(t, f)
  {
  }

  /** Exactly which texts evaluate, and to what: those that read as a formula all of whose variables have
      values, and its truth value. */
  lemma AcceptedExactly(source: string, vals: Vals, v: bool)
    requires Named(vals)
    ensures Resolve(source, vals) == Ok(v) <==>
              exists f :: Wf(f) && Names(f) <= vals.Keys && Reads(Strip(source), f) && Eval(f, vals) == v
  {
    var t := Strip(source);
    hide ResolveRec;
    hide Reads;
    hide Strip;
    if Resolve(source, vals) == Ok(v) {
      var f := Accept(t, vals);
      ReadsMeans(t, f, vals);
      MeaningSpec(f, vals);
    }
    forall f | Wf(f) && Names(f) <= vals.Keys && Reads(t, f) && Eval(f, vals) == v ensures Resolve(source, vals) == Ok(v) {
      ReadsMeans(t, f, vals);
      MeaningSpec(f, vals);
    }
  }

  /** A text that begins with an operator may evaluate. */
  lemma LeadingOperatorAccepted(vals: Vals)
    requires "a" in vals && "b" in vals
    ensures Resolve("|a|b", vals) == Ok(vals["a"] || vals["b"])
  {
    AOrBMeans(vals);
    hide *;
    AOrBReads();
    ReadsResolve("|a|b", Or(Var("a"), Var("b")), vals);
  }

  lemma AOrBMeans(vals: Vals)
    requires "a" in vals && "b" in vals
    ensures Meaning(Or(Var("a"), Var("b")), vals) == Ok(vals["a"] || vals["b"])
  {
  }

  lemma ReadsResolve(source: string, f: Formula, vals: Vals)
    requires Wf(f) && Reads(source, f)
    ensures Resolve(source, vals) == Meaning(f, vals)
  {
    hide ResolveRec;
    hide Reads;
    hide Nested;
    ReadsTidy(source, f);
    StripClean(source);
    ReadsMeans(source, f, vals);
  }

  lemma AOrBReads()
    ensures var f := Or(Var("a"), Var("b")); Wf(f) && Reads("|a|b", f)
  {
    var t, a, b := "|a|b", Var("a"), Var("b");
    UnaryIsLists("a", a, true);
    UnaryIsLists("b", b, false);
    assert IsName("a") && IsName("b");
    ListTwo("a", "b", a, b, '|');
    assert t[1..] == "a" + ['|'] + "b";
    assert Junk(t[..1]);
    hide Reads;
    hide Disj;
    hide Conj;
    ListIs(t[1..], Or(a, b), '|', true);
    ReadsList(t, Or(a, b), 1);
  }

  /** But not in front of a single operand. */
  lemma LeadingOperatorRefused(vals: Vals)
    requires "&a" !in vals
    ensures Resolve("&a", vals) == Err(VariableNotFound("&a"))
  {
    StripClean("&a");
    SplitLeading('|');
    SplitLeading('&');
    hide Split;
    hide ResolveRec;
    RecUnary("&a", vals);
  }

  lemma SplitLeading(op: char)
    requires op == '|' || op == '&'
    ensures Split("&a", op) == Ok(["a"])
  {
    var t := "&a";
    assert ScanTo(t, op, 0) == Ok(Scan(-1, 0, []));
    Next(t, op, 0, Scan(-1, 0, []));
    Next(t, op, 1, Scan(-1, 0, []));
    hide ScanTo;
    assert t[1..] == "a";
    assert [] + ["a"] == ["a"];
  }

  // ----- Printed formulas

  /** The formula with the parentheses that printing inserts. */
  function Explicit(f: Formula, level: nat): Formula {
    match f
    case Const(_) => f
    case Var(_) => f
    case Not(g) => Not(Explicit(g, 2))
    case Group(g) => Group(Explicit(g, 0))
    case And(l, r) => if level > 1 then Group(And(Explicit(l, 1), Explicit(r, 1))) else And(Explicit(l, 1), Explicit(r, 1))
    case Or(l, r) => if level > 0 then Group(Or(Explicit(l, 0), Explicit(r, 0))) else Or(Explicit(l, 0), Explicit(r, 0))
  }

  lemma {:induction false} ExplicitSame(f: Formula, level: nat, vals: Vals)
    ensures Meaning(Explicit(f, level), vals) == Meaning(f, vals) && (Wf(f) ==> Wf(Explicit(f, level)))
    decreases f
  {
    match f
    case Const(_) =>
    case Var(_) =>
    case Not(g) => ExplicitSame(g, 2, vals);
    case Group(g) => ExplicitSame(g, 0, vals);
    case And(l, r) => ExplicitSame(l, 1, vals); ExplicitSame(r, 1, vals);
    case Or(l, r) => ExplicitSame(l, 0, vals); ExplicitSame(r, 0, vals);
  }

  lemma InfixAt(a: string, c: char, b: string)
    ensures var t := a + [c] + b; |a| < |t| && t[|a|] == c && t[..|a|] == a && t[|a| + 1..] == b
  {
    var t := a + [c] + b;
    assert t[..|a|] == a && t[|a| + 1..] == b;
  }

  lemma WrapUnary(t: string, f: Formula)
    requires Reads(t, f)
    ensures Unary("(" + t + ")", Group(f))
  {
    var w := "(" + t + ")";
    assert w[1..|w| - 1] == t;
  }

  lemma NoRun(t: string, f: Formula)
    requires (f.Or? && Disj(t, f, true)) || (f.And? && Conj(t, f)) || Unary(t, f)
    ensures Reads(t, f)
  {
    assert t[..0] == [] && t[0..] == t;
    if !Unary(t, f) {
      ReadsList(t, f, 0);
    }
  }

  lemma {:induction false} PrintUnary(f: Formula)
    ensures Unary(Print(f, 2), Explicit(f, 2))
    decreases f, 3
  {
    match f
    case Const(_) =>
    case Var(_) =>
    case Not(g) =>
      PrintUnary(g);
      assert ("!" + Print(g, 2))[1..] == Print(g, 2);
    case Group(g) =>
      PrintReads(g);
      WrapUnary(Print(g, 0), Explicit(g, 0));
    case And(l, r) =>
      PrintInfix(f);
      WrapUnary(Print(f, 1), Explicit(f, 1));
    case Or(l, r) =>
      PrintInfix(f);
      WrapUnary(Print(f, 0), Explicit(f, 0));
  }

  /** Without outer parentheses. */
  lemma {:induction false} PrintInfix(f: Formula)
    requires f.And? || f.Or?
    ensures f.And? ==> Conj(Print(f, 1), Explicit(f, 1)) && Reads(Print(f, 1), Explicit(f, 1))
    ensures f.Or? ==> Disj(Print(f, 0), Explicit(f, 0), true) && Disj(Print(f, 0), Explicit(f, 0), false) && Reads(Print(f, 0), Explicit(f, 0))
    decreases f, 0
  {
    if f.And? {
      PrintConj(f.left);
      PrintConj(f.right);
      InfixAt(Print(f.left, 1), '&', Print(f.right, 1));
      assert Conj(Print(f, 1), Explicit(f, 1));
      NoRun(Print(f, 1), Explicit(f, 1));
    } else {
      PrintDisj(f.left, true);
      PrintDisj(f.left, false);
      PrintDisj(f.right, false);
      InfixAt(Print(f.left, 0), '|', Print(f.right, 0));
      assert Disj(Print(f, 0), Explicit(f, 0), true);
      NoRun(Print(f, 0), Explicit(f, 0));
    }
  }

  lemma {:induction false} PrintConj(f: Formula)
    ensures Conj(Print(f, 1), Explicit(f, 1))
    decreases f, 4
  {
    if f.And? {
      PrintInfix(f);
    } else {
      PrintUnary(f);
    }
  }

  lemma {:induction false} PrintDisj(f: Formula, first: bool)
    ensures Disj(Print(f, 0), Explicit(f, 0), first)
    decreases f, 5
  {
    if f.Or? {
      PrintInfix(f);
    } else {
      PrintConj(f);
      var t := Print(f, 0);
      assert t[..0] == [] && t[0..] == t;
    }
  }

  /** A printed formula reads as itself, with nothing passed over. */
  lemma {:induction false} PrintReads(f: Formula)
    ensures Reads(Print(f, 0), Explicit(f, 0))
    decreases f, 6
  {
    if f.And? || f.Or? {
      PrintInfix(f);
    } else {
      PrintUnary(f);
    }
  }

  /** Whatever white space is put into a printed formula, evaluating the text succeeds exactly if every
      variable has a value, and then gives the formula's truth value; otherwise a missing variable is named. */
  lemma ResolveAgrees(source: string, f: Formula, vals: Vals)
    requires Wf(f) && Strip(source) == Print(f, 0)
    ensures Resolve(source, vals).Ok? <==> Names(f) <= vals.Keys
    ensures Names(f) <= vals.Keys ==> Resolve(source, vals) == Ok(Eval(f, vals))
    ensures !(Names(f) <= vals.Keys) ==>
              exists x :: x in Names(f) && x !in vals && Resolve(source, vals) == Err(VariableNotFound(x))
  {
    hide ResolveRec;
    hide Print;
    hide Reads;
    PrintReads(f);
    ExplicitSame(f, 0, vals);
    ReadsMeans(Print(f, 0), Explicit(f, 0), vals);
    MeaningSpec(f, vals);
  }
}
