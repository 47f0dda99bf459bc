/** The evaluator of verifier strings. It splits text at top-level operators; the reference meaning is
    that of a formula tree. */
module BoolExpr {
  import opened Basics

  datatype Error =
    | EmptySubexpression
    | UnknownOperator(op: char, formula: string)
    | ParenthesisParity(formula: string)
    | NotAFormula(formula: string)
    | VariableNotFound(name: string)

  datatype Result<T> = Ok(value: T) | Err(error: Error)

  // ----- Characters

  predicate BelongsToName(c: char) {
    || '0' <= c <= '9' || 'a' <= c <= 'z' || 'A' <= c <= 'Z'
    || c == '_' || c == '#' || c == '.'
  }

  predicate StartsOperand(c: char) {
    BelongsToName(c) || c == '!'
  }

  function Strip(s: string): (r: string)
    ensures |r| <= |s| && forall i :: 0 <= i < |r| ==> !IsSpace(r[i])
  {
    if s == [] then [] else
      var rest := Strip(s[..|s| - 1]);
      if IsSpace(s[|s| - 1]) then rest else rest + [s[|s| - 1]]
  }

  lemma {:induction false} StripClean(s: string)
    requires forall i :: 0 <= i < |s| ==> !IsSpace(s[i])
    ensures Strip(s) == s
  {
    if s != [] {
      StripClean(s[..|s| - 1]);
    }
  }

  // ----- Splitting

  /** `start` is where the operand being read begins, or -1 before the first. */
  datatype Scan = Scan(start: int, parity: int, parts: seq<string>)

  function Step(s: string, op: char, i: nat, st: Scan): (r: Result<Scan>)
    requires i < |s| && -1 <= st.start <= i
    ensures r.Ok? ==> -1 <= r.value.start <= i + 1
  {
    var c := s[i];
    if c == ')' then Ok(st.(parity := st.parity - 1))
    else if c == '(' then Ok(st.(parity := st.parity + 1, start := if st.start == -1 then i else st.start))
    else if st.parity != 0 then Ok(st)
    else if st.start == -1 then Ok(if StartsOperand(c) then st.(start := i) else st)
    else if StartsOperand(c) then Ok(st)
    else if c == op then Ok(st.(parts := st.parts + [s[st.start..i]], start := i + 1))
    else if c != '&' && c != '|' then Err(UnknownOperator(c, s))
    else Ok(st)
  }

  /** The state before character `i`. */
  function ScanTo(s: string, op: char, i: nat): (r: Result<Scan>)
    requires i <= |s|
    ensures r.Ok? ==> -1 <= r.value.start <= i
  {
    if i == 0 then Ok(Scan(-1, 0, [])) else
      var before := ScanTo(s, op, i - 1);
      if before.Err? then before else Step(s, op, i - 1, before.value)
  }

  function Finish(s: string, st: Scan): Result<seq<string>>
    requires st.start <= |s|
  {
    if st.parity != 0 then Err(ParenthesisParity(s))
    else if st.start >= 0 then Ok(st.parts + [s[st.start..]])
    else Ok(st.parts)
  }

  function Split(s: string, op: char): Result<seq<string>> {
    var end := ScanTo(s, op, |s|);
    if end.Err? then Err(end.error) else Finish(s, end.value)
  }

  /** Parts are shorter than the text as soon as the operator occurs, and a lone parenthesis is refused. */
  lemma {:induction false} ScanShortens(s: string, op: char, i: nat)
    requires i <= |s| && ScanTo(s, op, i).Ok?
    ensures var st := ScanTo(s, op, i).value;
            && (st.parts != [] ==> st.start > 0)
            && forall k :: 0 <= k < |st.parts| ==> |st.parts[k]| < i
  {
    if i > 0 {
      ScanShortens(s, op, i - 1);
    }
  }

  lemma SplitShortens(s: string, op: char)
    ensures var r := Split(s, op); r.Ok? && |r.value| > 1 ==> forall k :: 0 <= k < |r.value| ==> |r.value[k]| < |s|
    ensures Split("(", op).Err?
  {
    if ScanTo(s, op, |s|).Ok? {
      ScanShortens(s, op, |s|);
    }
    assert ScanTo("(", op, 0) == Ok(Scan(-1, 0, []));
    assert ScanTo("(", op, 1) == Ok(Scan(0, 1, []));
  }

  // ----- Evaluating

  type Vals = map<string, bool>

  function Resolve(source: string, vals: Vals): Result<bool>
    decreases |source|, 2, 0
  {
    ResolveRec(Strip(source), vals)
  }

  function ResolveRec(source: string, vals: Vals): Result<bool>
    decreases |source|, 1, 0
  {
    if source == [] then Err(EmptySubexpression) else
      SplitShortens(source, '|');
      SplitShortens(source, '&');
      var disjuncts := Split(source, '|');
      if disjuncts.Err? then Err(disjuncts.error)
      else if |disjuncts.value| > 1 then ResolveParts(disjuncts.value, true, vals, |source|)
      else if disjuncts.value == [] then Err(NotAFormula(source)) else
        var conjuncts := Split(source, '&');
        if conjuncts.Err? then Err(conjuncts.error)
        else if |conjuncts.value| > 1 then ResolveParts(conjuncts.value, false, vals, |source|)
        else if conjuncts.value == [] then Err(NotAFormula(source))
        else if source[0] == '!' then Negated(Resolve(source[1..], vals))
        else if source[0] == '(' then
          assert |source| >= 2 by { assert |source| == 1 ==> source == "("; }
          Resolve(source[1..|source| - 1], vals)
        else if source == "1" then Ok(true)
        else if source == "0" then Ok(false)
        else if source !in vals then Err(VariableNotFound(source))
        else Ok(vals[source])
  }

  function Negated(r: Result<bool>): Result<bool> {
    if r.Ok? then Ok(!r.value) else r
  }

  /** Left to right and without shortcuts: the first failure is reported, whatever the values are. */
  function Joined(a: Result<bool>, b: Result<bool>, isOr: bool): Result<bool> {
    if a.Err? then a else if b.Err? then b
    else Ok(if isOr then a.value || b.value else a.value && b.value)
  }

  function ResolveParts(parts: seq<string>, isOr: bool, vals: Vals, n: nat): Result<bool>
    requires forall k :: 0 <= k < |parts| ==> |parts[k]| < n
    decreases n, 0, |parts|
  {
    if parts == [] then Ok(!isOr) else
      Joined(ResolveParts(parts[..|parts| - 1], isOr, vals, n), Resolve(parts[|parts| - 1], vals), isOr)
  }

  // ----- Formulas

  /** `Group` stands for parentheses the writer chose to write. */
  datatype Formula =
    | Const(value: bool)
    | Var(name: string)
    | Not(f: Formula)
    | And(left: Formula, right: Formula)
    | Or(left: Formula, right: Formula)
    | Group(f: Formula)

  predicate IsName(s: string) {
    && s != [] && s != "1" && s != "0"
    && forall i :: 0 <= i < |s| ==> BelongsToName(s[i])
  }

  predicate Wf(f: Formula) {
    match f
    case Const(_) => true
    case Var(name) => IsName(name)
    case Not(g) => Wf(g)
    case And(l, r) => Wf(l) && Wf(r)
    case Or(l, r) => Wf(l) && Wf(r)
    case Group(g) => Wf(g)
  }

  function Names(f: Formula): set<string> {
    match f
    case Const(_) => {}
    case Var(name) => {name}
    case Not(g) => Names(g)
    case And(l, r) => Names(l) + Names(r)
    case Or(l, r) => Names(l) + Names(r)
    case Group(g) => Names(g)
  }

  function Eval(f: Formula, vals: Vals): bool
    requires Names(f) <= vals.Keys
  {
    match f
    case Const(b) => b
    case Var(name) => vals[name]
    case Not(g) => !Eval(g, vals)
    case And(l, r) => Eval(l, vals) && Eval(r, vals)
    case Or(l, r) => Eval(l, vals) || Eval(r, vals)
    case Group(g) => Eval(g, vals)
  }

  /** The text in a place that takes level 0 (anything), 1 (no bare `|`) or 2 (no bare operator). */
  function Print(f: Formula, level: nat): string
    decreases f, 0
  {
    match f
    case Const(b) => if b then "1" else "0"
    case Var(name) => name
    case Not(g) => "!" + Print(g, 2)
    case And(l, r) => if level > 1 then "(" + (Print(l, 1) + "&" + Print(r, 1)) + ")" else Print(l, 1) + "&" + Print(r, 1)
    case Or(l, r) => if level > 0 then "(" + (Print(l, 0) + "|" + Print(r, 0)) + ")" else Print(l, 0) + "|" + Print(r, 0)
    case Group(g) => "(" + Print(g, 0) + ")"
  }

  /** The tree's meaning with the failure that a left-to-right reading meets first. */
  function Meaning(f: Formula, vals: Vals): Result<bool> {
    match f
    case Const(b) => Ok(b)
    case Var(name) => if name in vals then Ok(vals[name]) else Err(VariableNotFound(name))
    case Not(g) => Negated(Meaning(g, vals))
    case And(l, r) => Joined(Meaning(l, vals), Meaning(r, vals), false)
    case Or(l, r) => Joined(Meaning(l, vals), Meaning(r, vals), true)
    case Group(g) => Meaning(g, vals)
  }

  lemma {:induction false} MeaningSpec(f: Formula, vals: Vals)
    ensures Names(f) <= vals.Keys ==> Meaning(f, vals) == Ok(Eval(f, vals))
    ensures !(Names(f) <= vals.Keys) ==>
              Meaning(f, vals).Err? && exists x :: x in Names(f) && x !in vals && Meaning(f, vals).error == VariableNotFound(x)
  {
    match f
    case Const(_) =>
    case Var(_) =>
    case Not(g) => MeaningSpec(g, vals);
    case And(l, r) => MeaningSpec(l, vals); MeaningSpec(r, vals);
    case Or(l, r) => MeaningSpec(l, vals); MeaningSpec(r, vals);
    case Group(g) => MeaningSpec(g, vals);
  }

  lemma {:induction false} PartsAppend(a: seq<string>, b: seq<string>, isOr: bool, vals: Vals, n: nat)
    requires forall k :: 0 <= k < |a + b| ==> |(a + b)[k]| < n
    ensures forall k :: 0 <= k < |a| ==> |a[k]| < n
    ensures forall k :: 0 <= k < |b| ==> |b[k]| < n
    ensures ResolveParts(a + b, isOr, vals, n) == Joined(ResolveParts(a, isOr, vals, n), ResolveParts(b, isOr, vals, n), isOr)
    decreases |b|
  {
    forall k | 0 <= k < |a| ensures |a[k]| < n {
      assert a[k] == (a + b)[k];
    }
    forall k | 0 <= k < |b| ensures |b[k]| < n {
      assert b[k] == (a + b)[|a| + k];
    }
    hide Resolve;
    if b == [] {
      assert a + b == a;
    } else {
      var m := |b| - 1;
      var all := a + b;
      assert all[..|all| - 1] == a + b[..m] && all[|all| - 1] == b[m];
      PartsAppend(a, b[..m], isOr, vals, n);
    }
  }

  // ----- The loops

  method RemoveWhitespaces(source: string) returns (result: string)
    ensures result == Strip(source)
  {
    result := [];
    var i := 0;
    while i < |source|
      invariant i <= |source| && result == Strip(source[..i])
    {
      assert source[..i + 1][..i] == source[..i];
      if !IsSpace(source[i]) {
        result := result + [source[i]];
      }
      i := i + 1;
    }
    assert source[..|source|] == source;
  }

  method SingleParse(formula: string, op: char) returns (r: Result<seq<string>>)
    ensures r == Split(formula, op)
  {
    var startPos, parityCount := -1, 0;
    var subexpressions: seq<string> := [];
    var i := 0;
    while i < |formula|
      invariant i <= |formula| && -1 <= startPos <= i
      invariant ScanTo(formula, op, i) == Ok(Scan(startPos, parityCount, subexpressions))
    {
      var c := formula[i];
      ghost var st := Scan(startPos, parityCount, subexpressions);
      ScanNext(formula, op, i, st);
      hide ScanTo;
      if c == ')' {
        parityCount := parityCount - 1;
      } else if c == '(' {
        parityCount := parityCount + 1;
        if startPos == -1 {
          startPos := i;
        }
      } else if parityCount == 0 {
        if startPos == -1 {
          if BelongsToName(c) || c == '!' {
            startPos := i;
          }
        } else if !(BelongsToName(c) || c == '!') {
          if op == c {
            subexpressions := subexpressions + [formula[startPos..i]];
            startPos := i + 1;
          } else if c != '&' && c != '|' {
            return Err(UnknownOperator(c, formula));
          }
        }
      }
      i := i + 1;
    }
    hide ScanTo;
    if startPos != -1 {
      subexpressions := subexpressions + [formula[startPos..]];
    }
    if parityCount != 0 {
      return Err(ParenthesisParity(formula));
    }
    return Ok(subexpressions);
  }

  lemma {:induction false} ScanNext(s: string, op: char, i: nat, st: Scan)
    requires i < |s| && ScanTo(s, op, i) == Ok(st)
    ensures st.start <= i && ScanTo(s, op, i + 1) == Step(s, op, i, st)
    ensures Step(s, op, i, st).Err? ==> Split(s, op) == Err(Step(s, op, i, st).error)
  {
    hide Step;
    if Step(s, op, i, st).Err? {
      FailureStays(s, op, i + 1, |s|);
    }
  }

  lemma {:induction false} FailureStays(s: string, op: char, i: nat, j: nat)
    requires i <= j <= |s| && ScanTo(s, op, i).Err?
    ensures ScanTo(s, op, j) == ScanTo(s, op, i)
    decreases j
  {
    if i < j {
      FailureStays(s, op, i, j - 1);
    }
  }

  method Evaluate(source: string, valuation: Vals) returns (r: Result<bool>)
    ensures r == Resolve(source, valuation)
    decreases |source|, 2
  {
    var stripped := RemoveWhitespaces(source);
    hide ResolveRec;
    r := EvaluateRec(stripped, valuation);
  }

  method EvaluateRec(source: string, valuation: Vals) returns (r: Result<bool>)
    ensures r == ResolveRec(source, valuation)
    decreases |source|, 1
  {
    if source == [] {
      return Err(EmptySubexpression);
    }
    SplitShortens(source, '|');
    SplitShortens(source, '&');
    hide Split;
    hide Resolve;
    hide ResolveParts;
    var currentOp := '|';
    var subexpressions := SingleParse(source, currentOp);
    if subexpressions.Err? {
      return Err(subexpressions.error);
    }
    if |subexpressions.value| == 1 {
      currentOp := '&';
      subexpressions := SingleParse(source, currentOp);
      if subexpressions.Err? {
        return Err(subexpressions.error);
      }
    }
    if |subexpressions.value| == 0 {
      return Err(NotAFormula(source));
    } else if |subexpressions.value| == 1 {
      if source[0] == '!' {
        var inner := Evaluate(source[1..], valuation);
        return Negated(inner);
      } else if source[0] == '(' {
        assert |source| == 1 ==> source == "(";
        r := Evaluate(source[1..|source| - 1], valuation);
      } else if source == "1" {
        return Ok(true);
      } else if source == "0" {
        return Ok(false);
      } else if source !in valuation {
        return Err(VariableNotFound(source));
      } else {
        return Ok(valuation[source]);
      }
    } else {
      r := EvaluateParts(subexpressions.value, currentOp == '|', valuation, |source|);
    }
  }

  /** The loop over the operands; an exception leaves it. */
  method EvaluateParts(parts: seq<string>, isOr: bool, valuation: Vals, ghost n: nat) returns (r: Result<bool>)
    requires forall k :: 0 <= k < |parts| ==> |parts[k]| < n
    ensures r == ResolveParts(parts, isOr, valuation, n)
    decreases n, 0
  {
    hide Resolve;
    var result := !isOr;
    var i := 0;
    while i < |parts|
      invariant i <= |parts|
      invariant ResolveParts(parts[..i], isOr, valuation, n) == Ok(result)
    {
      var one := Evaluate(parts[i], valuation);
      PartsNext(parts, i, isOr, valuation, n);
      hide ResolveParts;
      if one.Err? {
        return one;
      }
      result := if isOr then result || one.value else result && one.value;
      i := i + 1;
    }
    assert parts[..i] == parts;
    return Ok(result);
  }

  lemma PartsNext(parts: seq<string>, i: nat, isOr: bool, vals: Vals, n: nat)
    requires forall k :: 0 <= k < |parts| ==> |parts[k]| < n
    requires i < |parts| && ResolveParts(parts[..i], isOr, vals, n).Ok?
    ensures ResolveParts(parts[..i + 1], isOr, vals, n) ==
              Joined(ResolveParts(parts[..i], isOr, vals, n), Resolve(parts[i], vals), isOr)
    ensures Resolve(parts[i], vals).Err? ==> ResolveParts(parts, isOr, vals, n) == Resolve(parts[i], vals)
  {
    hide Resolve;
    assert parts[..i + 1][..i] == parts[..i];
    if Resolve(parts[i], vals).Err? {
      assert parts == parts[..i + 1] + parts[i + 1..];
      PartsAppend(parts[..i + 1], parts[i + 1..], isOr, vals, n);
    }
  }
}
