/** How many steps the walk along skip pointers takes: at most quadratic in the number of bits of the height. */
module SkipList {
  import opened Arithmetic

  // ----- Skip heights

  function BitAnd(x: nat, y: nat): nat {
    if x == 0 || y == 0 then 0 else 2 * BitAnd(x / 2, y / 2) + (if x % 2 == 1 && y % 2 == 1 then 1 else 0)
  }

  function InvertLowestOne(n: nat): nat {
    if n == 0 then 0 else BitAnd(n, n - 1)
  }

  lemma {:induction false} AndSelf(n: nat)
    ensures BitAnd(n, n) == n
  {
    if n > 0 {
      AndSelf(n / 2);
    }
  }

  /** Masking with the predecessor clears the lowest one bit and nothing else. */
  lemma {:induction false} InvertClears(n: nat)
    requires n > 0
    ensures InvertLowestOne(n) == if n % 2 == 1 then n - 1 else 2 * InvertLowestOne(n / 2)
    ensures InvertLowestOne(n) < n
  {
    if n % 2 == 1 {
      AndSelf(n / 2);
      if n > 1 {
        assert (n - 1) / 2 == n / 2;
      }
    } else {
      assert (n - 1) / 2 == n / 2 - 1;
      InvertClears(n / 2);
    }
  }

  function GetSkipHeight(height: int): (r: nat)
    ensures height > 0 ==> r < height
    ensures height <= 0 ==> r == 0
  {
    if height < 2 then 0
    else if height % 2 == 1 then
      InvertClears(height - 1);
      var n := InvertLowestOne(height - 1);
      (if n > 0 then InvertClears(n); InvertLowestOne(n) else 0) + 1
    else
      InvertClears(height);
      InvertLowestOne(height)
  }

  // ----- The walk, on heights

  /** Whether the walk from height `w` to height `t` follows the skip pointer. */
  predicate Follows(w: nat, t: nat) {
    var heightSkip, heightSkipPrev := GetSkipHeight(w), GetSkipHeight(w - 1);
    heightSkip == t || (heightSkip > t && !(heightSkipPrev < heightSkip - 2 && heightSkipPrev >= t))
  }

  function Steps(w: nat, t: nat): nat {
    if w <= t then 0 else 1 + Steps(if Follows(w, t) then GetSkipHeight(w) else w - 1, t)
  }

  // ----- Clearing ones

  function Inv(n: nat): (r: nat)
    ensures r <= n && (n > 0 ==> r < n)
  {
    if n > 0 then
      InvertClears(n);
      InvertLowestOne(n)
    else 0
  }

  function Ones(n: nat): nat {
    if n == 0 then 0 else Ones(n / 2) + n % 2
  }

  lemma InvCases(n: nat)
    requires n > 0
    ensures n % 2 == 1 ==> Inv(n) == n - 1
    ensures n % 2 == 0 ==> Inv(n) == 2 * Inv(n / 2)
  {
    InvertClears(n);
  }

  lemma {:induction false} OnesInv(n: nat)
    requires n > 0
    ensures Ones(n) > 0 && Ones(Inv(n)) == Ones(n) - 1 && Inv(n) % 2 == 0
  {
    InvCases(n);
    if n % 2 == 1 {
      assert (n - 1) / 2 == n / 2;
    } else {
      OnesInv(n / 2);
      assert (2 * Inv(n / 2)) / 2 == Inv(n / 2);
    }
  }

  lemma OnesSuccessor(n: nat)
    requires n % 2 == 0
    ensures Ones(n + 1) == Ones(n) + 1
  {
    assert (n + 1) / 2 == n / 2;
  }

  lemma {:induction false} OnesBound(n: nat, i: nat)
    requires n < Pow2(i)
    ensures Ones(n) <= i
  {
    if n > 0 {
      OnesBound(n / 2, i - 1);
    }
  }

  /** Clearing a one below an aligned block. */
  lemma {:induction false} InvInBlock(a: nat, i: nat, r: nat)
    requires 0 < r < Pow2(i)
    ensures Inv(a * Pow2(i) + r) == a * Pow2(i) + Inv(r)
    decreases i
  {
    var n, p := a * Pow2(i) + r, Pow2(i - 1);
    assert a * (2 * p) == 2 * (a * p) by {
      Associate(a, 2, p);
      Associate(2, a, p);
    }
    hide Inv;
    InvCases(n);
    InvCases(r);
    if r % 2 == 0 {
      assert n / 2 == a * p + r / 2;
      InvInBlock(a, i - 1, r / 2);
    }
  }

  /** Clearing the one that begins the upper half of a block. */
  lemma {:induction false} InvOfMiddle(a: nat, i: nat)
    ensures Inv((2 * a + 1) * Pow2(i)) == 2 * a * Pow2(i)
  {
    var c := (2 * a + 1) * Pow2(i);
    if i == 0 {
      assert c == 2 * a + 1;
      InvCases(c);
    } else {
      var p := Pow2(i - 1);
      assert c == 2 * ((2 * a + 1) * p) by {
        Associate(2 * a + 1, 2, p);
        Associate(2, 2 * a + 1, p);
      }
      assert (2 * a + 1) * p > 0 by {
        MulAtMost(1, 2 * a + 1, p);
      }
      hide Inv;
      InvCases(c);
      InvOfMiddle(a, i - 1);
      assert 2 * a * (2 * p) == 2 * (2 * a * p) by {
        Associate(2 * a, 2, p);
        Associate(2, 2 * a, p);
      }
    }
  }

  // ----- One phase: from the upper half of an aligned block into its lower half

  /** Where the block begins, and its middle. */
  function Base(a: nat, i: nat): nat {
    2 * a * Pow2(i)
  }

  function Mid(a: nat, i: nat): nat {
    (2 * a + 1) * Pow2(i)
  }

  lemma PhaseFacts(a: nat, i: nat)
    ensures Mid(a, i) == Base(a, i) + Pow2(i) && Inv(Mid(a, i)) == Base(a, i)
    ensures i > 0 ==> Mid(a, i) % 2 == 0 && Pow2(i) >= 2
  {
    Distribute(2 * a, 1, Pow2(i));
    InvOfMiddle(a, i);
    hide Inv;
    if i > 0 {
      MidEven(a, i);
    }
  }

  lemma MidEven(a: nat, i: nat)
    requires i > 0
    ensures Mid(a, i) % 2 == 0 && Pow2(i) >= 2
  {
    var p := Pow2(i - 1);
    assert (2 * a + 1) * (2 * p) == 2 * ((2 * a + 1) * p) by {
      Associate(2 * a + 1, 2, p);
      Associate(2, 2 * a + 1, p);
    }
  }

  lemma PhaseInv(a: nat, i: nat, r: nat)
    requires 0 < r < Pow2(i)
    ensures Inv(Mid(a, i) + r) == Mid(a, i) + Inv(r)
  {
    InvInBlock(2 * a + 1, i, r);
  }

  lemma SkipEven(w: nat)
    requires w % 2 == 0
    ensures GetSkipHeight(w) == Inv(w)
  {
  }

  lemma SkipOdd(w: nat)
    requires w % 2 == 1 && w > 1
    ensures GetSkipHeight(w) == Inv(Inv(w - 1)) + 1
  {
  }

  /** From an odd height the skip pointer is followed as soon as it does not lead too far. */
  lemma OddFollows(w: nat, t: nat)
    requires w % 2 == 1 && w > 1
    ensures Follows(w, t) <==> GetSkipHeight(w) >= t
  {
    SkipOdd(w);
    SkipEven(w - 1);
    hide GetSkipHeight;
    hide Inv;
  }

  // Above the middle of a block the walk clears ones: one at a time from a multiple of eight, two at a time from an odd
  // place. From other even places it goes to an odd one in two steps, by the pointer of the predecessor.

  /** The steps from an odd place with `m` ones to the height below the middle. */
  function OddCost(m: nat): nat {
    if m % 2 == 1 then (m + 3) / 2 else m / 2 + 2
  }

  /** The steps from the even place `r`. */
  function EvenCost(r: nat): nat {
    var m := Ones(r);
    if r == 0 then 1
    else if r % 8 == 0 then m + 1
    else if r % 8 == 4 then (if m <= 1 then 2 else 2 + OddCost(m - 1))
    else if m <= 2 then m + 1 else 2 + OddCost(m - 2)
  }

  /** Where the walk enters the lower half: at its top, or at its first two heights. */
  predicate Entry(a: nat, i: nat, x: nat) {
    x == Base(a, i) || x == Base(a, i) + 1 || x + 1 == Mid(a, i)
  }

  /** From where it enters the lower half the walk takes at most `bound` steps. */
  ghost predicate LowerBound(a: nat, i: nat, t: nat, bound: nat) {
    i > 0 && Base(a, i) <= t < Mid(a, i) && forall x :: Entry(a, i, x) && t <= x ==> Steps(x, t) <= bound
  }

  lemma StepOnce(w: nat, t: nat)
    requires w > t
    ensures Follows(w, t) ==> t <= GetSkipHeight(w) < w && Steps(w, t) == 1 + Steps(GetSkipHeight(w), t)
    ensures !Follows(w, t) ==> t <= w - 1 && Steps(w, t) == 1 + Steps(w - 1, t)
  {
    hide GetSkipHeight;
  }

  lemma SumParity(c: nat, r: nat)
    requires c % 2 == 0
    ensures (c + r) % 2 == r % 2
  {
  }

  /** Where the skip pointer of an odd height above the middle leads. */
  lemma OddSkip(a: nat, i: nat, r: nat)
    requires r % 2 == 1 && r < Pow2(i)
    ensures var w, s := Mid(a, i) + r, GetSkipHeight(Mid(a, i) + r);
            && w % 2 == 1 && w > 1
            && (Inv(r - 1) > 0 ==> s == Mid(a, i) + (Inv(Inv(r - 1)) + 1))
            && (Inv(r - 1) == 0 ==> s <= Base(a, i) + 1)
            && (Inv(r - 1) == 0 && r > 1 ==> s == Base(a, i) + 1)
  {
    assert i > 0;
    InvLess(Base(a, i));
    hide *;
    PhaseFacts(a, i);
    var c, n := Mid(a, i), Inv(r - 1);
    SumParity(c, r);
    SkipOdd(c + r);
    if r > 1 {
      assert c + r - 1 == c + (r - 1);
      BeforeOdd(a, i, r);
    }
  }

  lemma BeforeOdd(a: nat, i: nat, r: nat)
    requires 1 < r < Pow2(i)
    ensures Inv(Mid(a, i) + (r - 1)) == Mid(a, i) + Inv(r - 1)
    ensures Inv(r - 1) > 0 ==> Inv(Mid(a, i) + Inv(r - 1)) == Mid(a, i) + Inv(Inv(r - 1))
  {
    InvLess(r - 1);
    hide *;
    PhaseInv(a, i, r - 1);
    if Inv(r - 1) > 0 {
      PhaseInv(a, i, Inv(r - 1));
    }
  }

  lemma InvLess(n: nat)
    ensures Inv(n) <= n
  {
  }

  /** Where the skip pointer of an even height above the middle leads. */
  lemma EvenSkip(a: nat, i: nat, r: nat)
    requires r % 2 == 0 && 0 < r < Pow2(i)
    ensures r >= 2 && (r - 1) % 2 == 1
    ensures GetSkipHeight(Mid(a, i) + r) == Mid(a, i) + Inv(r)
  {
    assert i > 0;
    hide *;
    OddBefore(r);
    PhaseFacts(a, i);
    SumParity(Mid(a, i), r);
    SkipEven(Mid(a, i) + r);
    PhaseInv(a, i, r);
  }

  lemma OddBefore(r: nat)
    requires r % 2 == 0 && r > 0
    ensures r >= 2 && (r - 1) % 2 == 1
  {
  }

  // ----- Places by their lowest ones

  lemma Doubles(n: nat)
    ensures Ones(2 * n) == Ones(n) && Ones(2 * n + 1) == Ones(n) + 1
    ensures Inv(2 * n) == 2 * Inv(n) && Inv(2 * n + 1) == 2 * n
  {
    assert 2 * n / 2 == n && (2 * n + 1) / 2 == n;
    InvCases(2 * n + 1);
    if n > 0 {
      InvCases(2 * n);
    }
    hide Inv;
  }

  lemma FourFold(k: nat)
    requires k > 0
    ensures Inv(4 * k) == 4 * Inv(k) && Inv(k) < k
  {
    assert 4 * k == 2 * (2 * k);
    Doubles(2 * k);
    Doubles(k);
    hide Ones;
    hide InvertLowestOne;
  }

  lemma MultipleFour(n: nat)
    requires n > 0 && n % 4 == 0
    ensures Inv(n) % 4 == 0 && Inv(n) <= n - 4
  {
    hide *;
    FourFold(n / 4);
    assert n == 4 * (n / 4);
  }

  lemma MultipleEight(n: nat)
    requires n > 0 && n % 8 == 0
    ensures Inv(n) % 8 == 0 && Inv(n) <= n - 8
  {
    hide *;
    var k := n / 8;
    assert n == 4 * (2 * k);
    FourFold(2 * k);
    FourFold(k);
    Doubles(k);
  }

  lemma InvBelow(n: nat)
    ensures n > 0 ==> Inv(n) <= n - 1
  {
  }

  lemma PlaceEight(r: nat)
    requires r % 8 == 0 && r > 0
    ensures Inv(r - 2) == r - 4 && Inv(r - 4) == r - 8
  {
    hide *;
    var k := r / 8;
    assert r - 2 == 2 * (2 * (2 * k - 1) + 1) && r - 4 == 2 * (2 * (2 * (k - 1) + 1));
    Doubles(2 * (2 * k - 1) + 1);
    Doubles(2 * k - 1);
    Doubles(2 * (2 * (k - 1) + 1));
    Doubles(2 * (k - 1) + 1);
    Doubles(k - 1);
  }

  lemma PlaceFour(r: nat)
    requires r % 8 == 4
    ensures Inv(r) == r - 4 && Inv(r - 2) == r - 4 && (r - 4) % 8 == 0
  {
    hide *;
    var k := r / 8;
    assert r == 2 * (2 * (2 * k + 1)) && r - 2 == 2 * (2 * (2 * k) + 1);
    Doubles(2 * (2 * k + 1));
    Doubles(2 * k + 1);
    Doubles(2 * (2 * k) + 1);
    Doubles(2 * k);
    Doubles(k);
  }

  lemma PlaceTwo(r: nat)
    requires r % 4 == 2
    ensures Inv(r) == r - 2 && (r - 2) % 4 == 0
  {
    hide *;
    var k := r / 4;
    assert r == 2 * (2 * k + 1);
    Doubles(2 * k + 1);
    Doubles(k);
  }

  lemma ZeroOnes()
    ensures Ones(0) == 0 && Inv(0) == 0
  {
  }

  /** A number whose only one was cleared had one. */
  lemma LastOne(n: nat)
    ensures Inv(n) == 0 && n > 0 ==> Ones(n) == 1
  {
    ZeroOnes();
    if n > 0 {
      OnesInv(n);
    }
    hide Ones;
    hide Inv;
  }

  // ----- From the upper half to the lower one

  lemma AtEntry(a: nat, i: nat, t: nat, bound: nat, x: nat)
    requires LowerBound(a, i, t, bound) && Entry(a, i, x) && t <= x
    ensures Steps(x, t) <= bound
  {
    hide Steps;
    hide Mid;
    hide Base;
    hide Entry;
  }

  lemma TargetBelow(a: nat, i: nat, t: nat, bound: nat)
    requires LowerBound(a, i, t, bound)
    ensures Base(a, i) <= t < Mid(a, i) && i > 0
  {
    hide Mid;
    hide Base;
    hide Steps;
  }

  /** A pointer that leads to the first two heights or below them enters if it is followed. */
  lemma LowEntry(a: nat, i: nat, s: nat, t: nat)
    requires Base(a, i) <= t <= s <= Base(a, i) + 1
    ensures Entry(a, i, s)
  {
    hide Base;
    hide Mid;
  }

  lemma {:induction false} PhaseOdd(a: nat, i: nat, t: nat, bound: nat, r: nat)
    requires r % 2 == 1 && r < Pow2(i) && LowerBound(a, i, t, bound)
    ensures Steps(Mid(a, i) + r, t) <= OddCost(Ones(r)) + bound
    decreases r
  {
    hide *;
    var w, n := Mid(a, i) + r, Inv(r - 1);
    TargetBelow(a, i, t, bound);
    OddSkip(a, i, r);
    OddFollows(w, t);
    StepOnce(w, t);
    if n > 0 {
      OddNext(r);
      PhaseOdd(a, i, t, bound, Inv(n) + 1);
    } else if Follows(w, t) {
      OddLast(r);
      LowEntry(a, i, GetSkipHeight(w), t);
      AtEntry(a, i, t, bound, GetSkipHeight(w));
    } else {
      OddLast(r);
      PhaseEven(a, i, t, bound, r - 1);
    }
  }

  lemma OddNext(r: nat)
    requires r % 2 == 1 && Inv(r - 1) > 0
    ensures var q := Inv(Inv(r - 1)) + 1; q < r && q % 2 == 1 && OddCost(Ones(r)) == 1 + OddCost(Ones(q))
  {
    hide Ones;
    hide Inv;
    ZeroOnes();
    OnesSuccessor(r - 1);
    OnesInv(r - 1);
    OnesInv(Inv(r - 1));
    OnesSuccessor(Inv(Inv(r - 1)));
    InvBelow(r - 1);
    InvBelow(Inv(r - 1));
  }

  lemma OddLast(r: nat)
    requires r % 2 == 1 && Inv(r - 1) == 0
    ensures OddCost(Ones(r)) >= 1 + EvenCost(r - 1) && OddCost(Ones(r)) >= 1
  {
    hide Ones;
    hide Inv;
    ZeroOnes();
    OnesSuccessor(r - 1);
    LastOne(r - 1);
  }

  lemma {:induction false} PhaseEven(a: nat, i: nat, t: nat, bound: nat, r: nat)
    requires r % 2 == 0 && r < Pow2(i) && LowerBound(a, i, t, bound)
    ensures Steps(Mid(a, i) + r, t) <= EvenCost(r) + bound
    decreases r
  {
    hide *;
    var w := Mid(a, i) + r;
    TargetBelow(a, i, t, bound);
    PhaseFacts(a, i);
    StepOnce(w, t);
    if r == 0 {
      FromMiddle(a, i, t);
      CostOfZero();
      AtEntry(a, i, t, bound, if Follows(w, t) then GetSkipHeight(w) else w - 1);
    } else {
      EvenSkip(a, i, r);
      OddSkip(a, i, r - 1);
      EvenChoice(a, i, t, r);
      if Follows(w, t) {
        PhaseEven(a, i, t, bound, Inv(r));
      } else {
        var v := w - 1;
        assert v == Mid(a, i) + (r - 1) && r - 1 - 1 == r - 2;
        OddFollows(v, t);
        StepOnce(v, t);
        if Inv(r - 2) > 0 {
          PhaseOdd(a, i, t, bound, Inv(Inv(r - 2)) + 1);
        } else {
          LowEntry(a, i, GetSkipHeight(v), t);
          AtEntry(a, i, t, bound, GetSkipHeight(v));
        }
      }
    }
  }

  lemma CostOfZero()
    ensures EvenCost(0) == 1
  {
  }

  /** From the middle the walk goes to the first height, or to the height below. */
  lemma FromMiddle(a: nat, i: nat, t: nat)
    requires i > 0 && Base(a, i) <= t < Mid(a, i)
    ensures Follows(Mid(a, i), t) ==> Entry(a, i, GetSkipHeight(Mid(a, i)))
    ensures Entry(a, i, Mid(a, i) - 1)
  {
    PhaseFacts(a, i);
    SkipEven(Mid(a, i));
    hide GetSkipHeight;
    hide Mid;
    hide Base;
    hide Inv;
  }

  /** At an even place: which pointer is followed, and what it saves. */
  lemma EvenChoice(a: nat, i: nat, t: nat, r: nat)
    requires r % 2 == 0 && r > 1 && Base(a, i) <= t < Mid(a, i)
    requires GetSkipHeight(Mid(a, i) + r) == Mid(a, i) + Inv(r)
    requires var s := GetSkipHeight(Mid(a, i) + (r - 1));
             && (Inv(r - 2) > 0 ==> s == Mid(a, i) + (Inv(Inv(r - 2)) + 1))
             && (Inv(r - 2) == 0 ==> s <= Base(a, i) + 1)
    ensures EvenCost(r) >= 2
    ensures Follows(Mid(a, i) + r, t) ==> Inv(r) < r && Inv(r) % 2 == 0 && EvenCost(r) >= 1 + EvenCost(Inv(r))
    ensures !Follows(Mid(a, i) + r, t) ==> t <= GetSkipHeight(Mid(a, i) + (r - 1)) && Mid(a, i) + (r - 1) > t
    ensures !Follows(Mid(a, i) + r, t) && Inv(r - 2) > 0 ==>
              var q := Inv(Inv(r - 2)) + 1; q < r && q % 2 == 1 && EvenCost(r) >= 2 + OddCost(Ones(q))
  {
    hide *;
    ChoiceRule(Mid(a, i), r, t);
    PlaceChoice(r);
  }

  /** What the two pointers at an even place save. */
  lemma PlaceChoice(r: nat)
    requires r % 2 == 0 && r > 1
    ensures EvenCost(r) >= 2 && Inv(r) < r && Inv(r) % 2 == 0
    ensures var q := Inv(Inv(r - 2)) + 1;
            if Inv(r - 2) > 0 && q < Inv(r) - 2 then q < r && q % 2 == 1 && EvenCost(r) >= 2 + OddCost(Ones(q))
            else EvenCost(r) >= 1 + EvenCost(Inv(r))
  {
    hide *;
    Residues(r);
    if r % 8 == 0 {
      ChoiceEight(r);
    } else if r % 8 == 4 {
      ChoiceFour(r);
    } else {
      ChoiceTwo(r);
    }
  }

  lemma Residues(r: nat)
    ensures r % 2 == 0 ==> r % 8 == 0 || r % 8 == 4 || r % 4 == 2
  {
  }

  lemma ChoiceRule(c: nat, r: nat, t: nat)
    requires r > 1 && t < c && GetSkipHeight(c + r) == c + Inv(r)
    ensures !Follows(c + r, t) <==> GetSkipHeight(c + (r - 1)) < c + Inv(r) - 2 && GetSkipHeight(c + (r - 1)) >= t
  {
    assert c + r - 1 == c + (r - 1);
    hide GetSkipHeight;
    hide Inv;
  }

  lemma ChoiceEight(r: nat)
    requires r % 8 == 0 && r > 0
    ensures Inv(r - 2) > 0 && Inv(Inv(r - 2)) + 1 >= Inv(r) - 2
    ensures EvenCost(r) >= 2 && Inv(r) < r && Inv(r) % 2 == 0 && EvenCost(r) >= 1 + EvenCost(Inv(r))
  {
    PlaceEight(r);
    MultipleEight(r);
    OnesInv(r);
    hide Ones;
    hide Inv;
  }

  lemma ChoiceFour(r: nat)
    requires r % 8 == 4
    ensures EvenCost(r) >= 2 && Inv(r) < r && Inv(r) % 2 == 0
    ensures Inv(r - 2) > 0 ==>
              var q := Inv(Inv(r - 2)) + 1; q < Inv(r) - 2 && q < r && q % 2 == 1 && EvenCost(r) >= 2 + OddCost(Ones(q))
    ensures Inv(r - 2) == 0 ==> EvenCost(r) >= 1 + EvenCost(Inv(r))
  {
    PlaceFour(r);
    OnesInv(r);
    if r > 4 {
      ChoiceFourHigh(r);
    } else {
      ZeroOnes();
    }
    hide Ones;
    hide Inv;
  }

  lemma ChoiceFourHigh(r: nat)
    requires r % 8 == 4 && r > 4 && Inv(r) == r - 4 == Inv(r - 2) && (r - 4) % 8 == 0 && Ones(r) == Ones(r - 4) + 1
    ensures var q := Inv(Inv(r - 2)) + 1; q < Inv(r) - 2 && q < r && q % 2 == 1 && EvenCost(r) >= 2 + OddCost(Ones(q))
  {
    hide *;
    var n := r - 4;
    MultipleEight(n);
    OnesInv(n);
    OnesSuccessor(Inv(n));
    CostAtFour(r);
    OddAfter(Inv(n));
  }

  lemma CostAtFour(r: nat)
    requires r % 8 == 4 && Ones(r) > 1
    ensures EvenCost(r) == 2 + OddCost(Ones(r) - 1)
  {
    hide Ones;
    hide OddCost;
  }

  lemma OddAfter(n: nat)
    requires n % 2 == 0
    ensures (n + 1) % 2 == 1
  {
  }

  lemma ChoiceTwo(r: nat)
    requires r % 4 == 2
    ensures EvenCost(r) >= 2 && Inv(r) < r && Inv(r) % 2 == 0
    ensures Inv(r - 2) > 0 ==>
              var q := Inv(Inv(r - 2)) + 1; q < Inv(r) - 2 && q < r && q % 2 == 1 && EvenCost(r) >= 2 + OddCost(Ones(q))
    ensures Inv(r - 2) == 0 ==> EvenCost(r) >= 1 + EvenCost(Inv(r))
  {
    PlaceTwo(r);
    OnesInv(r);
    if Inv(r - 2) > 0 {
      ChoiceTwoHigh(r);
    } else {
      ZeroOnes();
      LastOne(r - 2);
    }
    hide Ones;
    hide Inv;
  }

  lemma ChoiceTwoHigh(r: nat)
    requires r % 4 == 2 && Inv(r) == r - 2 && (r - 2) % 4 == 0 && Inv(r - 2) > 0 && Ones(r) == Ones(r - 2) + 1
    ensures var q := Inv(Inv(r - 2)) + 1; q < Inv(r) - 2 && q < r && q % 2 == 1 && EvenCost(r) >= 2 + OddCost(Ones(q))
  {
    ZeroOnes();
    hide *;
    var n := r - 2;
    MultipleFour(n);
    OnesInv(n);
    var o := Inv(n);
    MultipleFour(o);
    OnesInv(o);
    OnesSuccessor(Inv(o));
    CostAtTwo(r);
    OddAfter(Inv(o));
  }

  lemma CostAtTwo(r: nat)
    requires r % 4 == 2 && Ones(r) > 2
    ensures EvenCost(r) == 2 + OddCost(Ones(r) - 2)
  {
    hide Ones;
    hide OddCost;
  }

  // ----- From the top of an aligned block

  /** From the top of an aligned block of 2^i heights to any height in it. */
  function Top(i: nat): nat {
    if i <= 2 then i else (i + 1) * (i + 1) / 4 + i - 3
  }

  lemma EvenQuarter(h: nat)
    ensures (2 * h) * (2 * h) / 4 == h * h && (2 * h + 1) * (2 * h + 1) / 4 == h * h + h
  {
    var s := h * h;
    assert (2 * h) * (2 * h) == 4 * s;
    assert (2 * h + 1) * (2 * h + 1) == 4 * (s + h) + 1;
  }

  lemma QuarterStep(n: nat)
    ensures (n + 1) * (n + 1) / 4 == n * n / 4 + (n + 1) / 2
  {
    var h := n / 2;
    EvenQuarter(h);
    if n % 2 == 1 {
      EvenQuarter(h + 1);
      assert (h + 1) * (h + 1) == h * h + 2 * h + 1;
      assert n == 2 * h + 1 && n + 1 == 2 * (h + 1);
    } else {
      assert n == 2 * h;
    }
  }

  lemma TopStep(i: nat)
    requires i >= 3
    ensures Top(i + 1) == OddCost(i) + Top(i) && Top(i) >= 1
  {
    var n := i + 1;
    QuarterStep(n);
    var square := n * n / 4;
    assert n * n >= 0;
    assert square >= 0;
    assert Top(i) == square + i - 3;
    assert Top(i + 1) == square + (n + 1) / 2 + i - 2;
    if i == 3 {
      assert n * n == 16;
    }
  }

  lemma TopGrows(i: nat)
    ensures Top(i) <= Top(i + 1) && (i > 0 ==> Top(i) >= 1)
  {
    if i >= 3 {
      TopStep(i);
    }
  }

  lemma {:induction false} AllOnes(i: nat)
    ensures Ones(Pow2(i) - 1) == i
  {
    if i == 0 {
      ZeroOnes();
    } else {
      PowDouble(i);
      hide *;
      AllOnes(i - 1);
      Doubles(Pow2(i - 1) - 1);
    }
  }

  lemma PowDouble(i: nat)
    requires i > 0
    ensures Pow2(i) - 1 == 2 * (Pow2(i - 1) - 1) + 1 && (Pow2(i) - 1) % 2 == 1
  {
    var n, half := Pow2(i) - 1, Pow2(i - 1) - 1;
    assert n == 2 * half + 1;
    hide *;
    OddTwice(n, half);
  }

  lemma OddTwice(n: int, half: int)
    requires n == 2 * half + 1
    ensures n % 2 == 1
  {
  }

  lemma OneAbove(t: nat)
    ensures Steps(t + 1, t) == 1 && Steps(t, t) == 0
  {
    StepOnce(t + 1, t);
    hide GetSkipHeight;
    hide Follows;
  }

  lemma BlockHalves(b: nat, i: nat)
    requires i > 0
    ensures Base(b, i - 1) == b * Pow2(i) == (2 * b) * Pow2(i - 1)
    ensures Mid(b, i - 1) == (2 * b + 1) * Pow2(i - 1) == Base(b, i - 1) + Pow2(i - 1)
    ensures Pow2(i) == 2 * Pow2(i - 1)
  {
    var p := Pow2(i - 1);
    PhaseFacts(b, i - 1);
    Associate(2, b, p);
    Associate(b, 2, p);
  }

  /** The entries of the lower half, if from its top at most `bound` steps are taken. */
  lemma Entries(b: nat, i: nat, t: nat, bound: nat)
    requires i > 0 && Base(b, i) <= t < Mid(b, i) && Steps(Mid(b, i) - 1, t) <= bound && bound >= 1
    ensures LowerBound(b, i, t, bound)
  {
    hide Steps;
    hide Base;
    hide Mid;
    OneAbove(t);
    forall x | Entry(b, i, x) && t <= x ensures Steps(x, t) <= bound {
      assert x == t || x == t + 1 || x == Mid(b, i) - 1;
    }
  }

  /** The top of a block of four. */
  lemma TopOfFour(b: nat, t: nat)
    requires Base(b, 1) <= t < Mid(b, 1)
    ensures Steps(Mid(b, 1) + 1, t) <= 2
  {
    hide *;
    SmallPowers();
    PhaseFacts(b, 1);
    ZeroOnes();
    var c := Mid(b, 1);
    var r := 1;
    OddSkip(b, 1, r);
    OddFollows(c + r, t);
    StepOnce(c + r, t);
    SkipEven(c);
    StepOnce(c, t);
    OneAbove(t);
    if !Follows(c + r, t) {
      FollowsTarget(c, t);
    }
  }

  lemma FollowsTarget(w: nat, t: nat)
    ensures GetSkipHeight(w) == t ==> Follows(w, t)
  {
    hide GetSkipHeight;
  }

  lemma SmallPowers()
    ensures Pow2(0) == 1 && Pow2(1) == 2 && Pow2(2) == 4
  {
  }

  /** The top of a block of eight. */
  lemma TopOfEight(b: nat, t: nat)
    requires Base(b, 2) <= t < Mid(b, 2) && Steps(Mid(b, 2) - 1, t) <= 2
    ensures Steps(Mid(b, 2) + 3, t) <= 4
  {
    hide *;
    SmallPowers();
    PhaseFacts(b, 2);
    OneAbove(t);
    if t <= Base(b, 2) + 1 {
      var c, r := Mid(b, 2), 3;
      TwoCleared();
      OddSkip(b, 2, r);
      OddFollows(c + r, t);
      StepOnce(c + r, t);
    } else {
      Entries(b, 2, t, 1);
      ThreeOnes();
      PhaseOdd(b, 2, t, 1, 3);
    }
  }

  lemma TwoCleared()
    ensures Inv(2) == 0
  {
    InvCases(2);
    InvCases(1);
  }

  lemma ThreeOnes()
    ensures Ones(3) == 2 && OddCost(2) == 3
  {
    assert Ones(1) == 1;
  }

  lemma {:induction false} TopBound(b: nat, i: nat, t: nat)
    requires b * Pow2(i) <= t < b * Pow2(i) + Pow2(i)
    ensures Steps(b * Pow2(i) + Pow2(i) - 1, t) <= Top(i)
    decreases i
  {
    hide *;
    SmallPowers();
    if i == 0 {
      OneAbove(t);
    } else {
      var j := i - 1;
      BlockHalves(b, i);
      TopGrows(j);
      if t >= Mid(b, j) {
        TopBound(2 * b + 1, j, t);
      } else {
        TopBound(2 * b, j, t);
        TopPhase(b, j, t);
      }
    }
  }

  /** From the top of the upper half into the lower half. */
  lemma TopPhase(b: nat, j: nat, t: nat)
    requires Base(b, j) <= t < Mid(b, j) && Steps(Mid(b, j) - 1, t) <= Top(j)
    ensures Steps(Mid(b, j) + Pow2(j) - 1, t) <= Top(j + 1)
  {
    hide *;
    SmallPowers();
    SmallTops();
    PhaseFacts(b, j);
    if j == 0 {
      OneAbove(t);
    } else if j == 1 {
      TopOfFour(b, t);
    } else if j == 2 {
      TopOfEight(b, t);
    } else {
      TopStep(j);
      AllOnes(j);
      PowDouble(j);
      Entries(b, j, t, Top(j));
      PhaseOdd(b, j, t, Top(j), Pow2(j) - 1);
    }
  }

  lemma SmallTops()
    ensures Top(0) == 0 && Top(1) == 1 && Top(2) == 2 && Top(3) == 4
  {
  }

  // ----- From anywhere

  /** The first phase, from any place above the middle of a block whose halves have 2^j heights. */
  function FirstPhase(j: nat): nat {
    if j <= 8 then 6 else j - 2
  }

  lemma OddPlace(r: nat, j: nat)
    requires r % 2 == 1 && r < Pow2(j)
    ensures OddCost(Ones(r)) <= FirstPhase(j)
  {
    OnesBound(r, j);
    hide Ones;
  }

  lemma EvenPlace(r: nat, j: nat)
    requires r % 2 == 0 && r < Pow2(j) && j > 0
    ensures EvenCost(r) <= FirstPhase(j)
  {
    hide Ones;
    hide Pow2;
    hide EvenCost;
    if r == 0 {
      CostOfZero();
    } else if r % 8 == 0 {
      HalvedThrice(r, j);
      CostOfEight(r);
    } else if r % 4 == 0 {
      HalvedTwice(r, j);
      CostOfFour(r);
    } else {
      Halved(r, j);
      CostOfTwo(r);
    }
  }

  lemma CostOfEight(r: nat)
    requires r % 8 == 0 && r > 0
    ensures EvenCost(r) == Ones(r) + 1
  {
    hide Ones;
  }

  lemma CostOfFour(r: nat)
    requires r % 8 == 4
    ensures EvenCost(r) <= (Ones(r) + 7) / 2
  {
    hide Ones;
  }

  lemma CostOfTwo(r: nat)
    requires r % 4 == 2
    ensures EvenCost(r) <= (Ones(r) + 6) / 2
  {
    hide Ones;
  }

  lemma HalvedTwice(r: nat, j: nat)
    requires r % 4 == 0 && 0 < r < Pow2(j)
    ensures j > 1 && 0 < r / 4 < Pow2(j - 2) && Ones(r) == Ones(r / 4) <= j - 2
  {
    hide *;
    Halved(r, j);
    Halved(r / 2, j - 1);
    assert r / 2 / 2 == r / 4;
  }

  lemma HalvedThrice(r: nat, j: nat)
    requires r % 8 == 0 && 0 < r < Pow2(j)
    ensures j > 2 && Ones(r) <= j - 3
  {
    hide *;
    HalvedTwice(r, j);
    Halved(r / 4, j - 2);
  }

  /** Of an even place below 2^j at most j - 1 digits are ones. */
  lemma Halved(r: nat, j: nat)
    requires r % 2 == 0 && 0 < r < Pow2(j)
    ensures j > 0 && 0 < r / 2 < Pow2(j - 1) && Ones(r) == Ones(r / 2) <= j - 1
  {
    assert j > 0;
    OnesBound(r / 2, j - 1);
  }

  lemma Phase(b: nat, j: nat, w: nat, t: nat)
    requires Base(b, j) <= t < Mid(b, j) <= w < Mid(b, j) + Pow2(j)
    ensures Steps(w, t) <= FirstPhase(j) + Top(j)
  {
    hide *;
    SmallPowers();
    PhaseFacts(b, j);
    if j == 0 {
      OneAbove(t);
      FirstPhaseSome(j);
    } else {
      var r := w - Mid(b, j);
      TopGrows(j);
      BlockHalves(b, j + 1);
      TopBound(2 * b, j, t);
      Entries(b, j, t, Top(j));
      if r % 2 == 0 {
        EvenPlace(r, j);
        PhaseEven(b, j, t, Top(j), r);
      } else {
        OddPlace(r, j);
        PhaseOdd(b, j, t, Top(j), r);
      }
    }
  }

  lemma FirstPhaseSome(j: nat)
    ensures FirstPhase(j) >= 6 && FirstPhase(j) <= FirstPhase(j + 1)
  {
  }

  lemma {:induction false} BlockBound(b: nat, i: nat, w: nat, t: nat)
    requires b * Pow2(i) <= t <= w < b * Pow2(i) + Pow2(i)
    ensures Steps(w, t) <= if i == 0 then 0 else FirstPhase(i - 1) + Top(i - 1)
    decreases i
  {
    hide *;
    SmallPowers();
    if i == 0 {
      OneAbove(t);
    } else {
      var j := i - 1;
      BlockHalves(b, i);
      if w < Mid(b, j) {
        BlockBound(2 * b, j, w, t);
      } else if t >= Mid(b, j) {
        BlockBound(2 * b + 1, j, w, t);
      } else {
        Phase(b, j, w, t);
      }
      if j > 0 {
        TopGrows(j - 1);
        FirstPhaseSome(j - 1);
      }
    }
  }

  /** From any height below 2^k, with k at least nine, to any lower one: at most k^2 / 4 + 2k - 7 steps. */
  lemma StepsBound(w: nat, t: nat, k: nat)
    requires t <= w < Pow2(k) && k >= 9
    ensures Steps(w, t) <= k * k / 4 + 2 * k - 7
  {
    assert 0 * Pow2(k) == 0;
    hide Steps;
    hide Pow2;
    BlockBound(0, k, w, t);
  }

  /** Below 2^18 that is the documented maximum. */
  lemma DocumentedSteps(w: nat, t: nat)
    requires t <= w < Pow2(18)
    ensures Steps(w, t) <= 110
  {
    hide Pow2;
    hide Steps;
    StepsBound(w, t, 18);
  }
}
