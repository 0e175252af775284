/** 64-bit 1-Wire ROM codes and the order in which a search is meant to enumerate a set of them. */
module RomOrder {

  /** The 64 bits of a ROM code in transmission order. */
  type Code = c: seq<bool> | |c| == 64 witness seq(64, _ => false)

  ghost predicate SamePrefix(r: Code, s: Code, n: nat)
    requires n <= 64
  {
    forall i: nat | i < n :: r[i] == s[i]
  }

  /** The codes first differ at bit p, where r has 0 and s has 1. */
  ghost predicate Splits(r: Code, s: Code, p: nat)
  {
    p < 64 && SamePrefix(r, s, p) && !r[p] && s[p]
  }

  /** Lexicographic order on bits, first transmitted bit most significant. */
  ghost predicate Less(r: Code, s: Code)
  {
    exists p: nat :: Splits(r, s, p)
  }

  lemma {:induction false} LessTotal(r: Code, s: Code, n: nat := 0)
    requires n <= 64 && SamePrefix(r, s, n) && r != s
    ensures Less(r, s) || Less(s, r)
    decreases 64 - n
  {
    if n == 64 {
      assert false;
    } else if r[n] == s[n] {
      LessTotal(r, s, n + 1);
    } else {
      assert Splits(r, s, n) || Splits(s, r, n);
    }
  }

  lemma LessAsymmetric(r: Code, s: Code)
    requires Less(r, s)
    ensures !Less(s, r) && r != s
  {
    var p: nat :| Splits(r, s, p);
    forall q: nat ensures !Splits(s, r, q) {
      assert q < p ==> r[q] == s[q];
    }
  }

  lemma LessTransitive(r: Code, s: Code, t: Code)
    requires Less(r, s) && Less(s, t)
    ensures Less(r, t)
  {
    var p: nat :| Splits(r, s, p);
    var q: nat :| Splits(s, t, q);
    assert Splits(r, t, if p < q then p else q);
  }

  /** m is the least element of S. */
  ghost predicate IsMin(S: set<Code>, m: Code)
  {
    m in S && forall s | s in S :: s == m || Less(m, s)
  }

  lemma {:induction false} MinExists(S: set<Code>)
    requires S != {}
    ensures exists m :: IsMin(S, m)
  {
    var x :| x in S;
    if S == {x} {
      assert IsMin(S, x);
    } else {
      MinExists(S - {x});
      var m :| IsMin(S - {x}, m);
      LessTotal(x, m);
      if Less(x, m) {
        forall s | s in S && s != x ensures Less(x, s) {
          if s != m { LessTransitive(x, m, s); }
        }
        assert IsMin(S, x);
      } else {
        assert IsMin(S, m);
      }
    }
  }

  ghost function Min(S: set<Code>): (m: Code)
    requires S != {}
    ensures IsMin(S, m)
  {
    MinExists(S);
    var m :| IsMin(S, m);
    m
  }

  /** The members of S in increasing order. */
  ghost function Order(S: set<Code>): (o: seq<Code>)
  {
    if S == {} then [] else [Min(S)] + Order(S - {Min(S)})
  }

  ghost predicate Increasing(o: seq<Code>)
  {
    forall i, j | 0 <= i < j < |o| :: Less(o[i], o[j])
  }

  /** Order lists each member of S exactly once, in increasing order. */
  lemma {:induction false} OrderIsSortedListing(S: set<Code>)
    ensures |Order(S)| == |S|
    ensures forall r :: r in Order(S) <==> r in S
    ensures Increasing(Order(S))
  {
    if S != {} {
      var m := Min(S);
      OrderIsSortedListing(S - {m});
      assert Order(S) == [m] + Order(S - {m});
    }
  }

  /** The successor of position k in Order(S) is the least member above it. */
  ghost predicate IsNext(S: set<Code>, r: Code, t: Code)
  {
    t in S && Less(r, t) && forall s | s in S && Less(r, s) :: s == t || Less(t, s)
  }

  lemma OrderNeighbours(S: set<Code>, k: nat)
    requires k < |Order(S)|
    ensures k == 0 ==> IsMin(S, Order(S)[0])
    ensures Order(S)[k] in S
    ensures k + 1 < |Order(S)| ==> IsNext(S, Order(S)[k], Order(S)[k + 1])
    ensures k + 1 == |Order(S)| ==> forall s | s in S :: !Less(Order(S)[k], s)
  {
    OrderIsSortedListing(S);
    var o := Order(S);
    assert o[k] in o;
    if k == 0 {
      assert o[0] == Min(S);
    }
    forall s | s in S && Less(o[k], s)
      ensures k + 1 < |o| && (s == o[k + 1] || Less(o[k + 1], s))
    {
      LaterInOrder(o, k, s);
    }
    if k + 1 < |o| {
      assert o[k + 1] in o;
    }
  }

  lemma LaterInOrder(o: seq<Code>, k: nat, s: Code)
    requires k < |o| && Increasing(o) && s in o && Less(o[k], s)
    ensures k + 1 < |o| && (s == o[k + 1] || Less(o[k + 1], s))
  {
    var j :| 0 <= j < |o| && o[j] == s;
    assert j < k ==> Less(o[j], o[k]);
    LessAsymmetric(o[k], s);
  }

  /** At bit i, after the first i bits of r, members of S branch both ways and r goes to 0. */
  ghost predicate IsJunction(S: set<Code>, r: Code, i: nat)
  {
    i < 64 && exists s :: s in S && Splits(r, s, i)
  }

  /** The highest 1-based junction of r in S among its first n bits, or 0. */
  ghost function LastJunction(S: set<Code>, r: Code, n: nat): (d: nat)
    requires n <= 64
    ensures d <= n
    ensures d > 0 ==> IsJunction(S, r, d - 1)
    ensures forall i: nat | d <= i < n :: !IsJunction(S, r, i)
  {
    if n == 0 then 0 else if IsJunction(S, r, n - 1) then n else LastJunction(S, r, n - 1)
  }

  /** A code with no junction is the last one. */
  lemma NoJunctionIffLast(S: set<Code>, r: Code)
    ensures LastJunction(S, r, 64) == 0 <==> forall s | s in S :: !Less(r, s)
  {
    if LastJunction(S, r, 64) == 0 {
      forall s | s in S ensures !Less(r, s) {
        if Less(r, s) {
          var p: nat :| Splits(r, s, p);
          assert IsJunction(S, r, p);
        }
      }
    } else {
      var d := LastJunction(S, r, 64);
      var s :| s in S && Splits(r, s, d - 1);
      assert Less(r, s);
    }
  }

  /** The successor of r keeps the path up to the last junction of r and takes the 1 branch there. */
  lemma NextBranchesAtLastJunction(S: set<Code>, r: Code, t: Code)
    requires IsNext(S, r, t)
    ensures var d := LastJunction(S, r, 64); d > 0 && Splits(r, t, d - 1)
  {
    var p: nat :| Splits(r, t, p);
    assert IsJunction(S, r, p);
    var d := LastJunction(S, r, 64);
    if p < d - 1 {
      var s :| s in S && Splits(r, s, d - 1);
      assert Less(r, s) && Splits(s, t, p);
      assert Less(s, t);
      LessAsymmetric(s, t);
      assert false;
    }
  }

  /** Past the last junction, or from the start for the least code, the target always takes 0 at a fork. */
  lemma TargetTakesZero(S: set<Code>, r: Code, t: Code, d: nat, i: nat, s: Code)
    requires d <= i < 64 && s in S && SamePrefix(s, t, i) && s[i] != t[i]
    requires if d == 0 then IsMin(S, t) else IsNext(S, r, t) && Splits(r, t, d - 1)
    ensures !t[i]
  {
    if t[i] {
      assert Splits(s, t, i);
      assert d != 0 ==> Splits(r, s, d - 1) && Less(r, s);
      LessAsymmetric(s, t);
      assert false;
    }
  }

  /** t is what a pass over S must find: the least code (d == 0), or the successor of r, whose last
      junction is d. */
  ghost predicate IsTarget(S: set<Code>, r: Code, d: nat, t: Code)
  {
    d <= 64 && if d == 0 then IsMin(S, t) else IsNext(S, r, t) && Splits(r, t, d - 1)
  }

  /** The stored code after i bits of the path to t have been written over it. */
  function Overlay(t: Code, stored: Code, i: nat): (c: Code)
    requires i <= 64
  {
    t[..i] + stored[i..]
  }

  lemma OverlayStep(t: Code, stored: Code, i: nat)
    requires i < 64
    ensures Overlay(t, stored, i)[i := t[i]] == Overlay(t, stored, i + 1)
    ensures Overlay(t, stored, i)[i] == stored[i]
  {
  }

  /** The members of S that agree with t on the first i bits. */
  ghost function Sharing(S: set<Code>, t: Code, i: nat): set<Code>
    requires i <= 64
  {
    set s | s in S && SamePrefix(s, t, i)
  }

  /** All of L transmit v at bit i. */
  predicate Unanimous(L: set<Code>, i: nat, v: bool)
    requires i < 64
  {
    forall s | s in L :: s[i] == v
  }

  lemma TargetShares(S: set<Code>, r: Code, d: nat, t: Code, i: nat)
    requires i < 64 && IsTarget(S, r, d, t)
    ensures t in Sharing(S, t, i)
    ensures Sharing(S, t, i + 1) == set s | s in Sharing(S, t, i) && s[i] == t[i]
  {
  }

  /** The direction the target takes at bit i. */
  lemma DirectionOfTarget(S: set<Code>, r: Code, d: nat, t: Code, i: nat)
    requires i < 64 && IsTarget(S, r, d, t)
    ensures var L := Sharing(S, t, i);
            && (Unanimous(L, i, true) ==> t[i])
            && (Unanimous(L, i, false) ==> !t[i])
            && (!Unanimous(L, i, true) && !Unanimous(L, i, false) ==>
                  t[i] == if i + 1 < d then r[i] else i + 1 == d)
  {
    var L := Sharing(S, t, i);
    TargetShares(S, r, d, t, i);
    if !Unanimous(L, i, true) && !Unanimous(L, i, false) && d <= i {
      var s :| s in L && s[i] != t[i];
      TargetTakesZero(S, r, t, d, i, s);
    }
  }

  /** The junction bit i leaves behind. */
  lemma JunctionOfTarget(S: set<Code>, t: Code, i: nat)
    requires i < 64 && t in S
    ensures var L := Sharing(S, t, i);
            LastJunction(S, t, i + 1) ==
            if !Unanimous(L, i, true) && !Unanimous(L, i, false) && !t[i] then i + 1 else LastJunction(S, t, i)
  {
    var L := Sharing(S, t, i);
    assert t in L;
    if !Unanimous(L, i, false) && !t[i] {
      var s :| s in L && s[i];
      assert Splits(t, s, i);
    }
  }

  /** The path to the target: it follows a unanimous bit; at a fork before position d it repeats r, at
      position d it goes to 1 and later to 0; and it leaves a junction behind exactly at forks taken to 0. */
  lemma PathToTarget(S: set<Code>, r: Code, d: nat, t: Code, i: nat)
    requires i < 64 && IsTarget(S, r, d, t)
    ensures var L := Sharing(S, t, i);
            && t in L
            && (Unanimous(L, i, true) ==> t[i])
            && (Unanimous(L, i, false) ==> !t[i])
            && (!Unanimous(L, i, true) && !Unanimous(L, i, false) ==>
                  t[i] == if i + 1 < d then r[i] else i + 1 == d)
    ensures var L := Sharing(S, t, i);
            LastJunction(S, t, i + 1) ==
            if !Unanimous(L, i, true) && !Unanimous(L, i, false) && !t[i] then i + 1 else LastJunction(S, t, i)
    ensures Sharing(S, t, i + 1) == set s | s in Sharing(S, t, i) && s[i] == t[i]
  {
    assert t in S;
    hide IsTarget, Unanimous, LastJunction, Sharing;
    TargetShares(S, r, d, t, i);
    DirectionOfTarget(S, r, d, t, i);
    JunctionOfTarget(S, t, i);
  }

  /** The bit position of the last junction is a fork of the path to the successor. */
  lemma ForkAtLastJunction(S: set<Code>, r: Code, d: nat, t: Code)
    requires d > 0 && r in S && IsTarget(S, r, d, t)
    ensures !Unanimous(Sharing(S, t, d - 1), d - 1, true) && !Unanimous(Sharing(S, t, d - 1), d - 1, false)
  {
    assert r in Sharing(S, t, d - 1) && t in Sharing(S, t, d - 1);
  }

  /** Having returned k codes of the listing, the next pass must find code k. */
  lemma TargetAtPosition(S: set<Code>, k: nat, r: Code)
    requires k < |Order(S)| && (k > 0 ==> r == Order(S)[k - 1])
    ensures IsTarget(S, r, if k == 0 then 0 else LastJunction(S, r, 64), Order(S)[k])
    ensures Order(S)[k] in S
  {
    OrderNeighbours(S, k);
    if k > 0 {
      OrderNeighbours(S, k - 1);
      NextBranchesAtLastJunction(S, r, Order(S)[k]);
    }
  }

  /** The listing is exhausted exactly when the code found has no junction. */
  lemma ExhaustedIffNoJunction(S: set<Code>, k: nat)
    requires k < |Order(S)|
    ensures LastJunction(S, Order(S)[k], 64) == 0 <==> k + 1 == |Order(S)|
  {
    OrderNeighbours(S, k);
    NoJunctionIffLast(S, Order(S)[k]);
    if k + 1 < |Order(S)| {
      OrderNeighbours(S, k + 1);
      assert Less(Order(S)[k], Order(S)[k + 1]);
    }
  }

  /** The first byte, the family code, is nonzero. */
  ghost predicate HasFamily(r: Code)
  {
    exists i | 0 <= i < 8 :: r[i]
  }

  ghost predicate AllHaveFamily(S: set<Code>)
  {
    forall r | r in S :: HasFamily(r)
  }

  /** A code without a family sorts before every code with one, so it comes first: looking at the first
      code settles the question for all. */
  lemma NoFamilyComesFirst(S: set<Code>, k: nat)
    requires k < |Order(S)| && (k == 0 || AllHaveFamily(S))
    ensures AllHaveFamily(S) <==> HasFamily(Order(S)[k])
  {
    OrderNeighbours(S, k);
    if k == 0 {
      var m := Order(S)[0];
      forall r | r in S && !HasFamily(r) ensures !HasFamily(m) {
        if r != m {
          var p: nat :| Splits(m, r, p);
          assert r[p];
        }
      }
    }
  }

  /** Before the first bit every member is on the path and nothing is behind. */
  lemma WalkStart(S: set<Code>, t: Code, stored: Code)
    ensures Sharing(S, t, 0) == S && LastJunction(S, t, 0) == 0
    ensures Overlay(t, stored, 0) == stored && Overlay(t, stored, 64) == t
  {
  }

  /** LastJunction, counted from 0 and with -1 for none. */
  ghost function Pending(S: set<Code>, t: Code, i: nat): int
    requires i <= 64
  {
    LastJunction(S, t, i) - 1
  }

  /** The state of an alarm pass after i bits: it carries the old junction until it reaches it, and from
      then on the last junction of the new path; done means nothing is pending on the new path. */
  ghost predicate AlarmPass(S: set<Code>, t: Code, d: nat, i: nat, junction: int, lastJunction: int, done: bool)
  {
    && i <= 64
    && (done <==> Pending(S, t, i) == -1)
    && if i < d then junction == d - 1 && lastJunction == Pending(S, t, i) else junction == Pending(S, t, i)
  }

  /** One bit of an alarm pass, whichever way its junction bookkeeping goes. */
  lemma AlarmStep(S: set<Code>, r: Code, d: nat, t: Code, i: nat, junction: int, lastJunction: int, done: bool)
    requires i < 64 && IsTarget(S, r, d, t) && (d > 0 ==> r in S)
    requires AlarmPass(S, t, d, i, junction, lastJunction, done)
    ensures i < junction ==> d > 0
    ensures var L := Sharing(S, t, i);
            var fork := !Unanimous(L, i, true) && !Unanimous(L, i, false);
            if !fork then AlarmPass(S, t, d, i + 1, junction, lastJunction, done)
            else if i == junction then t[i] && AlarmPass(S, t, d, i + 1, lastJunction, lastJunction, done)
            else if i < junction then
              && t[i] == r[i]
              && if r[i] then AlarmPass(S, t, d, i + 1, junction, lastJunction, done)
                 else AlarmPass(S, t, d, i + 1, junction, i, false)
            else !t[i] && AlarmPass(S, t, d, i + 1, i, lastJunction, false)
  {
    PathToTarget(S, r, d, t, i);
    if i + 1 == d {
      ForkAtLastJunction(S, r, d, t);
    }
  }

  lemma AlarmStart(S: set<Code>, t: Code, d: nat)
    requires d <= 64
    ensures AlarmPass(S, t, d, 0, d - 1, -1, true)
  {
  }

  lemma AlarmEnd(S: set<Code>, t: Code, d: nat, junction: int, lastJunction: int, done: bool)
    requires d <= 64 && AlarmPass(S, t, d, 64, junction, lastJunction, done)
    ensures junction == Pending(S, t, 64) && (done <==> junction == -1)
  {
  }

  /** What the stored position says about the next target. */
  lemma PendingAtPosition(S: set<Code>, k: nat, r: Code)
    requires k < |Order(S)| && (k > 0 ==> r == Order(S)[k - 1])
    ensures var d := if k == 0 then 0 else LastJunction(S, r, 64);
            && (k > 0 ==> r in S && Pending(S, r, 64) == d - 1)
            && IsTarget(S, r, d, Order(S)[k])
    ensures Pending(S, Order(S)[k], 64) == -1 <==> k + 1 == |Order(S)|
  {
    hide Order, LastJunction, IsTarget, IsNext;
    TargetAtPosition(S, k, r);
    ExhaustedIffNoJunction(S, k);
    if k > 0 { OrderNeighbours(S, k - 1); }
  }

  /** Nobody at all reads as 1 for the bit and 1 for its complement. */
  lemma NobodyAnswers(i: nat)
    requires i < 64
    ensures Unanimous({}, i, true) && Unanimous({}, i, false)
  {
  }
}
