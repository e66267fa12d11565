/** Sizing the small-ticket vendors of the seed: candidates are taken in order until the auto-approve
    arm holds twelve. Which arm a candidate falls in is a hash, here any function. */
module SmallPlans {

  const AUTO_PER_SMALL_VENDOR := 12

  datatype Sizing = Sized(count: nat, corrected: seq<nat>) | StoppedSplitting

  /** The candidates below `n` that are in the auto-approve arm (or, with `want` false, in the other). */
  function Arm(inAuto: nat -> bool, want: bool, n: nat): seq<nat> {
    if n == 0 then []
    else Arm(inAuto, want, n - 1) + if inAuto(n - 1) == want then [n - 1] else []
  }

  /** `s[1::4]`. */
  function EveryFourth(s: seq<nat>): seq<nat> {
    if |s| < 2 then [] else [s[1]] + if |s| < 4 then [] else EveryFourth(s[4..])
  }

  lemma {:induction false} ArmIs(inAuto: nat -> bool, want: bool, n: nat)
    ensures forall i: nat :: i in Arm(inAuto, want, n) <==> i < n && inAuto(i) == want
    ensures |Arm(inAuto, true, n)| + |Arm(inAuto, false, n)| == n
  {
    if n > 0 {
      ArmIs(inAuto, want, n - 1);
    }
  }

  lemma {:induction false} ArmGrows(inAuto: nat -> bool, want: bool, m: nat, n: nat)
    requires m <= n
    ensures |Arm(inAuto, want, m)| <= |Arm(inAuto, want, n)|
    decreases n
  {
    if m < n { ArmGrows(inAuto, want, m, n - 1); }
  }

  lemma {:induction false} EveryFourthIs(s: seq<nat>)
    ensures |EveryFourth(s)| == (|s| + 2) / 4
    ensures forall k :: 0 <= k < |EveryFourth(s)| ==> 4 * k + 1 < |s| && EveryFourth(s)[k] == s[4 * k + 1]
  {
    if |s| >= 4 {
      var rest := EveryFourth(s[4..]);
      EveryFourthIs(s[4..]);
      assert EveryFourth(s) == [s[1]] + rest;
      hide EveryFourth;
      forall k | 0 < k <= |rest| ensures 4 * k + 1 < |s| && rest[k - 1] == s[4 * k + 1] {
        assert rest[k - 1] == s[4..][4 * (k - 1) + 1];
      }
    }
  }

  /** Every vendor is sized to hold exactly twelve auto-approvals, the last candidate being the twelfth,
      or the walk gives up: exactly when the first ten times the planned count do not hold twelve. */
  method SizePlan(inAuto: nat -> bool, planned: nat) returns (r: Sizing)
    ensures r.StoppedSplitting? <==> |Arm(inAuto, true, 10 * planned)| < AUTO_PER_SMALL_VENDOR
    ensures r.Sized? ==>
              && 0 < r.count <= 10 * planned
              && inAuto(r.count - 1)
              && |Arm(inAuto, true, r.count)| == AUTO_PER_SMALL_VENDOR
              && r.corrected == EveryFourth(Arm(inAuto, false, r.count))
  {
    var auto, human := [], [];
    while |auto| < AUTO_PER_SMALL_VENDOR
      invariant |auto| + |human| <= 10 * planned && |auto| <= AUTO_PER_SMALL_VENDOR
      invariant auto == Arm(inAuto, true, |auto| + |human|)
      invariant human == Arm(inAuto, false, |auto| + |human|)
      invariant |auto| == AUTO_PER_SMALL_VENDOR ==> inAuto(|auto| + |human| - 1)
      decreases 10 * planned - |auto| - |human|
    {
      var i := |auto| + |human|;
      if i >= 10 * planned { return StoppedSplitting; }
      if inAuto(i) { auto := auto + [i]; } else { human := human + [i]; }
    }
    ArmGrows(inAuto, true, |auto| + |human|, 10 * planned);
    r := Sized(|auto| + |human|, EveryFourth(human));
  }

  /** Corrections fall only on reviewed invoices, and every vendor with two or more of those has one:
      one for each four, counted from the second. */
  lemma CorrectionsReviewed(inAuto: nat -> bool, count: nat)
    ensures var corrected, human := EveryFourth(Arm(inAuto, false, count)), Arm(inAuto, false, count);
            && (forall i :: i in corrected ==> i < count && !inAuto(i))
            && |corrected| == (|human| + 2) / 4
            && (corrected != [] <==> |human| >= 2)
            && (forall i, j :: 0 <= i < j < |corrected| ==> corrected[i] < corrected[j])
  {
    var human := Arm(inAuto, false, count);
    EveryFourthIs(human);
    ArmIs(inAuto, false, count);
    ArmSorted(inAuto, false, count);
    forall i | i in EveryFourth(human) ensures i in human {
      var k :| 0 <= k < |EveryFourth(human)| && EveryFourth(human)[k] == i;
      assert human[4 * k + 1] == i;
    }
    var corrected := EveryFourth(human);
    forall i, j | 0 <= i < j < |corrected| ensures corrected[i] < corrected[j] {
      assert corrected[i] == human[4 * i + 1] && corrected[j] == human[4 * j + 1];
    }
  }

  lemma {:induction false} ArmSorted(inAuto: nat -> bool, want: bool, n: nat)
    ensures var a := Arm(inAuto, want, n); forall i, j :: 0 <= i < j < |a| ==> a[i] < a[j]
  {
    if n > 0 {
      var before := Arm(inAuto, want, n - 1);
      ArmSorted(inAuto, want, n - 1);
      ArmIs(inAuto, want, n - 1);
      assert Arm(inAuto, want, n) == before || Arm(inAuto, want, n) == before + [n - 1];
      hide Arm;
      forall i | 0 <= i < |before| ensures before[i] < n - 1 {
        assert before[i] in before;
      }
    }
  }

  /** The size is the only one: no other count ends on the twelfth auto-approval. */
  lemma SizeIsUnique(inAuto: nat -> bool, m: nat, n: nat)
    requires 0 < m <= n && inAuto(m - 1) && inAuto(n - 1)
    requires |Arm(inAuto, true, m)| == |Arm(inAuto, true, n)|
    ensures m == n
  {
    if m < n { ArmGrows(inAuto, true, m, n - 1); }
  }
}
