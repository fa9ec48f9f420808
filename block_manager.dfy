/** `BlockManager.add_block_with_unique_label`: add a block on the view's first day
    under a label no existing entry uses. */
module BlockManager {
  import opened Wrappers
  import opened Text
  import opened QtTime
  import opened ScheduleView

  /** The `k`-th label tried: the base label itself, then `base_1`, `base_2`, ... */
  function Candidate(base: string, k: nat): string {
    if k == 0 then base else base + "_" + NatToString(k)
  }

  /** Different attempts give different labels. */
  lemma CandidateInjective(base: string, j: nat, k: nat)
    requires Candidate(base, j) == Candidate(base, k)
    ensures j == k
  {
    if j != 0 && k != 0 {
      var pre := base + "_";
      assert Candidate(base, j)[|pre|..] == NatToString(j);
      assert Candidate(base, k)[|pre|..] == NatToString(k);
      NatToStringInjective(j, k);
    }
  }

  /** The first `n` labels tried. */
  function Tried(base: string, n: nat): set<string> {
    set k | 0 <= k < n :: Candidate(base, k)
  }

  lemma {:induction false} TriedCardinality(base: string, n: nat)
    ensures |Tried(base, n)| == n
  {
    if n > 0 {
      TriedCardinality(base, n - 1);
      assert Tried(base, n) == Tried(base, n - 1) + {Candidate(base, n - 1)};
      if Candidate(base, n - 1) in Tried(base, n - 1) {
        var k :| 0 <= k < n - 1 && Candidate(base, k) == Candidate(base, n - 1);
        CandidateInjective(base, k, n - 1);
      }
    }
  }

  /** The label search: keep trying the next candidate while the label is taken.
      The result is the first free candidate, found after at most |existing| retries. */
  method ChooseLabel(existing: seq<string>, base: string) returns (chosen: string)
    ensures chosen !in existing
    ensures base !in existing ==> chosen == base
    ensures exists k :: 0 <= k <= |existing| && chosen == Candidate(base, k)
                        && forall j :: 0 <= j < k ==> Candidate(base, j) in existing
  {
    var taken := set l | l in existing;
    assert |taken| <= |existing| by { SetOfSeqSize(existing); }
    chosen := base;
    var i := 1;
    while chosen in existing
      invariant 1 <= i && chosen == Candidate(base, i - 1)
      invariant forall j :: 0 <= j < i - 1 ==> Candidate(base, j) in existing
      invariant i - 1 <= |existing|
      decreases |taken| + 1 - i
    {
      assert Tried(base, i) <= taken;
      TriedCardinality(base, i);
      assert i <= |taken| by { SubsetCardinality(Tried(base, i), taken); }
      chosen := base + "_" + NatToString(i);
      i := i + 1;
    }
  }

  lemma SubsetCardinality(a: set<string>, b: set<string>)
    requires a <= b
    ensures |a| <= |b|
  {
    assert b == a + (b - a);
  }

  lemma {:induction false} SetOfSeqSize(s: seq<string>)
    ensures |set l | l in s| <= |s|
  {
    if s != [] {
      SetOfSeqSize(s[1..]);
      assert (set l | l in s) <= (set l | l in s[1..]) + {s[0]};
      SubsetCardinality(set l | l in s, (set l | l in s[1..]) + {s[0]});
    } else {
      assert (set l | l in s) == {};
    }
  }

  /** The labels of the entries. */
  function Labels(data: seq<Block>): (r: seq<string>)
    ensures |r| == |data|
    ensures forall b :: b in data ==> b.title in r
    ensures forall l :: l in r ==> exists b :: b in data && b.title == l
  {
    if data == [] then [] else [data[0].title] + Labels(data[1..])
  }

  /** `add_block_with_unique_label` (defaults: track 0, 09:00, four hours, no encoder).
      The view gains two entries under the chosen label, both dated on its first
      day: the one `add_time_block` appends and one that also carries the encoder
      name when that is non-empty. The schedule is then saved. Nothing is returned,
      because `add_time_block` returns nothing. */
  method AddBlockWithUniqueLabel(view: View, base: string, track: int, startSec: int, durSec: int,
                                 encoderName: string)
    modifies view
    ensures var n := |old(view.blockData)|;
            |view.blockData| == n + 2
            && var chosen := view.blockData[n].title;
            view.blockData[..n] == old(view.blockData)
            && view.blockData[n] == Block(old(view.baseDate), track, startSec, durSec, chosen, None, None)
            && view.blockData[n + 1] == Block(old(view.baseDate), track, startSec, durSec, chosen,
                                              if encoderName != "" then Some(encoderName) else None, None)
            && chosen !in Labels(old(view.blockData))
            && (base !in Labels(old(view.blockData)) ==> chosen == base)
            && view.blocks == Shown(view.blockData[..n + 1], view.baseDate)
    ensures view.file == (if view.canWrite then Some(SaveRecords(view.blockData)) else old(view.file))
    ensures view.baseDate == old(view.baseDate) && view.canWrite == old(view.canWrite)
  {
    var chosen := ChooseLabel(Labels(view.blockData), base);
    var qdate := view.baseDate;
    view.AddTimeBlock(qdate, track, startSec, durSec, chosen);
    var encoder := if encoderName != "" then Some(encoderName) else None;
    view.blockData := view.blockData + [Block(qdate, track, startSec, durSec, chosen, encoder, None)];
    view.SaveSchedule();
  }
}
