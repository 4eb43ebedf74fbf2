/** Where step 5.5 of the bring-up replay sends a tunable list that names no block of its own. */
module ExtraTarget {
  import opened Mmio
  import opened PhaseF
  import opened PhaseFOrder

  datatype Candidate = Candidate(block: Block, size: nat)

  datatype Sizes = Sizes(rc: nat, phyPacked: nat, phyIp: nat, axi: nat)

  /** The candidates in the order in which ties are settled. */
  function Candidates(s: Sizes): seq<Candidate> {
    [Candidate(Rc, s.rc), Candidate(PhyPacked, s.phyPacked), Candidate(PhyIp, s.phyIp), Candidate(Axi, s.axi)]
  }

  predicate Fits(cand: Candidate, offsets: seq<nat>) {
    forall i :: 0 <= i < |offsets| ==> offsets[i] < cand.size
  }

  function MaxOffset(offsets: seq<nat>): (m: nat)
    requires offsets != []
    ensures m in offsets && forall i :: 0 <= i < |offsets| ==> offsets[i] <= m
  {
    if |offsets| == 1 then offsets[0]
    else
      var rest := MaxOffset(offsets[..|offsets| - 1]);
      var last := offsets[|offsets| - 1];
      if rest < last then last else rest
  }

  /** The first smallest among the first n candidates that hold the offset: a stable sort's first element. */
  function Best(cands: seq<Candidate>, n: nat, offset: nat): Option<Candidate>
    requires n <= |cands|
  {
    if n == 0 then None
    else
      var best := Best(cands, n - 1, offset);
      var cand := cands[n - 1];
      if offset < cand.size && (best.None? || cand.size < best.value.size) then Some(cand) else best
  }

  function Infer(s: Sizes, offsets: seq<nat>): Inferred {
    if offsets == [] then Absent
    else match Best(Candidates(s), 4, MaxOffset(offsets))
      case None => NoBlockFits
      case Some(cand) => Into(cand.block)
  }

  lemma {:induction false} BestIsSmallest(cands: seq<Candidate>, n: nat, offset: nat)
    requires n <= |cands|
    ensures Best(cands, n, offset).None? <==> forall k :: 0 <= k < n ==> cands[k].size <= offset
    ensures Best(cands, n, offset).Some? ==>
      exists j :: 0 <= j < n && cands[j] == Best(cands, n, offset).value && offset < cands[j].size
        && (forall k :: 0 <= k < j ==> cands[k].size <= offset || cands[j].size < cands[k].size)
        && (forall k :: j <= k < n ==> cands[k].size <= offset || cands[j].size <= cands[k].size)
  {
    if n > 0 { BestIsSmallest(cands, n - 1, offset); }
  }

  lemma FitsIsMax(cand: Candidate, offsets: seq<nat>)
    requires offsets != []
    ensures Fits(cand, offsets) <==> MaxOffset(offsets) < cand.size
  {
  }

  /** The inference goes to phy_ip exactly when phy_ip holds every offset, and the blocks listed before it are too
      small for them or strictly larger, and the one listed after is too small or no smaller. */
  lemma InfersPhyIpIff(s: Sizes, offsets: seq<nat>)
    requires offsets != []
    ensures Infer(s, offsets) == Into(PhyIp) <==>
      var cs := Candidates(s);
      Fits(cs[2], offsets)
      && (!Fits(cs[0], offsets) || s.phyIp < s.rc)
      && (!Fits(cs[1], offsets) || s.phyIp < s.phyPacked)
      && (!Fits(cs[3], offsets) || s.phyIp <= s.axi)
  {
    hide MaxOffset, Best, Fits;
    var cs, m := Candidates(s), MaxOffset(offsets);
    BestIsSmallest(cs, 4, m);
    FitsIsMax(cs[0], offsets);
    FitsIsMax(cs[1], offsets);
    FitsIsMax(cs[2], offsets);
    FitsIsMax(cs[3], offsets);
    assert cs[0].block == Rc && cs[1].block == PhyPacked && cs[2].block == PhyIp && cs[3].block == Axi;
  }

  /** No block is inferred exactly when each is too small, and then the replay stops at step 5.5. */
  lemma InfersNothingIff(s: Sizes, offsets: seq<nat>)
    requires offsets != []
    ensures Infer(s, offsets).NoBlockFits? <==> forall k :: 0 <= k < 4 ==> !Fits(Candidates(s)[k], offsets)
  {
    hide MaxOffset, Best, Fits;
    var cs, m := Candidates(s), MaxOffset(offsets);
    BestIsSmallest(cs, 4, m);
    forall k | 0 <= k < 4
      ensures Fits(cs[k], offsets) <==> m < cs[k].size
    {
      FitsIsMax(cs[k], offsets);
    }
  }

  predicate NoneFits(s: Sizes, offsets: seq<nat>) {
    offsets != [] && forall k :: 0 <= k < 4 ==> !Fits(Candidates(s)[k], offsets)
  }

  predicate PhyIpWins(s: Sizes, offsets: seq<nat>) {
    offsets != [] &&
    var cs := Candidates(s);
    Fits(cs[2], offsets)
    && (!Fits(cs[0], offsets) || s.phyIp < s.rc)
    && (!Fits(cs[1], offsets) || s.phyIp < s.phyPacked)
    && (!Fits(cs[3], offsets) || s.phyIp <= s.axi)
  }

  /** The extra lists reach phy_ip exactly when the first kept list that wins it is not behind one for which no block is
      large enough. */
  lemma ExtraLandsIff(c: Config, s: Sizes, pll: seq<nat>, clk: seq<nat>)
    requires c.pllInto == Infer(s, pll) && c.clkInto == Infer(s, clk)
    ensures ExtraLands(c) <==>
      c.extra && ((c.keepPll && PhyIpWins(s, pll)) || (!(c.keepPll && NoneFits(s, pll)) && c.keepClk && PhyIpWins(s, clk)))
  {
    if pll != [] {
      InfersPhyIpIff(s, pll);
      InfersNothingIff(s, pll);
    }
    if clk != [] { InfersPhyIpIff(s, clk); }
    hide Best, MaxOffset, Fits;
  }

  /** Lists so inferred make the replay reach phy_ip unprepared on some device. */
  lemma InferenceCanTouchEarly(c: Config, s: Sizes, pll: seq<nat>, clk: seq<nat>, start: int)
    requires c.pllInto == Infer(s, pll) && c.clkInto == Infer(s, clk) && c.extra
    requires (c.keepPll && PhyIpWins(s, pll)) || (!(c.keepPll && NoneFits(s, pll)) && c.keepClk && PhyIpWins(s, clk))
    ensures !Careful(Exec(Healthy(start), Script(c), State([], start, false)).trail, start)
  {
    ExtraLandsIff(c, s, pll, clk);
    hide Exec, Script, Careful, Infer, PhyIpWins, NoneFits, ExtraLands;
    NotCarefulIf(c, start);
  }
}
