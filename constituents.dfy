/**
 * Constituent categorisation: every candidate of the event is either outside
 * the jet's 0.4 cone, a charged candidate without track details (dropped on
 * purpose), or kept in exactly one of three lists — lost tracks, charged
 * candidates, neutral candidates.
 */
module Constituents {

  import opened Objects

  /** The three candidate lists built for each jet. */
  datatype Kind = LostTrack | Charged | Neutral

  /** Where one candidate ends up for one jet. */
  datatype Placement = OutsideCone | NoTrackDetails | Kept(kind: Kind)

  /**
   * The classification rule: a charged candidate with track details is a lost
   * track when it misses inner hits and a charged candidate otherwise; a
   * neutral candidate is neutral; a charged one without track details is in
   * no list. The five outcomes are mutually exclusive and cover every case.
   */
  function Place(c: Candidate, inCone: bool): (p: Placement)
    ensures p == OutsideCone <==> !inCone
    ensures p == NoTrackDetails <==> inCone && c.charge != 0 && !c.hasTrackDetails
    ensures p == Kept(LostTrack) <==> inCone && c.charge != 0 && c.hasTrackDetails && c.lostInnerHits > 0
    ensures p == Kept(Charged) <==> inCone && c.charge != 0 && c.hasTrackDetails && c.lostInnerHits <= 0
    ensures p == Kept(Neutral) <==> inCone && c.charge == 0
  {
    if !inCone then OutsideCone
    else if c.charge != 0 && c.hasTrackDetails then
      (if c.lostInnerHits > 0 then Kept(LostTrack) else Kept(Charged))
    else if c.charge == 0 then Kept(Neutral)
    else NoTrackDetails
  }

  /** The placement of `c` around `jet`. */
  function PlaceFor(jet: Jet, c: Candidate, cone: Cone): Placement {
    Place(c, cone(jet, c))
  }

  /** The candidates placed in list `k`, in collection order. */
  function Select(jet: Jet, cands: seq<Candidate>, cone: Cone, k: Kind): (r: seq<Candidate>)
    ensures |r| <= |cands|
  {
    if cands == [] then []
    else if PlaceFor(jet, cands[0], cone) == Kept(k) then [cands[0]] + Select(jet, cands[1..], cone, k)
    else Select(jet, cands[1..], cone, k)
  }

  /** The candidates that end up in no list, in collection order. */
  function Discarded(jet: Jet, cands: seq<Candidate>, cone: Cone): (r: seq<Candidate>)
  {
    if cands == [] then []
    else if PlaceFor(jet, cands[0], cone).Kept? then Discarded(jet, cands[1..], cone)
    else [cands[0]] + Discarded(jet, cands[1..], cone)
  }

  /** Selecting over a collection grown by one candidate appends at most that candidate. */
  lemma {:induction false} SelectAppend(jet: Jet, cands: seq<Candidate>, c: Candidate, cone: Cone, k: Kind)
    ensures Select(jet, cands + [c], cone, k)
         == Select(jet, cands, cone, k) + (if PlaceFor(jet, c, cone) == Kept(k) then [c] else [])
  {
    if cands != [] {
      assert (cands + [c])[1..] == cands[1..] + [c];
      SelectAppend(jet, cands[1..], c, cone, k);
    }
  }

  /** A candidate is in list `k` exactly when it is in the collection and the rule places it there. */
  lemma {:induction false} SelectMembership(jet: Jet, cands: seq<Candidate>, cone: Cone, k: Kind, c: Candidate)
    ensures c in Select(jet, cands, cone, k) <==> c in cands && PlaceFor(jet, c, cone) == Kept(k)
  {
    if cands != [] {
      SelectMembership(jet, cands[1..], cone, k, c);
      assert c in cands <==> c == cands[0] || c in cands[1..];
    }
  }

  /** No candidate value is in two different lists. */
  lemma ListsDisjoint(jet: Jet, cands: seq<Candidate>, cone: Cone, k1: Kind, k2: Kind, c: Candidate)
    requires c in Select(jet, cands, cone, k1) && c in Select(jet, cands, cone, k2)
    ensures k1 == k2
  {
    SelectMembership(jet, cands, cone, k1, c);
    SelectMembership(jet, cands, cone, k2, c);
  }

  /** Out-of-cone candidates and charged candidates without track details are in no list. */
  lemma ExcludedFromEveryList(jet: Jet, cands: seq<Candidate>, cone: Cone, c: Candidate)
    requires !cone(jet, c) || (c.charge != 0 && !c.hasTrackDetails)
    ensures c !in Select(jet, cands, cone, LostTrack)
    ensures c !in Select(jet, cands, cone, Charged)
    ensures c !in Select(jet, cands, cone, Neutral)
  {
    SelectMembership(jet, cands, cone, LostTrack, c);
    SelectMembership(jet, cands, cone, Charged, c);
    SelectMembership(jet, cands, cone, Neutral, c);
  }

  /** Each candidate value occurs as often across the three lists and the discarded ones as in the collection. */
  lemma {:induction false} PartitionCount(jet: Jet, cands: seq<Candidate>, cone: Cone, x: Candidate)
    ensures multiset(Select(jet, cands, cone, LostTrack))[x]
          + multiset(Select(jet, cands, cone, Charged))[x]
          + multiset(Select(jet, cands, cone, Neutral))[x]
          + multiset(Discarded(jet, cands, cone))[x]
         == multiset(cands)[x]
  {
    if cands != [] {
      var c, rest := cands[0], cands[1..];
      PartitionCount(jet, rest, cone, x);
      assert cands == [c] + rest;
      match PlaceFor(jet, c, cone)
      case Kept(LostTrack) =>
        assert Select(jet, cands, cone, LostTrack) == [c] + Select(jet, rest, cone, LostTrack);
      case Kept(Charged) =>
        assert Select(jet, cands, cone, Charged) == [c] + Select(jet, rest, cone, Charged);
      case Kept(Neutral) =>
        assert Select(jet, cands, cone, Neutral) == [c] + Select(jet, rest, cone, Neutral);
      case _ =>
        assert Discarded(jet, cands, cone) == [c] + Discarded(jet, rest, cone);
    }
  }

  /**
   * The three lists and the discarded candidates together are the whole
   * collection, counted with multiplicity: categorisation loses nothing and
   * duplicates nothing.
   */
  lemma CategoriesPartition(jet: Jet, cands: seq<Candidate>, cone: Cone)
    ensures multiset(Select(jet, cands, cone, LostTrack))
          + multiset(Select(jet, cands, cone, Charged))
          + multiset(Select(jet, cands, cone, Neutral))
          + multiset(Discarded(jet, cands, cone))
         == multiset(cands)
  {
    forall x {
      PartitionCount(jet, cands, cone, x);
    }
  }

  /**
   * The loop over the candidate collection: each in-cone candidate is pushed
   * onto the list the rule names, in collection order.
   */
  method CollectConstituents(jet: Jet, cands: seq<Candidate>, cone: Cone)
    returns (charged: seq<Candidate>, neutral: seq<Candidate>, lostTracks: seq<Candidate>)
    ensures charged == Select(jet, cands, cone, Charged)
    ensures neutral == Select(jet, cands, cone, Neutral)
    ensures lostTracks == Select(jet, cands, cone, LostTrack)
  {
    charged, neutral, lostTracks := [], [], [];
    var i := 0;
    while i < |cands|
      invariant 0 <= i <= |cands|
      invariant charged == Select(jet, cands[..i], cone, Charged)
      invariant neutral == Select(jet, cands[..i], cone, Neutral)
      invariant lostTracks == Select(jet, cands[..i], cone, LostTrack)
    {
      var cand := cands[i];
      SelectAppend(jet, cands[..i], cand, cone, Charged);
      SelectAppend(jet, cands[..i], cand, cone, Neutral);
      SelectAppend(jet, cands[..i], cand, cone, LostTrack);
      assert cands[..i + 1] == cands[..i] + [cand];
      if cone(jet, cand) {
        if cand.charge != 0 && cand.hasTrackDetails {
          if cand.lostInnerHits > 0 {
            lostTracks := lostTracks + [cand];
          } else {
            charged := charged + [cand];
          }
        } else if cand.charge == 0 {
          neutral := neutral + [cand];
        }
      }
      i := i + 1;
    }
    assert cands[..i] == cands;
  }
}
