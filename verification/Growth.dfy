/** Seasons and homes together: the pole engine keeps the lattice it was booted with while the value
    engine's lattice advances from season to season. */
module Growth {
  import opened Vectors
  import opened Projection
  import opened Lattice
  import opened Landing
  import opened EarlyExit
  import opened Clusters
  import opened Polytope
  import opened Poles
  import opened Options

  const DEFAULT_REGIONS: int := 3

  ghost predicate InLattice(name: string, x: Vec) {
    |x| == DIMENSIONS && WellFormed(LatticeOfSeason(name), |x|) && Inside(LatticeOfSeason(name), x)
  }

  lemma CenterInLattice(name: string)
    ensures InLattice(name, CenterOfSeason(name))
  {
    CenterIsDeep(SeasonOf(name));
  }

  /** Whatever the season and whatever further facets its center satisfies: every point is projected into
      the lattice they make together, and projecting again changes nothing. */
  lemma EveryProjectionIsInside(name: string, extra: seq<Facet>, x: Vec)
    requires |x| == DIMENSIONS && WellFormed(extra, DIMENSIONS) && Inside(extra, CenterOfSeason(name))
    ensures var fs, center := LatticeOfSeason(name) + extra, CenterOfSeason(name);
            && WellFormed(fs, |x|) && Inside(fs, Projected(fs, center, x))
            && Projected(fs, center, Projected(fs, center, x)) == Projected(fs, center, x)
  {
    var fs, center := LatticeOfSeason(name) + extra, CenterOfSeason(name);
    CenterInLattice(name);
    assert WellFormed(fs, |x|);
    assert Inside(fs, center);
    ProjectedIsInside(fs, center, x);
    ProjectedIsIdempotent(fs, center, x);
  }

  lemma SeasonIsClear(season: Season)
    ensures var b := SeasonalBounds(season);
            WellFormed(LatticeOf(b), DIMENSIONS) && AllClear(LatticeOf(b), Center(b))
  {
    var b := SeasonalBounds(season);
    SeasonShape(b);
    CenterIsDeep(season);
    forall f | 0 <= f < |LatticeOf(b)| ensures Clear(LatticeOf(b)[f], Center(b)) {
      var facet := LatticeOf(b)[f];
      assert Excess(facet, Center(b)) <= -0.08;
      ScaleInequality(NUDGE, Dot(facet.normal, facet.normal), 2.0);
    }
  }

  /** Whatever the season and whatever further facets its center is clear of: no point is projected farther
      from the center than it was, whether or not it was nudged. */
  lemma EveryProjectionNearsCenter(name: string, extra: seq<Facet>, x: Vec)
    requires |x| == DIMENSIONS && WellFormed(extra, DIMENSIONS) && AllClear(extra, CenterOfSeason(name))
    ensures var fs, center := LatticeOfSeason(name) + extra, CenterOfSeason(name);
            WellFormed(fs, |x|) && Dist2(Projected(fs, center, x), center) <= Dist2(x, center)
  {
    var fs, center := LatticeOfSeason(name) + extra, CenterOfSeason(name);
    SeasonIsClear(SeasonOf(name));
    assert WellFormed(fs, |x|);
    assert AllClear(fs, center);
    ProjectionContracts(fs, center, x, center);
    Dist2Zero(center, center);
    Dist2Nonneg(x, center);
  }

  /** A crossing from one season to the next. */
  datatype Landmark = Landmark(from: string, to: string)

  /** The memory made of a crossing: an identity memory that must be kept. */
  datatype MemoryItem = MemoryItem(
    narrative: string, source: string, season: string, kind: string, mustKeep: bool,
    emotionalWeight: real, identitySignificance: real)

  function ItemOf(l: Landmark): MemoryItem {
    MemoryItem("The season turned: " + l.from + " became " + l.to + ".", "reflection", l.to, "identity", true, 10.0, 10.0)
  }

  /** What the core holds: the season it booted in and the one it is in, the homes and how many memories
      they were last discovered from, and the memories of its crossings. */
  datatype Homes = Homes(
    boot: string, season: string, homes: seq<RegionPole>, memories: nat, landmarks: seq<Landmark>)

  /** Boot, a discovery of homes, and a season crossing, which re-discovers them. */
  datatype Event = Discover(xs: seq<Vec>, k: int) | Cross(xs: seq<Vec>)

  ghost predicate EventOk(e: Event) {
    Points(e.xs, DIMENSIONS)
  }

  ghost function HomesOf(boot: string, xs: seq<Vec>, k: int, passes: nat): seq<RegionPole>
    requires Points(xs, DIMENSIONS)
  {
    CenterInLattice(boot);
    Discovered(LatticeOfSeason(boot), CenterOfSeason(boot), xs, k, passes)
  }

  ghost function Happen(s: Homes, e: Event, passes: nat): Homes
    requires EventOk(e)
  {
    match e
    case Discover(xs, k) => s.(homes := HomesOf(s.boot, xs, k, passes), memories := |xs|)
    case Cross(xs) =>
      match NextSeason(s.season)
      case None => s
      case Some(next) =>
        s.(season := next, homes := HomesOf(s.boot, xs, DEFAULT_REGIONS, passes), memories := |xs|,
           landmarks := s.landmarks + [Landmark(s.season, next)])
  }

  ghost predicate RunOk(es: seq<Event>) {
    forall i :: 0 <= i < |es| ==> EventOk(es[i])
  }

  ghost function Run(boot: string, es: seq<Event>, passes: nat): Homes
    requires RunOk(es)
  {
    if |es| == 0 then Homes(boot, boot, [], 0, [])
    else Happen(Run(boot, es[..|es| - 1], passes), es[|es| - 1], passes)
  }

  ghost predicate HomesInside(name: string, homes: seq<RegionPole>) {
    forall i :: 0 <= i < |homes| ==> InLattice(name, homes[i].center)
  }

  /** Every point of the boot lattice is in the current one. */
  ghost predicate Grown(s: Homes) {
    forall x :: InLattice(s.boot, x) ==> InLattice(s.season, x)
  }

  lemma {:induction false} HomesOfInside(boot: string, xs: seq<Vec>, k: int, passes: nat)
    requires Points(xs, DIMENSIONS)
    ensures HomesInside(boot, HomesOf(boot, xs, k, passes))
    ensures MemberTotal(HomesOf(boot, xs, k, passes)) == |xs|
  {
    CenterInLattice(boot);
    DiscoveredHomes(LatticeOfSeason(boot), CenterOfSeason(boot), xs, k, passes);
  }

  lemma AdvanceGrows(s: Homes, next: string)
    requires Grown(s) && NextSeason(s.season) == Some(next)
    ensures Grown(s.(season := next))
  {
    forall x | InLattice(s.boot, x) ensures InLattice(next, x) {
      assert InLattice(s.season, x);
      SeasonsNest(s.season, x);
    }
  }

  lemma {:induction false} RunGrows(boot: string, es: seq<Event>, passes: nat)
    requires RunOk(es)
    ensures var s := Run(boot, es, passes);
            s.boot == boot && Grown(s) && HomesInside(boot, s.homes) && MemberTotal(s.homes) == s.memories
  {
    if |es| > 0 {
      var before, e := Run(boot, es[..|es| - 1], passes), es[|es| - 1];
      assert EventOk(e);
      RunGrows(boot, es[..|es| - 1], passes);
      match e {
        case Discover(xs, k) =>
          HomesOfInside(boot, xs, k, passes);
        case Cross(xs) =>
          HomesOfInside(boot, xs, DEFAULT_REGIONS, passes);
          if NextSeason(before.season).Some? {
            AdvanceGrows(before, NextSeason(before.season).value);
          }
      }
    }
  }

  /** Over every run of discoveries and season crossings from every boot season, each home lies in
      the lattice of the current season, although it was projected onto the boot season's, and the
      member counts add up to the memories of the last discovery. */
  lemma {:induction false} HomesStayInside(boot: string, es: seq<Event>, passes: nat)
    requires RunOk(es)
    ensures var s := Run(boot, es, passes);
            HomesInside(s.season, s.homes) && MemberTotal(s.homes) == s.memories
  {
    RunGrows(boot, es, passes);
  }

  /** The old homes are already inside the next season's lattice at the moment between the crossing
      and the re-discovery. */
  lemma {:induction false} HomesSurviveCrossing(boot: string, es: seq<Event>, passes: nat, next: string)
    requires RunOk(es) && NextSeason(Run(boot, es, passes).season) == Some(next)
    ensures HomesInside(next, Run(boot, es, passes).homes)
  {
    RunGrows(boot, es, passes);
    AdvanceGrows(Run(boot, es, passes), next);
  }

  lemma SeasonsInOrder(name: string)
    ensures NextSeason(name) == if name == "winter" then None
                                else Some(if name == "summer" then "fall" else if name == "fall" then "winter" else "summer")
  {
  }

  lemma {:induction false} RunNext(boot: string, es: seq<Event>, e: Event, passes: nat)
    requires RunOk(es) && EventOk(e)
    ensures RunOk(es + [e]) && Run(boot, es + [e], passes) == Happen(Run(boot, es, passes), e, passes)
  {
    var all := es + [e];
    assert all[..|es|] == es;
    assert forall i :: 0 <= i < |all| ==> EventOk(all[i]);
  }

  lemma CrossedInNumbers(s: Homes, xs: seq<Vec>, passes: nat)
    requires Points(xs, DIMENSIONS)
    ensures var r := Happen(s, Cross(xs), passes);
            if s.season == "winter" then r == s
            else
              && r.season == (if s.season == "summer" then "fall" else if s.season == "fall" then "winter" else "summer")
              && WellFormed(LatticeOfSeason(s.boot), DIMENSIONS)
              && r.homes == Discovered(LatticeOfSeason(s.boot), CenterOfSeason(s.boot), xs, 3, passes)
              && r.memories == |xs|
  {
    SeasonsInOrder(s.season);
    CenterInLattice(s.boot);
  }

  /** A crossing leads from spring to summer, from summer to fall and from fall to winter, whatever else a season is
      called being spring, and discovers three homes anew with at most forty passes. */
  lemma {:induction false} CrossingInNumbers(boot: string, es: seq<Event>, xs: seq<Vec>, forty: nat)
    requires RunOk(es) && Points(xs, DIMENSIONS) && forty == 40 == MAX_PASSES
    ensures RunOk(es + [Cross(xs)])
    ensures var s, r := Run(boot, es, forty), Run(boot, es + [Cross(xs)], forty);
            if s.season == "winter" then r == s
            else
              && r.season == (if s.season == "summer" then "fall" else if s.season == "fall" then "winter" else "summer")
              && WellFormed(LatticeOfSeason(boot), DIMENSIONS)
              && r.homes == Discovered(LatticeOfSeason(boot), CenterOfSeason(boot), xs, 3, forty)
              && r.memories == |xs|
  {
    RunNext(boot, es, Cross(xs), forty);
    RunGrows(boot, es, forty);
    CrossedInNumbers(Run(boot, es, forty), xs, forty);
  }

  function Rank(season: Season): nat {
    match season case Spring => 0 case Summer => 1 case Fall => 2 case Winter => 3
  }

  /** The landmarks lead from one season to another, each to the season next to the one before. */
  ghost predicate LeadsTo(landmarks: seq<Landmark>, boot: string, season: string) {
    if |landmarks| == 0 then season == boot
    else
      var last := landmarks[|landmarks| - 1];
      last.to == season && NextSeason(last.from) == Some(season) && LeadsTo(landmarks[..|landmarks| - 1], boot, last.from)
  }

  lemma {:induction false} LeadsByRank(landmarks: seq<Landmark>, boot: string, season: string)
    requires LeadsTo(landmarks, boot, season)
    ensures Rank(SeasonOf(season)) == Rank(SeasonOf(boot)) + |landmarks| <= 3
  {
    if |landmarks| > 0 {
      LeadsByRank(landmarks[..|landmarks| - 1], boot, landmarks[|landmarks| - 1].from);
    }
  }

  lemma {:induction false} RunLeads(boot: string, es: seq<Event>, passes: nat)
    requires RunOk(es)
    ensures var s := Run(boot, es, passes); LeadsTo(s.landmarks, boot, s.season)
  {
    if |es| > 0 {
      var before, e := Run(boot, es[..|es| - 1], passes), es[|es| - 1];
      assert EventOk(e);
      RunLeads(boot, es[..|es| - 1], passes);
      if e.Cross? && NextSeason(before.season).Some? {
        var mark := Landmark(before.season, NextSeason(before.season).value);
        assert (before.landmarks + [mark])[..|before.landmarks|] == before.landmarks;
      }
    }
  }

  /** Over every run the landmarks tell the way from the boot season to the current one, season by season:
      as many as the current season is later, so never more than three. */
  lemma {:induction false} LandmarksTellTheWay(boot: string, es: seq<Event>, passes: nat)
    requires RunOk(es)
    ensures var s := Run(boot, es, passes);
            && LeadsTo(s.landmarks, boot, s.season)
            && |s.landmarks| == Rank(SeasonOf(s.season)) - Rank(SeasonOf(boot)) <= 3
  {
    RunLeads(boot, es, passes);
    LeadsByRank(Run(boot, es, passes).landmarks, boot, Run(boot, es, passes).season);
  }

  // ---------------------------------------------------------------------------------------------

  class ValueEngine {
    var season: string
    var polytope: EthicalPolytope
    const regions: RegionPoleEngine
    ghost const boot: string
    ghost var memories: nat

    ghost predicate Valid()
      reads this, polytope, regions, regions.polytope
    {
      && polytope.Valid() && regions.polytope.Valid()
      && polytope.facets == LatticeOfSeason(season) && polytope.center == CenterOfSeason(season)
      && regions.polytope.facets == LatticeOfSeason(boot) && regions.polytope.center == CenterOfSeason(boot)
    }

    constructor (name: string)
      ensures Valid() && fresh(polytope) && fresh(regions) && fresh(regions.polytope)
      ensures season == boot == name && memories == 0 && regions.poles == []
    {
      season, boot, memories := name, name, 0;
      polytope := new EthicalPolytope(SeasonalBounds(SeasonOf(name)));
      regions := new RegionPoleEngine(SeasonalBounds(SeasonOf(name)));
    }

    method SetMemoryPoles(xs: seq<Vec>, k: int)
      requires Valid() && Points(xs, DIMENSIONS)
      modifies this`memories, regions`poles
      ensures Valid() && memories == |xs| && regions.poles == HomesOf(boot, xs, k, MAX_PASSES)
    {
      regions.Discover(xs, k);
      memories := |xs|;
    }

    /** Replaces the engine's lattice; the regions keep theirs. */
    method AdvanceSeason(name: string)
      requires Valid()
      modifies this`season, this`polytope
      ensures Valid() && fresh(polytope) && season == name
    {
      polytope := new EthicalPolytope(SeasonalBounds(SeasonOf(name)));
      season := name;
    }
  }

  /** The part of the core that lives through the seasons: the identity it stores and its landmarks. */
  class SeasonKeeper {
    const engine: ValueEngine
    var identity: string
    var stored: seq<MemoryItem>
    ghost var landmarks: seq<Landmark>

    ghost predicate Valid()
      reads this, engine, engine.polytope, engine.regions, engine.regions.polytope
    {
      engine.Valid() && identity == engine.season
    }

    ghost function Abstract(): Homes
      reads this, engine, engine.regions
    {
      Homes(engine.boot, identity, engine.regions.poles, engine.memories, landmarks)
    }

    constructor (name: string)
      ensures Valid() && fresh(engine) && fresh(engine.polytope) && fresh(engine.regions)
      ensures Abstract() == Run(name, [], MAX_PASSES)
    {
      engine := new ValueEngine(name);
      identity, stored, landmarks := name, [], [];
    }

    method DiscoverHomeRegions(xs: seq<Vec>)
      requires Valid() && Points(xs, DIMENSIONS)
      modifies engine`memories, engine.regions`poles
      ensures Valid() && Abstract() == Happen(old(Abstract()), Discover(xs, DEFAULT_REGIONS), MAX_PASSES)
    {
      engine.SetMemoryPoles(xs, DEFAULT_REGIONS);
    }

    /** The crossing: identity and lattice move to the next season together, the homes are discovered anew,
        and the crossing is remembered. */
    method ApplySeasonAdvance(xs: seq<Vec>) returns (crossed: bool)
      requires Valid() && Points(xs, DIMENSIONS)
      modifies this, engine, engine.regions`poles
      ensures Valid() && crossed == NextSeason(old(identity)).Some?
      ensures Abstract() == Happen(old(Abstract()), Cross(xs), MAX_PASSES)
      ensures stored == old(stored) + (
        if crossed then [MemoryItem("The season turned: " + old(identity) + " became " + identity + ".", "reflection",
                                    identity, "identity", true, 10.0, 10.0)] else [])
    {
      match NextSeason(identity)
      case None =>
        crossed := false;
      case Some(next) =>
        var from := identity;
        identity := next;
        engine.AdvanceSeason(next);
        DiscoverHomeRegions(xs);
        Remember(Landmark(from, next));
        crossed := true;
    }

    /** The season turn is a landmark. */
    method Remember(l: Landmark)
      modifies this`stored, this`landmarks
      ensures stored == old(stored) + [ItemOf(l)] && landmarks == old(landmarks) + [l]
    {
      stored := stored + [ItemOf(l)];
      landmarks := landmarks + [l];
    }
  }
}
