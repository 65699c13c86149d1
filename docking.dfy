/**
 * The sequential loop of `ligand_metal_docking`
 * (matterfold/mofs/ligand_metal_docking.py): for every bonding site in turn it
 * aims a copy of the metal cluster at the site, checks the copy for steric
 * clashes and, if it is clear, appends it to the combined structure.
 *
 * The numerical parts are inputs: the two optimizer results of each site
 * (the scale factor along the direction and the rotation matrix built from
 * the optimal angles), the vertex indices of the cluster's convex hull, and
 * the vector length `np.linalg.norm`.
 */
module Docking {
  import opened Outcomes
  import opened Geometry

  /** One atom of an ASE `Atoms` object: its chemical symbol and position. */
  datatype Atom = Atom(symbol: string, position: Vec)

  /** The two optimizer results used at one site: `position_result.x[0]`
      and the matrix `R = Rz @ Ry @ Rx` of `rotation_result.x`. */
  datatype Placement = Placement(scale: real, rotation: Mat3)

  /** `IndexError` from a site index outside the ligand, and the
      steric-hindrance `ValueError`; both name the site they arose at. */
  datatype DockError = SiteIndexOutOfRange(site: nat) | StericClash(site: nat)

  /** The loop's state: `combined_structure` and `previous_metal_positions`. */
  datatype DockState = DockState(combined: seq<Atom>, previous: seq<seq<Vec>>)

  /** Everything the loop reads. */
  datatype DockInputs = DockInputs(
    ligand: seq<Atom>,
    metal: seq<Atom>,
    hull: seq<nat>,
    sites: seq<seq<nat>>,
    placements: seq<Placement>,
    bondDistance: real)

  /** The fallback direction `[0.0, 0.0, 1.0]`. */
  const Up: Vec := Vec(0.0, 0.0, 1.0)

  /** Below this distance the two centroids count as coincident. */
  const CentroidTolerance: real := 0.0000000001

  /** One optimizer result per site; no site is empty; when there is a site,
      the hull's vertex indices (the flattened `hull.simplices`) are non-empty
      and index the cluster. The hull is computed inside the loop, so with no
      sites nothing is asked of it or of the cluster. */
  predicate WellFormedInputs(inp: DockInputs) {
    && |inp.placements| == |inp.sites|
    && (inp.sites != [] ==> inp.hull != [] && IndicesBelow(inp.hull, |inp.metal|))
    && forall k :: 0 <= k < |inp.sites| ==> inp.sites[k] != []
  }

  // ===========================================================================
  // Index and position bookkeeping
  // ===========================================================================

  /** `atoms.get_positions()`. */
  function Positions(atoms: seq<Atom>): (r: seq<Vec>)
    ensures |r| == |atoms|
    ensures forall i :: 0 <= i < |atoms| ==> r[i] == atoms[i].position
  {
    if atoms == [] then [] else [atoms[0].position] + Positions(atoms[1..])
  }

  /** Every index is valid for a list of length `n`. */
  predicate IndicesBelow(idx: seq<nat>, n: nat) {
    forall i :: 0 <= i < |idx| ==> idx[i] < n
  }

  /** `ps[idx]` with an index list. */
  function Gather(ps: seq<Vec>, idx: seq<nat>): (r: seq<Vec>)
    requires IndicesBelow(idx, |ps|)
    ensures |r| == |idx|
    ensures forall i :: 0 <= i < |idx| ==> r[i] == ps[idx[i]]
  {
    if idx == [] then [] else [ps[idx[0]]] + Gather(ps, idx[1..])
  }

  /** The indices from `i` up to `n` that are not in `site`, ascending. */
  function NonSiteFrom(n: nat, site: seq<nat>, i: nat): (r: seq<nat>)
    requires i <= n
    ensures forall a :: 0 <= a < |r| ==> i <= r[a] < n
    ensures forall a, b :: 0 <= a < b < |r| ==> r[a] < r[b]
    ensures forall x :: x in r <==> i <= x < n && x !in site
    decreases n - i
  {
    if i == n then []
    else if i in site then NonSiteFrom(n, site, i + 1)
    else
      var rest := NonSiteFrom(n, site, i + 1);
      assert forall a :: 1 <= a < |[i] + rest| ==> ([i] + rest)[a] == rest[a - 1];
      [i] + rest
  }

  /** `[i for i in range(len(ligand)) if i not in site_indices]`: strictly
      ascending, and holding exactly the indices below `n` outside the site. */
  function NonSiteIndices(n: nat, site: seq<nat>): (r: seq<nat>)
    ensures IndicesBelow(r, n)
    ensures forall a, b :: 0 <= a < b < |r| ==> r[a] < r[b]
    ensures forall x :: x in r <==> 0 <= x < n && x !in site
  {
    NonSiteFrom(n, site, 0)
  }

  /** `np.unique(indices)[0]`: the smallest index. */
  function MinOf(s: seq<nat>): (m: nat)
    requires s != []
    ensures m in s
    ensures forall x :: x in s ==> m <= x
  {
    if |s| == 1 then s[0]
    else
      var t := MinOf(s[1..]);
      assert s == [s[0]] + s[1..];
      if s[0] <= t then s[0] else t
  }

  /** `np.delete(ps, i)`: the list without its `i`-th entry, order kept. */
  function Without(ps: seq<Vec>, i: nat): (r: seq<Vec>)
    requires i < |ps|
    ensures |r| == |ps| - 1
    ensures forall j :: 0 <= j < i ==> r[j] == ps[j]
    ensures forall j :: i <= j < |r| ==> r[j] == ps[j + 1]
  {
    ps[..i] + ps[i + 1..]
  }

  /** `np.vstack(blocks)`: the blocks' positions, block after block. */
  function Flatten(blocks: seq<seq<Vec>>): (r: seq<Vec>) {
    if blocks == [] then [] else Flatten(blocks[..|blocks| - 1]) + blocks[|blocks| - 1]
  }

  /** `atoms.set_positions(ps)` on a copy: the symbols of `atoms` at the positions `ps`. */
  function WithPositions(atoms: seq<Atom>, ps: seq<Vec>): (r: seq<Atom>)
    requires |ps| == |atoms|
    ensures |r| == |atoms|
    ensures forall i :: 0 <= i < |atoms| ==> r[i] == Atom(atoms[i].symbol, ps[i])
  {
    if atoms == [] then [] else [Atom(atoms[0].symbol, ps[0])] + WithPositions(atoms[1..], ps[1..])
  }

  // ===========================================================================
  // Direction, target point and the placed cluster
  // ===========================================================================

  /** `n` is the Euclidean length of `v`, as `np.linalg.norm` gives it. */
  predicate IsLength(n: real, v: Vec) {
    n >= 0.0 && n * n == SqNorm(v)
  }

  /** The direction falls back to `Up`: there are no non-site atoms, or the
      two centroids are closer than the tolerance. */
  predicate UsesFallback(siteCentroid: Vec, nonSite: seq<Vec>, norm: Vec -> real) {
    nonSite == [] || norm(Sub(siteCentroid, Mean(nonSite))) < CentroidTolerance
  }

  /** `direction_vector`: from the non-site centroid to the site centroid,
      normalised, or `Up`. */
  function Direction(siteCentroid: Vec, nonSite: seq<Vec>, norm: Vec -> real): (r: Vec) {
    if nonSite == [] then Up
    else
      var d := Sub(siteCentroid, Mean(nonSite));
      if norm(d) < CentroidTolerance then Up else Scale(1.0 / norm(d), d)
  }

  /** With a Euclidean length, the fallback is taken exactly when there are no
      non-site atoms or the centroids' squared distance is below the squared
      tolerance; otherwise the direction is the unit vector along the
      difference of the centroids. */
  lemma DirectionSpec(siteCentroid: Vec, nonSite: seq<Vec>, norm: Vec -> real)
    requires nonSite != [] ==> IsLength(norm(Sub(siteCentroid, Mean(nonSite))), Sub(siteCentroid, Mean(nonSite)))
    ensures UsesFallback(siteCentroid, nonSite, norm) <==>
      nonSite == [] || SqDist(siteCentroid, Mean(nonSite)) < CentroidTolerance * CentroidTolerance
    ensures UsesFallback(siteCentroid, nonSite, norm) ==> Direction(siteCentroid, nonSite, norm) == Up
    ensures !UsesFallback(siteCentroid, nonSite, norm) ==>
      var d := Sub(siteCentroid, Mean(nonSite));
      Direction(siteCentroid, nonSite, norm) == Scale(1.0 / norm(d), d)
      && SqNorm(Direction(siteCentroid, nonSite, norm)) == 1.0
  {
    if nonSite != [] {
      var d := Sub(siteCentroid, Mean(nonSite));
      BelowBoundSquared(SqNorm(d), norm(d), CentroidTolerance);
      if norm(d) >= CentroidTolerance {
        Normalized(d, norm(d));
      }
    }
  }

  /** `optimal_position = site_centroid + scale * direction_vector`. */
  function Target(siteCentroid: Vec, direction: Vec, scale: real): (r: Vec) {
    Add(siteCentroid, Scale(scale, direction))
  }

  /** Every atom index of site `k` is valid for the ligand. */
  predicate SiteInRange(inp: DockInputs, k: nat)
    requires k < |inp.sites|
  {
    IndicesBelow(inp.sites[k], |inp.ligand|)
  }

  /** `optimal_position` of site `k`. */
  function SiteTarget(inp: DockInputs, norm: Vec -> real, k: nat): (r: Vec)
    requires WellFormedInputs(inp) && k < |inp.sites| && SiteInRange(inp, k)
  {
    var ligandPositions := Positions(inp.ligand);
    var site := inp.sites[k];
    var siteCentroid := Mean(Gather(ligandPositions, site));
    var direction := Direction(siteCentroid, Gather(ligandPositions, NonSiteIndices(|inp.ligand|, site)), norm);
    Target(siteCentroid, direction, inp.placements[k].scale)
  }

  /** `final_positions` of site `k`: the cluster moved so that its
      coordinating atom is on the target, then turned about the target. */
  function FinalPositions(inp: DockInputs, norm: Vec -> real, k: nat): (r: seq<Vec>)
    requires WellFormedInputs(inp) && k < |inp.sites| && SiteInRange(inp, k)
    ensures |r| == |inp.metal|
  {
    var target := SiteTarget(inp, norm, k);
    var metalPositions := Positions(inp.metal);
    var coord := MinOf(inp.hull);
    RotatedAbout(inp.placements[k].rotation, target, Shifted(metalPositions, Sub(target, metalPositions[coord])))
  }

  /** The coordinating atom is a vertex of the hull and a valid index into the
      cluster, and whatever the rotation it ends exactly on the target. */
  lemma CoordinatingAtomOnTarget(inp: DockInputs, norm: Vec -> real, k: nat)
    requires WellFormedInputs(inp) && k < |inp.sites| && SiteInRange(inp, k)
    ensures MinOf(inp.hull) in inp.hull && MinOf(inp.hull) < |inp.metal|
    ensures FinalPositions(inp, norm, k)[MinOf(inp.hull)] == SiteTarget(inp, norm, k)
  {
    var target := SiteTarget(inp, norm, k);
    var metalPositions := Positions(inp.metal);
    var coord := MinOf(inp.hull);
    var moved := Shifted(metalPositions, Sub(target, metalPositions[coord]));
    ShiftedSpec(metalPositions, coord, target);
    RotationFixesCentre(inp.placements[k].rotation, target, moved, coord);
  }

  // ===========================================================================
  // The steric-clash validator
  // ===========================================================================

  /** `distance < bond_distance` for the distance whose square is `sq`. */
  predicate TooClose(sq: real, bondDistance: real) {
    bondDistance > 0.0 && sq < bondDistance * bondDistance
  }

  /** The squared test agrees with the test on the distance itself. */
  lemma TooCloseExactly(sq: real, dist: real, bondDistance: real)
    requires dist >= 0.0 && dist * dist == sq
    ensures TooClose(sq, bondDistance) <==> dist < bondDistance
  {
    if bondDistance > 0.0 {
      BelowBoundSquared(sq, dist, bondDistance);
    }
  }

  /** Some position of `block` is closer than `bondDistance` to some position of `others`. */
  ghost predicate Clashes(block: seq<Vec>, others: seq<Vec>, bondDistance: real) {
    exists i, j :: 0 <= i < |block| && 0 <= j < |others| && TooClose(SqDist(block[i], others[j]), bondDistance)
  }

  /** `np.min` of the (squared) distances from `p` to `others`. */
  method MinSqDist(p: Vec, others: seq<Vec>) returns (m: real)
    requires others != []
    ensures exists j :: 0 <= j < |others| && m == SqDist(p, others[j])
    ensures forall j :: 0 <= j < |others| ==> m <= SqDist(p, others[j])
  {
    m := SqDist(p, others[0]);
    ghost var at := 0;
    for j := 1 to |others|
      invariant 0 <= at < |others| && m == SqDist(p, others[at])
      invariant forall j' :: 0 <= j' < j ==> m <= SqDist(p, others[j'])
    {
      var d := SqDist(p, others[j]);
      if d < m {
        m, at := d, j;
      }
    }
  }

  /** `np.any(min_distances < bond_distance)`: the nearest other position of
      each position of `block` is tested against the bond distance. */
  method AnyTooClose(block: seq<Vec>, others: seq<Vec>, bondDistance: real) returns (clash: bool)
    requires others != []
    ensures clash <==> Clashes(block, others, bondDistance)
  {
    clash := false;
    for i := 0 to |block|
      invariant clash <==> exists i', j :: 0 <= i' < i && 0 <= j < |others| && TooClose(SqDist(block[i'], others[j]), bondDistance)
    {
      var nearest := MinSqDist(block[i], others);
      if TooClose(nearest, bondDistance) {
        clash := true;
      } else {
        forall j | 0 <= j < |others| ensures !TooClose(SqDist(block[i], others[j]), bondDistance) {
          assert nearest <= SqDist(block[i], others[j]);
        }
      }
    }
  }

  /** Given the Euclidean length of every difference, a clash is exactly a
      pair of positions at distance below `bondDistance`. */
  lemma ClashesByDistance(block: seq<Vec>, others: seq<Vec>, bondDistance: real, norm: Vec -> real)
    requires forall i, j :: 0 <= i < |block| && 0 <= j < |others| ==> IsLength(norm(Sub(block[i], others[j])), Sub(block[i], others[j]))
    ensures Clashes(block, others, bondDistance) <==>
      exists i, j :: 0 <= i < |block| && 0 <= j < |others| && norm(Sub(block[i], others[j])) < bondDistance
  {
    forall i, j | 0 <= i < |block| && 0 <= j < |others|
      ensures TooClose(SqDist(block[i], others[j]), bondDistance) <==> norm(Sub(block[i], others[j])) < bondDistance
    {
      TooCloseExactly(SqDist(block[i], others[j]), norm(Sub(block[i], others[j])), bondDistance);
    }
  }

  /** A clash with a concatenation is a clash with one of its parts. */
  lemma ClashesAppend(block: seq<Vec>, a: seq<Vec>, c: seq<Vec>, bondDistance: real)
    ensures Clashes(block, a + c, bondDistance) <==> Clashes(block, a, bondDistance) || Clashes(block, c, bondDistance)
  {
    if Clashes(block, a + c, bondDistance) {
      var i, j :| 0 <= i < |block| && 0 <= j < |a + c| && TooClose(SqDist(block[i], (a + c)[j]), bondDistance);
      if j < |a| {
        assert (a + c)[j] == a[j];
      } else {
        assert (a + c)[j] == c[j - |a|];
      }
    }
    if Clashes(block, a, bondDistance) {
      var i, j :| 0 <= i < |block| && 0 <= j < |a| && TooClose(SqDist(block[i], a[j]), bondDistance);
      assert (a + c)[j] == a[j];
    }
    if Clashes(block, c, bondDistance) {
      var i, j :| 0 <= i < |block| && 0 <= j < |c| && TooClose(SqDist(block[i], c[j]), bondDistance);
      assert (a + c)[|a| + j] == c[j];
    }
  }

  /** A clash with the stacked blocks is a clash with one of the blocks. */
  lemma {:induction false} ClashesStacked(block: seq<Vec>, blocks: seq<seq<Vec>>, bondDistance: real)
    ensures Clashes(block, Flatten(blocks), bondDistance) <==>
      exists b :: 0 <= b < |blocks| && Clashes(block, blocks[b], bondDistance)
  {
    if blocks != [] {
      var init := blocks[..|blocks| - 1];
      ClashesStacked(block, init, bondDistance);
      ClashesAppend(block, Flatten(init), blocks[|blocks| - 1], bondDistance);
      assert forall b :: 0 <= b < |init| ==> init[b] == blocks[b];
    }
  }

  /** The block is clear of the ligand and of every earlier block, one by one. */
  ghost predicate ClearOf(block: seq<Vec>, ligandPositions: seq<Vec>, previous: seq<seq<Vec>>, bondDistance: real) {
    && !Clashes(block, ligandPositions, bondDistance)
    && forall b :: 0 <= b < |previous| ==> !Clashes(block, previous[b], bondDistance)
  }

  /** Testing against the ligand and each earlier block is testing against
      `np.vstack` of them after the ligand, as the loop does. */
  lemma ClearOfStacked(block: seq<Vec>, ligandPositions: seq<Vec>, previous: seq<seq<Vec>>, bondDistance: real)
    ensures ClearOf(block, ligandPositions, previous, bondDistance) <==>
      !Clashes(block, ligandPositions + Flatten(previous), bondDistance)
  {
    ClashesAppend(block, ligandPositions, Flatten(previous), bondDistance);
    ClashesStacked(block, previous, bondDistance);
  }

  // ===========================================================================
  // One site, and the loop as a left fold
  // ===========================================================================

  /** A placed cluster: the copy of the metal cluster at its final positions,
      and the positions of its atoms other than the coordinating one. */
  datatype Placed = Placed(atoms: seq<Atom>, block: seq<Vec>)

  /** The cluster placed at site `k`, or None when one of the site's indices
      is outside the ligand (`ligand_positions[site_indices]` raises). */
  function SiteCluster(inp: DockInputs, norm: Vec -> real, k: nat): (r: Option<Placed>)
    requires WellFormedInputs(inp) && k < |inp.sites|
  {
    if SiteInRange(inp, k) then
      var final := FinalPositions(inp, norm, k);
      Some(Placed(WithPositions(inp.metal, final), Without(final, MinOf(inp.hull))))
    else None
  }

  /** The placed cluster of every site, in site order. */
  function Clusters(inp: DockInputs, norm: Vec -> real): (r: seq<Option<Placed>>)
    requires WellFormedInputs(inp)
  {
    seq(|inp.sites|, k requires 0 <= k < |inp.sites| => SiteCluster(inp, norm, k))
  }

  /** `clusters` holds the placed cluster of every site, in site order. */
  predicate ClustersPlaced(inp: DockInputs, norm: Vec -> real, clusters: seq<Option<Placed>>)
    requires WellFormedInputs(inp)
  {
    && |clusters| == |inp.sites|
    && forall j {:trigger SiteCluster(inp, norm, j)} :: 0 <= j < |clusters| ==> clusters[j] == SiteCluster(inp, norm, j)
  }

  /** One entry per site; a placed cluster has one atom per metal atom and a
      block one position shorter. */
  predicate ClustersFit(inp: DockInputs, clusters: seq<Option<Placed>>) {
    && |clusters| == |inp.sites|
    && forall k :: 0 <= k < |clusters| && clusters[k].Some? ==>
         |clusters[k].value.atoms| == |inp.metal| && |clusters[k].value.block| == |inp.metal| - 1
  }

  lemma ClustersFitAll(inp: DockInputs, norm: Vec -> real)
    requires WellFormedInputs(inp)
    ensures ClustersFit(inp, Clusters(inp, norm))
  {
  }

  /** One iteration of the loop on state `st`, given the site's placed
      cluster: an out-of-range site index raises; a block that comes too close
      to the ligand or to an earlier block raises; otherwise the cluster is
      appended to the structure and its block to the accumulator. */
  ghost function PlaceSite(inp: DockInputs, clusters: seq<Option<Placed>>, k: nat, st: DockState): (r: Result<DockState, DockError>)
    requires ClustersFit(inp, clusters) && k < |clusters|
  {
    match clusters[k]
    case None => Err(SiteIndexOutOfRange(k))
    case Some(p) =>
      if !ClearOf(p.block, Positions(inp.ligand), st.previous, inp.bondDistance) then Err(StericClash(k))
      else Ok(DockState(st.combined + p.atoms, st.previous + [p.block]))
  }

  /** The state after the first `k` sites, or the error that stopped the loop. */
  ghost function RunOn(inp: DockInputs, clusters: seq<Option<Placed>>, k: nat): (r: Result<DockState, DockError>)
    requires ClustersFit(inp, clusters) && k <= |clusters|
  {
    if k == 0 then Ok(DockState(inp.ligand, []))
    else match RunOn(inp, clusters, k - 1)
      case Err(e) => Err(e)
      case Ok(st) => PlaceSite(inp, clusters, k - 1, st)
  }

  /** The loop over the clusters placed at the actual sites. */
  ghost function Run(inp: DockInputs, norm: Vec -> real, k: nat): (r: Result<DockState, DockError>)
    requires WellFormedInputs(inp) && k <= |inp.sites|
  {
    ClustersFitAll(inp, norm);
    RunOn(inp, Clusters(inp, norm), k)
  }

  /** One site fails exactly at an out-of-range index or at a clash of its
      block with the ligand or an earlier block, and raises the matching
      error; otherwise the structure gains the cluster and the accumulator
      gains its block, which is clear of everything before it. */
  lemma PlaceSiteSpec(inp: DockInputs, clusters: seq<Option<Placed>>, k: nat, st: DockState)
    requires ClustersFit(inp, clusters) && k < |clusters|
    ensures PlaceSite(inp, clusters, k, st) == Err(SiteIndexOutOfRange(k)) <==> clusters[k].None?
    ensures PlaceSite(inp, clusters, k, st) == Err(StericClash(k)) <==>
      clusters[k].Some? && !ClearOf(clusters[k].value.block, Positions(inp.ligand), st.previous, inp.bondDistance)
    ensures PlaceSite(inp, clusters, k, st).Ok? ==>
      && clusters[k].Some?
      && ClearOf(clusters[k].value.block, Positions(inp.ligand), st.previous, inp.bondDistance)
      && PlaceSite(inp, clusters, k, st).value ==
           DockState(st.combined + clusters[k].value.atoms, st.previous + [clusters[k].value.block])
  {
  }

  /** What the loop does at site `k` once the earlier sites have succeeded
      with state `st`. It raises `IndexError` exactly when an index of the site
      is outside the ligand. It raises the clash error exactly when a
      non-coordinating atom of the placed cluster comes closer than the bond
      distance to an atom of the ligand followed by the stacked earlier
      blocks. Otherwise it appends the placed cluster to the structure and its
      non-coordinating positions to the accumulator, which happens exactly
      when the site is in range and clear. */
  lemma RunSiteOutcome(inp: DockInputs, norm: Vec -> real, k: nat, st: DockState)
    requires WellFormedInputs(inp) && k < |inp.sites|
    requires Run(inp, norm, k) == Ok(st)
    ensures Run(inp, norm, k + 1) == Err(SiteIndexOutOfRange(k)) <==> !SiteInRange(inp, k)
    ensures Run(inp, norm, k + 1) == Err(StericClash(k)) <==>
      && SiteInRange(inp, k)
      && Clashes(Without(FinalPositions(inp, norm, k), MinOf(inp.hull)),
                 Positions(inp.ligand) + Flatten(st.previous), inp.bondDistance)
    ensures Run(inp, norm, k + 1).Ok? <==>
      && SiteInRange(inp, k)
      && !Clashes(Without(FinalPositions(inp, norm, k), MinOf(inp.hull)),
                  Positions(inp.ligand) + Flatten(st.previous), inp.bondDistance)
    ensures Run(inp, norm, k + 1).Ok? ==>
      && SiteInRange(inp, k)
      && Run(inp, norm, k + 1).value ==
           DockState(st.combined + WithPositions(inp.metal, FinalPositions(inp, norm, k)),
                     st.previous + [Without(FinalPositions(inp, norm, k), MinOf(inp.hull))])
  {
    var clusters := Clusters(inp, norm);
    ClustersFitAll(inp, norm);
    assert Run(inp, norm, k + 1) == PlaceSite(inp, clusters, k, st);
    assert clusters[k] == SiteCluster(inp, norm, k);
    PlaceSiteSpec(inp, clusters, k, st);
    if SiteInRange(inp, k) {
      var block := Without(FinalPositions(inp, norm, k), MinOf(inp.hull));
      ClearOfStacked(block, Positions(inp.ligand), st.previous, inp.bondDistance);
    }
  }

  /** Where a site succeeds, the structure gains exactly the cluster placed
      at that site. */
  lemma RunAppendsCluster(inp: DockInputs, norm: Vec -> real, k: nat, st: DockState)
    requires WellFormedInputs(inp) && k < |inp.sites|
    requires Run(inp, norm, k) == Ok(st) && Run(inp, norm, k + 1).Ok?
    ensures SiteInRange(inp, k)
    ensures Run(inp, norm, k + 1).value.combined == st.combined + WithPositions(inp.metal, FinalPositions(inp, norm, k))
  {
    var clusters := Clusters(inp, norm);
    ClustersFitAll(inp, norm);
    assert Run(inp, norm, k + 1) == PlaceSite(inp, clusters, k, st);
    assert clusters[k] == SiteCluster(inp, norm, k);
    PlaceSiteSpec(inp, clusters, k, st);
  }

  /** Where a site succeeds, its new atoms are the metal cluster's symbols in
      order, and the coordinating atom among them sits on the site's target. */
  lemma PlacedClusterOnTarget(inp: DockInputs, norm: Vec -> real, k: nat, st: DockState)
    requires WellFormedInputs(inp) && k < |inp.sites|
    requires Run(inp, norm, k) == Ok(st) && Run(inp, norm, k + 1).Ok?
    ensures SiteInRange(inp, k)
    ensures var next := Run(inp, norm, k + 1).value;
      && |next.combined| == |st.combined| + |inp.metal|
      && next.combined[..|st.combined|] == st.combined
      && (forall j :: 0 <= j < |inp.metal| ==> next.combined[|st.combined| + j].symbol == inp.metal[j].symbol)
      && next.combined[|st.combined| + MinOf(inp.hull)].position == SiteTarget(inp, norm, k)
  {
    RunAppendsCluster(inp, norm, k, st);
    CoordinatingAtomOnTarget(inp, norm, k);
    var added := WithPositions(inp.metal, FinalPositions(inp, norm, k));
    var combined := st.combined + added;
    assert combined[..|st.combined|] == st.combined;
    assert forall j :: 0 <= j < |inp.metal| ==> combined[|st.combined| + j] == added[j];
  }

  /** A failed site ends the loop: the error is never replaced and no later site is placed. */
  lemma {:induction false} RunStopsAtError(inp: DockInputs, clusters: seq<Option<Placed>>, k: nat, k': nat)
    requires ClustersFit(inp, clusters) && k <= k' <= |clusters|
    requires RunOn(inp, clusters, k).Err?
    ensures RunOn(inp, clusters, k') == RunOn(inp, clusters, k)
    decreases k'
  {
    if k' > k {
      RunStopsAtError(inp, clusters, k, k' - 1);
    }
  }

  /** Sites are processed in order: an error after `k` sites comes from some
      site `j < k`, every site before which succeeded. */
  lemma {:induction false} RunFirstError(inp: DockInputs, clusters: seq<Option<Placed>>, k: nat)
    requires ClustersFit(inp, clusters) && k <= |clusters|
    requires RunOn(inp, clusters, k).Err?
    ensures var j := RunOn(inp, clusters, k).error.site;
      && j < k
      && RunOn(inp, clusters, j).Ok?
      && PlaceSite(inp, clusters, j, RunOn(inp, clusters, j).value) == RunOn(inp, clusters, k)
    decreases k
  {
    if RunOn(inp, clusters, k - 1).Err? {
      RunFirstError(inp, clusters, k - 1);
    } else {
      PlaceSiteSpec(inp, clusters, k - 1, RunOn(inp, clusters, k - 1).value);
    }
  }

  /** After `k` successful sites the structure holds the ligand and `k`
      clusters, and the accumulator `k` blocks of `|metal| - 1` positions. */
  lemma {:induction false} RunSizes(inp: DockInputs, clusters: seq<Option<Placed>>, k: nat)
    requires ClustersFit(inp, clusters) && k <= |clusters|
    requires RunOn(inp, clusters, k).Ok?
    ensures |RunOn(inp, clusters, k).value.combined| == |inp.ligand| + k * |inp.metal|
    ensures |RunOn(inp, clusters, k).value.previous| == k
    ensures forall b :: 0 <= b < k ==> |RunOn(inp, clusters, k).value.previous[b]| == |inp.metal| - 1
  {
    if k > 0 {
      RunSizes(inp, clusters, k - 1);
      PlaceSiteSpec(inp, clusters, k - 1, RunOn(inp, clusters, k - 1).value);
      assert (k - 1) * |inp.metal| + |inp.metal| == k * |inp.metal|;
    }
  }

  /** The ligand's atoms stay, unchanged, at the front of the structure. */
  lemma {:induction false} RunKeepsLigand(inp: DockInputs, clusters: seq<Option<Placed>>, k: nat)
    requires ClustersFit(inp, clusters) && k <= |clusters|
    requires RunOn(inp, clusters, k).Ok?
    ensures |inp.ligand| <= |RunOn(inp, clusters, k).value.combined|
    ensures RunOn(inp, clusters, k).value.combined[..|inp.ligand|] == inp.ligand
  {
    if k > 0 {
      var before := RunOn(inp, clusters, k - 1).value;
      RunKeepsLigand(inp, clusters, k - 1);
      PlaceSiteSpec(inp, clusters, k - 1, before);
      var next := RunOn(inp, clusters, k).value;
      assert next.combined[..|inp.ligand|] == before.combined[..|inp.ligand|];
    }
  }

  /** Block `b` of the accumulator is clear of the ligand and of every block before it. */
  ghost predicate BlockClear(previous: seq<seq<Vec>>, b: nat, ligandPositions: seq<Vec>, bondDistance: real)
    requires b < |previous|
  {
    ClearOf(previous[b], ligandPositions, previous[..b], bondDistance)
  }

  lemma BlockClearKept(previous: seq<seq<Vec>>, block: seq<Vec>, b: nat, ligandPositions: seq<Vec>, bondDistance: real)
    requires b < |previous|
    ensures BlockClear(previous + [block], b, ligandPositions, bondDistance) == BlockClear(previous, b, ligandPositions, bondDistance)
  {
    assert (previous + [block])[..b] == previous[..b];
  }

  lemma BlockClearNew(previous: seq<seq<Vec>>, block: seq<Vec>, ligandPositions: seq<Vec>, bondDistance: real)
    ensures BlockClear(previous + [block], |previous|, ligandPositions, bondDistance) == ClearOf(block, ligandPositions, previous, bondDistance)
  {
    assert (previous + [block])[..|previous|] == previous;
  }

  /** Every block the accumulator holds is clear of the ligand and of all blocks before it. */
  lemma {:induction false} RunBlocksClear(inp: DockInputs, clusters: seq<Option<Placed>>, k: nat)
    requires ClustersFit(inp, clusters) && k <= |clusters|
    requires RunOn(inp, clusters, k).Ok?
    ensures var previous := RunOn(inp, clusters, k).value.previous;
      forall b :: 0 <= b < |previous| ==> BlockClear(previous, b, Positions(inp.ligand), inp.bondDistance)
  {
    if k > 0 {
      RunBlocksClear(inp, clusters, k - 1);
      var before := RunOn(inp, clusters, k - 1).value;
      PlaceSiteSpec(inp, clusters, k - 1, before);
      var block := clusters[k - 1].value.block;
      var previous := RunOn(inp, clusters, k).value.previous;
      assert previous == before.previous + [block];
      forall b | 0 <= b < |previous|
        ensures BlockClear(previous, b, Positions(inp.ligand), inp.bondDistance)
      {
        if b < |before.previous| {
          BlockClearKept(before.previous, block, b, Positions(inp.ligand), inp.bondDistance);
        } else {
          BlockClearNew(before.previous, block, Positions(inp.ligand), inp.bondDistance);
        }
      }
    }
  }

  // ===========================================================================
  // The loop
  // ===========================================================================

  /** `metal_center.copy().get_positions()`: a fresh array of the positions. */
  method PositionsArray(atoms: seq<Atom>) returns (a: array<Vec>)
    ensures fresh(a)
    ensures a[..] == Positions(atoms)
  {
    var ps := Positions(atoms);
    a := new Vec[|ps|](i requires 0 <= i < |ps| => ps[i]);
  }

  /** `positions += translation_vector`, in place. */
  method Translate(a: array<Vec>, t: Vec)
    modifies a
    ensures a[..] == Shifted(old(a[..]), t)
  {
    for i := 0 to a.Length
      invariant forall j :: 0 <= j < i ==> a[j] == Add(old(a[j]), t)
      invariant forall j :: i <= j < a.Length ==> a[j] == old(a[j])
    {
      a[i] := Add(a[i], t);
    }
  }

  /** The body of the loop up to the clash test: centroid, direction, target
      point and coordinating atom; then the copy of the cluster moved in place
      and turned about the target, and its positions without the coordinating
      atom. */
  method PlaceCluster(inp: DockInputs, norm: Vec -> real, k: nat) returns (placed: Option<Placed>)
    requires WellFormedInputs(inp) && k < |inp.sites|
    ensures placed == SiteCluster(inp, norm, k)
  {
    var ligandPositions := Positions(inp.ligand);
    var site := inp.sites[k];
    if !IndicesBelow(site, |inp.ligand|) {
      return None;
    }
    var siteCentroid := Mean(Gather(ligandPositions, site));
    var nonSiteIndices := NonSiteIndices(|inp.ligand|, site);
    var direction := Direction(siteCentroid, Gather(ligandPositions, nonSiteIndices), norm);
    var optimal := Target(siteCentroid, direction, inp.placements[k].scale);
    var coord := MinOf(inp.hull);
    var metalPositions := PositionsArray(inp.metal);
    Translate(metalPositions, Sub(optimal, metalPositions[coord]));
    var final := RotatedAbout(inp.placements[k].rotation, optimal, metalPositions[..]);
    var block := Without(final, coord);
    return Some(Placed(WithPositions(inp.metal, final), block));
  }

  /** One pass of the loop body on state `st`: place the cluster at site `k`,
      test its block against the ligand and the earlier blocks, and append. */
  method DockStep(inp: DockInputs, norm: Vec -> real, ghost clusters: seq<Option<Placed>>,
                  ligandPositions: seq<Vec>, k: nat, st: DockState)
    returns (r: Result<DockState, DockError>)
    requires WellFormedInputs(inp) && ClustersPlaced(inp, norm, clusters) && ClustersFit(inp, clusters)
    requires ligandPositions == Positions(inp.ligand) && k < |inp.sites|
    ensures r == PlaceSite(inp, clusters, k, st)
  {
    var cluster := PlaceCluster(inp, norm, k);
    assert cluster == clusters[k];
    if cluster.None? {
      return Err(SiteIndexOutOfRange(k));
    }
    var block := cluster.value.block;
    var clash := AnyTooClose(block, ligandPositions + Flatten(st.previous), inp.bondDistance);
    ClearOfStacked(block, ligandPositions, st.previous, inp.bondDistance);
    if clash {
      return Err(StericClash(k));
    }
    return Ok(DockState(st.combined + cluster.value.atoms, st.previous + [block]));
  }

  /** The loop of `ligand_metal_docking` over the sites, proved against the
      fold `RunOn` of the placed clusters. */
  method DockLoop(inp: DockInputs, norm: Vec -> real, ghost clusters: seq<Option<Placed>>)
    returns (r: Result<seq<Atom>, DockError>)
    requires WellFormedInputs(inp) && ClustersPlaced(inp, norm, clusters) && ClustersFit(inp, clusters)
    ensures var run := RunOn(inp, clusters, |inp.sites|);
      (run.Ok? ==> r == Ok(run.value.combined)) && (run.Err? ==> r == Err(run.error))
  {
    var ligandPositions := Positions(inp.ligand);
    var st := DockState(inp.ligand, []);
    for k := 0 to |inp.sites|
      invariant RunOn(inp, clusters, k) == Ok(st)
    {
      var next := DockStep(inp, norm, clusters, ligandPositions, k, st);
      if next.Err? {
        RunStopsAtError(inp, clusters, k + 1, |inp.sites|);
        return Err(next.error);
      }
      st := next.value;
    }
    return Ok(st.combined);
  }

  /** `ligand_metal_docking`: the combined structure after every site, or the
      error of the first site that fails. With no sites it is the ligand; on
      success it is the ligand followed by one cluster per site. */
  method Dock(ligand: seq<Atom>, metal: seq<Atom>, hull: seq<nat>, sites: seq<seq<nat>>,
              placements: seq<Placement>, bondDistance: real, norm: Vec -> real)
    returns (r: Result<seq<Atom>, DockError>)
    requires WellFormedInputs(DockInputs(ligand, metal, hull, sites, placements, bondDistance))
    ensures var run := Run(DockInputs(ligand, metal, hull, sites, placements, bondDistance), norm, |sites|);
      (run.Ok? ==> r == Ok(run.value.combined)) && (run.Err? ==> r == Err(run.error))
    ensures |sites| == 0 ==> r == Ok(ligand)
    ensures r.Ok? ==> |r.value| == |ligand| + |sites| * |metal|
    ensures r.Ok? ==> |ligand| <= |r.value| && r.value[..|ligand|] == ligand
  {
    var inp := DockInputs(ligand, metal, hull, sites, placements, bondDistance);
    ghost var clusters := Clusters(inp, norm);
    ClustersFitAll(inp, norm);
    r := DockLoop(inp, norm, clusters);
    if r.Ok? {
      RunSizes(inp, clusters, |sites|);
      RunKeepsLigand(inp, clusters, |sites|);
    }
  }
}
