/**
 * Electron counting per atom (matterfold/mofs/mayer_mbis_electrons.py):
 * valence electrons from the atomic number, and the bonding-site record that
 * combines an atom's MBIS charge with its Mayer bond orders.
 */
module ElectronSites {
  import opened Outcomes
  import opened OrcaParsers

  /** Atomic numbers of He, Ne, Ar, Kr, Xe and Rn. */
  const NobleGasNumbers: seq<int> := [2, 10, 18, 36, 54, 86]

  /** The comprehension `[n for n in ns if n < z]`. */
  function NumbersBelow(ns: seq<int>, z: int): (r: seq<int>)
    ensures forall x :: x in r <==> x in ns && x < z
  {
    if ns == [] then []
    else (if ns[0] < z then [ns[0]] else []) + NumbersBelow(ns[1..], z)
  }

  /** Python's `max` of a non-empty list. */
  function Max(s: seq<int>): (m: int)
    requires s != []
    ensures m in s
    ensures forall x :: x in s ==> x <= m
  {
    if |s| == 1 then s[0]
    else
      var t := Max(s[1..]);
      assert s == [s[0]] + s[1..];
      if s[0] >= t then s[0] else t
  }

  /** `core_electrons`: the largest noble-gas atomic number below `z`, or 0. */
  function CoreElectrons(z: int): (r: int) {
    Max(NumbersBelow(NobleGasNumbers, z) + [0])
  }

  /** `get_valence_electrons` once the atomic number is known. */
  function ValenceFromNumber(z: int): (r: int) {
    z - CoreElectrons(z)
  }

  /** The core is the largest noble-gas number strictly below `z`, and 0
      exactly when there is none. */
  lemma CoreElectronsSpec(z: int)
    ensures CoreElectrons(z) == 0 <==> forall n :: n in NobleGasNumbers ==> n >= z
    ensures CoreElectrons(z) != 0 ==>
      CoreElectrons(z) in NobleGasNumbers && CoreElectrons(z) < z
      && forall n :: n in NobleGasNumbers && n < z ==> n <= CoreElectrons(z)
  {
    var below := NumbersBelow(NobleGasNumbers, z);
    var c := CoreElectrons(z);
    assert c in below + [0];
    forall n | n in NobleGasNumbers && n < z ensures n <= c {
      assert n in below + [0];
    }
  }

  /** The core by period: the noble gas closing the previous period. */
  lemma CoreElectronsByPeriod(z: int)
    ensures CoreElectrons(z) ==
      if z <= 2 then 0
      else if z <= 10 then 2
      else if z <= 18 then 10
      else if z <= 36 then 18
      else if z <= 54 then 36
      else if z <= 86 then 54
      else 86
  {
    CoreElectronsSpec(z);
    assert 2 in NobleGasNumbers && 10 in NobleGasNumbers && 18 in NobleGasNumbers;
    assert 36 in NobleGasNumbers && 54 in NobleGasNumbers && 86 in NobleGasNumbers;
  }

  /** Every atom has at least one valence electron, and hydrogen and helium
      count all of theirs. */
  lemma ValenceBounds(z: int)
    ensures z >= 1 ==> ValenceFromNumber(z) >= 1
    ensures z <= 2 ==> ValenceFromNumber(z) == z
    ensures 1 <= z <= 118 ==> ValenceFromNumber(z) <= 32
  {
    CoreElectronsByPeriod(z);
  }

  /** `get_valence_electrons(element)`: the atomic number comes from the
      symbol table `atomicNumbers`; an unknown symbol raises, given here as
      None. A known symbol of atomic number `z` gives `z` less the largest
      noble-gas number below `z`, or `z` itself when there is none. */
  function ValenceElectrons(element: string, atomicNumbers: map<string, int>): (r: Option<int>)
    ensures r.None? <==> element !in atomicNumbers
    ensures r.Some? ==> var z := atomicNumbers[element];
      && (r.value == z <==> forall n :: n in NobleGasNumbers ==> n >= z)
      && (r.value != z ==>
            && z - r.value in NobleGasNumbers && 0 < r.value
            && forall n :: n in NobleGasNumbers && n < z ==> n <= z - r.value)
  {
    if element in atomicNumbers then
      CoreElectronsSpec(atomicNumbers[element]);
      Some(ValenceFromNumber(atomicNumbers[element]))
    else None
  }

  // ===========================================================================
  // Bonding electrons: the sum of the bond orders of every pair an atom is in.
  // ===========================================================================

  type BondOrders = map<(nat, nat), real>

  /** `atom_index in (a1, a2)`. */
  predicate Incident(atom: nat, p: (nat, nat)) {
    p.0 == atom || p.1 == atom
  }

  ghost function Term(orders: BondOrders, atom: nat, p: (nat, nat)): (r: real)
    requires p in orders
  {
    if Incident(atom, p) then orders[p] else 0.0
  }

  /** The sum of the orders of the pairs in `keys` that contain `atom`; the
      order of summation is immaterial for reals. */
  ghost function IncidentSum(orders: BondOrders, atom: nat, keys: set<(nat, nat)>): (r: real)
    requires keys <= orders.Keys
    decreases keys
  {
    if keys == {} then 0.0
    else
      var p :| p in keys;
      Term(orders, atom, p) + IncidentSum(orders, atom, keys - {p})
  }

  /** `bonding_electrons` of `atom`. */
  ghost function BondingElectrons(orders: BondOrders, atom: nat): (r: real) {
    IncidentSum(orders, atom, orders.Keys)
  }

  /** Any pair can be taken out of the sum first. */
  lemma {:induction false} IncidentSumRemove(orders: BondOrders, atom: nat, keys: set<(nat, nat)>, p: (nat, nat))
    requires keys <= orders.Keys && p in keys
    ensures IncidentSum(orders, atom, keys) == Term(orders, atom, p) + IncidentSum(orders, atom, keys - {p})
    decreases keys
  {
    var q :| q in keys && IncidentSum(orders, atom, keys) == Term(orders, atom, q) + IncidentSum(orders, atom, keys - {q});
    if q != p {
      IncidentSumRemove(orders, atom, keys - {q}, p);
      IncidentSumRemove(orders, atom, keys - {p}, q);
      assert keys - {q} - {p} == keys - {p} - {q};
    }
  }

  lemma {:induction false} IncidentSumZero(orders: BondOrders, atom: nat, keys: set<(nat, nat)>)
    requires keys <= orders.Keys
    requires forall p :: p in keys ==> !Incident(atom, p)
    ensures IncidentSum(orders, atom, keys) == 0.0
    decreases keys
  {
    if keys != {} {
      var p :| p in keys;
      IncidentSumRemove(orders, atom, keys, p);
      IncidentSumZero(orders, atom, keys - {p});
    }
  }

  /** Sums over keys on which two order maps agree are equal. */
  lemma {:induction false} IncidentSumAgree(orders: BondOrders, other: BondOrders, atom: nat, keys: set<(nat, nat)>)
    requires keys <= orders.Keys && keys <= other.Keys
    requires forall p :: p in keys ==> orders[p] == other[p]
    ensures IncidentSum(orders, atom, keys) == IncidentSum(other, atom, keys)
    decreases keys
  {
    if keys != {} {
      var p :| p in keys;
      IncidentSumRemove(orders, atom, keys, p);
      IncidentSumRemove(other, atom, keys, p);
      IncidentSumAgree(orders, other, atom, keys - {p});
    }
  }

  /** An atom in no pair has no bonding electrons. */
  lemma NoBondsNoBondingElectrons(orders: BondOrders, atom: nat)
    requires forall p :: p in orders ==> !Incident(atom, p)
    ensures BondingElectrons(orders, atom) == 0.0
  {
    IncidentSumZero(orders, atom, orders.Keys);
  }

  /** Adding one new pair adds its order once when the atom is either end of
      it (a self-pair `(atom, atom)` included) and nothing otherwise. With the
      empty map's sum being 0, this fixes the sum for every map. */
  lemma BondingElectronsAdd(orders: BondOrders, atom: nat, p: (nat, nat), v: real)
    requires p !in orders
    ensures BondingElectrons(orders[p := v], atom) ==
      BondingElectrons(orders, atom) + (if Incident(atom, p) then v else 0.0)
  {
    var bigger := orders[p := v];
    IncidentSumRemove(bigger, atom, bigger.Keys, p);
    assert bigger.Keys - {p} == orders.Keys;
    IncidentSumAgree(bigger, orders, atom, orders.Keys);
  }

  /** The generator sum over `mayer_data['bond_orders'].items()`. */
  method SumBondOrders(orders: BondOrders, atom: nat) returns (total: real)
    ensures total == BondingElectrons(orders, atom)
  {
    total := 0.0;
    var remaining := orders.Keys;
    while remaining != {}
      invariant remaining <= orders.Keys
      invariant total + IncidentSum(orders, atom, remaining) == BondingElectrons(orders, atom)
      decreases remaining
    {
      var p :| p in remaining;
      IncidentSumRemove(orders, atom, remaining, p);
      if p.0 == atom || p.1 == atom {
        total := total + orders[p];
      }
      remaining := remaining - {p};
    }
  }

  // ===========================================================================
  // find_potential_bonding_sites
  // ===========================================================================

  /** One entry of the `bonding_sites` dictionary. */
  datatype SiteInfo = SiteInfo(
    element: string,
    availableElectrons: real,
    mbisCharge: real,
    bondingElectrons: real,
    freeElectrons: real)

  /** `info` is the record built for `atom` from its MBIS record. */
  ghost predicate IsSiteOf(info: SiteInfo, rec: MbisRecord, orders: BondOrders, atom: nat, atomicNumbers: map<string, int>) {
    && rec.element in atomicNumbers
    && info.element == rec.element
    && info.mbisCharge == rec.charge
    && info.availableElectrons == ValenceFromNumber(atomicNumbers[rec.element]) as real - rec.charge
    && info.bondingElectrons == BondingElectrons(orders, atom)
    && info.freeElectrons == info.availableElectrons - info.bondingElectrons
  }

  /** `find_potential_bonding_sites`: one record per MBIS atom; it raises
      (None) exactly when some MBIS element is not in the symbol table. */
  method FindPotentialBondingSites(orders: BondOrders, mbis: map<nat, MbisRecord>, atomicNumbers: map<string, int>)
    returns (r: Option<map<nat, SiteInfo>>)
    ensures r.None? <==> exists atom :: atom in mbis && mbis[atom].element !in atomicNumbers
    ensures r.Some? ==> r.value.Keys == mbis.Keys
    ensures r.Some? ==> forall atom :: atom in mbis ==> IsSiteOf(r.value[atom], mbis[atom], orders, atom, atomicNumbers)
  {
    var sites: map<nat, SiteInfo> := map[];
    var remaining := mbis.Keys;
    while remaining != {}
      invariant remaining <= mbis.Keys
      invariant sites.Keys == mbis.Keys - remaining
      invariant forall atom :: atom in sites ==> IsSiteOf(sites[atom], mbis[atom], orders, atom, atomicNumbers)
      decreases remaining
    {
      var atom :| atom in remaining;
      var element := mbis[atom].element;
      var mbisCharge := mbis[atom].charge;
      var valence := ValenceElectrons(element, atomicNumbers);
      if valence.None? {
        return None;
      }
      var availableElectrons := valence.value as real - mbisCharge;
      var bondingElectrons := SumBondOrders(orders, atom);
      var freeElectrons := availableElectrons - bondingElectrons;
      sites := sites[atom := SiteInfo(element, availableElectrons, mbisCharge, bondingElectrons, freeElectrons)];
      remaining := remaining - {atom};
    }
    return Some(sites);
  }
}
