# MOF building blocks: ORCA-output parsing and metal docking, in Dafny

This project models two parts of the `matterfold` metal-organic-framework
toolkit and proves properties of them.

**ORCA output scanners and electron bookkeeping**
(`matterfold/mofs/mayer_mbis_electrons.py`). The output file is given as its
sequence of lines.

- `parse_energy` scans for the final single-point energy.
- `parse_mayer_data` finds the Mayer bond-order block. It collects the block's
  non-blank lines, joins them and extracts every `B( i-X , j-Y ) : v` entry
  with the bond-order regular expression.
- `parse_mbis_data` reads the MBIS charge table.
- `get_valence_electrons` gives an atom's valence electrons: its atomic number
  minus the largest noble-gas number below it.
- `find_potential_bonding_sites` builds one record per MBIS atom. Each record
  combines the atom's charge, its valence electrons and the sum of the Mayer
  bond orders of the pairs it belongs to.

The parsers are methods written with the source's loops: a section flag, a
scan for the header, `continue`, `break`, and dictionary writes. The source
nests the loop over the lines after the header inside the scan and breaks out
of the scan as soon as that inner loop ends. The model therefore runs the
inner loop after the scan has found the header, which does the same. Each method is proved equal to a specification function.
Lemmas about those functions state what the dictionaries contain.

- Python's `float()` is the parameter `toFloat`. A token it rejects raises
  `ValueError`, which the model returns as an error.
- The regular expression is a hand-written scanner. A lemma proves it reads
  back the printed form of any list of well-formed entries. Each entry may
  carry any whitespace wherever the pattern allows `\s*`, which covers ORCA's
  padding as in `B(  0-O ,  1-H ) :   1.4434`. Any whitespace may also come
  between entries and before the first one.

**The docking loop** (`matterfold/mofs/ligand_metal_docking.py`). For each
bonding site in order, the loop:

1. takes the centroid of the site atoms;
2. takes a direction away from the remaining ligand atoms, or falls back to
   `(0, 0, 1)`;
3. picks a target point along that direction;
4. translates a copy of the metal cluster in place, so that the smallest hull
   vertex (the coordinating atom) lands on the target;
5. turns the copy about the target;
6. rejects it if any non-coordinating atom is closer than the bond distance to
   the ligand or to a non-coordinating atom of an earlier cluster. Only those
   atoms of each cluster are kept for later tests, so a new cluster may touch
   an earlier cluster's coordinating atom;
7. otherwise appends it to the combined structure and to the accumulator of
   earlier positions.

The numerical parts are inputs:

- the scale factor and rotation matrix from each site's optimizer;
- the vertex indices of the convex hull;
- the vector length `norm`.

`Dock` is proved against a left fold `RunOn` over the sites. Lemmas about the
fold state how the structure and the accumulator grow, that every accepted
block is clear, and that the loop stops at the first failing site.

Modules:

- `Outcomes`: `Option` and `Result`.
- `Text`: the Python string operations the parsers use.
- `BondScanner`: the regular expression.
- `OrcaParsers`: the three scanners.
- `ElectronSites`: valence and bonding electrons.
- `Geometry`: vectors, matrices and rigid motions.
- `Docking`: the docking loop.

## Model

| member | source | states |
|---|---|---|
| Text.StripSpec | matterfold/mofs/mayer_mbis_electrons.py:80 | `strip()` removes only whitespace, from both ends. The result is empty exactly on all-whitespace input and otherwise starts and ends with a non-space. |
| Text.SplitSpec | matterfold/mofs/mayer_mbis_electrons.py:80 | every token of `split()` is non-empty and contains no whitespace |
| Text.SplitEmpty | matterfold/mofs/mayer_mbis_electrons.py:80 | `split()` gives no tokens exactly when the string is all whitespace |
| Text.SplitWord | matterfold/mofs/mayer_mbis_electrons.py:139 | a non-empty string without whitespace splits into itself alone |
| Text.SplitSkip | matterfold/mofs/mayer_mbis_electrons.py:139 | leading whitespace does not change the tokens |
| Text.SplitAtSpace | matterfold/mofs/mayer_mbis_electrons.py:139 | splitting at any whitespace character gives the tokens of the left side followed by those of the right side, so `split()` is fixed on every string |
| Text.NatToDigits | matterfold/mofs/mayer_mbis_electrons.py:116-117 | the decimal rendering of `n` is an all-digit string that `int()` reads back as `n` |
| BondScanner.AtomRefRendered | matterfold/mofs/mayer_mbis_electrons.py:113 | the sub-pattern `\s*(\d+)-\w+\s*` applied to an atom reference printed with any whitespace before and after it captures its number and stops exactly before what follows |
| BondScanner.OrderRendered | matterfold/mofs/mayer_mbis_electrons.py:113 | the sub-pattern `\s*:\s*([\d\.]+)`, with any whitespace around the colon, captures the whole printed order and nothing after it |
| BondScanner.MatchRendered | matterfold/mofs/mayer_mbis_electrons.py:113 | the full pattern matches a printed entry, whatever whitespace fills its `\s*` slots, captures its two atom numbers and order, and resumes right after it |
| BondScanner.FindAll | matterfold/mofs/mayer_mbis_electrons.py:114 | `re.findall` over the pattern: each match takes at least the 12 characters of `B(0-X,0-X):0`, so there are at most `len(s) / 12` matches |
| BondScanner.FindAllOrders | matterfold/mofs/mayer_mbis_electrons.py:113-114 | every captured order is a non-empty run of digits and dots, as the group `([\d\.]+)` demands |
| BondScanner.FindAllPastSpace | matterfold/mofs/mayer_mbis_electrons.py:114 | no match starts at a whitespace character, so `findall` moves on to the text after it |
| BondScanner.FindAllSkipsSpaces | matterfold/mofs/mayer_mbis_electrons.py:114 | a run of leading whitespace adds no match and changes none |
| BondScanner.FindAllRendered | matterfold/mofs/mayer_mbis_electrons.py:110-114 | `findall` on the printed forms of well-formed entries, with any padding, any whitespace between them and before the first, gives exactly their matches, in textual order |
| OrcaParsers.UpdateAllOk | matterfold/mofs/mayer_mbis_electrons.py:115-119 | after a run of dictionary writes with no error: every conversion succeeded, the keys are exactly the written keys, and each key holds its last write |
| OrcaParsers.UpdateAllErr | matterfold/mofs/mayer_mbis_electrons.py:118 | a run of writes fails exactly when some conversion fails, and it carries the error of the first failing one |
| OrcaParsers.UpdateAllStopsAtError | matterfold/mofs/mayer_mbis_electrons.py:118 | once a conversion has raised, later writes have no effect |
| OrcaParsers.HeaderLineSpec | matterfold/mofs/mayer_mbis_electrons.py:93-97 | the header acted on is the first line that contains the header text after a line naming the section, and does not itself name the section. There is none exactly when no line qualifies. |
| OrcaParsers.FindHeader | matterfold/mofs/mayer_mbis_electrons.py:130-134 | the flag-and-scan outer loop returns exactly that header line |
| OrcaParsers.EnergyLineValue | matterfold/mofs/mayer_mbis_electrons.py:79-82 | a line is accepted exactly when it contains the energy marker and has at least five tokens; an accepted line yields `float` of token 4 or its `ValueError` |
| OrcaParsers.ParseEnergy | matterfold/mofs/mayer_mbis_electrons.py:77-84 | the result is that of the first accepted line, so a matching line with fewer than five tokens is passed over; it is `None` when no line is accepted |
| OrcaParsers.BondLinesWindow | matterfold/mofs/mayer_mbis_electrons.py:99-106 | the collected lines are exactly the stripped non-blank lines from the start line up to the first line containing `****` or `Population analysis` |
| OrcaParsers.CollectBondLines | matterfold/mofs/mayer_mbis_electrons.py:99-106 | the inner loop, with `continue` on blank lines and `break` at a stop line, collects exactly those lines |
| OrcaParsers.StoreBondOrders | matterfold/mofs/mayer_mbis_electrons.py:115-119 | the store loop performs the writes `(atom1, atom2) := float(order)` in match order, raising at the first bad order |
| OrcaParsers.ParseMayerData | matterfold/mofs/mayer_mbis_electrons.py:86-121 | `parse_mayer_data` computes the bond-order dictionary of the lines |
| OrcaParsers.MayerBondOrdersSpec | matterfold/mofs/mayer_mbis_electrons.py:110-119 | the dictionary fails exactly when some captured order is not a number. Its keys are exactly the `(i, j)` pairs of the matches, in textual order and not normalised. Each key holds the order of its last match. |
| OrcaParsers.MayerWithoutSection | matterfold/mofs/mayer_mbis_electrons.py:87 | without a qualifying header the bond-order dictionary is empty |
| OrcaParsers.MbisUpdatesWindow | matterfold/mofs/mayer_mbis_electrons.py:135-144 | the table produces exactly one step per line before the first stop line, in order |
| OrcaParsers.ClassifyMbisLine | matterfold/mofs/mayer_mbis_electrons.py:136-143 | one line is a stop (blank, `MBIS VALENCE-SHELL DATA` or `Total charge`), a data row (at least 4 tokens, token 0 all digits: `int(token 0)`, token 1, token 2), or is passed over |
| OrcaParsers.ReadMbisRows | matterfold/mofs/mayer_mbis_electrons.py:135-144 | the inner loop breaks at the first stop line and stores `{element, float(charge)}` for each data row before it |
| OrcaParsers.MbisFromUpdates | matterfold/mofs/mayer_mbis_electrons.py:135-144 | running the inner loop from a dictionary is performing the table's writes in order after the writes that built that dictionary |
| OrcaParsers.ParseMbisData | matterfold/mofs/mayer_mbis_electrons.py:123-147 | `parse_mbis_data` computes the MBIS dictionary of the lines |
| OrcaParsers.MbisTableCharges | matterfold/mofs/mayer_mbis_electrons.py:140-143 | reading a table raises exactly when one of its data rows has a charge token that does not convert, so a table read without error has every charge converted |
| OrcaParsers.MbisTableKeys | matterfold/mofs/mayer_mbis_electrons.py:140-144 | a key is present exactly when some data row of the table carries that atom number |
| OrcaParsers.MbisTableLast | matterfold/mofs/mayer_mbis_electrons.py:140-144 | each key holds the element and converted charge of the last data row that carries it |
| OrcaParsers.MbisDataSpec | matterfold/mofs/mayer_mbis_electrons.py:130-144 | the keys of the MBIS dictionary are exactly the atom numbers of the data rows between the header and the first stop line |
| OrcaParsers.MbisDataErr | matterfold/mofs/mayer_mbis_electrons.py:130-144 | `parse_mbis_data` raises exactly when a data row between the header and the first stop line has a charge that `float()` rejects |
| OrcaParsers.MbisWithoutSection | matterfold/mofs/mayer_mbis_electrons.py:124 | without a qualifying header the MBIS dictionary is empty |
| ElectronSites.ValenceElectrons | matterfold/mofs/mayer_mbis_electrons.py:149-154 | `get_valence_electrons` raises exactly on a symbol missing from the element table. Otherwise it gives the atomic number `z` less the largest noble-gas number below `z`, a positive count, or `z` itself when no noble-gas number is below `z`. |
| ElectronSites.NumbersBelow | matterfold/mofs/mayer_mbis_electrons.py:153 | the comprehension keeps exactly the noble-gas numbers below `z` |
| ElectronSites.Max | matterfold/mofs/mayer_mbis_electrons.py:153 | `max` returns a member of the list that no member exceeds |
| ElectronSites.CoreElectronsSpec | matterfold/mofs/mayer_mbis_electrons.py:151-153 | the core count is the largest of 2, 10, 18, 36, 54, 86 strictly below `z`, and 0 exactly when there is none |
| ElectronSites.CoreElectronsByPeriod | matterfold/mofs/mayer_mbis_electrons.py:151-153 | the core count, period by period |
| ElectronSites.ValenceBounds | matterfold/mofs/mayer_mbis_electrons.py:149-154 | for `z >= 1` the valence count is at least 1; for `z <= 2` it equals `z`; for `z <= 118` it is at most 32 |
| ElectronSites.IncidentSumRemove | matterfold/mofs/mayer_mbis_electrons.py:180 | the generator sum may take any pair first |
| ElectronSites.NoBondsNoBondingElectrons | matterfold/mofs/mayer_mbis_electrons.py:180 | an atom in no pair has 0 bonding electrons |
| ElectronSites.BondingElectronsAdd | matterfold/mofs/mayer_mbis_electrons.py:180 | adding a pair adds its order exactly once when the atom is either end of it, a self-pair included, and nothing otherwise |
| ElectronSites.SumBondOrders | matterfold/mofs/mayer_mbis_electrons.py:180 | the loop over the ordered pairs computes that bonding-electron sum |
| ElectronSites.FindPotentialBondingSites | matterfold/mofs/mayer_mbis_electrons.py:156-194 | it raises exactly when some MBIS element is unknown. Otherwise its keys are the MBIS keys, and each record keeps the element and charge, with `available = valence - charge`, `bonding` the bond-order sum and `free = available - bonding`. |
| Geometry.Shifted | matterfold/mofs/ligand_metal_docking.py:77 | adding a vector moves every position by it and keeps the length |
| Geometry.RotatedAbout | matterfold/mofs/ligand_metal_docking.py:147-150 | `np.dot(P - c, R.T) + c` turns every position about `c` |
| Geometry.ShiftedSpec | matterfold/mofs/ligand_metal_docking.py:76-77 | the translation puts the chosen atom exactly on the target and leaves every pairwise difference unchanged |
| Geometry.RotationFixesCentre | matterfold/mofs/ligand_metal_docking.py:147-150 | for any matrix, a position at the centre stays there |
| Geometry.Normalized | matterfold/mofs/ligand_metal_docking.py:54 | dividing by the Euclidean length gives a unit vector |
| Geometry.BelowBoundSquared | matterfold/mofs/ligand_metal_docking.py:51 | a length is below a positive bound exactly when its square is below the bound's square |
| Docking.Positions | matterfold/mofs/ligand_metal_docking.py:32 | `get_positions` lists the atoms' positions in order |
| Docking.Gather | matterfold/mofs/ligand_metal_docking.py:38 | indexing by an index list picks those positions, in that order |
| Docking.NonSiteIndices | matterfold/mofs/ligand_metal_docking.py:43 | the list is strictly ascending and holds exactly the indices below `len(ligand)` that are not in the site |
| Docking.MinOf | matterfold/mofs/ligand_metal_docking.py:69 | `np.unique(...)[0]` is the smallest hull vertex |
| Docking.Without | matterfold/mofs/ligand_metal_docking.py:153-155 | `np.delete` drops exactly the coordinating atom and keeps the order of the rest |
| Docking.WithPositions | matterfold/mofs/ligand_metal_docking.py:180 | `set_positions` keeps every symbol and sets every position |
| Docking.DirectionSpec | matterfold/mofs/ligand_metal_docking.py:44-54 | the direction is `(0, 0, 1)` exactly when there are no non-site atoms or the centroids are closer than 1e-10 (squared: 1e-20). Otherwise it is the unit vector along site centroid minus non-site centroid. |
| Docking.CoordinatingAtomOnTarget | matterfold/mofs/ligand_metal_docking.py:68-77 | the coordinating atom is a hull vertex and a valid cluster index, and after the translation and any rotation it sits exactly on `optimal_position` |
| Docking.TooCloseExactly | matterfold/mofs/ligand_metal_docking.py:176 | the squared test agrees with `distance < bond_distance` |
| Docking.MinSqDist | matterfold/mofs/ligand_metal_docking.py:157-162 | `np.min` over the distances to the others is attained and is a lower bound |
| Docking.AnyTooClose | matterfold/mofs/ligand_metal_docking.py:152-176 | testing each atom's nearest distance finds a clash exactly when some pair is too close |
| Docking.ClashesByDistance | matterfold/mofs/ligand_metal_docking.py:157-176 | with Euclidean `norm`, a clash is exactly a pair at distance below `bond_distance` |
| Docking.ClashesAppend | matterfold/mofs/ligand_metal_docking.py:171-174 | `np.minimum` of two distance lists: a clash with a concatenation is a clash with one of its parts |
| Docking.ClashesStacked | matterfold/mofs/ligand_metal_docking.py:165 | a clash with `np.vstack` of the blocks is a clash with one block |
| Docking.ClearOfStacked | matterfold/mofs/ligand_metal_docking.py:157-176 | testing against the ligand followed by the stacked earlier blocks is testing against each of them |
| Docking.ClustersFitAll | matterfold/mofs/ligand_metal_docking.py:180-182 | every placed cluster has one atom per metal atom and a block one shorter |
| Docking.RunSiteOutcome | matterfold/mofs/ligand_metal_docking.py:38-182 | once the earlier sites have succeeded, site `k` raises `IndexError` exactly when one of its indices is outside the ligand. It raises the clash error exactly when a non-coordinating atom of the placed cluster is closer than the bond distance to the ligand followed by `np.vstack` of the earlier blocks. It succeeds exactly when the site is in range and clear, and then the structure gains the placed cluster and the accumulator gains its non-coordinating positions. |
| Docking.RunAppendsCluster | matterfold/mofs/ligand_metal_docking.py:180-181 | a successful site adds exactly its placed cluster to the structure |
| Docking.PlacedClusterOnTarget | matterfold/mofs/ligand_metal_docking.py:180-181 | a successful site grows the structure by `len(metal_center)` atoms with the metal symbols in order. The existing prefix is unchanged, and the coordinating atom sits on the target. |
| Docking.RunStopsAtError | matterfold/mofs/ligand_metal_docking.py:176-177 | once a site fails, the error stands and no later site is placed |
| Docking.RunFirstError | matterfold/mofs/ligand_metal_docking.py:36 | sites are taken in order: an error comes from a site before which every site succeeded |
| Docking.RunSizes | matterfold/mofs/ligand_metal_docking.py:180-182 | after `k` sites the structure has `len(ligand) + k * len(metal_center)` atoms, and the accumulator has `k` blocks of `len(metal_center) - 1` positions |
| Docking.RunKeepsLigand | matterfold/mofs/ligand_metal_docking.py:31 | the ligand stays unchanged at the front of the structure |
| Docking.RunBlocksClear | matterfold/mofs/ligand_metal_docking.py:176-182 | every accumulated block is clear of the ligand and of every earlier block |
| Docking.PositionsArray | matterfold/mofs/ligand_metal_docking.py:72-73 | the copy's positions are a fresh array |
| Docking.Translate | matterfold/mofs/ligand_metal_docking.py:77 | `positions += translation_vector` in place |
| Docking.PlaceCluster | matterfold/mofs/ligand_metal_docking.py:38-155 | the loop body up to the clash test computes the site's placed cluster, or the `IndexError` of a bad site index |
| Docking.DockStep | matterfold/mofs/ligand_metal_docking.py:38-182 | one pass of the loop body is one step of the fold |
| Docking.DockLoop | matterfold/mofs/ligand_metal_docking.py:36-184 | the loop returns the fold's structure, or the error of the site that stopped it |
| Docking.Dock | matterfold/mofs/ligand_metal_docking.py:8-184 | `ligand_metal_docking` returns the fold's result. With no sites it returns the ligand, whatever the metal cluster and hull. On success it returns the ligand followed by `len(sites)` clusters. |

## Left out

- File reading (`open`, `readlines`), the ORCA run (`subprocess`) and `electron_bonding_sites`: process and file I/O. The parsers take the lines of the file.
- `write_orca_input`: file output.
- `float()`: a parameter, `toFloat: string -> Option<real>`. The model does not fix which texts it accepts.
- The element table behind `Atoms(element)`: a parameter map from symbol to atomic number. An unknown symbol is an error.
- The noble-gas numbers are the constants 2, 10, 18, 36, 54 and 86, not looked up from the table.
- Character classes (`isspace`, `isdigit`, `\s`, `\d`, `\w`) are ASCII only. Python's Unicode whitespace and digits beyond ASCII are not modelled.
- The regular expression is modelled for this one pattern, as a scanner without backtracking. No general regex engine is modelled.
- ElectronSites.FindPotentialBondingSites: which unknown element raises first depends on dictionary order, so the model only states that some unknown element makes it raise.
- Error messages are not modelled. Errors carry the failing token or the site index.
- `scipy.optimize.minimize`, both objective functions and their starting points: the optimizer results are inputs, and nothing is proved about their optimality.
- The construction of `R` from three angles with `cos` and `sin`: the rotation is an arbitrary 3x3 real matrix.
- `scipy.spatial.ConvexHull`: the flattened simplex indices are an input, required non-empty and within the cluster when there is at least one site. With no sites the source never computes the hull, so the model asks nothing of the hull or the metal cluster. The source's `ConvexHull(metal_positions)` (ligand_metal_docking.py:68) raises for fewer than four atoms or for coplanar positions, so the source cannot dock a single metal ion. The model accepts any non-empty hull, such as `[0]` for a one-atom cluster, and does not reproduce that error.
- `np.linalg.norm`: a parameter used in the direction test. The clash test compares squared distances. TooCloseExactly, DirectionSpec and ClashesByDistance relate the two when `norm` is the Euclidean length.
- Floating-point rounding, NaN and infinities: positions and distances are real numbers.
- An empty bonding site (whose centroid is NaN in the source) is excluded by a precondition of Dock.
- Docking site indices are natural numbers. Negative numpy indices are not modelled. An index at or beyond the ligand's length raises.
- ASE `Atoms` internals (`copy`, `+=`, `set_positions`): a structure is a sequence of (symbol, position) records.
