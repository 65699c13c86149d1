/**
 * The three line scanners over an ORCA output file (matterfold/mofs/mayer_mbis_electrons.py):
 * the final single-point energy, the Mayer bond orders and the MBIS charges.
 * The file is given as its sequence of lines. Python's `float()` is the
 * parameter `toFloat`; `None` stands for a token it rejects with ValueError.
 */
module OrcaParsers {
  import opened Outcomes
  import opened Text
  import opened BondScanner

  const EnergyMarker: string := "FINAL SINGLE POINT ENERGY"
  const MayerSection: string := "MAYER POPULATION ANALYSIS"
  const MayerHeader: string := "Mayer bond orders larger than"
  const MayerStopStars: string := "****"
  const MayerStopPopulation: string := "Population analysis"
  const MbisSection: string := "MBIS ANALYSIS"
  const MbisHeader: string := "ATOM     CHARGE    POPULATION     SPIN"
  const MbisStopValence: string := "MBIS VALENCE-SHELL DATA"
  const MbisStopTotal: string := "Total charge"

  /** The exception `float()` raises on a token that is not a number. */
  datatype ParseError = ValueError(token: string)

  /** Python's `float(token)`: a number, or None where it raises. */
  type FloatConversion = string -> Option<real>

  function ToFloat(toFloat: FloatConversion, token: string): (r: Result<real, ParseError>) {
    match toFloat(token)
    case Some(v) => Ok(v)
    case None => Err(ValueError(token))
  }

  // ===========================================================================
  // Dictionary updates in order: `d[k] = v` for each produced entry, where a
  // failing conversion raises and ends the whole parse.
  // ===========================================================================

  /** What one step of a parser does to the dictionary it builds. */
  datatype Update<K, V> = Skip | Put(key: K, item: Result<V, ParseError>)

  /** The dictionary after performing `us` in order, or the first error raised. */
  function UpdateAll<K, V>(us: seq<Update<K, V>>): (r: Result<map<K, V>, ParseError>)
    decreases |us|
  {
    if us == [] then Ok(map[])
    else match UpdateAll(us[..|us| - 1])
      case Err(e) => Err(e)
      case Ok(m) =>
        match us[|us| - 1]
        case Skip => Ok(m)
        case Put(k, Err(e)) => Err(e)
        case Put(k, Ok(v)) => Ok(m[k := v])
  }

  /** Entry `i` writes key `us[i].key` and no later entry writes it again. */
  ghost predicate IsLastPut<K, V>(us: seq<Update<K, V>>, i: int) {
    0 <= i < |us| && us[i].Put?
    && forall j :: i < j < |us| && us[j].Put? ==> us[j].key != us[i].key
  }

  /** A successful run: every conversion succeeded, the keys are exactly the
      written keys, and each key holds the value of its last write. */
  lemma {:induction false} UpdateAllOk<K, V>(us: seq<Update<K, V>>)
    requires UpdateAll(us).Ok?
    ensures forall i :: 0 <= i < |us| && us[i].Put? ==> us[i].item.Ok?
    ensures forall k :: k in UpdateAll(us).value <==> exists i :: 0 <= i < |us| && us[i].Put? && us[i].key == k
    ensures forall i :: IsLastPut(us, i) ==> UpdateAll(us).value[us[i].key] == us[i].item.value
  {
    if us != [] {
      var n := |us| - 1;
      var front := us[..n];
      assert forall i :: 0 <= i < n ==> front[i] == us[i];
      UpdateAllOk(front);
      var m := UpdateAll(front).value;
      forall i | IsLastPut(us, i) ensures UpdateAll(us).value[us[i].key] == us[i].item.value {
        if i < n {
          assert IsLastPut(front, i);
        }
      }
    }
  }

  /** A failed run: the error is that of the first failing conversion, and
      runs fail exactly when some conversion fails. */
  lemma {:induction false} UpdateAllErr<K, V>(us: seq<Update<K, V>>)
    ensures UpdateAll(us).Err? <==> exists i :: 0 <= i < |us| && us[i].Put? && us[i].item.Err?
    ensures UpdateAll(us).Err? ==>
      exists i :: 0 <= i < |us| && us[i].Put? && us[i].item == Err(UpdateAll(us).error)
                  && forall j :: 0 <= j < i && us[j].Put? ==> us[j].item.Ok?
  {
    if us != [] {
      var n := |us| - 1;
      var front := us[..n];
      assert forall i :: 0 <= i < n ==> front[i] == us[i];
      UpdateAllErr(front);
    }
  }

  /** Once a conversion has raised, the entries after it are never performed. */
  lemma {:induction false} UpdateAllStopsAtError<K, V>(a: seq<Update<K, V>>, b: seq<Update<K, V>>)
    requires UpdateAll(a).Err?
    ensures UpdateAll(a + b) == UpdateAll(a)
    decreases |b|
  {
    if b != [] {
      var b' := b[..|b| - 1];
      assert (a + b)[..|a + b| - 1] == a + b';
      UpdateAllStopsAtError(a, b');
    } else {
      assert a + b == a;
    }
  }

  lemma UpdateAllSnoc<K, V>(a: seq<Update<K, V>>, u: Update<K, V>)
    ensures UpdateAll(a + [u]) == match UpdateAll(a)
      case Err(e) => Err(e)
      case Ok(m) => (match u
        case Skip => Ok(m)
        case Put(k, Err(e)) => Err(e)
        case Put(k, Ok(v)) => Ok(m[k := v]))
  {
    assert (a + [u])[..|a|] == a;
  }

  // ===========================================================================
  // Section headers: both parsers look for a header line only after a line
  // naming their section, and start reading on the line after that header.
  // ===========================================================================

  /** The outer loop of the section parsers from line `i` on, `inSection` being
      the value of its section flag there. */
  function HeaderFrom(lines: seq<string>, i: nat, inSection: bool, section: string, header: string): (r: Option<nat>)
    requires i <= |lines|
    ensures r.Some? ==> i <= r.value < |lines|
    decreases |lines| - i
  {
    if i == |lines| then None
    else if Contains(lines[i], section) then HeaderFrom(lines, i + 1, true, section, header)
    else if inSection && Contains(lines[i], header) then Some(i)
    else HeaderFrom(lines, i + 1, inSection, section, header)
  }

  /** The index of the header line the parser acts on, if any. */
  function HeaderLine(lines: seq<string>, section: string, header: string): (r: Option<nat>) {
    HeaderFrom(lines, 0, false, section, header)
  }

  ghost predicate SectionBefore(lines: seq<string>, h: nat, section: string)
    requires h <= |lines|
  {
    exists k :: 0 <= k < h && Contains(lines[k], section)
  }

  /** Line `h` can start the data: it contains the header, does not itself
      contain the section name, and some earlier line does. */
  ghost predicate IsHeaderAt(lines: seq<string>, h: nat, section: string, header: string) {
    && h < |lines|
    && Contains(lines[h], header)
    && !Contains(lines[h], section)
    && SectionBefore(lines, h, section)
  }

  lemma {:induction false} HeaderFromSpec(lines: seq<string>, i: nat, inSection: bool, section: string, header: string)
    requires i <= |lines|
    requires inSection == SectionBefore(lines, i, section)
    ensures HeaderFrom(lines, i, inSection, section, header).Some? ==>
      var h := HeaderFrom(lines, i, inSection, section, header).value;
      IsHeaderAt(lines, h, section, header)
      && forall g :: i <= g < h ==> !IsHeaderAt(lines, g, section, header)
    ensures HeaderFrom(lines, i, inSection, section, header).None? ==>
      forall g :: i <= g < |lines| ==> !IsHeaderAt(lines, g, section, header)
    decreases |lines| - i
  {
    if i < |lines| {
      if Contains(lines[i], section) {
        assert SectionBefore(lines, i + 1, section);
        HeaderFromSpec(lines, i + 1, true, section, header);
      } else if inSection && Contains(lines[i], header) {
      } else {
        assert SectionBefore(lines, i + 1, section) == SectionBefore(lines, i, section) by {
          if SectionBefore(lines, i + 1, section) {
            var k :| 0 <= k < i + 1 && Contains(lines[k], section);
            assert k < i;
          }
        }
        HeaderFromSpec(lines, i + 1, inSection, section, header);
      }
    }
  }

  /** The header the parsers act on is the first line that qualifies, and there
      is none exactly when no line qualifies. */
  lemma HeaderLineSpec(lines: seq<string>, section: string, header: string)
    ensures HeaderLine(lines, section, header).Some? ==>
      var h := HeaderLine(lines, section, header).value;
      IsHeaderAt(lines, h, section, header) && forall g :: 0 <= g < h ==> !IsHeaderAt(lines, g, section, header)
    ensures HeaderLine(lines, section, header).None? <==>
      forall g :: 0 <= g < |lines| ==> !IsHeaderAt(lines, g, section, header)
  {
    HeaderFromSpec(lines, 0, false, section, header);
  }

  /** The outer loop shared by `parse_mayer_data` and `parse_mbis_data`: it sets
      a flag at each line naming the section and stops at the first later line
      holding the header (a line naming the section only sets the flag). */
  method FindHeader(lines: seq<string>, section: string, header: string) returns (h: Option<nat>)
    ensures h == HeaderLine(lines, section, header)
  {
    var inSection := false;
    var i := 0;
    while i < |lines|
      invariant 0 <= i <= |lines|
      invariant HeaderFrom(lines, i, inSection, section, header) == HeaderLine(lines, section, header)
    {
      if Contains(lines[i], section) {
        inSection := true;
        i := i + 1;
        continue;
      }
      if inSection && Contains(lines[i], header) {
        return Some(i);
      }
      i := i + 1;
    }
    return None;
  }

  // ===========================================================================
  // parse_energy
  // ===========================================================================

  /** A line the energy scan accepts: it names the final energy and splits into
      at least five tokens. */
  predicate IsEnergyLine(line: string) {
    Contains(line, EnergyMarker) && |Split(Strip(line))| >= 5
  }

  /** What the scan returns for an accepted line: `float` of its fifth token. */
  function EnergyOf(toFloat: FloatConversion, line: string): (r: Result<Option<real>, ParseError>)
    requires IsEnergyLine(line)
  {
    match ToFloat(toFloat, Split(Strip(line))[4])
    case Ok(v) => Ok(Some(v))
    case Err(e) => Err(e)
  }

  /** The body of the energy scan on one line, written as the scan's own
      statements and proved to agree with `IsEnergyLine` and `EnergyOf`, which
      state the rule for the lemmas: None when the line is passed over, else
      the scan's result. */
  method EnergyLineValue(line: string, toFloat: FloatConversion) returns (r: Option<Result<Option<real>, ParseError>>)
    ensures r.Some? <==> IsEnergyLine(line)
    ensures r.Some? ==> r.value == EnergyOf(toFloat, line)
  {
    if Contains(line, EnergyMarker) {
      var parts := Split(Strip(line));
      if |parts| >= 5 {
        var energy := toFloat(parts[4]);
        if energy.None? {
          return Some(Err(ValueError(parts[4])));
        }
        return Some(Ok(Some(energy.value)));
      }
    }
    return None;
  }

  /** Line `i` is the first accepted line. */
  predicate FirstEnergyLine(lines: seq<string>, i: int) {
    0 <= i < |lines| && IsEnergyLine(lines[i]) && forall j :: 0 <= j < i ==> !IsEnergyLine(lines[j])
  }

  /** `parse_energy`: token 4 of the first accepted line, converted; lines that
      name the energy but have fewer than five tokens are passed over; None when
      no line is accepted. */
  method ParseEnergy(lines: seq<string>, toFloat: FloatConversion) returns (r: Result<Option<real>, ParseError>)
    ensures (forall i :: 0 <= i < |lines| ==> !IsEnergyLine(lines[i])) ==> r == Ok(None)
    ensures forall i :: FirstEnergyLine(lines, i) ==> r == EnergyOf(toFloat, lines[i])
  {
    var i := 0;
    while i < |lines|
      invariant 0 <= i <= |lines|
      invariant forall j :: 0 <= j < i ==> !IsEnergyLine(lines[j])
    {
      var found := EnergyLineValue(lines[i], toFloat);
      if found.Some? {
        assert forall k :: FirstEnergyLine(lines, k) ==> k == i;
        return found.value;
      }
      i := i + 1;
    }
    return Ok(None);
  }

  // ===========================================================================
  // parse_mayer_data
  // ===========================================================================

  predicate IsMayerStop(content: string) {
    Contains(content, MayerStopStars) || Contains(content, MayerStopPopulation)
  }

  /** The inner loop of `parse_mayer_data` from line `j` on: the stripped lines
      it appends, skipping blank ones, up to the first stop line. */
  function BondLines(lines: seq<string>, j: nat): (r: seq<string>)
    requires j <= |lines|
    ensures forall k :: 0 <= k < |r| ==> r[k] != "" && !IsMayerStop(r[k])
    decreases |lines| - j
  {
    if j == |lines| then []
    else
      var content := Strip(lines[j]);
      if content == "" then BondLines(lines, j + 1)
      else if IsMayerStop(content) then []
      else [content] + BondLines(lines, j + 1)
  }

  /** The first line at or after `j` whose stripped content is a stop line, or the end. */
  function MayerStop(lines: seq<string>, j: nat): (e: nat)
    requires j <= |lines|
    ensures j <= e <= |lines|
    ensures forall k :: j <= k < e ==> !IsMayerStop(Strip(lines[k]))
    ensures e < |lines| ==> IsMayerStop(Strip(lines[e]))
    decreases |lines| - j
  {
    if j == |lines| then j
    else if IsMayerStop(Strip(lines[j])) then j
    else MayerStop(lines, j + 1)
  }

  /** The stripped non-blank lines of `ls`, in order. */
  function NonBlank(ls: seq<string>): (r: seq<string>) {
    if ls == [] then []
    else (if Strip(ls[0]) == "" then [] else [Strip(ls[0])]) + NonBlank(ls[1..])
  }

  /** What the inner loop collects is exactly the non-blank lines between its
      start and the first stop line, stripped. */
  lemma {:induction false} BondLinesWindow(lines: seq<string>, j: nat)
    requires j <= |lines|
    ensures BondLines(lines, j) == NonBlank(lines[j..MayerStop(lines, j)])
    decreases |lines| - j
  {
    if j < |lines| {
      var content := Strip(lines[j]);
      if content == "" {
        assert !IsMayerStop(content) by { assert !StartsWith(content, MayerStopStars); }
        BondLinesWindow(lines, j + 1);
        assert lines[j..MayerStop(lines, j)][1..] == lines[j + 1..MayerStop(lines, j + 1)];
      } else if !IsMayerStop(content) {
        BondLinesWindow(lines, j + 1);
        assert lines[j..MayerStop(lines, j)][1..] == lines[j + 1..MayerStop(lines, j + 1)];
      }
    }
  }

  /** The lines the outer loop of `parse_mayer_data` collects. */
  function MayerCollected(lines: seq<string>): (r: seq<string>) {
    match HeaderLine(lines, MayerSection, MayerHeader)
    case None => []
    case Some(h) => BondLines(lines, h + 1)
  }

  /** The dictionary updates `parse_mayer_data` performs for the regex matches `ms`. */
  function BondUpdates(ms: seq<BondMatch>, toFloat: FloatConversion): (us: seq<Update<(nat, nat), real>>)
    ensures |us| == |ms|
    ensures forall i :: 0 <= i < |ms| ==> us[i] == Put((ms[i].atom1, ms[i].atom2), ToFloat(toFloat, ms[i].order))
  {
    seq(|ms|, i requires 0 <= i < |ms| => Put((ms[i].atom1, ms[i].atom2), ToFloat(toFloat, ms[i].order)))
  }

  /** The regex matches found in the collected bond-order text. */
  function MayerMatches(lines: seq<string>): (r: seq<BondMatch>) {
    FindAll(Join(MayerCollected(lines), " "))
  }

  /** The `bond_orders` dictionary of `parse_mayer_data`. */
  function MayerBondOrders(lines: seq<string>, toFloat: FloatConversion): (r: Result<map<(nat, nat), real>, ParseError>) {
    UpdateAll(BondUpdates(MayerMatches(lines), toFloat))
  }

  /** The inner loop of `parse_mayer_data`: from line `start` on, strip each
      line, pass over blank ones, stop at a stop line, collect the rest. */
  method CollectBondLines(lines: seq<string>, start: nat) returns (collected: seq<string>)
    requires start <= |lines|
    ensures collected == BondLines(lines, start)
  {
    collected := [];
    var j := start;
    while j < |lines|
      invariant start <= j <= |lines|
      invariant collected + BondLines(lines, j) == BondLines(lines, start)
    {
      var content := Strip(lines[j]);
      if content == "" {
        assert BondLines(lines, j) == BondLines(lines, j + 1);
        j := j + 1;
        continue;
      }
      if IsMayerStop(content) {
        assert BondLines(lines, j) == [];
        assert collected + [] == collected;
        break;
      }
      assert BondLines(lines, j) == [content] + BondLines(lines, j + 1);
      assert (collected + [content]) + BondLines(lines, j + 1) == collected + ([content] + BondLines(lines, j + 1));
      collected := collected + [content];
      j := j + 1;
    }
    if j == |lines| {
      assert collected + [] == collected;
    }
  }

  /** The final loop of `parse_mayer_data`: `bond_orders[(i, j)] = float(v)`
      for each match in turn. */
  method StoreBondOrders(matches: seq<BondMatch>, toFloat: FloatConversion) returns (r: Result<map<(nat, nat), real>, ParseError>)
    ensures r == UpdateAll(BondUpdates(matches, toFloat))
  {
    ghost var updates := BondUpdates(matches, toFloat);
    var bondOrders: map<(nat, nat), real> := map[];
    var k := 0;
    while k < |matches|
      invariant 0 <= k <= |matches|
      invariant UpdateAll(updates[..k]) == Ok(bondOrders)
    {
      var m := matches[k];
      var order := toFloat(m.order);
      UpdateAllSnoc(updates[..k], updates[k]);
      assert updates[..k] + [updates[k]] == updates[..k + 1];
      if order.None? {
        UpdateAllStopsAtError(updates[..k + 1], updates[k + 1..]);
        assert updates[..k + 1] + updates[k + 1..] == updates;
        return Err(ValueError(m.order));
      }
      bondOrders := bondOrders[(m.atom1, m.atom2) := order.value];
      k := k + 1;
    }
    assert updates[..k] == updates;
    r := Ok(bondOrders);
  }

  /** `parse_mayer_data`, returning its `bond_orders` dictionary. */
  method ParseMayerData(lines: seq<string>, toFloat: FloatConversion) returns (r: Result<map<(nat, nat), real>, ParseError>)
    ensures r == MayerBondOrders(lines, toFloat)
  {
    var header := FindHeader(lines, MayerSection, MayerHeader);
    var bondOrderLines: seq<string> := [];
    if header.Some? {
      bondOrderLines := CollectBondLines(lines, header.value + 1);
    }
    var matches := FindAll(Join(bondOrderLines, " "));
    r := StoreBondOrders(matches, toFloat);
  }

  /** The bond-order dictionary: keyed by the two atom numbers of each match in
      the order the text gives them, each key holding the order of its last
      match; it fails exactly when some captured order is not a number. */
  lemma MayerBondOrdersSpec(lines: seq<string>, toFloat: FloatConversion)
    ensures var ms := MayerMatches(lines);
      MayerBondOrders(lines, toFloat).Err? <==> exists i :: 0 <= i < |ms| && toFloat(ms[i].order).None?
    ensures var ms := MayerMatches(lines); var r := MayerBondOrders(lines, toFloat);
      r.Ok? ==> forall a, b :: (a, b) in r.value <==> exists i :: 0 <= i < |ms| && ms[i].atom1 == a && ms[i].atom2 == b
    ensures var ms := MayerMatches(lines); var r := MayerBondOrders(lines, toFloat);
      r.Ok? ==>
        forall i :: (0 <= i < |ms| && (forall j :: i < j < |ms| ==> (ms[j].atom1, ms[j].atom2) != (ms[i].atom1, ms[i].atom2)))
                    ==> toFloat(ms[i].order) == Some(r.value[(ms[i].atom1, ms[i].atom2)])
  {
    var ms := MayerMatches(lines);
    var us := BondUpdates(ms, toFloat);
    UpdateAllErr(us);
    if UpdateAll(us).Ok? {
      UpdateAllOk(us);
      forall i | 0 <= i < |ms| && (forall j :: i < j < |ms| ==> (ms[j].atom1, ms[j].atom2) != (ms[i].atom1, ms[i].atom2))
        ensures toFloat(ms[i].order) == Some(UpdateAll(us).value[(ms[i].atom1, ms[i].atom2)])
      {
        assert IsLastPut(us, i);
      }
    }
  }

  /** Without a qualifying header the dictionary is empty. */
  lemma MayerWithoutSection(lines: seq<string>, toFloat: FloatConversion)
    requires forall g :: 0 <= g < |lines| ==> !IsHeaderAt(lines, g, MayerSection, MayerHeader)
    ensures MayerBondOrders(lines, toFloat) == Ok(map[])
  {
    HeaderLineSpec(lines, MayerSection, MayerHeader);
  }

  // ===========================================================================
  // parse_mbis_data
  // ===========================================================================

  /** One atom's MBIS record. */
  datatype MbisRecord = MbisRecord(element: string, charge: real)

  /** A data row as read: atom number, element and the charge token before conversion. */
  datatype MbisRow = MbisRow(atom: nat, element: string, chargeToken: string)

  predicate IsMbisStop(content: string) {
    content == "" || Contains(content, MbisStopValence) || Contains(content, MbisStopTotal)
  }

  /** A data row: at least four tokens, the first all digits. */
  predicate IsMbisRow(parts: seq<string>) {
    |parts| >= 4 && IsDigits(parts[0])
  }

  /** How the inner loop of `parse_mbis_data` treats one line. */
  datatype MbisLine = TableEnd | DataRow(row: MbisRow) | OtherLine

  /** The stripped line ends the table, is a data row (`int(parts[0])`,
      `parts[1]`, `parts[2]`), or is passed over. */
  function MbisLineKind(line: string): (r: MbisLine) {
    var content := Strip(line);
    if IsMbisStop(content) then TableEnd
    else
      var parts := Split(content);
      if IsMbisRow(parts) then DataRow(MbisRow(DigitsValue(parts[0]), parts[1], parts[2])) else OtherLine
  }

  function MbisLineKinds(lines: seq<string>): (ks: seq<MbisLine>)
    ensures |ks| == |lines|
    ensures forall k :: 0 <= k < |lines| ==> ks[k] == MbisLineKind(lines[k])
  {
    if lines == [] then [] else [MbisLineKind(lines[0])] + MbisLineKinds(lines[1..])
  }

  /** `ks` classifies `lines`, line by line. */
  predicate IsLineKinds(lines: seq<string>, ks: seq<MbisLine>) {
    && |ks| == |lines|
    && forall k {:trigger MbisLineKind(lines[k])} :: 0 <= k < |lines| ==> ks[k] == MbisLineKind(lines[k])
  }

  /** The first table end at or after `j`, or the end of the lines. */
  function TableEndFrom(ks: seq<MbisLine>, j: nat): (e: nat)
    requires j <= |ks|
    ensures j <= e <= |ks|
    ensures forall k :: j <= k < e ==> !ks[k].TableEnd?
    ensures e < |ks| ==> ks[e].TableEnd?
    decreases |ks| - j
  {
    if j == |ks| || ks[j].TableEnd? then j else TableEndFrom(ks, j + 1)
  }

  /** The dictionary update a line makes: a data row stores
      `{element, float(charge)}` under its atom number. */
  function LineUpdate(kind: MbisLine, toFloat: FloatConversion): (r: Update<nat, MbisRecord>) {
    match kind
    case DataRow(MbisRow(atom, element, token)) =>
      Put(atom, match ToFloat(toFloat, token)
        case Ok(c) => Ok(MbisRecord(element, c))
        case Err(e) => Err(e))
    case _ => Skip
  }

  /** The updates of the inner loop of `parse_mbis_data` from line `j` up to the table end. */
  function MbisUpdates(ks: seq<MbisLine>, j: nat, toFloat: FloatConversion): (r: seq<Update<nat, MbisRecord>>)
    requires j <= |ks|
    decreases |ks| - j
  {
    if j == |ks| || ks[j].TableEnd? then []
    else [LineUpdate(ks[j], toFloat)] + MbisUpdates(ks, j + 1, toFloat)
  }

  /** One update per line strictly before the table end, in order. */
  lemma {:induction false} MbisUpdatesWindow(ks: seq<MbisLine>, j: nat, toFloat: FloatConversion)
    requires j <= |ks|
    ensures |MbisUpdates(ks, j, toFloat)| == TableEndFrom(ks, j) - j
    ensures forall k :: j <= k < TableEndFrom(ks, j) ==> MbisUpdates(ks, j, toFloat)[k - j] == LineUpdate(ks[k], toFloat)
    decreases |ks| - j
  {
    if j < |ks| && !ks[j].TableEnd? {
      var rest := MbisUpdates(ks, j + 1, toFloat);
      assert MbisUpdates(ks, j, toFloat) == [LineUpdate(ks[j], toFloat)] + rest;
      MbisUpdatesWindow(ks, j + 1, toFloat);
      forall k | j < k < TableEndFrom(ks, j)
        ensures MbisUpdates(ks, j, toFloat)[k - j] == LineUpdate(ks[k], toFloat)
      {
        assert MbisUpdates(ks, j, toFloat)[k - j] == rest[k - (j + 1)];
      }
    }
  }

  /** The dictionary `parse_mbis_data` returns. */
  function MbisData(lines: seq<string>, toFloat: FloatConversion): (r: Result<map<nat, MbisRecord>, ParseError>) {
    match HeaderLine(lines, MbisSection, MbisHeader)
    case None => Ok(map[])
    case Some(h) => UpdateAll(MbisUpdates(MbisLineKinds(lines), h + 1, toFloat))
  }

  /** What the inner loop of `parse_mbis_data` returns when it reaches line `j`
      holding the dictionary `data`. */
  function MbisFrom(ks: seq<MbisLine>, j: nat, data: map<nat, MbisRecord>, toFloat: FloatConversion): (r: Result<map<nat, MbisRecord>, ParseError>)
    requires j <= |ks|
    decreases |ks| - j
  {
    if j == |ks| || ks[j].TableEnd? then Ok(data)
    else match LineUpdate(ks[j], toFloat)
      case Skip => MbisFrom(ks, j + 1, data, toFloat)
      case Put(k, Err(e)) => Err(e)
      case Put(k, Ok(v)) => MbisFrom(ks, j + 1, data[k := v], toFloat)
  }

  /** Running the loop on from a dictionary built by updates `done` is
      performing `done` followed by the rest of the table's updates. */
  lemma {:induction false} MbisFromUpdates(ks: seq<MbisLine>, j: nat, done: seq<Update<nat, MbisRecord>>, data: map<nat, MbisRecord>, toFloat: FloatConversion)
    requires j <= |ks|
    requires UpdateAll(done) == Ok(data)
    ensures MbisFrom(ks, j, data, toFloat) == UpdateAll(done + MbisUpdates(ks, j, toFloat))
    decreases |ks| - j
  {
    if j == |ks| || ks[j].TableEnd? {
      assert done + MbisUpdates(ks, j, toFloat) == done;
    } else {
      var u := LineUpdate(ks[j], toFloat);
      var rest := MbisUpdates(ks, j + 1, toFloat);
      assert done + MbisUpdates(ks, j, toFloat) == (done + [u]) + rest;
      UpdateAllSnoc(done, u);
      match u
      case Skip =>
        MbisFromUpdates(ks, j + 1, done + [u], data, toFloat);
      case Put(k, Err(e)) =>
        UpdateAllStopsAtError(done + [u], rest);
      case Put(k, Ok(v)) =>
        MbisFromUpdates(ks, j + 1, done + [u], data[k := v], toFloat);
    }
  }

  /** The tests of the inner loop of `parse_mbis_data` on one line, written as
      the loop's own statements and proved to agree with `MbisLineKind`, which
      states the rule for the lemmas: strip the line, stop at a blank or
      closing line, else split it and read a data row. */
  method ClassifyMbisLine(lines: seq<string>, j: nat, ghost ks: seq<MbisLine>) returns (kind: MbisLine)
    requires j < |lines| && IsLineKinds(lines, ks)
    ensures kind == ks[j]
  {
    var content := Strip(lines[j]);
    if content == "" || Contains(content, MbisStopValence) || Contains(content, MbisStopTotal) {
      kind := TableEnd;
      assert kind == MbisLineKind(lines[j]);
      return;
    }
    var parts := Split(content);
    if |parts| >= 4 && IsDigits(parts[0]) {
      var atomIndex := DigitsValue(parts[0]);
      var element := parts[1];
      kind := DataRow(MbisRow(atomIndex, element, parts[2]));
    } else {
      kind := OtherLine;
    }
    assert kind == MbisLineKind(lines[j]);
  }

  /** The inner loop of `parse_mbis_data`: from line `start` on, until a stop
      line, record `mbis_data[int(token 0)]` for every data row. */
  method ReadMbisRows(lines: seq<string>, ghost ks: seq<MbisLine>, start: nat, toFloat: FloatConversion)
    returns (r: Result<map<nat, MbisRecord>, ParseError>)
    requires start <= |lines| && IsLineKinds(lines, ks)
    ensures r == MbisFrom(ks, start, map[], toFloat)
  {
    var mbisData: map<nat, MbisRecord> := map[];
    var j := start;
    while j < |lines|
      invariant start <= j <= |lines|
      invariant MbisFrom(ks, j, mbisData, toFloat) == MbisFrom(ks, start, map[], toFloat)
    {
      var kind := ClassifyMbisLine(lines, j, ks);
      if kind.TableEnd? {
        break;
      }
      if kind.DataRow? {
        var charge := toFloat(kind.row.chargeToken);
        if charge.None? {
          return Err(ValueError(kind.row.chargeToken));
        }
        mbisData := mbisData[kind.row.atom := MbisRecord(kind.row.element, charge.value)];
      }
      j := j + 1;
    }
    return Ok(mbisData);
  }

  /** `parse_mbis_data`. */
  method ParseMbisData(lines: seq<string>, toFloat: FloatConversion) returns (r: Result<map<nat, MbisRecord>, ParseError>)
    ensures r == MbisData(lines, toFloat)
  {
    var header := FindHeader(lines, MbisSection, MbisHeader);
    if header.None? {
      return Ok(map[]);
    }
    r := ReadMbisRows(lines, MbisLineKinds(lines), header.value + 1, toFloat);
    MbisFromUpdates(MbisLineKinds(lines), header.value + 1, [], map[], toFloat);
    assert [] + MbisUpdates(MbisLineKinds(lines), header.value + 1, toFloat) == MbisUpdates(MbisLineKinds(lines), header.value + 1, toFloat);
  }

  /** Reading a table fails exactly when one of its data rows has a charge
      that does not convert; so a table read without error has every charge
      converted. */
  lemma MbisTableCharges(ks: seq<MbisLine>, j: nat, toFloat: FloatConversion)
    requires j <= |ks|
    ensures UpdateAll(MbisUpdates(ks, j, toFloat)).Err? <==>
      exists k :: j <= k < TableEndFrom(ks, j) && ks[k].DataRow? && toFloat(ks[k].row.chargeToken).None?
    ensures UpdateAll(MbisUpdates(ks, j, toFloat)).Ok? ==>
      forall k :: j <= k < TableEndFrom(ks, j) && ks[k].DataRow? ==> toFloat(ks[k].row.chargeToken).Some?
  {
    var e := TableEndFrom(ks, j);
    var us := MbisUpdates(ks, j, toFloat);
    MbisUpdatesWindow(ks, j, toFloat);
    UpdateAllErr(us);
    if UpdateAll(us).Err? {
      var i :| 0 <= i < |us| && us[i].Put? && us[i].item.Err?;
      assert us[(j + i) - j] == LineUpdate(ks[j + i], toFloat);
    }
    forall k | j <= k < e && ks[k].DataRow? && toFloat(ks[k].row.chargeToken).None?
      ensures UpdateAll(us).Err?
    {
      assert us[k - j] == LineUpdate(ks[k], toFloat);
    }
  }

  /** A key is in the table's dictionary exactly when some data row of the
      table carries it. */
  lemma MbisTableKeys(ks: seq<MbisLine>, j: nat, toFloat: FloatConversion)
    requires j <= |ks|
    requires UpdateAll(MbisUpdates(ks, j, toFloat)).Ok?
    ensures var e := TableEndFrom(ks, j); var m := UpdateAll(MbisUpdates(ks, j, toFloat)).value;
      forall key :: key in m <==> exists k :: j <= k < e && ks[k].DataRow? && ks[k].row.atom == key
  {
    var e := TableEndFrom(ks, j);
    var us := MbisUpdates(ks, j, toFloat);
    MbisUpdatesWindow(ks, j, toFloat);
    UpdateAllOk(us);
    var m := UpdateAll(us).value;
    forall key | key in m ensures exists k :: j <= k < e && ks[k].DataRow? && ks[k].row.atom == key {
      var i :| 0 <= i < |us| && us[i].Put? && us[i].key == key;
      assert us[(j + i) - j] == LineUpdate(ks[j + i], toFloat);
    }
    forall key | exists k :: j <= k < e && ks[k].DataRow? && ks[k].row.atom == key ensures key in m {
      var k :| j <= k < e && ks[k].DataRow? && ks[k].row.atom == key;
      assert us[k - j] == LineUpdate(ks[k], toFloat);
    }
  }

  /** A key holds the element and converted charge of the last data row of the
      table that carries it. */
  lemma MbisTableLast(ks: seq<MbisLine>, j: nat, toFloat: FloatConversion)
    requires j <= |ks|
    requires UpdateAll(MbisUpdates(ks, j, toFloat)).Ok?
    ensures var e := TableEndFrom(ks, j); var m := UpdateAll(MbisUpdates(ks, j, toFloat)).value;
      forall k :: (j <= k < e && ks[k].DataRow?
                   && (forall k' :: k < k' < e && ks[k'].DataRow? ==> ks[k'].row.atom != ks[k].row.atom))
                  ==> && ks[k].row.atom in m && toFloat(ks[k].row.chargeToken).Some?
                      && m[ks[k].row.atom] == MbisRecord(ks[k].row.element, toFloat(ks[k].row.chargeToken).value)
  {
    var e := TableEndFrom(ks, j);
    var us := MbisUpdates(ks, j, toFloat);
    MbisUpdatesWindow(ks, j, toFloat);
    UpdateAllOk(us);
    var m := UpdateAll(us).value;
    forall k | j <= k < e && ks[k].DataRow? && (forall k' :: k < k' < e && ks[k'].DataRow? ==> ks[k'].row.atom != ks[k].row.atom)
      ensures && ks[k].row.atom in m && toFloat(ks[k].row.chargeToken).Some?
              && m[ks[k].row.atom] == MbisRecord(ks[k].row.element, toFloat(ks[k].row.chargeToken).value)
    {
      MbisLastRow(ks, j, k, toFloat);
    }
  }

  /** The update of the last data row carrying a key is the last write of that key. */
  lemma MbisLastRow(ks: seq<MbisLine>, j: nat, k: nat, toFloat: FloatConversion)
    requires j <= |ks| && j <= k < TableEndFrom(ks, j) && ks[k].DataRow?
    requires forall k' :: k < k' < TableEndFrom(ks, j) && ks[k'].DataRow? ==> ks[k'].row.atom != ks[k].row.atom
    ensures |MbisUpdates(ks, j, toFloat)| == TableEndFrom(ks, j) - j
    ensures MbisUpdates(ks, j, toFloat)[k - j] == LineUpdate(ks[k], toFloat)
    ensures IsLastPut(MbisUpdates(ks, j, toFloat), k - j)
  {
    var us := MbisUpdates(ks, j, toFloat);
    MbisUpdatesWindow(ks, j, toFloat);
    var i := k - j;
    forall i' | i < i' < |us| && us[i'].Put? ensures us[i'].key != us[i].key {
      assert us[(j + i') - j] == LineUpdate(ks[j + i'], toFloat);
    }
  }

  /** The MBIS dictionary, read back against the lines themselves: with `h`
      the header line, a key is present exactly when a data row (classified by
      `MbisLineKind`) between the header and the first table end carries it. */
  lemma MbisDataSpec(lines: seq<string>, toFloat: FloatConversion)
    requires HeaderLine(lines, MbisSection, MbisHeader).Some?
    requires MbisData(lines, toFloat).Ok?
    ensures var h := HeaderLine(lines, MbisSection, MbisHeader).value;
      var ks := MbisLineKinds(lines); var e := TableEndFrom(ks, h + 1); var m := MbisData(lines, toFloat).value;
      forall key :: key in m <==> exists k :: h < k < e && MbisLineKind(lines[k]).DataRow? && MbisLineKind(lines[k]).row.atom == key
  {
    var h := HeaderLine(lines, MbisSection, MbisHeader).value;
    MbisTableKeys(MbisLineKinds(lines), h + 1, toFloat);
  }

  /** `parse_mbis_data` raises exactly when a data row between the header and
      the first table end has a charge that `float()` rejects. */
  lemma MbisDataErr(lines: seq<string>, toFloat: FloatConversion)
    requires HeaderLine(lines, MbisSection, MbisHeader).Some?
    ensures var h := HeaderLine(lines, MbisSection, MbisHeader).value;
      var e := TableEndFrom(MbisLineKinds(lines), h + 1);
      MbisData(lines, toFloat).Err? <==>
        exists k :: h < k < e && MbisLineKind(lines[k]).DataRow? && toFloat(MbisLineKind(lines[k]).row.chargeToken).None?
  {
    var h := HeaderLine(lines, MbisSection, MbisHeader).value;
    MbisTableCharges(MbisLineKinds(lines), h + 1, toFloat);
  }

  /** Without a qualifying header the MBIS dictionary is empty. */
  lemma MbisWithoutSection(lines: seq<string>, toFloat: FloatConversion)
    requires forall g :: 0 <= g < |lines| ==> !IsHeaderAt(lines, g, MbisSection, MbisHeader)
    ensures MbisData(lines, toFloat) == Ok(map[])
  {
    HeaderLineSpec(lines, MbisSection, MbisHeader);
  }
}
