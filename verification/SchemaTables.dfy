/**
 * The signal and unit id tables: built from lists into maps, and published by
 * inverting and sorting the map. Consumers look rows up by position, id - 1.
 */
module SchemaTables {
  import opened Common

  const MAX_ENTRIES: nat := 0xFFFF

  datatype TableError = UnitCountMismatch | TooManyUnits | TooManySignals

  datatype IdTables = IdTables(nameToId: map<Text, uint16>, idToUnit: map<uint16, uint16>, unitNames: seq<Text>)

  datatype SignalEntry = SignalEntry(id: uint16, name: Text, unitId: uint16)

  // ---------- meaning of the lists ----------

  /** The i-th entry is the last one of its name. */
  ghost predicate IsLast(names: seq<Text>, i: nat)
    requires i < |names|
  {
    forall j | i < j < |names| :: names[j] != names[i]
  }

  /** Ids are 1-indexed positions; of equal names the last position counts. */
  function NameIds(names: seq<Text>): map<Text, uint16>
    requires |names| <= MAX_ENTRIES
  {
    if names == [] then map[] else NameIds(names[..|names| - 1])[names[|names| - 1] := |names|]
  }

  /** The id of a listed name is the last position of it. */
  lemma {:induction false} IdOfName(names: seq<Text>, n: Text)
    requires |names| <= MAX_ENTRIES
    ensures n in NameIds(names) <==> n in names
    ensures n in names ==>
              var id := NameIds(names)[n]; 1 <= id <= |names| && names[id - 1] == n && IsLast(names, id - 1)
  {
    if names != [] {
      var before, last := names[..|names| - 1], names[|names| - 1];
      assert names == before + [last];
      IdOfName(before, n);
    }
  }

  /** Each last position is the id of its name. */
  lemma IdOfLastPosition(names: seq<Text>, i: nat)
    requires |names| <= MAX_ENTRIES && i < |names| && IsLast(names, i)
    ensures names[i] in NameIds(names) && NameIds(names)[names[i]] == i + 1
  {
    IdOfName(names, names[i]);
  }

  /** The unit id of every position whose unit is listed. */
  function UnitIds(signalUnits: seq<Text>, unitNames: seq<Text>): map<uint16, uint16>
    requires |signalUnits| <= MAX_ENTRIES && |unitNames| <= MAX_ENTRIES
  {
    if signalUnits == [] then map[]
    else
      var before := UnitIds(signalUnits[..|signalUnits| - 1], unitNames);
      var unit := signalUnits[|signalUnits| - 1];
      if unit in NameIds(unitNames) then before[|signalUnits| := NameIds(unitNames)[unit]] else before
  }

  lemma {:induction false} UnitIdOf(signalUnits: seq<Text>, unitNames: seq<Text>, id: uint16)
    requires |signalUnits| <= MAX_ENTRIES && |unitNames| <= MAX_ENTRIES
    ensures var m := UnitIds(signalUnits, unitNames);
      && (id in m <==> 1 <= id <= |signalUnits| && signalUnits[id - 1] in unitNames)
      && (id in m ==> 1 <= m[id] <= |unitNames| && unitNames[m[id] - 1] == signalUnits[id - 1])
  {
    if signalUnits != [] {
      IdOfName(unitNames, signalUnits[|signalUnits| - 1]);
      UnitIdOf(signalUnits[..|signalUnits| - 1], unitNames, id);
    }
  }

  // ---------- loading ----------

  method LoadIdTables(signalNames: seq<Text>, signalUnits: seq<Text>, unitNames: seq<Text>)
    returns (r: Result<IdTables, TableError>)
    ensures signalNames != [] && |signalUnits| != |signalNames| ==> r == Err(UnitCountMismatch)
    ensures (signalNames == [] || |signalUnits| == |signalNames|) && |unitNames| > MAX_ENTRIES ==> r == Err(TooManyUnits)
    ensures (signalNames == [] || |signalUnits| == |signalNames|) && |unitNames| <= MAX_ENTRIES ==>
              if |signalNames| > MAX_ENTRIES then r == Err(TooManySignals)
              else r == Ok(IdTables(NameIds(signalNames),
                                    UnitIds(if signalNames == [] then [] else signalUnits, unitNames), unitNames))
    ensures r.Ok? ==> InjectiveIds(r.value.nameToId)
  {
    if signalNames != [] && |signalUnits| != |signalNames| {
      return Err(UnitCountMismatch);
    }
    if |unitNames| > MAX_ENTRIES {
      return Err(TooManyUnits);
    }
    var unitNameToId: map<Text, uint16> := map[];
    for i := 0 to |unitNames|
      invariant unitNameToId == NameIds(unitNames[..i])
    {
      assert unitNames[..i + 1][..i] == unitNames[..i];
      unitNameToId := unitNameToId[unitNames[i] := (i + 1) % TWO_16];
    }
    assert unitNames[..|unitNames|] == unitNames;
    if |signalNames| > MAX_ENTRIES {
      return Err(TooManySignals);
    }
    var nameToId: map<Text, uint16> := map[];
    var idToUnit: map<uint16, uint16> := map[];
    for i := 0 to |signalNames|
      invariant nameToId == NameIds(signalNames[..i])
      invariant idToUnit == UnitIds(signalUnits[..i], unitNames)
    {
      assert signalNames[..i + 1][..i] == signalNames[..i];
      var id: uint16 := (i + 1) % TWO_16;
      nameToId := nameToId[signalNames[i] := id];
      if signalUnits != [] {
        assert signalUnits[..i + 1][..i] == signalUnits[..i];
        if signalUnits[i] in unitNameToId {
          idToUnit := idToUnit[id := unitNameToId[signalUnits[i]]];
        }
      }
    }
    assert signalNames[..|signalNames|] == signalNames;
    assert signalNames != [] ==> signalUnits[..|signalNames|] == signalUnits;
    IdsAreInjective(signalNames);
    return Ok(IdTables(nameToId, idToUnit, unitNames));
  }

  // ---------- publishing ----------

  type Pair = (uint16, Text)

  /** Ids strictly increase. */
  ghost predicate SortedById(pairs: seq<Pair>) {
    forall i, j | 0 <= i < j < |pairs| :: pairs[i].0 < pairs[j].0
  }

  ghost predicate DistinctIds(pairs: seq<Pair>) {
    forall i, j | 0 <= i < j < |pairs| :: pairs[i].0 != pairs[j].0
  }

  /** Puts a pair in front of the first one of a larger id. */
  function Insert(p: Pair, sorted: seq<Pair>): (r: seq<Pair>)
    requires SortedById(sorted) && forall q | q in sorted :: q.0 != p.0
    ensures SortedById(r)
    ensures forall q :: q in r <==> q == p || q in sorted
  {
    if sorted == [] || p.0 < sorted[0].0 then [p] + sorted
    else
      var rest := Insert(p, sorted[1..]);
      assert sorted == [sorted[0]] + sorted[1..];
      assert forall q | q in rest :: sorted[0].0 < q.0;
      [sorted[0]] + rest
  }

  /** std::sort of (id, name) pairs; the ids differ, so the names never decide. */
  function Sort(pairs: seq<Pair>): (r: seq<Pair>)
    requires DistinctIds(pairs)
    ensures SortedById(r)
    ensures forall q :: q in r <==> q in pairs
  {
    if pairs == [] then []
    else
      assert pairs == [pairs[0]] + pairs[1..];
      Insert(pairs[0], Sort(pairs[1..]))
  }

  /** The row of a name. */
  function EntryOf(t: IdTables, name: Text): SignalEntry
    requires name in t.nameToId
  {
    var id := t.nameToId[name];
    SignalEntry(id, name, if id in t.idToUnit then t.idToUnit[id] else 0)
  }

  ghost predicate InjectiveIds(m: map<Text, uint16>) {
    forall n, n' | n in m && n' in m && m[n] == m[n'] :: n == n'
  }

  /** The rows are those of the map, in strictly increasing order of ids. */
  ghost predicate IsSortedInverse(rows: seq<SignalEntry>, t: IdTables) {
    && (forall i, j | 0 <= i < j < |rows| :: rows[i].id < rows[j].id)
    && (forall r | r in rows :: r.name in t.nameToId && r == EntryOf(t, r.name))
    && (forall n | n in t.nameToId :: EntryOf(t, n) in rows)
  }

  /** The (id, name) pairs of the map, in its own order. */
  method CollectPairs(m: map<Text, uint16>) returns (pairs: seq<Pair>)
    requires InjectiveIds(m)
    ensures forall q :: q in pairs <==> q.1 in m && m[q.1] == q.0
    ensures DistinctIds(pairs)
  {
    pairs := [];
    var todo := m.Keys;
    while todo != {}
      invariant todo <= m.Keys
      invariant forall q :: q in pairs <==> q.1 in m.Keys - todo && m[q.1] == q.0
      invariant DistinctIds(pairs)
      decreases todo
    {
      var name :| name in todo;
      todo := todo - {name};
      pairs := pairs + [(m[name], name)];
    }
  }

  /** The rows of the pairs, in order. */
  method BuildRows(t: IdTables, sorted: seq<Pair>) returns (rows: seq<SignalEntry>)
    requires forall q | q in sorted :: q.1 in t.nameToId && t.nameToId[q.1] == q.0
    ensures |rows| == |sorted|
    ensures forall j | 0 <= j < |rows| :: sorted[j].1 in t.nameToId && rows[j] == EntryOf(t, sorted[j].1)
  {
    rows := [];
    for i := 0 to |sorted|
      invariant |rows| == i
      invariant forall j | 0 <= j < i :: sorted[j].1 in t.nameToId && rows[j] == EntryOf(t, sorted[j].1)
    {
      var (id, name) := sorted[i];
      assert sorted[i] in sorted;
      var unitId := if id in t.idToUnit then t.idToUnit[id] else 0;
      rows := rows + [SignalEntry(id, name, unitId)];
    }
  }

  /** Map traversal is unordered; sorting makes the published rows unique. */
  method PublishSchema(t: IdTables) returns (rows: seq<SignalEntry>, unitTable: seq<Text>)
    requires InjectiveIds(t.nameToId)
    ensures IsSortedInverse(rows, t)
    ensures unitTable == t.unitNames
  {
    var pairs := CollectPairs(t.nameToId);
    var sorted := Sort(pairs);
    rows := BuildRows(t, sorted);
    forall n | n in t.nameToId ensures EntryOf(t, n) in rows {
      assert (t.nameToId[n], n) in sorted;
    }
    forall i | 0 <= i < |rows| ensures rows[i].id == sorted[i].0 {
      assert sorted[i] in sorted;
    }
    unitTable := t.unitNames;
  }

  // ---------- what consumers find ----------

  /** The positions below k that are the last ones of their name, in order. */
  ghost function LastPositions(names: seq<Text>, k: nat): seq<int>
    requires k <= |names|
  {
    if k == 0 then []
    else LastPositions(names, k - 1) + if IsLast(names, k - 1) then [k - 1] else []
  }

  lemma {:induction false} LastPositionsHold(names: seq<Text>, k: nat, p: int)
    requires k <= |names|
    ensures p in LastPositions(names, k) <==> 0 <= p < k && IsLast(names, p)
  {
    if k > 0 {
      LastPositionsHold(names, k - 1, p);
    }
  }

  lemma {:induction false} LastPositionsIncrease(names: seq<Text>, k: nat)
    requires k <= |names|
    ensures Increasing(LastPositions(names, k))
  {
    if k > 0 {
      LastPositionsIncrease(names, k - 1);
      var before := LastPositions(names, k - 1);
      forall i | 0 <= i < |before| ensures before[i] < k - 1 {
        LastPositionsHold(names, k - 1, before[i]);
      }
    }
  }

  /** There are k last positions below k only if every position below k is one. */
  lemma {:induction false} LastPositionsCount(names: seq<Text>, k: nat)
    requires k <= |names|
    ensures |LastPositions(names, k)| <= k
    ensures |LastPositions(names, k)| == k <==> forall i | 0 <= i < k :: IsLast(names, i)
  {
    if k > 0 {
      LastPositionsCount(names, k - 1);
    }
  }

  /** Positions below k come first among the positions below m. */
  lemma {:induction false} LastPositionsPrefix(names: seq<Text>, k: nat, m: nat)
    requires k <= m <= |names|
    ensures LastPositions(names, k) <= LastPositions(names, m)
    decreases m
  {
    if k < m {
      LastPositionsPrefix(names, k, m - 1);
    }
  }

  /** A last position has as many last positions before it as stand below it. */
  lemma {:induction false} RankOfLast(names: seq<Text>, p: nat)
    requires p < |names| && IsLast(names, p)
    ensures var ps, k := LastPositions(names, |names|), |LastPositions(names, p)|;
      k < |ps| && ps[k] == p && k <= p && (k == p <==> forall i | 0 <= i < p :: IsLast(names, i))
  {
    LastPositionsPrefix(names, p + 1, |names|);
    LastPositionsCount(names, p);
    assert LastPositions(names, p + 1) == LastPositions(names, p) + [p];
  }

  ghost predicate Increasing(a: seq<int>) {
    forall i, j | 0 <= i < j < |a| :: a[i] < a[j]
  }

  lemma DropLast(a: seq<int>, x: int)
    requires a != [] && Increasing(a)
    ensures Increasing(a[..|a| - 1])
    ensures x in a[..|a| - 1] <==> x in a && x != a[|a| - 1]
  {
    assert a == a[..|a| - 1] + [a[|a| - 1]];
  }

  /** An increasing sequence is determined by its elements. */
  lemma {:induction false} IncreasingSequencesEqual(a: seq<int>, b: seq<int>)
    requires Increasing(a) && Increasing(b)
    requires forall x :: x in a <==> x in b
    ensures a == b
  {
    assert a != [] ==> a[0] in a;
    assert b != [] ==> b[0] in b;
    if a != [] && b != [] {
      var x, a', b' := a[|a| - 1], a[..|a| - 1], b[..|b| - 1];
      assert a[|a| - 1] in a && b[|b| - 1] in b;
      assert x == b[|b| - 1];
      forall z ensures z in a' <==> z in b' {
        DropLast(a, z);
        DropLast(b, z);
      }
      DropLast(a, x);
      DropLast(b, x);
      IncreasingSequencesEqual(a', b');
      assert a == a' + [x] && b == b' + [x];
    }
  }

  /** The list positions the rows stand for. */
  ghost function RowPositions(rows: seq<SignalEntry>): (ps: seq<int>)
    ensures |ps| == |rows| && forall j | 0 <= j < |rows| :: ps[j] == rows[j].id - 1
  {
    seq(|rows|, j requires 0 <= j < |rows| => rows[j].id - 1)
  }

  /** The tables of a list of names, as published. */
  ghost predicate Publishes(rows: seq<SignalEntry>, t: IdTables, names: seq<Text>) {
    |names| <= MAX_ENTRIES && t.nameToId == NameIds(names) && IsSortedInverse(rows, t)
  }

  lemma RowOfPosition(names: seq<Text>, t: IdTables, rows: seq<SignalEntry>, j: nat)
    requires Publishes(rows, t, names) && j < |rows|
    ensures var p := rows[j].id - 1; 0 <= p < |names| && IsLast(names, p) && rows[j].name == names[p]
  {
    assert rows[j] in rows;
    IdOfName(names, rows[j].name);
  }

  /** A position has a row exactly if it is the last of its name. */
  lemma RowOfLastPosition(names: seq<Text>, t: IdTables, rows: seq<SignalEntry>, p: int)
    requires Publishes(rows, t, names)
    ensures p in RowPositions(rows) <==> 0 <= p < |names| && IsLast(names, p)
  {
    var qs := RowPositions(rows);
    if p in qs {
      var j :| 0 <= j < |qs| && qs[j] == p;
      RowOfPosition(names, t, rows, j);
    }
    if 0 <= p < |names| && IsLast(names, p) {
      IdOfLastPosition(names, p);
      var j :| 0 <= j < |rows| && rows[j] == EntryOf(t, names[p]);
      assert qs[j] == p;
    }
  }

  /** The published rows stand for the last positions, in order. */
  lemma RowsAreLastPositions(names: seq<Text>, t: IdTables, rows: seq<SignalEntry>)
    requires Publishes(rows, t, names)
    ensures RowPositions(rows) == LastPositions(names, |names|)
  {
    var ps, qs := LastPositions(names, |names|), RowPositions(rows);
    LastPositionsIncrease(names, |names|);
    forall p ensures p in qs <==> p in ps {
      LastPositionsHold(names, |names|, p);
      RowOfLastPosition(names, t, rows, p);
    }
    IncreasingSequencesEqual(qs, ps);
  }

  /** The consumer's lookup: row id - 1 is there and is the row of the name. */
  predicate Resolves(rows: seq<SignalEntry>, id: uint16, name: Text) {
    1 <= id <= |rows| && rows[id - 1].id == id && rows[id - 1].name == name
  }

  /**
   * The positional lookup of a name's id succeeds exactly if no name listed
   * before that position occurs again later in the list.
   */
  lemma LookupSucceedsIff(names: seq<Text>, t: IdTables, rows: seq<SignalEntry>, p: nat)
    requires Publishes(rows, t, names)
    requires p < |names| && IsLast(names, p)
    ensures Resolves(rows, p + 1, names[p]) <==> forall i | 0 <= i < p :: IsLast(names, i)
  {
    RowsAreLastPositions(names, t, rows);
    RankOfLast(names, p);
    var k := |LastPositions(names, p)|;
    assert rows[k].id - 1 == p;
    if k == p {
      RowOfPosition(names, t, rows, p);
    } else {
      assert rows[k].id == p + 1;
    }
  }

  /**
   * Every emitted id can be looked up by position if and only if the list of
   * names has no duplicates.
   */
  lemma LookupsSucceedIffNoDuplicates(names: seq<Text>, t: IdTables, rows: seq<SignalEntry>)
    requires Publishes(rows, t, names)
    ensures (forall n | n in t.nameToId :: Resolves(rows, t.nameToId[n], n)) <==> NoDuplicates(names)
  {
    if NoDuplicates(names) {
      forall n | n in t.nameToId ensures Resolves(rows, t.nameToId[n], n) {
        IdOfName(names, n);
        LookupSucceedsIff(names, t, rows, t.nameToId[n] - 1);
      }
    } else {
      var i, j :| 0 <= i < j < |names| && names[i] == names[j];
      var p := |names| - 1;
      IdOfLastPosition(names, p);
      LookupSucceedsIff(names, t, rows, p);
      assert !IsLast(names, i);
    }
  }

  /** A name listed twice: its id is 2, but the table has one row. */
  lemma {:induction false} DuplicateNameIsNotFound(n: Text, t: IdTables, rows: seq<SignalEntry>)
    requires Publishes(rows, t, [n, n])
    ensures n in t.nameToId && t.nameToId[n] == 2 && |rows| == 1
    ensures !Resolves(rows, t.nameToId[n], n)
  {
    var names := [n, n];
    IdOfLastPosition(names, 1);
    RowsAreLastPositions(names, t, rows);
    assert names[1] == names[0] && !IsLast(names, 0) && IsLast(names, 1);
    assert LastPositions(names, 0) == [];
    assert LastPositions(names, 1) == LastPositions(names, 0) + [];
    assert LastPositions(names, 2) == LastPositions(names, 1) + [1];
    assert |rows| == |RowPositions(rows)| == 1;
  }

  /** Without duplicates the published table is the list itself, in order. */
  lemma TableIsTheList(names: seq<Text>, t: IdTables, rows: seq<SignalEntry>)
    requires Publishes(rows, t, names) && NoDuplicates(names)
    ensures |rows| == |names|
    ensures forall i | 0 <= i < |names| :: rows[i].id == i + 1 && rows[i].name == names[i]
  {
    RowsAreLastPositions(names, t, rows);
    LastPositionsCount(names, |names|);
    forall i | 0 <= i < |names| ensures rows[i].id == i + 1 && rows[i].name == names[i] {
      IdOfLastPosition(names, i);
      LookupSucceedsIff(names, t, rows, i);
    }
  }

  /** The unit column: zero exactly for unlisted units, else the id of the unit's name. */
  lemma UnitColumn(names: seq<Text>, signalUnits: seq<Text>, t: IdTables, rows: seq<SignalEntry>, r: SignalEntry)
    requires |t.unitNames| <= MAX_ENTRIES && |signalUnits| == |names|
    requires Publishes(rows, t, names) && t.idToUnit == UnitIds(signalUnits, t.unitNames)
    requires r in rows
    ensures 1 <= r.id <= |names| && names[r.id - 1] == r.name
    ensures r.unitId == 0 <==> signalUnits[r.id - 1] !in t.unitNames
    ensures r.unitId != 0 ==> r.unitId <= |t.unitNames| && t.unitNames[r.unitId - 1] == signalUnits[r.id - 1]
  {
    IdOfName(names, r.name);
    UnitIdOf(signalUnits, t.unitNames, r.id);
  }

  /** Two names never share an id, as publishing demands. */
  lemma IdsAreInjective(names: seq<Text>)
    requires |names| <= MAX_ENTRIES
    ensures InjectiveIds(NameIds(names))
  {
    forall n, n' | n in NameIds(names) && n' in NameIds(names) && NameIds(names)[n] == NameIds(names)[n'] ensures n == n' {
      IdOfName(names, n);
      IdOfName(names, n');
    }
  }
}
