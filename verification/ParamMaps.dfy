/** Flattening YAML trees into maps of dotted keys, and merging the maps of several files. */
module ParamMaps {
  import opened Common

  /** What the parameter reader of ROS 2 takes a scalar for. */
  datatype ScalarKind = Textual | Integral | Boolean(flag: bool) | Floating(bits: uint64) | OtherKind

  /** A parsed YAML node; `number` is the scalar read as an int64, if it can be. */
  datatype Yaml =
    | Mapping(entries: seq<(Text, Yaml)>)
    | Sequence(items: seq<Yaml>)
    | Scalar(text: Text, number: Option<int64>, kind: ScalarKind)

  type Leaf = (Text, Yaml)

  const DOT: byte := 46

  function ChildKey(prefix: Text, key: Text): Text {
    if prefix == [] then key else prefix + [DOT] + key
  }

  // ---------- meaning: the leaves of a tree, assigned from left to right ----------

  function Leaves(node: Yaml, prefix: Text): seq<Leaf>
    decreases node, 1
  {
    if node.Mapping? then EntryLeaves(node.entries, prefix) else [(prefix, node)]
  }

  function EntryLeaves(entries: seq<(Text, Yaml)>, prefix: Text): seq<Leaf>
    decreases entries, 0
  {
    if entries == [] then []
    else
      var first := entries[0];
      assert first.1 < first;
      Leaves(first.1, ChildKey(prefix, first.0)) + EntryLeaves(entries[1..], prefix)
  }

  function AssignAll(m: map<Text, Yaml>, leaves: seq<Leaf>): map<Text, Yaml>
    decreases leaves
  {
    if leaves == [] then m else AssignAll(m[leaves[0].0 := leaves[0].1], leaves[1..])
  }

  // ---------- flattening ----------

  class ParamMap {
    var params: map<Text, Yaml>

    constructor ()
      ensures params == map[]
    {
      params := map[];
    }
  }

  /** Writes the leaves below the node into the map, descending only into mappings. */
  method FlattenYaml(node: Yaml, prefix: Text, out: ParamMap)
    modifies out
    ensures out.params == AssignAll(old(out.params), Leaves(node, prefix))
    decreases node
  {
    if node.Mapping? {
      ghost var end := AssignAll(out.params, EntryLeaves(node.entries, prefix));
      assert node.entries[0..] == node.entries;
      for i := 0 to |node.entries|
        invariant AssignAll(out.params, EntryLeaves(node.entries[i..], prefix)) == end
      {
        var (key, child) := node.entries[i];
        assert node.entries[i] in node.entries;
        assert node.entries[i..][1..] == node.entries[i + 1..];
        AssignConcat(out.params, Leaves(child, ChildKey(prefix, key)), EntryLeaves(node.entries[i + 1..], prefix));
        FlattenYaml(child, ChildKey(prefix, key), out);
      }
    } else {
      out.params := out.params[prefix := node];
    }
  }

  lemma {:induction false} AssignConcat(m: map<Text, Yaml>, a: seq<Leaf>, b: seq<Leaf>)
    ensures AssignAll(m, a + b) == AssignAll(AssignAll(m, a), b)
    decreases a
  {
    if a == [] {
      assert a + b == b;
    } else {
      assert (a + b)[1..] == a[1..] + b;
      AssignConcat(m[a[0].0 := a[0].1], a[1..], b);
    }
  }

  // ---------- the last leaf of a key wins ----------

  ghost predicate LastLeaf(leaves: seq<Leaf>, key: Text, i: nat) {
    i < |leaves| && leaves[i].0 == key && forall j | i < j < |leaves| :: leaves[j].0 != key
  }

  lemma {:induction false} LastLeafWins(m: map<Text, Yaml>, leaves: seq<Leaf>, key: Text, i: nat)
    requires LastLeaf(leaves, key, i)
    ensures Lookup(AssignAll(m, leaves), key) == Some(leaves[i].1)
    decreases leaves
  {
    var m', rest := m[leaves[0].0 := leaves[0].1], leaves[1..];
    if i > 0 {
      LastLeafWins(m', rest, key, i - 1);
    } else {
      forall j | 0 <= j < |rest| ensures rest[j].0 != key {
        assert rest[j] == leaves[j + 1];
      }
      OtherKeysStay(m', rest, key);
    }
  }

  lemma {:induction false} OtherKeysStay(m: map<Text, Yaml>, leaves: seq<Leaf>, key: Text)
    requires forall i | 0 <= i < |leaves| :: leaves[i].0 != key
    ensures Lookup(AssignAll(m, leaves), key) == Lookup(m, key)
    decreases leaves
  {
    if leaves != [] {
      OtherKeysStay(m[leaves[0].0 := leaves[0].1], leaves[1..], key);
    }
  }

  // ---------- nested and dotted layouts ----------

  lemma {:induction false} EntryLeavesConcat(a: seq<(Text, Yaml)>, b: seq<(Text, Yaml)>, prefix: Text)
    ensures EntryLeaves(a + b, prefix) == EntryLeaves(a, prefix) + EntryLeaves(b, prefix)
  {
    if a == [] {
      assert a + b == b;
    } else {
      assert (a + b)[1..] == a[1..] + b;
      EntryLeavesConcat(a[1..], b, prefix);
    }
  }

  /** The entries of a nested mapping, written out with dotted keys. */
  function Dotted(key: Text, entries: seq<(Text, Yaml)>): seq<(Text, Yaml)> {
    seq(|entries|, i requires 0 <= i < |entries| => (key + [DOT] + entries[i].0, entries[i].1))
  }

  lemma {:induction false} DottedLeaves(key: Text, entries: seq<(Text, Yaml)>, prefix: Text)
    requires prefix != [] || key != []
    ensures EntryLeaves(Dotted(key, entries), prefix) == EntryLeaves(entries, ChildKey(prefix, key))
  {
    if entries != [] {
      var dotted := Dotted(key, entries);
      assert dotted[1..] == Dotted(key, entries[1..]);
      DottedLeaves(key, entries[1..], prefix);
      assert ChildKey(prefix, dotted[0].0) == ChildKey(ChildKey(prefix, key), entries[0].0) by {
        assert prefix + [DOT] + (key + [DOT] + entries[0].0) == prefix + [DOT] + key + [DOT] + entries[0].0;
      }
    }
  }

  /** Below a longer prefix the leaves are the same but for longer keys. */
  lemma LongerPrefixLongerKeys(node: Yaml, p: Text, q: Text)
    requires |p| < |q|
    ensures |Leaves(node, p)| == |Leaves(node, q)|
    ensures forall i | 0 <= i < |Leaves(node, p)| :: |Leaves(node, p)[i].0| < |Leaves(node, q)[i].0|
    decreases node, 1
  {
    if node.Mapping? {
      LongerPrefixLongerEntryKeys(node.entries, p, q);
    }
  }

  lemma LongerPrefixLongerEntryKeys(entries: seq<(Text, Yaml)>, p: Text, q: Text)
    requires |p| < |q|
    ensures |EntryLeaves(entries, p)| == |EntryLeaves(entries, q)|
    ensures forall i | 0 <= i < |EntryLeaves(entries, p)| :: |EntryLeaves(entries, p)[i].0| < |EntryLeaves(entries, q)[i].0|
    decreases entries, 0
  {
    if entries != [] {
      var first := entries[0];
      assert first.1 < first;
      LongerPrefixLongerKeys(first.1, ChildKey(p, first.0), ChildKey(q, first.0));
      LongerPrefixLongerEntryKeys(entries[1..], p, q);
    }
  }

  /** Under an empty key at the root, the dotted spelling keeps the dot that nesting loses. */
  lemma {:induction false} EmptyRootKey(entries: seq<(Text, Yaml)>)
    ensures |EntryLeaves(entries, [])| == |EntryLeaves(Dotted([], entries), [])|
    ensures forall i | 0 <= i < |EntryLeaves(entries, [])| ::
              |EntryLeaves(entries, [])[i].0| < |EntryLeaves(Dotted([], entries), [])[i].0|
  {
    if entries != [] {
      var dotted := Dotted([], entries);
      assert dotted[1..] == Dotted([], entries[1..]);
      LongerPrefixLongerKeys(entries[0].1, entries[0].0, dotted[0].0);
      EmptyRootKey(entries[1..]);
    }
  }

  /** A nested mapping and its dotted spelling have the same leaves unless an empty key stands at the root. */
  lemma NestedEqualsDotted(key: Text, nested: seq<(Text, Yaml)>, prefix: Text)
    ensures EntryLeaves([(key, Mapping(nested))], prefix) == EntryLeaves(Dotted(key, nested), prefix) <==>
            prefix != [] || key != [] || EntryLeaves(nested, []) == []
  {
    var one := [(key, Mapping(nested))];
    assert EntryLeaves(one, prefix) == EntryLeaves(nested, ChildKey(prefix, key)) by {
      assert one[1..] == [] && Leaves(one[0].1, ChildKey(prefix, key)) == EntryLeaves(nested, ChildKey(prefix, key));
    }
    if prefix != [] || key != [] {
      DottedLeaves(key, nested, prefix);
    } else {
      EmptyRootKey(nested);
      var leaves, dotted := EntryLeaves(nested, []), EntryLeaves(Dotted([], nested), []);
      assert leaves != [] ==> |leaves[0].0| < |dotted[0].0|;
    }
  }

  /** So a mapping can be written out with dotted keys in place: the file flattens to the same map. */
  lemma DottedInPlace(
      m: map<Text, Yaml>, a: seq<(Text, Yaml)>, key: Text, nested: seq<(Text, Yaml)>, b: seq<(Text, Yaml)>, prefix: Text)
    requires prefix != [] || key != []
    ensures AssignAll(m, Leaves(Mapping(a + [(key, Mapping(nested))] + b), prefix)) ==
            AssignAll(m, Leaves(Mapping(a + Dotted(key, nested) + b), prefix))
  {
    var one := [(key, Mapping(nested))];
    EntryLeavesConcat(a + one, b, prefix);
    EntryLeavesConcat(a, one, prefix);
    EntryLeavesConcat(a + Dotted(key, nested), b, prefix);
    EntryLeavesConcat(a, Dotted(key, nested), prefix);
    NestedEqualsDotted(key, nested, prefix);
  }

  /** The excepted case with a concrete file. */
  lemma EmptyRootKeyLosesItsDot(v: Yaml)
    requires v.Scalar?
    ensures AssignAll(map[], Leaves(Mapping([([], Mapping([(Ascii("x"), v)]))]), [])) == map[Ascii("x") := v]
    ensures AssignAll(map[], Leaves(Mapping(Dotted([], [(Ascii("x"), v)])), [])) == map[Ascii(".x") := v]
  {
    var inner := [(Ascii("x"), v)];
    assert inner[1..] == [] && Leaves(inner[0].1, Ascii("x")) == inner;
    assert EntryLeaves(inner, []) == inner;
    var outer: seq<(Text, Yaml)> := [([], Mapping(inner))];
    assert EntryLeaves(outer, []) == Leaves(Mapping(inner), []) + EntryLeaves(outer[1..], []);
    var dotted := Dotted([], inner);
    assert dotted[0].0 == Ascii(".x");
    assert EntryLeaves(dotted, []) == [(Ascii(".x"), v)] + EntryLeaves(dotted[1..], []);
  }

  lemma {:induction false} LeavesAreFlat(leaves: seq<Leaf>)
    requires forall l | l in leaves :: !l.1.Mapping?
    ensures EntryLeaves(leaves, []) == leaves
  {
    if leaves != [] {
      LeavesAreFlat(leaves[1..]);
      assert leaves[0] in leaves;
    }
  }

  lemma LeavesAreNoMappings(node: Yaml, prefix: Text)
    ensures forall l | l in Leaves(node, prefix) :: !l.1.Mapping?
    decreases node, 1
  {
    if node.Mapping? {
      EntryLeavesAreNoMappings(node.entries, prefix);
    }
  }

  lemma EntryLeavesAreNoMappings(entries: seq<(Text, Yaml)>, prefix: Text)
    ensures forall l | l in EntryLeaves(entries, prefix) :: !l.1.Mapping?
    decreases entries, 0
  {
    if entries != [] {
      var first := entries[0];
      assert first.1 < first;
      LeavesAreNoMappings(first.1, ChildKey(prefix, first.0));
      EntryLeavesAreNoMappings(entries[1..], prefix);
    }
  }

  /** A file of any shape and the file that lists its dotted paths flattened load alike. */
  lemma FullyDottedFileIsEquivalent(root: Yaml)
    requires root.Mapping?
    ensures Leaves(Mapping(Leaves(root, [])), []) == Leaves(root, [])
  {
    LeavesAreNoMappings(root, []);
    LeavesAreFlat(Leaves(root, []));
  }

  // ---------- merging files ----------

  /** The maps of the files in order; later files overwrite earlier keys. */
  function Merged(files: seq<map<Text, Yaml>>): map<Text, Yaml> {
    if files == [] then map[] else Merged(files[..|files| - 1]) + files[|files| - 1]
  }

  /** The loop over the flattened files; the entries of one file come in no particular order. */
  method MergeFiles(files: seq<map<Text, Yaml>>) returns (params: map<Text, Yaml>)
    ensures params == Merged(files)
  {
    params := map[];
    for i := 0 to |files|
      invariant params == Merged(files[..i])
    {
      var todo := files[i].Keys;
      ghost var before := params;
      while todo != {}
        invariant todo <= files[i].Keys
        invariant forall k :: Lookup(params, k) ==
                              if k in files[i].Keys - todo then Some(files[i][k]) else Lookup(before, k)
        decreases todo
      {
        var k :| k in todo;
        todo := todo - {k};
        params := params[k := files[i][k]];
      }
      SameLookups(params, before + files[i]);
      assert files[..i + 1][..i] == files[..i];
    }
    assert files[..|files|] == files;
  }

  lemma {:induction false} LaterFileWins(files: seq<map<Text, Yaml>>, k: Text, i: nat)
    requires i < |files| && k in files[i]
    requires forall j | i < j < |files| :: k !in files[j]
    ensures Lookup(Merged(files), k) == Some(files[i][k])
  {
    if i < |files| - 1 {
      LaterFileWins(files[..|files| - 1], k, i);
    }
  }

  /** The merged map has exactly the keys of the files. */
  lemma {:induction false} KeysOfFiles(files: seq<map<Text, Yaml>>, k: Text)
    ensures k in Merged(files) <==> exists i | 0 <= i < |files| :: k in files[i]
  {
    if files != [] {
      var before := files[..|files| - 1];
      KeysOfFiles(before, k);
      assert forall i | 0 <= i < |before| :: before[i] == files[i];
      if k in files[|files| - 1] {
        assert exists i | 0 <= i < |files| :: k in files[i];
      }
      if i :| 0 <= i < |files| && k in files[i] {
        assert i < |before| ==> k in before[i];
      }
    }
  }

  // ---------- all files ----------

  /** The flattened files. */
  function FileMaps(files: seq<Yaml>): seq<map<Text, Yaml>> {
    seq(|files|, i requires 0 <= i < |files| => AssignAll(map[], Leaves(files[i], [])))
  }

  /** The parameters of some files, given as their trees of parameters. */
  function ParamsOf(files: seq<Yaml>): map<Text, Yaml> {
    Merged(FileMaps(files))
  }

  method LoadFiles(files: seq<Yaml>) returns (params: map<Text, Yaml>)
    ensures params == ParamsOf(files)
  {
    var maps: seq<map<Text, Yaml>> := [];
    for i := 0 to |files|
      invariant maps == FileMaps(files)[..i]
    {
      var out := new ParamMap();
      FlattenYaml(files[i], [], out);
      maps := maps + [out.params];
    }
    assert maps == FileMaps(files);
    params := MergeFiles(maps);
  }

  /** Files with the same leaves, in the same order, hold the same parameters, whatever their layout. */
  lemma SameLeavesSameParams(files: seq<Yaml>, others: seq<Yaml>)
    requires |files| == |others|
    requires forall i | 0 <= i < |files| :: Leaves(files[i], []) == Leaves(others[i], [])
    ensures ParamsOf(files) == ParamsOf(others)
  {
    assert FileMaps(files) == FileMaps(others);
  }

  /** Each file can be replaced by the list of its dotted leaf paths. */
  lemma DottedFilesSameParams(files: seq<Yaml>, dotted: seq<Yaml>)
    requires |files| == |dotted|
    requires forall i | 0 <= i < |files| :: files[i].Mapping? && dotted[i] == Mapping(Leaves(files[i], []))
    ensures ParamsOf(dotted) == ParamsOf(files)
  {
    forall i | 0 <= i < |files| ensures Leaves(dotted[i], []) == Leaves(files[i], []) {
      FullyDottedFileIsEquivalent(files[i]);
    }
    SameLeavesSameParams(dotted, files);
  }

  /** A node that is no mapping is one leaf; the leaves of a mapping are those of its entries, in order, keys joined by dots. */
  lemma {:induction false} LeavesInOrder(a: seq<(Text, Yaml)>, key: Text, node: Yaml, b: seq<(Text, Yaml)>, prefix: Text)
    ensures !node.Mapping? ==> Leaves(node, prefix) == [(prefix, node)]
    ensures Leaves(Mapping([]), prefix) == []
    ensures Leaves(Mapping(a + [(key, node)] + b), prefix) ==
            Leaves(Mapping(a), prefix) + Leaves(node, if prefix == [] then key else prefix + [46] + key) +
            Leaves(Mapping(b), prefix)
  {
    var one := [(key, node)];
    EntryLeavesConcat(a + one, b, prefix);
    EntryLeavesConcat(a, one, prefix);
    assert one[1..] == [] && EntryLeaves(one[1..], prefix) == [];
    assert EntryLeaves(one, prefix) == Leaves(node, ChildKey(prefix, key)) + EntryLeaves(one[1..], prefix);
  }

  /** The i-th file is the last one with a leaf of the key. */
  ghost predicate LastFile(files: seq<Yaml>, key: Text, i: nat) {
    && i < |files| && HasLeaf(files[i], key) && forall j | i < j < |files| :: !HasLeaf(files[j], key)
  }

  ghost predicate HasLeaf(file: Yaml, key: Text) {
    exists j | 0 <= j < |Leaves(file, [])| :: Leaves(file, [])[j].0 == key
  }

  lemma {:induction false} AssignedIff(m: map<Text, Yaml>, leaves: seq<Leaf>, key: Text)
    ensures key in AssignAll(m, leaves) <==> key in m || exists j | 0 <= j < |leaves| :: leaves[j].0 == key
    decreases leaves
  {
    if leaves != [] {
      AssignedIff(m[leaves[0].0 := leaves[0].1], leaves[1..], key);
      assert forall j | 0 < j < |leaves| :: leaves[j] == leaves[1..][j - 1];
      assert forall j | 0 <= j < |leaves[1..]| :: leaves[1..][j] == leaves[j + 1];
    }
  }

  /** A key has the value of the last leaf of it, in the last file that has one. */
  lemma {:induction false} ParameterIsLastLeaf(files: seq<Yaml>, key: Text, i: nat, j: nat)
    requires LastFile(files, key, i) && LastLeaf(Leaves(files[i], []), key, j)
    ensures Lookup(ParamsOf(files), key) == Some(Leaves(files[i], [])[j].1)
  {
    LastLeafWins(map[], Leaves(files[i], []), key, j);
    forall k | i < k < |files| ensures key !in FileMaps(files)[k] {
      AssignedIff(map[], Leaves(files[k], []), key);
    }
    LaterFileWins(FileMaps(files), key, i);
  }

  /** And it is a parameter exactly if some file has a leaf of it. */
  lemma {:induction false} ParameterIff(files: seq<Yaml>, key: Text)
    ensures key in ParamsOf(files) <==> exists i | 0 <= i < |files| :: HasLeaf(files[i], key)
  {
    KeysOfFiles(FileMaps(files), key);
    forall i | 0 <= i < |files| ensures key in FileMaps(files)[i] <==> HasLeaf(files[i], key) {
      AssignedIff(map[], Leaves(files[i], []), key);
    }
  }
}
