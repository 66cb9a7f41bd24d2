/** The recursive structural diff of two decoded JSON values, in its two
    versions: the revised `recursiveDiffCheck` of diffchecker/jsondiff.go and
    the earlier draft of the same function in the root jsondiff.go. Both walk
    the old value and append to three lists (added, modified, deleted); they differ only
    in how arrays and scalars are treated, so one walk, parameterised by
    `Version`, models both. */
module JsonDiff {
  import opened Json
  import opened Collections

  /** What Go stores in `Change.OldValue` / `Change.NewValue` (an `any`).
      A failed type assertion `new.(map[string]any)` yields a typed nil map and
      `new.([]any)` a typed nil slice; those are not JSON values. Go's untyped
      nil is `Val(Null)`, the value `null` decodes to. */
  datatype Slot = Val(v: Json) | NilMap | NilSlice

  /** One reported difference. Go keeps only the joined path string; the model
      keeps the segments, and `PathString` is the string Go stores. */
  datatype Change = Change(path: seq<Seg>, oldValue: Slot, newValue: Slot) {
    function PathString(): string {
      PathText(path)
    }
  }

  datatype Kind = Added | Modified | Deleted

  /** The three output slices, `*added`, `*modified` and `*deleted`. */
  datatype Changes = Changes(added: seq<Change>, modified: seq<Change>, deleted: seq<Change>) {

    function Of(k: Kind): seq<Change> {
      match k
      case Added => added
      case Modified => modified
      case Deleted => deleted
    }

    /** `*list = append(*list, c)` for the list of kind `k`. */
    function Record(k: Kind, c: Change): Changes {
      match k
      case Added => this.(added := added + [c])
      case Modified => this.(modified := modified + [c])
      case Deleted => this.(deleted := deleted + [c])
    }

    /** Appends every entry of `cs`, in order, to the list of kind `k`. */
    function RecordAll(k: Kind, cs: seq<Change>): Changes {
      match k
      case Added => this.(added := added + cs)
      case Modified => this.(modified := modified + cs)
      case Deleted => this.(deleted := deleted + cs)
    }
  }

  /** The empty slices `main` passes in. */
  const NoChanges := Changes([], [], [])

  /** `r` is `acc` with entries appended to some of its lists, nothing removed
      or rewritten. */
  predicate Extends(acc: Changes, r: Changes) {
    && acc.added <= r.added
    && acc.modified <= r.modified
    && acc.deleted <= r.deleted
  }

  /** The entries of kind `k` that were appended on the way from `acc` to `r`. */
  function Fresh(acc: Changes, r: Changes, k: Kind): seq<Change>
    requires Extends(acc, r)
  {
    r.Of(k)[|acc.Of(k)|..]
  }

  /** `Draft` is the root jsondiff.go, `Revised` is diffchecker/jsondiff.go. */
  datatype Version = Draft | Revised

  /** recursiveDiffCheck(old, new, added, modified, deleted, currentPath):
      the lists `acc` after the call, with `path` as `currentPath`. */
  ghost function Walk(ver: Version, before: Json, after: Json, path: seq<Seg>, acc: Changes): (r: Changes)
    ensures Extends(acc, r)
    decreases before, 2, 0
  {
    match before
    case Obj(om) =>
      if !after.Obj? then
        acc.Record(Modified, Change(path, Val(before), NilMap))
      else
        var afterOld := WalkKeys(ver, om, after.fields, Enumerate(om.Keys), 0, path, acc);
        AddKeys(om, after.fields, Enumerate(after.fields.Keys), 0, path, afterOld)
    case Arr(oa) =>
      if !after.Arr? then
        acc.Record(Modified, Change(path, Val(before), NilSlice))
      else if ver == Draft then
        // the draft handles only an array that shrank
        if |oa| > |after.items| then Shrunk(ver, oa, after.items, path, acc) else acc
      else if |oa| >= |after.items| then
        Shrunk(ver, oa, after.items, path, acc)
      else
        Grown(ver, oa, after.items, path, acc)
    case Null =>
      // the draft returns at once for nil
      if ver == Revised && after != Null then
        acc.Record(Modified, Change(path, Val(Null), Val(after)))
      else acc
    case _ =>
      // string, bool, float64; the draft returns at once for these too
      if ver == Revised && before != after then
        acc.Record(Modified, Change(path, Val(before), Val(after)))
      else acc
  }

  /** The walk over `range t` for two objects, from position `i` of the key
      order `keys`: a key present in both is descended into when the values
      differ; a key missing from the new object is recorded as deleted, with the
      nil that the failed lookup (draft) or the literal (revised) supplies. */
  ghost function WalkKeys(ver: Version, om: map<string, Json>, nm: map<string, Json>,
                          keys: seq<string>, i: nat, path: seq<Seg>, acc: Changes): (r: Changes)
    requires forall j | 0 <= j < |keys| :: keys[j] in om
    ensures Extends(acc, r)
    decreases Obj(om), 1, |keys| - i
  {
    if i >= |keys| then acc
    else WalkKeys(ver, om, nm, keys, i + 1, path, KeyStep(ver, om, nm, keys[i], path, acc))
  }

  /** One iteration of `range t`, for the key `k`. */
  ghost function KeyStep(ver: Version, om: map<string, Json>, nm: map<string, Json>,
                         k: string, path: seq<Seg>, acc: Changes): (r: Changes)
    requires k in om
    ensures Extends(acc, r)
    decreases Obj(om), 0, 0
  {
    if k in nm then
      if om[k] != nm[k] then Walk(ver, om[k], nm[k], path + [Key(k)], acc) else acc
    else
      acc.Record(Deleted, Change(path + [Key(k)], Val(om[k]), Val(Null)))
  }

  /** The walk over `range nt`: a key missing from the old object is recorded
      as added, with a nil old value. */
  function AddKeys(om: map<string, Json>, nm: map<string, Json>,
                   keys: seq<string>, i: nat, path: seq<Seg>, acc: Changes): (r: Changes)
    requires forall j | 0 <= j < |keys| :: keys[j] in nm
    ensures Extends(acc, r)
    decreases |keys| - i
  {
    if i >= |keys| then acc
    else
      var k := keys[i];
      var next :=
        if k in om then acc
        else acc.Record(Added, Change(path + [Key(k)], Val(Null), Val(nm[k])));
      AddKeys(om, nm, keys, i + 1, path, next)
  }

  /** The walk over the indices both arrays have, from `i`: an element that
      differs is descended into under the segment "[i]". */
  ghost function WalkItems(ver: Version, oa: seq<Json>, na: seq<Json>, i: nat,
                           path: seq<Seg>, acc: Changes): (r: Changes)
    ensures Extends(acc, r)
    decreases Arr(oa), 1, |oa| - i
  {
    if i >= |oa| || i >= |na| then acc
    else
      var next :=
        if oa[i] != na[i] then Walk(ver, oa[i], na[i], path + [Index(i)], acc) else acc;
      WalkItems(ver, oa, na, i + 1, path, next)
  }

  /** Old array at least as long as the new one: common indices, then every
      index the new array lacks is recorded as deleted. */
  ghost function Shrunk(ver: Version, oa: seq<Json>, na: seq<Json>, path: seq<Seg>, acc: Changes): (r: Changes)
    requires |oa| >= |na|
    ensures Extends(acc, r)
    decreases Arr(oa), 1, |oa| + 1
  {
    var common := WalkItems(ver, oa, na, 0, path, acc);
    common.RecordAll(Deleted, Gone(oa, |na|, path))
  }

  /** New array longer: common indices, then every index the old array lacks
      is recorded as added. */
  ghost function Grown(ver: Version, oa: seq<Json>, na: seq<Json>, path: seq<Seg>, acc: Changes): (r: Changes)
    requires |oa| < |na|
    ensures Extends(acc, r)
    decreases Arr(oa), 1, |oa| + 1
  {
    var common := WalkItems(ver, oa, na, 0, path, acc);
    common.RecordAll(Added, Arrived(na, |oa|, path))
  }

  /** Deleted entries for indices `from..|oa|-1`, in increasing order. */
  function Gone(oa: seq<Json>, from: nat, path: seq<Seg>): seq<Change>
    requires from <= |oa|
  {
    seq(|oa| - from, j requires 0 <= j < |oa| - from =>
      Change(path + [Index(from + j)], Val(oa[from + j]), Val(Null)))
  }

  /** Added entries for indices `from..|na|-1`, in increasing order. */
  function Arrived(na: seq<Json>, from: nat, path: seq<Seg>): seq<Change>
    requires from <= |na|
  {
    seq(|na| - from, j requires 0 <= j < |na| - from =>
      Change(path + [Index(from + j)], Val(Null), Val(na[from + j])))
  }
}
