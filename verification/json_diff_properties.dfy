/** What the JSON diff reports, stated independently of the order in which it
    walks objects: `Expected(old, new, rel)` says which entry, if any, belongs
    at the location `rel` below the current path. The revised diff reports
    exactly the expected entries (sound and complete), no two in one list at
    the same segment path; the draft reports exactly the expected entries at
    the locations it reaches (`DraftSees`), again no two at one segment path,
    so everything it reports the revised diff reports too. Go keeps only the
    joined path string, which can coincide for two segment paths
    (`GoPathsCollide`). */
module JsonDiffProperties {
  import opened Wrappers
  import opened Json
  import opened Collections
  import opened JsonDiff

  /** The `NewValue` Go stores when it reports `before` replaced by `after`:
      the zero value of the failed type assertion when `before` is an object
      or array and `after` is not of the same kind, `after` itself otherwise. */
  function Seen(before: Json, after: Json): Slot {
    if before.Obj? && !after.Obj? then NilMap
    else if before.Arr? && !after.Arr? then NilSlice
    else Val(after)
  }

  /** An entry without its path. */
  datatype Entry = Entry(kind: Kind, oldValue: Slot, newValue: Slot)

  /** `rel` is one step below a location where both values are containers of
      the kind that the step addresses (so the diff walks into both there). */
  predicate Enclosed(before: Json, after: Json, rel: seq<Seg>) {
    && rel != []
    && var p := rel[..|rel| - 1];
    && var s := rel[|rel| - 1];
    && At(before, p).Some? && At(after, p).Some?
    && Fits(At(before, p).value, s) && Fits(At(after, p).value, s)
  }

  /** The entry that belongs at `rel`:
      - modified, when both sides have a value there, the values differ, and
        they are not both objects or both arrays (those are compared member by
        member instead);
      - deleted, when only the old side has a value there and the enclosing
        values on both sides are containers of the addressed kind;
      - added, in the mirror case;
      - nothing otherwise. */
  function Expected(before: Json, after: Json, rel: seq<Seg>): Option<Entry> {
    match (At(before, rel), At(after, rel))
    case (Some(x), Some(y)) =>
      if x == y || SameContainer(x, y) then None
      else Some(Entry(Modified, Val(x), Seen(x, y)))
    case (Some(x), None) =>
      if Enclosed(before, after, rel) then Some(Entry(Deleted, Val(x), Val(Null))) else None
    case (None, Some(y)) =>
      if Enclosed(before, after, rel) then Some(Entry(Added, Val(Null), Val(y))) else None
    case (None, None) => None
  }

  /** The draft compares two values member by member only when both are
      objects, or both are arrays and the old one is longer (jsondiff.go:113). */
  predicate DraftOpens(a: Json, b: Json) {
    (a.Obj? && b.Obj?) || (a.Arr? && b.Arr? && |a.items| > |b.items|)
  }

  /** The draft walks down to `rel`: it opens every pair of values strictly
      above that location. */
  predicate DraftReaches(before: Json, after: Json, rel: seq<Seg>)
    decreases |rel|
  {
    || rel == []
    || (&& DraftOpens(before, after)
        && (At(before, [rel[0]]).Some? && At(after, [rel[0]]).Some? ==>
              DraftReaches(At(before, [rel[0]]).value, At(after, [rel[0]]).value, rel[1..])))
  }

  /** The draft reports the entry at `rel`, if one is expected there: it
      reaches `rel`, and where both sides have a value there the old one is an
      object or an array (for null, strings, bools and numbers the draft
      returns at once). */
  predicate DraftSees(before: Json, after: Json, rel: seq<Seg>) {
    && DraftReaches(before, after, rel)
    && (At(before, rel).Some? && At(after, rel).Some? ==> At(before, rel).value.Obj? || At(before, rel).value.Arr?)
  }

  /** Change `e`, reported in list `k` by a walk of version `ver` started at
      `path`, is the expected entry at its location below `path`; for the
      draft, that location is one the draft sees. */
  ghost predicate Explains(ver: Version, before: Json, after: Json, path: seq<Seg>, k: Kind, e: Change) {
    && path <= e.path
    && Expected(before, after, e.path[|path|..]) == Some(Entry(k, e.oldValue, e.newValue))
    && (ver == Draft ==> DraftSees(before, after, e.path[|path|..]))
  }

  /** Every entry appended between `acc` and `r` is explained. */
  ghost predicate OnlyExpected(ver: Version, before: Json, after: Json, path: seq<Seg>, acc: Changes, r: Changes)
    requires Extends(acc, r)
  {
    forall k: Kind, e: Change | e in Fresh(acc, r, k) :: Explains(ver, before, after, path, k, e)
  }

  /** The expected entry at `rel` was appended between `acc` and `r`, at
      `path + rel`, in the list of its kind. */
  ghost predicate Reported(before: Json, after: Json, path: seq<Seg>, acc: Changes, r: Changes, rel: seq<Seg>)
    requires Extends(acc, r)
    requires Expected(before, after, rel).Some?
  {
    var x := Expected(before, after, rel).value;
    Change(path + rel, x.oldValue, x.newValue) in Fresh(acc, r, x.kind)
  }

  // ---------------------------------------------------------------------
  // Locations
  // ---------------------------------------------------------------------

  /** Equal values have no expected entry anywhere. */
  lemma ExpectedSame(v: Json, rel: seq<Seg>)
    ensures Expected(v, v, rel) == None
  {
  }

  /** Below one shared step `s`, the expected entries are those of the two
      children. */
  lemma {:induction false} ExpectedUnder(before: Json, after: Json, s: Seg, rel: seq<Seg>)
    requires At(before, [s]).Some? && At(after, [s]).Some?
    ensures Expected(before, after, [s] + rel)
         == Expected(At(before, [s]).value, At(after, [s]).value, rel)
  {
    var b, a := At(before, [s]).value, At(after, [s]).value;
    AtCons(before, s, []);
    AtCons(after, s, []);
    AtCons(before, s, rel);
    AtCons(after, s, rel);
    if rel != [] {
      var p := rel[..|rel| - 1];
      assert ([s] + rel)[..|[s] + rel| - 1] == [s] + p;
      assert ([s] + rel)[|[s] + rel| - 1] == rel[|rel| - 1];
      AtCons(before, s, p);
      AtCons(after, s, p);
    }
  }

  /** Below one shared step, the draft sees a location exactly when it opens
      the pair and sees the location below the two children. */
  lemma SeesUnder(before: Json, after: Json, s: Seg, rel: seq<Seg>)
    requires At(before, [s]).Some? && At(after, [s]).Some?
    ensures DraftSees(before, after, [s] + rel)
        <==> DraftOpens(before, after) && DraftSees(At(before, [s]).value, At(after, [s]).value, rel)
  {
    assert ([s] + rel)[0] == s;
    assert ([s] + rel)[1..] == rel;
    AtCons(before, s, rel);
    AtCons(after, s, rel);
  }

  /** A step only one side has is seen by the draft when it opens the pair. */
  lemma SeesStep(before: Json, after: Json, s: Seg)
    requires DraftOpens(before, after)
    requires At(before, [s]) == None || At(after, [s]) == None
    ensures DraftSees(before, after, [s])
  {
    assert [s][0] == s;
  }

  /** A location with an expected entry lies inside containers of the kind its
      first step addresses, on both sides. */
  lemma ExpectedFits(before: Json, after: Json, rel: seq<Seg>)
    requires rel != [] && Expected(before, after, rel).Some?
    ensures Fits(before, rel[0]) && Fits(after, rel[0])
  {
    var p := rel[..|rel| - 1];
    if At(before, rel).Some? {
      AtFits(before, rel);
    } else if |rel| > 1 {
      AtFits(before, p);
    }
    if At(after, rel).Some? {
      AtFits(after, rel);
    } else if |rel| > 1 {
      AtFits(after, p);
    }
  }

  /** Beyond a step that one side lacks, no location is enclosed. */
  lemma NotEnclosedBeyond(before: Json, after: Json, s: Seg, rest: seq<Seg>)
    requires At(before, [s]) == None || At(after, [s]) == None
    ensures rest != [] ==> !Enclosed(before, after, [s] + rest)
  {
    if rest != [] {
      var p := rest[..|rest| - 1];
      assert ([s] + rest)[..|[s] + rest| - 1] == [s] + p;
      AtCons(before, s, p);
      AtCons(after, s, p);
      AtCons(before, s, []);
      AtCons(after, s, []);
    }
  }

  /** A step that exists only on the old side can carry an expected entry only
      at that step itself, and it is a deletion of the old value. */
  lemma {:induction false} OnlyBefore(before: Json, after: Json, s: Seg, rest: seq<Seg>)
    requires At(before, [s]).Some? && At(after, [s]) == None
    requires Expected(before, after, [s] + rest).Some?
    ensures rest == []
    ensures Expected(before, after, [s]) == Some(Entry(Deleted, Val(At(before, [s]).value), Val(Null)))
  {
    AtCons(after, s, rest);
    AtCons(after, s, []);
    NotEnclosedBeyond(before, after, s, rest);
    assert [s] + rest == [s];
    ExpectedFits(before, after, [s]);
    assert [s][..0] == [];
  }

  /** The mirror of `OnlyBefore`: a step that exists only on the new side. */
  lemma {:induction false} OnlyAfter(before: Json, after: Json, s: Seg, rest: seq<Seg>)
    requires At(before, [s]) == None && At(after, [s]).Some?
    requires Expected(before, after, [s] + rest).Some?
    ensures rest == []
    ensures Expected(before, after, [s]) == Some(Entry(Added, Val(Null), Val(At(after, [s]).value)))
  {
    AtCons(before, s, rest);
    AtCons(before, s, []);
    NotEnclosedBeyond(before, after, s, rest);
    assert [s] + rest == [s];
    ExpectedFits(before, after, [s]);
    assert [s][..0] == [];
  }

  /** One step into two containers of the addressed kind, present only on the
      old side: a deletion is expected there. */
  lemma DeletedStep(before: Json, after: Json, s: Seg)
    requires Fits(before, s) && Fits(after, s)
    requires At(before, [s]).Some? && At(after, [s]) == None
    ensures Expected(before, after, [s]) == Some(Entry(Deleted, Val(At(before, [s]).value), Val(Null)))
  {
    assert [s][..0] == [];
  }

  /** One step present only on the new side: an addition is expected there. */
  lemma AddedStep(before: Json, after: Json, s: Seg)
    requires Fits(before, s) && Fits(after, s)
    requires At(before, [s]) == None && At(after, [s]).Some?
    ensures Expected(before, after, [s]) == Some(Entry(Added, Val(Null), Val(At(after, [s]).value)))
  {
    assert [s][..0] == [];
  }

  // ---------------------------------------------------------------------
  // Appending
  // ---------------------------------------------------------------------

  /** What was appended from `a` to `c` is what was appended from `a` to `b`
      followed by what was appended from `b` to `c`. */
  lemma FreshSplit(a: Changes, b: Changes, c: Changes, k: Kind)
    requires Extends(a, b) && Extends(b, c)
    ensures Extends(a, c)
    ensures Fresh(a, c, k) == Fresh(a, b, k) + Fresh(b, c, k)
  {
    assert a.Of(k) <= b.Of(k) <= c.Of(k);
  }

  /** Recording `cs` in list `k` appends exactly `cs` there and nothing elsewhere. */
  lemma FreshRecordAll(acc: Changes, k: Kind, cs: seq<Change>, k': Kind)
    ensures Extends(acc, acc.RecordAll(k, cs))
    ensures Fresh(acc, acc.RecordAll(k, cs), k') == if k' == k then cs else []
  {
  }

  lemma FreshRecord(acc: Changes, k: Kind, c: Change, k': Kind)
    ensures Extends(acc, acc.Record(k, c))
    ensures Fresh(acc, acc.Record(k, c), k') == if k' == k then [c] else []
  {
  }

  lemma OnlyChain(ver: Version, before: Json, after: Json, path: seq<Seg>, a: Changes, b: Changes, c: Changes)
    requires Extends(a, b) && Extends(b, c)
    requires OnlyExpected(ver, before, after, path, a, b) && OnlyExpected(ver, before, after, path, b, c)
    ensures Extends(a, c) && OnlyExpected(ver, before, after, path, a, c)
  {
    forall k: Kind, e: Change | e in Fresh(a, c, k)
      ensures Explains(ver, before, after, path, k, e)
    {
      FreshSplit(a, b, c, k);
    }
  }

  lemma OnlyRecordAll(ver: Version, before: Json, after: Json, path: seq<Seg>, acc: Changes, k: Kind, cs: seq<Change>)
    requires forall e | e in cs :: Explains(ver, before, after, path, k, e)
    ensures Extends(acc, acc.RecordAll(k, cs))
    ensures OnlyExpected(ver, before, after, path, acc, acc.RecordAll(k, cs))
  {
    forall k': Kind, e: Change | e in Fresh(acc, acc.RecordAll(k, cs), k')
      ensures Explains(ver, before, after, path, k', e)
    {
      FreshRecordAll(acc, k, cs, k');
    }
  }

  lemma OnlyRecord(ver: Version, before: Json, after: Json, path: seq<Seg>, acc: Changes, k: Kind, c: Change)
    requires Explains(ver, before, after, path, k, c)
    ensures Extends(acc, acc.Record(k, c))
    ensures OnlyExpected(ver, before, after, path, acc, acc.Record(k, c))
  {
    forall k': Kind, e: Change | e in Fresh(acc, acc.Record(k, c), k')
      ensures Explains(ver, before, after, path, k', e)
    {
      FreshRecord(acc, k, c, k');
    }
  }

  /** An entry at `path + [s]`, a step only one side has, that is expected at
      `[s]` is explained. */
  lemma ExplainsStep(ver: Version, before: Json, after: Json, path: seq<Seg>, s: Seg, k: Kind, e: Change)
    requires e.path == path + [s]
    requires Expected(before, after, [s]) == Some(Entry(k, e.oldValue, e.newValue))
    requires At(before, [s]) == None || At(after, [s]) == None
    requires ver == Draft ==> DraftOpens(before, after)
    ensures Explains(ver, before, after, path, k, e)
  {
    assert e.path[|path|..] == [s];
    if ver == Draft {
      SeesStep(before, after, s);
    }
  }

  /** Entries explained below one shared step are explained one level up. */
  lemma OnlyLift(ver: Version, before: Json, after: Json, s: Seg, path: seq<Seg>, acc: Changes, r: Changes)
    requires At(before, [s]).Some? && At(after, [s]).Some?
    requires ver == Draft ==> DraftOpens(before, after)
    requires Extends(acc, r)
    requires OnlyExpected(ver, At(before, [s]).value, At(after, [s]).value, path + [s], acc, r)
    ensures OnlyExpected(ver, before, after, path, acc, r)
  {
    forall k: Kind, e: Change | e in Fresh(acc, r, k)
      ensures Explains(ver, before, after, path, k, e)
    {
      ExplainsLift(ver, before, after, s, path, k, e);
    }
  }

  lemma ExplainsLift(ver: Version, before: Json, after: Json, s: Seg, path: seq<Seg>, k: Kind, e: Change)
    requires At(before, [s]).Some? && At(after, [s]).Some?
    requires ver == Draft ==> DraftOpens(before, after)
    requires Explains(ver, At(before, [s]).value, At(after, [s]).value, path + [s], k, e)
    ensures Explains(ver, before, after, path, k, e)
  {
    var rel := e.path[|path| + 1..];
    assert e.path[|path + [s]|..] == rel;
    assert e.path[..|path|] == path;
    assert e.path[|path|..] == [s] + rel;
    ExpectedUnder(before, after, s, rel);
    SeesUnder(before, after, s, rel);
  }

  // ---------------------------------------------------------------------
  // Soundness: the walk reports only expected entries (both versions)
  // ---------------------------------------------------------------------

  /** Every entry either version appends is the expected entry at its
      location, and every location lies below the current path, one segment
      per level descended; every entry the draft appends lies at a location
      the draft sees. */
  lemma {:induction false} WalkSound(ver: Version, before: Json, after: Json, path: seq<Seg>, acc: Changes)
    ensures OnlyExpected(ver, before, after, path, acc, Walk(ver, before, after, path, acc))
    decreases before, 2, 0
  {
    var r := Walk(ver, before, after, path, acc);
    match before
    case Obj(om) =>
      if !after.Obj? {
        ExplainsHere(ver, before, after, path, Change(path, Val(before), NilMap));
        OnlyRecord(ver, before, after, path, acc, Modified, Change(path, Val(before), NilMap));
      } else {
        var nm := after.fields;
        var afterOld := WalkKeys(ver, om, nm, Enumerate(om.Keys), 0, path, acc);
        WalkKeysSound(ver, om, nm, Enumerate(om.Keys), 0, path, acc);
        AddKeysSound(ver, om, nm, Enumerate(nm.Keys), 0, path, afterOld);
        OnlyChain(ver, before, after, path, acc, afterOld, r);
      }
    case Arr(oa) =>
      if !after.Arr? {
        ExplainsHere(ver, before, after, path, Change(path, Val(before), NilSlice));
        OnlyRecord(ver, before, after, path, acc, Modified, Change(path, Val(before), NilSlice));
      } else {
        var na := after.items;
        if |oa| >= |na| && (ver == Revised || |oa| > |na|) {
          ShrunkSound(ver, oa, na, path, acc);
        } else if ver == Revised {
          GrownSound(oa, na, path, acc);
        }
      }
    case Null =>
      if ver == Revised && after != Null {
        ExplainsHere(ver, before, after, path, Change(path, Val(Null), Val(after)));
        OnlyRecord(ver, before, after, path, acc, Modified, Change(path, Val(Null), Val(after)));
      }
    case _ =>
      if ver == Revised && before != after {
        ExplainsHere(ver, before, after, path, Change(path, Val(before), Val(after)));
        OnlyRecord(ver, before, after, path, acc, Modified, Change(path, Val(before), Val(after)));
      }
  }

  /** A modified entry at the current path itself. */
  lemma ExplainsHere(ver: Version, before: Json, after: Json, path: seq<Seg>, e: Change)
    requires before != after && !SameContainer(before, after)
    requires ver == Draft ==> before.Obj? || before.Arr?
    requires e == Change(path, Val(before), Seen(before, after))
    ensures Explains(ver, before, after, path, Modified, e)
  {
    assert e.path[|path|..] == [];
  }

  lemma {:induction false} WalkKeysSound(ver: Version, om: map<string, Json>, nm: map<string, Json>,
                                         keys: seq<string>, i: nat, path: seq<Seg>, acc: Changes)
    requires forall j | 0 <= j < |keys| :: keys[j] in om
    ensures OnlyExpected(ver, Obj(om), Obj(nm), path, acc, WalkKeys(ver, om, nm, keys, i, path, acc))
    decreases Obj(om), 1, |keys| - i
  {
    if i < |keys| {
      var k := keys[i];
      var s := Key(k);
      AtCons(Obj(om), s, []);
      AtCons(Obj(nm), s, []);
      var next :=
        if k in nm then
          if om[k] != nm[k] then Walk(ver, om[k], nm[k], path + [Key(k)], acc) else acc
        else
          acc.Record(Deleted, Change(path + [Key(k)], Val(om[k]), Val(Null)));
      if k in nm {
        if om[k] != nm[k] {
          WalkSound(ver, om[k], nm[k], path + [s], acc);
          OnlyLift(ver, Obj(om), Obj(nm), s, path, acc, next);
        }
      } else {
        var c := Change(path + [s], Val(om[k]), Val(Null));
        DeletedStep(Obj(om), Obj(nm), s);
        ExplainsStep(ver, Obj(om), Obj(nm), path, s, Deleted, c);
        OnlyRecord(ver, Obj(om), Obj(nm), path, acc, Deleted, c);
      }
      WalkKeysSound(ver, om, nm, keys, i + 1, path, next);
      OnlyChain(ver, Obj(om), Obj(nm), path, acc, next, WalkKeys(ver, om, nm, keys, i + 1, path, next));
    }
  }

  lemma {:induction false} AddKeysSound(ver: Version, om: map<string, Json>, nm: map<string, Json>,
                                        keys: seq<string>, i: nat, path: seq<Seg>, acc: Changes)
    requires forall j | 0 <= j < |keys| :: keys[j] in nm
    ensures OnlyExpected(ver, Obj(om), Obj(nm), path, acc, AddKeys(om, nm, keys, i, path, acc))
    decreases |keys| - i
  {
    if i < |keys| {
      var k := keys[i];
      var s := Key(k);
      var next :=
        if k in om then acc
        else acc.Record(Added, Change(path + [Key(k)], Val(Null), Val(nm[k])));
      if k !in om {
        AtCons(Obj(om), s, []);
        AtCons(Obj(nm), s, []);
        var c := Change(path + [s], Val(Null), Val(nm[k]));
        AddedStep(Obj(om), Obj(nm), s);
        ExplainsStep(ver, Obj(om), Obj(nm), path, s, Added, c);
        OnlyRecord(ver, Obj(om), Obj(nm), path, acc, Added, c);
      }
      AddKeysSound(ver, om, nm, keys, i + 1, path, next);
      OnlyChain(ver, Obj(om), Obj(nm), path, acc, next, AddKeys(om, nm, keys, i + 1, path, next));
    }
  }

  lemma {:induction false} WalkItemsSound(ver: Version, oa: seq<Json>, na: seq<Json>, i: nat,
                                          path: seq<Seg>, acc: Changes)
    requires ver == Draft ==> |oa| > |na|
    ensures OnlyExpected(ver, Arr(oa), Arr(na), path, acc, WalkItems(ver, oa, na, i, path, acc))
    decreases Arr(oa), 1, |oa| - i
  {
    if i < |oa| && i < |na| {
      var s := Index(i);
      AtCons(Arr(oa), s, []);
      AtCons(Arr(na), s, []);
      var next :=
        if oa[i] != na[i] then Walk(ver, oa[i], na[i], path + [Index(i)], acc) else acc;
      if oa[i] != na[i] {
        WalkSound(ver, oa[i], na[i], path + [s], acc);
        OnlyLift(ver, Arr(oa), Arr(na), s, path, acc, next);
      }
      WalkItemsSound(ver, oa, na, i + 1, path, next);
      OnlyChain(ver, Arr(oa), Arr(na), path, acc, next, WalkItems(ver, oa, na, i + 1, path, next));
    }
  }

  lemma {:induction false} ShrunkSound(ver: Version, oa: seq<Json>, na: seq<Json>, path: seq<Seg>, acc: Changes)
    requires |oa| >= |na|
    requires ver == Draft ==> |oa| > |na|
    ensures OnlyExpected(ver, Arr(oa), Arr(na), path, acc, Shrunk(ver, oa, na, path, acc))
    decreases Arr(oa), 1, |oa| + 1
  {
    var common := WalkItems(ver, oa, na, 0, path, acc);
    WalkItemsSound(ver, oa, na, 0, path, acc);
    var gone := Gone(oa, |na|, path);
    forall e | e in gone
      ensures Explains(ver, Arr(oa), Arr(na), path, Deleted, e)
    {
      var j :| 0 <= j < |gone| && gone[j] == e;
      var s := Index(|na| + j);
      AtCons(Arr(oa), s, []);
      AtCons(Arr(na), s, []);
      DeletedStep(Arr(oa), Arr(na), s);
      ExplainsStep(ver, Arr(oa), Arr(na), path, s, Deleted, e);
    }
    OnlyRecordAll(ver, Arr(oa), Arr(na), path, common, Deleted, gone);
    OnlyChain(ver, Arr(oa), Arr(na), path, acc, common, common.RecordAll(Deleted, gone));
  }

  lemma {:induction false} GrownSound(oa: seq<Json>, na: seq<Json>, path: seq<Seg>, acc: Changes)
    requires |oa| < |na|
    ensures OnlyExpected(Revised, Arr(oa), Arr(na), path, acc, Grown(Revised, oa, na, path, acc))
    decreases Arr(oa), 1, |oa| + 1
  {
    var common := WalkItems(Revised, oa, na, 0, path, acc);
    WalkItemsSound(Revised, oa, na, 0, path, acc);
    var arrived := Arrived(na, |oa|, path);
    forall e | e in arrived
      ensures Explains(Revised, Arr(oa), Arr(na), path, Added, e)
    {
      var j :| 0 <= j < |arrived| && arrived[j] == e;
      var s := Index(|oa| + j);
      AtCons(Arr(oa), s, []);
      AtCons(Arr(na), s, []);
      AddedStep(Arr(oa), Arr(na), s);
      ExplainsStep(Revised, Arr(oa), Arr(na), path, s, Added, e);
    }
    OnlyRecordAll(Revised, Arr(oa), Arr(na), path, common, Added, arrived);
    OnlyChain(Revised, Arr(oa), Arr(na), path, acc, common, common.RecordAll(Added, arrived));
  }

  // ---------------------------------------------------------------------
  // Completeness: the revised walk reports every expected entry, the
  // draft every expected entry it sees
  // ---------------------------------------------------------------------

  /** An expected entry needs a difference. */
  lemma ExpectedDiffers(before: Json, after: Json, rel: seq<Seg>)
    requires Expected(before, after, rel).Some?
    ensures before != after
  {
    ExpectedSame(before, rel);
  }

  lemma ReportedLater(before: Json, after: Json, path: seq<Seg>, acc: Changes, mid: Changes, r: Changes, rel: seq<Seg>)
    requires Extends(acc, mid) && Extends(mid, r)
    requires Expected(before, after, rel).Some?
    requires Reported(before, after, path, mid, r, rel)
    ensures Extends(acc, r) && Reported(before, after, path, acc, r, rel)
  {
    FreshSplit(acc, mid, r, Expected(before, after, rel).value.kind);
  }

  lemma ReportedEarlier(before: Json, after: Json, path: seq<Seg>, acc: Changes, mid: Changes, r: Changes, rel: seq<Seg>)
    requires Extends(acc, mid) && Extends(mid, r)
    requires Expected(before, after, rel).Some?
    requires Reported(before, after, path, acc, mid, rel)
    ensures Extends(acc, r) && Reported(before, after, path, acc, r, rel)
  {
    FreshSplit(acc, mid, r, Expected(before, after, rel).value.kind);
  }

  /** An entry reported below one shared step is reported one level up. */
  lemma ReportedLift(before: Json, after: Json, s: Seg, path: seq<Seg>, acc: Changes, r: Changes, rest: seq<Seg>)
    requires At(before, [s]).Some? && At(after, [s]).Some?
    requires Extends(acc, r)
    requires Expected(At(before, [s]).value, At(after, [s]).value, rest).Some?
    requires Reported(At(before, [s]).value, At(after, [s]).value, path + [s], acc, r, rest)
    ensures Expected(before, after, [s] + rest).Some?
    ensures Reported(before, after, path, acc, r, [s] + rest)
  {
    ExpectedUnder(before, after, s, rest);
    assert (path + [s]) + rest == path + ([s] + rest);
  }

  /** A one-sided step whose entry was appended is reported. */
  lemma DeletedReported(before: Json, after: Json, s: Seg, rest: seq<Seg>, path: seq<Seg>, acc: Changes, r: Changes)
    requires At(before, [s]).Some? && At(after, [s]) == None
    requires Expected(before, after, [s] + rest).Some?
    requires Extends(acc, r)
    requires Change(path + [s], Val(At(before, [s]).value), Val(Null)) in Fresh(acc, r, Deleted)
    ensures Reported(before, after, path, acc, r, [s] + rest)
  {
    OnlyBefore(before, after, s, rest);
    assert [s] + rest == [s];
  }

  lemma AddedReported(before: Json, after: Json, s: Seg, rest: seq<Seg>, path: seq<Seg>, acc: Changes, r: Changes)
    requires At(before, [s]) == None && At(after, [s]).Some?
    requires Expected(before, after, [s] + rest).Some?
    requires Extends(acc, r)
    requires Change(path + [s], Val(Null), Val(At(after, [s]).value)) in Fresh(acc, r, Added)
    ensures Reported(before, after, path, acc, r, [s] + rest)
  {
    OnlyAfter(before, after, s, rest);
    assert [s] + rest == [s];
  }

  /** Comparing two values that are not both objects or both arrays: the
      revised walk appends nothing when they are equal, and otherwise exactly
      one modified entry at the current path, whose new value is what Go
      stores (the zero value of a failed type assertion for a container). */
  lemma WalkLeaf(before: Json, after: Json, path: seq<Seg>, acc: Changes)
    requires !SameContainer(before, after)
    ensures Walk(Revised, before, after, path, acc)
         == if before == after then acc
            else acc.Record(Modified, Change(path, Val(before), Seen(before, after)))
  {
  }

  /** The draft, comparing two values that are not both objects or both
      arrays, reports only an object or an array replaced by a value of
      another kind: one modified entry at the current path, whose new value
      is the typed nil of the failed type assertion (jsondiff.go:79-82,
      108-111). For null, strings, bools and numbers it returns at once. */
  lemma DraftLeaf(before: Json, after: Json, path: seq<Seg>, acc: Changes)
    requires !SameContainer(before, after)
    ensures Walk(Draft, before, after, path, acc)
         == if before.Obj? || before.Arr? then acc.Record(Modified, Change(path, Val(before), Seen(before, after)))
            else acc
  {
  }

  /** The entry expected at the current path itself is the one modified
      entry the walk appends there; the draft appends it when the old value
      is an object or an array. */
  lemma LeafReported(ver: Version, before: Json, after: Json, path: seq<Seg>, acc: Changes)
    requires Expected(before, after, []).Some?
    requires ver == Draft ==> before.Obj? || before.Arr?
    ensures Reported(before, after, path, acc, Walk(ver, before, after, path, acc), [])
  {
    if ver == Revised {
      WalkLeaf(before, after, path, acc);
    } else {
      DraftLeaf(before, after, path, acc);
    }
    FreshRecord(acc, Modified, Change(path, Val(before), Seen(before, after)), Modified);
    assert path + [] == path;
  }

  /** Every expected entry, at any depth, is appended at `path + rel` by the
      revised walk, and by the draft when it sees `rel`. */
  lemma {:induction false} WalkComplete(ver: Version, before: Json, after: Json, path: seq<Seg>, acc: Changes, rel: seq<Seg>)
    requires Expected(before, after, rel).Some?
    requires ver == Draft ==> DraftSees(before, after, rel)
    ensures Reported(before, after, path, acc, Walk(ver, before, after, path, acc), rel)
    decreases before, 2, 0
  {
    if rel == [] {
      LeafReported(ver, before, after, path, acc);
    } else {
      var s, rest := rel[0], rel[1..];
      assert rel == [s] + rest;
      ExpectedFits(before, after, rel);
      match s
      case Key(k) => WalkCompleteObj(ver, before, after, path, acc, k, rest);
      case Index(n) => WalkCompleteArr(ver, before, after, path, acc, n, rest);
    }
  }

  /** A location with an expected entry lies below a step that one side at
      least has. */
  lemma StepPresent(before: Json, after: Json, s: Seg, rest: seq<Seg>)
    requires Expected(before, after, [s] + rest).Some?
    ensures At(before, [s]).Some? || At(after, [s]).Some?
  {
    AtCons(before, s, rest);
    AtCons(after, s, rest);
    AtCons(before, s, []);
    AtCons(after, s, []);
  }

  /** Completeness for two objects, at a location below key `k`. */
  lemma {:induction false} WalkCompleteObj(ver: Version, before: Json, after: Json, path: seq<Seg>,
                                           acc: Changes, k: string, rest: seq<Seg>)
    requires before.Obj? && after.Obj?
    requires Expected(before, after, [Key(k)] + rest).Some?
    requires ver == Draft ==> DraftSees(before, after, [Key(k)] + rest)
    ensures Reported(before, after, path, acc,
                     AddKeys(before.fields, after.fields, Enumerate(after.fields.Keys), 0, path,
                             WalkKeys(ver, before.fields, after.fields, Enumerate(before.fields.Keys), 0, path, acc)),
                     [Key(k)] + rest)
    decreases before, 1, |before.fields| + 1
  {
    var om, nm, s, rel := before.fields, after.fields, Key(k), [Key(k)] + rest;
    AtCons(before, s, []);
    AtCons(after, s, []);
    var afterOld := WalkKeys(ver, om, nm, Enumerate(om.Keys), 0, path, acc);
    var r := AddKeys(om, nm, Enumerate(nm.Keys), 0, path, afterOld);
    if k in om {
      var keys := Enumerate(om.Keys);
      var j :| 0 <= j < |keys| && keys[j] == k;
      WalkKeysComplete(ver, om, nm, keys, 0, path, acc, j, rest);
      ReportedEarlier(before, after, path, acc, afterOld, r, rel);
    } else {
      NewKeyReported(before, after, path, afterOld, k, rest);
      ReportedLater(before, after, path, acc, afterOld, r, rel);
    }
  }

  /** A key only the new object has is reported by the walk over its keys. */
  lemma NewKeyReported(before: Json, after: Json, path: seq<Seg>, acc: Changes, k: string, rest: seq<Seg>)
    requires before.Obj? && after.Obj? && k !in before.fields
    requires Expected(before, after, [Key(k)] + rest).Some?
    ensures Reported(before, after, path, acc,
                     AddKeys(before.fields, after.fields, Enumerate(after.fields.Keys), 0, path, acc), [Key(k)] + rest)
  {
    var om, nm, s := before.fields, after.fields, Key(k);
    AtCons(before, s, []);
    AtCons(after, s, []);
    StepPresent(before, after, s, rest);
    var keys := Enumerate(nm.Keys);
    var j :| 0 <= j < |keys| && keys[j] == k;
    AddKeysComplete(om, nm, keys, 0, path, acc, j);
    AddedReported(before, after, s, rest, path, acc, AddKeys(om, nm, keys, 0, path, acc));
  }

  /** Completeness for two arrays, at a location below index `n`. */
  lemma {:induction false} WalkCompleteArr(ver: Version, before: Json, after: Json, path: seq<Seg>,
                                           acc: Changes, n: nat, rest: seq<Seg>)
    requires before.Arr? && after.Arr?
    requires Expected(before, after, [Index(n)] + rest).Some?
    requires ver == Draft ==> DraftSees(before, after, [Index(n)] + rest)
    ensures Reported(before, after, path, acc,
                     if |before.items| >= |after.items| then Shrunk(ver, before.items, after.items, path, acc)
                     else Grown(ver, before.items, after.items, path, acc),
                     [Index(n)] + rest)
    decreases before, 1, |before.items| + 2
  {
    var oa, na, s, rel := before.items, after.items, Index(n), [Index(n)] + rest;
    var r := if |oa| >= |na| then Shrunk(ver, oa, na, path, acc) else Grown(ver, oa, na, path, acc);
    AtCons(before, s, []);
    AtCons(after, s, []);
    var common := WalkItems(ver, oa, na, 0, path, acc);
    if n < |oa| && n < |na| {
      WalkItemsComplete(ver, oa, na, 0, path, acc, n, rest);
      if |oa| >= |na| {
        FreshRecordAll(common, Deleted, Gone(oa, |na|, path), Deleted);
      } else {
        FreshRecordAll(common, Added, Arrived(na, |oa|, path), Added);
      }
      ReportedEarlier(before, after, path, acc, common, r, rel);
    } else if n >= |na| {
      StepPresent(before, after, s, rest);
      GoneReported(before, after, path, common, n, rest);
      ReportedLater(before, after, path, acc, common, r, rel);
    } else {
      ArrivedReported(before, after, path, common, n, rest);
      ReportedLater(before, after, path, acc, common, r, rel);
    }
  }

  lemma GoneHas(oa: seq<Json>, from: nat, path: seq<Seg>, n: nat)
    requires from <= n < |oa|
    ensures Change(path + [Index(n)], Val(oa[n]), Val(Null)) in Gone(oa, from, path)
  {
    assert Gone(oa, from, path)[n - from] == Change(path + [Index(n)], Val(oa[n]), Val(Null));
  }

  lemma ArrivedHas(na: seq<Json>, from: nat, path: seq<Seg>, n: nat)
    requires from <= n < |na|
    ensures Change(path + [Index(n)], Val(Null), Val(na[n])) in Arrived(na, from, path)
  {
    assert Arrived(na, from, path)[n - from] == Change(path + [Index(n)], Val(Null), Val(na[n]));
  }

  /** The trailing deletions of a shrunk array report every index the new
      array lacks. */
  lemma GoneReported(before: Json, after: Json, path: seq<Seg>, common: Changes, n: nat, rest: seq<Seg>)
    requires before.Arr? && after.Arr? && |after.items| <= n < |before.items|
    requires Expected(before, after, [Index(n)] + rest).Some?
    ensures Reported(before, after, path, common,
                     common.RecordAll(Deleted, Gone(before.items, |after.items|, path)), [Index(n)] + rest)
  {
    var oa, na, s := before.items, after.items, Index(n);
    var gone := Gone(oa, |na|, path);
    var r := common.RecordAll(Deleted, gone);
    AtCons(before, s, []);
    AtCons(after, s, []);
    assert At(before, [s]) == Some(oa[n]) && At(after, [s]) == None;
    FreshRecordAll(common, Deleted, gone, Deleted);
    GoneHas(oa, |na|, path, n);
    assert Change(path + [s], Val(oa[n]), Val(Null)) in Fresh(common, r, Deleted);
    DeletedReported(before, after, s, rest, path, common, r);
  }

  /** The trailing additions of a grown array report every index the old
      array lacks. */
  lemma ArrivedReported(before: Json, after: Json, path: seq<Seg>, common: Changes, n: nat, rest: seq<Seg>)
    requires before.Arr? && after.Arr? && |before.items| <= n < |after.items|
    requires Expected(before, after, [Index(n)] + rest).Some?
    ensures Reported(before, after, path, common,
                     common.RecordAll(Added, Arrived(after.items, |before.items|, path)), [Index(n)] + rest)
  {
    var oa, na, s := before.items, after.items, Index(n);
    var arrived := Arrived(na, |oa|, path);
    var r := common.RecordAll(Added, arrived);
    AtCons(before, s, []);
    AtCons(after, s, []);
    assert At(before, [s]) == None && At(after, [s]) == Some(na[n]);
    FreshRecordAll(common, Added, arrived, Added);
    ArrivedHas(na, |oa|, path, n);
    assert Change(path + [s], Val(Null), Val(na[n])) in Fresh(common, r, Added);
    AddedReported(before, after, s, rest, path, common, r);
  }

  lemma {:induction false} WalkKeysComplete(ver: Version, om: map<string, Json>, nm: map<string, Json>, keys: seq<string>,
                                            i: nat, path: seq<Seg>, acc: Changes, j: nat, rest: seq<Seg>)
    requires forall j | 0 <= j < |keys| :: keys[j] in om
    requires i <= j < |keys|
    requires Expected(Obj(om), Obj(nm), [Key(keys[j])] + rest).Some?
    requires ver == Draft ==> DraftSees(Obj(om), Obj(nm), [Key(keys[j])] + rest)
    ensures Reported(Obj(om), Obj(nm), path, acc, WalkKeys(ver, om, nm, keys, i, path, acc), [Key(keys[j])] + rest)
    decreases Obj(om), 1, |keys| - i
  {
    var rel := [Key(keys[j])] + rest;
    var next := KeyStep(ver, om, nm, keys[i], path, acc);
    var r := WalkKeys(ver, om, nm, keys, i + 1, path, next);
    if i < j {
      WalkKeysComplete(ver, om, nm, keys, i + 1, path, next, j, rest);
      ReportedLater(Obj(om), Obj(nm), path, acc, next, r, rel);
    } else {
      KeyStepComplete(ver, Obj(om), Obj(nm), keys[i], path, acc, rest);
      ReportedEarlier(Obj(om), Obj(nm), path, acc, next, r, rel);
    }
  }

  /** The iteration for key `k` reports what is expected below `k`. */
  lemma {:induction false} KeyStepComplete(ver: Version, before: Json, after: Json, k: string, path: seq<Seg>,
                                           acc: Changes, rest: seq<Seg>)
    requires before.Obj? && after.Obj? && k in before.fields
    requires Expected(before, after, [Key(k)] + rest).Some?
    requires ver == Draft ==> DraftSees(before, after, [Key(k)] + rest)
    ensures Reported(before, after, path, acc, KeyStep(ver, before.fields, after.fields, k, path, acc), [Key(k)] + rest)
    decreases before, 0, 0
  {
    var om, nm, s := before.fields, after.fields, Key(k);
    var next := KeyStep(ver, om, nm, k, path, acc);
    AtCons(before, s, []);
    AtCons(after, s, []);
    if k in nm {
      ExpectedUnder(before, after, s, rest);
      SeesUnder(before, after, s, rest);
      ExpectedDiffers(om[k], nm[k], rest);
      WalkComplete(ver, om[k], nm[k], path + [s], acc, rest);
      ReportedLift(before, after, s, path, acc, next, rest);
    } else {
      FreshRecord(acc, Deleted, Change(path + [s], Val(om[k]), Val(Null)), Deleted);
      DeletedReported(before, after, s, rest, path, acc, next);
    }
  }

  lemma {:induction false} AddKeysComplete(om: map<string, Json>, nm: map<string, Json>, keys: seq<string>,
                                           i: nat, path: seq<Seg>, acc: Changes, j: nat)
    requires forall j | 0 <= j < |keys| :: keys[j] in nm
    requires i <= j < |keys| && keys[j] !in om
    ensures Change(path + [Key(keys[j])], Val(Null), Val(nm[keys[j]])) in Fresh(acc, AddKeys(om, nm, keys, i, path, acc), Added)
    decreases |keys| - i
  {
    var k := keys[i];
    var next :=
      if k in om then acc
      else acc.Record(Added, Change(path + [Key(k)], Val(Null), Val(nm[k])));
    var r := AddKeys(om, nm, keys, i + 1, path, next);
    if i < j {
      AddKeysComplete(om, nm, keys, i + 1, path, next, j);
    } else {
      FreshRecord(acc, Added, Change(path + [Key(k)], Val(Null), Val(nm[k])), Added);
    }
    FreshSplit(acc, next, r, Added);
  }

  lemma {:induction false} WalkItemsComplete(ver: Version, oa: seq<Json>, na: seq<Json>, i: nat, path: seq<Seg>,
                                             acc: Changes, n: nat, rest: seq<Seg>)
    requires i <= n < |oa| && n < |na|
    requires Expected(Arr(oa), Arr(na), [Index(n)] + rest).Some?
    requires ver == Draft ==> DraftSees(Arr(oa), Arr(na), [Index(n)] + rest)
    ensures Reported(Arr(oa), Arr(na), path, acc, WalkItems(ver, oa, na, i, path, acc), [Index(n)] + rest)
    decreases Arr(oa), 1, |oa| - i
  {
    var s := Index(i);
    var rel := [Index(n)] + rest;
    var next :=
      if oa[i] != na[i] then Walk(ver, oa[i], na[i], path + [Index(i)], acc) else acc;
    var r := WalkItems(ver, oa, na, i + 1, path, next);
    if i < n {
      WalkItemsComplete(ver, oa, na, i + 1, path, next, n, rest);
      ReportedLater(Arr(oa), Arr(na), path, acc, next, r, rel);
    } else {
      AtCons(Arr(oa), s, []);
      AtCons(Arr(na), s, []);
      ExpectedUnder(Arr(oa), Arr(na), s, rest);
      SeesUnder(Arr(oa), Arr(na), s, rest);
      ExpectedDiffers(oa[i], na[i], rest);
      WalkComplete(ver, oa[i], na[i], path + [s], acc, rest);
      ReportedLift(Arr(oa), Arr(na), s, path, acc, next, rest);
      ReportedEarlier(Arr(oa), Arr(na), path, acc, next, r, rel);
    }
  }

  // ---------------------------------------------------------------------
  // Each entry once (both versions)
  // ---------------------------------------------------------------------

  /** No list received the same entry, segment path and values, twice
      between `acc` and `r`. */
  ghost predicate Once(acc: Changes, r: Changes)
    requires Extends(acc, r)
  {
    forall k: Kind :: Distinct(Fresh(acc, r, k))
  }

  /** Every entry appended between `acc` and `r` lies strictly below `path`,
      and its first step below `path` is one of `steps`. */
  ghost predicate Via(path: seq<Seg>, steps: set<Seg>, acc: Changes, r: Changes)
    requires Extends(acc, r)
  {
    forall k: Kind, e: Change | e in Fresh(acc, r, k) :: path < e.path && e.path[|path|] in steps
  }

  /** The steps into the keys of `keys` that are not in `without`. */
  function KeySteps(keys: seq<string>, without: set<string>): set<Seg> {
    set k | k in keys && k !in without :: Key(k)
  }

  /** The steps into the indices `from..to-1`. */
  function IndexSteps(from: nat, to: nat): set<Seg> {
    set j: nat | from <= j < to :: Index(j)
  }

  /** Two stretches without repeats whose entries take different first steps
      make one stretch without repeats. */
  lemma OnceJoin(path: seq<Seg>, s1: set<Seg>, s2: set<Seg>, a: Changes, b: Changes, c: Changes)
    requires Extends(a, b) && Extends(b, c)
    requires Once(a, b) && Once(b, c)
    requires Via(path, s1, a, b) && Via(path, s2, b, c) && s1 !! s2
    ensures Extends(a, c) && Once(a, c)
  {
    forall k: Kind
      ensures Distinct(Fresh(a, c, k))
    {
      FreshSplit(a, b, c, k);
      forall x, y | x in Fresh(a, b, k) && y in Fresh(b, c, k)
        ensures x != y
      {
        assert x.path[|path|] in s1 && y.path[|path|] in s2;
      }
      DistinctConcat(Fresh(a, b, k), Fresh(b, c, k));
    }
  }

  lemma ViaJoin(path: seq<Seg>, s1: set<Seg>, s2: set<Seg>, steps: set<Seg>, a: Changes, b: Changes, c: Changes)
    requires Extends(a, b) && Extends(b, c)
    requires Via(path, s1, a, b) && Via(path, s2, b, c) && s1 + s2 <= steps
    ensures Extends(a, c) && Via(path, steps, a, c)
  {
    forall k: Kind, e: Change | e in Fresh(a, c, k)
      ensures path < e.path && e.path[|path|] in steps
    {
      FreshSplit(a, b, c, k);
    }
  }

  lemma OnceRecord(acc: Changes, k: Kind, c: Change)
    ensures Extends(acc, acc.Record(k, c)) && Once(acc, acc.Record(k, c))
  {
    forall k': Kind
      ensures Distinct(Fresh(acc, acc.Record(k, c), k'))
    {
      FreshRecord(acc, k, c, k');
    }
  }

  /** A recorded entry one step below `path` takes that step. */
  lemma ViaRecord(path: seq<Seg>, s: Seg, acc: Changes, k: Kind, c: Change)
    requires c.path == path + [s]
    ensures Extends(acc, acc.Record(k, c)) && Via(path, {s}, acc, acc.Record(k, c))
  {
    forall k': Kind, e: Change | e in Fresh(acc, acc.Record(k, c), k')
      ensures path < e.path && e.path[|path|] in {s}
    {
      FreshRecord(acc, k, c, k');
      assert e.path[..|path|] == path;
    }
  }

  /** Entries explained below `path + [s]` take the step `s` below `path`. */
  lemma ViaChild(ver: Version, before: Json, after: Json, path: seq<Seg>, s: Seg, acc: Changes, r: Changes)
    requires Extends(acc, r)
    requires OnlyExpected(ver, before, after, path + [s], acc, r)
    ensures Via(path, {s}, acc, r)
  {
    forall k: Kind, e: Change | e in Fresh(acc, r, k)
      ensures path < e.path && e.path[|path|] in {s}
    {
      assert Explains(ver, before, after, path + [s], k, e);
      assert e.path[|path|] == (path + [s])[|path|];
      assert e.path[..|path|] == (path + [s])[..|path|] == path;
    }
  }

  /** Neither version appends the same entry, segment path and values,
      twice to one list: each location is visited once. */
  lemma {:induction false} WalkOnce(ver: Version, before: Json, after: Json, path: seq<Seg>, acc: Changes)
    ensures Once(acc, Walk(ver, before, after, path, acc))
    decreases before, 3, 0
  {
    match before
    case Obj(om) =>
      if !after.Obj? {
        OnceRecord(acc, Modified, Change(path, Val(before), NilMap));
      } else {
        ObjOnce(ver, om, after.fields, path, acc);
      }
    case Arr(oa) =>
      if !after.Arr? {
        OnceRecord(acc, Modified, Change(path, Val(before), NilSlice));
      } else {
        var na := after.items;
        if |oa| >= |na| && (ver == Revised || |oa| > |na|) {
          ShrunkOnce(ver, oa, na, path, acc);
        } else if ver == Revised {
          GrownOnce(ver, oa, na, path, acc);
        }
      }
    case Null =>
      OnceRecord(acc, Modified, Change(path, Val(Null), Val(after)));
    case _ =>
      OnceRecord(acc, Modified, Change(path, Val(before), Val(after)));
  }

  /** Two objects: the old keys, then the keys only the new object has. */
  lemma {:induction false} ObjOnce(ver: Version, om: map<string, Json>, nm: map<string, Json>,
                                   path: seq<Seg>, acc: Changes)
    ensures Once(acc, Walk(ver, Obj(om), Obj(nm), path, acc))
    decreases Obj(om), 2, 0
  {
    var oldKeys, newKeys := Enumerate(om.Keys), Enumerate(nm.Keys);
    var afterOld := WalkKeys(ver, om, nm, oldKeys, 0, path, acc);
    var r := AddKeys(om, nm, newKeys, 0, path, afterOld);
    assert Walk(ver, Obj(om), Obj(nm), path, acc) == r;
    WalkKeysOnce(ver, om, nm, oldKeys, 0, path, acc);
    AddKeysOnce(om, nm, newKeys, 0, path, afterOld);
    assert oldKeys[0..] == oldKeys && newKeys[0..] == newKeys;
    OnceJoin(path, KeySteps(oldKeys, {}), KeySteps(newKeys, om.Keys), acc, afterOld, r);
  }

  lemma {:induction false} WalkKeysOnce(ver: Version, om: map<string, Json>, nm: map<string, Json>,
                                        keys: seq<string>, i: nat, path: seq<Seg>, acc: Changes)
    requires forall j | 0 <= j < |keys| :: keys[j] in om
    requires Distinct(keys) && i <= |keys|
    ensures Once(acc, WalkKeys(ver, om, nm, keys, i, path, acc))
    ensures Via(path, KeySteps(keys[i..], {}), acc, WalkKeys(ver, om, nm, keys, i, path, acc))
    decreases Obj(om), 1, |keys| - i
  {
    if i < |keys| {
      var k := keys[i];
      var next := KeyStep(ver, om, nm, k, path, acc);
      var r := WalkKeys(ver, om, nm, keys, i + 1, path, next);
      KeyStepOnce(ver, om, nm, k, path, acc);
      WalkKeysOnce(ver, om, nm, keys, i + 1, path, next);
      DistinctHead(keys, i);
      assert keys[i..] == [k] + keys[i + 1..];
      OnceJoin(path, {Key(k)}, KeySteps(keys[i + 1..], {}), acc, next, r);
      ViaJoin(path, {Key(k)}, KeySteps(keys[i + 1..], {}), KeySteps(keys[i..], {}), acc, next, r);
    }
  }

  lemma {:induction false} KeyStepOnce(ver: Version, om: map<string, Json>, nm: map<string, Json>,
                                       k: string, path: seq<Seg>, acc: Changes)
    requires k in om
    ensures Once(acc, KeyStep(ver, om, nm, k, path, acc))
    ensures Via(path, {Key(k)}, acc, KeyStep(ver, om, nm, k, path, acc))
    decreases Obj(om), 0, 0
  {
    if k in nm {
      if om[k] != nm[k] {
        var r := Walk(ver, om[k], nm[k], path + [Key(k)], acc);
        WalkOnce(ver, om[k], nm[k], path + [Key(k)], acc);
        WalkSound(ver, om[k], nm[k], path + [Key(k)], acc);
        ViaChild(ver, om[k], nm[k], path, Key(k), acc, r);
      }
    } else {
      var c := Change(path + [Key(k)], Val(om[k]), Val(Null));
      OnceRecord(acc, Deleted, c);
      ViaRecord(path, Key(k), acc, Deleted, c);
    }
  }

  lemma {:induction false} AddKeysOnce(om: map<string, Json>, nm: map<string, Json>,
                                       keys: seq<string>, i: nat, path: seq<Seg>, acc: Changes)
    requires forall j | 0 <= j < |keys| :: keys[j] in nm
    requires Distinct(keys) && i <= |keys|
    ensures Once(acc, AddKeys(om, nm, keys, i, path, acc))
    ensures Via(path, KeySteps(keys[i..], om.Keys), acc, AddKeys(om, nm, keys, i, path, acc))
    decreases |keys| - i
  {
    if i < |keys| {
      var k := keys[i];
      var c := Change(path + [Key(k)], Val(Null), Val(nm[k]));
      var next := if k in om then acc else acc.Record(Added, c);
      var r := AddKeys(om, nm, keys, i + 1, path, next);
      var here: set<Seg> := if k in om then {} else {Key(k)};
      if k !in om {
        OnceRecord(acc, Added, c);
        ViaRecord(path, Key(k), acc, Added, c);
      }
      AddKeysOnce(om, nm, keys, i + 1, path, next);
      DistinctHead(keys, i);
      assert keys[i..] == [k] + keys[i + 1..];
      OnceJoin(path, here, KeySteps(keys[i + 1..], om.Keys), acc, next, r);
      ViaJoin(path, here, KeySteps(keys[i + 1..], om.Keys), KeySteps(keys[i..], om.Keys), acc, next, r);
    }
  }

  lemma {:induction false} WalkItemsOnce(ver: Version, oa: seq<Json>, na: seq<Json>, i: nat,
                                         path: seq<Seg>, acc: Changes)
    ensures Once(acc, WalkItems(ver, oa, na, i, path, acc))
    ensures Via(path, IndexSteps(i, if |oa| < |na| then |oa| else |na|), acc, WalkItems(ver, oa, na, i, path, acc))
    decreases Arr(oa), 1, |oa| - i
  {
    if i < |oa| && i < |na| {
      var hi := if |oa| < |na| then |oa| else |na|;
      var next :=
        if oa[i] != na[i] then Walk(ver, oa[i], na[i], path + [Index(i)], acc) else acc;
      var r := WalkItems(ver, oa, na, i + 1, path, next);
      ItemStepOnce(ver, oa, na, i, path, acc);
      WalkItemsOnce(ver, oa, na, i + 1, path, next);
      ItemsJoin(path, i, hi, acc, next, r);
    }
  }

  /** Index `i`, then the indices above it up to `hi`. */
  lemma ItemsJoin(path: seq<Seg>, i: nat, hi: nat, acc: Changes, next: Changes, r: Changes)
    requires i < hi && Extends(acc, next) && Extends(next, r)
    requires Once(acc, next) && Via(path, {Index(i)}, acc, next)
    requires Once(next, r) && Via(path, IndexSteps(i + 1, hi), next, r)
    ensures Extends(acc, r) && Once(acc, r) && Via(path, IndexSteps(i, hi), acc, r)
  {
    assert Index(i) in IndexSteps(i, hi);
    OnceJoin(path, {Index(i)}, IndexSteps(i + 1, hi), acc, next, r);
    ViaJoin(path, {Index(i)}, IndexSteps(i + 1, hi), IndexSteps(i, hi), acc, next, r);
  }

  /** One iteration of the loop over common indices, for index `i`. */
  lemma {:induction false} ItemStepOnce(ver: Version, oa: seq<Json>, na: seq<Json>, i: nat,
                                        path: seq<Seg>, acc: Changes)
    requires i < |oa| && i < |na|
    ensures Once(acc, if oa[i] != na[i] then Walk(ver, oa[i], na[i], path + [Index(i)], acc) else acc)
    ensures Via(path, {Index(i)}, acc, if oa[i] != na[i] then Walk(ver, oa[i], na[i], path + [Index(i)], acc) else acc)
    decreases Arr(oa), 0, 0
  {
    if oa[i] != na[i] {
      var r := Walk(ver, oa[i], na[i], path + [Index(i)], acc);
      WalkOnce(ver, oa[i], na[i], path + [Index(i)], acc);
      WalkSound(ver, oa[i], na[i], path + [Index(i)], acc);
      ViaChild(ver, oa[i], na[i], path, Index(i), acc, r);
    }
  }

  /** Recording entries that differ from each other, each one step below
      `path` at a step in `steps`. */
  lemma OnceRecordAll(path: seq<Seg>, steps: set<Seg>, acc: Changes, k: Kind, cs: seq<Change>)
    requires Distinct(cs)
    requires forall e | e in cs :: path < e.path && e.path[|path|] in steps
    ensures Extends(acc, acc.RecordAll(k, cs))
    ensures Once(acc, acc.RecordAll(k, cs)) && Via(path, steps, acc, acc.RecordAll(k, cs))
  {
    forall k': Kind
      ensures Distinct(Fresh(acc, acc.RecordAll(k, cs), k'))
    {
      FreshRecordAll(acc, k, cs, k');
    }
    forall k': Kind, e: Change | e in Fresh(acc, acc.RecordAll(k, cs), k')
      ensures path < e.path && e.path[|path|] in steps
    {
      FreshRecordAll(acc, k, cs, k');
    }
  }

  /** The trailing deletions differ from each other and take the steps
      `from..|oa|-1`. */
  lemma GoneSteps(oa: seq<Json>, from: nat, path: seq<Seg>)
    requires from <= |oa|
    ensures Distinct(Gone(oa, from, path))
    ensures forall e | e in Gone(oa, from, path) :: path < e.path && e.path[|path|] in IndexSteps(from, |oa|)
  {
    var gone := Gone(oa, from, path);
    forall i, j | 0 <= i < j < |gone| ensures gone[i] != gone[j] {
      assert gone[i].path[|path|] == Index(from + i);
      assert gone[j].path[|path|] == Index(from + j);
    }
    forall e | e in gone
      ensures path < e.path && e.path[|path|] in IndexSteps(from, |oa|)
    {
      var j :| 0 <= j < |gone| && gone[j] == e;
      assert e.path[..|path|] == path;
      assert e.path[|path|] == Index(from + j);
    }
  }

  /** The trailing additions differ from each other and take the steps
      `from..|na|-1`. */
  lemma ArrivedSteps(na: seq<Json>, from: nat, path: seq<Seg>)
    requires from <= |na|
    ensures Distinct(Arrived(na, from, path))
    ensures forall e | e in Arrived(na, from, path) :: path < e.path && e.path[|path|] in IndexSteps(from, |na|)
  {
    var arrived := Arrived(na, from, path);
    forall i, j | 0 <= i < j < |arrived| ensures arrived[i] != arrived[j] {
      assert arrived[i].path[|path|] == Index(from + i);
      assert arrived[j].path[|path|] == Index(from + j);
    }
    forall e | e in arrived
      ensures path < e.path && e.path[|path|] in IndexSteps(from, |na|)
    {
      var j :| 0 <= j < |arrived| && arrived[j] == e;
      assert e.path[..|path|] == path;
      assert e.path[|path|] == Index(from + j);
    }
  }

  lemma {:induction false} ShrunkOnce(ver: Version, oa: seq<Json>, na: seq<Json>, path: seq<Seg>, acc: Changes)
    requires |oa| >= |na|
    ensures Once(acc, Shrunk(ver, oa, na, path, acc))
    decreases Arr(oa), 1, |oa| + 1
  {
    var common := WalkItems(ver, oa, na, 0, path, acc);
    WalkItemsOnce(ver, oa, na, 0, path, acc);
    GoneSteps(oa, |na|, path);
    OnceRecordAll(path, IndexSteps(|na|, |oa|), common, Deleted, Gone(oa, |na|, path));
    OnceJoin(path, IndexSteps(0, |na|), IndexSteps(|na|, |oa|), acc, common, Shrunk(ver, oa, na, path, acc));
  }

  lemma {:induction false} GrownOnce(ver: Version, oa: seq<Json>, na: seq<Json>, path: seq<Seg>, acc: Changes)
    requires |oa| < |na|
    ensures Once(acc, Grown(ver, oa, na, path, acc))
    decreases Arr(oa), 1, |oa| + 1
  {
    var common := WalkItems(ver, oa, na, 0, path, acc);
    WalkItemsOnce(ver, oa, na, 0, path, acc);
    ArrivedSteps(na, |oa|, path);
    OnceRecordAll(path, IndexSteps(|oa|, |na|), common, Added, Arrived(na, |oa|, path));
    OnceJoin(path, IndexSteps(0, |oa|), IndexSteps(|oa|, |na|), acc, common, Grown(ver, oa, na, path, acc));
  }

  // ---------------------------------------------------------------------
  // Headline properties
  // ---------------------------------------------------------------------

  /** The revised diff is exact: every entry it appends is the expected entry
      at its location below `path`, every expected entry is appended, at
      `path` followed by its location, in the list of its kind, and no list
      receives the same entry twice. Since the entry is fixed by its
      location, no two entries of one list share a segment path. Entries
      already in the lists stay, as a prefix. */
  lemma RevisedIsExact(before: Json, after: Json, path: seq<Seg>, acc: Changes)
    ensures Extends(acc, Walk(Revised, before, after, path, acc))
    ensures OnlyExpected(Revised, before, after, path, acc, Walk(Revised, before, after, path, acc))
    ensures forall rel | Expected(before, after, rel).Some? ::
              Reported(before, after, path, acc, Walk(Revised, before, after, path, acc), rel)
    ensures forall k: Kind :: Distinct(Fresh(acc, Walk(Revised, before, after, path, acc), k))
  {
    WalkSound(Revised, before, after, path, acc);
    WalkOnce(Revised, before, after, path, acc);
    forall rel | Expected(before, after, rel).Some?
      ensures Reported(before, after, path, acc, Walk(Revised, before, after, path, acc), rel)
    {
      WalkComplete(Revised, before, after, path, acc, rel);
    }
  }

  /** Two different values always have a location with an expected entry. */
  lemma {:induction false} FindDifference(before: Json, after: Json) returns (rel: seq<Seg>)
    requires before != after
    ensures Expected(before, after, rel).Some?
    decreases before
  {
    if !SameContainer(before, after) {
      rel := [];
    } else if before.Obj? {
      var om, nm := before.fields, after.fields;
      if k :| k in om && k !in nm {
        rel := [Key(k)];
        AtCons(before, Key(k), []);
        AtCons(after, Key(k), []);
        DeletedStep(before, after, Key(k));
      } else if k :| k in nm && k !in om {
        rel := [Key(k)];
        AtCons(before, Key(k), []);
        AtCons(after, Key(k), []);
        AddedStep(before, after, Key(k));
      } else {
        assert om.Keys == nm.Keys;
        var k :| k in om && om[k] != nm[k];
        var sub := FindDifference(om[k], nm[k]);
        AtCons(before, Key(k), []);
        AtCons(after, Key(k), []);
        ExpectedUnder(before, after, Key(k), sub);
        rel := [Key(k)] + sub;
      }
    } else {
      var oa, na := before.items, after.items;
      if |oa| > |na| {
        rel := [Index(|na|)];
        AtCons(before, Index(|na|), []);
        AtCons(after, Index(|na|), []);
        DeletedStep(before, after, Index(|na|));
      } else if |oa| < |na| {
        rel := [Index(|oa|)];
        AtCons(before, Index(|oa|), []);
        AtCons(after, Index(|oa|), []);
        AddedStep(before, after, Index(|oa|));
      } else {
        var i :| 0 <= i < |oa| && oa[i] != na[i];
        var sub := FindDifference(oa[i], na[i]);
        AtCons(before, Index(i), []);
        AtCons(after, Index(i), []);
        ExpectedUnder(before, after, Index(i), sub);
        rel := [Index(i)] + sub;
      }
    }
  }

  /** Sound walks over two equal values append nothing. */
  lemma NothingFresh(ver: Version, before: Json, path: seq<Seg>, acc: Changes, r: Changes)
    requires Extends(acc, r)
    requires OnlyExpected(ver, before, before, path, acc, r)
    ensures r == acc
  {
    forall k: Kind
      ensures |Fresh(acc, r, k)| == 0
    {
      if |Fresh(acc, r, k)| > 0 {
        var e := Fresh(acc, r, k)[0];
        assert e in Fresh(acc, r, k);
        ExpectedSame(before, e.path[|path|..]);
      }
    }
    assert |Fresh(acc, r, Added)| == 0 && |Fresh(acc, r, Modified)| == 0 && |Fresh(acc, r, Deleted)| == 0;
  }

  /** The revised diff appends nothing at all exactly when the two values are
      equal: equal values (objects, equal-length arrays, scalars, null) yield
      no entry, and any difference, however deep, yields at least one. */
  lemma NoChangesIffEqual(before: Json, after: Json, path: seq<Seg>, acc: Changes)
    ensures Walk(Revised, before, after, path, acc) == acc <==> before == after
  {
    var r := Walk(Revised, before, after, path, acc);
    if before == after {
      WalkSound(Revised, before, after, path, acc);
      NothingFresh(Revised, before, path, acc, r);
    } else {
      var rel := FindDifference(before, after);
      WalkComplete(Revised, before, after, path, acc, rel);
      var kind := Expected(before, after, rel).value.kind;
      assert |Fresh(acc, r, kind)| > 0;
    }
  }

  // ---------------------------------------------------------------------
  // The draft
  // ---------------------------------------------------------------------

  /** Everything the draft reports, the revised version reports too, in the
      same list. */
  lemma DraftWithinRevised(before: Json, after: Json, path: seq<Seg>, acc: Changes)
    ensures forall k: Kind, e: Change | e in Fresh(acc, Walk(Draft, before, after, path, acc), k) ::
              e in Fresh(acc, Walk(Revised, before, after, path, acc), k)
  {
    WalkSound(Draft, before, after, path, acc);
    forall k: Kind, e: Change | e in Fresh(acc, Walk(Draft, before, after, path, acc), k)
      ensures e in Fresh(acc, Walk(Revised, before, after, path, acc), k)
    {
      var rel := e.path[|path|..];
      WalkComplete(Revised, before, after, path, acc, rel);
      assert path + rel == e.path;
    }
  }

  /** The draft is exact about the locations it sees: every entry it appends
      is the expected entry at a location it sees, every expected entry at a
      location it sees is appended, at `path` followed by that location, in
      the list of its kind, and no list receives the same entry twice, so no
      two entries of one list share a segment path. So it
      reports a key only the old object has as deleted with a nil new value,
      a key only the new object has as added, an object or array replaced by
      another kind as modified with a typed nil, and each index the new array
      lacks, when the old array is longer, as deleted. */
  lemma DraftIsExact(before: Json, after: Json, path: seq<Seg>, acc: Changes)
    ensures Extends(acc, Walk(Draft, before, after, path, acc))
    ensures OnlyExpected(Draft, before, after, path, acc, Walk(Draft, before, after, path, acc))
    ensures forall rel | Expected(before, after, rel).Some? && DraftSees(before, after, rel) ::
              Reported(before, after, path, acc, Walk(Draft, before, after, path, acc), rel)
    ensures forall k: Kind :: Distinct(Fresh(acc, Walk(Draft, before, after, path, acc), k))
  {
    WalkSound(Draft, before, after, path, acc);
    WalkOnce(Draft, before, after, path, acc);
    forall rel | Expected(before, after, rel).Some? && DraftSees(before, after, rel)
      ensures Reported(before, after, path, acc, Walk(Draft, before, after, path, acc), rel)
    {
      WalkComplete(Draft, before, after, path, acc, rel);
    }
  }

  /** For example, the draft reports a key the new object lacks as deleted,
      with a nil new value. */
  lemma DraftReportsDeletedKey()
    ensures Change([Key("a")], Val(Null), Val(Null))
         in Walk(Draft, Obj(map["a" := Null]), Obj(map[]), [], NoChanges).deleted
  {
    var before, after := Obj(map["a" := Null]), Obj(map[]);
    AtCons(before, Key("a"), []);
    AtCons(after, Key("a"), []);
    DeletedStep(before, after, Key("a"));
    SeesStep(before, after, Key("a"));
    DraftIsExact(before, after, [], NoChanges);
    assert [] + [Key("a")] == [Key("a")];
  }

  /** The draft never reports a changed string, bool, number or null, nor
      anything about an array that kept its length or grew. */
  lemma DraftSilent(before: Json, after: Json, path: seq<Seg>, acc: Changes)
    requires || (!before.Obj? && !before.Arr?)
             || (before.Arr? && after.Arr? && |before.items| <= |after.items|)
    ensures Walk(Draft, before, after, path, acc) == acc
  {
  }

  /** So the draft misses differences the revised version reports: a changed
      string, and a changed element of an array of unchanged length. */
  lemma DraftMisses()
    ensures Walk(Draft, Str("a"), Str("b"), [], NoChanges) == NoChanges
    ensures Walk(Revised, Str("a"), Str("b"), [], NoChanges) != NoChanges
    ensures Walk(Draft, Arr([Num(1.0)]), Arr([Num(2.0)]), [], NoChanges) == NoChanges
    ensures Walk(Revised, Arr([Num(1.0)]), Arr([Num(2.0)]), [], NoChanges) != NoChanges
  {
    NoChangesIffEqual(Str("a"), Str("b"), [], NoChanges);
    NoChangesIffEqual(Arr([Num(1.0)]), Arr([Num(2.0)]), [], NoChanges);
    DraftSilent(Arr([Num(1.0)]), Arr([Num(2.0)]), [], NoChanges);
  }

  /** Distinct entries, one string: the revised walk deletes both `"a.b"`
      (a key with a dot) and `"b"` inside `"a"`, two different entries, yet
      the path string Go keeps is `"a.b"` for both, so Go's `deleted` list
      holds two equal values. */
  lemma GoPathsCollide()
    ensures var before := Obj(map["a.b" := Num(1.0), "a" := Obj(map["b" := Num(1.0)])]);
            var after := Obj(map["a" := Obj(map[])]);
            var dotted := Change([Key("a.b")], Val(Num(1.0)), Val(Null));
            var nested := Change([Key("a"), Key("b")], Val(Num(1.0)), Val(Null));
            && dotted in Walk(Revised, before, after, [], NoChanges).deleted
            && nested in Walk(Revised, before, after, [], NoChanges).deleted
            && dotted != nested
            && dotted.PathString() == nested.PathString()
  {
    var before := Obj(map["a.b" := Num(1.0), "a" := Obj(map["b" := Num(1.0)])]);
    var after := Obj(map["a" := Obj(map[])]);
    CollideDotted(before, after);
    CollideNested(before, after);
    DeletionReported(before, after, [Key("a.b")], Num(1.0));
    DeletionReported(before, after, [Key("a"), Key("b")], Num(1.0));
    PathTextAmbiguous();
  }

  /** An expected deletion is in the revised walk's `deleted` list. */
  lemma DeletionReported(before: Json, after: Json, rel: seq<Seg>, x: Json)
    requires Expected(before, after, rel) == Some(Entry(Deleted, Val(x), Val(Null)))
    ensures Change(rel, Val(x), Val(Null)) in Walk(Revised, before, after, [], NoChanges).deleted
  {
    RevisedIsExact(before, after, [], NoChanges);
    assert [] + rel == rel;
  }

  lemma CollideDotted(before: Json, after: Json)
    requires before == Obj(map["a.b" := Num(1.0), "a" := Obj(map["b" := Num(1.0)])])
    requires after == Obj(map["a" := Obj(map[])])
    ensures Expected(before, after, [Key("a.b")]) == Some(Entry(Deleted, Val(Num(1.0)), Val(Null)))
  {
    AtCons(before, Key("a.b"), []);
    AtCons(after, Key("a.b"), []);
    DeletedStep(before, after, Key("a.b"));
  }

  lemma CollideNested(before: Json, after: Json)
    requires before == Obj(map["a.b" := Num(1.0), "a" := Obj(map["b" := Num(1.0)])])
    requires after == Obj(map["a" := Obj(map[])])
    ensures Expected(before, after, [Key("a"), Key("b")]) == Some(Entry(Deleted, Val(Num(1.0)), Val(Null)))
  {
    var rel := [Key("a"), Key("b")];
    var inner, innerAfter := Obj(map["b" := Num(1.0)]), Obj(map[]);
    AtCons(before, Key("a"), []);
    AtCons(after, Key("a"), []);
    AtCons(before, Key("a"), [Key("b")]);
    AtCons(after, Key("a"), [Key("b")]);
    AtCons(inner, Key("b"), []);
    AtCons(innerAfter, Key("b"), []);
    assert [Key("a")] + [Key("b")] == rel;
    assert rel[..|rel| - 1] == [Key("a")];
  }
}
