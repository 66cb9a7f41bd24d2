/** Decoded JSON values, as `json.Unmarshal` into `any` produces them, and the
    locations inside them that the diff reports. */
module Json {
  import opened Wrappers

  /** One decoded JSON value. Objects are Go's `map[string]any`, arrays are
      `[]any`, numbers are `float64` (finite, compared only for equality, so a
      real number stands for each), and `null` is Go's nil interface.
      Dafny's `==` on this type is `reflect.DeepEqual` on decoded values. */
  datatype Json =
    | Null
    | Bool(b: bool)
    | Num(n: real)
    | Str(s: string)
    | Arr(items: seq<Json>)
    | Obj(fields: map<string, Json>)

  /** One step of a path: an object key, or an array index. */
  datatype Seg = Key(key: string) | Index(index: nat)

  /** The value found by following `rel` from `v`, if every step exists. */
  function At(v: Json, rel: seq<Seg>): Option<Json>
    decreases rel
  {
    if rel == [] then Some(v)
    else
      match rel[0]
      case Key(k) =>
        if v.Obj? && k in v.fields then At(v.fields[k], rel[1..]) else None
      case Index(i) =>
        if v.Arr? && i < |v.items| then At(v.items[i], rel[1..]) else None
  }

  /** `v` is the kind of container that `s` addresses into. */
  predicate Fits(v: Json, s: Seg) {
    (s.Key? && v.Obj?) || (s.Index? && v.Arr?)
  }

  /** Both objects, or both arrays: the diff compares such values member by member. */
  predicate SameContainer(a: Json, b: Json) {
    (a.Obj? && b.Obj?) || (a.Arr? && b.Arr?)
  }

  /** A non-empty path reaches a value only through containers of the kind its
      first step addresses. */
  lemma AtFits(v: Json, rel: seq<Seg>)
    requires rel != [] && At(v, rel).Some?
    ensures Fits(v, rel[0])
  {
  }

  /** Following a one-step-longer path is one step into the container. */
  lemma AtCons(v: Json, s: Seg, rel: seq<Seg>)
    ensures At(v, [s] + rel) ==
      match s
      case Key(k) => if v.Obj? && k in v.fields then At(v.fields[k], rel) else None
      case Index(i) => if v.Arr? && i < |v.items| then At(v.items[i], rel) else None
  {
    assert ([s] + rel)[0] == s;
    assert ([s] + rel)[1..] == rel;
  }

  // ---------------------------------------------------------------------
  // Rendering a path as the Go code does: strings.Join(path, ".") with
  // each index written by fmt.Sprintf("[%d]", i).
  // ---------------------------------------------------------------------

  /** The decimal digits of `n`, most significant first, as `%d` prints them. */
  function Decimal(n: nat): (r: string)
    ensures |r| >= 1
    ensures forall i | 0 <= i < |r| :: '0' <= r[i] <= '9'
  {
    if n < 10 then [(48 + n) as char]
    else Decimal(n / 10) + [(48 + n % 10) as char]
  }

  /** The number a string of decimal digits denotes. */
  function DecimalValue(s: string): nat
    requires forall i | 0 <= i < |s| :: '0' <= s[i] <= '9'
  {
    if s == [] then 0
    else DecimalValue(s[..|s| - 1]) * 10 + (s[|s| - 1] as int - 48)
  }

  /** Printing an index and reading it back gives the index: distinct indices
      render as distinct path segments. */
  lemma {:induction false} DecimalRoundTrip(n: nat)
    ensures DecimalValue(Decimal(n)) == n
  {
    if n >= 10 {
      var s := Decimal(n);
      assert s[..|s| - 1] == Decimal(n / 10);
      DecimalRoundTrip(n / 10);
    }
  }

  /** The text of one segment inside a Go path string. */
  function SegText(s: Seg): string {
    match s
    case Key(k) => k
    case Index(i) => "[" + Decimal(i) + "]"
  }

  /** strings.Join(parts, sep). */
  function Join(parts: seq<string>, sep: string): string {
    if parts == [] then ""
    else if |parts| == 1 then parts[0]
    else parts[0] + sep + Join(parts[1..], sep)
  }

  /** The `Path` string Go stores in a `Change` for this location. */
  function PathText(path: seq<Seg>): string {
    Join(seq(|path|, i requires 0 <= i < |path| => SegText(path[i])), ".")
  }

  /** Path strings are ambiguous: a key that contains a dot renders exactly
      like two nested keys, so `Change.Path` alone does not identify where a
      change happened. The model therefore keeps the segments. */
  lemma PathTextAmbiguous()
    ensures [Key("a.b")] != [Key("a"), Key("b")]
    ensures PathText([Key("a.b")]) == PathText([Key("a"), Key("b")])
  {
    var one := [Key("a.b")];
    var two := [Key("a"), Key("b")];
    assert one[0] != two[0];
    assert seq(|two|, i requires 0 <= i < |two| => SegText(two[i])) == ["a", "b"];
    assert seq(|one|, i requires 0 <= i < |one| => SegText(one[i])) == ["a.b"];
    assert Join(["a", "b"], ".") == "a" + "." + Join(["b"], ".");
    assert Join(["a", "b"], ".") == "a.b";
  }
}
