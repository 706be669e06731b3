/**
 * The package-pruning part of `finalize`: the parsed `package.json` loses its
 * `postinstall` script, and its `devDependencies` is replaced by lodash's
 * `omit` of the setup-only packages.
 */
module Manifest {
  import opened Wrappers

  /**
   * A parsed JSON value. Objects are maps, so key order and duplicate keys
   * are not represented; numbers are kept as mathematical reals.
   */
  datatype Json =
    | Null
    | Bool(b: bool)
    | Number(value: real)
    | String(s: string)
    | Array(items: seq<Json>)
    | Object(fields: map<string, Json>)

  /** The development packages only the bootstrap script needs, removed by `finalize`. */
  const RmDevPackages: seq<string> :=
    ["colors", "shelljs", "replace-in-file", "prompt", "lodash.omit", "rimraf"]

  predicate IsDigitChar(c: char) { '0' <= c <= '9' }

  /** A property key JavaScript gives an array index: digits only. */
  predicate IsIndexKey(k: string) {
    k != [] && forall i :: 0 <= i < |k| ==> IsDigitChar(k[i])
  }

  function DigitChar(d: nat): (c: char)
    requires d < 10
    ensures IsDigitChar(c)
  {
    ('0' as int + d) as char
  }

  /** The decimal notation of `n`, as JavaScript writes an index key. */
  function Decimal(n: nat): (r: string)
    ensures IsIndexKey(r)
    decreases n
  {
    if n < 10 then [DigitChar(n)] else Decimal(n / 10) + [DigitChar(n % 10)]
  }

  /** Indices are written in plain decimal, as JavaScript writes array keys. */
  lemma DecimalExample()
    ensures Decimal(0) == "0" && Decimal(7) == "7" && Decimal(42) == "42" && Decimal(305) == "305"
  {
    assert Decimal(4) == "4" && Decimal(30) == "30";
  }

  /** Different indices are written differently. */
  lemma {:induction false} DecimalInjective(a: nat, b: nat)
    requires Decimal(a) == Decimal(b)
    ensures a == b
    decreases a
  {
    if a >= 10 && b >= 10 {
      var da, db := Decimal(a), Decimal(b);
      assert da[|da| - 1] == DigitChar(a % 10) && db[|db| - 1] == DigitChar(b % 10);
      assert Decimal(a / 10) == da[..|da| - 1] == db[..|db| - 1] == Decimal(b / 10);
      DecimalInjective(a / 10, b / 10);
    }
  }

  /** Every key of `m` is the index key of a position below `len`. */
  predicate KeysAreIndices(m: map<string, Json>, len: nat) {
    forall k :: k in m ==> exists i :: 0 <= i < len && k == Decimal(i)
  }

  /**
   * An array-like value seen as an object: element `i` sits under the key
   * `Decimal(i)`, and there is no other key.
   */
  function IndexKeyed(xs: seq<Json>): (m: map<string, Json>)
    ensures KeysAreIndices(m, |xs|)
    ensures forall i :: 0 <= i < |xs| ==> Decimal(i) in m && m[Decimal(i)] == xs[i]
    ensures forall k :: k in m ==> IsIndexKey(k)
    decreases |xs|
  {
    if xs == [] then map[]
    else
      var n := |xs| - 1;
      var m := IndexKeyed(xs[..n]);
      var r := m[Decimal(n) := xs[n]];
      assert KeysAreIndices(r, |xs|) by {
        forall k | k in r
          ensures exists i :: 0 <= i < |xs| && k == Decimal(i)
        {
          if k != Decimal(n) {
            var i :| 0 <= i < n && k == Decimal(i);
            assert 0 <= i < |xs|;
          }
        }
      }
      assert forall i :: 0 <= i < |xs| ==> Decimal(i) in r && r[Decimal(i)] == xs[i] by {
        forall i | 0 <= i < |xs|
          ensures Decimal(i) in r && r[Decimal(i)] == xs[i]
        {
          if i < n {
            if Decimal(i) == Decimal(n) {
              DecimalInjective(i, n);
            }
            assert xs[..n][i] == xs[i];
          }
        }
      }
      r
  }

  /**
   * The enumerable keys lodash's `omit` copies from its first argument:
   * nothing from `undefined`, `null`, a boolean or a number, the members of
   * an object, and the indexed elements of an array or the characters of a
   * string.
   */
  function Enumerable(v: Option<Json>): (m: map<string, Json>)
    ensures v.Some? && v.value.Object? ==> m == v.value.fields
    ensures !(v.Some? && v.value.Object?) ==> forall k :: k in m ==> IsIndexKey(k)
    ensures v.None? || v.value.Null? || v.value.Bool? || v.value.Number? ==> m == map[]
  {
    match v
    case None => map[]
    case Some(Object(fields)) => fields
    case Some(Array(items)) => IndexKeyed(items)
    case Some(String(s)) => IndexKeyed(seq(|s|, i requires 0 <= i < |s| => String([s[i]])))
    case Some(_) => map[]
  }

  /** `m` without the given keys, taken off one at a time. */
  function Without(m: map<string, Json>, keys: seq<string>): (r: map<string, Json>)
    ensures forall k :: k in r <==> k in m && k !in keys
    ensures forall k :: k in r ==> r[k] == m[k]
    decreases |keys|
  {
    if keys == [] then m
    else
      var n := |keys| - 1;
      var r := Without(m, keys[..n]) - {keys[n]};
      assert forall k :: k in keys <==> k in keys[..n] || k == keys[n];
      r
  }

  /** lodash's `omit(value, keys)`: a fresh object of the enumerable entries whose keys are not listed. */
  function Omit(v: Option<Json>, keys: seq<string>): (r: map<string, Json>)
    ensures forall k :: k in r <==> k in Enumerable(v) && k !in keys
    ensures forall k :: k in r ==> r[k] == Enumerable(v)[k]
  {
    Without(Enumerable(v), keys)
  }

  /** A member of an object, or `undefined`. */
  function Member(fields: map<string, Json>, key: string): Option<Json> {
    if key in fields then Some(fields[key]) else None
  }

  /**
   * The two statements of `finalize` that edit the manifest: deleting
   * `pkg.scripts.postinstall` (a no-op when `scripts` is not an object, a
   * `TypeError` when `pkg` has no `scripts` or it is `null`, or when `pkg` is
   * not an object at all), then assigning the `omit` of `devDependencies`.
   * `None` is the error.
   */
  function Prune(pkg: Json): (r: Option<Json>)
    ensures r.Some? <==>
      pkg.Object? && "scripts" in pkg.fields && !pkg.fields["scripts"].Null?
    ensures r.Some? ==> r.value.Object? && "devDependencies" in r.value.fields
  {
    if !pkg.Object? || "scripts" !in pkg.fields || pkg.fields["scripts"].Null? then None
    else
      var scripts := pkg.fields["scripts"];
      var kept := if scripts.Object? then Object(scripts.fields - {"postinstall"}) else scripts;
      var dev := Object(Omit(Member(pkg.fields, "devDependencies"), RmDevPackages));
      Some(Object(pkg.fields["scripts" := kept]["devDependencies" := dev]))
  }

  /** Pruning keeps every script except `postinstall`, and leaves a non-object `scripts` alone. */
  lemma PruneScripts(pkg: Json)
    requires Prune(pkg).Some?
    ensures var before := pkg.fields["scripts"];
      var after := Prune(pkg).value.fields["scripts"];
      && (before.Object? ==>
            && after.Object?
            && "postinstall" !in after.fields
            && forall k :: k != "postinstall" ==>
                 Member(after.fields, k) == Member(before.fields, k))
      && (!before.Object? ==> after == before)
  {
  }

  /**
   * Afterwards `devDependencies` is always an object holding no setup-only
   * package; when it was an object its keys are the old ones minus those
   * packages, absent ones ignored, with every value unchanged.
   */
  lemma PruneDevDependencies(pkg: Json)
    requires Prune(pkg).Some?
    ensures var after := Prune(pkg).value.fields["devDependencies"];
      && after.Object?
      && (forall k :: k in RmDevPackages ==> k !in after.fields)
      && (Member(pkg.fields, "devDependencies").Some? &&
          pkg.fields["devDependencies"].Object? ==>
            var before := pkg.fields["devDependencies"].fields;
            && after.fields.Keys == before.Keys - set k | k in RmDevPackages
            && forall k :: k in after.fields ==> after.fields[k] == before[k])
      && ("devDependencies" !in pkg.fields ==> after == Object(map[]))
  {
    var after := Prune(pkg).value.fields["devDependencies"];
    assert after == Object(Omit(Member(pkg.fields, "devDependencies"), RmDevPackages));
  }

  /** Every top-level entry other than `scripts` and `devDependencies` is kept as it was. */
  lemma PruneKeepsOtherEntries(pkg: Json)
    requires Prune(pkg).Some?
    ensures Prune(pkg).value.fields.Keys == pkg.fields.Keys + {"devDependencies"}
    ensures forall k :: k in pkg.fields && k != "scripts" && k != "devDependencies" ==>
      Prune(pkg).value.fields[k] == pkg.fields[k]
  {
  }

  /** A setup-only package name is never an index key, so `omit` never drops an array or string element. */
  lemma RmDevPackagesAreNotIndexKeys()
    ensures forall k :: k in RmDevPackages ==> !IsIndexKey(k)
  {
    forall k | k in RmDevPackages
      ensures !IsIndexKey(k)
    {
      assert !IsDigitChar(k[0]);
    }
  }

  /**
   * A `devDependencies` that is an array or a string becomes the object of its
   * elements under index keys, nothing dropped.
   */
  lemma PruneIndexesArrayLike(pkg: Json)
    requires Prune(pkg).Some?
    requires "devDependencies" in pkg.fields
    requires pkg.fields["devDependencies"].Array? || pkg.fields["devDependencies"].String?
    ensures Prune(pkg).value.fields["devDependencies"] ==
      Object(Enumerable(Some(pkg.fields["devDependencies"])))
  {
    var e := Enumerable(Some(pkg.fields["devDependencies"]));
    var after := Prune(pkg).value.fields["devDependencies"];
    RmDevPackagesAreNotIndexKeys();
    assert after.fields == e;
  }

  /** Pruning a pruned manifest changes nothing more. */
  lemma PruneIdempotent(pkg: Json)
    requires Prune(pkg).Some?
    ensures Prune(Prune(pkg).value) == Prune(pkg)
  {
    var p := Prune(pkg).value;
    var dev := p.fields["devDependencies"];
    assert Omit(Member(p.fields, "devDependencies"), RmDevPackages) == dev.fields;
    var scripts := p.fields["scripts"];
    if scripts.Object? {
      assert scripts.fields - {"postinstall"} == scripts.fields;
    }
    assert p.fields["scripts" := scripts]["devDependencies" := dev] == p.fields;
  }

  /** Of two entries, the listed one goes and the other stays. */
  lemma WithoutOfPair(a: string, va: Json, b: string, vb: Json, keys: seq<string>)
    requires a in keys && b !in keys
    ensures Without(map[a := va, b := vb], keys) == map[b := vb]
  {
    var r := Without(map[a := va, b := vb], keys);
    assert r.Keys == {b};
  }

  /** `webpack` is not a helper package. */
  lemma WebpackIsKept()
    ensures "webpack" !in RmDevPackages
  {
    forall k | k in RmDevPackages
      ensures k != "webpack"
    {
      assert k[0] != 'w';
    }
  }

  /** The helper packages leave a typical `devDependencies`; other packages stay. */
  lemma OmitExample()
    ensures Without(map["colors" := String("1"), "webpack" := String("3")], RmDevPackages)
      == map["webpack" := String("3")]
  {
    assert RmDevPackages[0] == "colors";
    WebpackIsKept();
    WithoutOfPair("colors", String("1"), "webpack", String("3"), RmDevPackages);
  }

  /** A typical template manifest: the hook and the helper packages go, everything else stays. */
  lemma PruneExample()
    ensures var pkg := Object(map[
        "name" := String("my-chart"),
        "scripts" := Object(map["postinstall" := Null, "start" := Null]),
        "devDependencies" := Object(map["colors" := String("1"), "webpack" := String("3")])]);
      Prune(pkg) == Some(Object(map[
        "name" := String("my-chart"),
        "scripts" := Object(map["start" := Null]),
        "devDependencies" := Object(map["webpack" := String("3")])]))
  {
    var fields := map[
      "name" := String("my-chart"),
      "scripts" := Object(map["postinstall" := Null, "start" := Null]),
      "devDependencies" := Object(map["colors" := String("1"), "webpack" := String("3")])];
    OmitExample();
    assert Omit(Member(fields, "devDependencies"), RmDevPackages) == map["webpack" := String("3")];
    assert map["postinstall" := Null, "start" := Null] - {"postinstall"} == map["start" := Null];
    var kept := Object(map["start" := Null]);
    var dev := Object(map["webpack" := String("3")]);
    assert Prune(Object(fields)) == Some(Object(fields["scripts" := kept]["devDependencies" := dev]));
    assert fields["scripts" := kept]["devDependencies" := dev] == map[
      "name" := String("my-chart"),
      "scripts" := kept,
      "devDependencies" := dev];
  }

  /** Without a `scripts` member the delete statement throws, whatever else the manifest holds. */
  lemma PruneNeedsScripts(fields: map<string, Json>)
    requires "scripts" !in fields
    ensures Prune(Object(fields)) == None
  {
  }
}
