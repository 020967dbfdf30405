/** The enumeration of test units from package metadata, and their ids
    (scripts/ci_test_shard.py). */
module ShardUnits {
  import opened Text
  import opened ShardAudit
  import opened ShardRuns

  /** A build target; an absent flag reads as its default. */
  datatype Target = Target(kinds: set<string>, name: string, test: Option<bool>, doctest: Option<bool>)

  datatype Package = Package(name: string, targets: seq<Target>)

  datatype Kind = Lib | Bin | Test | Example | Doc | Examples

  /** `name` is absent for the two package-wide kinds. */
  datatype Unit = Unit(package: string, kind: Kind, name: Option<string>)

  predicate Flag(flag: Option<bool>, default: bool) { if flag.Some? then flag.value else default }

  /** Does the target give rise to a unit of this kind? */
  predicate Yields(t: Target, kind: Kind) {
    match kind
    case Lib => ("lib" in t.kinds || "proc-macro" in t.kinds) && Flag(t.test, true)
    case Bin => "bin" in t.kinds && Flag(t.test, true)
    case Test => "test" in t.kinds && Flag(t.test, true)
    case Example => "example" in t.kinds && Flag(t.test, false)
    case Doc => Flag(t.doctest, false)
    case Examples => "example" in t.kinds
  }

  predicate PerTarget(kind: Kind) { kind != Doc && kind != Examples }

  function One(package: string, t: Target, kind: Kind): seq<Unit> {
    if Yields(t, kind) then [Unit(package, kind, Some(t.name))] else []
  }

  function TargetUnits(package: string, t: Target): seq<Unit> {
    One(package, t, Lib) + One(package, t, Bin) + One(package, t, Test) + One(package, t, Example)
  }

  function AllTargetUnits(package: string, ts: seq<Target>): seq<Unit> {
    if ts == [] then []
    else AllTargetUnits(package, ts[..|ts| - 1]) + TargetUnits(package, ts[|ts| - 1])
  }

  predicate AnyYields(ts: seq<Target>, kind: Kind) { exists k | 0 <= k < |ts| :: Yields(ts[k], kind) }

  function PackageUnits(p: Package): seq<Unit> {
    AllTargetUnits(p.name, p.targets)
    + (if AnyYields(p.targets, Doc) then [Unit(p.name, Doc, None)] else [])
    + (if AnyYields(p.targets, Examples) then [Unit(p.name, Examples, None)] else [])
  }

  function UnitsOf(packages: seq<Package>): seq<Unit> {
    if packages == [] then []
    else UnitsOf(packages[..|packages| - 1]) + PackageUnits(packages[|packages| - 1])
  }

  /** The loop over the metadata, and the final sort by id. */
  method EnumerateUnits(packages: seq<Package>) returns (units: seq<Unit>)
    ensures multiset(units) == multiset(UnitsOf(packages))
    ensures forall i, j | 0 <= i < j < |units| :: NotBehind(IdOf(units[i]), IdOf(units[j]))
  {
    var found: seq<Unit> := [];
    for k := 0 to |packages|
      invariant found == UnitsOf(packages[..k])
    {
      var more := EnumeratePackage(packages[k]);
      assert packages[..k + 1][..k] == packages[..k];
      found := found + more;
    }
    assert packages[..|packages|] == packages;
    SortIsPermutation(found);
    SortIsSorted(found);
    units := SortById(found);
    InOrderIff(units);
  }

  lemma AnyYieldsSnoc(ts: seq<Target>, k: nat, kind: Kind)
    requires k < |ts|
    ensures AnyYields(ts[..k + 1], kind) <==> AnyYields(ts[..k], kind) || Yields(ts[k], kind)
  {
    assert forall i | 0 <= i < k :: ts[..k + 1][i] == ts[..k][i];
    assert ts[..k + 1][k] == ts[k];
  }

  method EnumeratePackage(p: Package) returns (units: seq<Unit>)
    ensures units == PackageUnits(p)
  {
    units := [];
    var hasExamples, hasDoctests := false, false;
    for k := 0 to |p.targets|
      invariant units == AllTargetUnits(p.name, p.targets[..k])
      invariant hasExamples <==> AnyYields(p.targets[..k], Examples)
      invariant hasDoctests <==> AnyYields(p.targets[..k], Doc)
    {
      var t := p.targets[k];
      assert p.targets[..k + 1][..k] == p.targets[..k];
      AnyYieldsSnoc(p.targets, k, Doc);
      AnyYieldsSnoc(p.targets, k, Examples);
      units := units + TargetUnits(p.name, t);
      hasExamples := hasExamples || "example" in t.kinds;
      hasDoctests := hasDoctests || Flag(t.doctest, false);
    }
    assert p.targets[..|p.targets|] == p.targets;
    if hasDoctests {
      units := units + [Unit(p.name, Doc, None)];
    }
    if hasExamples {
      units := units + [Unit(p.name, Examples, None)];
    }
  }

  // ----- exactly which units there are

  lemma OneTargetsUnits(package: string, t: Target, u: Unit)
    ensures u in TargetUnits(package, t)
            <==> u.package == package && PerTarget(u.kind) && Yields(t, u.kind) && u.name == Some(t.name)
  {
  }

  lemma {:induction false} TargetUnitsAre(package: string, ts: seq<Target>, u: Unit)
    ensures u in AllTargetUnits(package, ts)
            <==> u.package == package && PerTarget(u.kind)
                 && exists k :: 0 <= k < |ts| && Yields(ts[k], u.kind) && u.name == Some(ts[k].name)
  {
    if ts != [] {
      var front, last := ts[..|ts| - 1], ts[|ts| - 1];
      TargetUnitsAre(package, front, u);
      OneTargetsUnits(package, last, u);
      assert forall k | 0 <= k < |front| :: front[k] == ts[k];
    }
  }

  /** Does the package give rise to the unit? */
  predicate Arises(p: Package, u: Unit) {
    && p.name == u.package
    && if PerTarget(u.kind)
       then exists k :: 0 <= k < |p.targets| && Yields(p.targets[k], u.kind) && u.name == Some(p.targets[k].name)
       else u.name == None && AnyYields(p.targets, u.kind)
  }

  lemma PackageUnitsAre(p: Package, u: Unit)
    ensures u in PackageUnits(p) <==> Arises(p, u)
  {
    TargetUnitsAre(p.name, p.targets, u);
  }

  /** Does some package give rise to the unit? */
  predicate SomeArises(packages: seq<Package>, u: Unit) {
    exists i | 0 <= i < |packages| :: Arises(packages[i], u)
  }

  /** A unit is enumerated exactly when some package has a target that yields it. */
  lemma {:induction false} UnitsAre(packages: seq<Package>, u: Unit)
    ensures u in UnitsOf(packages) <==> SomeArises(packages, u)
  {
    if packages != [] {
      var front, last := packages[..|packages| - 1], packages[|packages| - 1];
      UnitsAre(front, u);
      UnitsSnoc(front, last, u);
      SomeSnoc(front, last, u);
      assert packages == front + [last];
    }
  }

  lemma UnitsSnoc(front: seq<Package>, last: Package, u: Unit)
    ensures u in UnitsOf(front + [last]) <==> u in UnitsOf(front) || Arises(last, u)
  {
    assert (front + [last])[..|front|] == front;
    PackageUnitsAre(last, u);
  }

  lemma SomeSnoc(front: seq<Package>, last: Package, u: Unit)
    ensures SomeArises(front + [last], u) <==> SomeArises(front, u) || Arises(last, u)
  {
    var all := front + [last];
    assert forall i | 0 <= i < |front| :: all[i] == front[i];
    assert all[|front|] == last;
  }

  // ----- the same, flag by flag

  /** Libraries, binaries and tests count unless their `test` is off, examples where it is on;
      doc tests where `doctest` is on; and any example for the examples as a whole. */
  predicate GivesUnit(t: Target, kind: Kind) {
    match kind
    case Lib => ("lib" in t.kinds || "proc-macro" in t.kinds) && t.test != Some(false)
    case Bin => "bin" in t.kinds && t.test != Some(false)
    case Test => "test" in t.kinds && t.test != Some(false)
    case Example => "example" in t.kinds && t.test == Some(true)
    case Doc => t.doctest == Some(true)
    case Examples => "example" in t.kinds
  }

  lemma GivesUnitIff(t: Target, kind: Kind)
    ensures GivesUnit(t, kind) <==> Yields(t, kind)
  {
  }

  /** The unit of a package: named after a target that counts, or nameless for its doc tests and
      for its examples as a whole. */
  predicate HasUnit(p: Package, kind: Kind, name: Option<string>) {
    exists k | 0 <= k < |p.targets| ::
      GivesUnit(p.targets[k], kind) && name == if kind.Doc? || kind.Examples? then None else Some(p.targets[k].name)
  }

  lemma HasUnitIff(p: Package, u: Unit)
    requires p.name == u.package
    ensures HasUnit(p, u.kind, u.name) <==> Arises(p, u)
  {
    forall k | 0 <= k < |p.targets|
      ensures GivesUnit(p.targets[k], u.kind) <==> Yields(p.targets[k], u.kind)
    {
      GivesUnitIff(p.targets[k], u.kind);
    }
  }

  /** A unit is enumerated exactly when some package of that name has it. */
  lemma UnitsByFlags(packages: seq<Package>, u: Unit)
    ensures u in UnitsOf(packages)
            <==> exists i | 0 <= i < |packages| :: packages[i].name == u.package && HasUnit(packages[i], u.kind, u.name)
  {
    UnitsAre(packages, u);
    forall i | 0 <= i < |packages|
      ensures Arises(packages[i], u) <==> packages[i].name == u.package && HasUnit(packages[i], u.kind, u.name)
    {
      if packages[i].name == u.package {
        HasUnitIff(packages[i], u);
      }
    }
  }

  // ----- ids

  function KindText(kind: Kind): (s: string)
    ensures ':' !in s && '#' !in s
  {
    match kind
    case Lib => "lib"
    case Bin => "bin"
    case Test => "test"
    case Example => "example"
    case Doc => "doc"
    case Examples => "examples"
  }

  predicate Named(u: Unit) { u.name.Some? <==> PerTarget(u.kind) }

  /** An absent name would be spelled `None`; no enumerated unit is without the name it needs. */
  function NameText(name: Option<string>): string { if name.Some? then name.value else "None" }

  function IdOf(u: Unit): UnitId {
    if PerTarget(u.kind) then u.package + ['#'] + (KindText(u.kind) + [':'] + NameText(u.name))
    else u.package + ['#'] + KindText(u.kind)
  }

  /** How the ids are spelled. */
  lemma IdsSpelled(package: string, name: string)
    ensures IdOf(Unit(package, Lib, Some(name))) == package + "#" + ("lib" + ":" + name)
    ensures IdOf(Unit(package, Bin, Some(name))) == package + "#" + ("bin" + ":" + name)
    ensures IdOf(Unit(package, Test, Some(name))) == package + "#" + ("test" + ":" + name)
    ensures IdOf(Unit(package, Example, Some(name))) == package + "#" + ("example" + ":" + name)
    ensures IdOf(Unit(package, Doc, None)) == package + "#" + "doc"
    ensures IdOf(Unit(package, Examples, None)) == package + "#" + "examples"
  {
  }

  lemma KindTextInjective(a: Kind, b: Kind)
    requires KindText(a) == KindText(b)
    ensures a == b
  {
    assert KindText(a)[0] == KindText(b)[0];
  }

  /** Ids tell units apart, as long as no package name has a `#`. */
  lemma IdIsInjective(u: Unit, v: Unit)
    requires Named(u) && Named(v) && '#' !in u.package && '#' !in v.package
    ensures IdOf(u) == IdOf(v) <==> u == v
  {
    if IdOf(u) == IdOf(v) {
      var x := if PerTarget(u.kind) then KindText(u.kind) + [':'] + u.name.value else KindText(u.kind);
      var y := if PerTarget(v.kind) then KindText(v.kind) + [':'] + v.name.value else KindText(v.kind);
      CutIsUnique(u.package, x, v.package, y, '#');
      assert ':' in x <==> PerTarget(u.kind) by {
        if PerTarget(u.kind) {
          assert x[|KindText(u.kind)|] == ':';
        }
      }
      assert ':' in y <==> PerTarget(v.kind) by {
        if PerTarget(v.kind) {
          assert y[|KindText(v.kind)|] == ':';
        }
      }
      if PerTarget(u.kind) {
        CutIsUnique(KindText(u.kind), u.name.value, KindText(v.kind), v.name.value, ':');
      }
      KindTextInjective(u.kind, v.kind);
    }
  }

  // ----- sorting by id

  /** Python's order on strings: by the first character that differs, prefixes first. */
  predicate AtMost(a: string, b: string) {
    a == "" || (b != "" && (a[0] < b[0] || (a[0] == b[0] && AtMost(a[1..], b[1..]))))
  }

  lemma {:induction false} AtMostIsTotal(a: string, b: string)
    ensures AtMost(a, b) || AtMost(b, a)
  {
    if a != "" && b != "" && a[0] == b[0] {
      AtMostIsTotal(a[1..], b[1..]);
    }
  }

  lemma {:induction false} AtMostIsTransitive(a: string, b: string, c: string)
    requires AtMost(a, b) && AtMost(b, c)
    ensures AtMost(a, c)
  {
    if a != "" && a[0] == b[0] == c[0] {
      AtMostIsTransitive(a[1..], b[1..], c[1..]);
    }
  }

  /** `a` is not behind `b`: it is a beginning of `b`, or smaller where they first differ. */
  predicate NotBehind(a: string, b: string) { a <= b || exists k | 0 <= k < |a| :: SmallerAt(a, b, k) }

  predicate SmallerAt(a: string, b: string, k: nat) {
    k < |a| && k < |b| && a[..k] == b[..k] && (a[k] as int) < (b[k] as int)
  }

  lemma SmallerBehind(c: char, x: string, y: string, k: nat)
    ensures SmallerAt([c] + x, [c] + y, k + 1) <==> SmallerAt(x, y, k)
  {
    var a, b := [c] + x, [c] + y;
    if k <= |x| && k <= |y| {
      assert a[..k + 1] == [c] + x[..k] && b[..k + 1] == [c] + y[..k];
      assert a[..k + 1][1..] == x[..k] && b[..k + 1][1..] == y[..k];
    }
  }

  lemma SameHead(c: char, x: string, y: string)
    ensures NotBehind([c] + x, [c] + y) <==> NotBehind(x, y)
  {
    var a, b := [c] + x, [c] + y;
    assert a <= b <==> x <= y by {
      assert a[1..] == x && b[1..] == y;
    }
    if k :| 0 <= k < |a| && SmallerAt(a, b, k) {
      SmallerBehind(c, x, y, k - 1);
    }
    if k :| 0 <= k < |x| && SmallerAt(x, y, k) {
      SmallerBehind(c, x, y, k);
    }
  }

  lemma OtherHead(a: string, b: string)
    requires a != "" && b != "" && a[0] != b[0]
    ensures NotBehind(a, b) <==> a[0] < b[0]
  {
    assert SmallerAt(a, b, 0) <==> a[0] < b[0];
    forall k | 0 < k < |a|
      ensures !SmallerAt(a, b, k)
    {
      if k < |b| {
        assert a[..k][0] != b[..k][0];
      }
    }
  }

  lemma {:induction false} AtMostIff(a: string, b: string)
    ensures AtMost(a, b) <==> NotBehind(a, b)
  {
    if a != "" && b != "" {
      if a[0] == b[0] {
        AtMostIff(a[1..], b[1..]);
        SameHead(a[0], a[1..], b[1..]);
        assert a == [a[0]] + a[1..] && b == [b[0]] + b[1..];
      } else {
        OtherHead(a, b);
      }
    }
  }

  lemma InOrderIff(units: seq<Unit>)
    ensures InIdOrder(units) <==> forall i, j | 0 <= i < j < |units| :: NotBehind(IdOf(units[i]), IdOf(units[j]))
  {
    forall i, j | 0 <= i < j < |units|
      ensures AtMost(IdOf(units[i]), IdOf(units[j])) <==> NotBehind(IdOf(units[i]), IdOf(units[j]))
    {
      AtMostIff(IdOf(units[i]), IdOf(units[j]));
    }
  }

  predicate InIdOrder(units: seq<Unit>) {
    forall i, j | 0 <= i < j < |units| :: AtMost(IdOf(units[i]), IdOf(units[j]))
  }

  /** Behind all units whose id is not greater. */
  function Insert(u: Unit, units: seq<Unit>): seq<Unit> {
    if units == [] || AtMost(IdOf(units[|units| - 1]), IdOf(u)) then units + [u]
    else Insert(u, units[..|units| - 1]) + [units[|units| - 1]]
  }

  function SortById(units: seq<Unit>): seq<Unit> {
    if units == [] then [] else Insert(units[|units| - 1], SortById(units[..|units| - 1]))
  }

  lemma MultisetSnoc(units: seq<Unit>)
    requires units != []
    ensures multiset(units) == multiset(units[..|units| - 1]) + multiset{units[|units| - 1]}
  {
    assert units == units[..|units| - 1] + [units[|units| - 1]];
  }

  lemma {:induction false} InsertIsPermutation(u: Unit, units: seq<Unit>)
    ensures multiset(Insert(u, units)) == multiset(units) + multiset{u}
  {
    var inserted := Insert(u, units);
    MultisetSnoc(inserted);
    if units == [] || AtMost(IdOf(units[|units| - 1]), IdOf(u)) {
      assert inserted[..|inserted| - 1] == units;
    } else {
      var front := units[..|units| - 1];
      InsertIsPermutation(u, front);
      MultisetSnoc(units);
      assert inserted[..|inserted| - 1] == Insert(u, front);
    }
  }

  lemma {:induction false} SortIsPermutation(units: seq<Unit>)
    ensures multiset(SortById(units)) == multiset(units)
  {
    if units != [] {
      var front, last := units[..|units| - 1], units[|units| - 1];
      SortIsPermutation(front);
      InsertIsPermutation(last, SortById(front));
      MultisetSnoc(units);
    }
  }

  lemma InOrderSnoc(units: seq<Unit>, last: Unit)
    requires InIdOrder(units)
    requires forall k | 0 <= k < |units| :: AtMost(IdOf(units[k]), IdOf(last))
    ensures InIdOrder(units + [last])
  {
  }

  lemma LastIsGreatest(front: seq<Unit>, last: Unit, u: Unit)
    requires InIdOrder(front + [last]) && AtMost(IdOf(last), IdOf(u))
    ensures InIdOrder(front + [last] + [u])
  {
    var units := front + [last];
    forall k | 0 <= k < |units|
      ensures AtMost(IdOf(units[k]), IdOf(u))
    {
      if k < |front| {
        assert units[|front|] == last;
        AtMostIsTransitive(IdOf(units[k]), IdOf(last), IdOf(u));
      }
    }
    InOrderSnoc(units, u);
  }

  lemma InsertedBefore(u: Unit, front: seq<Unit>, last: Unit)
    requires InIdOrder(front + [last]) && !AtMost(IdOf(last), IdOf(u)) && InIdOrder(Insert(u, front))
    ensures InIdOrder(Insert(u, front) + [last])
  {
    var inserted := Insert(u, front);
    forall k | 0 <= k < |inserted|
      ensures AtMost(IdOf(inserted[k]), IdOf(last))
    {
      AtMostIsTotal(IdOf(last), IdOf(u));
      InsertedFrom(u, front, k);
      assert forall i | 0 <= i < |front| :: (front + [last])[i] == front[i];
      assert (front + [last])[|front|] == last;
    }
    InOrderSnoc(inserted, last);
  }

  lemma {:induction false} InsertKeepsOrder(u: Unit, units: seq<Unit>)
    requires InIdOrder(units)
    ensures InIdOrder(Insert(u, units))
  {
    if units != [] {
      var front, last := units[..|units| - 1], units[|units| - 1];
      assert units == front + [last];
      if AtMost(IdOf(last), IdOf(u)) {
        LastIsGreatest(front, last, u);
      } else {
        InsertKeepsOrder(u, front);
        InsertedBefore(u, front, last);
      }
    }
  }

  /** What is inserted into comes back, but for the inserted unit. */
  lemma {:induction false} InsertedFrom(u: Unit, units: seq<Unit>, k: nat)
    requires k < |Insert(u, units)|
    ensures Insert(u, units)[k] == u || exists i | 0 <= i < |units| :: units[i] == Insert(u, units)[k]
  {
    if units != [] {
      var front, last := units[..|units| - 1], units[|units| - 1];
      if !AtMost(IdOf(last), IdOf(u)) && k < |Insert(u, front)| {
        InsertedFrom(u, front, k);
        if Insert(u, front)[k] != u {
          var i :| 0 <= i < |front| && front[i] == Insert(u, front)[k];
          assert units[i] == Insert(u, units)[k];
        }
      }
    }
  }

  lemma {:induction false} SortIsSorted(units: seq<Unit>)
    ensures InIdOrder(SortById(units))
  {
    if units != [] {
      SortIsSorted(units[..|units| - 1]);
      InsertKeepsOrder(units[|units| - 1], SortById(units[..|units| - 1]));
    }
  }

  // ----- no two units share an id

  /** With a `#` in a package name two units can share an id. */
  lemma HashesCollide(u: Unit, v: Unit)
    requires u == Unit("a", Lib, Some("x#doc")) && v == Unit("a#lib:x", Doc, None)
    ensures Named(u) && Named(v) && u != v && IdOf(u) == IdOf(v)
  {
    assert IdOf(u) == "a#lib:x#doc" && IdOf(v) == "a#lib:x#doc";
  }

  predicate AllNamed(units: seq<Unit>) {
    forall k | 0 <= k < |units| :: Named(units[k]) && '#' !in units[k].package
  }

  function Ids(units: seq<Unit>): (ids: seq<UnitId>)
    requires AllNamed(units)
    ensures |ids| == |units|
    ensures forall k | 0 <= k < |units| :: ids[k] == IdOf(units[k])
  {
    seq(|units|, k requires 0 <= k < |units| => IdOf(units[k]))
  }

  /** The ids repeat exactly when a unit does: what the gate needs of the metadata. */
  lemma IdsRepeatIff(units: seq<Unit>)
    requires AllNamed(units)
    ensures NoRepeats(Ids(units)) <==> forall i, j | 0 <= i < j < |units| :: units[i] != units[j]
  {
    forall i, j | 0 <= i < j < |units|
      ensures Ids(units)[i] == Ids(units)[j] <==> units[i] == units[j]
    {
      IdIsInjective(units[i], units[j]);
    }
  }

  /** The enumeration meets those requirements when no package name has a `#`. */
  lemma {:induction false} UnitsAreNamed(packages: seq<Package>)
    requires forall i | 0 <= i < |packages| :: '#' !in packages[i].name
    ensures AllNamed(UnitsOf(packages))
  {
    var units := UnitsOf(packages);
    forall k | 0 <= k < |units|
      ensures Named(units[k]) && '#' !in units[k].package
    {
      UnitsAre(packages, units[k]);
    }
  }
}
