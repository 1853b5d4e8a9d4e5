/**
 * The part of the MapIt catalog the importer reads and writes: lookup
 * tables, generations, areas, their name records and their polygons, and
 * the pure decisions the importer takes on them.
 */
module CatalogModel {
  import opened Wrappers

  newtype byte = x: int | 0 <= x < 256

  /** A geometry in some coordinate reference system, kept as opaque bytes. */
  datatype Geometry = Geometry(wkb: seq<byte>)

  /** Areas are looked up by name within an area type. */
  datatype AreaKey = AreaKey(name: string, typeCode: string)

  /** An area; a missing generation bound is `None`. */
  datatype Area = Area(
    name: string,
    typeCode: string,
    countryCode: string,
    generationLow: Option<int>,
    generationHigh: Option<int>)

  /** One row of the name table: the text of one name type for one area. */
  datatype NameRecord = NameRecord(area: AreaKey, nameType: string, text: string)

  /** The stored catalog. */
  datatype Db = Db(
    types: map<string, string>,
    nameTypes: map<string, string>,
    countries: map<string, string>,
    generations: set<int>,
    current: Option<int>,
    areas: map<AreaKey, Area>,
    names: seq<NameRecord>,
    polygons: map<AreaKey, seq<Geometry>>)

  predicate Matches(rec: NameRecord, area: AreaKey, nameType: string) {
    rec.area == area && rec.nameType == nameType
  }

  /** At most one name record per area and name type. */
  ghost predicate UniqueNames(names: seq<NameRecord>) {
    forall i, j :: 0 <= i < j < |names| ==> !Matches(names[j], names[i].area, names[i].nameType)
  }

  /** What the importer relies on and keeps: keys agree with their areas, references resolve. */
  ghost predicate Consistent(db: Db) {
    && (forall k | k in db.areas ::
          && db.areas[k].name == k.name
          && db.areas[k].typeCode == k.typeCode
          && k.typeCode in db.types
          && db.areas[k].countryCode in db.countries)
    && (forall i | 0 <= i < |db.names| ::
          db.names[i].area in db.areas && db.names[i].nameType in db.nameTypes)
    && UniqueNames(db.names)
    && (forall k | k in db.polygons :: k in db.areas)
  }

  /** Every stored area's range of generations is well ordered: start <= end. */
  ghost predicate GenerationsOrdered(db: Db) {
    forall k | k in db.areas && db.areas[k].generationLow.Some? && db.areas[k].generationHigh.Some? ::
      db.areas[k].generationLow.value <= db.areas[k].generationHigh.value
  }

  // ---------------------------------------------------------------------
  // Lookup tables (area types, name types, countries)

  /** Resolve-or-create: a code already present keeps its row; a new one gets the prompted text. */
  function SaveIfMissing(table: map<string, string>, code: string, description: string): (r: map<string, string>)
    ensures code in r
    ensures code in table ==> r == table
    ensures code !in table ==> r[code] == description && r.Keys == table.Keys + {code}
    ensures forall c | c in table :: c in r && r[c] == table[c]
  {
    if code in table then table else table[code := description]
  }

  // ---------------------------------------------------------------------
  // Generations

  predicate IsDigit(c: char) {
    '0' <= c <= '9'
  }

  function DigitValue(c: char): nat
    requires IsDigit(c)
  {
    (c as int - '0' as int) as nat
  }

  function DigitsValue(s: string): nat
    requires forall i :: 0 <= i < |s| ==> IsDigit(s[i])
  {
    if s == [] then 0 else DigitsValue(s[..|s| - 1]) * 10 + DigitValue(s[|s| - 1])
  }

  /** The generation id as the database reads it: a non-empty string of decimal digits. */
  function ParseId(s: string): (r: Option<nat>)
    ensures r.Some? <==> s != [] && forall i :: 0 <= i < |s| ==> IsDigit(s[i])
  {
    if s != [] && forall i :: 0 <= i < |s| ==> IsDigit(s[i]) then Some(DigitsValue(s)) else None
  }

  /** The digit character for `d`. */
  function DigitChar(d: nat): (c: char)
    requires d < 10
    ensures IsDigit(c) && DigitValue(c) == d
  {
    ('0' as int + d) as char
  }

  /** The decimal spelling of `n`, without leading zeros. */
  function Decimal(n: nat): (s: string)
    decreases n
  {
    if n < 10 then [DigitChar(n)] else Decimal(n / 10) + [DigitChar(n % 10)]
  }

  /** Every id written in decimal reads back as the number it spells. */
  lemma {:induction false} ParseDecimal(n: nat)
    ensures Decimal(n) != [] && forall i :: 0 <= i < |Decimal(n)| ==> IsDigit(Decimal(n)[i])
    ensures ParseId(Decimal(n)) == Some(n)
    decreases n
  {
    var s := Decimal(n);
    if n >= 10 {
      ParseDecimal(n / 10);
      var p := Decimal(n / 10);
      assert s == p + [DigitChar(n % 10)];
      assert forall i :: 0 <= i < |s| ==> IsDigit(s[i]) by {
        forall i | 0 <= i < |s|
          ensures IsDigit(s[i])
        {
          if i < |p| {
            assert s[i] == p[i];
          }
        }
      }
      assert s[..|s| - 1] == p;
      assert DigitsValue(s) == DigitsValue(p) * 10 + n % 10;
    } else {
      assert s == [DigitChar(n)] && s[..|s| - 1] == [];
      assert DigitsValue(s) == DigitValue(s[0]);
    }
  }

  /** Leading zeros do not change the id: "007" reads as 7. */
  lemma {:induction false} LeadingZero(s: string)
    requires forall i :: 0 <= i < |s| ==> IsDigit(s[i])
    ensures forall i :: 0 <= i < |['0'] + s| ==> IsDigit((['0'] + s)[i])
    ensures DigitsValue(['0'] + s) == DigitsValue(s)
    decreases |s|
  {
    var z := ['0'] + s;
    assert forall i :: 0 <= i < |z| ==> IsDigit(z[i]) by {
      forall i | 0 <= i < |z|
        ensures IsDigit(z[i])
      {
        if i > 0 {
          assert z[i] == s[i - 1];
        }
      }
    }
    if s != [] {
      var front := s[..|s| - 1];
      assert z[..|z| - 1] == ['0'] + front;
      assert z[|z| - 1] == s[|s| - 1];
      LeadingZero(front);
    } else {
      assert z[..|z| - 1] == [];
    }
  }

  /** The target generation: it must parse and it must exist. */
  function TargetGeneration(generations: set<int>, id: string): (r: Option<int>)
    ensures r.Some? <==> ParseId(id).Some? && ParseId(id).value in generations
    ensures r.Some? ==> r.value in generations && Some(r.value) == ParseId(id)
  {
    match ParseId(id)
    case Some(n) => if n in generations then Some(n) else None
    case None => None
  }

  // ---------------------------------------------------------------------
  // Name records

  /** Index of the record for (area, name type), if there is one. */
  function FindName(names: seq<NameRecord>, area: AreaKey, nameType: string): (r: Option<nat>)
    ensures r.Some? ==> r.value < |names| && Matches(names[r.value], area, nameType)
    ensures r.None? ==> forall i :: 0 <= i < |names| ==> !Matches(names[i], area, nameType)
  {
    if names == [] then None
    else if Matches(names[0], area, nameType) then Some(0)
    else match FindName(names[1..], area, nameType)
      case Some(i) => Some(i + 1)
      case None => None
  }

  /** The text stored for (area, name type), if any. */
  function NameOf(names: seq<NameRecord>, area: AreaKey, nameType: string): Option<string> {
    match FindName(names, area, nameType)
    case Some(i) => Some(names[i].text)
    case None => None
  }

  /** update_or_create: overwrite the text of the matching record, or append a new one. */
  function UpsertName(names: seq<NameRecord>, area: AreaKey, nameType: string, text: string): (r: seq<NameRecord>)
    ensures NameRecord(area, nameType, text) in r
    ensures |names| <= |r| <= |names| + 1
  {
    match FindName(names, area, nameType)
    case Some(i) =>
      var r := names[i := NameRecord(area, nameType, text)];
      assert r[i] == NameRecord(area, nameType, text);
      r
    case None => names + [NameRecord(area, nameType, text)]
  }

  lemma NameOfUnique(names: seq<NameRecord>, i: nat)
    requires UniqueNames(names) && i < |names|
    ensures NameOf(names, names[i].area, names[i].nameType) == Some(names[i].text)
  {
  }

  /**
   * After an upsert there is exactly one record for (area, name type) and it
   * holds the new text; every record for another pair is kept, and nothing
   * else is added.
   */
  lemma UpsertNameSpec(names: seq<NameRecord>, area: AreaKey, nameType: string, text: string)
    requires UniqueNames(names)
    ensures var r := UpsertName(names, area, nameType, text);
      && UniqueNames(r)
      && NameRecord(area, nameType, text) in r
      && (forall i, j :: 0 <= i < |r| && 0 <= j < |r| && Matches(r[i], area, nameType) && Matches(r[j], area, nameType) ==> i == j)
      && NameOf(r, area, nameType) == Some(text)
      && (forall rec :: rec in r <==> (rec in names && !Matches(rec, area, nameType)) || rec == NameRecord(area, nameType, text))
  {
    var r := UpsertName(names, area, nameType, text);
    var rec := NameRecord(area, nameType, text);
    var k: nat;
    match FindName(names, area, nameType)
    case Some(i) =>
      k := i;
      assert r == names[i := rec];
      forall rc ensures rc in r <==> (rc in names && !Matches(rc, area, nameType)) || rc == rec {
        assert r[i] == rec;
        if rc in names && !Matches(rc, area, nameType) {
          var j :| 0 <= j < |names| && names[j] == rc;
          assert j != i && r[j] == rc;
        }
        if rc in r && rc != rec {
          var j :| 0 <= j < |r| && r[j] == rc;
          assert j != i && names[j] == rc;
          if j < i {
            assert !Matches(names[i], names[j].area, names[j].nameType);
          } else {
            assert !Matches(names[j], names[i].area, names[i].nameType);
          }
        }
      }
      assert UniqueNames(r) by {
        forall a, b | 0 <= a < b < |r| ensures !Matches(r[b], r[a].area, r[a].nameType) {
          if a == i {
            assert r[b] == names[b];
            assert !Matches(names[b], names[i].area, names[i].nameType);
          } else if b == i {
            assert r[a] == names[a];
            assert !Matches(names[i], names[a].area, names[a].nameType);
          } else {
            assert r[a] == names[a] && r[b] == names[b];
          }
        }
      }
    case None =>
      k := |names|;
      assert r == names + [rec];
      assert UniqueNames(r) by {
        forall a, b | 0 <= a < b < |r| ensures !Matches(r[b], r[a].area, r[a].nameType) {
          assert r[a] == names[a];
          if b < k {
            assert r[b] == names[b];
          }
        }
      }
    assert r[k] == rec;
    NameOfUnique(r, k);
  }

  /** An upsert for one pair leaves the text of every other pair as it was. */
  lemma UpsertNameOthers(names: seq<NameRecord>, area: AreaKey, nameType: string, text: string, a: AreaKey, t: string)
    requires UniqueNames(names)
    requires !(a == area && t == nameType)
    ensures NameOf(UpsertName(names, area, nameType, text), a, t) == NameOf(names, a, t)
  {
    var r := UpsertName(names, area, nameType, text);
    UpsertNameSpec(names, area, nameType, text);
    match FindName(names, a, t)
    case Some(i) =>
      NameOfUnique(names, i);
      assert names[i] in r;
      var j :| 0 <= j < |r| && r[j] == names[i];
      NameOfUnique(r, j);
    case None =>
  }

  // ---------------------------------------------------------------------
  // Reconciliation

  /** The area would skip a generation: it has an end, there is a current generation, and the end is older. */
  predicate SkipsGeneration(m: Area, current: Option<int>) {
    m.generationHigh.Some? && current.Some? && m.generationHigh.value < current.value
  }

  datatype GenerationGap = GenerationGap(area: AreaKey, high: int, current: int)

  /**
   * Find or create the area, refuse to skip a generation, and extend the
   * area to the target generation.
   */
  function Reconcile(areas: map<AreaKey, Area>, current: Option<int>, name: string, typeCode: string,
                     countryCode: string, target: int): (r: Result<Area, GenerationGap>)
    ensures var key := AreaKey(name, typeCode);
      key !in areas ==>
        && (r.Failure? <==> current.Some? && target < current.value)
        && (r.Success? ==> r.value == Area(name, typeCode, countryCode, Some(target), Some(target)))
    ensures var key := AreaKey(name, typeCode);
      key in areas ==>
        && (r.Failure? <==> SkipsGeneration(areas[key], current))
        && (r.Success? ==> r.value == areas[key].(generationHigh := Some(target)))
    ensures r.Success? ==> r.value.generationHigh == Some(target)
    ensures r.Failure? ==> r.error.area == AreaKey(name, typeCode) && r.error.high < r.error.current
  {
    var key := AreaKey(name, typeCode);
    var m := if key in areas then areas[key] else Area(name, typeCode, countryCode, Some(target), Some(target));
    if SkipsGeneration(m, current) then
      Failure(GenerationGap(AreaKey(name, typeCode), m.generationHigh.value, current.value))
    else
      Success(m.(generationHigh := Some(target)))
  }

  /** Three worked cases: a new area, an area extended from the current generation, and one that fell behind. */
  lemma ReconcileScenarios(country: string)
    ensures Reconcile(map[], Some(4), "Springfield", "WD", country, 5)
         == Success(Area("Springfield", "WD", country, Some(5), Some(5)))
    ensures var key := AreaKey("Springfield", "WD");
      var old4 := Area("Springfield", "WD", country, Some(2), Some(4));
      Reconcile(map[key := old4], Some(4), "Springfield", "WD", country, 5) == Success(old4.(generationHigh := Some(5)))
    ensures var key := AreaKey("Springfield", "WD");
      var old3 := Area("Springfield", "WD", country, Some(2), Some(3));
      Reconcile(map[key := old3], Some(4), "Springfield", "WD", country, 5) == Failure(GenerationGap(key, 3, 4))
    ensures Reconcile(map[], None, "Springfield", "WD", country, 5).Success?
  {
  }
}
