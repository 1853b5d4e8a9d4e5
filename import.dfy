/**
 * `mapit_import`'s `handle_label`: check the options, resolve the lookup
 * codes, find the target generation, then reconcile every feature of the
 * dataset with the catalog, writing only in commit mode.
 *
 * The functions state what one run does to a catalog snapshot; the class
 * `Catalog` holds the stored state and its `HandleLabel` method performs the
 * run step by step, proved to agree with `RunImport`.
 */
module Import {
  import opened Wrappers
  import opened ImportOptions
  import opened NameNormalization
  import opened CatalogModel

  /** One feature of the dataset's first layer: its attribute fields (raw bytes) and its geometry. */
  datatype Feature = Feature(fields: map<string, seq<byte>>, geometry: Geometry)

  /** What the operator types at the prompts for codes the catalog does not know yet. */
  datatype Prompts = Prompts(typeDescription: string, nameTypeDescription: string, countryName: string)

  /** Every way a run stops early. */
  datatype ImportError =
    | BadOptions(problem: OptionError)
    | UnknownGeneration(id: string)
    | FieldNotFound(field: string)
    | DecodeFailed(encoding: string)
    | EmptyName
    | GenerationSkipped(gap: GenerationGap)

  /** The catalog a run leaves behind and the error that stopped it, if any. */
  datatype Outcome = Outcome(db: Db, error: Option<ImportError>)

  /** Decodes a field's bytes under a named encoding; `None` when they do not decode. */
  type Decoder = (string, seq<byte>) -> Option<string>

  /** Reprojects a geometry to WGS84 (EPSG:4326), producing a new value. */
  type Reprojector = Geometry -> Geometry

  /** The codes of the run are present in the lookup tables. */
  ghost predicate LookupsResolved(db: Db, s: Settings) {
    s.areaTypeCode in db.types && s.nameTypeCode in db.nameTypes && s.countryCode in db.countries
  }

  /** The parts of the catalog a feature never changes. */
  ghost predicate SameLookups(a: Db, b: Db) {
    a.types == b.types && a.nameTypes == b.nameTypes && a.countries == b.countries
    && a.generations == b.generations && a.current == b.current
  }

  /**
   * Area type, name type and country: a code not in the catalog gets the
   * prompted description and is saved only in commit mode.
   */
  function ResolveLookups(db: Db, s: Settings, prompts: Prompts): (r: Db)
    ensures !s.commit ==> r == db
    ensures s.commit ==> LookupsResolved(r, s)
    ensures s.commit && s.areaTypeCode !in db.types ==> r.types[s.areaTypeCode] == prompts.typeDescription
    ensures s.commit && s.nameTypeCode !in db.nameTypes ==> r.nameTypes[s.nameTypeCode] == prompts.nameTypeDescription
    ensures s.commit && s.countryCode !in db.countries ==> r.countries[s.countryCode] == prompts.countryName
    ensures r.areas == db.areas && r.names == db.names && r.polygons == db.polygons
    ensures r.generations == db.generations && r.current == db.current
    ensures s.commit ==> r.types == SaveIfMissing(db.types, s.areaTypeCode, prompts.typeDescription)
    ensures s.commit ==> r.nameTypes == SaveIfMissing(db.nameTypes, s.nameTypeCode, prompts.nameTypeDescription)
    ensures s.commit ==> r.countries == SaveIfMissing(db.countries, s.countryCode, prompts.countryName)
    ensures Consistent(db) ==> Consistent(r)
  {
    if s.commit then
      db.(types := SaveIfMissing(db.types, s.areaTypeCode, prompts.typeDescription),
          nameTypes := SaveIfMissing(db.nameTypes, s.nameTypeCode, prompts.nameTypeDescription),
          countries := SaveIfMissing(db.countries, s.countryCode, prompts.countryName))
    else db
  }

  /**
   * The feature's name: read the name field, decode it, collapse its
   * whitespace, and refuse the empty string.
   */
  function FeatureName(feat: Feature, nameField: string, encoding: string, decode: Decoder): (r: Result<string, ImportError>)
    ensures (r.Failure? && r.error == FieldNotFound(nameField)) <==> nameField !in feat.fields
    ensures nameField in feat.fields ==>
              ((r.Failure? && r.error == DecodeFailed(encoding)) <==> decode(encoding, feat.fields[nameField]).None?)
    ensures (r.Failure? && r.error == EmptyName) <==>
              nameField in feat.fields && decode(encoding, feat.fields[nameField]) == Some([])
    ensures r.Failure? ==> r.error in {FieldNotFound(nameField), DecodeFailed(encoding), EmptyName}
    ensures r.Success? ==> r.value != [] && NoAdjacentSpace(r.value) && OnlyPlainSpace(r.value)
    ensures r.Success? ==> r.value == Collapse(decode(encoding, feat.fields[nameField]).value)
    ensures r.Success? ==> NonSpace(r.value) == NonSpace(decode(encoding, feat.fields[nameField]).value)
  {
    if nameField !in feat.fields then Failure(FieldNotFound(nameField))
    else match decode(encoding, feat.fields[nameField])
      case None => Failure(DecodeFailed(encoding))
      case Some(text) =>
        var name := Collapse(text);
        CollapseKeepsNonSpace(text);
        if name == [] then Failure(EmptyName) else Success(name)
  }

  /** One iteration of the feature loop. */
  function ImportFeature(db: Db, s: Settings, target: int, decode: Decoder, reproject: Reprojector, feat: Feature): (r: Result<Db, ImportError>)
    ensures r.Success? ==> SameLookups(db, r.value)
    ensures r.Success? && !s.commit ==> r.value == db
    ensures r.Success? ==> FeatureName(feat, s.nameField, s.encoding, decode).Success?
    ensures r.Success? && s.commit ==>
      var key := AreaKey(FeatureName(feat, s.nameField, s.encoding, decode).value, s.areaTypeCode);
      key in r.value.areas && r.value.areas[key].generationHigh == Some(target)
  {
    var name :- FeatureName(feat, s.nameField, s.encoding, decode);
    var key := AreaKey(name, s.areaTypeCode);
    match Reconcile(db.areas, db.current, name, s.areaTypeCode, s.countryCode, target)
    case Failure(gap) => Failure(GenerationSkipped(gap))
    case Success(m) =>
      if s.commit then
        Success(db.(areas := db.areas[key := m],
                    names := UpsertName(db.names, key, s.nameTypeCode, name),
                    polygons := db.polygons[key := [reproject(feat.geometry)]]))
      else
        Success(db)
  }

  /** The feature loop: the first error stops it, keeping what earlier features wrote. */
  function ImportFeatures(db: Db, s: Settings, target: int, decode: Decoder, reproject: Reprojector, feats: seq<Feature>): (o: Outcome)
    ensures SameLookups(db, o.db)
    decreases |feats|
  {
    if feats == [] then Outcome(db, None)
    else match ImportFeature(db, s, target, decode, reproject, feats[0])
      case Failure(e) => Outcome(db, Some(e))
      case Success(next) => ImportFeatures(next, s, target, decode, reproject, feats[1..])
  }

  /** A whole run of the command over one dataset. */
  function RunImport(db: Db, opts: CommandOptions, prompts: Prompts, decode: Decoder, reproject: Reprojector,
                     feats: seq<Feature>): (r: Outcome)
    ensures r.db.generations == db.generations && r.db.current == db.current
    ensures r.error.None? ==>
      && CheckOptions(opts).Success?
      && TargetGeneration(db.generations, CheckOptions(opts).value.generationId).Some?
  {
    match CheckOptions(opts)
    case Failure(e) => Outcome(db, Some(BadOptions(e)))
    case Success(s) =>
      var resolved := ResolveLookups(db, s, prompts);
      match TargetGeneration(resolved.generations, s.generationId)
      case None => Outcome(resolved, Some(UnknownGeneration(s.generationId)))
      case Some(target) => ImportFeatures(resolved, s, target, decode, reproject, feats)
  }

  /** One feature keeps the catalog consistent and never touches lookups or generations. */
  lemma ImportFeatureConsistent(db: Db, s: Settings, target: int, decode: Decoder, reproject: Reprojector, feat: Feature)
    requires Consistent(db) && (s.commit ==> LookupsResolved(db, s))
    ensures var r := ImportFeature(db, s, target, decode, reproject, feat);
      r.Success? ==> Consistent(r.value) && SameLookups(db, r.value)
  {
    var r := ImportFeature(db, s, target, decode, reproject, feat);
    if r.Success? && s.commit {
      var name := FeatureName(feat, s.nameField, s.encoding, decode).value;
      var key := AreaKey(name, s.areaTypeCode);
      var m := Reconcile(db.areas, db.current, name, s.areaTypeCode, s.countryCode, target).value;
      UpsertNameSpec(db.names, key, s.nameTypeCode, name);
      var after := r.value;
      assert after.areas == db.areas[key := m];
      forall i | 0 <= i < |after.names|
        ensures after.names[i].area in after.areas && after.names[i].nameType in after.nameTypes
      {
        assert after.names[i] in after.names;
      }
    }
  }

  /** The whole loop keeps the catalog consistent. */
  lemma {:induction false} ImportFeaturesConsistent(db: Db, s: Settings, target: int, decode: Decoder, reproject: Reprojector, feats: seq<Feature>)
    requires Consistent(db) && (s.commit ==> LookupsResolved(db, s))
    ensures var o := ImportFeatures(db, s, target, decode, reproject, feats);
      Consistent(o.db) && SameLookups(db, o.db)
    decreases |feats|
  {
    if feats != [] {
      ImportFeatureConsistent(db, s, target, decode, reproject, feats[0]);
      var r := ImportFeature(db, s, target, decode, reproject, feats[0]);
      if r.Success? {
        ImportFeaturesConsistent(r.value, s, target, decode, reproject, feats[1..]);
      }
    }
  }

  /** The stored catalog, as the ORM would show it. */
  class Catalog {
    var types: map<string, string>
    var nameTypes: map<string, string>
    var countries: map<string, string>
    var generations: set<int>
    var current: Option<int>
    var areas: map<AreaKey, Area>
    var names: seq<NameRecord>
    var polygons: map<AreaKey, seq<Geometry>>

    function Snapshot(): Db
      reads this
    {
      Db(types, nameTypes, countries, generations, current, areas, names, polygons)
    }

    ghost predicate Valid()
      reads this
    {
      Consistent(Snapshot())
    }

    constructor (db: Db)
      requires Consistent(db)
      ensures Valid() && Snapshot() == db
    {
      types, nameTypes, countries := db.types, db.nameTypes, db.countries;
      generations, current := db.generations, db.current;
      areas, names, polygons := db.areas, db.names, db.polygons;
    }

    /**
     * The command run on one dataset. On return the catalog and the error
     * are those `RunImport` gives for the catalog as it was before.
     */
    method HandleLabel(opts: CommandOptions, prompts: Prompts, decode: Decoder, reproject: Reprojector, feats: seq<Feature>)
      returns (err: Option<ImportError>)
      requires Valid()
      modifies this
      ensures Valid()
      ensures Snapshot() == RunImport(old(Snapshot()), opts, prompts, decode, reproject, feats).db
      ensures err == RunImport(old(Snapshot()), opts, prompts, decode, reproject, feats).error
    {
      err := None;
      var checked := CheckOptions(opts);
      if checked.Failure? {
        err := Some(BadOptions(checked.error));
        return;
      }
      var s := checked.value;
      ResolveCodes(s, prompts);

      var newGeneration := TargetGeneration(generations, s.generationId);
      if newGeneration.None? {
        err := Some(UnknownGeneration(s.generationId));
        return;
      }
      err := ImportAll(s, newGeneration.value, decode, reproject, feats);
    }

    /** Looks up the three codes; in commit mode an unknown one is saved with the prompted text. */
    method ResolveCodes(s: Settings, prompts: Prompts)
      modifies this
      ensures Snapshot() == ResolveLookups(old(Snapshot()), s, prompts)
    {
      if s.areaTypeCode !in types {
        if s.commit { types := types[s.areaTypeCode := prompts.typeDescription]; }
      }
      if s.nameTypeCode !in nameTypes {
        if s.commit { nameTypes := nameTypes[s.nameTypeCode := prompts.nameTypeDescription]; }
      }
      if s.countryCode !in countries {
        if s.commit { countries := countries[s.countryCode := prompts.countryName]; }
      }
    }

    /** The feature loop: stops at the first feature that fails, keeping what earlier ones wrote. */
    method ImportAll(s: Settings, target: int, decode: Decoder, reproject: Reprojector, feats: seq<Feature>)
      returns (err: Option<ImportError>)
      requires Valid() && (s.commit ==> LookupsResolved(Snapshot(), s))
      modifies this
      ensures Valid()
      ensures var o := ImportFeatures(old(Snapshot()), s, target, decode, reproject, feats);
        Snapshot() == o.db && err == o.error
    {
      err := None;
      ghost var start := Snapshot();
      var i := 0;
      while i < |feats|
        invariant 0 <= i <= |feats| && err == None
        invariant Consistent(Snapshot()) && SameLookups(start, Snapshot())
        invariant s.commit ==> LookupsResolved(Snapshot(), s)
        invariant ImportFeatures(Snapshot(), s, target, decode, reproject, feats[i..])
               == ImportFeatures(start, s, target, decode, reproject, feats)
      {
        assert feats[i..][0] == feats[i] && feats[i..][1..] == feats[i + 1..];
        ImportFeatureConsistent(Snapshot(), s, target, decode, reproject, feats[i]);
        err := ImportOne(s, target, decode, reproject, feats[i]);
        if err.Some? {
          return;
        }
        i := i + 1;
      }
    }

    /**
     * One pass of the feature loop: name, find or create, continuity check,
     * extension to the target generation, and the writes of commit mode.
     */
    method ImportOne(s: Settings, target: int, decode: Decoder, reproject: Reprojector, feat: Feature)
      returns (err: Option<ImportError>)
      modifies this
      ensures var r := ImportFeature(old(Snapshot()), s, target, decode, reproject, feat);
        && (r.Success? ==> err == None && Snapshot() == r.value)
        && (r.Failure? ==> err == Some(r.error) && Snapshot() == old(Snapshot()))
    {
      ghost var db := Snapshot();
      var named := FeatureName(feat, s.nameField, s.encoding, decode);
      if named.Failure? {
        return Some(named.error);
      }
      var name := named.value;

      var key := AreaKey(name, s.areaTypeCode);
      var m: Area;
      if key in areas {
        m := areas[key];
      } else {
        m := Area(name, s.areaTypeCode, s.countryCode, Some(target), Some(target));
      }
      if m.generationHigh.Some? && current.Some? && m.generationHigh.value < current.value {
        assert Reconcile(db.areas, db.current, name, s.areaTypeCode, s.countryCode, target).Failure?;
        return Some(GenerationSkipped(GenerationGap(key, m.generationHigh.value, current.value)));
      }
      m := m.(generationHigh := Some(target));
      assert Reconcile(db.areas, db.current, name, s.areaTypeCode, s.countryCode, target) == Success(m);

      var geometry := reproject(feat.geometry);
      if s.commit {
        areas := areas[key := m];
        names := UpsertName(names, key, s.nameTypeCode, name);
        polygons := polygons[key := [geometry]];
      }
      return None;
    }
  }
}
