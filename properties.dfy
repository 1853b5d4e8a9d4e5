/**
 * What a run of the importer guarantees, and where the guarantees stop.
 */
module ImportProperties {
  import opened Wrappers
  import opened ImportOptions
  import opened NameNormalization
  import opened CatalogModel
  import opened Import

  // ---------------------------------------------------------------------
  // Dry run

  lemma {:induction false} DryRunFeatures(db: Db, s: Settings, target: int, decode: Decoder, reproject: Reprojector, feats: seq<Feature>)
    requires !s.commit
    ensures ImportFeatures(db, s, target, decode, reproject, feats).db == db
    decreases |feats|
  {
    if feats != [] {
      DryRunFeatures(db, s, target, decode, reproject, feats[1..]);
    }
  }

  /** Without --commit nothing is saved: no lookup, area, name record or polygon. */
  lemma DryRunLeavesCatalogUnchanged(db: Db, opts: CommandOptions, prompts: Prompts, decode: Decoder,
                                     reproject: Reprojector, feats: seq<Feature>)
    requires !opts.commit
    ensures RunImport(db, opts, prompts, decode, reproject, feats).db == db
  {
    var checked := CheckOptions(opts);
    if checked.Success? {
      var target := TargetGeneration(db.generations, checked.value.generationId);
      if target.Some? {
        DryRunFeatures(db, checked.value, target.value, decode, reproject, feats);
      }
    }
  }

  // ---------------------------------------------------------------------
  // Options are checked before anything else

  /** A failed option check stops the run with the catalog untouched. */
  lemma OptionErrorsStopFirst(db: Db, opts: CommandOptions, prompts: Prompts, decode: Decoder,
                              reproject: Reprojector, feats: seq<Feature>)
    requires CheckOptions(opts).Failure?
    ensures RunImport(db, opts, prompts, decode, reproject, feats) == Outcome(db, Some(BadOptions(CheckOptions(opts).error)))
  {
  }

  // ---------------------------------------------------------------------
  // One feature

  /** A feature whose area is new passes the continuity check exactly when the target is not behind the current generation. */
  lemma NewAreaContinuity(db: Db, s: Settings, target: int, decode: Decoder, reproject: Reprojector, feat: Feature)
    requires FeatureName(feat, s.nameField, s.encoding, decode).Success?
    requires AreaKey(FeatureName(feat, s.nameField, s.encoding, decode).value, s.areaTypeCode) !in db.areas
    ensures var r := ImportFeature(db, s, target, decode, reproject, feat);
      (r.Failure? <==> db.current.Some? && target < db.current.value)
      && (r.Failure? ==> r.error.GenerationSkipped?)
  {
  }

  /**
   * A feature passing in commit mode leaves its area extended to the target
   * generation (a matched area keeps its name, type, country and start), one
   * name record for the run's name type holding the normalised name, and the
   * reprojected geometry as the area's polygons; no other area changes.
   */
  lemma CommitFeature(db: Db, s: Settings, target: int, decode: Decoder, reproject: Reprojector, feat: Feature)
    requires Consistent(db) && s.commit && LookupsResolved(db, s)
    requires ImportFeature(db, s, target, decode, reproject, feat).Success?
    ensures var name := FeatureName(feat, s.nameField, s.encoding, decode).value;
      var key := AreaKey(name, s.areaTypeCode);
      var after := ImportFeature(db, s, target, decode, reproject, feat).value;
      && key in after.areas
      && after.areas[key].generationHigh == Some(target)
      && after.areas[key].name == name && after.areas[key].typeCode == s.areaTypeCode
      && (key in db.areas ==>
            && after.areas[key].countryCode == db.areas[key].countryCode
            && after.areas[key].generationLow == db.areas[key].generationLow)
      && (key !in db.areas ==>
            after.areas[key].countryCode == s.countryCode && after.areas[key].generationLow == Some(target))
      && NameRecord(key, s.nameTypeCode, name) in after.names
      && (forall i, j ::
            (0 <= i < |after.names| && 0 <= j < |after.names| &&
             Matches(after.names[i], key, s.nameTypeCode) && Matches(after.names[j], key, s.nameTypeCode)) ==> i == j)
      && after.polygons[key] == [reproject(feat.geometry)]
      && (forall k | k != key :: (k in after.areas <==> k in db.areas) && (k in db.areas ==> after.areas[k] == db.areas[k]))
  {
    var name := FeatureName(feat, s.nameField, s.encoding, decode).value;
    UpsertNameSpec(db.names, AreaKey(name, s.areaTypeCode), s.nameTypeCode, name);
  }

  // ---------------------------------------------------------------------
  // Whole runs in commit mode

  /** The area a feature is filed under, when its name can be read. */
  function FeatureKey(s: Settings, decode: Decoder, feat: Feature): Option<AreaKey> {
    match FeatureName(feat, s.nameField, s.encoding, decode)
    case Success(name) => Some(AreaKey(name, s.areaTypeCode))
    case Failure(_) => None
  }

  /** The area under `key` is live in the target generation and carries its name for the run's name type. */
  ghost predicate Settled(db: Db, s: Settings, target: int, key: AreaKey) {
    && key in db.areas
    && db.areas[key].generationHigh == Some(target)
    && NameOf(db.names, key, s.nameTypeCode) == Some(key.name)
  }

  /** A later feature in commit mode never unsettles an area. */
  lemma SettledStays(db: Db, s: Settings, target: int, decode: Decoder, reproject: Reprojector, feat: Feature, key: AreaKey)
    requires Consistent(db) && s.commit && LookupsResolved(db, s)
    requires Settled(db, s, target, key)
    requires ImportFeature(db, s, target, decode, reproject, feat).Success?
    ensures Settled(ImportFeature(db, s, target, decode, reproject, feat).value, s, target, key)
  {
    var name := FeatureName(feat, s.nameField, s.encoding, decode).value;
    var k := AreaKey(name, s.areaTypeCode);
    if k == key {
      UpsertNameSpec(db.names, k, s.nameTypeCode, name);
    } else {
      UpsertNameOthers(db.names, k, s.nameTypeCode, name, key, s.nameTypeCode);
    }
  }

  /**
   * After a commit-mode loop that ran to the end, the area of every feature
   * is live in the target generation and carries the feature's name.
   */
  lemma {:induction false} CommitRunSettlesEveryFeature(db: Db, s: Settings, target: int, decode: Decoder,
                                                        reproject: Reprojector, feats: seq<Feature>)
    requires Consistent(db) && s.commit && LookupsResolved(db, s)
    requires ImportFeatures(db, s, target, decode, reproject, feats).error == None
    ensures forall f | f in feats :: FeatureKey(s, decode, f).Some?
    ensures forall f | f in feats ::
              Settled(ImportFeatures(db, s, target, decode, reproject, feats).db, s, target, FeatureKey(s, decode, f).value)
    decreases |feats|
  {
    if feats != [] {
      var next := ImportFeature(db, s, target, decode, reproject, feats[0]).value;
      var rest := feats[1..];
      var final := ImportFeatures(db, s, target, decode, reproject, feats).db;
      ImportFeatureConsistent(db, s, target, decode, reproject, feats[0]);
      CommitRunSettlesEveryFeature(next, s, target, decode, reproject, rest);
      var k0 := FeatureKey(s, decode, feats[0]).value;
      CommitFeature(db, s, target, decode, reproject, feats[0]);
      UpsertNameSpec(db.names, k0, s.nameTypeCode, k0.name);
      assert Settled(next, s, target, k0) by {
        var i :| 0 <= i < |next.names| && next.names[i] == NameRecord(k0, s.nameTypeCode, k0.name);
        NameOfUnique(next.names, i);
      }
      SettledThrough(next, s, target, decode, reproject, rest, k0);
      forall f | f in feats
        ensures FeatureKey(s, decode, f).Some? && Settled(final, s, target, FeatureKey(s, decode, f).value)
      {
        if f != feats[0] {
          assert f in rest;
        }
      }
    }
  }

  /** A settled area stays settled through the rest of a commit-mode loop. */
  lemma {:induction false} SettledThrough(db: Db, s: Settings, target: int, decode: Decoder,
                                          reproject: Reprojector, feats: seq<Feature>, key: AreaKey)
    requires Consistent(db) && s.commit && LookupsResolved(db, s)
    requires Settled(db, s, target, key)
    ensures Settled(ImportFeatures(db, s, target, decode, reproject, feats).db, s, target, key)
    decreases |feats|
  {
    if feats != [] {
      var r := ImportFeature(db, s, target, decode, reproject, feats[0]);
      if r.Success? {
        ImportFeatureConsistent(db, s, target, decode, reproject, feats[0]);
        SettledStays(db, s, target, decode, reproject, feats[0], key);
        SettledThrough(r.value, s, target, decode, reproject, feats[1..], key);
      }
    }
  }

  /** Every run keeps the catalog consistent, whatever stops it. */
  lemma RunKeepsConsistent(db: Db, opts: CommandOptions, prompts: Prompts, decode: Decoder,
                           reproject: Reprojector, feats: seq<Feature>)
    requires Consistent(db)
    ensures Consistent(RunImport(db, opts, prompts, decode, reproject, feats).db)
  {
    var checked := CheckOptions(opts);
    if checked.Success? {
      var resolved := ResolveLookups(db, checked.value, prompts);
      var target := TargetGeneration(resolved.generations, checked.value.generationId);
      if target.Some? {
        ImportFeaturesConsistent(resolved, checked.value, target.value, decode, reproject, feats);
      }
    }
  }

  // ---------------------------------------------------------------------
  // Generation ranges

  /** No stored area starts after the target generation. */
  ghost predicate StartsNotAfter(db: Db, target: int) {
    forall k | k in db.areas && db.areas[k].generationLow.Some? :: db.areas[k].generationLow.value <= target
  }

  /** A feature keeps every range well ordered when no area starts after the target generation. */
  lemma ImportFeatureKeepsOrder(db: Db, s: Settings, target: int, decode: Decoder, reproject: Reprojector, feat: Feature)
    requires GenerationsOrdered(db) && StartsNotAfter(db, target)
    ensures var r := ImportFeature(db, s, target, decode, reproject, feat);
      r.Success? ==> GenerationsOrdered(r.value) && StartsNotAfter(r.value, target)
  {
  }

  /** The same for a whole loop. */
  lemma {:induction false} ImportFeaturesKeepsOrder(db: Db, s: Settings, target: int, decode: Decoder,
                                                    reproject: Reprojector, feats: seq<Feature>)
    requires GenerationsOrdered(db) && StartsNotAfter(db, target)
    ensures GenerationsOrdered(ImportFeatures(db, s, target, decode, reproject, feats).db)
    decreases |feats|
  {
    if feats != [] {
      ImportFeatureKeepsOrder(db, s, target, decode, reproject, feats[0]);
      var r := ImportFeature(db, s, target, decode, reproject, feats[0]);
      if r.Success? {
        ImportFeaturesKeepsOrder(r.value, s, target, decode, reproject, feats[1..]);
      }
    }
  }

  /**
   * The continuity check does not look at where an area starts: an area that
   * starts after the target generation and has not fallen behind the current
   * one is accepted, and commit mode stores it with its end before its start.
   */
  lemma TargetBeforeStartBreaksOrder(db: Db, s: Settings, target: int, decode: Decoder, reproject: Reprojector, feat: Feature)
    requires s.commit
    requires FeatureKey(s, decode, feat).Some? && FeatureKey(s, decode, feat).value in db.areas
    requires var m := db.areas[FeatureKey(s, decode, feat).value];
      m.generationLow.Some? && target < m.generationLow.value && !SkipsGeneration(m, db.current)
    ensures ImportFeature(db, s, target, decode, reproject, feat).Success?
    ensures !GenerationsOrdered(ImportFeature(db, s, target, decode, reproject, feat).value)
  {
    var key := FeatureKey(s, decode, feat).value;
    var after := ImportFeature(db, s, target, decode, reproject, feat).value;
    assert after.areas[key].generationHigh == Some(target);
  }

  // ---------------------------------------------------------------------
  // Re-running a committed import

  /** The areas a list of features is filed under. */
  ghost function KeysOf(s: Settings, decode: Decoder, feats: seq<Feature>): set<AreaKey> {
    set f | f in feats && FeatureKey(s, decode, f).Some? :: FeatureKey(s, decode, f).value
  }

  /**
   * What one feature leaves alone: an existing area keeps its start and
   * country, an area the feature does not name is untouched together with
   * its names, and names of other name types are untouched.
   */
  lemma FeatureFrame(db: Db, s: Settings, target: int, decode: Decoder, reproject: Reprojector, feat: Feature,
                     k: AreaKey, t: string)
    requires UniqueNames(db.names)
    ensures var r := ImportFeature(db, s, target, decode, reproject, feat);
      r.Success? ==>
        && UniqueNames(r.value.names)
        && (k in db.areas ==>
              && k in r.value.areas
              && r.value.areas[k].generationLow == db.areas[k].generationLow
              && r.value.areas[k].countryCode == db.areas[k].countryCode)
        && (FeatureKey(s, decode, feat) != Some(k) ==>
              && (k in r.value.areas <==> k in db.areas)
              && (k in db.areas ==> r.value.areas[k] == db.areas[k])
              && NameOf(r.value.names, k, t) == NameOf(db.names, k, t))
        && (t != s.nameTypeCode ==> NameOf(r.value.names, k, t) == NameOf(db.names, k, t))
  {
    var r := ImportFeature(db, s, target, decode, reproject, feat);
    if r.Success? && s.commit {
      var name := FeatureName(feat, s.nameField, s.encoding, decode).value;
      var key := AreaKey(name, s.areaTypeCode);
      UpsertNameSpec(db.names, key, s.nameTypeCode, name);
      if !(k == key && t == s.nameTypeCode) {
        UpsertNameOthers(db.names, key, s.nameTypeCode, name, k, t);
      }
    }
  }

  /**
   * What the whole feature loop leaves alone, whatever stops it: no area is
   * deleted, and an existing area keeps its start and country. An area no
   * feature names keeps its record and its names. Names of other name types
   * are kept.
   */
  lemma {:induction false} ImportFeaturesFrame(db: Db, s: Settings, target: int, decode: Decoder, reproject: Reprojector,
                                               feats: seq<Feature>, k: AreaKey, t: string)
    requires UniqueNames(db.names)
    ensures var o := ImportFeatures(db, s, target, decode, reproject, feats);
      && UniqueNames(o.db.names)
      && (k in db.areas ==>
            && k in o.db.areas
            && o.db.areas[k].generationLow == db.areas[k].generationLow
            && o.db.areas[k].countryCode == db.areas[k].countryCode)
      && (k !in KeysOf(s, decode, feats) ==>
            && (k in o.db.areas <==> k in db.areas)
            && (k in db.areas ==> o.db.areas[k] == db.areas[k])
            && NameOf(o.db.names, k, t) == NameOf(db.names, k, t))
      && (t != s.nameTypeCode ==> NameOf(o.db.names, k, t) == NameOf(db.names, k, t))
    decreases |feats|
  {
    if feats != [] {
      var r := ImportFeature(db, s, target, decode, reproject, feats[0]);
      if r.Success? {
        FeatureFrame(db, s, target, decode, reproject, feats[0], k, t);
        ImportFeaturesFrame(r.value, s, target, decode, reproject, feats[1..], k, t);
        if k !in KeysOf(s, decode, feats) {
          assert feats[0] in feats;
          forall f | f in feats[1..] ensures f in feats {
          }
          assert k !in KeysOf(s, decode, feats[1..]);
        }
      }
    }
  }

  /** The polygons a commit-mode loop writes, feature by feature; the last feature of an area wins. */
  function Paint(p: map<AreaKey, seq<Geometry>>, s: Settings, decode: Decoder, reproject: Reprojector,
                 feats: seq<Feature>): map<AreaKey, seq<Geometry>>
    decreases |feats|
  {
    if feats == [] then p
    else match FeatureKey(s, decode, feats[0])
      case Some(k) => Paint(p[k := [reproject(feats[0].geometry)]], s, decode, reproject, feats[1..])
      case None => Paint(p, s, decode, reproject, feats[1..])
  }

  ghost predicate AgreeOff(p: map<AreaKey, seq<Geometry>>, q: map<AreaKey, seq<Geometry>>, keys: set<AreaKey>) {
    forall k | k !in keys :: (k in p <==> k in q) && (k in p ==> p[k] == q[k])
  }

  /** Painting leaves the polygons of every other area alone. */
  lemma {:induction false} PaintOff(p: map<AreaKey, seq<Geometry>>, s: Settings, decode: Decoder, reproject: Reprojector,
                                    feats: seq<Feature>)
    ensures AgreeOff(Paint(p, s, decode, reproject, feats), p, KeysOf(s, decode, feats))
    decreases |feats|
  {
    if feats != [] {
      var rest := feats[1..];
      assert KeysOf(s, decode, rest) <= KeysOf(s, decode, feats) by {
        forall k | k in KeysOf(s, decode, rest) ensures k in KeysOf(s, decode, feats) {
          var f :| f in rest && FeatureKey(s, decode, f).Some? && FeatureKey(s, decode, f).value == k;
          assert f in feats;
        }
      }
      match FeatureKey(s, decode, feats[0])
      case Some(k0) =>
        assert k0 in KeysOf(s, decode, feats);
        PaintOff(p[k0 := [reproject(feats[0].geometry)]], s, decode, reproject, rest);
      case None =>
        PaintOff(p, s, decode, reproject, rest);
    }
  }

  /** The last feature filed under an area decides its polygons. */
  lemma {:induction false} PaintLastWins(p: map<AreaKey, seq<Geometry>>, s: Settings, decode: Decoder,
                                         reproject: Reprojector, feats: seq<Feature>, i: nat)
    requires i < |feats| && FeatureKey(s, decode, feats[i]).Some?
    requires forall j | i < j < |feats| :: FeatureKey(s, decode, feats[j]) != FeatureKey(s, decode, feats[i])
    ensures var k := FeatureKey(s, decode, feats[i]).value;
      k in Paint(p, s, decode, reproject, feats)
      && Paint(p, s, decode, reproject, feats)[k] == [reproject(feats[i].geometry)]
    decreases |feats|
  {
    var k := FeatureKey(s, decode, feats[i]).value;
    var rest := feats[1..];
    var q := match FeatureKey(s, decode, feats[0])
      case Some(k0) => p[k0 := [reproject(feats[0].geometry)]]
      case None => p;
    assert Paint(p, s, decode, reproject, feats) == Paint(q, s, decode, reproject, rest);
    if i == 0 {
      PaintOff(q, s, decode, reproject, rest);
    } else {
      forall j | i - 1 < j < |rest|
        ensures FeatureKey(s, decode, rest[j]) != FeatureKey(s, decode, rest[i - 1])
      {
        assert rest[j] == feats[j + 1];
      }
      PaintLastWins(q, s, decode, reproject, rest, i - 1);
    }
  }

  /** What painting writes does not depend on what was there before. */
  lemma {:induction false} PaintForgets(p: map<AreaKey, seq<Geometry>>, q: map<AreaKey, seq<Geometry>>, s: Settings,
                                        decode: Decoder, reproject: Reprojector, feats: seq<Feature>)
    requires AgreeOff(p, q, KeysOf(s, decode, feats))
    ensures Paint(p, s, decode, reproject, feats) == Paint(q, s, decode, reproject, feats)
    decreases |feats|
  {
    if feats == [] {
      assert forall k :: k in p <==> k in q;
    } else {
      var rest := feats[1..];
      match FeatureKey(s, decode, feats[0])
      case Some(k0) =>
        var v := [reproject(feats[0].geometry)];
        assert AgreeOff(p[k0 := v], q[k0 := v], KeysOf(s, decode, rest)) by {
          forall k | k !in KeysOf(s, decode, rest) && k != k0
            ensures k !in KeysOf(s, decode, feats)
          {
          }
        }
        PaintForgets(p[k0 := v], q[k0 := v], s, decode, reproject, rest);
      case None =>
        assert AgreeOff(p, q, KeysOf(s, decode, rest)) by {
          forall k | k !in KeysOf(s, decode, rest)
            ensures k !in KeysOf(s, decode, feats)
          {
          }
        }
        PaintForgets(p, q, s, decode, reproject, rest);
    }
  }

  /** Painting the same features twice is painting them once. */
  lemma PaintTwice(p: map<AreaKey, seq<Geometry>>, s: Settings, decode: Decoder, reproject: Reprojector, feats: seq<Feature>)
    ensures Paint(Paint(p, s, decode, reproject, feats), s, decode, reproject, feats) == Paint(p, s, decode, reproject, feats)
  {
    PaintOff(p, s, decode, reproject, feats);
    PaintForgets(Paint(p, s, decode, reproject, feats), p, s, decode, reproject, feats);
  }

  /** A commit-mode loop that runs to the end leaves exactly the painted polygons. */
  lemma {:induction false} CommitPolygons(db: Db, s: Settings, target: int, decode: Decoder, reproject: Reprojector,
                                          feats: seq<Feature>)
    requires s.commit
    requires ImportFeatures(db, s, target, decode, reproject, feats).error == None
    ensures ImportFeatures(db, s, target, decode, reproject, feats).db.polygons == Paint(db.polygons, s, decode, reproject, feats)
    decreases |feats|
  {
    if feats != [] {
      var next := ImportFeature(db, s, target, decode, reproject, feats[0]).value;
      CommitPolygons(next, s, target, decode, reproject, feats[1..]);
    }
  }

  /**
   * From a catalog where every feature's area is already settled and the
   * current generation is not ahead of the target, a commit-mode loop runs to
   * the end and changes nothing but the polygons it paints.
   */
  lemma {:induction false} SettledRerun(db: Db, s: Settings, target: int, decode: Decoder, reproject: Reprojector,
                                        feats: seq<Feature>)
    requires Consistent(db) && s.commit && LookupsResolved(db, s)
    requires db.current.None? || db.current.value <= target
    requires forall f | f in feats :: FeatureKey(s, decode, f).Some? && Settled(db, s, target, FeatureKey(s, decode, f).value)
    ensures ImportFeatures(db, s, target, decode, reproject, feats)
         == Outcome(db.(polygons := Paint(db.polygons, s, decode, reproject, feats)), None)
    decreases |feats|
  {
    if feats != [] {
      var feat := feats[0];
      var key := FeatureKey(s, decode, feat).value;
      var name := key.name;
      assert FeatureName(feat, s.nameField, s.encoding, decode) == Success(name);
      var i := FindName(db.names, key, s.nameTypeCode).value;
      assert db.names[i] == NameRecord(key, s.nameTypeCode, name);
      assert UpsertName(db.names, key, s.nameTypeCode, name) == db.names;
      assert db.areas[key].(generationHigh := Some(target)) == db.areas[key];
      assert db.areas[key := db.areas[key]] == db.areas;
      var next := db.(polygons := db.polygons[key := [reproject(feat.geometry)]]);
      assert ImportFeature(db, s, target, decode, reproject, feat) == Success(next);
      assert forall f | f in feats[1..] :: f in feats;
      SettledRerun(next, s, target, decode, reproject, feats[1..]);
    }
  }

  /**
   * Re-running a commit-mode loop that ran to the end, on the same features
   * and target, succeeds and leaves the catalog as it is, provided the current
   * generation is not ahead of the target.
   */
  lemma RerunFeaturesIdempotent(db: Db, s: Settings, target: int, decode: Decoder, reproject: Reprojector,
                                feats: seq<Feature>)
    requires Consistent(db) && s.commit && LookupsResolved(db, s)
    requires db.current.None? || db.current.value <= target
    requires ImportFeatures(db, s, target, decode, reproject, feats).error == None
    ensures var once := ImportFeatures(db, s, target, decode, reproject, feats).db;
      ImportFeatures(once, s, target, decode, reproject, feats) == Outcome(once, None)
  {
    var once := ImportFeatures(db, s, target, decode, reproject, feats).db;
    ImportFeaturesConsistent(db, s, target, decode, reproject, feats);
    CommitRunSettlesEveryFeature(db, s, target, decode, reproject, feats);
    SettledRerun(once, s, target, decode, reproject, feats);
    CommitPolygons(db, s, target, decode, reproject, feats);
    PaintTwice(db.polygons, s, decode, reproject, feats);
    assert once.(polygons := once.polygons) == once;
  }

  /** The target generation named by `id` is not behind the current generation. */
  predicate TargetNotBehind(db: Db, id: Option<string>) {
    match id
    case Some(text) =>
      (match ParseId(text)
       case Some(n) => db.current.None? || db.current.value <= n
       case None => true)
    case None => true
  }

  /**
   * Running the command again with --commit on the same dataset and
   * generation, after a run that succeeded, succeeds and changes nothing.
   */
  lemma RerunIsIdempotent(db: Db, opts: CommandOptions, prompts: Prompts, againPrompts: Prompts, decode: Decoder,
                          reproject: Reprojector, feats: seq<Feature>)
    requires Consistent(db) && opts.commit && TargetNotBehind(db, opts.generationId)
    requires RunImport(db, opts, prompts, decode, reproject, feats).error == None
    ensures var once := RunImport(db, opts, prompts, decode, reproject, feats).db;
      RunImport(once, opts, againPrompts, decode, reproject, feats) == Outcome(once, None)
  {
    var s := CheckOptions(opts).value;
    var resolved := ResolveLookups(db, s, prompts);
    var target := TargetGeneration(resolved.generations, s.generationId).value;
    var once := RunImport(db, opts, prompts, decode, reproject, feats).db;
    ImportFeaturesConsistent(resolved, s, target, decode, reproject, feats);
    RerunFeaturesIdempotent(resolved, s, target, decode, reproject, feats);
    assert ResolveLookups(once, s, againPrompts) == once;
  }

  /** Re-running with an older target than the current generation fails, even after a successful run. */
  lemma RerunBehindCurrentFails(db: Db, s: Settings, target: int, decode: Decoder, reproject: Reprojector, feats: seq<Feature>)
    requires Consistent(db) && s.commit && LookupsResolved(db, s)
    requires db.current.Some? && target < db.current.value
    requires feats != []
    requires ImportFeatures(db, s, target, decode, reproject, feats).error == None
    ensures var once := ImportFeatures(db, s, target, decode, reproject, feats).db;
      ImportFeatures(once, s, target, decode, reproject, feats).error.Some?
  {
    CommitRunSettlesEveryFeature(db, s, target, decode, reproject, feats);
    ImportFeaturesConsistent(db, s, target, decode, reproject, feats);
    assert feats[0] in feats;
  }

  // ---------------------------------------------------------------------
  // Dry run against commit

  /** No two features of the dataset are filed under the same area. */
  ghost predicate DistinctKeys(s: Settings, decode: Decoder, feats: seq<Feature>) {
    forall i, j | 0 <= i < j < |feats| && FeatureKey(s, decode, feats[i]).Some? && FeatureKey(s, decode, feats[j]).Some? ::
      FeatureKey(s, decode, feats[i]) != FeatureKey(s, decode, feats[j])
  }

  /** Two catalogs that look the same to the continuity check for the given areas. */
  ghost predicate SameAreasFor(a: Db, b: Db, keys: set<AreaKey>) {
    && a.current == b.current
    && forall k | k in keys :: (k in a.areas <==> k in b.areas) && (k in a.areas ==> a.areas[k] == b.areas[k])
  }

  /**
   * One feature: the dry run and the commit run fail alike, the dry run keeps
   * its catalog, and the commit run changes no area but the feature's own.
   */
  lemma DryMatchesCommitStep(dry: Db, wet: Db, s: Settings, target: int, decode: Decoder,
                             reproject: Reprojector, feat: Feature)
    requires s.commit
    requires dry.current == wet.current
    requires FeatureKey(s, decode, feat).Some? ==>
               var k := FeatureKey(s, decode, feat).value;
               (k in dry.areas <==> k in wet.areas) && (k in dry.areas ==> dry.areas[k] == wet.areas[k])
    ensures var rd := ImportFeature(dry, s.(commit := false), target, decode, reproject, feat);
      var rw := ImportFeature(wet, s, target, decode, reproject, feat);
      && (rd.Success? <==> rw.Success?)
      && (rd.Failure? ==> rd.error == rw.error)
      && (rd.Success? ==> rd.value == dry && rw.value.current == wet.current)
      && (rd.Success? ==> forall k | k in wet.areas && Some(k) != FeatureKey(s, decode, feat) ::
            k in rw.value.areas && rw.value.areas[k] == wet.areas[k])
      && (rd.Success? ==> forall k | k in rw.value.areas && Some(k) != FeatureKey(s, decode, feat) :: k in wet.areas)
  {
    var sd := s.(commit := false);
    assert FeatureName(feat, sd.nameField, sd.encoding, decode) == FeatureName(feat, s.nameField, s.encoding, decode);
  }

  /** The areas of the later features are areas of the whole list, and none is the first feature's. */
  lemma RestKeys(s: Settings, decode: Decoder, feats: seq<Feature>)
    requires feats != [] && DistinctKeys(s, decode, feats)
    ensures forall k | k in KeysOf(s, decode, feats[1..]) ::
      k in KeysOf(s, decode, feats) && Some(k) != FeatureKey(s, decode, feats[0])
    ensures DistinctKeys(s, decode, feats[1..])
  {
    var rest := feats[1..];
    forall k | k in KeysOf(s, decode, rest)
      ensures k in KeysOf(s, decode, feats) && Some(k) != FeatureKey(s, decode, feats[0])
    {
      var f :| f in rest && FeatureKey(s, decode, f).Some? && FeatureKey(s, decode, f).value == k;
      var j :| 0 <= j < |rest| && rest[j] == f;
      assert feats[j + 1] == f;
    }
    forall i, j | 0 <= i < j < |rest| && FeatureKey(s, decode, rest[i]).Some? && FeatureKey(s, decode, rest[j]).Some?
      ensures FeatureKey(s, decode, rest[i]) != FeatureKey(s, decode, rest[j])
    {
      assert rest[i] == feats[i + 1] && rest[j] == feats[j + 1];
    }
  }

  /** With distinct areas, a dry-run loop stops with the same error as a commit-mode loop, or neither stops. */
  lemma {:induction false} DryMatchesCommitFeatures(dry: Db, wet: Db, s: Settings, target: int, decode: Decoder,
                                                    reproject: Reprojector, feats: seq<Feature>)
    requires s.commit
    requires SameAreasFor(dry, wet, KeysOf(s, decode, feats))
    requires DistinctKeys(s, decode, feats)
    ensures ImportFeatures(dry, s.(commit := false), target, decode, reproject, feats).error
         == ImportFeatures(wet, s, target, decode, reproject, feats).error
    decreases |feats|
  {
    if feats != [] {
      var sd := s.(commit := false);
      var rest := feats[1..];
      var key := FeatureKey(s, decode, feats[0]);
      if key.Some? {
        assert key.value in KeysOf(s, decode, feats);
      }
      DryMatchesCommitStep(dry, wet, s, target, decode, reproject, feats[0]);
      var rd := ImportFeature(dry, sd, target, decode, reproject, feats[0]);
      var rw := ImportFeature(wet, s, target, decode, reproject, feats[0]);
      if rw.Success? {
        RestKeys(s, decode, feats);
        assert SameAreasFor(dry, rw.value, KeysOf(s, decode, rest));
        DryMatchesCommitFeatures(dry, rw.value, s, target, decode, reproject, rest);
      }
    }
  }

  lemma {:induction false} MissingIgnoresCommit(opts: CommandOptions, ks: seq<RequiredOption>, commit: bool)
    ensures MissingAmong(opts.(commit := commit), ks) == MissingAmong(opts, ks)
    decreases |ks|
  {
    if ks != [] {
      var other := opts.(commit := commit);
      assert Value(other, ks[0]) == Value(opts, ks[0]);
      MissingIgnoresCommit(opts, ks[1..], commit);
      assert MissingAmong(other, ks[1..]) == MissingAmong(opts, ks[1..]);
    }
  }

  /**
   * When no two features name the same area, a dry run stops with exactly the
   * error the commit run would stop with, or neither stops.
   */
  lemma DryRunMatchesCommit(db: Db, opts: CommandOptions, prompts: Prompts, decode: Decoder,
                            reproject: Reprojector, feats: seq<Feature>)
    requires opts.commit
    requires CheckOptions(opts).Success? ==> DistinctKeys(CheckOptions(opts).value, decode, feats)
    ensures RunImport(db, opts.(commit := false), prompts, decode, reproject, feats).error
         == RunImport(db, opts, prompts, decode, reproject, feats).error
  {
    var od := opts.(commit := false);
    MissingIgnoresCommit(opts, RequiredOrder, false);
    var cd, cc := CheckOptions(od), CheckOptions(opts);
    if cc.Success? {
      var sc := cc.value;
      assert cd.Success? && cd.value == sc.(commit := false);
      var resolved := ResolveLookups(db, sc, prompts);
      match TargetGeneration(db.generations, sc.generationId)
      case Some(target) =>
        DryMatchesCommitFeatures(db, resolved, sc, target, decode, reproject, feats);
      case None =>
    }
  }

  /**
   * With a name that occurs twice and a target behind the current generation,
   * a dry run passes while the commit run stops at the second occurrence:
   * the dry run does not see the first occurrence's extension.
   */
  lemma RepeatedNameDiverges(db: Db, s: Settings, target: int, decode: Decoder, reproject: Reprojector, feat: Feature)
    requires s.commit
    requires FeatureKey(s, decode, feat).Some? && FeatureKey(s, decode, feat).value in db.areas
    requires !SkipsGeneration(db.areas[FeatureKey(s, decode, feat).value], db.current)
    requires db.current.Some? && target < db.current.value
    ensures ImportFeatures(db, s.(commit := false), target, decode, reproject, [feat, feat]).error == None
    ensures ImportFeatures(db, s, target, decode, reproject, [feat, feat]).error.Some?
  {
    var sd := s.(commit := false);
    assert FeatureName(feat, sd.nameField, sd.encoding, decode) == FeatureName(feat, s.nameField, s.encoding, decode);
    assert ImportFeature(db, sd, target, decode, reproject, feat) == Success(db);
    assert [feat, feat][1..] == [feat];
    assert [feat][1..] == [];
    assert ImportFeatures(db, sd, target, decode, reproject, [feat]) == Outcome(db, None);
  }
}
