# MapIt boundary import, modelled in Dafny

This project models the per-feature reconciliation loop of MapIt's
`mapit_import` management command (`Command.handle_label`). The command reads
named boundary features from a shapefile or KML file. It files each one in a
catalog of areas whose versions are scoped by generations. In order, a run:

1. checks that `--generation_id`, `--area_type_code`, `--name_type_code` and
   `--country_code` are given, reporting every missing one;
2. fills in the defaults `Name` (name field) and `utf-8` (encoding), and
   refuses an area type code longer than three characters;
3. resolves the area type, name type and country. A code the catalog does not
   know gets the description typed at a prompt and is saved only with
   `--commit`;
4. looks up the target generation;
5. for each feature: reads and decodes the name field, collapses every
   whitespace run to one space, and refuses an empty name. It then finds the
   area with that name and type, or builds a new one that lives only in the
   target generation. It stops the run if the area's last generation is older
   than the current generation, and extends the area to the target
   generation. With `--commit` it saves the area, upserts its name record for
   the name type and replaces its polygons with the reprojected geometry.

Modules:

- `Wrappers` (`wrappers.dfy`): `Option` and `Result`.
- `ImportOptions` (`options.dfy`): the option checks of steps 1–2.
- `NameNormalization` (`names.dfy`): `re.sub('\s+', ' ', name)` as `Collapse`.
  It is proved equal to a character-by-character reference, `Squeeze`, and
  its properties are proved.
- `CatalogModel` (`catalog.dfy`): the stored records (`Db`), the name-record
  upsert, the generation lookup, and `Reconcile` (find or create, continuity
  check, extension).
- `Import` (`import.dfy`): the run as functions (`ImportFeature`,
  `ImportFeatures`, `RunImport`). It also holds the class `Catalog`, the stored
  state as fields. Its method `HandleLabel` performs the run step by step with
  a loop over the features. The method is proved to leave exactly the catalog
  and error that `RunImport` gives.
- `ImportProperties` (`properties.dfy`): what whole runs guarantee.

### Behaviour of the command worth knowing

- Normalisation does not trim. `"  North   Ward "` becomes `" North Ward "`,
  and a name made only of whitespace becomes `" "`, which is accepted. Only a
  name that decodes to the empty string stops the run.
- The continuity check also applies to a brand-new area. Its end is the
  target generation, so any new area stops the run when the target is
  older than the current generation (`NewAreaContinuity`).
- `generation_low <= generation_high` is not kept in every case. It holds when
  no stored area starts after the target generation
  (`ImportFeaturesKeepsOrder`). It fails when a matched area starts after the
  target and has not fallen behind the current generation
  (`TargetBeforeStartBreaksOrder`).
- Re-running a committed import is idempotent only when the current
  generation is not ahead of the target (`RerunIsIdempotent`). Otherwise the
  second run over a non-empty dataset stops (`RerunBehindCurrentFails`).
- A dry run reaches the same verdict as a commit run when no two features
  name the same area (`DryRunMatchesCommit`). With a repeated name and a
  target behind the current generation, the two differ
  (`RepeatedNameDiverges`).
- An error stops the run but does not undo what was saved before it. This
  covers lookups saved before an unknown generation id, and features written
  before a failing feature.

## Model

| member | source | states |
|---|---|---|
| `ImportOptions.Missing` | mapit/management/commands/mapit_import.py:67-73 | an option is listed iff it is not given (absent or empty); the list follows the checking order, so each missing option appears exactly once |
| `ImportOptions.MissingAmong` | mapit/management/commands/mapit_import.py:68-71 | the options of a list that are not given, kept in the list's order |
| `ImportOptions.CheckOptions` | mapit/management/commands/mapit_import.py:67-84 | the run stops with the list of missing options iff at least one is missing; otherwise it stops iff the area type code is longer than 3; on success the settings carry the given values, `Name` and `utf-8` as defaults |
| `NameNormalization.SkipSpace` | mapit/management/commands/mapit_import.py:130 | drops exactly the leading whitespace run: what remains is a suffix that starts with a non-space |
| `NameNormalization.Collapse` | mapit/management/commands/mapit_import.py:130 | the result is empty iff the input is; it starts with whitespace iff the input does; it has no two adjacent whitespace characters and its only whitespace is the plain space |
| `NameNormalization.CollapseIsSqueeze` | mapit/management/commands/mapit_import.py:130 | run-by-run substitution equals the reference: drop whitespace after whitespace, turn other whitespace into a space, keep everything else |
| `NameNormalization.SqueezeAfterSpace` | mapit/management/commands/mapit_import.py:130 | after a whitespace character, the reference skips the whole run |
| `NameNormalization.CollapseKeepsNonSpace` | mapit/management/commands/mapit_import.py:130 | the non-whitespace characters are kept, in order, and none is added |
| `NameNormalization.NonSpaceSkip` | mapit/management/commands/mapit_import.py:130 | skipping a whitespace run loses no non-whitespace character |
| `NameNormalization.CollapseFixesNormalForm` | mapit/management/commands/mapit_import.py:130 | a string with no adjacent whitespace and no whitespace but spaces is unchanged |
| `NameNormalization.CollapseIdempotent` | mapit/management/commands/mapit_import.py:130 | normalising twice equals normalising once |
| `NameNormalization.CollapseAllSpace` | mapit/management/commands/mapit_import.py:130-132 | a non-empty all-whitespace name becomes `" "`, so it is not rejected as empty |
| `NameNormalization.CollapseWord` | mapit/management/commands/mapit_import.py:130 | a word without whitespace passes through unchanged |
| `NameNormalization.CollapseRun` | mapit/management/commands/mapit_import.py:130 | a maximal whitespace run becomes exactly one space |
| `NameNormalization.SkipAll` | mapit/management/commands/mapit_import.py:130 | skipping stops exactly at the end of a whitespace run |
| `NameNormalization.CollapseAroundWords` | mapit/management/commands/mapit_import.py:130 | leading, inner and trailing runs each become one space (e.g. `"  North   Ward "` gives `" North Ward "`); nothing is trimmed |
| `CatalogModel.SaveIfMissing` | mapit/management/commands/mapit_import.py:86-105 | a known code keeps its row; an unknown code is added with the prompted text; no other row changes |
| `CatalogModel.ParseId` | mapit/management/commands/mapit_import.py:113 | a generation id is read iff it is a non-empty string of decimal digits |
| `CatalogModel.TargetGeneration` | mapit/management/commands/mapit_import.py:113 | the target is found iff the id parses and names a stored generation |
| `CatalogModel.ParseDecimal` | mapit/management/commands/mapit_import.py:113 | every id written in decimal reads back as the number it spells, so the id picks exactly that generation |
| `CatalogModel.LeadingZero` | mapit/management/commands/mapit_import.py:113 | leading zeros do not change which generation an id names |
| `CatalogModel.FindName` | mapit/management/commands/mapit_import.py:160 | returns the index of a record for (area, name type), or reports that none exists |
| `CatalogModel.UpsertName` | mapit/management/commands/mapit_import.py:160 | update_or_create: the record for (area, name type) with the new text is present and at most one record is added; its full contract is `UpsertNameSpec` and `UpsertNameOthers` |
| `CatalogModel.NameOfUnique` | mapit/management/commands/mapit_import.py:160 | with at most one record per pair, looking a pair up finds that record's text |
| `CatalogModel.UpsertNameSpec` | mapit/management/commands/mapit_import.py:160 | after update_or_create there is exactly one record for (area, name type), it holds the new text, records for other pairs are kept, and nothing else is added |
| `CatalogModel.UpsertNameOthers` | mapit/management/commands/mapit_import.py:160 | an upsert leaves the text of every other (area, name type) pair unchanged |
| `CatalogModel.SkipsGeneration` | mapit/management/commands/mapit_import.py:150 | the continuity condition: the area has an end, a current generation exists and the end is older; its effect on a run is stated by `Reconcile`, `NewAreaContinuity` and `RerunBehindCurrentFails` |
| `CatalogModel.Reconcile` | mapit/management/commands/mapit_import.py:136-152 | for a new area: fails iff a current generation exists and the target is older. For a matched area: fails iff it has an end, a current generation exists and the end is older. On success the end is the target, and a matched area's other fields are unchanged |
| `CatalogModel.ReconcileScenarios` | mapit/management/commands/mapit_import.py:136-152 | Springfield/WD cases: created with 5..5; end 4 extended to 5 when current is 4; end 3 fails when current is 4; no current generation means no check |
| `Import.ResolveLookups` | mapit/management/commands/mapit_import.py:86-105 | in a dry run the catalog is unchanged; with commit the three codes are present, each table is `SaveIfMissing` of its code, so known rows keep their descriptions, new ones get the prompted texts and no other row changes; areas, names, polygons and generations are untouched; consistency is kept |
| `Import.FeatureName` | mapit/management/commands/mapit_import.py:119-132 | fails with FieldNotFound iff the field is absent, with DecodeFailed iff decoding fails, with EmptyName iff the decoded text is empty; a success is exactly `Collapse` of the decoded text, hence non-empty, normalised, and keeping the decoded text's non-whitespace characters |
| `Import.ImportFeature` | mapit/management/commands/mapit_import.py:119-161 | one feature changes no lookup table or generation; a dry run changes nothing; a committed success leaves the feature's area ending at the target (the full effect is `CommitFeature`, consistency is `ImportFeatureConsistent`) |
| `Import.ImportFeatures` | mapit/management/commands/mapit_import.py:117-161 | the feature loop never changes a lookup table or the generations; what it writes is stated by `CommitRunSettlesEveryFeature`, `CommitPolygons` and `DryRunFeatures`, and what it leaves alone by `ImportFeaturesFrame` |
| `Import.RunImport` | mapit/management/commands/mapit_import.py:65-161 | a run never adds a generation or moves the current one, and finishes without error only when the options pass and the generation id names a stored generation |
| `Import.ImportFeatureConsistent` | mapit/management/commands/mapit_import.py:136-161 | one feature keeps keys matching areas, references resolved and name records unique, and never changes lookups or generations |
| `Import.ImportFeaturesConsistent` | mapit/management/commands/mapit_import.py:117-161 | the whole feature loop keeps the catalog consistent |
| `Import.Catalog.constructor` | mapit/management/commands/mapit_import.py:14 | the stored catalog starts as a given consistent snapshot |
| `Import.Catalog.ResolveCodes` | mapit/management/commands/mapit_import.py:86-105 | the three lookups leave exactly the catalog `ResolveLookups` gives: unchanged in a dry run, unknown codes saved with the prompted texts with `--commit` |
| `Import.Catalog.ImportOne` | mapit/management/commands/mapit_import.py:119-161 | one loop pass leaves exactly the catalog and error that `ImportFeature` gives; an error changes nothing |
| `Import.Catalog.ImportAll` | mapit/management/commands/mapit_import.py:117-161 | the feature loop leaves exactly the catalog and error `ImportFeatures` gives (stop at the first failing feature, keep what earlier ones wrote) and keeps the catalog consistent |
| `Import.Catalog.HandleLabel` | mapit/management/commands/mapit_import.py:65-161 | the whole command leaves exactly the catalog and error that `RunImport` gives for the catalog as it was, and keeps it consistent |
| `ImportProperties.DryRunFeatures` | mapit/management/commands/mapit_import.py:158-161 | without commit the feature loop changes nothing |
| `ImportProperties.DryRunLeavesCatalogUnchanged` | mapit/management/commands/mapit_import.py:86-161 | without `--commit` no type, name type, country, area, name record or polygon is saved, whatever stops the run |
| `ImportProperties.OptionErrorsStopFirst` | mapit/management/commands/mapit_import.py:67-84 | a failed option check stops the run before any lookup or feature, with the catalog unchanged |
| `ImportProperties.NewAreaContinuity` | mapit/management/commands/mapit_import.py:139-151 | a feature with a new area fails the continuity check iff a current generation exists and the target is older |
| `ImportProperties.CommitFeature` | mapit/management/commands/mapit_import.py:136-161 | after a committed feature: its area exists with the target as end. A matched area keeps its name, type, country and start; a new one has the run's country and starts at the target. There is exactly one name record for the name type, holding the normalised name. The polygons are the reprojected geometry. Other areas are unchanged |
| `ImportProperties.FeatureFrame` | mapit/management/commands/mapit_import.py:136-161 | one feature deletes no area; an existing area keeps its start and country; an area it does not name keeps its record and names; names of other name types are kept |
| `ImportProperties.ImportFeaturesFrame` | mapit/management/commands/mapit_import.py:117-161 | the whole loop, whatever stops it, deletes no area, keeps every existing area's start and country, leaves areas no feature names and their names untouched, and keeps names of other name types |
| `ImportProperties.SettledStays` | mapit/management/commands/mapit_import.py:152-160 | a later committed feature keeps an area's end at the target and its name record |
| `ImportProperties.SettledThrough` | mapit/management/commands/mapit_import.py:117-161 | an area settled in the target generation stays settled through the rest of the loop |
| `ImportProperties.CommitRunSettlesEveryFeature` | mapit/management/commands/mapit_import.py:117-161 | after a committed loop that ran to the end, every feature's area ends at the target and carries the feature's name for the name type |
| `ImportProperties.RunKeepsConsistent` | mapit/management/commands/mapit_import.py:65-161 | every run, whatever stops it, leaves a consistent catalog |
| `ImportProperties.ImportFeatureKeepsOrder` | mapit/management/commands/mapit_import.py:150-152 | when no area starts after the target, a feature keeps start <= end for every area |
| `ImportProperties.ImportFeaturesKeepsOrder` | mapit/management/commands/mapit_import.py:117-152 | the same for the whole loop |
| `ImportProperties.TargetBeforeStartBreaksOrder` | mapit/management/commands/mapit_import.py:150-152 | a matched area that starts after the target and has not fallen behind the current generation is accepted, and is stored with end before start |
| `ImportProperties.PaintOff` | mapit/management/commands/mapit_import.py:161 | writing the features' polygons leaves every other area's polygons alone |
| `ImportProperties.PaintForgets` | mapit/management/commands/mapit_import.py:161 | the written polygons do not depend on what the features' areas held before |
| `ImportProperties.PaintTwice` | mapit/management/commands/mapit_import.py:161 | writing the same features' polygons twice equals writing them once |
| `ImportProperties.PaintLastWins` | mapit/management/commands/mapit_import.py:154-161 | an area named by several features ends with the reprojected geometry of the last one |
| `ImportProperties.CommitPolygons` | mapit/management/commands/mapit_import.py:154-161 | a committed loop that ran to the end leaves exactly the polygons `Paint` gives; by `PaintLastWins` each area holds the polygon of its last feature |
| `ImportProperties.SettledRerun` | mapit/management/commands/mapit_import.py:136-161 | from a catalog where every feature's area is already settled and the current generation is not ahead, the loop succeeds and only rewrites polygons |
| `ImportProperties.RerunFeaturesIdempotent` | mapit/management/commands/mapit_import.py:117-161 | re-running a successful committed loop on the same features and target succeeds and changes nothing, if the current generation is not ahead |
| `ImportProperties.RerunIsIdempotent` | mapit/management/commands/mapit_import.py:65-161 | running the command again with the same options and dataset after a successful commit run succeeds and leaves the catalog unchanged, if the current generation is not ahead of the target |
| `ImportProperties.RerunBehindCurrentFails` | mapit/management/commands/mapit_import.py:150-151 | with the target older than the current generation, a second run over the same non-empty dataset after a successful one always stops |
| `ImportProperties.DryMatchesCommitStep` | mapit/management/commands/mapit_import.py:136-161 | for one feature whose area looks the same to both runs, the dry run and the commit run fail alike; the dry run keeps its catalog and the commit run changes no other area |
| `ImportProperties.DryMatchesCommitFeatures` | mapit/management/commands/mapit_import.py:136-161 | with distinct areas, a dry-run loop and a commit loop stop with the same error, or neither stops |
| `ImportProperties.MissingIgnoresCommit` | mapit/management/commands/mapit_import.py:67-73 | the missing-option report does not depend on `--commit` |
| `ImportProperties.DryRunMatchesCommit` | mapit/management/commands/mapit_import.py:65-161 | when no two features name the same area, a dry run stops with exactly the error the commit run stops with, or neither stops |
| `ImportProperties.RepeatedNameDiverges` | mapit/management/commands/mapit_import.py:136-161 | with a repeated name and a target behind the current generation, the dry run passes while the commit run stops at the second occurrence |

## Left out

- Django's ORM: `objects.get`, `save` and `update_or_create` are map and sequence
  updates on the `Catalog` fields. There are no transactions, no database
  errors, and no `MultipleObjectsReturned` for areas, because areas are keyed
  by (name, type code). Name records are kept unique by the consistency
  invariant.
- Area lookup with a type that was never saved (dry run with a new type code)
  is modelled as a lookup by type code. The consistency invariant keeps every
  stored area's type code in the type table, so such a lookup finds nothing.
- `Generation.objects.current()` is the stored `current` field, read as it is.
  How the current generation is chosen is not modelled.
- The GDAL `DataSource` reader: the dataset is the sequence of features of
  its first layer. Each feature is a map from field names to raw bytes plus
  an opaque geometry. A field value that is not a byte string is not modelled.
- `name.decode(encoding)` is the `Decoder` parameter, an opaque deterministic
  function that may fail. No real codec is modelled.
- `feat.geom.transform(4326, clone=True)` is the `Reprojector` parameter, an
  opaque deterministic function. No coordinate arithmetic is modelled.
- The `Reprojector` never fails. The GDAL transform (`mapit/management/commands/mapit_import.py:154`) can raise
  (for example when the layer has no spatial reference), in dry runs and
  commit runs alike, and that would stop the run; the model has no such stop.
- `save_polygons`: `mapit/management/command_utils.py` is not part of this
  model. Its effect is taken to be that the area's polygons are replaced by
  the given list.
- The `raw_input` prompts are the `Prompts` parameter. Its texts are used only
  for codes the catalog does not know.
- `print` output, message texts, `sys.exit` codes and the "looking at"
  diagnostics are not modelled; each stop is an `ImportError` variant.
- Option parsing (the `option_list` declarations) is not modelled. The
  parsed options are the `CommandOptions` datatype.
- `CatalogModel.ParseId`: does not model what Python's `int()` also accepts
  (a sign, surrounding whitespace); such ids are treated as unknown
  generations.
- `ImportOptions.CheckOptions`: counts the characters of the area type code,
  while Python 2 counts the bytes of the command-line string.
