/**
 * The idempotent backfill of catalog rows, access grants and catalog links: migration `96470fdcc686`.
 * A table with a unique index is a map from its key; the orders in which PostgreSQL and Python's
 * frozensets enumerate rows, and the order among tied rows, are parameters.
 */
module CatalogBackfill {
  import opened Decimals
  import opened Wrappers

  // ---------------------------------------------------------------- tables

  /** The unique index of `agent_catalog`; NULLs are not distinct in it. */
  datatype ModelKey = ModelKey(org: Option<nat>, custom: Option<nat>, provider: string, name: string)

  datatype Entry = Entry(id: nat, metadata: nat, config: Option<nat>)

  datatype Custom = Custom(id: nat, org: nat, config: nat)

  datatype Grant = Grant(org: nat, workspace: Option<nat>, model: nat)

  datatype SettingKey = SettingKey(org: nat, key: string)

  /** The value as `orjson.loads` reads it: a text, or anything else, readable or not. */
  datatype Value = Text(text: string) | Other

  datatype Setting = Setting(value: Value, encrypted: bool)

  datatype Preset = Preset(id: nat, workspace: nat, provider: string, name: string, link: Option<nat>)

  /** A secret; the same name can occur in several environments. */
  datatype Secret = Secret(org: nat, name: string, environment: string, blob: nat)

  datatype Db = Db(
    catalog: map<ModelKey, Entry>,
    customs: seq<Custom>,
    grants: set<Grant>,
    settings: map<SettingKey, Setting>,
    presets: seq<Preset>,
    versions: seq<Preset>,
    secrets: seq<Secret>,
    workspaces: map<nat, nat>,
    next: nat)

  datatype Seed = Seed(provider: string, name: string, metadata: nat)

  datatype Failure = BadSeeds | RepeatedSeed | SeveralSecrets(name: string) | SeveralProviders

  const CLOUD_PROVIDERS: set<string> := {"bedrock", "azure_openai", "azure_ai", "vertex_ai"}
  const DIRECT_PROVIDERS: set<string> := {"openai", "anthropic", "gemini"}
  const CUSTOM_PROVIDER_SLUG := "custom-model-provider"
  const CUSTOM_PROVIDER_MODEL_NAME := "custom"
  const DEFAULT_MODEL := "agent_default_model"
  const DEFAULT_MODEL_CATALOG_ID := "agent_default_model_catalog_id"

  /** `{}`, the metadata of rows that the migration makes for an organization. */
  const NO_METADATA: nat := 0

  /** The order among rows that the query leaves tied, for the row that asks. */
  type Tie = (nat, set<ModelKey>) -> ModelKey

  ghost predicate Chooses(tie: Tie) {
    forall asking: nat, keys: set<ModelKey> {:trigger tie(asking, keys)} :: keys != {} ==> tie(asking, keys) in keys
  }

  // ---------------------------------------------------------------- platform rows

  function SeedKey(s: Seed): ModelKey {
    ModelKey(None, None, s.provider, s.name)
  }

  predicate WellFormed(seeds: seq<Seed>) {
    seeds != [] && forall i :: 0 <= i < |seeds| ==> seeds[i].provider != "" && seeds[i].name != ""
  }

  ghost predicate DistinctSeeds(seeds: seq<Seed>) {
    forall i, j :: 0 <= i < j < |seeds| ==> SeedKey(seeds[i]) != SeedKey(seeds[j])
  }

  function Upsert(db: Db, s: Seed): Db {
    var key := SeedKey(s);
    if key in db.catalog then db.(catalog := db.catalog[key := db.catalog[key].(metadata := s.metadata)])
    else db.(catalog := db.catalog[key := Entry(db.next, s.metadata, None)], next := db.next + 1)
  }

  function UpsertAll(db: Db, seeds: seq<Seed>): Db {
    if seeds == [] then db else Upsert(UpsertAll(db, seeds[..|seeds| - 1]), seeds[|seeds| - 1])
  }

  // ---------------------------------------------------------------- rows of one organization

  predicate IsProviderSecret(name: string) {
    |name| >= 18 && "agent-" <= name && name[|name| - 12..] == "-credentials"
  }

  function SecretName(provider: string): string {
    "agent-" + provider + "-credentials"
  }

  function Blobs(secrets: seq<Secret>, org: nat, name: string): seq<nat> {
    if secrets == [] then []
    else
      var last := secrets[|secrets| - 1];
      Blobs(secrets[..|secrets| - 1], org, name) + (if last.org == org && last.name == name then [last.blob] else [])
  }

  function ProvidersOf(customs: seq<Custom>, org: nat): seq<nat> {
    if customs == [] then []
    else
      var last := customs[|customs| - 1];
      ProvidersOf(customs[..|customs| - 1], org) + (if last.org == org then [last.id] else [])
  }

  function CloudKey(org: nat, provider: string): ModelKey {
    ModelKey(Some(org), None, provider, provider)
  }

  function CustomKey(org: nat, provider: nat): ModelKey {
    ModelKey(Some(org), Some(provider), CUSTOM_PROVIDER_SLUG, CUSTOM_PROVIDER_MODEL_NAME)
  }

  /** `INSERT … ON CONFLICT DO NOTHING`; the row is fetched afterwards either way. */
  function InsertModel(db: Db, key: ModelKey, blob: nat): Db {
    if key in db.catalog then db
    else db.(catalog := db.catalog[key := Entry(db.next, NO_METADATA, Some(blob))], next := db.next + 1)
  }

  function GrantModel(db: Db, org: nat, key: ModelKey): Db
    requires key in db.catalog
  {
    db.(grants := db.grants + {Grant(org, None, db.catalog[key].id)})
  }

  function InsertCustom(db: Db, org: nat, blob: nat): Db {
    db.(customs := db.customs + [Custom(db.next, org, blob)], next := db.next + 1)
  }

  function MigrateCustom(db: Db, org: nat): Result<Db, Failure> {
    var blobs := Blobs(db.secrets, org, SecretName(CUSTOM_PROVIDER_SLUG));
    if |blobs| > 1 then Err(SeveralSecrets(CUSTOM_PROVIDER_SLUG))
    else if blobs == [] then Ok(db)
    else
      var existing := ProvidersOf(db.customs, org);
      if |existing| > 1 then Err(SeveralProviders)
      else
        var with := if existing == [] then InsertCustom(db, org, blobs[0]) else db;
        var key := CustomKey(org, if existing == [] then db.next else existing[0]);
        Ok(GrantModel(InsertModel(with, key, blobs[0]), org, key))
  }

  function MigrateCloud(db: Db, org: nat, provider: string): Result<Db, Failure> {
    var blobs := Blobs(db.secrets, org, SecretName(provider));
    if |blobs| > 1 then Err(SeveralSecrets(provider))
    else if blobs == [] then Ok(db)
    else
      var key := CloudKey(org, provider);
      Ok(GrantModel(InsertModel(db, key, blobs[0]), org, key))
  }

  function PlatformKeys(catalog: map<ModelKey, Entry>, provider: string): set<ModelKey> {
    set k | k in catalog && k.org == None && k.custom == None && k.provider == provider
  }

  function GrantsFor(catalog: map<ModelKey, Entry>, org: nat, keys: set<ModelKey>): set<Grant>
    requires keys <= catalog.Keys
  {
    set k | k in keys :: Grant(org, None, catalog[k].id)
  }

  function GrantDirect(db: Db, org: nat, provider: string): Result<Db, Failure> {
    var blobs := Blobs(db.secrets, org, SecretName(provider));
    if |blobs| > 1 then Err(SeveralSecrets(provider))
    else if blobs == [] then Ok(db)
    else Ok(db.(grants := db.grants + GrantsFor(db.catalog, org, PlatformKeys(db.catalog, provider))))
  }

  function MigrateClouds(db: Db, org: nat, providers: seq<string>): Result<Db, Failure> {
    if providers == [] then Ok(db)
    else
      var prior := MigrateClouds(db, org, providers[..|providers| - 1]);
      if prior.Err? then prior else MigrateCloud(prior.value, org, providers[|providers| - 1])
  }

  function GrantDirects(db: Db, org: nat, providers: seq<string>): Result<Db, Failure> {
    if providers == [] then Ok(db)
    else
      var prior := GrantDirects(db, org, providers[..|providers| - 1]);
      if prior.Err? then prior else GrantDirect(prior.value, org, providers[|providers| - 1])
  }

  // ---------------------------------------------------------------- linking

  predicate Visible(key: ModelKey, org: nat) {
    key.org == None || key.org == Some(org)
  }

  /** The rows of a model that an organization can see; a setting names no provider. */
  function Matches(catalog: map<ModelKey, Entry>, org: nat, provider: Option<string>, name: string): set<ModelKey> {
    set k | k in catalog && k.name == name && (provider == None || Some(k.provider) == provider) && Visible(k, org)
  }

  /** Platform rows sort first. */
  function Foremost(keys: set<ModelKey>): (r: set<ModelKey>)
    ensures r <= keys && (r == {} <==> keys == {})
  {
    var platform := set k | k in keys && k.org == None;
    if platform == {} then keys else platform
  }

  function Choose(tie: Tie, asking: nat, catalog: map<ModelKey, Entry>, keys: set<ModelKey>): Option<nat>
    requires Chooses(tie) && keys <= catalog.Keys
  {
    var foremost := Foremost(keys);
    if keys == {} then None else Some(catalog[tie(asking, foremost)].id)
  }

  /** The name that the old setting holds, if it is readable. */
  function LegacyDefault(settings: map<SettingKey, Setting>, org: nat): Option<string> {
    var key := SettingKey(org, DEFAULT_MODEL);
    if key !in settings || settings[key].encrypted || settings[key].value == Other || settings[key].value == Text("")
    then None
    else Some(settings[key].value.text)
  }

  function LinkDefault(db: Db, org: nat, tie: Tie): Db
    requires Chooses(tie)
  {
    var key := SettingKey(org, DEFAULT_MODEL_CATALOG_ID);
    var name := LegacyDefault(db.settings, org);
    if key in db.settings || name == None then db
    else
      match Choose(tie, org, db.catalog, Matches(db.catalog, org, None, name.value))
      case None => db
      case Some(id) => db.(settings := db.settings[key := Setting(Text(Decimal(id)), false)])
  }

  function LinkPreset(p: Preset, catalog: map<ModelKey, Entry>, workspaces: map<nat, nat>, tie: Tie): Preset
    requires Chooses(tie)
  {
    if p.link.Some? || p.workspace !in workspaces then p
    else p.(link := Choose(tie, p.id, catalog, Matches(catalog, workspaces[p.workspace], Some(p.provider), p.name)))
  }

  function LinkPresets(presets: seq<Preset>, catalog: map<ModelKey, Entry>, workspaces: map<nat, nat>, tie: Tie)
    : seq<Preset>
    requires Chooses(tie)
  {
    seq(|presets|, i requires 0 <= i < |presets| => LinkPreset(presets[i], catalog, workspaces, tie))
  }

  // ---------------------------------------------------------------- the whole run

  /** The orders in which one run visits organizations and providers, and breaks ties. */
  datatype Plan = Plan(orgs: seq<nat>, cloud: seq<string>, direct: seq<string>, tie: Tie)

  ghost predicate HasProviderSecret(secrets: seq<Secret>, org: nat) {
    exists i :: 0 <= i < |secrets| && secrets[i].org == org && IsProviderSecret(secrets[i].name)
  }

  /** An organization with a secret under any provider's name is among those the run visits. */
  lemma {:induction false} OwnersAreVisited(secrets: seq<Secret>, org: nat, provider: string)
    requires Blobs(secrets, org, SecretName(provider)) != []
    ensures HasProviderSecret(secrets, org)
  {
    var front, last := secrets[..|secrets| - 1], secrets[|secrets| - 1];
    if last.org == org && last.name == SecretName(provider) {
      assert last.name[|last.name| - 12..] == "-credentials";
      assert secrets[|secrets| - 1] == last;
    } else {
      OwnersAreVisited(front, org, provider);
      var i :| 0 <= i < |front| && front[i].org == org && IsProviderSecret(front[i].name);
      assert secrets[i] == front[i];
    }
  }

  ghost predicate Enumerates(plan: Plan, secrets: seq<Secret>) {
    && (forall o :: o in plan.orgs <==> HasProviderSecret(secrets, o))
    && (forall p :: p in plan.cloud <==> p in CLOUD_PROVIDERS)
    && (forall p :: p in plan.direct <==> p in DIRECT_PROVIDERS)
    && Chooses(plan.tie)
  }

  function MigrateOrg(db: Db, org: nat, plan: Plan): Result<Db, Failure>
    requires Chooses(plan.tie)
  {
    var custom := MigrateCustom(db, org);
    if custom.Err? then custom
    else
      var clouds := MigrateClouds(custom.value, org, plan.cloud);
      if clouds.Err? then clouds
      else
        var directs := GrantDirects(clouds.value, org, plan.direct);
        if directs.Err? then directs else Ok(LinkDefault(directs.value, org, plan.tie))
  }

  function MigrateOrgs(db: Db, orgs: seq<nat>, plan: Plan): Result<Db, Failure>
    requires Chooses(plan.tie)
  {
    if orgs == [] then Ok(db)
    else
      var prior := MigrateOrgs(db, orgs[..|orgs| - 1], plan);
      if prior.Err? then prior else MigrateOrg(prior.value, orgs[|orgs| - 1], plan)
  }

  function LinkAll(db: Db, tie: Tie): Db
    requires Chooses(tie)
  {
    db.(presets := LinkPresets(db.presets, db.catalog, db.workspaces, tie),
        versions := LinkPresets(db.versions, db.catalog, db.workspaces, tie))
  }

  ghost function Run(db: Db, seeds: seq<Seed>, plan: Plan): Result<Db, Failure>
    requires Chooses(plan.tie)
  {
    if !WellFormed(seeds) then Err(BadSeeds)
    else if !DistinctSeeds(seeds) then Err(RepeatedSeed)
    else
      var orgs := MigrateOrgs(UpsertAll(db, seeds), plan.orgs, plan);
      if orgs.Err? then orgs else Ok(LinkAll(orgs.value, plan.tie))
  }

  // ---------------------------------------------------------------- what a settled database looks like

  ghost predicate Granted(db: Db, org: nat, key: ModelKey) {
    key in db.catalog && Grant(org, None, db.catalog[key].id) in db.grants
  }

  ghost predicate SeedDone(db: Db, s: Seed) {
    SeedKey(s) in db.catalog && db.catalog[SeedKey(s)].metadata == s.metadata
  }

  ghost predicate SeedsDone(db: Db, seeds: seq<Seed>) {
    forall i :: 0 <= i < |seeds| ==> SeedDone(db, seeds[i])
  }

  ghost predicate CustomDone(db: Db, org: nat) {
    var blobs := Blobs(db.secrets, org, SecretName(CUSTOM_PROVIDER_SLUG));
    blobs == [] ||
    (|blobs| == 1 && |ProvidersOf(db.customs, org)| == 1 &&
     Granted(db, org, CustomKey(org, ProvidersOf(db.customs, org)[0])))
  }

  ghost predicate CloudDone(db: Db, org: nat, provider: string) {
    var blobs := Blobs(db.secrets, org, SecretName(provider));
    blobs == [] || (|blobs| == 1 && Granted(db, org, CloudKey(org, provider)))
  }

  ghost predicate DirectDone(db: Db, org: nat, provider: string) {
    var blobs := Blobs(db.secrets, org, SecretName(provider));
    blobs == [] ||
    (|blobs| == 1 && forall k :: k in PlatformKeys(db.catalog, provider) ==> Granted(db, org, k))
  }

  ghost predicate DefaultDone(db: Db, org: nat) {
    || SettingKey(org, DEFAULT_MODEL_CATALOG_ID) in db.settings
    || LegacyDefault(db.settings, org) == None
    || Matches(db.catalog, org, None, LegacyDefault(db.settings, org).value) == {}
  }

  ghost predicate OrgDone(db: Db, org: nat) {
    && CustomDone(db, org)
    && (forall p :: p in CLOUD_PROVIDERS ==> CloudDone(db, org, p))
    && (forall p :: p in DIRECT_PROVIDERS ==> DirectDone(db, org, p))
    && DefaultDone(db, org)
  }

  ghost predicate PresetDone(p: Preset, db: Db) {
    p.link.Some? || p.workspace !in db.workspaces ||
    Matches(db.catalog, db.workspaces[p.workspace], Some(p.provider), p.name) == {}
  }

  ghost predicate PresetsDone(presets: seq<Preset>, db: Db) {
    forall i :: 0 <= i < |presets| ==> PresetDone(presets[i], db)
  }

  ghost predicate Settled(db: Db, seeds: seq<Seed>) {
    && SeedsDone(db, seeds)
    && (forall o :: HasProviderSecret(db.secrets, o) ==> OrgDone(db, o))
    && PresetsDone(db.presets, db) && PresetsDone(db.versions, db)
  }

  // ---------------------------------------------------------------- how one organization's steps grow the tables

  ghost predicate CatalogGrown(org: nat, a: map<ModelKey, Entry>, b: map<ModelKey, Entry>) {
    && (forall k :: k in a ==> k in b && b[k] == a[k])
    && (forall k :: k in b && k !in a ==> k.org == Some(org))
  }

  ghost predicate SettingsGrown(org: nat, a: map<SettingKey, Setting>, b: map<SettingKey, Setting>) {
    && (forall k :: k in a ==> k in b && b[k] == a[k])
    && (forall k :: k in b && k !in a ==> k == SettingKey(org, DEFAULT_MODEL_CATALOG_ID))
  }

  ghost predicate CustomsGrown(org: nat, a: seq<Custom>, b: seq<Custom>) {
    forall o :: o != org ==> ProvidersOf(b, o) == ProvidersOf(a, o)
  }

  /** Grants are only added, and only to the organization as a whole. */
  ghost predicate GrantsGrown(org: nat, a: set<Grant>, b: set<Grant>) {
    && a <= b
    && (forall g :: g in b && g !in a ==> g.org == org && g.workspace == None)
  }

  ghost predicate SameRest(a: Db, b: Db) {
    b.presets == a.presets && b.versions == a.versions && b.secrets == a.secrets && b.workspaces == a.workspaces
  }

  /** Rows are only added, and only rows of the organization. */
  ghost predicate Grown(org: nat, a: Db, b: Db) {
    && CatalogGrown(org, a.catalog, b.catalog) && SettingsGrown(org, a.settings, b.settings)
    && CustomsGrown(org, a.customs, b.customs) && GrantsGrown(org, a.grants, b.grants) && SameRest(a, b)
  }

  lemma GrownTransitive(org: nat, a: Db, b: Db, c: Db)
    requires Grown(org, a, b) && Grown(org, b, c)
    ensures Grown(org, a, c)
  {}

  lemma {:induction false} InsertCustomGrows(db: Db, org: nat, blob: nat)
    ensures CustomsGrown(org, db.customs, InsertCustom(db, org, blob).customs)
    ensures ProvidersOf(InsertCustom(db, org, blob).customs, org) == ProvidersOf(db.customs, org) + [db.next]
  {
    var customs := InsertCustom(db, org, blob).customs;
    assert customs[..|customs| - 1] == db.customs;
  }

  /** Inserting a row of the organization and granting it. */
  lemma InsertAndGrant(db: Db, org: nat, key: ModelKey, blob: nat)
    requires key.org == Some(org)
    ensures var after := GrantModel(InsertModel(db, key, blob), org, key);
            Grown(org, db, after) && after.customs == db.customs && Granted(after, org, key)
    ensures Granted(db, org, key) ==> GrantModel(InsertModel(db, key, blob), org, key) == db
  {}

  /** The organization's one custom provider gets its row and its grant. */
  lemma CustomGranted(db: Db, org: nat, provider: nat, blob: nat, after: Db)
    requires ProvidersOf(db.customs, org) == [provider]
    requires Blobs(db.secrets, org, SecretName(CUSTOM_PROVIDER_SLUG)) == [blob]
    requires after == GrantModel(InsertModel(db, CustomKey(org, provider), blob), org, CustomKey(org, provider))
    ensures Grown(org, db, after) && CustomDone(after, org)
  {
    InsertAndGrant(db, org, CustomKey(org, provider), blob);
  }

  lemma CustomAdded(db: Db, org: nat, blob: nat, after: Db)
    requires ProvidersOf(db.customs, org) == [] && after == InsertCustom(db, org, blob)
    ensures Grown(org, db, after) && ProvidersOf(after.customs, org) == [db.next]
  {
    InsertCustomGrows(db, org, blob);
  }

  lemma CustomStep(db: Db, org: nat)
    requires MigrateCustom(db, org).Ok?
    ensures Grown(org, db, MigrateCustom(db, org).value) && CustomDone(MigrateCustom(db, org).value, org)
  {
    var blobs, existing := Blobs(db.secrets, org, SecretName(CUSTOM_PROVIDER_SLUG)), ProvidersOf(db.customs, org);
    var after := MigrateCustom(db, org).value;
    if blobs != [] {
      assert blobs == [blobs[0]];
      if existing == [] {
        var with := InsertCustom(db, org, blobs[0]);
        CustomAdded(db, org, blobs[0], with);
        CustomGranted(with, org, db.next, blobs[0], after);
        GrownTransitive(org, db, with, after);
      } else {
        assert existing == [existing[0]];
        CustomGranted(db, org, existing[0], blobs[0], after);
      }
    }
  }

  lemma CustomNoop(db: Db, org: nat)
    requires CustomDone(db, org)
    ensures MigrateCustom(db, org) == Ok(db)
  {
    var blobs := Blobs(db.secrets, org, SecretName(CUSTOM_PROVIDER_SLUG));
    if blobs != [] {
      InsertAndGrant(db, org, CustomKey(org, ProvidersOf(db.customs, org)[0]), blobs[0]);
    }
  }

  lemma CloudStep(db: Db, org: nat, provider: string)
    requires MigrateCloud(db, org, provider).Ok?
    ensures Grown(org, db, MigrateCloud(db, org, provider).value)
    ensures MigrateCloud(db, org, provider).value.customs == db.customs
    ensures CloudDone(MigrateCloud(db, org, provider).value, org, provider)
    ensures CloudDone(db, org, provider) ==> MigrateCloud(db, org, provider).value == db
  {
    var blobs := Blobs(db.secrets, org, SecretName(provider));
    if blobs != [] {
      InsertAndGrant(db, org, CloudKey(org, provider), blobs[0]);
    }
  }

  /** Equal but for added grants of the organization. */
  ghost predicate OnlyGrants(org: nat, a: Db, b: Db) {
    GrantsGrown(org, a.grants, b.grants) && b == a.(grants := b.grants)
  }

  lemma DirectStep(db: Db, org: nat, provider: string)
    requires GrantDirect(db, org, provider).Ok?
    ensures OnlyGrants(org, db, GrantDirect(db, org, provider).value)
    ensures DirectDone(GrantDirect(db, org, provider).value, org, provider)
    ensures DirectDone(db, org, provider) ==> GrantDirect(db, org, provider).value == db
  {
    var blobs := Blobs(db.secrets, org, SecretName(provider));
    if blobs != [] {
      var keys := PlatformKeys(db.catalog, provider);
      var after := GrantDirect(db, org, provider).value;
      forall k | k in keys ensures Granted(after, org, k) {
        assert Grant(org, None, db.catalog[k].id) in GrantsFor(db.catalog, org, keys);
      }
      if DirectDone(db, org, provider) {
        assert GrantsFor(db.catalog, org, keys) <= db.grants;
      }
    }
  }

  lemma DefaultStep(db: Db, org: nat, tie: Tie)
    requires Chooses(tie)
    ensures Grown(org, db, LinkDefault(db, org, tie)) && DefaultDone(LinkDefault(db, org, tie), org)
    ensures LinkDefault(db, org, tie) == db.(settings := LinkDefault(db, org, tie).settings)
    ensures DefaultDone(db, org) ==> LinkDefault(db, org, tie) == db
  {}

  // ---------------------------------------------------------------- what later steps keep

  lemma {:induction false} CustomKept(o: nat, a: Db, b: Db, org: nat)
    requires CustomDone(a, org) && Grown(o, a, b) && ProvidersOf(b.customs, org) == ProvidersOf(a.customs, org)
    ensures CustomDone(b, org)
  {}

  lemma CloudKept(o: nat, a: Db, b: Db, org: nat, provider: string)
    requires CloudDone(a, org, provider) && Grown(o, a, b)
    ensures CloudDone(b, org, provider)
  {}

  lemma DirectKept(o: nat, a: Db, b: Db, org: nat, provider: string)
    requires DirectDone(a, org, provider) && Grown(o, a, b)
    ensures DirectDone(b, org, provider)
  {
    assert PlatformKeys(b.catalog, provider) == PlatformKeys(a.catalog, provider);
  }

  lemma DefaultKept(o: nat, a: Db, b: Db, org: nat)
    requires DefaultDone(a, org) && Grown(o, a, b)
    requires o != org || b.catalog == a.catalog
    ensures DefaultDone(b, org)
  {
    assert LegacyDefault(b.settings, org) == LegacyDefault(a.settings, org);
    if LegacyDefault(a.settings, org).Some? {
      var name := LegacyDefault(a.settings, org).value;
      assert Matches(b.catalog, org, None, name) == Matches(a.catalog, org, None, name);
    }
  }

  ghost predicate CloudsDone(db: Db, org: nat, providers: seq<string>) {
    forall p :: p in providers ==> CloudDone(db, org, p)
  }

  ghost predicate DirectsDone(db: Db, org: nat, providers: seq<string>) {
    forall p :: p in providers ==> DirectDone(db, org, p)
  }

  /** What migrating some cloud providers leaves, and that a second time nothing is left to do. */
  ghost predicate CloudsMigrated(db: Db, org: nat, providers: seq<string>, after: Db) {
    && Grown(org, db, after) && after.customs == db.customs && CloudsDone(after, org, providers)
    && (CloudsDone(db, org, providers) ==> after == db)
  }

  lemma OneMoreCloud(db: Db, org: nat, providers: seq<string>, front: seq<string>, last: string, prior: Db, after: Db)
    requires providers == front + [last]
    requires CloudsMigrated(db, org, front, prior) && MigrateCloud(prior, org, last) == Ok(after)
    ensures CloudsMigrated(db, org, providers, after)
  {
    CloudStep(prior, org, last);
    GrownTransitive(org, db, prior, after);
    forall p | p in front ensures CloudDone(after, org, p) {
      CloudKept(org, prior, after, org, p);
    }
    assert forall p :: p in providers <==> p in front || p == last;
  }

  lemma {:induction false} CloudSteps(db: Db, org: nat, providers: seq<string>)
    requires MigrateClouds(db, org, providers).Ok?
    ensures CloudsMigrated(db, org, providers, MigrateClouds(db, org, providers).value)
    decreases |providers|
  {
    if providers != [] {
      var front, last := providers[..|providers| - 1], providers[|providers| - 1];
      CloudSteps(db, org, front);
      OneMoreCloud(db, org, providers, front, last,
                   MigrateClouds(db, org, front).value, MigrateClouds(db, org, providers).value);
    }
  }

  lemma OnlyGrantsGrown(org: nat, a: Db, b: Db)
    requires OnlyGrants(org, a, b)
    ensures Grown(org, a, b)
  {}

  lemma {:induction false} DirectSteps(db: Db, org: nat, providers: seq<string>)
    requires GrantDirects(db, org, providers).Ok?
    ensures OnlyGrants(org, db, GrantDirects(db, org, providers).value)
    ensures DirectsDone(GrantDirects(db, org, providers).value, org, providers)
    ensures DirectsDone(db, org, providers) ==> GrantDirects(db, org, providers).value == db
  {
    if providers != [] {
      var front, last := providers[..|providers| - 1], providers[|providers| - 1];
      DirectSteps(db, org, front);
      var prior := GrantDirects(db, org, front).value;
      var after := GrantDirects(db, org, providers).value;
      DirectStep(prior, org, last);
      OnlyGrantsGrown(org, prior, after);
      assert forall p :: p in providers <==> p in front || p == last by {
        assert providers == front + [last];
      }
      forall p | p in front ensures DirectDone(after, org, p) {
        DirectKept(org, prior, after, org, p);
      }
    }
  }

  // ---------------------------------------------------------------- one organization

  /** The constant provider sets, in some order, and the organizations with any provider secret. */
  ghost predicate ListsProviders(plan: Plan) {
    && (forall p :: p in plan.cloud <==> p in CLOUD_PROVIDERS)
    && (forall p :: p in plan.direct <==> p in DIRECT_PROVIDERS)
    && Chooses(plan.tie)
  }

  /** One organization's steps add only its own rows, and leave everything of it done. */
  lemma OrgStep(db: Db, org: nat, plan: Plan)
    requires ListsProviders(plan) && MigrateOrg(db, org, plan).Ok?
    ensures Grown(org, db, MigrateOrg(db, org, plan).value)
    ensures OrgDone(MigrateOrg(db, org, plan).value, org)
  {
    CustomStep(db, org);
    var custom := MigrateCustom(db, org).value;
    CloudSteps(custom, org, plan.cloud);
    var clouds := MigrateClouds(custom, org, plan.cloud).value;
    DirectSteps(clouds, org, plan.direct);
    var directs := GrantDirects(clouds, org, plan.direct).value;
    OnlyGrantsGrown(org, clouds, directs);
    DefaultStep(directs, org, plan.tie);
    var after := LinkDefault(directs, org, plan.tie);
    GrownTransitive(org, db, custom, clouds);
    GrownTransitive(org, db, clouds, directs);
    GrownTransitive(org, db, directs, after);
    GrownTransitive(org, custom, clouds, directs);
    GrownTransitive(org, custom, directs, after);
    GrownTransitive(org, clouds, directs, after);
    CustomKept(org, custom, after, org);
    forall p | p in CLOUD_PROVIDERS ensures CloudDone(after, org, p) {
      CloudKept(org, clouds, after, org, p);
    }
    forall p | p in DIRECT_PROVIDERS ensures DirectDone(after, org, p) {
      DirectKept(org, directs, after, org, p);
    }
  }

  lemma OrgNoop(db: Db, org: nat, plan: Plan)
    requires ListsProviders(plan) && OrgDone(db, org)
    ensures MigrateOrg(db, org, plan) == Ok(db)
  {
    CustomNoop(db, org);
    CloudsNoop(db, org, plan.cloud);
    DirectsNoop(db, org, plan.direct);
    DefaultStep(db, org, plan.tie);
  }

  lemma {:induction false} CloudsNoop(db: Db, org: nat, providers: seq<string>)
    requires CloudsDone(db, org, providers)
    ensures MigrateClouds(db, org, providers) == Ok(db)
  {
    if providers != [] {
      CloudsNoop(db, org, providers[..|providers| - 1]);
      assert CloudDone(db, org, providers[|providers| - 1]);
      CloudStep(db, org, providers[|providers| - 1]);
    }
  }

  lemma {:induction false} DirectsNoop(db: Db, org: nat, providers: seq<string>)
    requires DirectsDone(db, org, providers)
    ensures GrantDirects(db, org, providers) == Ok(db)
  {
    if providers != [] {
      DirectsNoop(db, org, providers[..|providers| - 1]);
      assert DirectDone(db, org, providers[|providers| - 1]);
      DirectStep(db, org, providers[|providers| - 1]);
    }
  }

  lemma OrgKept(o: nat, a: Db, b: Db, org: nat)
    requires OrgDone(a, org) && Grown(o, a, b) && o != org
    ensures OrgDone(b, org)
  {
    CustomKept(o, a, b, org);
    forall p | p in CLOUD_PROVIDERS ensures CloudDone(b, org, p) {
      CloudKept(o, a, b, org, p);
    }
    forall p | p in DIRECT_PROVIDERS ensures DirectDone(b, org, p) {
      DirectKept(o, a, b, org, p);
    }
    DefaultKept(o, a, b, org);
  }

  lemma SeedsKept(o: nat, a: Db, b: Db, seeds: seq<Seed>)
    requires SeedsDone(a, seeds) && Grown(o, a, b)
    ensures SeedsDone(b, seeds)
  {
    forall i | 0 <= i < |seeds| ensures SeedDone(b, seeds[i]) {
      assert SeedDone(a, seeds[i]);
    }
  }

  // ---------------------------------------------------------------- all organizations

  ghost predicate OrgsDone(db: Db, orgs: seq<nat>) {
    forall o :: o in orgs ==> OrgDone(db, o)
  }

  lemma OneMoreOrg(orgs: seq<nat>, front: seq<nat>, last: nat, plan: Plan, seeds: seq<Seed>, prior: Db, after: Db)
    requires ListsProviders(plan) && orgs == front + [last]
    requires SeedsDone(prior, seeds) && OrgsDone(prior, front) && MigrateOrg(prior, last, plan) == Ok(after)
    ensures SameRest(prior, after) && SeedsDone(after, seeds) && OrgsDone(after, orgs)
  {
    OrgStep(prior, last, plan);
    SeedsKept(last, prior, after, seeds);
    forall o | o in front && o != last ensures OrgDone(after, o) {
      OrgKept(last, prior, after, o);
    }
  }

  /** The step before the last one of a run over some organizations. */
  lemma OrgsSnoc(db: Db, orgs: seq<nat>, front: seq<nat>, last: nat, plan: Plan, after: Db) returns (prior: Db)
    requires Chooses(plan.tie) && orgs == front + [last] && MigrateOrgs(db, orgs, plan) == Ok(after)
    ensures MigrateOrgs(db, front, plan) == Ok(prior) && MigrateOrg(prior, last, plan) == Ok(after)
  {
    assert orgs[..|orgs| - 1] == front;
    prior := MigrateOrgs(db, front, plan).value;
  }

  lemma {:induction false} OrgSteps(db: Db, orgs: seq<nat>, plan: Plan, seeds: seq<Seed>, after: Db)
    requires ListsProviders(plan) && MigrateOrgs(db, orgs, plan) == Ok(after) && SeedsDone(db, seeds)
    ensures SameRest(db, after) && SeedsDone(after, seeds) && OrgsDone(after, orgs)
    decreases |orgs|
  {
    if orgs != [] {
      var front, last := orgs[..|orgs| - 1], orgs[|orgs| - 1];
      var prior := OrgsSnoc(db, orgs, front, last, plan, after);
      OrgSteps(db, front, plan, seeds, prior);
      OneMoreOrg(orgs, front, last, plan, seeds, prior, after);
    }
  }

  lemma {:induction false} OrgsNoop(db: Db, orgs: seq<nat>, plan: Plan)
    requires ListsProviders(plan) && forall o :: o in orgs ==> OrgDone(db, o)
    ensures MigrateOrgs(db, orgs, plan) == Ok(db)
  {
    if orgs != [] {
      OrgsNoop(db, orgs[..|orgs| - 1], plan);
      OrgNoop(db, orgs[|orgs| - 1], plan);
    }
  }

  // ---------------------------------------------------------------- seeds

  lemma OneMoreSeed(prior: Db, front: seq<Seed>, last: Seed)
    requires SeedsDone(prior, front) && DistinctSeeds(front + [last])
    ensures SeedsDone(Upsert(prior, last), front + [last])
  {
    var seeds := front + [last];
    forall i | 0 <= i < |front| ensures SeedDone(Upsert(prior, last), seeds[i]) {
      assert SeedDone(prior, front[i]) && SeedKey(seeds[i]) != SeedKey(seeds[|front|]);
    }
  }

  lemma SeedAgain(db: Db, s: Seed)
    requires SeedDone(db, s)
    ensures Upsert(db, s) == db
  {
    assert db.catalog[SeedKey(s) := db.catalog[SeedKey(s)]] == db.catalog;
  }

  lemma {:induction false} SeedsAgain(db: Db, seeds: seq<Seed>)
    requires SeedsDone(db, seeds)
    ensures UpsertAll(db, seeds) == db
  {
    if seeds != [] {
      var front, last := seeds[..|seeds| - 1], seeds[|seeds| - 1];
      assert SeedsDone(db, front) by {
        assert forall i :: 0 <= i < |front| ==> SeedDone(db, seeds[i]) && seeds[i] == front[i];
      }
      SeedsAgain(db, front);
      SeedAgain(db, last);
    }
  }

  lemma {:induction false} SeedSteps(db: Db, seeds: seq<Seed>)
    requires DistinctSeeds(seeds)
    ensures SeedsDone(UpsertAll(db, seeds), seeds)
    ensures SameRest(db, UpsertAll(db, seeds))
    ensures SeedsDone(db, seeds) ==> UpsertAll(db, seeds) == db
    decreases |seeds|
  {
    if seeds != [] {
      var front, last := seeds[..|seeds| - 1], seeds[|seeds| - 1];
      assert seeds == front + [last];
      SeedSteps(db, front);
      OneMoreSeed(UpsertAll(db, front), front, last);
    }
    if SeedsDone(db, seeds) {
      SeedsAgain(db, seeds);
    }
  }

  // ---------------------------------------------------------------- settling, and running again

  lemma LinkSteps(presets: seq<Preset>, db: Db, tie: Tie)
    requires Chooses(tie)
    ensures PresetsDone(LinkPresets(presets, db.catalog, db.workspaces, tie), db)
    ensures PresetsDone(presets, db) ==> LinkPresets(presets, db.catalog, db.workspaces, tie) == presets
  {
    if PresetsDone(presets, db) {
      forall i | 0 <= i < |presets| ensures LinkPreset(presets[i], db.catalog, db.workspaces, tie) == presets[i] {
        assert PresetDone(presets[i], db);
      }
    }
  }

  lemma OrgDoneOf(a: Db, b: Db, org: nat)
    requires OrgDone(a, org) && b == a.(presets := b.presets, versions := b.versions)
    ensures OrgDone(b, org)
  {
    forall p | p in CLOUD_PROVIDERS ensures CloudDone(b, org, p) {
      assert CloudDone(a, org, p);
    }
    forall p | p in DIRECT_PROVIDERS ensures DirectDone(b, org, p) {
      assert DirectDone(a, org, p);
    }
  }

  lemma PresetsDoneOf(a: Db, b: Db, presets: seq<Preset>)
    requires PresetsDone(presets, a) && b.catalog == a.catalog && b.workspaces == a.workspaces
    ensures PresetsDone(presets, b)
  {
    forall i | 0 <= i < |presets| ensures PresetDone(presets[i], b) {
      assert PresetDone(presets[i], a);
    }
  }

  /** A run that succeeds leaves a settled database. */
  lemma RunSettles(db: Db, seeds: seq<Seed>, plan: Plan)
    requires Enumerates(plan, db.secrets) && Run(db, seeds, plan).Ok?
    ensures Settled(Run(db, seeds, plan).value, seeds)
    ensures Run(db, seeds, plan).value.secrets == db.secrets
  {
    SeedSteps(db, seeds);
    var seeded := UpsertAll(db, seeds);
    var orgs := MigrateOrgs(seeded, plan.orgs, plan).value;
    OrgSteps(seeded, plan.orgs, plan, seeds, orgs);
    var after := LinkAll(orgs, plan.tie);
    LinkSteps(orgs.presets, orgs, plan.tie);
    LinkSteps(orgs.versions, orgs, plan.tie);
    PresetsDoneOf(orgs, after, after.presets);
    PresetsDoneOf(orgs, after, after.versions);
    forall o | HasProviderSecret(after.secrets, o) ensures OrgDone(after, o) {
      OrgDoneOf(orgs, after, o);
    }
    forall i | 0 <= i < |seeds| ensures SeedDone(after, seeds[i]) {
      assert SeedDone(orgs, seeds[i]);
    }
  }

  /** A settled database is a fixed point of every run, whatever its orders and tie-breaks. */
  lemma SettledIsFixed(db: Db, seeds: seq<Seed>, plan: Plan)
    requires Enumerates(plan, db.secrets) && WellFormed(seeds) && DistinctSeeds(seeds)
    requires Settled(db, seeds)
    ensures Run(db, seeds, plan) == Ok(db)
  {
    SeedSteps(db, seeds);
    OrgsNoop(db, plan.orgs, plan);
    LinkSteps(db.presets, db, plan.tie);
    LinkSteps(db.versions, db, plan.tie);
  }

  /** Running twice is running once, even if the second run visits and breaks ties in another order. */
  lemma Rerun(db: Db, seeds: seq<Seed>, plan: Plan, again: Plan)
    requires Enumerates(plan, db.secrets) && Enumerates(again, db.secrets)
    requires Run(db, seeds, plan).Ok?
    ensures Run(Run(db, seeds, plan).value, seeds, again) == Run(db, seeds, plan)
  {
    RunSettles(db, seeds, plan);
    SettledIsFixed(Run(db, seeds, plan).value, seeds, again);
  }
}
