/**
 * What one run of the backfill writes: when it succeeds, which rows, grants and links it adds, and
 * which row each link names.
 */
module BackfillEffects {
  import opened CatalogBackfill
  import opened Decimals
  import opened Wrappers

  // ---------------------------------------------------------------- when it succeeds

  ghost predicate OneSecretEach(secrets: seq<Secret>, org: nat, providers: seq<string>) {
    forall p :: p in providers ==> |Blobs(secrets, org, SecretName(p))| <= 1
  }

  ghost predicate CustomRunnable(db: Db, org: nat) {
    var count := |Blobs(db.secrets, org, SecretName(CUSTOM_PROVIDER_SLUG))|;
    count == 0 || (count == 1 && |ProvidersOf(db.customs, org)| <= 1)
  }

  /** At most one secret per provider name, and one custom provider to attach the secret to. */
  ghost predicate OrgRunnable(db: Db, org: nat) {
    && CustomRunnable(db, org)
    && (forall p :: p in CLOUD_PROVIDERS + DIRECT_PROVIDERS ==> |Blobs(db.secrets, org, SecretName(p))| <= 1)
  }

  lemma CustomSucceeds(db: Db, org: nat)
    ensures MigrateCustom(db, org).Ok? <==> CustomRunnable(db, org)
  {}

  lemma {:induction false} CloudsSucceed(db: Db, org: nat, providers: seq<string>)
    ensures MigrateClouds(db, org, providers).Ok? <==> OneSecretEach(db.secrets, org, providers)
  {
    if providers != [] {
      var front, last := providers[..|providers| - 1], providers[|providers| - 1];
      assert providers == front + [last];
      CloudsSucceed(db, org, front);
      if MigrateClouds(db, org, front).Ok? {
        CloudSteps(db, org, front);
      }
    }
  }

  lemma {:induction false} DirectsSucceed(db: Db, org: nat, providers: seq<string>)
    ensures GrantDirects(db, org, providers).Ok? <==> OneSecretEach(db.secrets, org, providers)
  {
    if providers != [] {
      var front, last := providers[..|providers| - 1], providers[|providers| - 1];
      assert providers == front + [last];
      DirectsSucceed(db, org, front);
      if GrantDirects(db, org, front).Ok? {
        DirectSteps(db, org, front);
      }
    }
  }

  lemma OrgSucceeds(db: Db, org: nat, plan: Plan)
    requires ListsProviders(plan)
    ensures MigrateOrg(db, org, plan).Ok? <==> OrgRunnable(db, org)
  {
    CustomSucceeds(db, org);
    if MigrateCustom(db, org).Ok? {
      CustomStep(db, org);
      var custom := MigrateCustom(db, org).value;
      CloudsSucceed(custom, org, plan.cloud);
      if MigrateClouds(custom, org, plan.cloud).Ok? {
        CloudSteps(custom, org, plan.cloud);
        DirectsSucceed(MigrateClouds(custom, org, plan.cloud).value, org, plan.direct);
      }
    }
    assert OrgRunnable(db, org) <==> CustomRunnable(db, org) && OneSecretEach(db.secrets, org, plan.cloud) &&
                                     OneSecretEach(db.secrets, org, plan.direct);
  }

  lemma {:induction false} OthersUntouched(db: Db, orgs: seq<nat>, plan: Plan, org: nat)
    requires ListsProviders(plan) && MigrateOrgs(db, orgs, plan).Ok? && org !in orgs
    ensures ProvidersOf(MigrateOrgs(db, orgs, plan).value.customs, org) == ProvidersOf(db.customs, org)
    ensures MigrateOrgs(db, orgs, plan).value.secrets == db.secrets
  {
    if orgs != [] {
      var front, last := orgs[..|orgs| - 1], orgs[|orgs| - 1];
      OthersUntouched(db, front, plan, org);
      OrgStep(MigrateOrgs(db, front, plan).value, last, plan);
      assert org != last;
    }
  }

  lemma {:induction false} OrgsSucceed(db: Db, orgs: seq<nat>, plan: Plan)
    requires ListsProviders(plan)
    ensures MigrateOrgs(db, orgs, plan).Ok? <==> forall o :: o in orgs ==> OrgRunnable(db, o)
  {
    if orgs != [] {
      var front, last := orgs[..|orgs| - 1], orgs[|orgs| - 1];
      assert orgs == front + [last];
      OrgsSucceed(db, front, plan);
      if MigrateOrgs(db, front, plan).Ok? {
        var prior := MigrateOrgs(db, front, plan).value;
        OrgSucceeds(prior, last, plan);
        OrgSteps(db, front, plan, [], prior);
        if last in front {
          DoneIsRunnable(prior, last);
        } else {
          OthersUntouched(db, front, plan, last);
          RunnableAlike(prior, db, last);
        }
      }
    }
  }

  lemma {:induction false} RunnableAlike(a: Db, b: Db, org: nat)
    requires a.secrets == b.secrets && ProvidersOf(a.customs, org) == ProvidersOf(b.customs, org)
    ensures OrgRunnable(a, org) <==> OrgRunnable(b, org)
  {}

  lemma DoneIsRunnable(db: Db, org: nat)
    requires OrgDone(db, org)
    ensures OrgRunnable(db, org)
  {
    forall p | p in CLOUD_PROVIDERS + DIRECT_PROVIDERS ensures |Blobs(db.secrets, org, SecretName(p))| <= 1 {
      assert p in CLOUD_PROVIDERS ==> CloudDone(db, org, p);
      assert p in DIRECT_PROVIDERS ==> DirectDone(db, org, p);
    }
  }

  lemma {:induction false} SeedsKeepCustoms(db: Db, seeds: seq<Seed>)
    ensures UpsertAll(db, seeds).customs == db.customs && UpsertAll(db, seeds).secrets == db.secrets
    ensures UpsertAll(db, seeds).settings == db.settings && UpsertAll(db, seeds).grants == db.grants
  {
    if seeds != [] {
      SeedsKeepCustoms(db, seeds[..|seeds| - 1]);
    }
  }

  /**
   * A run succeeds exactly when the seeds are well formed and distinct and every organization with a
   * provider secret has at most one secret per provider name and at most one custom provider for it.
   */
  lemma RunSucceeds(db: Db, seeds: seq<Seed>, plan: Plan)
    requires Enumerates(plan, db.secrets)
    ensures Run(db, seeds, plan).Ok? <==>
            WellFormed(seeds) && DistinctSeeds(seeds) &&
            forall o :: HasProviderSecret(db.secrets, o) ==> OrgRunnable(db, o)
  {
    var seeded := UpsertAll(db, seeds);
    SeedsKeepCustoms(db, seeds);
    OrgsSucceed(seeded, plan.orgs, plan);
    forall o ensures OrgRunnable(seeded, o) <==> OrgRunnable(db, o) {
      RunnableAlike(seeded, db, o);
    }
  }

  // ---------------------------------------------------------------- rows and grants

  /** A row that holds the ciphertext of the one secret its organization has for its provider. */
  ghost predicate RowJustified(secrets: seq<Secret>, k: ModelKey, e: Entry) {
    && k.org.Some? && e.config.Some? && e.metadata == NO_METADATA
    && Blobs(secrets, k.org.value, SecretName(k.provider)) == [e.config.value]
    && if k.custom.Some? then k == CustomKey(k.org.value, k.custom.value)
       else k == CloudKey(k.org.value, k.provider) && k.provider in CLOUD_PROVIDERS
  }

  /** A row that an organization is entitled to by a secret: its own row, or a direct provider's. */
  ghost predicate Entitles(secrets: seq<Secret>, org: nat, k: ModelKey) {
    && |Blobs(secrets, org, SecretName(k.provider))| == 1
    && (|| (k.custom.Some? && k == CustomKey(org, k.custom.value))
        || (k.provider in CLOUD_PROVIDERS && k == CloudKey(org, k.provider))
        || (k.provider in DIRECT_PROVIDERS && k.org == None && k.custom == None))
  }

  ghost predicate GrantJustified(secrets: seq<Secret>, catalog: map<ModelKey, Entry>, g: Grant) {
    g.workspace == None && exists k :: k in catalog && catalog[k].id == g.model && Entitles(secrets, g.org, k)
  }

  ghost predicate RowsJustified(a: Db, b: Db) {
    forall k :: k in b.catalog && k !in a.catalog ==> RowJustified(b.secrets, k, b.catalog[k])
  }

  ghost predicate GrantsJustified(a: Db, b: Db) {
    forall g :: g in b.grants && g !in a.grants ==> GrantJustified(b.secrets, b.catalog, g)
  }

  /** Custom providers are only appended, each with the ciphertext of its organization's one secret. */
  ghost predicate CustomsJustified(a: Db, b: Db) {
    && a.customs <= b.customs
    && (forall i :: |a.customs| <= i < |b.customs| ==>
          Blobs(b.secrets, b.customs[i].org, SecretName(CUSTOM_PROVIDER_SLUG)) == [b.customs[i].config])
  }

  /** Every added row, provider and grant is justified by a secret. */
  ghost predicate Justified(a: Db, b: Db) {
    RowsJustified(a, b) && GrantsJustified(a, b) && CustomsJustified(a, b)
  }

  lemma JustifiedTransitive(org: nat, a: Db, b: Db, c: Db)
    requires Justified(a, b) && Justified(b, c) && Grown(org, b, c)
    ensures Justified(a, c)
  {
    forall k | k in c.catalog && k !in a.catalog ensures RowJustified(c.secrets, k, c.catalog[k]) {
      assert k in b.catalog ==> RowJustified(b.secrets, k, b.catalog[k]);
    }
    forall g | g in c.grants && g !in a.grants ensures GrantJustified(c.secrets, c.catalog, g) {
      if g in b.grants {
        assert GrantJustified(b.secrets, b.catalog, g);
        var k :| k in b.catalog && b.catalog[k].id == g.model && Entitles(b.secrets, g.org, k);
        assert k in c.catalog && c.catalog[k].id == g.model;
      }
    }
  }

  lemma {:induction false} InsertAndGrantJustified(db: Db, org: nat, key: ModelKey, blob: nat)
    requires Blobs(db.secrets, org, SecretName(key.provider)) == [blob]
    requires (key.custom.Some? && key == CustomKey(org, key.custom.value)) ||
             (key == CloudKey(org, key.provider) && key.provider in CLOUD_PROVIDERS)
    ensures Justified(db, GrantModel(InsertModel(db, key, blob), org, key))
  {
    var after := GrantModel(InsertModel(db, key, blob), org, key);
    assert Entitles(db.secrets, org, key);
    assert GrantJustified(after.secrets, after.catalog, Grant(org, None, after.catalog[key].id));
  }

  lemma CustomJustified(db: Db, org: nat)
    requires MigrateCustom(db, org).Ok?
    ensures Justified(db, MigrateCustom(db, org).value)
  {
    var blobs := Blobs(db.secrets, org, SecretName(CUSTOM_PROVIDER_SLUG));
    if blobs != [] {
      var existing := ProvidersOf(db.customs, org);
      var with := if existing == [] then InsertCustom(db, org, blobs[0]) else db;
      var key := CustomKey(org, if existing == [] then db.next else existing[0]);
      InsertAndGrantJustified(with, org, key, blobs[0]);
    }
  }

  lemma {:induction false} CloudsJustified(db: Db, org: nat, providers: seq<string>)
    requires MigrateClouds(db, org, providers).Ok? && forall p :: p in providers ==> p in CLOUD_PROVIDERS
    ensures Justified(db, MigrateClouds(db, org, providers).value)
  {
    if providers != [] {
      var front, last := providers[..|providers| - 1], providers[|providers| - 1];
      assert last in providers;
      CloudsJustified(db, org, front);
      var prior := MigrateClouds(db, org, front).value;
      var blobs := Blobs(prior.secrets, org, SecretName(last));
      if blobs != [] {
        InsertAndGrantJustified(prior, org, CloudKey(org, last), blobs[0]);
      }
      CloudStep(prior, org, last);
      JustifiedTransitive(org, db, prior, MigrateClouds(db, org, providers).value);
    }
  }

  lemma DirectJustified(db: Db, org: nat, provider: string)
    requires GrantDirect(db, org, provider).Ok? && provider in DIRECT_PROVIDERS
    ensures Justified(db, GrantDirect(db, org, provider).value)
  {
    var after := GrantDirect(db, org, provider).value;
    forall g | g in after.grants && g !in db.grants ensures GrantJustified(after.secrets, after.catalog, g) {
      var k :| k in PlatformKeys(db.catalog, provider) && g == Grant(org, None, db.catalog[k].id);
      assert Entitles(db.secrets, org, k);
    }
  }

  lemma {:induction false} DirectsJustified(db: Db, org: nat, providers: seq<string>)
    requires GrantDirects(db, org, providers).Ok? && forall p :: p in providers ==> p in DIRECT_PROVIDERS
    ensures Justified(db, GrantDirects(db, org, providers).value)
  {
    if providers != [] {
      var front, last := providers[..|providers| - 1], providers[|providers| - 1];
      assert last in providers;
      DirectsJustified(db, org, front);
      var prior := GrantDirects(db, org, front).value;
      DirectJustified(prior, org, last);
      DirectStep(prior, org, last);
      OnlyGrantsGrown(org, prior, GrantDirects(db, org, providers).value);
      JustifiedTransitive(org, db, prior, GrantDirects(db, org, providers).value);
    }
  }

  lemma OrgJustified(db: Db, org: nat, plan: Plan)
    requires ListsProviders(plan) && MigrateOrg(db, org, plan).Ok?
    ensures Justified(db, MigrateOrg(db, org, plan).value)
  {
    var custom := MigrateCustom(db, org).value;
    CustomJustified(db, org);
    var clouds := MigrateClouds(custom, org, plan.cloud).value;
    CloudsJustified(custom, org, plan.cloud);
    CloudSteps(custom, org, plan.cloud);
    JustifiedTransitive(org, db, custom, clouds);
    var directs := GrantDirects(clouds, org, plan.direct).value;
    DirectsJustified(clouds, org, plan.direct);
    DirectSteps(clouds, org, plan.direct);
    OnlyGrantsGrown(org, clouds, directs);
    JustifiedTransitive(org, db, clouds, directs);
    DefaultStep(directs, org, plan.tie);
    var after := LinkDefault(directs, org, plan.tie);
    assert Justified(directs, after);
    JustifiedTransitive(org, db, directs, after);
  }

  // ---------------------------------------------------------------- links

  /** A row that matches and is platform-wide wherever a platform-wide row matches. */
  ghost predicate Best(catalog: map<ModelKey, Entry>, org: nat, provider: Option<string>, name: string, k: ModelKey) {
    k in Matches(catalog, org, provider, name) &&
    (k.org == None || forall j :: j in Matches(catalog, org, provider, name) ==> j.org != None)
  }

  ghost predicate BestId(catalog: map<ModelKey, Entry>, org: nat, provider: Option<string>, name: string, id: nat) {
    exists k :: Best(catalog, org, provider, name, k) && catalog[k].id == id
  }

  lemma ChooseBest(
      tie: Tie, asking: nat, catalog: map<ModelKey, Entry>, org: nat, provider: Option<string>, name: string)
    requires Chooses(tie)
    ensures var matches := Matches(catalog, org, provider, name);
            var chosen := Choose(tie, asking, catalog, matches);
            if matches == {} then chosen == None
            else chosen.Some? && BestId(catalog, org, provider, name, chosen.value)
  {
    var matches := Matches(catalog, org, provider, name);
    if matches != {} {
      var platform := set k | k in matches && k.org == None;
      var k := tie(asking, Foremost(matches));
      assert k in Foremost(matches);
      if k.org != None {
        assert platform == {};
        assert forall j :: j in matches ==> j !in platform;
      }
      assert Best(catalog, org, provider, name, k);
    }
  }

  lemma BestKept(
      org: nat, a: map<ModelKey, Entry>, b: map<ModelKey, Entry>, o: nat, provider: Option<string>, name: string,
      id: nat)
    requires BestId(a, o, provider, name, id) && CatalogGrown(org, a, b)
    ensures BestId(b, o, provider, name, id)
  {
    var k :| Best(a, o, provider, name, k) && a[k].id == id;
    assert k in Matches(b, o, provider, name) && b[k].id == id;
    if k.org != None {
      forall j | j in Matches(b, o, provider, name) ensures j.org != None {
        assert j in a ==> j in Matches(a, o, provider, name);
      }
    }
    assert Best(b, o, provider, name, k);
  }

  /** A default-model pointer that was written for the name in the organization's old setting. */
  ghost predicate SettingJustified(db: Db, key: SettingKey) {
    && key in db.settings && key.key == DEFAULT_MODEL_CATALOG_ID
    && LegacyDefault(db.settings, key.org).Some?
    && exists id: nat :: db.settings[key] == Setting(Text(Decimal(id)), false) &&
                         BestId(db.catalog, key.org, None, LegacyDefault(db.settings, key.org).value, id)
  }

  ghost predicate SettingsJustified(a: Db, b: Db) {
    forall key :: key in b.settings && key !in a.settings ==> SettingJustified(b, key)
  }

  lemma SettingKept(org: nat, a: Db, b: Db, key: SettingKey)
    requires SettingJustified(a, key) && Grown(org, a, b)
    ensures SettingJustified(b, key)
  {
    var name := LegacyDefault(a.settings, key.org).value;
    var id: nat :| a.settings[key] == Setting(Text(Decimal(id)), false) && BestId(a.catalog, key.org, None, name, id);
    BestKept(org, a.catalog, b.catalog, key.org, None, name, id);
    assert LegacyDefault(b.settings, key.org) == LegacyDefault(a.settings, key.org);
  }

  lemma DefaultJustified(db: Db, org: nat, tie: Tie)
    requires Chooses(tie)
    ensures SettingsJustified(db, LinkDefault(db, org, tie))
  {
    var after := LinkDefault(db, org, tie);
    if LegacyDefault(db.settings, org).Some? {
      var name := LegacyDefault(db.settings, org).value;
      ChooseBest(tie, org, db.catalog, org, None, name);
      assert LegacyDefault(after.settings, org) == LegacyDefault(db.settings, org);
    }
  }

  lemma OrgSettingsJustified(db: Db, org: nat, plan: Plan)
    requires ListsProviders(plan) && MigrateOrg(db, org, plan).Ok?
    ensures SettingsJustified(db, MigrateOrg(db, org, plan).value)
  {
    var custom := MigrateCustom(db, org).value;
    CustomKeepsSettings(db, org);
    CloudsKeepSettings(custom, org, plan.cloud);
    var clouds := MigrateClouds(custom, org, plan.cloud).value;
    DirectSteps(clouds, org, plan.direct);
    var directs := GrantDirects(clouds, org, plan.direct).value;
    assert directs.settings == db.settings;
    DefaultJustified(directs, org, plan.tie);
  }

  lemma CustomKeepsSettings(db: Db, org: nat)
    requires MigrateCustom(db, org).Ok?
    ensures MigrateCustom(db, org).value.settings == db.settings
  {}

  lemma {:induction false} CloudsKeepSettings(db: Db, org: nat, providers: seq<string>)
    requires MigrateClouds(db, org, providers).Ok?
    ensures MigrateClouds(db, org, providers).value.settings == db.settings
  {
    if providers != [] {
      CloudsKeepSettings(db, org, providers[..|providers| - 1]);
    }
  }

  // ---------------------------------------------------------------- the whole run

  /** Everything that the steps of all organizations keep or add. */
  ghost predicate Written(a: Db, b: Db) {
    && (forall k :: k in a.catalog ==> k in b.catalog && b.catalog[k] == a.catalog[k])
    && (forall k :: k in a.settings ==> k in b.settings && b.settings[k] == a.settings[k])
    && a.grants <= b.grants && SameRest(a, b)
    && Justified(a, b) && SettingsJustified(a, b)
  }

  lemma OneMoreWritten(db: Db, prior: Db, last: nat, plan: Plan, after: Db)
    requires ListsProviders(plan) && Written(db, prior) && MigrateOrg(prior, last, plan) == Ok(after)
    ensures Written(db, after)
  {
    OrgStep(prior, last, plan);
    OrgJustified(prior, last, plan);
    JustifiedTransitive(last, db, prior, after);
    OrgSettingsJustified(prior, last, plan);
    forall key | key in after.settings && key !in db.settings ensures SettingJustified(after, key) {
      if key in prior.settings {
        SettingKept(last, prior, after, key);
      }
    }
  }

  lemma {:induction false} OrgsWritten(db: Db, orgs: seq<nat>, plan: Plan, after: Db)
    requires ListsProviders(plan) && MigrateOrgs(db, orgs, plan) == Ok(after)
    ensures Written(db, after)
    decreases |orgs|
  {
    if orgs != [] {
      var front, last := orgs[..|orgs| - 1], orgs[|orgs| - 1];
      var prior := OrgsSnoc(db, orgs, front, last, plan, after);
      OrgsWritten(db, front, plan, prior);
      OneMoreWritten(db, prior, last, plan, after);
    }
  }

  /** A preset keeps its link; an unlinked one gets a best match of its workspace's organization, if there is any. */
  ghost predicate PresetLinked(before: Preset, after: Preset, db: Db) {
    && after == before.(link := after.link)
    && if before.link.Some? || before.workspace !in db.workspaces then after == before
       else
         var org := db.workspaces[before.workspace];
         if Matches(db.catalog, org, Some(before.provider), before.name) == {} then after == before
         else after.link.Some? && BestId(db.catalog, org, Some(before.provider), before.name, after.link.value)
  }

  ghost predicate PresetsLinked(before: seq<Preset>, after: seq<Preset>, db: Db) {
    |after| == |before| && forall i :: 0 <= i < |before| ==> PresetLinked(before[i], after[i], db)
  }

  lemma PresetsAreLinked(presets: seq<Preset>, db: Db, tie: Tie)
    requires Chooses(tie)
    ensures PresetsLinked(presets, LinkPresets(presets, db.catalog, db.workspaces, tie), db)
  {
    forall i | 0 <= i < |presets|
      ensures PresetLinked(presets[i], LinkPresets(presets, db.catalog, db.workspaces, tie)[i], db)
    {
      var p := presets[i];
      if p.link == None && p.workspace in db.workspaces {
        ChooseBest(tie, p.id, db.catalog, db.workspaces[p.workspace], Some(p.provider), p.name);
      }
    }
  }

  ghost predicate IsSeeded(seeds: seq<Seed>, k: ModelKey) {
    exists i :: 0 <= i < |seeds| && k == SeedKey(seeds[i])
  }

  /** Platform rows: the seeds added or their metadata replaced, everything else as it was. */
  ghost predicate Seeded(a: Db, b: Db, seeds: seq<Seed>) {
    && b == a.(catalog := b.catalog, next := b.next)
    && (forall k :: k in a.catalog ==> k in b.catalog && b.catalog[k].id == a.catalog[k].id &&
                                       b.catalog[k].config == a.catalog[k].config)
    && (forall k :: k in b.catalog && !IsSeeded(seeds, k) ==> k in a.catalog && b.catalog[k] == a.catalog[k])
    && (forall k :: k in b.catalog && k !in a.catalog ==> k.org == None && b.catalog[k].config == None)
  }

  lemma IsSeededSnoc(seeds: seq<Seed>, front: seq<Seed>, last: Seed, k: ModelKey)
    requires seeds == front + [last]
    ensures IsSeeded(seeds, k) <==> IsSeeded(front, k) || k == SeedKey(last)
  {
    assert seeds[|front|] == last && forall i :: 0 <= i < |front| ==> seeds[i] == front[i];
  }

  lemma OneMoreSeeded(db: Db, seeds: seq<Seed>, front: seq<Seed>, last: Seed, prior: Db, after: Db)
    requires seeds == front + [last] && Seeded(db, prior, front) && after == Upsert(prior, last)
    ensures Seeded(db, after, seeds)
  {
    forall k ensures IsSeeded(seeds, k) <==> IsSeeded(front, k) || k == SeedKey(last) {
      IsSeededSnoc(seeds, front, last, k);
    }
  }

  lemma {:induction false} SeedsSeeded(db: Db, seeds: seq<Seed>)
    ensures Seeded(db, UpsertAll(db, seeds), seeds)
  {
    if seeds != [] {
      var front, last := seeds[..|seeds| - 1], seeds[|seeds| - 1];
      SeedsSeeded(db, front);
      OneMoreSeeded(db, seeds, front, last, UpsertAll(db, front), UpsertAll(db, seeds));
    }
  }

  /**
   * What a successful run writes. It seeds the platform rows; then every added row carries the
   * ciphertext of the organization's one secret for that provider, every added grant is backed by such
   * a secret, every added pointer and every new preset link names a best match, and nothing is removed.
   */
  lemma {:induction false} RunWrites(db: Db, seeds: seq<Seed>, plan: Plan)
    requires Enumerates(plan, db.secrets) && Run(db, seeds, plan).Ok?
    ensures var after := Run(db, seeds, plan).value;
            && Seeded(db, UpsertAll(db, seeds), seeds)
            && Written(UpsertAll(db, seeds), after.(presets := db.presets, versions := db.versions))
            && PresetsLinked(db.presets, after.presets, after)
            && PresetsLinked(db.versions, after.versions, after)
  {
    var after := Run(db, seeds, plan).value;
    var orgs := RunParts(db, seeds, plan, after);
    PartsWrite(db, seeds, plan, UpsertAll(db, seeds), orgs, after);
  }

  lemma PartsWrite(db: Db, seeds: seq<Seed>, plan: Plan, seeded: Db, orgs: Db, after: Db)
    requires ListsProviders(plan) && seeded == UpsertAll(db, seeds) && MigrateOrgs(seeded, plan.orgs, plan) == Ok(orgs)
    requires after == LinkAll(orgs, plan.tie)
    ensures Seeded(db, seeded, seeds) && Written(seeded, after.(presets := db.presets, versions := db.versions))
    ensures PresetsLinked(db.presets, after.presets, after) && PresetsLinked(db.versions, after.versions, after)
  {
    SeedsSeeded(db, seeds);
    OrgsWritten(seeded, plan.orgs, plan, orgs);
    RowsLinked(orgs, plan.tie, after);
  }

  /** The database between the loop over the organizations and the linking of presets. */
  lemma RunParts(db: Db, seeds: seq<Seed>, plan: Plan, after: Db) returns (orgs: Db)
    requires Chooses(plan.tie) && Run(db, seeds, plan) == Ok(after)
    ensures MigrateOrgs(UpsertAll(db, seeds), plan.orgs, plan) == Ok(orgs) && after == LinkAll(orgs, plan.tie)
  {
    orgs := MigrateOrgs(UpsertAll(db, seeds), plan.orgs, plan).value;
  }

  /** The last step links presets and versions, and touches nothing else. */
  lemma RowsLinked(orgs: Db, tie: Tie, after: Db)
    requires Chooses(tie) && after == LinkAll(orgs, tie)
    ensures orgs == after.(presets := orgs.presets, versions := orgs.versions)
    ensures PresetsLinked(orgs.presets, after.presets, after) && PresetsLinked(orgs.versions, after.versions, after)
  {
    PresetsAreLinked(orgs.presets, orgs, tie);
    PresetsAreLinked(orgs.versions, orgs, tie);
    LinkedAlike(orgs.presets, after.presets, orgs, after);
    LinkedAlike(orgs.versions, after.versions, orgs, after);
  }

  lemma LinkedAlike(before: seq<Preset>, after: seq<Preset>, a: Db, b: Db)
    requires PresetsLinked(before, after, a) && b.catalog == a.catalog && b.workspaces == a.workspaces
    ensures PresetsLinked(before, after, b)
  {
    forall i | 0 <= i < |before| ensures PresetLinked(before[i], after[i], b) {
      assert PresetLinked(before[i], after[i], a);
    }
  }

  // ---------------------------------------------------------------- identifiers

  ghost predicate IdsFresh(catalog: map<ModelKey, Entry>, next: nat) {
    forall k :: k in catalog ==> catalog[k].id < next
  }

  ghost predicate IdsUnique(catalog: map<ModelKey, Entry>) {
    forall j, k {:trigger catalog[j], catalog[k]} :: j in catalog && k in catalog && catalog[j].id == catalog[k].id ==> j == k
  }

  /** The foreign key from catalog rows to the custom providers of the same organization. */
  ghost predicate CustomsResolve(catalog: map<ModelKey, Entry>, customs: seq<Custom>) {
    forall k :: k in catalog && k.custom.Some? ==> k.org.Some? && k.custom.value in ProvidersOf(customs, k.org.value)
  }

  ghost predicate Sound(db: Db) {
    IdsFresh(db.catalog, db.next) && IdsUnique(db.catalog) && CustomsResolve(db.catalog, db.customs)
  }

  lemma InsertSound(db: Db, key: ModelKey, blob: nat)
    requires Sound(db)
    requires key.custom.Some? ==> key.org.Some? && key.custom.value in ProvidersOf(db.customs, key.org.value)
    ensures Sound(InsertModel(db, key, blob))
  {}

  lemma CustomSound(db: Db, org: nat)
    requires Sound(db) && MigrateCustom(db, org).Ok?
    ensures Sound(MigrateCustom(db, org).value)
  {
    var blobs := Blobs(db.secrets, org, SecretName(CUSTOM_PROVIDER_SLUG));
    if blobs != [] {
      var existing := ProvidersOf(db.customs, org);
      InsertCustomGrows(db, org, blobs[0]);
      var with := if existing == [] then InsertCustom(db, org, blobs[0]) else db;
      assert Sound(with) by {
        assert forall o, c :: c in ProvidersOf(db.customs, o) ==> c in ProvidersOf(with.customs, o);
      }
      InsertSound(with, CustomKey(org, if existing == [] then db.next else existing[0]), blobs[0]);
    }
  }

  lemma {:induction false} CloudsSound(db: Db, org: nat, providers: seq<string>)
    requires Sound(db) && MigrateClouds(db, org, providers).Ok?
    ensures Sound(MigrateClouds(db, org, providers).value)
  {
    if providers != [] {
      var front, last := providers[..|providers| - 1], providers[|providers| - 1];
      CloudsSound(db, org, front);
      var prior := MigrateClouds(db, org, front).value;
      var blobs := Blobs(prior.secrets, org, SecretName(last));
      if blobs != [] {
        InsertSound(prior, CloudKey(org, last), blobs[0]);
      }
    }
  }

  lemma OrgSound(db: Db, org: nat, plan: Plan, after: Db)
    requires ListsProviders(plan) && Sound(db) && MigrateOrg(db, org, plan) == Ok(after)
    ensures Sound(after)
  {
    CustomSound(db, org);
    var custom := MigrateCustom(db, org).value;
    CloudsSound(custom, org, plan.cloud);
    DirectSteps(MigrateClouds(custom, org, plan.cloud).value, org, plan.direct);
  }

  lemma {:induction false} OrgsSound(db: Db, orgs: seq<nat>, plan: Plan, after: Db)
    requires ListsProviders(plan) && Sound(db) && MigrateOrgs(db, orgs, plan) == Ok(after)
    ensures Sound(after)
    decreases |orgs|
  {
    if orgs != [] {
      var front, last := orgs[..|orgs| - 1], orgs[|orgs| - 1];
      var prior := OrgsSnoc(db, orgs, front, last, plan, after);
      OrgsSound(db, front, plan, prior);
      OrgSound(prior, last, plan, after);
    }
  }

  lemma {:induction false} SeedsSound(db: Db, seeds: seq<Seed>)
    requires Sound(db)
    ensures Sound(UpsertAll(db, seeds))
  {
    if seeds != [] {
      SeedsSound(db, seeds[..|seeds| - 1]);
    }
  }

  /** Identifiers stay unique, so a link names one row; and custom rows keep naming a provider of their organization. */
  lemma RunIsSound(db: Db, seeds: seq<Seed>, plan: Plan)
    requires Enumerates(plan, db.secrets) && Sound(db) && Run(db, seeds, plan).Ok?
    ensures Sound(Run(db, seeds, plan).value)
  {
    SeedsSound(db, seeds);
    OrgsSound(UpsertAll(db, seeds), plan.orgs, plan, MigrateOrgs(UpsertAll(db, seeds), plan.orgs, plan).value);
  }
}
