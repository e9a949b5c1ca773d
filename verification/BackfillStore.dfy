/** The tables of migration `96470fdcc686`, updated in place by its loops inside one transaction. */
module BackfillStore {
  import opened CatalogBackfill
  import opened Decimals
  import opened Wrappers

  /** Whether a multi-row `INSERT … ON CONFLICT DO UPDATE` touches no row twice. */
  method CheckSeeds(seeds: seq<Seed>) returns (failure: Option<Failure>)
    ensures failure == if !WellFormed(seeds) then Some(BadSeeds)
                       else if !DistinctSeeds(seeds) then Some(RepeatedSeed) else None
  {
    if !WellFormed(seeds) {
      return Some(BadSeeds);
    }
    var seen: set<ModelKey> := {};
    for i := 0 to |seeds|
      invariant DistinctSeeds(seeds[..i])
      invariant forall k :: k in seen <==> exists j :: 0 <= j < i && SeedKey(seeds[j]) == k
    {
      if SeedKey(seeds[i]) in seen {
        return Some(RepeatedSeed);
      }
      assert forall j :: 0 <= j < i ==> SeedKey(seeds[j]) in seen;
      assert seeds[..i + 1] == seeds[..i] + [seeds[i]];
      seen := seen + {SeedKey(seeds[i])};
    }
    assert seeds[..|seeds|] == seeds;
    return None;
  }

  class Tables {
    var catalog: map<ModelKey, Entry>
    var customs: seq<Custom>
    var grants: set<Grant>
    var settings: map<SettingKey, Setting>
    var presets: seq<Preset>
    var versions: seq<Preset>
    var next: nat
    const secrets: seq<Secret>
    const workspaces: map<nat, nat>

    constructor (db: Db)
      ensures Contents() == db
    {
      catalog, customs, grants, settings := db.catalog, db.customs, db.grants, db.settings;
      presets, versions, next := db.presets, db.versions, db.next;
      secrets, workspaces := db.secrets, db.workspaces;
    }

    ghost function Contents(): Db
      reads this
    {
      Db(catalog, customs, grants, settings, presets, versions, secrets, workspaces, next)
    }

    /** `_seed_platform_catalog_rows` once the seeds have been checked. */
    method SeedPlatform(seeds: seq<Seed>)
      modifies this`catalog, this`next
      ensures Contents() == UpsertAll(old(Contents()), seeds)
    {
      for i := 0 to |seeds|
        invariant Contents() == UpsertAll(old(Contents()), seeds[..i])
      {
        var key := SeedKey(seeds[i]);
        assert seeds[..i + 1][..i] == seeds[..i];
        if key in catalog {
          catalog := catalog[key := catalog[key].(metadata := seeds[i].metadata)];
        } else {
          catalog, next := catalog[key := Entry(next, seeds[i].metadata, None)], next + 1;
        }
      }
      assert seeds[..|seeds|] == seeds;
    }

    /** `_get_provider_secret_blob` */
    method GetBlob(org: nat, provider: string) returns (r: Result<Option<nat>, Failure>)
      ensures var blobs := Blobs(secrets, org, SecretName(provider));
              r == if |blobs| > 1 then Err(SeveralSecrets(provider))
                   else Ok(if blobs == [] then None else Some(blobs[0]))
    {
      var found: Option<nat> := None;
      for i := 0 to |secrets|
        invariant var blobs := Blobs(secrets[..i], org, SecretName(provider));
                  |blobs| <= 1 && found == if blobs == [] then None else Some(blobs[0])
      {
        assert secrets[..i + 1][..i] == secrets[..i];
        if secrets[i].org == org && secrets[i].name == SecretName(provider) {
          if found.Some? {
            BlobsGrow(secrets, i + 1, org, SecretName(provider));
            return Err(SeveralSecrets(provider));
          }
          found := Some(secrets[i].blob);
        }
      }
      assert secrets[..|secrets|] == secrets;
      return Ok(found);
    }

    method InsertAndGrant(org: nat, key: ModelKey, blob: nat)
      modifies this`catalog, this`grants, this`next
      ensures Contents() == GrantModel(InsertModel(old(Contents()), key, blob), org, key)
    {
      if key !in catalog {
        catalog, next := catalog[key := Entry(next, NO_METADATA, Some(blob))], next + 1;
      }
      grants := grants + {Grant(org, None, catalog[key].id)};
    }

    /** The one custom provider of the organization, added where there is none; nothing where there are several. */
    method ProviderFor(org: nat, blob: nat) returns (provider: Option<nat>)
      modifies this`customs, this`next
      ensures var existing := ProvidersOf(old(customs), org);
              && provider == (if |existing| > 1 then None else Some(if existing == [] then old(next) else existing[0]))
              && Contents() == if existing == [] then InsertCustom(old(Contents()), org, blob) else old(Contents())
    {
      var existing := ProvidersOf(customs, org);
      if |existing| > 1 {
        return None;
      }
      if |existing| == 1 {
        return Some(existing[0]);
      }
      provider := Some(next);
      customs, next := customs + [Custom(next, org, blob)], next + 1;
    }

    /** `_migrate_custom_provider` */
    method AddCustom(org: nat) returns (failure: Option<Failure>)
      modifies this`catalog, this`customs, this`grants, this`next
      ensures failure == FailureOf(MigrateCustom(old(Contents()), org))
      ensures failure == None ==> Contents() == MigrateCustom(old(Contents()), org).value
    {
      var blob := GetBlob(org, CUSTOM_PROVIDER_SLUG);
      if blob.Err? {
        return Some(blob.error);
      }
      if blob.value == None {
        return None;
      }
      var provider := ProviderFor(org, blob.value.value);
      if provider == None {
        return Some(SeveralProviders);
      }
      InsertAndGrant(org, CustomKey(org, provider.value), blob.value.value);
      return None;
    }

    /** One turn of the loop over the cloud providers. */
    method AddCloud(org: nat, provider: string) returns (failure: Option<Failure>)
      modifies this`catalog, this`grants, this`next
      ensures failure == FailureOf(MigrateCloud(old(Contents()), org, provider))
      ensures failure == None ==> Contents() == MigrateCloud(old(Contents()), org, provider).value
    {
      var blob := GetBlob(org, provider);
      if blob.Err? {
        return Some(blob.error);
      }
      if blob.value.Some? {
        InsertAndGrant(org, CloudKey(org, provider), blob.value.value);
      }
      return None;
    }

    /** The loop over the cloud providers. */
    method AddClouds(org: nat, providers: seq<string>) returns (failure: Option<Failure>)
      modifies this`catalog, this`grants, this`next
      ensures failure == FailureOf(MigrateClouds(old(Contents()), org, providers))
      ensures failure == None ==> Contents() == MigrateClouds(old(Contents()), org, providers).value
    {
      ghost var before := Contents();
      for i := 0 to |providers|
        invariant MigrateClouds(before, org, providers[..i]) == Ok(Contents())
      {
        assert providers[..i + 1][..i] == providers[..i];
        failure := AddCloud(org, providers[i]);
        if failure.Some? {
          CloudsFail(before, org, providers, i + 1);
          return;
        }
      }
      assert providers[..|providers|] == providers;
      return None;
    }

    /** `_grant_platform_direct_provider_access` */
    method GrantPlatform(org: nat, provider: string)
      modifies this`grants
      ensures grants == old(grants) + GrantsFor(catalog, org, PlatformKeys(catalog, provider))
    {
      var keys := PlatformKeys(catalog, provider);
      var todo := keys;
      while todo != {}
        invariant todo <= keys
        invariant grants == old(grants) + GrantsFor(catalog, org, keys - todo)
        decreases |todo|
      {
        var k :| k in todo;
        assert keys - (todo - {k}) == (keys - todo) + {k};
        grants := grants + {Grant(org, None, catalog[k].id)};
        todo := todo - {k};
      }
      assert keys - todo == keys;
    }

    /** The loop over the direct providers. */
    method GrantAllDirect(org: nat, providers: seq<string>) returns (failure: Option<Failure>)
      modifies this`grants
      ensures failure == FailureOf(GrantDirects(old(Contents()), org, providers))
      ensures failure == None ==> Contents() == GrantDirects(old(Contents()), org, providers).value
    {
      for i := 0 to |providers|
        invariant GrantDirects(old(Contents()), org, providers[..i]) == Ok(Contents())
      {
        assert providers[..i + 1][..i] == providers[..i];
        var blob := GetBlob(org, providers[i]);
        if blob.Err? {
          DirectsFail(old(Contents()), org, providers, i + 1);
          return Some(blob.error);
        }
        if blob.value.Some? {
          GrantPlatform(org, providers[i]);
        }
      }
      assert providers[..|providers|] == providers;
      return None;
    }

    /** `_backfill_default_model_setting` */
    method SetDefault(org: nat, tie: Tie)
      requires Chooses(tie)
      modifies this`settings
      ensures Contents() == LinkDefault(old(Contents()), org, tie)
    {
      var key := SettingKey(org, DEFAULT_MODEL_CATALOG_ID);
      if key in settings {
        return;
      }
      var legacyKey := SettingKey(org, DEFAULT_MODEL);
      if legacyKey !in settings || settings[legacyKey].encrypted {
        return;
      }
      var parsed := settings[legacyKey].value;
      if parsed == Other || parsed.text == "" {
        return;
      }
      var chosen := Choose(tie, org, catalog, Matches(catalog, org, None, parsed.text));
      if chosen.Some? {
        settings := settings[key := Setting(Text(Decimal(chosen.value)), false)];
      }
    }

    /** `_backfill_org_provider_data` */
    method MigrateOne(org: nat, plan: Plan) returns (failure: Option<Failure>)
      requires Chooses(plan.tie)
      modifies this`catalog, this`customs, this`grants, this`settings, this`next
      ensures failure == FailureOf(MigrateOrg(old(Contents()), org, plan))
      ensures failure == None ==> Contents() == MigrateOrg(old(Contents()), org, plan).value
    {
      failure := AddCustom(org);
      if failure == None {
        failure := AddClouds(org, plan.cloud);
      }
      if failure == None {
        failure := GrantAllDirect(org, plan.direct);
      }
      if failure == None {
        SetDefault(org, plan.tie);
      }
    }

    /** `_backfill_preset_catalog_ids` on the presets, row by row. */
    method LinkRows(rows: seq<Preset>, tie: Tie) returns (linked: seq<Preset>)
      requires Chooses(tie)
      ensures linked == LinkPresets(rows, catalog, workspaces, tie)
    {
      linked := rows;
      for i := 0 to |rows|
        invariant |linked| == |rows|
        invariant forall j :: 0 <= j < i ==> linked[j] == LinkPreset(rows[j], catalog, workspaces, tie)
        invariant forall j :: i <= j < |rows| ==> linked[j] == rows[j]
      {
        var p := rows[i];
        if p.link == None && p.workspace in workspaces {
          var matches := Matches(catalog, workspaces[p.workspace], Some(p.provider), p.name);
          var chosen := Choose(tie, p.id, catalog, matches);
          if chosen.Some? {
            linked := linked[i := p.(link := chosen)];
          }
        }
      }
    }

    /** The loop over the organizations with a provider secret. */
    method MigrateAll(orgs: seq<nat>, plan: Plan) returns (failure: Option<Failure>)
      requires Chooses(plan.tie)
      modifies this`catalog, this`customs, this`grants, this`settings, this`next
      ensures failure == FailureOf(MigrateOrgs(old(Contents()), orgs, plan))
      ensures failure == None ==> Contents() == MigrateOrgs(old(Contents()), orgs, plan).value
    {
      ghost var before := Contents();
      for i := 0 to |orgs|
        invariant MigrateOrgs(before, orgs[..i], plan) == Ok(Contents())
      {
        assert orgs[..i + 1][..i] == orgs[..i];
        failure := MigrateOne(orgs[i], plan);
        if failure.Some? {
          OrgsFail(before, orgs, plan, i + 1);
          return;
        }
      }
      assert orgs[..|orgs|] == orgs;
      return None;
    }

    /** `upgrade`; an exception rolls the transaction back. */
    method Upgrade(seeds: seq<Seed>, plan: Plan) returns (failure: Option<Failure>)
      requires Chooses(plan.tie)
      modifies this
      ensures failure == FailureOf(Run(old(Contents()), seeds, plan))
      ensures Contents() == if failure == None then Run(old(Contents()), seeds, plan).value else old(Contents())
    {
      failure := CheckSeeds(seeds);
      if failure.Some? {
        return;
      }
      var catalog0, customs0, grants0, settings0, next0 := catalog, customs, grants, settings, next;
      failure := Backfill(seeds, plan);
      if failure.Some? {
        catalog, customs, grants, settings, next := catalog0, customs0, grants0, settings0, next0;
      }
    }

    /** The statements of `upgrade` in order; where one fails, presets and versions have not been touched. */
    method Backfill(seeds: seq<Seed>, plan: Plan) returns (failure: Option<Failure>)
      requires Chooses(plan.tie)
      modifies this
      ensures var orgs := MigrateOrgs(UpsertAll(old(Contents()), seeds), plan.orgs, plan);
              && failure == FailureOf(orgs)
              && (failure == None ==> Contents() == LinkAll(orgs.value, plan.tie))
              && (failure.Some? ==> presets == old(presets) && versions == old(versions))
    {
      SeedPlatform(seeds);
      failure := MigrateAll(plan.orgs, plan);
      if failure == None {
        presets := LinkRows(presets, plan.tie);
        versions := LinkRows(versions, plan.tie);
      }
    }
  }

  lemma {:induction false} BlobsGrow(secrets: seq<Secret>, n: nat, org: nat, name: string)
    requires n <= |secrets|
    ensures |Blobs(secrets[..n], org, name)| <= |Blobs(secrets, org, name)|
    decreases |secrets|
  {
    if n < |secrets| {
      var front := secrets[..|secrets| - 1];
      BlobsGrow(front, n, org, name);
      assert front[..n] == secrets[..n];
    } else {
      assert secrets[..n] == secrets;
    }
  }

  lemma {:induction false} CloudsFail(db: Db, org: nat, providers: seq<string>, n: nat)
    requires n <= |providers| && MigrateClouds(db, org, providers[..n]).Err?
    ensures MigrateClouds(db, org, providers) == MigrateClouds(db, org, providers[..n])
    decreases |providers|
  {
    if n < |providers| {
      var front := providers[..|providers| - 1];
      assert front[..n] == providers[..n];
      CloudsFail(db, org, front, n);
    } else {
      assert providers[..n] == providers;
    }
  }

  lemma {:induction false} DirectsFail(db: Db, org: nat, providers: seq<string>, n: nat)
    requires n <= |providers| && GrantDirects(db, org, providers[..n]).Err?
    ensures GrantDirects(db, org, providers) == GrantDirects(db, org, providers[..n])
    decreases |providers|
  {
    if n < |providers| {
      var front := providers[..|providers| - 1];
      assert front[..n] == providers[..n];
      DirectsFail(db, org, front, n);
    } else {
      assert providers[..n] == providers;
    }
  }

  lemma {:induction false} OrgsFail(db: Db, orgs: seq<nat>, plan: Plan, n: nat)
    requires Chooses(plan.tie) && n <= |orgs| && MigrateOrgs(db, orgs[..n], plan).Err?
    ensures MigrateOrgs(db, orgs, plan) == MigrateOrgs(db, orgs[..n], plan)
    decreases |orgs|
  {
    if n < |orgs| {
      var front := orgs[..|orgs| - 1];
      assert front[..n] == orgs[..n];
      OrgsFail(db, front, plan, n);
    } else {
      assert orgs[..n] == orgs;
    }
  }
}
