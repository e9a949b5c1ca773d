/**
 * What the backfill `96470fdcc686` reads and writes, said on the rows themselves: which secret a provider's
 * lookup finds, and which catalog rows, grants, settings and links a successful run leaves.
 */
module BackfillRows {
  import opened BackfillEffects
  import opened CatalogBackfill
  import opened Decimals
  import opened Wrappers

  // ---------------------------------------------------------------- lookups

  predicate IsSecretOf(s: Secret, org: nat, provider: string) {
    s.org == org && s.name == "agent-" + provider + "-credentials"
  }

  ghost predicate NoSecret(secrets: seq<Secret>, org: nat, provider: string) {
    forall i :: 0 <= i < |secrets| ==> !IsSecretOf(secrets[i], org, provider)
  }

  /** The i-th secret is the organization's only one for the provider. */
  ghost predicate OnlySecret(secrets: seq<Secret>, org: nat, provider: string, i: nat) {
    && i < |secrets| && IsSecretOf(secrets[i], org, provider)
    && forall j :: 0 <= j < |secrets| && IsSecretOf(secrets[j], org, provider) ==> j == i
  }

  /** The i-th custom provider is the organization's only one. */
  ghost predicate OnlyProvider(customs: seq<Custom>, org: nat, i: nat) {
    && i < |customs| && customs[i].org == org
    && forall j :: 0 <= j < |customs| && customs[j].org == org ==> j == i
  }

  lemma OneMoreSecret(secrets: seq<Secret>, front: seq<Secret>, last: Secret, org: nat, provider: string)
    requires secrets == front + [last]
    ensures NoSecret(secrets, org, provider) <==> NoSecret(front, org, provider) && !IsSecretOf(last, org, provider)
    ensures IsSecretOf(last, org, provider) ==>
              (OnlySecret(secrets, org, provider, |front|) <==> NoSecret(front, org, provider))
    ensures !IsSecretOf(last, org, provider) ==>
              forall i: nat :: OnlySecret(secrets, org, provider, i) <==> OnlySecret(front, org, provider, i)
  {
    assert secrets[|front|] == last && forall i :: 0 <= i < |front| ==> secrets[i] == front[i];
  }

  lemma BlobsSnoc(secrets: seq<Secret>, front: seq<Secret>, last: Secret, org: nat, provider: string)
    requires secrets == front + [last]
    ensures Blobs(secrets, org, SecretName(provider)) ==
            Blobs(front, org, SecretName(provider)) + (if IsSecretOf(last, org, provider) then [last.blob] else [])
  {
    assert secrets[..|front|] == front;
  }

  /**
   * A provider's lookup finds nothing exactly where no secret has that organization and the provider's name,
   * and it finds one ciphertext exactly where one secret alone has them and that ciphertext.
   */
  lemma {:induction false} BlobsExactly(secrets: seq<Secret>, org: nat, provider: string)
    ensures Blobs(secrets, org, SecretName(provider)) == [] <==> NoSecret(secrets, org, provider)
    ensures forall i: nat :: OnlySecret(secrets, org, provider, i) ==>
              Blobs(secrets, org, SecretName(provider)) == [secrets[i].blob]
    ensures |Blobs(secrets, org, SecretName(provider))| == 1 ==> exists i: nat :: OnlySecret(secrets, org, provider, i)
    decreases |secrets|
  {
    if secrets != [] {
      var front, last := Unsnoc(secrets);
      BlobsExactly(front, org, provider);
      OneMoreSecret(secrets, front, last, org, provider);
      BlobsSnoc(secrets, front, last, org, provider);
      if IsSecretOf(last, org, provider) {
        forall i: nat | OnlySecret(secrets, org, provider, i)
          ensures Blobs(secrets, org, SecretName(provider)) == [secrets[i].blob]
        {
          assert secrets[|front|] == last;
        }
        assert NoSecret(front, org, provider) ==> OnlySecret(secrets, org, provider, |front|);
      } else {
        assert Blobs(front, org, SecretName(provider)) + [] == Blobs(front, org, SecretName(provider));
        forall i: nat | OnlySecret(secrets, org, provider, i)
          ensures Blobs(secrets, org, SecretName(provider)) == [secrets[i].blob]
        {
          assert OnlySecret(front, org, provider, i) && secrets[i] == front[i];
        }
        if |Blobs(front, org, SecretName(provider))| == 1 {
          var i: nat :| OnlySecret(front, org, provider, i);
          assert OnlySecret(secrets, org, provider, i);
        }
      }
    }
  }

  lemma ProvidersSnoc(customs: seq<Custom>, front: seq<Custom>, last: Custom, org: nat)
    requires customs == front + [last]
    ensures ProvidersOf(customs, org) == ProvidersOf(front, org) + (if last.org == org then [last.id] else [])
  {
    assert customs[..|front|] == front;
  }

  /** The same of an organization's custom providers. */
  lemma {:induction false} ProvidersExactly(customs: seq<Custom>, org: nat)
    ensures ProvidersOf(customs, org) == [] <==> forall i :: 0 <= i < |customs| ==> customs[i].org != org
    ensures forall i: nat :: OnlyProvider(customs, org, i) ==> ProvidersOf(customs, org) == [customs[i].id]
    ensures |ProvidersOf(customs, org)| == 1 ==> exists i: nat :: OnlyProvider(customs, org, i)
    decreases |customs|
  {
    if customs != [] {
      var front, last := Unsnoc(customs);
      ProvidersExactly(front, org);
      ProvidersSnoc(customs, front, last, org);
      assert customs[|front|] == last && forall i :: 0 <= i < |front| ==> customs[i] == front[i];
      if last.org == org {
        assert ProvidersOf(front, org) == [] ==> OnlyProvider(customs, org, |front|);
      } else {
        assert ProvidersOf(front, org) + [] == ProvidersOf(front, org);
        forall i: nat | OnlyProvider(customs, org, i) ensures OnlyProvider(front, org, i) && customs[i] == front[i] {}
        if |ProvidersOf(front, org)| == 1 {
          var i: nat :| OnlyProvider(front, org, i);
          assert OnlyProvider(customs, org, i);
        }
      }
    }
  }

  // ---------------------------------------------------------------- when a run succeeds

  ghost predicate NoSecondSecret(secrets: seq<Secret>, org: nat, provider: string) {
    forall i, j :: 0 <= i < j < |secrets| && IsSecretOf(secrets[i], org, provider) ==>
      !IsSecretOf(secrets[j], org, provider)
  }

  ghost predicate NoSecondProvider(customs: seq<Custom>, org: nat) {
    forall i, j :: 0 <= i < j < |customs| && customs[i].org == org ==> customs[j].org != org
  }

  lemma FewBlobs(secrets: seq<Secret>, org: nat, provider: string)
    ensures |Blobs(secrets, org, SecretName(provider))| <= 1 <==> NoSecondSecret(secrets, org, provider)
  {
    BlobsExactly(secrets, org, provider);
    if NoSecondSecret(secrets, org, provider) && !NoSecret(secrets, org, provider) {
      var i: nat :| i < |secrets| && IsSecretOf(secrets[i], org, provider);
      assert OnlySecret(secrets, org, provider, i);
    }
    if |Blobs(secrets, org, SecretName(provider))| == 1 {
      var i: nat :| OnlySecret(secrets, org, provider, i);
    }
  }

  lemma FewProviders(customs: seq<Custom>, org: nat)
    ensures |ProvidersOf(customs, org)| <= 1 <==> NoSecondProvider(customs, org)
  {
    ProvidersExactly(customs, org);
    if NoSecondProvider(customs, org) && exists i :: 0 <= i < |customs| && customs[i].org == org {
      var i: nat :| i < |customs| && customs[i].org == org;
      assert OnlyProvider(customs, org, i);
    }
    if |ProvidersOf(customs, org)| == 1 {
      var i: nat :| OnlyProvider(customs, org, i);
    }
  }

  const PROVIDERS: set<string> :=
    {"bedrock", "azure_openai", "azure_ai", "vertex_ai", "openai", "anthropic", "gemini", "custom-model-provider"}

  /** No provider has two secrets, and no two custom providers wait for the custom secret. */
  ghost predicate Unambiguous(db: Db, org: nat) {
    && (forall p :: p in PROVIDERS ==> NoSecondSecret(db.secrets, org, p))
    && (NoSecret(db.secrets, org, "custom-model-provider") || NoSecondProvider(db.customs, org))
  }

  lemma RunnableExactly(db: Db, org: nat)
    ensures OrgRunnable(db, org) <==> Unambiguous(db, org)
  {
    forall p ensures |Blobs(db.secrets, org, SecretName(p))| <= 1 <==> NoSecondSecret(db.secrets, org, p) {
      FewBlobs(db.secrets, org, p);
    }
    BlobsExactly(db.secrets, org, CUSTOM_PROVIDER_SLUG);
    FewProviders(db.customs, org);
    assert forall p :: p in PROVIDERS <==> p in CLOUD_PROVIDERS + DIRECT_PROVIDERS || p == CUSTOM_PROVIDER_SLUG;
  }

  lemma VisitedForSecret(secrets: seq<Secret>, org: nat, provider: string, i: nat)
    requires i < |secrets| && IsSecretOf(secrets[i], org, provider)
    ensures HasProviderSecret(secrets, org)
  {
    BlobsExactly(secrets, org, provider);
    OwnersAreVisited(secrets, org, provider);
  }

  lemma UnvisitedIsUnambiguous(db: Db, org: nat)
    requires !HasProviderSecret(db.secrets, org)
    ensures Unambiguous(db, org)
  {
    forall p, i: nat | i < |db.secrets| ensures !IsSecretOf(db.secrets[i], org, p) {
      if IsSecretOf(db.secrets[i], org, p) {
        VisitedForSecret(db.secrets, org, p, i);
      }
    }
  }

  /**
   * A run succeeds if and only if there are seeds, each names a provider and a model, no two name the same,
   * no organization has two secrets of one provider's name, and none has two custom providers beside a
   * custom-provider secret.
   */
  lemma RunSucceedsExactly(db: Db, seeds: seq<Seed>, plan: Plan)
    requires Enumerates(plan, db.secrets)
    ensures Run(db, seeds, plan).Ok? <==>
            && seeds != []
            && (forall i :: 0 <= i < |seeds| ==> seeds[i].provider != "" && seeds[i].name != "")
            && (forall i, j :: 0 <= i < j < |seeds| ==>
                  seeds[i].provider != seeds[j].provider || seeds[i].name != seeds[j].name)
            && (forall o: nat :: Unambiguous(db, o))
  {
    RunSucceeds(db, seeds, plan);
    forall o: nat ensures OrgRunnable(db, o) <==> Unambiguous(db, o) {
      RunnableExactly(db, o);
    }
    forall o: nat | !HasProviderSecret(db.secrets, o) ensures Unambiguous(db, o) {
      UnvisitedIsUnambiguous(db, o);
    }
    assert forall i, j :: 0 <= i < j < |seeds| ==>
      (SeedKey(seeds[i]) != SeedKey(seeds[j]) <==>
       seeds[i].provider != seeds[j].provider || seeds[i].name != seeds[j].name);
  }

  // ---------------------------------------------------------------- what a run leaves

  /** The organization has the row, and an organization-wide grant on it. */
  ghost predicate HasAccess(db: Db, org: nat, k: ModelKey) {
    k in db.catalog && Grant(org, None, db.catalog[k].id) in db.grants
  }

  lemma VisitedDone(db: Db, seeds: seq<Seed>, plan: Plan, after: Db, i: nat, provider: string)
    requires Enumerates(plan, db.secrets) && Run(db, seeds, plan) == Ok(after)
    requires i < |db.secrets| && IsSecretOf(db.secrets[i], db.secrets[i].org, provider)
    ensures after.secrets == db.secrets && OrgDone(after, db.secrets[i].org)
    ensures Blobs(db.secrets, db.secrets[i].org, SecretName(provider)) != []
  {
    RunSettles(db, seeds, plan);
    VisitedForSecret(db.secrets, db.secrets[i].org, provider, i);
    BlobsExactly(db.secrets, db.secrets[i].org, provider);
  }

  /** After a run every organization with a cloud provider's secret has that provider's row and access to it. */
  lemma CloudRowsWritten(db: Db, seeds: seq<Seed>, plan: Plan, after: Db, i: nat, provider: string)
    requires Enumerates(plan, db.secrets) && Run(db, seeds, plan) == Ok(after)
    requires i < |db.secrets| && db.secrets[i].name == "agent-" + provider + "-credentials"
    requires provider in {"bedrock", "azure_openai", "azure_ai", "vertex_ai"}
    ensures HasAccess(after, db.secrets[i].org, ModelKey(Some(db.secrets[i].org), None, provider, provider))
  {
    VisitedDone(db, seeds, plan, after, i, provider);
    assert CloudDone(after, db.secrets[i].org, provider);
  }

  /** After a run every organization with a direct provider's secret has access to all its platform rows. */
  lemma DirectRowsGranted(db: Db, seeds: seq<Seed>, plan: Plan, after: Db, i: nat, provider: string, k: ModelKey)
    requires Enumerates(plan, db.secrets) && Run(db, seeds, plan) == Ok(after)
    requires i < |db.secrets| && db.secrets[i].name == "agent-" + provider + "-credentials"
    requires provider in {"openai", "anthropic", "gemini"}
    requires k in after.catalog && k.org == None && k.custom == None && k.provider == provider
    ensures HasAccess(after, db.secrets[i].org, k)
  {
    VisitedDone(db, seeds, plan, after, i, provider);
    assert DirectDone(after, db.secrets[i].org, provider) && k in PlatformKeys(after.catalog, provider);
  }

  lemma CustomDoneRow(db: Db, org: nat) returns (c: nat)
    requires CustomDone(db, org) && Blobs(db.secrets, org, SecretName("custom-model-provider")) != []
    ensures OnlyProvider(db.customs, org, c)
    ensures HasAccess(db, org, ModelKey(Some(org), Some(db.customs[c].id), "custom-model-provider", "custom"))
  {
    ProvidersExactly(db.customs, org);
    c :| OnlyProvider(db.customs, org, c);
    assert CustomKey(org, db.customs[c].id) ==
           ModelKey(Some(org), Some(db.customs[c].id), "custom-model-provider", "custom");
  }

  /** After a run every organization with a custom-provider secret has one custom provider, its row and access to it. */
  lemma CustomRowWritten(db: Db, seeds: seq<Seed>, plan: Plan, after: Db, i: nat) returns (c: nat)
    requires Enumerates(plan, db.secrets) && Run(db, seeds, plan) == Ok(after)
    requires i < |db.secrets| && db.secrets[i].name == "agent-" + "custom-model-provider" + "-credentials"
    ensures OnlyProvider(after.customs, db.secrets[i].org, c)
    ensures HasAccess(after, db.secrets[i].org,
                      ModelKey(Some(db.secrets[i].org), Some(after.customs[c].id), "custom-model-provider", "custom"))
  {
    VisitedDone(db, seeds, plan, after, i, "custom-model-provider");
    c := CustomDoneRow(after, db.secrets[i].org);
  }

  /** After a run every seed has its platform row with its metadata. */
  lemma SeedRowsWritten(db: Db, seeds: seq<Seed>, plan: Plan, after: Db, i: nat)
    requires Enumerates(plan, db.secrets) && Run(db, seeds, plan) == Ok(after) && i < |seeds|
    ensures var k := ModelKey(None, None, seeds[i].provider, seeds[i].name);
            k in after.catalog && after.catalog[k].metadata == seeds[i].metadata
  {
    RunSettles(db, seeds, plan);
    assert SeedDone(after, seeds[i]);
  }

  // ---------------------------------------------------------------- where it comes from

  /** The row or grant of an organization goes back to its one secret for the provider. */
  ghost predicate OwnRow(org: nat, k: ModelKey) {
    k.org == Some(org) &&
    if k.custom.Some? then k.provider == "custom-model-provider" && k.name == "custom"
    else k.provider in {"bedrock", "azure_openai", "azure_ai", "vertex_ai"} && k.name == k.provider
  }

  ghost predicate DirectRow(k: ModelKey) {
    k.org == None && k.custom == None && k.provider in {"openai", "anthropic", "gemini"}
  }

  lemma OneBlobOneSecret(secrets: seq<Secret>, org: nat, provider: string) returns (i: nat)
    requires |Blobs(secrets, org, SecretName(provider))| == 1
    ensures OnlySecret(secrets, org, provider, i) && Blobs(secrets, org, SecretName(provider)) == [secrets[i].blob]
  {
    BlobsExactly(secrets, org, provider);
    i :| OnlySecret(secrets, org, provider, i);
  }

  lemma OwnRowOf(secrets: seq<Secret>, k: ModelKey, e: Entry) returns (i: nat)
    requires RowJustified(secrets, k, e)
    ensures k.org.Some? && OwnRow(k.org.value, k) && e.metadata == 0
    ensures OnlySecret(secrets, k.org.value, k.provider, i) && e.config == Some(secrets[i].blob)
  {
    i := OneBlobOneSecret(secrets, k.org.value, k.provider);
  }

  /**
   * Every row that a run adds is a seed's platform row without ciphertext, or a row of an organization with
   * the ciphertext of its one secret for that provider. Rows that were there keep their id and ciphertext,
   * and their metadata unless a seed names them.
   */
  lemma AddedRows(db: Db, seeds: seq<Seed>, plan: Plan, after: Db, k: ModelKey)
    requires Enumerates(plan, db.secrets) && Run(db, seeds, plan) == Ok(after)
    ensures k in db.catalog ==>
              && k in after.catalog && after.catalog[k].id == db.catalog[k].id
              && after.catalog[k].config == db.catalog[k].config
              && (after.catalog[k] == db.catalog[k] || IsSeeded(seeds, k))
    ensures k in after.catalog && k !in db.catalog ==>
              || (IsSeeded(seeds, k) && after.catalog[k].config == None)
              || (k.org.Some? && OwnRow(k.org.value, k) && after.catalog[k].metadata == 0 &&
                  exists i: nat :: OnlySecret(db.secrets, k.org.value, k.provider, i) &&
                                   after.catalog[k].config == Some(db.secrets[i].blob))
  {
    RunWrites(db, seeds, plan);
    var seeded := UpsertAll(db, seeds);
    if k in after.catalog && k !in seeded.catalog {
      assert RowJustified(after.secrets, k, after.catalog[k]);
      var i := OwnRowOf(after.secrets, k, after.catalog[k]);
    }
  }

  /** A row is a seed's exactly if it is the platform row of the provider and model that the seed names. */
  lemma IsSeededExactly(seeds: seq<Seed>, k: ModelKey)
    ensures IsSeeded(seeds, k) <==>
            exists i :: 0 <= i < |seeds| && k == ModelKey(None, None, seeds[i].provider, seeds[i].name)
  {
    assert forall i :: 0 <= i < |seeds| ==> SeedKey(seeds[i]) == ModelKey(None, None, seeds[i].provider, seeds[i].name);
  }

  lemma EntitledBySecret(secrets: seq<Secret>, org: nat, k: ModelKey) returns (i: nat)
    requires Entitles(secrets, org, k)
    ensures OwnRow(org, k) || DirectRow(k)
    ensures OnlySecret(secrets, org, k.provider, i)
  {
    i := OneBlobOneSecret(secrets, org, k.provider);
  }

  lemma GrantsOfRun(db: Db, seeds: seq<Seed>, plan: Plan, after: Db)
    requires Enumerates(plan, db.secrets) && Run(db, seeds, plan) == Ok(after)
    ensures db.grants <= after.grants && after.secrets == db.secrets
    ensures forall g :: g in after.grants && g !in db.grants ==> GrantJustified(after.secrets, after.catalog, g)
  {
    RunWrites(db, seeds, plan);
  }

  /** No grant is taken away. */
  lemma GrantsKept(db: Db, seeds: seq<Seed>, plan: Plan, after: Db)
    requires Enumerates(plan, db.secrets) && Run(db, seeds, plan) == Ok(after)
    ensures db.grants <= after.grants
  {
    GrantsOfRun(db, seeds, plan, after);
  }

  /**
   * Every added grant is organization-wide, on a platform row of a direct provider or on a row of the
   * organization itself, and goes back to the organization's one secret for that row's provider.
   */
  lemma AddedGrant(db: Db, seeds: seq<Seed>, plan: Plan, after: Db, g: Grant) returns (k: ModelKey, i: nat)
    requires Enumerates(plan, db.secrets) && Run(db, seeds, plan) == Ok(after)
    requires g in after.grants && g !in db.grants
    ensures g.workspace == None && k in after.catalog && after.catalog[k].id == g.model
    ensures (OwnRow(g.org, k) || DirectRow(k)) && OnlySecret(db.secrets, g.org, k.provider, i)
  {
    GrantsOfRun(db, seeds, plan, after);
    k :| k in after.catalog && after.catalog[k].id == g.model && Entitles(after.secrets, g.org, k);
    i := EntitledBySecret(after.secrets, g.org, k);
  }

  lemma CustomsOfRun(db: Db, seeds: seq<Seed>, plan: Plan, after: Db)
    requires Enumerates(plan, db.secrets) && Run(db, seeds, plan) == Ok(after)
    ensures db.customs <= after.customs
    ensures forall j :: |db.customs| <= j < |after.customs| ==>
              Blobs(db.secrets, after.customs[j].org, SecretName("custom-model-provider")) == [after.customs[j].config]
  {
    RunWrites(db, seeds, plan);
  }

  /** The custom provider has the ciphertext of its organization's one custom-provider secret. */
  ghost predicate HasSecretOf(secrets: seq<Secret>, c: Custom) {
    exists i: nat :: OnlySecret(secrets, c.org, "custom-model-provider", i) && c.config == secrets[i].blob
  }

  lemma HasSecretOfBlob(secrets: seq<Secret>, c: Custom)
    requires Blobs(secrets, c.org, SecretName("custom-model-provider")) == [c.config]
    ensures HasSecretOf(secrets, c)
  {
    var i := OneBlobOneSecret(secrets, c.org, "custom-model-provider");
  }

  /**
   * Custom providers are only appended, each of an organization with one custom-provider secret and with
   * that secret's ciphertext.
   */
  lemma AddedCustoms(db: Db, seeds: seq<Seed>, plan: Plan, after: Db)
    requires Enumerates(plan, db.secrets) && Run(db, seeds, plan) == Ok(after)
    ensures db.customs <= after.customs
    ensures forall j :: |db.customs| <= j < |after.customs| ==> HasSecretOf(db.secrets, after.customs[j])
  {
    CustomsOfRun(db, seeds, plan, after);
    forall j | |db.customs| <= j < |after.customs| ensures HasSecretOf(db.secrets, after.customs[j]) {
      HasSecretOfBlob(db.secrets, after.customs[j]);
    }
  }

  // ---------------------------------------------------------------- links

  /** A row of that name, and of that provider if one is given, that the organization can see. */
  ghost predicate Names(db: Db, k: ModelKey, org: nat, provider: Option<string>, name: string) {
    && k in db.catalog && k.name == name && (provider.Some? ==> k.provider == provider.value)
    && (k.org == None || k.org == Some(org))
  }

  /** The identifier of such a row, and of a platform row wherever one is such a row. */
  ghost predicate NamesBest(db: Db, id: nat, org: nat, provider: Option<string>, name: string) {
    exists k :: && Names(db, k, org, provider, name) && db.catalog[k].id == id
                && (k.org == None || forall j :: Names(db, j, org, provider, name) ==> j.org != None)
  }

  ghost predicate NamesNone(db: Db, org: nat, provider: Option<string>, name: string) {
    forall k :: !Names(db, k, org, provider, name)
  }

  lemma MatchesAreNames(db: Db, org: nat, provider: Option<string>, name: string)
    ensures Matches(db.catalog, org, provider, name) == {} <==> NamesNone(db, org, provider, name)
    ensures forall id: nat :: BestId(db.catalog, org, provider, name, id) ==> NamesBest(db, id, org, provider, name)
  {
    var matches := Matches(db.catalog, org, provider, name);
    assert forall k :: k in matches <==> Names(db, k, org, provider, name);
    forall id: nat | BestId(db.catalog, org, provider, name, id) ensures NamesBest(db, id, org, provider, name) {
      var k :| Best(db.catalog, org, provider, name, k) && db.catalog[k].id == id;
      assert Names(db, k, org, provider, name);
    }
  }

  /** A linked preset, or one of an unknown workspace, stays; another is linked to the best row that it names. */
  ghost predicate Linked(db: Db, before: Preset, after: Preset) {
    && after == before.(link := after.link)
    && (before.link.Some? || before.workspace !in db.workspaces ==> after.link == before.link)
    && (before.link == None && before.workspace in db.workspaces ==>
          var org := db.workspaces[before.workspace];
          if NamesNone(db, org, Some(before.provider), before.name) then after.link == None
          else after.link.Some? && NamesBest(db, after.link.value, org, Some(before.provider), before.name))
  }

  ghost predicate AllLinked(db: Db, before: seq<Preset>, after: seq<Preset>) {
    |after| == |before| && forall i :: 0 <= i < |before| ==> Linked(db, before[i], after[i])
  }

  lemma LinkedOnFields(before: seq<Preset>, after: seq<Preset>, db: Db)
    requires PresetsLinked(before, after, db)
    ensures AllLinked(db, before, after)
  {
    forall i | 0 <= i < |before| ensures Linked(db, before[i], after[i]) {
      assert PresetLinked(before[i], after[i], db);
      if before[i].workspace in db.workspaces {
        MatchesAreNames(db, db.workspaces[before[i].workspace], Some(before[i].provider), before[i].name);
      }
    }
  }

  /** After a run every preset and every preset version is linked as far as the catalog then allows. */
  lemma LinksWritten(db: Db, seeds: seq<Seed>, plan: Plan, after: Db)
    requires Enumerates(plan, db.secrets) && Run(db, seeds, plan) == Ok(after)
    ensures AllLinked(after, db.presets, after.presets) && AllLinked(after, db.versions, after.versions)
    ensures after.workspaces == db.workspaces
  {
    RunWrites(db, seeds, plan);
    LinkedOnFields(db.presets, after.presets, after);
    LinkedOnFields(db.versions, after.versions, after);
  }

  // ---------------------------------------------------------------- default models

  /** The organization has a secret that is named like some provider's. */
  ghost predicate Visited(secrets: seq<Secret>, org: nat) {
    exists i: nat, provider :: i < |secrets| && IsSecretOf(secrets[i], org, provider)
  }

  lemma VisitedExactly(secrets: seq<Secret>, org: nat)
    ensures HasProviderSecret(secrets, org) <==> Visited(secrets, org)
  {
    if HasProviderSecret(secrets, org) {
      var i :| 0 <= i < |secrets| && secrets[i].org == org && IsProviderSecret(secrets[i].name);
      var name := secrets[i].name;
      assert name == name[..6] + name[6..|name| - 12] + name[|name| - 12..];
      assert IsSecretOf(secrets[i], org, name[6..|name| - 12]);
    }
    if Visited(secrets, org) {
      var i: nat, provider :| i < |secrets| && IsSecretOf(secrets[i], org, provider);
      VisitedForSecret(secrets, org, provider, i);
    }
  }

  /** The organization's old setting is readable and holds that name. */
  ghost predicate HadDefault(settings: map<SettingKey, Setting>, org: nat, name: string) {
    var key := SettingKey(org, "agent_default_model");
    key in settings && settings[key] == Setting(Text(name), false) && name != ""
  }

  lemma LegacyExactly(settings: map<SettingKey, Setting>, org: nat, name: string)
    ensures LegacyDefault(settings, org) == Some(name) <==> HadDefault(settings, org, name)
  {}

  /** Settings are kept, and added only for some of these organizations. */
  ghost predicate AddedFor(orgs: seq<nat>, a: map<SettingKey, Setting>, b: map<SettingKey, Setting>) {
    && (forall k :: k in a ==> k in b && b[k] == a[k])
    && (forall k :: k in b && k !in a ==> k.org in orgs)
  }

  lemma AddedForOne(db: Db, org: nat, plan: Plan, after: Db)
    requires ListsProviders(plan) && MigrateOrg(db, org, plan) == Ok(after)
    ensures AddedFor([org], db.settings, after.settings)
  {
    OrgStep(db, org, plan);
  }

  lemma AddedForMore(orgs: seq<nat>, front: seq<nat>, last: nat,
                     a: map<SettingKey, Setting>, b: map<SettingKey, Setting>, c: map<SettingKey, Setting>)
    requires orgs == front + [last] && AddedFor(front, a, b) && AddedFor([last], b, c)
    ensures AddedFor(orgs, a, c)
  {}

  lemma {:induction false} SettingsOfOrgs(db: Db, orgs: seq<nat>, plan: Plan, after: Db)
    requires ListsProviders(plan) && MigrateOrgs(db, orgs, plan) == Ok(after)
    ensures AddedFor(orgs, db.settings, after.settings)
    decreases |orgs|
  {
    if orgs != [] {
      var front, last := Unsnoc(orgs);
      var prior := OrgsSnoc(db, orgs, front, last, plan, after);
      SettingsOfOrgs(db, front, plan, prior);
      AddedForOne(prior, last, plan, after);
      AddedForMore(orgs, front, last, db.settings, prior.settings, after.settings);
    }
  }

  lemma SettingsOfRun(db: Db, seeds: seq<Seed>, plan: Plan, after: Db)
    requires Enumerates(plan, db.secrets) && Run(db, seeds, plan) == Ok(after)
    ensures forall k :: k in db.settings ==> k in after.settings && after.settings[k] == db.settings[k]
    ensures forall k :: k in after.settings && k !in db.settings ==> HasProviderSecret(db.secrets, k.org)
  {
    var orgs := RunParts(db, seeds, plan, after);
    SeedsKeepCustoms(db, seeds);
    SettingsOfOrgs(UpsertAll(db, seeds), plan.orgs, plan, orgs);
  }

  /**
   * Settings are kept, and every added one points an organization with a provider's secret at the best row
   * that its old default names.
   */
  lemma AddedSettings(db: Db, seeds: seq<Seed>, plan: Plan, after: Db, key: SettingKey)
    requires Enumerates(plan, db.secrets) && Run(db, seeds, plan) == Ok(after)
    ensures key in db.settings ==> key in after.settings && after.settings[key] == db.settings[key]
    ensures key in after.settings && key !in db.settings ==>
              && key.key == "agent_default_model_catalog_id" && Visited(db.secrets, key.org)
              && exists name, id: nat :: HadDefault(db.settings, key.org, name) &&
                                         after.settings[key] == Setting(Text(Decimal(id)), false) &&
                                         NamesBest(after, id, key.org, None, name)
  {
    SettingsOfRun(db, seeds, plan, after);
    VisitedExactly(db.secrets, key.org);
    if key in after.settings && key !in db.settings {
      AddedSetting(db, seeds, plan, after, key);
    }
  }

  lemma AddedSetting(db: Db, seeds: seq<Seed>, plan: Plan, after: Db, key: SettingKey)
    requires Enumerates(plan, db.secrets) && Run(db, seeds, plan) == Ok(after)
    requires key in after.settings && key !in db.settings
    ensures key.key == "agent_default_model_catalog_id"
    ensures exists name, id: nat :: HadDefault(db.settings, key.org, name) &&
                                    after.settings[key] == Setting(Text(Decimal(id)), false) &&
                                    NamesBest(after, id, key.org, None, name)
  {
    JustifiedSetting(db, seeds, plan, after, key);
    var name := LegacyDefault(after.settings, key.org).value;
    LegacyExactly(after.settings, key.org, name);
    var id: nat :| after.settings[key] == Setting(Text(Decimal(id)), false) &&
                   BestId(after.catalog, key.org, None, name, id);
    MatchesAreNames(after, key.org, None, name);
    AddedIsNotLegacy(db, seeds, plan, after, key.org);
    assert HadDefault(db.settings, key.org, name);
  }

  lemma JustifiedSetting(db: Db, seeds: seq<Seed>, plan: Plan, after: Db, key: SettingKey)
    requires Enumerates(plan, db.secrets) && Run(db, seeds, plan) == Ok(after)
    requires key in after.settings && key !in db.settings
    ensures SettingJustified(after, key)
  {
    RunWrites(db, seeds, plan);
    SeedsKeepCustoms(db, seeds);
    assert SettingJustified(after.(presets := db.presets, versions := db.versions), key);
  }

  lemma AddedIsNotLegacy(db: Db, seeds: seq<Seed>, plan: Plan, after: Db, org: nat)
    requires Enumerates(plan, db.secrets) && Run(db, seeds, plan) == Ok(after)
    ensures SettingKey(org, "agent_default_model") in after.settings ==>
              SettingKey(org, "agent_default_model") in db.settings &&
              after.settings[SettingKey(org, "agent_default_model")] ==
              db.settings[SettingKey(org, "agent_default_model")]
  {
    SettingsOfRun(db, seeds, plan, after);
    var key := SettingKey(org, "agent_default_model");
    if key in after.settings && key !in db.settings {
      JustifiedSetting(db, seeds, plan, after, key);
    }
  }

  /** An organization with a provider's secret whose old default names a visible row has a pointer after a run. */
  lemma DefaultWritten(db: Db, seeds: seq<Seed>, plan: Plan, after: Db, org: nat, name: string)
    requires Enumerates(plan, db.secrets) && Run(db, seeds, plan) == Ok(after)
    requires Visited(db.secrets, org) && HadDefault(db.settings, org, name) && !NamesNone(after, org, None, name)
    ensures SettingKey(org, "agent_default_model_catalog_id") in after.settings
  {
    RunSettles(db, seeds, plan);
    VisitedExactly(db.secrets, org);
    SettingsOfRun(db, seeds, plan, after);
    LegacyExactly(after.settings, org, name);
    MatchesAreNames(after, org, None, name);
    assert DefaultDone(after, org);
  }
}
