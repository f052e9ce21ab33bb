/**
 * The vector-search settings kept in memory/.kex-mem.json: how a stored file
 * is read back with defaults filled in field by field, what saving writes, and
 * the embedding dimension of each provider.
 */
module ConfigStore {
  import opened Wrappers
  import opened JsonValues

  /**
   * The `vector` settings. The fields hold whatever JSON the file had, since
   * loading checks no types; a well-formed file has a boolean, a string and a
   * number, and an optional non-empty key.
   */
  datatype VectorConfig = VectorConfig(enabled: Json, provider: Json, dimension: Json, openaiKey: Option<Json>)

  /** What reading the settings file gives: no file, text that is not JSON, or a parsed value. */
  datatype ConfigFile = Missing | Unparseable | Parsed(raw: Json)

  const DefaultEnabled: Json := JBool(false)
  const DefaultProvider: Json := JStr("local")
  const DefaultDimension: Json := JNum(384)

  /** The settings used when the file gives none. */
  const Defaults: VectorConfig := VectorConfig(DefaultEnabled, DefaultProvider, DefaultDimension, None)

  /** `loadConfig`. */
  function LoadConfig(f: ConfigFile): (c: VectorConfig)
    ensures !f.Parsed? ==> c == Defaults
    ensures f.Parsed? ==> var v := Get(Some(f.raw), "vector");
      (Get(v, "enabled") in {None, Some(JNull)} ==> c.enabled == DefaultEnabled) &&
      (Get(v, "provider") in {None, Some(JNull)} ==> c.provider == DefaultProvider) &&
      (Get(v, "dimension") in {None, Some(JNull)} ==> c.dimension == DefaultDimension)
    ensures f.Parsed? ==> var v := Get(Some(f.raw), "vector");
      (Get(v, "enabled").Some? && Get(v, "enabled").value != JNull ==> c.enabled == Get(v, "enabled").value) &&
      (Get(v, "provider").Some? && Get(v, "provider").value != JNull ==> c.provider == Get(v, "provider").value) &&
      (Get(v, "dimension").Some? && Get(v, "dimension").value != JNull ==> c.dimension == Get(v, "dimension").value)
    ensures c.openaiKey.Some? <==> f.Parsed? && Get(Get(Some(f.raw), "vector"), "openaiKey").Some? && Truthy(Get(Get(Some(f.raw), "vector"), "openaiKey").value)
    ensures c.openaiKey.Some? ==> c.openaiKey == Get(Get(Some(f.raw), "vector"), "openaiKey")
  {
    match f
    case Missing => Defaults
    case Unparseable => Defaults
    case Parsed(raw) =>
      var v := Get(Some(raw), "vector");
      var key := Get(v, "openaiKey");
      VectorConfig(Coalesce(Get(v, "enabled"), DefaultEnabled),
                   Coalesce(Get(v, "provider"), DefaultProvider),
                   Coalesce(Get(v, "dimension"), DefaultDimension),
                   if key.Some? && Truthy(key.value) then key else None)
  }

  /** The JSON value `saveConfig` writes; an absent key is left out of the object. */
  function ToJson(c: VectorConfig): Json {
    var fields := map["enabled" := c.enabled, "provider" := c.provider, "dimension" := c.dimension];
    JObj(map["vector" := JObj(if c.openaiKey.Some? then fields["openaiKey" := c.openaiKey.value] else fields)])
  }

  /** Settings of the shapes the program itself writes. */
  predicate WellTyped(c: VectorConfig) {
    c.enabled.JBool? && c.provider.JStr? && c.dimension.JNum? &&
    (c.openaiKey.Some? ==> c.openaiKey.value.JStr? && c.openaiKey.value.s != "")
  }

  /** Loading what was saved gives the settings back, when the key is absent or non-empty. */
  lemma LoadSaved(c: VectorConfig)
    requires WellTyped(c)
    ensures LoadConfig(Parsed(ToJson(c))) == c
  {
    var v := Get(Some(ToJson(c)), "vector");
    assert v.Some? && v.value.JObj?;
    assert Get(v, "enabled") == Some(c.enabled);
    assert Get(v, "provider") == Some(c.provider);
    assert Get(v, "dimension") == Some(c.dimension);
    if c.openaiKey.None? {
      assert "openaiKey" !in v.value.fields;
    }
  }

  /** `dimensionForProvider`: 1536 for "openai" and 384 for anything else. */
  function DimensionForProvider(provider: Json): (n: nat)
    ensures provider == JStr("openai") ==> n == 1536
    ensures provider != JStr("openai") ==> n == 384
  {
    if provider == JStr("openai") then 1536 else 384
  }
}
