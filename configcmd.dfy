/**
 * `kex-mem config`: showing the settings, or one `set` that changes the
 * loaded settings in place and saves them.
 */
module ConfigCommand {
  import opened Wrappers
  import opened Text
  import opened JsonValues
  import opened ConfigStore

  const UsageLine := "Usage: kex-mem config set <key> <value>"
  const KeysLine := "Keys: embedding (local|openai), openai-key <key>"
  const InvalidProvider := "Invalid provider. Use: local, openai"
  const DimensionChanged := "Dimension changed. Run `kex-mem index` to rebuild vector index."
  const KeySaved := "OpenAI API key saved."
  const KeyTip := "Tip: ensure memory/.kex-mem.json is in .gitignore to avoid committing your key."

  /**
   * What one invocation does: print the settings; save new settings and
   * print lines; or print error lines and exit with status 1.
   */
  datatype Outcome =
    | Shown(config: VectorConfig)
    | Saved(config: VectorConfig, lines: seq<string>)
    | Failed(errors: seq<string>)
  {
    function ExitCode(): int {
      if Failed? then 1 else 0
    }
  }

  function ProviderLine(value: string, dim: nat): string {
    "Embedding provider: " + value + " (dimension: " + NatToString(dim) + ")"
  }

  /** The arguments that end in an error: not `set <key> <value>`, a provider other than local or openai, or an unknown key. */
  predicate Rejected(args: seq<string>) {
    args != [] &&
    (args[0] != "set" || |args| < 3 ||
     (args[1] == "embedding" && args[2] != "local" && args[2] != "openai") ||
     (args[1] != "embedding" && args[1] != "openai-key"))
  }

  /** `configCommand(args)` applied to the loaded settings `c`. */
  function Command(c: VectorConfig, args: seq<string>): (o: Outcome)
    ensures args == [] <==> o == Shown(c)
    ensures o.Failed? <==> Rejected(args)
    ensures o.Failed? ==> o.ExitCode() == 1 && |o.errors| > 0
    ensures o.Saved? ==> |args| >= 3 && |o.lines| > 0
    ensures o.Saved? && args[1] == "embedding" ==>
      var dim := DimensionForProvider(JStr(args[2]));
      o.config == c.(provider := JStr(args[2]), dimension := JNum(dim), enabled := JBool(true)) &&
      o.lines[0] == ProviderLine(args[2], dim) &&
      (DimensionChanged in o.lines <==> c.dimension != JNum(dim))
    ensures o.Saved? && args[1] == "openai-key" ==>
      o.config == c.(openaiKey := Some(JStr(args[2]))) && o.lines == [KeySaved, KeyTip]
  {
    if |args| == 0 then Shown(c)
    else if args[0] != "set" || |args| < 3 then Failed([UsageLine, KeysLine])
    else
      var key, value := args[1], args[2];
      if key == "embedding" then
        if value != "local" && value != "openai" then Failed([InvalidProvider])
        else
          var dim := DimensionForProvider(JStr(value));
          var next := c.(provider := JStr(value), dimension := JNum(dim), enabled := JBool(true));
          Saved(next, [ProviderLine(value, dim)] + (if c.dimension != JNum(dim) then [DimensionChanged] else []))
      else if key == "openai-key" then
        Saved(c.(openaiKey := Some(JStr(value))), [KeySaved, KeyTip])
      else Failed(["Unknown config key: " + key, KeysLine])
  }

  /**
   * What `set` saves is read back unchanged by the next load, given
   * settings of the program's own shapes and a non-empty key.
   */
  lemma SetThenLoad(c: VectorConfig, args: seq<string>)
    requires WellTyped(c)
    requires Command(c, args).Saved?
    requires args[1] == "openai-key" ==> args[2] != ""
    ensures LoadConfig(Parsed(ToJson(Command(c, args).config))) == Command(c, args).config
  {
    LoadSaved(Command(c, args).config);
  }

  /** Choosing the provider a second time saves the same settings and reports no dimension change. */
  lemma SetEmbeddingTwice(c: VectorConfig, v: string)
    requires v == "local" || v == "openai"
    ensures var o := Command(c, ["set", "embedding", v]);
      o.Saved? && Command(o.config, ["set", "embedding", v]) == Saved(o.config, [o.lines[0]])
  {
    var o := Command(c, ["set", "embedding", v]);
    assert o.lines[0] == ProviderLine(v, DimensionForProvider(JStr(v)));
  }

  /** The loaded settings, which the command updates field by field. */
  class Settings {
    var enabled: Json
    var provider: Json
    var dimension: Json
    var openaiKey: Option<Json>

    function Snapshot(): VectorConfig
      reads this
    {
      VectorConfig(enabled, provider, dimension, openaiKey)
    }

    constructor (c: VectorConfig)
      ensures Snapshot() == c
    {
      enabled, provider, dimension, openaiKey := c.enabled, c.provider, c.dimension, c.openaiKey;
    }

    /**
     * The command on these settings: an accepted `set` assigns the fields it
     * names and returns what is saved; the other paths leave the fields alone.
     */
    method Apply(args: seq<string>) returns (o: Outcome)
      modifies this
      ensures o == Command(old(Snapshot()), args)
      ensures o.Saved? ==> Snapshot() == o.config
      ensures !o.Saved? ==> Snapshot() == old(Snapshot())
    {
      if |args| == 0 {
        return Shown(Snapshot());
      }
      if args[0] != "set" || |args| < 3 {
        return Failed([UsageLine, KeysLine]);
      }
      var key := args[1];
      var value := args[2];
      if key == "embedding" {
        if value != "local" && value != "openai" {
          return Failed([InvalidProvider]);
        }
        var oldDim := dimension;
        provider := JStr(value);
        var dim := DimensionForProvider(provider);
        dimension := JNum(dim);
        enabled := JBool(true);
        var lines := [ProviderLine(value, dim)];
        if oldDim != dimension {
          lines := lines + [DimensionChanged];
        }
        o := Saved(Snapshot(), lines);
      } else if key == "openai-key" {
        openaiKey := Some(JStr(value));
        o := Saved(Snapshot(), [KeySaved, KeyTip]);
      } else {
        o := Failed(["Unknown config key: " + key, KeysLine]);
      }
    }
  }

  /** One invocation: load the file, apply the arguments, and give what is written back, if anything. */
  method Run(file: ConfigFile, args: seq<string>) returns (o: Outcome, written: Option<Json>)
    ensures o == Command(LoadConfig(file), args)
    ensures o.Saved? <==> written.Some?
    ensures o.Saved? ==> written.value == ToJson(o.config)
  {
    var s := new Settings(LoadConfig(file));
    o := s.Apply(args);
    written := if o.Saved? then Some(ToJson(o.config)) else None;
  }
}
