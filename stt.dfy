/**
 * The speech-to-text side of the client (client/stt.py): the engine registry and its
 * unchecked lookup, the configuration read from the profile, instance construction with
 * the vocabulary cache, and how the IBM and AT&T engines turn a recogniser outcome into
 * text. The recogniser's network call is the `Recognition` argument; the profile file,
 * already parsed, is the `ProfileFile` argument.
 */
module Stt {
  import opened Wrappers
  import opened Registry

  datatype Vendor = Ibm | Att

  /** Which `is_available` a class ends up with. */
  datatype AvailabilityRule = Always | NetworkCheck

  /** `vendor` says whose `transcribe` the class has; `hasVocabularyType` whether `VOCABULARY_TYPE` is set. */
  datatype Traits = Traits(vendor: Option<Vendor>, availability: AvailabilityRule, hasVocabularyType: bool)

  /** The classes defined in client/stt.py; index 0 is AbstractSTTEngine. */
  const ENGINES: Hierarchy<Traits> := [
    ClassDecl("AbstractSTTEngine", None, "", Traits(None, Always, false)),
    ClassDecl("Ibm", Some(0), "IBM", Traits(Some(Ibm), Always, false)),
    ClassDecl("AttSTT", Some(0), "ATT", Traits(Some(Att), NetworkCheck, false))
  ]

  const ROOT: nat := 0

  /** `cls.is_available()`; `network` is `diagnose.check_network_connection()`. */
  function IsAvailable(rule: AvailabilityRule, network: bool): bool
  {
    match rule
    case Always => true
    case NetworkCheck => network
  }

  /** AttSTT is available exactly when the network is; Ibm always is. */
  lemma Availability(network: bool)
    ensures IsAvailable(ENGINES[2].traits.availability, network) == network
    ensures IsAvailable(ENGINES[1].traits.availability, network)
  {
  }

  /** Both concrete engines are registered and the abstract base is not. */
  lemma IbmAndAttRegistered()
    ensures WellFormed(ENGINES)
    ensures EngineSet(ENGINES, ROOT) == {1, 2}
    ensures ENGINES[1].slug == "IBM" && ENGINES[2].slug == "ATT"
  {
    assert Descends(ENGINES, 1, ROOT) && Descends(ENGINES, 2, ROOT);
    forall i: nat | i < |ENGINES| && Descends(ENGINES, i, ROOT) && ENGINES[i].slug != ""
      ensures i == 1 || i == 2
    {
    }
  }

  // ---------------------------------------------------------------- lookup

  /** What `engine.SLUG == slug` compares: a str or unicode slug by its text, anything else never equals a SLUG. */
  function SlugString(slug: SlugArg): Option<string>
  {
    match slug
    case Str(v) => Some(v)
    case Unicode(v) => Some(v)
    case _ => None
  }

  function NotFoundMessage(slug: SlugArg): string
  {
    "No  engine found for slug '" + SlugText(slug) + "'"
  }

  /** The position in `engines` of the first engine whose SLUG equals the argument. */
  function Lookup(h: Hierarchy<Traits>, engines: seq<nat>, slug: SlugArg): Option<nat>
    requires InRange(h, engines)
  {
    match SlugString(slug)
    case None => None
    case Some(s) => FirstMatch(h, engines, s)
  }

  /** `get_engine_by_slug(slug)`: the first engine with that SLUG, with no type or availability check. */
  method GetEngineBySlug(h: Hierarchy<Traits>, engines: seq<nat>, slug: SlugArg) returns (r: Result<nat, Exception>)
    requires InRange(h, engines)
    ensures Lookup(h, engines, slug).Some? ==> r == Ok(engines[Lookup(h, engines, slug).value])
    ensures Lookup(h, engines, slug).None? ==> r == Err(ValueError(NotFoundMessage(slug)))
  {
    for k := 0 to |engines|
      invariant SlugString(slug).Some? ==> forall j :: 0 <= j < k ==> h[engines[j]].slug != SlugString(slug).value
    {
      var engine := engines[k];
      if SlugString(slug) == Some(h[engine].slug) {
        return Ok(engine);
      }
    }
    return Err(ValueError(NotFoundMessage(slug)));
  }

  /** Whatever order `get_engines()` lists them in, "IBM" selects Ibm and "ATT" selects AttSTT. */
  lemma ShownSlugsResolve(engines: seq<nat>)
    requires InRange(ENGINES, engines) && forall i :: i in engines <==> i in EngineSet(ENGINES, ROOT)
    ensures Lookup(ENGINES, engines, Str("IBM")).Some? && engines[Lookup(ENGINES, engines, Str("IBM")).value] == 1
    ensures Lookup(ENGINES, engines, Str("ATT")).Some? && engines[Lookup(ENGINES, engines, Str("ATT")).value] == 2
    ensures Lookup(ENGINES, engines, NoneValue).None?
  {
    IbmAndAttRegistered();
    assert 1 in engines && 2 in engines;
    var i1 :| 0 <= i1 < |engines| && engines[i1] == 1;
    var i2 :| 0 <= i2 < |engines| && engines[i2] == 2;
    assert forall k :: 0 <= k < |engines| ==> engines[k] == 1 || engines[k] == 2 by {
      forall k | 0 <= k < |engines|
        ensures engines[k] == 1 || engines[k] == 2
      {
        assert engines[k] in EngineSet(ENGINES, ROOT);
      }
    }
  }

  // ---------------------------------------------------------------- configuration

  /**
   * The profile file: missing, an empty YAML document (`yaml.safe_load` gives None), or a
   * mapping with an optional `keys` section (its entries by name).
   */
  datatype ProfileFile = Missing | EmptyDocument | Loaded(keys: Option<map<string, string>>)

  /** What `get_config()` yields for a profile. */
  function ProfileConfig(profile: ProfileFile): Result<map<string, string>, Exception>
  {
    match profile
    case Missing => Ok(map[])
    case EmptyDocument => Err(TypeError)
    case Loaded(None) => Ok(map[])
    case Loaded(Some(keys)) =>
      if "USER" !in keys then Err(KeyError("USER"))
      else if "PASS" !in keys then Err(KeyError("PASS"))
      else Ok(map["userName" := keys["USER"], "password" := keys["PASS"]])
  }

  /** `get_config()`: fill `config` from the profile's `keys` section, when there is one. */
  method GetConfig(profile: ProfileFile) returns (r: Result<map<string, string>, Exception>)
    ensures r == ProfileConfig(profile)
  {
    var config: map<string, string> := map[];
    match profile {
      case Missing =>
      case EmptyDocument =>
        return Err(TypeError);
      case Loaded(keys) =>
        if keys.Some? {
          if "USER" !in keys.value { return Err(KeyError("USER")); }
          config := config["userName" := keys.value["USER"]];
          if "PASS" !in keys.value { return Err(KeyError("PASS")); }
          config := config["password" := keys.value["PASS"]];
        }
    }
    return Ok(config);
  }

  /**
   * The configuration is empty without a profile or without `keys`; with `keys` it holds
   * exactly `userName = keys.USER` and `password = keys.PASS`, or a missing entry raises
   * KeyError; an empty profile raises TypeError.
   */
  lemma ProfileConfigShape(profile: ProfileFile)
    ensures profile.Missing? || (profile.Loaded? && profile.keys.None?) ==> ProfileConfig(profile) == Ok(map[])
    ensures profile.EmptyDocument? ==> ProfileConfig(profile) == Err(TypeError)
    ensures profile.Loaded? && profile.keys.Some? && "USER" in profile.keys.value && "PASS" in profile.keys.value ==>
      && ProfileConfig(profile).Ok?
      && ProfileConfig(profile).value.Keys == {"userName", "password"}
      && ProfileConfig(profile).value["userName"] == profile.keys.value["USER"]
      && ProfileConfig(profile).value["password"] == profile.keys.value["PASS"]
    ensures profile.Loaded? && profile.keys.Some? && "USER" !in profile.keys.value ==>
      ProfileConfig(profile) == Err(KeyError("USER"))
    ensures profile.Loaded? && profile.keys.Some? && "USER" in profile.keys.value && "PASS" !in profile.keys.value ==>
      ProfileConfig(profile) == Err(KeyError("PASS"))
  {
  }

  // ---------------------------------------------------------------- instances

  /** A keyword argument of the engine constructor: a credential, or the vocabulary object. */
  datatype ConfigValue = Credential(text: string) | VocabularyRef(name: string)

  /** `cls(**config)`: the class and the keyword arguments it was built with. */
  datatype Instance = Instance(engine: nat, kwargs: map<string, ConfigValue>)

  function Credentials(config: map<string, string>): map<string, ConfigValue>
  {
    map k | k in config :: Credential(config[k])
  }

  function PhraseSet(phrases: seq<string>): set<string>
  {
    set p | p in phrases
  }

  /**
   * The compiled vocabularies on disk: for each vocabulary name, the phrase set it was last
   * compiled for, and the log of `compile` calls.
   */
  class VocabularyStore {
    var revisions: map<string, set<string>>
    var compiled: seq<string>

    constructor ()
      ensures revisions == map[] && compiled == []
    {
      revisions := map[];
      compiled := [];
    }

    /** `vocabulary.matches_phrases(phrases)`. */
    predicate MatchesPhrases(name: string, phrases: seq<string>)
      reads this
    {
      name in revisions && revisions[name] == PhraseSet(phrases)
    }

    /** `vocabulary.compile(phrases)`. */
    method Compile(name: string, phrases: seq<string>)
      modifies this
      ensures revisions == old(revisions)[name := PhraseSet(phrases)]
      ensures compiled == old(compiled) + [name]
      ensures MatchesPhrases(name, phrases)
    {
      revisions := revisions[name := PhraseSet(phrases)];
      compiled := compiled + [name];
    }
  }

  /** `get_instance(vocabulary_name, phrases)`. */
  method GetInstance(h: Hierarchy<Traits>, engine: nat, name: string, phrases: seq<string>,
                     profile: ProfileFile, store: VocabularyStore)
    returns (r: Result<Instance, Exception>)
    requires engine < |h|
    modifies store
    ensures ProfileConfig(profile).Err? ==>
      r == Err(ProfileConfig(profile).error) && unchanged(store)
    ensures ProfileConfig(profile).Ok? && !h[engine].traits.hasVocabularyType ==>
      r == Ok(Instance(engine, Credentials(ProfileConfig(profile).value))) && unchanged(store)
    ensures ProfileConfig(profile).Ok? && h[engine].traits.hasVocabularyType ==>
      && r == Ok(Instance(engine, Credentials(ProfileConfig(profile).value)["vocabulary" := VocabularyRef(name)]))
      && store.MatchesPhrases(name, phrases)
      && store.compiled == old(store.compiled) + (if old(store.MatchesPhrases(name, phrases)) then [] else [name])
      && store.revisions == old(store.revisions)[name := PhraseSet(phrases)]
  {
    var config := GetConfig(profile);
    if config.Err? {
      return Err(config.error);
    }
    var kwargs := Credentials(config.value);
    if h[engine].traits.hasVocabularyType {
      if !store.MatchesPhrases(name, phrases) {
        store.Compile(name, phrases);
      }
      kwargs := kwargs["vocabulary" := VocabularyRef(name)];
    }
    return Ok(Instance(engine, kwargs));
  }

  /** `get_passive_instance()`: the 'keyword' vocabulary over the keyword phrases. */
  method GetPassiveInstance(h: Hierarchy<Traits>, engine: nat, keywordPhrases: seq<string>,
                            profile: ProfileFile, store: VocabularyStore)
    returns (r: Result<Instance, Exception>)
    requires engine < |h|
    modifies store
    ensures ProfileConfig(profile).Ok? && h[engine].traits.hasVocabularyType ==>
      && r == Ok(Instance(engine, Credentials(ProfileConfig(profile).value)["vocabulary" := VocabularyRef("keyword")]))
      && store.MatchesPhrases("keyword", keywordPhrases)
      && store.compiled == old(store.compiled) + (if old(store.MatchesPhrases("keyword", keywordPhrases)) then [] else ["keyword"])
      && store.revisions == old(store.revisions)["keyword" := PhraseSet(keywordPhrases)]
    ensures ProfileConfig(profile).Ok? && !h[engine].traits.hasVocabularyType ==>
      r == Ok(Instance(engine, Credentials(ProfileConfig(profile).value))) && unchanged(store)
    ensures ProfileConfig(profile).Err? ==> r == Err(ProfileConfig(profile).error) && unchanged(store)
  {
    r := GetInstance(h, engine, "keyword", keywordPhrases, profile, store);
  }

  /** `get_active_instance()`: the 'default' vocabulary over all phrases. */
  method GetActiveInstance(h: Hierarchy<Traits>, engine: nat, allPhrases: seq<string>,
                           profile: ProfileFile, store: VocabularyStore)
    returns (r: Result<Instance, Exception>)
    requires engine < |h|
    modifies store
    ensures ProfileConfig(profile).Ok? && h[engine].traits.hasVocabularyType ==>
      && r == Ok(Instance(engine, Credentials(ProfileConfig(profile).value)["vocabulary" := VocabularyRef("default")]))
      && store.MatchesPhrases("default", allPhrases)
      && store.compiled == old(store.compiled) + (if old(store.MatchesPhrases("default", allPhrases)) then [] else ["default"])
      && store.revisions == old(store.revisions)["default" := PhraseSet(allPhrases)]
    ensures ProfileConfig(profile).Ok? && !h[engine].traits.hasVocabularyType ==>
      r == Ok(Instance(engine, Credentials(ProfileConfig(profile).value))) && unchanged(store)
    ensures ProfileConfig(profile).Err? ==> r == Err(ProfileConfig(profile).error) && unchanged(store)
  {
    r := GetInstance(h, engine, "default", allPhrases, profile, store);
  }

  // ---------------------------------------------------------------- transcription

  /** What the recogniser call does: return a transcript, or raise one of its exceptions. */
  datatype Recognition =
    | Recognized(text: string)
    | UnknownValue                    // sr.UnknownValueError
    | RequestFailed(reason: string)   // sr.RequestError, with str(e)
    | OtherFailure                    // any other exception

  const REQUEST_FAILED_PREFIX := "Could not request results from IBM Speech to Text service; "

  function NotUnderstood(vendor: Vendor): string
  {
    match vendor
    case Ibm => "IBM Speech to Text could not understand audio"
    case Att => "AT&T Speech to Text could not understand audio"
  }

  /**
   * `Ibm.transcribe` / `AttSTT.transcribe`. The credentials come from a fresh
   * `get_config()` before the `try`, so a profile without them raises KeyError. Inside,
   * the two recogniser errors become messages; any other exception reaches the `finally`
   * with `mensaje` unbound, whose `return mensaje` raises UnboundLocalError instead.
   */
  function Transcribe(vendor: Vendor, profile: ProfileFile, outcome: Recognition): (r: Result<string, Exception>)
    ensures ProfileConfig(profile).Err? ==> r == Err(ProfileConfig(profile).error)
    ensures ProfileConfig(profile).Ok? && "userName" !in ProfileConfig(profile).value ==> r == Err(KeyError("userName"))
    ensures ProfileConfig(profile).Ok? && "userName" in ProfileConfig(profile).value ==>
      (r.Err? <==> outcome.OtherFailure?)
    ensures ProfileConfig(profile).Ok? && "userName" in ProfileConfig(profile).value && outcome.OtherFailure? ==>
      r == Err(UnboundLocalError("mensaje"))
    ensures r.Ok? ==> match outcome
      case Recognized(t) => r.value == t
      case UnknownValue => r.value == NotUnderstood(vendor)
      case RequestFailed(e) => r.value == REQUEST_FAILED_PREFIX + e
      case OtherFailure => false
  {
    match ProfileConfig(profile)
    case Err(e) => Err(e)
    case Ok(config) =>
      if "userName" !in config then Err(KeyError("userName"))
      else if "password" !in config then Err(KeyError("password"))
      else match outcome
        case Recognized(t) => Ok(t)
        case UnknownValue => Ok(NotUnderstood(vendor))
        case RequestFailed(e) => Ok(REQUEST_FAILED_PREFIX + e)
        case OtherFailure => Err(UnboundLocalError("mensaje"))
  }

  /** A profile with both keys is what lets transcription return text. */
  lemma TranscribeNeedsKeys(vendor: Vendor, profile: ProfileFile, outcome: Recognition)
    requires !outcome.OtherFailure?
    ensures Transcribe(vendor, profile, outcome).Ok? <==>
      profile.Loaded? && profile.keys.Some? && "USER" in profile.keys.value && "PASS" in profile.keys.value
  {
    ProfileConfigShape(profile);
  }

  /** The AT&T engine reports request failures with the IBM message, so the two engines differ only when audio is not understood. */
  lemma VendorsDifferOnlyOnUnknownValue(profile: ProfileFile, outcome: Recognition)
    ensures Transcribe(Ibm, profile, outcome) == Transcribe(Att, profile, outcome)
      <==> !(outcome.UnknownValue? && ProfileConfig(profile).Ok? && "userName" in ProfileConfig(profile).value)
  {
  }
}
