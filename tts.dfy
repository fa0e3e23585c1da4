/**
 * The text-to-speech engine registry of client/tts.py: which engine classes exist, when
 * each reports itself available, the platform default slug, and the checked lookup
 * `get_engine_by_slug`. Running the synthesis and playback programs is not modelled;
 * what `is_available` learns from the machine is a `Machine` value.
 */
module Tts {
  import opened Wrappers
  import opened Text
  import opened Registry

  /** Which `is_available` a class ends up with. */
  datatype AvailabilityRule =
    | AplayOnly      // AbstractTTSEngine.is_available: aplay is on the PATH
    | AplayAndMad    // AbstractMp3TTSEngine: additionally the `mad` module imports
    | FestivalVoice  // FestivalTTS: aplay, text2wave and festival, and festival finds a voice

  /** What the availability checks observe: executables on the PATH, importable Python modules,
      what `festival --pipe` prints on empty input, and `platform.system()`. */
  datatype Machine = Machine(executables: set<string>, modules: set<string>, festivalOutput: string, system: string)

  const NO_VOICE := "No default voice found"
  const FESTIVAL_SLUG := "festival-tts"

  /** The classes defined in client/tts.py; index 0 is AbstractTTSEngine. */
  const ENGINES: Hierarchy<AvailabilityRule> := [
    ClassDecl("AbstractTTSEngine", None, "", AplayOnly),
    ClassDecl("AbstractMp3TTSEngine", Some(0), "", AplayAndMad),
    ClassDecl("FestivalTTS", Some(0), FESTIVAL_SLUG, FestivalVoice)
  ]

  const ROOT: nat := 0

  /** `diagnose.check_executable(name)`. */
  predicate CheckExecutable(m: Machine, name: string) { name in m.executables }

  /** `diagnose.check_python_import(name)`. */
  predicate CheckPythonImport(m: Machine, name: string) { name in m.modules }

  /**
   * `cls.is_available()` for the classes of client/tts.py; each subclass rule starts from
   * its parent's check, as `super()` does for AbstractMp3TTSEngine and FestivalTTS.
   */
  function IsAvailable(rule: AvailabilityRule, m: Machine): bool
    decreases if rule.AplayOnly? then 0 else 1
  {
    match rule
    case AplayOnly => CheckExecutable(m, "aplay")
    case AplayAndMad => IsAvailable(AplayOnly, m) && CheckPythonImport(m, "mad")
    case FestivalVoice =>
      if IsAvailable(AplayOnly, m) && CheckExecutable(m, "text2wave") && CheckExecutable(m, "festival")
      then !Contains(Strip(m.festivalOutput), NO_VOICE)
      else false
  }

  /** An mp3 engine is available exactly when aplay is present and mad imports. */
  lemma Mp3Availability(m: Machine)
    ensures IsAvailable(AplayAndMad, m) <==> "aplay" in m.executables && "mad" in m.modules
  {
  }

  /** Festival is available exactly when its three programs are present and its output never says it lacks a voice. */
  lemma FestivalAvailability(m: Machine)
    ensures IsAvailable(FestivalVoice, m) <==>
      && "aplay" in m.executables && "text2wave" in m.executables && "festival" in m.executables
      && !Contains(m.festivalOutput, NO_VOICE)
  {
    StripKeepsContainment(m.festivalOutput, NO_VOICE);
  }

  /** `get_default_engine_slug()`. */
  function DefaultEngineSlug(system: string): (slug: string)
    ensures slug == "osx-tts" <==> Lower(system) == "darwin"
    ensures slug != "osx-tts" ==> slug == "espeak-tts"
  {
    if Lower(system) == "darwin" then "osx-tts" else "espeak-tts"
  }

  /** `filter(lambda e: hasattr(e, "SLUG") and e.SLUG == slug, engines)`. */
  function Selected(h: Hierarchy<AvailabilityRule>, engines: seq<nat>, slug: string): (r: seq<nat>)
    requires InRange(h, engines)
    ensures InRange(h, r)
  {
    if engines == [] then []
    else (if h[engines[0]].slug == slug then [engines[0]] else []) + Selected(h, engines[1..], slug)
  }

  /** The filter keeps exactly the engines with that slug, so its head is the first of them. */
  lemma {:induction false} SelectedFirst(h: Hierarchy<AvailabilityRule>, engines: seq<nat>, slug: string)
    requires InRange(h, engines)
    ensures forall i :: i in Selected(h, engines, slug) <==> i in engines && h[i].slug == slug
    ensures Selected(h, engines, slug) == [] <==> FirstMatch(h, engines, slug).None?
    ensures FirstMatch(h, engines, slug).Some? ==>
      Selected(h, engines, slug)[0] == engines[FirstMatch(h, engines, slug).value]
    decreases |engines|
  {
    if engines != [] {
      SelectedFirst(h, engines[1..], slug);
      assert forall i :: i in engines <==> i == engines[0] || i in engines[1..];
    }
  }

  predicate ValidSlug(slug: SlugArg) { slug.Str? && slug.value != "" }

  function NotFoundMessage(slug: string): string
  {
    "No TTS engine found for slug '" + slug + "'"
  }

  function UnavailableMessage(slug: string): string
  {
    "TTS engine '" + slug + "' is not available (due to missing dependencies, etc.)"
  }

  /**
   * `get_engine_by_slug(slug)` over the engines `get_engines()` returned, as the author
   * meant it: several engines with the slug only print a warning.
   */
  function GetEngineBySlug(h: Hierarchy<AvailabilityRule>, engines: seq<nat>, slug: SlugArg, m: Machine)
    : (r: Result<nat, Exception>)
    requires InRange(h, engines)
    ensures r == Err(TypeError) <==> !ValidSlug(slug)
    ensures ValidSlug(slug) && FirstMatch(h, engines, slug.value).None? ==>
      r == Err(ValueError(NotFoundMessage(slug.value)))
    ensures ValidSlug(slug) && FirstMatch(h, engines, slug.value).Some? ==>
      var e := engines[FirstMatch(h, engines, slug.value).value];
      r == if IsAvailable(h[e].traits, m) then Ok(e) else Err(ValueError(UnavailableMessage(slug.value)))
    ensures r.Ok? ==> r.value in engines && h[r.value].slug == slug.value && IsAvailable(h[r.value].traits, m)
  {
    if !ValidSlug(slug) then Err(TypeError)
    else
      var selected := Selected(h, engines, slug.value);
      SelectedFirst(h, engines, slug.value);
      if |selected| == 0 then Err(ValueError(NotFoundMessage(slug.value)))
      else
        var engine := selected[0];
        if !IsAvailable(h[engine].traits, m) then Err(ValueError(UnavailableMessage(slug.value)))
        else Ok(engine)
  }

  /**
   * `get_engine_by_slug(slug)` as written: the warning for several matching engines is
   * `"..." + "This is most certainly a bug." % slug`, and the `%` applied to a literal
   * without a placeholder raises TypeError before anything is printed.
   */
  function GetEngineBySlugAsWritten(h: Hierarchy<AvailabilityRule>, engines: seq<nat>, slug: SlugArg, m: Machine)
    : (r: Result<nat, Exception>)
    requires InRange(h, engines)
    ensures ValidSlug(slug) && |Selected(h, engines, slug.value)| > 1 ==> r == Err(TypeError)
    ensures ValidSlug(slug) && |Selected(h, engines, slug.value)| <= 1 ==> r == GetEngineBySlug(h, engines, slug, m)
    ensures !ValidSlug(slug) ==> r == Err(TypeError)
  {
    if !ValidSlug(slug) then Err(TypeError)
    else
      var selected := Selected(h, engines, slug.value);
      if |selected| > 1 then Err(TypeError)
      else GetEngineBySlug(h, engines, slug, m)
  }

  /** Two engines sharing a slug: the code as written raises TypeError where the intended lookup returns the first. */
  lemma DuplicateSlugRaises()
    ensures var h: Hierarchy<AvailabilityRule> := [
              ClassDecl("AbstractTTSEngine", None, "", AplayOnly),
              ClassDecl("A", Some(0), "x", AplayOnly),
              ClassDecl("B", Some(0), "x", AplayOnly)];
            var m := Machine({"aplay"}, {}, "", "Linux");
            GetEngineBySlugAsWritten(h, [1, 2], Str("x"), m) == Err(TypeError) &&
            GetEngineBySlug(h, [1, 2], Str("x"), m) == Ok(1)
  {
    var h: Hierarchy<AvailabilityRule> := [
      ClassDecl("AbstractTTSEngine", None, "", AplayOnly),
      ClassDecl("A", Some(0), "x", AplayOnly),
      ClassDecl("B", Some(0), "x", AplayOnly)];
    assert Selected(h, [1, 2], "x") == [1, 2];
    assert FirstMatch(h, [1, 2], "x") == Some(0);
  }

  /** In client/tts.py the only engine is FestivalTTS: both abstract classes lack a SLUG. */
  lemma OnlyFestivalRegistered()
    ensures WellFormed(ENGINES)
    ensures EngineSet(ENGINES, ROOT) == {2} && ENGINES[2].slug == FESTIVAL_SLUG
  {
    assert Descends(ENGINES, 2, ROOT);
    forall i: nat | i < |ENGINES| && Descends(ENGINES, i, ROOT) && ENGINES[i].slug != ""
      ensures i == 2
    {
    }
  }

  /** Neither default slug names an engine this file defines, so looking it up raises ValueError. */
  lemma DefaultSlugNotRegistered(engines: seq<nat>, m: Machine)
    requires InRange(ENGINES, engines) && forall i :: i in engines <==> i in EngineSet(ENGINES, ROOT)
    ensures var slug := DefaultEngineSlug(m.system);
      GetEngineBySlug(ENGINES, engines, Str(slug), m) == Err(ValueError(NotFoundMessage(slug)))
  {
    OnlyFestivalRegistered();
    var slug := DefaultEngineSlug(m.system);
    forall k | 0 <= k < |engines|
      ensures ENGINES[engines[k]].slug != slug
    {
      assert engines[k] in EngineSet(ENGINES, ROOT);
    }
  }

  /** An engine instance: `cls(**config)`. */
  datatype Instance = Instance(engine: nat, config: map<string, string>)

  /** `get_instance()`: the TTS engines take no configuration, `get_config()` is `{}`. */
  function GetInstance(engine: nat): (r: Instance)
    ensures r.engine == engine && r.config == map[]
  {
    Instance(engine, map[])
  }
}
