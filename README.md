# Voice assistant client core, modelled in Dafny

This project models the deterministic core of a Raspberry Pi voice-assistant client
written in Python 2, and proves properties of that model. The core has three parts:

- **Engine registries** (`client/tts.py`, `client/stt.py`). Each file discovers its
  engine classes by walking the subclasses of an abstract base and keeping those with a
  truthy `SLUG`.
  - The text-to-speech lookup checks the type of its argument and the engine's
    availability.
  - The speech-to-text lookup is an unchecked first-match search.
  - The speech-to-text side also builds engine configurations from the user profile,
    recompiles a vocabulary only when its cached phrase set is stale, and maps recogniser
    outcomes to strings.
- **The microphone front end** (`client/mic.py`). Given what one listen produced (a
  transcript or a wait timeout), it decides whether the wake word was heard, what the
  active listen returns, what it plays and what it says.
- **Three intent handlers** (`client/modules/Noticias.py`, `Life.py`, `Unclear.py`).
  Each has its trigger predicate `isValid`, its `PRIORITY` when it declares one
  (Noticias 3, Unclear `-(sys.maxint + 1)`, Life none) and the phrases its `handle` speaks. The news handler also builds its article list from the feed and formats the
  numbered headlines.

The source runs under Python 2, although `tts.py` and `stt.py` carry a `python3`
shebang: it imports `urlparse` and writes the literal `4L`. So `filter` returns a list,
`sys.maxint` exists, and string literals are byte strings. Byte strings are modelled as
`string` values whose characters are all below 256 (`Text.IsByteString`). Unicode text
becomes bytes through `Text.Utf8Encode`. Regular expressions on byte strings use ASCII
word characters and ASCII case folding (`Text.IsWordChar`, `Text.Lower`).

Modules and files:

| file | module | models |
|---|---|---|
| `wrappers.dfy` | `Wrappers` | `Option`, `Result`, and the Python exceptions the core raises |
| `text.dfy` | `Text` | the Python string operations the core uses: `in`, `split`, `join`, `strip`, `lower`, `str(n)`, `encode` |
| `registry.dfy` | `Registry` | the class hierarchy, `get_subclasses`, `get_engines`, and first-match search |
| `tts.dfy` | `Tts` | engine classes, `is_available`, the default slug, `get_engine_by_slug`, `get_instance` |
| `stt.dfy` | `Stt` | engine classes, lookup, `get_config`, `get_instance` with the vocabulary cache, `transcribe` |
| `mic.dfy` | `Microphone` | class `Mic` and the speaker it talks through |
| `noticias.dfy` | `Noticias` | `isValid`, `getTopArticles`, `handle` |
| `life.dfy` | `Life` | `isValid`, `handle` |
| `unclear.dfy` | `Unclear` | `WORDS`, `PRIORITY`, `isValid`, `handle` |
| `handlers.dfy` | `Handlers` | the three predicates and priorities side by side |

Inputs to the model:

- **The class hierarchy.** It is a sequence of class declarations in which each class
  names its base by position, so a base always comes before its subclasses.
- **The order of `get_engines()`.** It comes from `list(set)` and is left open.
  `Registry.GetEngines` picks every element with `:|`. Every lookup takes the engine list
  as a parameter, so "first" is relative to that list.
- **What the machine reports.** `Tts.Machine` holds the executables on the PATH, the
  importable modules, the text that `festival --pipe` prints, and `platform.system()`.
- **The parsed profile file.** `Stt.ProfileFile` stands for it.
- **The recogniser's outcome.** `Stt.Recognition` (a transcript or one of the
  recogniser's exceptions) is passed to `transcribe`.
- **What one listen produced.** `Microphone.Capture` (a transcript or a wait timeout) is
  passed to the mic methods.
- **The feed.** It is a sequence of `(title, link)` items.
- **The random choice.** `random.choice` becomes an index parameter.

Behaviour of the code that a reader might not expect, and that the model follows:

- **Failed transcription.** `transcribe` returns a message string when the provider
  cannot be reached and when nothing was understood; it raises neither
  (`client/stt.py:104-110`).
- **Missing credentials.** `transcribe` reads `config['userName']` outside its `try`, so
  a profile without credentials raises `KeyError` (`client/stt.py:98-99`).
- **Text-to-speech lookup without a slug.** `get_engine_by_slug` raises `TypeError` for
  an absent or empty slug (`client/tts.py:201-202`). The default slugs `'osx-tts'` and
  `'espeak-tts'` name no class defined in `client/tts.py` (`Tts.DefaultSlugNotRegistered`).
- **Fallback priority.** The fallback handler's priority is `-(sys.maxint + 1)`, the
  least machine integer, not an unbounded minimum (`client/modules/Unclear.py:7`).

## Model

| member | source | states |
|---|---|---|
| Registry.DirectSubclasses | client/tts.py:222 | `cls.__subclasses__()` lists exactly the classes whose base is `c`, each declared after `c` |
| Registry.GetSubclasses | client/tts.py:220-225 | the recursive set-building loop returns exactly the transitive subclasses of the class |
| Registry.CoveredByDirectSubclasses | client/tts.py:222-224 | adding each direct subclass and its own subclasses collects exactly the transitive subclasses |
| Registry.DescendsViaChild | client/tts.py:222-224 | a class descends from `c` iff it is a direct subclass of `c` or descends from one |
| Registry.DescendsTrans | client/tts.py:224 | subclassing is transitive |
| Registry.CoveredMembers | client/tts.py:222-224 | after visiting some children, the collected set holds exactly those children and their subclasses |
| Registry.EngineSet | client/tts.py:226-228 | defines the engines of a base: its transitive subclasses with a truthy SLUG; `Registry.GetEngines` is proved to list exactly this set |
| Registry.WithSlug | client/tts.py:226-228 | the comprehension keeps exactly the listed classes with a truthy SLUG and keeps them distinct |
| Registry.GetEngines | client/tts.py:219-228 | `get_engines()` lists each subclass of the base with a truthy SLUG exactly once, and nothing else |
| Registry.FirstMatch | client/stt.py:164-166 | the found position holds the slug and no earlier position does; when there is none, no engine holds it |
| Tts.IsAvailable | client/tts.py:67-70 | defines `is_available` for each engine class as a rule on the machine facts; `Tts.Mp3Availability` and `Tts.FestivalAvailability` state what each rule means |
| Tts.Mp3Availability | client/tts.py:97-100 | an mp3 engine is available iff aplay is present and `mad` imports |
| Tts.FestivalAvailability | client/tts.py:126-145 | Festival is available iff aplay, text2wave and festival are present and its output does not contain "No default voice found" |
| Text.StripKeepsContainment | client/tts.py:141-144 | stripping whitespace neither hides nor reveals a needle that starts and ends with a non-blank character |
| Tts.DefaultEngineSlug | client/tts.py:188-189 | the result is 'osx-tts' iff the lower-cased platform name is 'darwin', and 'espeak-tts' otherwise |
| Tts.SelectedFirst | client/tts.py:204-205 | the filter keeps exactly the engines with the slug; it is empty iff there is no first match, and otherwise starts with the first match |
| Tts.GetEngineBySlug | client/tts.py:192-216 | a slug that is not a non-empty `str` raises TypeError and nothing else does; no match raises ValueError; otherwise the first match, or ValueError when that engine is unavailable; a returned engine is listed, has the slug and is available |
| Tts.GetEngineBySlugAsWritten | client/tts.py:209-211 | with more than one matching engine the call raises TypeError; otherwise it behaves as the corrected lookup |
| Tts.DuplicateSlugRaises | client/tts.py:209-212 | two available engines share a slug: the code as written raises TypeError where the intended lookup returns the first |
| Tts.OnlyFestivalRegistered | client/tts.py:118-124 | the registry holds exactly FestivalTTS, with slug 'festival-tts'; both abstract classes are excluded |
| Tts.DefaultSlugNotRegistered | client/tts.py:188-207 | with the classes of client/tts.py, looking up the default slug raises "No TTS engine found" |
| Tts.GetInstance | client/tts.py:57-65 | an instance is built with the empty configuration |
| Stt.IsAvailable | client/stt.py:69-72 | defines `is_available` for each engine class: always for the base, the network check for AttSTT; `Stt.Availability` states this per class |
| Stt.Availability | client/stt.py:150-152 | AttSTT is available iff the network check succeeds; Ibm inherits `True` |
| Stt.IbmAndAttRegistered | client/stt.py:171-180 | the registry holds exactly Ibm ('IBM') and AttSTT ('ATT') |
| Stt.GetEngineBySlug | client/stt.py:155-168 | returns the first listed engine whose SLUG equals the argument, with no type or availability check; raises ValueError when there is none |
| Stt.ShownSlugsResolve | client/stt.py:164-166 | in any order of the registry, 'IBM' selects Ibm, 'ATT' selects AttSTT, and `None` selects nothing |
| Stt.ProfileConfig | client/stt.py:30-44 | defines the configuration a profile yields, errors included; `Stt.ProfileConfigShape` states its cases and `Stt.GetConfig` is proved equal to it |
| Stt.GetConfig | client/stt.py:30-44 | filling `config` from the profile yields the configuration `ProfileConfig` defines, errors included |
| Stt.ProfileConfigShape | client/stt.py:33-44 | empty without a profile or without `keys`; exactly userName = keys.USER and password = keys.PASS with them; KeyError when USER or PASS is missing; TypeError for an empty profile |
| Stt.VocabularyStore.Compile | client/stt.py:53-54 | compiling records the phrase set for that vocabulary, so it then matches the phrases |
| Stt.GetInstance | client/stt.py:46-57 | with a vocabulary type, compile runs iff the cached vocabulary did not match, and the vocabulary is passed as `vocabulary`; without one no such key is added and nothing is compiled; profile errors propagate |
| Stt.GetPassiveInstance | client/stt.py:59-62 | the instance gets the profile's credentials plus the 'keyword' vocabulary; 'keyword' is compiled iff it did not match the keyword phrases, it matches them afterwards, and no other vocabulary changes; without a vocabulary type only the credentials are passed and nothing is compiled |
| Stt.GetActiveInstance | client/stt.py:64-67 | the instance gets the profile's credentials plus the 'default' vocabulary; 'default' is compiled iff it did not match all phrases, it matches them afterwards, and no other vocabulary changes; without a vocabulary type only the credentials are passed and nothing is compiled |
| Stt.Transcribe | client/stt.py:91-148 | profile errors and missing credentials raise; with credentials, any recogniser exception other than the two handled ones is swallowed by the `finally`, whose `return mensaje` raises UnboundLocalError instead, and that is the only error; success returns the transcript, UnknownValueError the vendor's message, RequestError the IBM prefix plus the error text |
| Stt.TranscribeNeedsKeys | client/stt.py:98-110 | unless the recogniser raises something else, transcription returns text iff the profile has both keys |
| Stt.VendorsDifferOnlyOnUnknownValue | client/stt.py:142-145 | the IBM and AT&T engines give the same result except when the audio is not understood |
| Microphone.Speaker.Say | client/mic.py:123 | the phrase is appended to what was spoken; nothing is played |
| Microphone.Speaker.Play | client/mic.py:100 | the file is appended to what was played; nothing is spoken |
| Microphone.InterpretedPhrase | client/mic.py:62-69 | the phrase is a byte string, "" after a timeout, and the transcript itself when that is ASCII |
| Text.Utf8KeepsAsciiNeedle | client/mic.py:65-71 | an ASCII keyword in the transcript is still found in its UTF-8 bytes |
| Microphone.TimeoutFindsOnlyEmptyKeyword | client/mic.py:67-71 | after a timeout the keyword is reported iff it is empty |
| Microphone.SpokenKeywordFound | client/mic.py:64-71 | an ASCII keyword spoken anywhere is reported |
| Microphone.FirstOption | client/mic.py:88-90 | None iff the options string is empty, otherwise its first character |
| Microphone.ActiveListenResult | client/mic.py:88-117 | a timeout gives None; a heard transcript gives the first byte of its encoding |
| Microphone.Mic.constructor | client/mic.py:24-36 | the mic keeps the speaker and the speech-to-text engine it was given |
| Microphone.Mic.PassiveListen | client/mic.py:48-76 | returns the threshold the recogniser holds after the listen in both branches, and PERSONA iff it occurs in the interpreted phrase, None otherwise |
| Microphone.Mic.ActiveListenToAllOptions | client/mic.py:92-117 | plays beep_hi.wav exactly once, speaks nothing, and returns the encoded transcript or "" on a timeout |
| Microphone.Mic.ActiveListen | client/mic.py:81-90 | plays the beep once and returns the first option of what was heard |
| Microphone.Mic.Say | client/mic.py:119-123 | exactly one `speaker.say`, with the cleaned phrase; nothing is played |
| Noticias.IsValid | client/modules/Noticias.py:55-62 | defines `isValid` as a scan for a bounded trigger word from position 0; `Noticias.IsValidMeansWholeWord` states what it accepts |
| Noticias.SearchFromSound | client/modules/Noticias.py:62 | a successful scan found a match at or after its start |
| Noticias.SearchFromComplete | client/modules/Noticias.py:62 | a match at or after the start makes the scan succeed |
| Noticias.IsValidMeansWholeWord | client/modules/Noticias.py:62 | `isValid` holds iff 'noticias' or 'titulares', in any ASCII case, stands between non-word characters or string ends |
| Noticias.WordBetweenSeparatorsAccepted | client/modules/Noticias.py:62 | a trigger word in any ASCII case between separators is accepted |
| Noticias.AcceptedContainsWord | client/modules/Noticias.py:62 | every accepted text contains one of the two words once lower-cased |
| Noticias.GluedWordRejected | client/modules/Noticias.py:62 | "xnoticias" is rejected: the word needs a boundary |
| Noticias.UpperCaseWordAccepted | client/modules/Noticias.py:62 | "Las NOTICIAS" is accepted: case is ignored |
| Noticias.Reached | client/modules/Noticias.py:22-28 | the loop never reaches more items than the feed has |
| Noticias.GetTopArticles | client/modules/Noticias.py:19-30 | all items without a truthy limit, otherwise min(n, limit + 1), or min(n, 1) for a negative limit; articles in feed order with the URL cut out of each link; IndexError iff a reached link lacks "&url=" |
| Noticias.ArticlesOfSnoc | client/modules/Noticias.py:25 | appending the next item's article keeps the articles in feed order |
| Noticias.AtMostFourArticles | client/modules/Noticias.py:27 | with the handler's limit of 3 the feed yields min(n, 4) articles |
| Noticias.UrlOf | client/modules/Noticias.py:25 | defines the URL cut from a link as piece [1] of the split on "&url="; `Noticias.UrlOfIsSecondPiece` states which text that is |
| Noticias.UrlOfHasNoMarker | client/modules/Noticias.py:25 | the URL cut from a link never contains "&url=" |
| Noticias.UrlOfIsSecondPiece | client/modules/Noticias.py:25 | the URL is what lies between the first "&url=" and the next one, or the end |
| Noticias.SpokenTitle | client/modules/Noticias.py:47 | defines a spoken title as the title without its last " - " piece; `Noticias.TitleWithoutSourceIsDropped` and `Noticias.SourceStripped` state both cases |
| Noticias.TitleWithoutSourceIsDropped | client/modules/Noticias.py:47 | a title without " - " is spoken as "" |
| Noticias.SourceStripped | client/modules/Noticias.py:47 | "headline - source" is spoken as the headline |
| Noticias.Headlines | client/modules/Noticias.py:48-49 | defines the numbered headlines joined by "... "; `Noticias.HeadlinesSnoc` and `Noticias.ThreeHeadlines` state their shape |
| Noticias.NumberedSnoc | client/modules/Noticias.py:48-49 | numbering a longer list numbers the new title with its position from 1 |
| Noticias.HeadlinesSnoc | client/modules/Noticias.py:48-49 | one more title adds "... " and that title with its number |
| Noticias.ThreeHeadlines | client/modules/Noticias.py:48-49 | three titles read "1)a... 2)b... 3)c" |
| Noticias.DropNonAsciiPerTitle | client/modules/Noticias.py:48-51 | `encode('ascii', 'ignore')` of the joined headlines equals the headlines of the titles each encoded on its own: numbers and separators are never dropped |
| Noticias.AsciiTitlesSpokenWhole | client/modules/Noticias.py:48-51 | when every title is ASCII, the headlines are read out with nothing dropped |
| Noticias.Handle | client/modules/Noticias.py:33-51 | says "Buscando las noticias" first; any error escapes after that one phrase; otherwise exactly one more phrase, the intro plus the numbered spoken titles of the first min(n, 4) items with non-ASCII dropped |
| Life.IsValid | client/modules/Life.py:19-26 | defines `isValid` as ASCII-case-insensitive containment of "vida"; `Life.IsValidMeansFoldedWindow` states what it accepts |
| Life.IsValidMeansFoldedWindow | client/modules/Life.py:26 | `isValid` holds iff some four consecutive characters fold to "vida" |
| Life.Monotone | client/modules/Life.py:26 | text around an accepted text keeps it accepted |
| Life.AcceptedAnywhere | client/modules/Life.py:26 | "vida" in any ASCII case is accepted with anything around it; no word boundary is needed |
| Life.InsideWordsAccepted | client/modules/Life.py:26 | "vidas" and "Convida" are accepted |
| Life.OtherWordRejected | client/modules/Life.py:26 | "Viva" is rejected |
| Life.Handle | client/modules/Life.py:5-16 | exactly one phrase is said, the fixed reply `REPLY`, a byte string that is not ASCII |
| Life.ReplyLettersUtf8 | client/modules/Life.py:16 | the accented letters "ú", "ó" and "ñ" encode to the byte pairs `REPLY` holds |
| Life.HandleIgnoresInput | client/modules/Life.py:5-16 | the reply depends on neither the text nor the profile |
| Unclear.Priority | client/modules/Unclear.py:7 | the priority is at or below the least 32-bit integer |
| Unclear.PriorityIsMinimal | client/modules/Unclear.py:7 | the priority is itself a value of the build's machine `int`, and no such value is below it |
| Unclear.IsValid | client/modules/Unclear.py:30-31 | every text is accepted; `Handlers.Matching` states that the fallback always matches |
| Unclear.Handle | client/modules/Unclear.py:21-27 | exactly one phrase is said: the message `random.choice` picked, one of the four |
| Unclear.HandleIgnoresInput | client/modules/Unclear.py:10-27 | the answer depends only on the random choice |
| Handlers.Matching | client/modules/Unclear.py:30-31 | the fallback always matches; the news and life handlers match iff their predicates hold |
| Handlers.SomeModuleMatches | client/modules/Unclear.py:30-31 | every text matches at least one handler |
| Handlers.UnclearRanksLowest | client/modules/Unclear.py:7 | the fallback's priority is strictly below every other declared priority (Noticias: 3) |

## Left out

- Audio capture, ambient-noise calibration and listening (`sr.Recognizer`, `sr.Microphone`, `pyaudio`) belong to a foreign library. Their results are arguments: the threshold the recogniser holds after the listen, and a `Capture`.
- The recogniser's network calls and `diagnose.check_network_connection` are remote. They become a `Recognition` outcome and a boolean.
- Synthesis and playback through `os.system`, `subprocess` and `mad`/`wave` are operating-system I/O. Only their availability checks are modelled, as facts in `Tts.Machine`. The speaker only records what it was asked to say and play.
- Reading `profile.yml` with YAML happens outside the model; the parsed result is a `ProfileFile`. A `keys` section with non-string values, a `keys:` entry left empty (YAML loads it as None, so `profile['keys']['USER']` raises TypeError), or a profile that is not a mapping, is not modelled.
- Feed fetching with `feedparser.parse` happens outside the model; the items are passed in. Items without a `title` or `link` key, which would raise KeyError, are not modelled.
- `random.choice` is randomness, so it becomes an index parameter.
- `alteration.clean` and `vocabcompiler` are not part of this model. `clean` is a function-valued field of `Mic`. A compiled vocabulary is represented by the phrase set it was compiled for, and `matches_phrases` compares sets.
- Logging, `print`, and the `__main__` blocks of `tts.py` and `stt.py` are output only. The text of the duplicate-slug warning is not modelled.
- `client/populate.py` is interactive prompting and a YAML file write, so it is not part of this model.
- The intent router, which compares priorities and dispatches, is not part of this model. `Handlers` states only which modules match and what priorities they declare.
- Microphone.Mic.PassiveListen, Microphone.Mic.ActiveListenToAllOptions, Microphone.Mic.ActiveListen: the `transcribe` call inside the listen is not followed. The transcript is an argument, so the KeyError or UnboundLocalError that `transcribe` can raise does not escape them as it does at client/mic.py:64 and client/mic.py:110. The `THRESHOLD=None` default of `activeListen` is not represented: the threshold is a `real`.
- Microphone.Mic.ActiveListenToAllOptions: `r.energy_threshold = threshold` (client/mic.py:103) sets the threshold of the recogniser, which is not modelled, so the threshold argument has no effect in the model.
- Life.ReplyLettersUtf8: `REPLY` is written as its UTF-8 bytes; the model proves the encoding of each accented letter, not `Utf8Encode` of the whole reply, whose evaluation on a literal is too costly for the verifier.
- Microphone.InterpretedPhrase: `mensaje.encode('utf-8')` is modelled on Unicode text. A transcript that is already a non-ASCII byte string would raise UnicodeDecodeError in Python 2; that case is not modelled.
- Noticias.Handle: the feed titles are treated as Unicode text whose non-ASCII characters `encode('ascii', 'ignore')` drops. The Python 2 mixing of byte and Unicode strings is not modelled beyond that.
- Tts.IsAvailable: the `FestivalVoice` rule is that of FestivalTTS itself, its parent's check plus the festival programs and voice. A subclass of FestivalTTS inheriting `is_available` would recurse without end through `super(cls, cls)` (client/tts.py:128); that recursion is not modelled.
- Unclear.Priority: `sys.maxint` is taken to be that of a 32-bit or a 64-bit build, the two cases the contract covers.

## Findings

| source | as written | input that shows it | evidently intended | confidence | as-written member | corrected member |
|---|---|---|---|---|---|---|
| client/tts.py:209-211 | the warning is `"...'%s'. " + "This is most certainly a bug." % slug`; `%` binds tighter than `+` and applies to a literal with no placeholder, so it raises TypeError ("not all arguments converted") | two available engines with SLUG 'x', looked up with `get_engine_by_slug('x')` | print a warning, then return the first matching engine when it is available | not executed | Tts.GetEngineBySlugAsWritten, Tts.DuplicateSlugRaises | Tts.GetEngineBySlug |
