/**
 * The fall-back intent handler (client/modules/Unclear.py): it accepts every text, has
 * the lowest priority a machine integer can hold, and answers with one of four
 * apologies chosen at random. The random choice is an index parameter.
 */
module Unclear {
  import opened Text

  /** The module declares no keywords. */
  const WORDS: seq<string> := []

  /** `sys.maxint` on a 32-bit and on a 64-bit build of Python 2. */
  const MAXINT_32: int := 0x7fff_ffff
  const MAXINT_64: int := 0x7fff_ffff_ffff_ffff

  predicate IsMaxint(maxint: int)
  {
    maxint == MAXINT_32 || maxint == MAXINT_64
  }

  /** `PRIORITY = -(maxint + 1)`, for the build's `sys.maxint`. */
  function Priority(maxint: int): (p: int)
    requires IsMaxint(maxint)
    ensures p <= -0x8000_0000
  {
    -(maxint + 1)
  }

  /**
   * The priority is the least machine integer: it is itself a value of the build's `int`,
   * and no other value of that type lies below it.
   */
  lemma PriorityIsMinimal(maxint: int, q: int)
    requires IsMaxint(maxint)
    requires -maxint - 1 <= q <= maxint
    ensures -maxint - 1 <= Priority(maxint) <= maxint
    ensures Priority(maxint) <= q
  {
  }

  /**
   * The four apologies as the UTF-8 byte strings of the source; `\U{C2}\U{BF}` is the
   * two-byte "¿".
   */
  const MESSAGES: seq<string> := [
    "Perdone, lo lo entiendo , \U{C2}\U{BF}puede repetirlo?",
    "Lo siento, \U{C2}\U{BF}Podria repetirlo?",
    "Digalo otra vez por favor",
    "\U{C2}\U{BF}Perdon?"
  ]

  /** `isValid(text)`. */
  predicate IsValid(text: string)
  {
    true
  }

  /** `handle(text, mic, profile)` with `random.choice` returning `MESSAGES[choice]`. */
  function Handle(text: string, profile: map<string, string>, choice: nat): (said: seq<string>)
    requires choice < |MESSAGES|
    ensures said == [MESSAGES[choice]]
    ensures |said| == 1 && said[0] in MESSAGES
  {
    [MESSAGES[choice]]
  }

  /** The answer depends only on the random choice. */
  lemma HandleIgnoresInput(t1: string, p1: map<string, string>, t2: string, p2: map<string, string>, choice: nat)
    requires choice < |MESSAGES|
    ensures Handle(t1, p1, choice) == Handle(t2, p2, choice)
  {
  }
}
