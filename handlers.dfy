/**
 * The three intent handler modules side by side: which of them accept a text and the
 * priorities they declare. How a router picks among the accepting modules is not part
 * of this model.
 */
module Handlers {
  import opened Wrappers
  import Noticias
  import Life
  import Unclear

  datatype Handler = NoticiasHandler | LifeHandler | UnclearHandler

  /** `module.isValid(text)` for each module. */
  predicate Accepts(h: Handler, text: string)
  {
    match h
    case NoticiasHandler => Noticias.IsValid(text)
    case LifeHandler => Life.IsValid(text)
    case UnclearHandler => Unclear.IsValid(text)
  }

  /** The modules whose `isValid` holds for `text`. */
  function Matching(text: string): (r: set<Handler>)
    ensures UnclearHandler in r
    ensures NoticiasHandler in r <==> Noticias.IsValid(text)
    ensures LifeHandler in r <==> Life.IsValid(text)
  {
    set h: Handler | h in {NoticiasHandler, LifeHandler, UnclearHandler} && Accepts(h, text)
  }

  /** The `PRIORITY` a module declares; Life declares none. */
  function Priority(h: Handler, maxint: int): (r: Option<int>)
    requires Unclear.IsMaxint(maxint)
  {
    match h
    case NoticiasHandler => Some(Noticias.PRIORITY)
    case LifeHandler => None
    case UnclearHandler => Some(Unclear.Priority(maxint))
  }

  /** The fall-back's priority is strictly below that of every other module that declares one. */
  lemma UnclearRanksLowest(h: Handler, maxint: int)
    requires Unclear.IsMaxint(maxint)
    requires h != UnclearHandler && Priority(h, maxint).Some?
    ensures Priority(UnclearHandler, maxint).value < Priority(h, maxint).value
  {
  }

  /** Any text matches at least one module. */
  lemma SomeModuleMatches(text: string)
    ensures Matching(text) != {}
  {
    assert UnclearHandler in Matching(text);
  }
}
