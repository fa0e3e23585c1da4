/**
 * The engine registries of the TTS and STT modules. Both discover their engines the same
 * way: `get_subclasses` walks the class hierarchy below an abstract base, and
 * `get_engines` keeps the classes whose `SLUG` attribute is truthy. The hierarchy is an
 * explicit list of class declarations, each naming its base class by position: Python
 * requires a base class to exist before its subclasses, so a base always comes first.
 */
module Registry {
  import opened Wrappers

  /**
   * One engine class. `slug` is the class's effective `SLUG` attribute (its own or an
   * inherited one), with "" standing for both "no SLUG" and an empty one; `traits` holds
   * what the concrete module needs to know about the class (its `is_available`, ...).
   */
  datatype ClassDecl<T> = ClassDecl(name: string, base: Option<nat>, slug: string, traits: T)

  type Hierarchy<T> = seq<ClassDecl<T>>

  /** A Python value passed as the `slug` argument of `get_engine_by_slug`. */
  datatype SlugArg = NoneValue | Str(value: string) | Unicode(value: string) | Other(text: string)

  /** The slug as `'%s' % slug` renders it. */
  function SlugText(slug: SlugArg): string
  {
    match slug
    case NoneValue => "None"
    case Str(v) => v
    case Unicode(v) => v
    case Other(t) => t
  }

  predicate WellFormed<T>(h: Hierarchy<T>)
  {
    forall i :: 0 <= i < |h| && h[i].base.Some? ==> h[i].base.value < i
  }

  predicate InRange<T>(h: Hierarchy<T>, xs: seq<nat>)
  {
    forall k :: 0 <= k < |xs| ==> xs[k] < |h|
  }

  predicate Distinct(xs: seq<nat>)
  {
    forall j, k :: 0 <= j < k < |xs| ==> xs[j] != xs[k]
  }

  /** Class `i` is a (direct or indirect) subclass of class `c`. */
  predicate Descends<T>(h: Hierarchy<T>, i: nat, c: nat)
    requires WellFormed(h) && i < |h|
    decreases i
  {
    h[i].base.Some? && (h[i].base.value == c || Descends(h, h[i].base.value, c))
  }

  /** All transitive subclasses of class `c`. */
  function Subclasses<T>(h: Hierarchy<T>, c: nat): set<nat>
    requires WellFormed(h)
  {
    set i: nat | i < |h| && Descends(h, i, c)
  }

  /** The subclasses `get_engines` reports: those of `root` with a truthy SLUG. */
  function EngineSet<T>(h: Hierarchy<T>, root: nat): set<nat>
    requires WellFormed(h)
  {
    set i: nat | i < |h| && Descends(h, i, root) && h[i].slug != ""
  }

  /** The direct subclasses of `c` among the first `n` classes, in declaration order. */
  function ChildrenBelow<T>(h: Hierarchy<T>, c: nat, n: nat): (r: seq<nat>)
    requires WellFormed(h) && n <= |h|
    ensures forall k :: 0 <= k < |r| ==> r[k] < n && h[r[k]].base == Some(c) && c < r[k]
    ensures forall j :: 0 <= j < n && h[j].base == Some(c) ==> j in r
  {
    if n == 0 then []
    else ChildrenBelow(h, c, n - 1) + (if h[n - 1].base == Some(c) then [n - 1] else [])
  }

  /** `cls.__subclasses__()`: the direct subclasses of `c`. */
  function DirectSubclasses<T>(h: Hierarchy<T>, c: nat): (r: seq<nat>)
    requires WellFormed(h)
    ensures forall k :: 0 <= k < |r| ==> r[k] < |h| && h[r[k]].base == Some(c) && c < r[k]
    ensures forall j :: 0 <= j < |h| && h[j].base == Some(c) ==> j in r
  {
    ChildrenBelow(h, c, |h|)
  }

  /** What the loop of `get_subclasses` has collected after visiting the children `cs`. */
  function Covered<T>(h: Hierarchy<T>, cs: seq<nat>): set<nat>
    requires WellFormed(h) && InRange(h, cs)
  {
    if cs == [] then {}
    else Covered(h, cs[..|cs| - 1]) + {cs[|cs| - 1]} + Subclasses(h, cs[|cs| - 1])
  }

  /** `get_subclasses(cls)`: the set of all transitive subclasses of `c`. */
  method GetSubclasses<T>(h: Hierarchy<T>, c: nat) returns (subclasses: set<nat>)
    requires WellFormed(h) && c < |h|
    ensures subclasses == Subclasses(h, c)
    decreases |h| - c
  {
    subclasses := {};
    var direct := DirectSubclasses(h, c);
    for k := 0 to |direct|
      invariant subclasses == Covered(h, direct[..k])
    {
      var sub := direct[k];
      subclasses := subclasses + {sub};
      var deeper := GetSubclasses(h, sub);
      subclasses := subclasses + deeper;
      assert direct[..k + 1][..k] == direct[..k];
    }
    assert direct[..|direct|] == direct;
    CoveredByDirectSubclasses(h, c);
  }

  /** `get_engines()`: every subclass of `root` with a truthy SLUG, once each, in the unspecified order of `list(set)`. */
  method GetEngines<T>(h: Hierarchy<T>, root: nat) returns (engines: seq<nat>)
    requires WellFormed(h) && root < |h|
    ensures InRange(h, engines) && Distinct(engines)
    ensures forall i :: i in engines <==> i in EngineSet(h, root)
  {
    var subclasses := GetSubclasses(h, root);
    var listed: seq<nat> := [];
    var rest := subclasses;
    while rest != {}
      invariant rest <= subclasses
      invariant forall i :: i in listed <==> i in subclasses && i !in rest
      invariant Distinct(listed) && InRange(h, listed)
      decreases rest
    {
      var x :| x in rest;
      listed := listed + [x];
      rest := rest - {x};
    }
    engines := WithSlug(h, listed);
  }

  /** The comprehension `[e for e in xs if hasattr(e, 'SLUG') and e.SLUG]`. */
  function WithSlug<T>(h: Hierarchy<T>, xs: seq<nat>): (r: seq<nat>)
    requires InRange(h, xs)
    ensures InRange(h, r)
    ensures forall i :: i in r <==> i in xs && h[i].slug != ""
    ensures Distinct(xs) ==> Distinct(r)
  {
    if xs == [] then []
    else (if h[xs[0]].slug != "" then [xs[0]] else []) + WithSlug(h, xs[1..])
  }

  /** The position in `engines` of the first engine whose SLUG is `slug`. */
  function FirstMatch<T>(h: Hierarchy<T>, engines: seq<nat>, slug: string): (r: Option<nat>)
    requires InRange(h, engines)
    ensures r.Some? ==> r.value < |engines| && h[engines[r.value]].slug == slug
    ensures r.Some? ==> forall k :: 0 <= k < r.value ==> h[engines[k]].slug != slug
    ensures r.None? ==> forall k :: 0 <= k < |engines| ==> h[engines[k]].slug != slug
  {
    if engines == [] then None
    else if h[engines[0]].slug == slug then Some(0)
    else match FirstMatch(h, engines[1..], slug)
      case None => None
      case Some(k) => Some(k + 1)
  }

  // ---------------------------------------------------------------- lemmas

  /** Subclassing is transitive. */
  lemma {:induction false} DescendsTrans<T>(h: Hierarchy<T>, x: nat, d: nat, c: nat)
    requires WellFormed(h) && x < |h| && d < |h|
    requires Descends(h, x, d) && Descends(h, d, c)
    ensures Descends(h, x, c)
    decreases x
  {
    var p := h[x].base.value;
    if p != d {
      DescendsTrans(h, p, d, c);
    }
  }

  /** A subclass of `c` is a direct subclass of `c` or lies below one. */
  lemma {:induction false} DescendsViaChild<T>(h: Hierarchy<T>, x: nat, c: nat)
    requires WellFormed(h) && x < |h|
    ensures Descends(h, x, c) <==>
      exists d :: 0 <= d < |h| && h[d].base == Some(c) && (x == d || Descends(h, x, d))
    decreases x
  {
    if Descends(h, x, c) {
      var p := h[x].base.value;
      if p != c {
        DescendsViaChild(h, p, c);
        var d :| 0 <= d < |h| && h[d].base == Some(c) && (p == d || Descends(h, p, d));
        assert Descends(h, x, d);
      }
    }
    if exists d :: 0 <= d < |h| && h[d].base == Some(c) && (x == d || Descends(h, x, d)) {
      var d :| 0 <= d < |h| && h[d].base == Some(c) && (x == d || Descends(h, x, d));
      assert Descends(h, d, c);
      if x != d {
        DescendsTrans(h, x, d, c);
      }
    }
  }

  lemma {:induction false} CoveredMembers<T>(h: Hierarchy<T>, cs: seq<nat>, x: nat)
    requires WellFormed(h) && InRange(h, cs)
    ensures x in Covered(h, cs) <==>
      exists k :: 0 <= k < |cs| && (x == cs[k] || (x < |h| && Descends(h, x, cs[k])))
    decreases |cs|
  {
    if cs != [] {
      var init := cs[..|cs| - 1];
      CoveredMembers(h, init, x);
      if exists k :: 0 <= k < |init| && (x == init[k] || (x < |h| && Descends(h, x, init[k]))) {
        var k :| 0 <= k < |init| && (x == init[k] || (x < |h| && Descends(h, x, init[k])));
        assert cs[k] == init[k];
      }
      if exists k :: 0 <= k < |cs| && (x == cs[k] || (x < |h| && Descends(h, x, cs[k]))) {
        var k :| 0 <= k < |cs| && (x == cs[k] || (x < |h| && Descends(h, x, cs[k])));
        if k < |init| {
          assert init[k] == cs[k];
        }
      }
    }
  }

  /** The children loop of `get_subclasses` collects exactly the transitive subclasses. */
  lemma CoveredByDirectSubclasses<T>(h: Hierarchy<T>, c: nat)
    requires WellFormed(h)
    ensures Covered(h, DirectSubclasses(h, c)) == Subclasses(h, c)
  {
    var direct := DirectSubclasses(h, c);
    forall x: nat
      ensures x in Covered(h, direct) <==> x in Subclasses(h, c)
    {
      CoveredMembers(h, direct, x);
      if x < |h| {
        DescendsViaChild(h, x, c);
        if Descends(h, x, c) {
          var d :| 0 <= d < |h| && h[d].base == Some(c) && (x == d || Descends(h, x, d));
          var k :| 0 <= k < |direct| && direct[k] == d;
        }
      }
      if x in Covered(h, direct) {
        var k :| 0 <= k < |direct| && (x == direct[k] || (x < |h| && Descends(h, x, direct[k])));
        if x == direct[k] {
          assert Descends(h, x, c);
        } else {
          DescendsTrans(h, x, direct[k], c);
        }
      }
    }
  }
}
