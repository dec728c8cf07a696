/** The lazily initialised singleton accessor.

    The class keeps one static slot, empty when the program starts. The
    accessor constructs the single instance on its first call, stores it in the
    slot, and from then on returns what the slot holds. The static slot is made
    explicit here as a `Slot` object handed to the accessor, and a ghost counter
    records how many instances the accessor has constructed.
 */
module Singleton {

  /** The singleton type itself: it carries no state, only an identity. */
  class ThreadSafeSingleton {
    constructor () {}
  }

  /** The static `instance` field, plus a ghost count of constructions. */
  class Slot {
    var instance: ThreadSafeSingleton?
    ghost var constructions: nat

    /** At most one construction ever, and the slot is filled exactly when
        that construction has happened. */
    ghost predicate Valid()
      reads this
    {
      && constructions <= 1
      && (instance == null <==> constructions == 0)
    }

    /** Program start: the slot is empty and nothing has been constructed. */
    constructor ()
      ensures instance == null && constructions == 0
      ensures Valid()
    {
      instance := null;
      constructions := 0;
    }
  }

  /** Returns the single instance, constructing and storing it when the slot
      is still empty. */
  method GetInstance(s: Slot) returns (r: ThreadSafeSingleton)
    requires s.Valid()
    modifies s
    ensures s.Valid()
    ensures s.instance == r
    ensures old(s.instance) != null ==>
      r == old(s.instance) && s.constructions == old(s.constructions)
    ensures old(s.instance) == null ==>
      fresh(r) && s.constructions == old(s.constructions) + 1
  {
    if s.instance == null {
      var made := new ThreadSafeSingleton();
      s.instance := made;
      s.constructions := s.constructions + 1;
    }
    r := s.instance;
  }

  /** Any number of calls in a row: every call returns the object the slot
      ends up holding, and at most one construction has happened overall. */
  method GetInstanceRepeatedly(s: Slot, n: nat) returns (rs: seq<ThreadSafeSingleton>)
    requires s.Valid()
    modifies s
    ensures s.Valid() && s.constructions <= 1
    ensures |rs| == n
    ensures forall i :: 0 <= i < n ==> rs[i] == s.instance
    ensures old(s.instance) != null ==>
      s.instance == old(s.instance) && s.constructions == old(s.constructions)
    ensures old(s.instance) == null && n > 0 ==> s.constructions == 1
    ensures n == 0 ==> s.instance == old(s.instance)
  {
    rs := [];
    while |rs| < n
      invariant s.Valid()
      invariant |rs| <= n
      invariant forall i :: 0 <= i < |rs| ==> rs[i] == s.instance
      invariant old(s.instance) != null ==>
        s.instance == old(s.instance) && s.constructions == old(s.constructions)
      invariant old(s.instance) == null && |rs| > 0 ==> s.constructions == 1
      invariant |rs| == 0 ==> s.instance == old(s.instance)
    {
      var r := GetInstance(s);
      rs := rs + [r];
    }
  }
}
